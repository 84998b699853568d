/**
 Scenario independence. One latency scenario seen on its own is a lane: its due executions and
 its account. A lane runs on the market alone, so no other latency can influence it.
 */
module SimLanes {
  import opened Options
  import opened TimedQueues
  import opened Simulator

  datatype Due = Due(ts: int, window: nat)
  datatype Lane = Lane(due: seq<Due>, account: Account)

  /** The pending executions of one latency, in queue order. */
  function DueOf(q: seq<Entry<Pending>>, lat: int): seq<Due> {
    if q == [] then []
    else (if q[0].item.latency == lat then [Due(q[0].ts, q[0].item.window)] else []) + DueOf(q[1..], lat)
  }

  function LaneOf(x: Accounts, lat: int): Lane
    requires lat in x.byLatency
  {
    Lane(DueOf(x.queue, lat), x.byLatency[lat])
  }

  /** First come, first served among equal times. */
  function Enqueue(due: seq<Due>, d: Due): seq<Due> {
    if due == [] || d.ts < due[0].ts then [d] + due else [due[0]] + Enqueue(due[1..], d)
  }

  function EnqueueN(due: seq<Due>, d: Due, copies: nat): seq<Due> {
    if copies == 0 then due else Enqueue(EnqueueN(due, d, copies - 1), d)
  }

  function LaneSettle(t: Trading, m: Market, a: Account, lat: int, d: Due, inStream: bool): Account {
    if d.window >= |m.windows| then a
    else Settle(t, m, a, lat, d.ts, d.window, if inStream then INF_TTL else m.lastTs - m.windows[d.window].tsOpen)
  }

  /** What executing one due entry does to the account. */
  function Settler(t: Trading, m: Market, lat: int, inStream: bool): (Account, Due) -> Account {
    (a: Account, d: Due) => LaneSettle(t, m, a, lat, d, inStream)
  }

  /** Settles, front to back, what is due by `now`. */
  function FireWith(f: (Account, Due) -> Account, l: Lane, now: int): Lane
    decreases |l.due|
  {
    if l.due == [] || l.due[0].ts > now then l
    else FireWith(f, Lane(l.due[1..], f(l.account, l.due[0])), now)
  }

  /** Settles everything. */
  function DrainWith(f: (Account, Due) -> Account, l: Lane): Lane
    decreases |l.due|
  {
    if l.due == [] then l else DrainWith(f, Lane(l.due[1..], f(l.account, l.due[0])))
  }

  function LaneFire(t: Trading, m: Market, l: Lane, lat: int, now: int): Lane {
    FireWith(Settler(t, m, lat, true), l, now)
  }

  function LaneDrain(t: Trading, m: Market, l: Lane, lat: int): Lane {
    DrainWith(Settler(t, m, lat, false), l)
  }

  /** Windows `lo` up to `hi` enter the lane, each `copies` times. */
  function LaneOpen(due: seq<Due>, lo: nat, hi: nat, ts: int, copies: nat): seq<Due>
    requires lo <= hi
  {
    if lo == hi then due else EnqueueN(LaneOpen(due, lo, hi - 1, ts, copies), Due(ts, hi - 1), copies)
  }

  /** One event at `now` takes the market from `m` to `k`. */
  function LaneStep(t: Trading, m: Market, k: Market, l: Lane, lat: int, copies: nat, now: int): Lane {
    var f := LaneFire(t, m, l, lat, now);
    f.(due := if |m.windows| <= |k.windows| then LaneOpen(f.due, |m.windows|, |k.windows|, now + lat, copies) else f.due)
  }

  /** The market before the first event and after each. */
  function Path(r: Rules, es: seq<Event>): (ms: seq<Market>)
    ensures |ms| == |es| + 1
  {
    seq(|es| + 1, i requires 0 <= i <= |es| => MarketAfter(r, es, i))
  }

  /** The lane of one latency after the first `n` events, along a market and with no other latency in sight. */
  function LaneAlong(ms: seq<Market>, t: Trading, lat: int, copies: nat, es: seq<Event>, n: nat): Lane
    requires n <= |es| && n < |ms|
  {
    if n == 0 then Lane([], Account(Funded(t), map[], []))
    else LaneStep(t, ms[n - 1], ms[n], LaneAlong(ms, t, lat, copies, es, n - 1), lat, copies, es[n - 1].book.ts)
  }

  function LaneAfter(r: Rules, t: Trading, lat: int, copies: nat, es: seq<Event>, n: nat): Lane
    requires n <= |es|
  {
    LaneAlong(Path(r, es), t, lat, copies, es, n)
  }

  function Count(lats: seq<int>, n: nat, lat: int): nat
    requires n <= |lats|
  {
    if n == 0 then 0 else Count(lats, n - 1, lat) + if lats[n - 1] == lat then 1 else 0
  }

  // ---- projecting the shared queue ----

  lemma {:induction false} DueLater(q: seq<Entry<Pending>>, lat: int, ts: int)
    requires forall i :: 0 <= i < |q| ==> ts < q[i].ts
    ensures forall i :: 0 <= i < |DueOf(q, lat)| ==> ts < DueOf(q, lat)[i].ts
  {
    if q != [] {
      DueLater(q[1..], lat, ts);
    }
  }

  /** The newest entry joins its own lane behind everything due no later, and leaves the other lanes alone. */
  lemma {:induction false} PushLane(q: seq<Entry<Pending>>, e: Entry<Pending>, lat: int)
    requires InOrder(q) && Older(q, e.order)
    ensures DueOf(Push(q, e), lat) ==
            if e.item.latency == lat then Enqueue(DueOf(q, lat), Due(e.ts, e.item.window)) else DueOf(q, lat)
  {
    var r, d := Push(q, e), Due(e.ts, e.item.window);
    if q == [] || Precedes(e, q[0]) {
      assert r[1..] == q;
      if q != [] {
        forall i | 0 <= i < |q| ensures e.ts < q[i].ts {
          assert i == 0 || Precedes(q[0], q[i]);
        }
        DueLater(q, lat, e.ts);
      }
    } else {
      PushLane(q[1..], e, lat);
      assert r[1..] == Push(q[1..], e);
      var rest := DueOf(q[1..], lat);
      assert r[0] == q[0] && q[0].ts <= e.ts;
      if q[0].item.latency == lat {
        assert DueOf(q, lat) == [Due(q[0].ts, q[0].item.window)] + rest;
        assert DueOf(q, lat)[1..] == rest;
      } else {
        assert DueOf(q, lat) == rest;
        assert DueOf(r, lat) == DueOf(r[1..], lat);
      }
    }
  }

  ghost predicate QueueInv(x: Accounts) {
    InOrder(x.queue) && Older(x.queue, x.order + 1)
  }

  lemma {:induction false} ScheduleKeeps(x: Accounts, lats: seq<int>, n: nat, id: nat, now: int)
    requires QueueInv(x) && n <= |lats|
    ensures var y := Schedule(x, lats, n, id, now); QueueInv(y) && y.byLatency == x.byLatency
  {
    if n != 0 {
      ScheduleKeeps(x, lats, n - 1, id, now);
      var y := Schedule(x, lats, n - 1, id, now);
      PushInOrder(y.queue, Entry(now + lats[n - 1], y.order + 1, Pending(lats[n - 1], id)));
    }
  }

  /** The lane after one more push: its own latency joins, another changes nothing. */
  function Joined(due: seq<Due>, d: Due, own: bool): seq<Due> {
    if own then Enqueue(due, d) else due
  }

  lemma PushJoins(y: Accounts, latency: int, id: nat, now: int, lat: int)
    requires QueueInv(y)
    ensures DueOf(Push(y.queue, Entry(now + latency, y.order + 1, Pending(latency, id))), lat)
         == Joined(DueOf(y.queue, lat), Due(now + lat, id), latency == lat)
  {
    PushLane(y.queue, Entry(now + latency, y.order + 1, Pending(latency, id)), lat);
  }

  lemma ScheduleOne(x: Accounts, lats: seq<int>, n: nat, id: nat, now: int, lat: int)
    requires QueueInv(x) && n < |lats|
    ensures DueOf(Schedule(x, lats, n + 1, id, now).queue, lat)
         == Joined(DueOf(Schedule(x, lats, n, id, now).queue, lat), Due(now + lat, id), lats[n] == lat)
  {
    ScheduleKeeps(x, lats, n, id, now);
    PushJoins(Schedule(x, lats, n, id, now), lats[n], id, now, lat);
  }

  lemma {:induction false} ScheduleLane(x: Accounts, lats: seq<int>, n: nat, id: nat, now: int, lat: int)
    requires QueueInv(x) && n <= |lats|
    ensures DueOf(Schedule(x, lats, n, id, now).queue, lat)
         == EnqueueN(DueOf(x.queue, lat), Due(now + lat, id), Count(lats, n, lat))
  {
    if n != 0 {
      ScheduleLane(x, lats, n - 1, id, now, lat);
      ScheduleOne(x, lats, n - 1, id, now, lat);
    }
  }

  lemma {:induction false} FireLane(t: Trading, m: Market, x: Accounts, now: int, lat: int)
    requires QueueInv(x) && lat in x.byLatency
    ensures var y := Fire(t, m, x, now);
            QueueInv(y) && y.byLatency.Keys == x.byLatency.Keys && LaneOf(y, lat) == LaneFire(t, m, LaneOf(x, lat), lat, now)
    decreases |x.queue|
  {
    if x.queue == [] || x.queue[0].ts > now {
      FireStops(x, now, lat);
    } else {
      var e := x.queue[0];
      var y := Execute(t, m, x.(queue := x.queue[1..]), e, true);
      assert InOrder(x.queue[1..]) && Older(x.queue[1..], x.order + 1);
      FireLane(t, m, y, now, lat);
      ExecuteLane(t, m, x, lat, true);
    }
  }

  lemma FireStops(x: Accounts, now: int, lat: int)
    requires QueueInv(x) && (x.queue == [] || x.queue[0].ts > now)
    ensures var due := DueOf(x.queue, lat); due == [] || due[0].ts > now
  {
    if x.queue != [] {
      forall i | 0 <= i < |x.queue| ensures now < x.queue[i].ts {
        assert i == 0 || Precedes(x.queue[0], x.queue[i]);
      }
      DueLater(x.queue, lat, now);
    }
  }

  /** Executing the front entry settles its own lane and no other. */
  lemma ExecuteLane(t: Trading, m: Market, x: Accounts, lat: int, inStream: bool)
    requires x.queue != [] && lat in x.byLatency
    ensures var e, l := x.queue[0], LaneOf(x, lat);
            var y := Execute(t, m, x.(queue := x.queue[1..]), e, inStream);
            && y.byLatency.Keys == x.byLatency.Keys
            && LaneOf(y, lat) ==
                 if e.item.latency != lat then l
                 else Lane(l.due[1..], LaneSettle(t, m, l.account, lat, l.due[0], inStream))
  {
    var e := x.queue[0];
    if e.item.latency == lat {
      assert DueOf(x.queue, lat)[1..] == DueOf(x.queue[1..], lat);
    }
  }

  lemma {:induction false} DrainLane(t: Trading, m: Market, x: Accounts, lat: int)
    requires lat in x.byLatency
    ensures var y := Drain(t, m, x);
            lat in y.byLatency && LaneOf(y, lat) == LaneDrain(t, m, LaneOf(x, lat), lat)
    decreases |x.queue|
  {
    if x.queue != [] {
      ExecuteLane(t, m, x, lat, false);
      DrainLane(t, m, Execute(t, m, x.(queue := x.queue[1..]), x.queue[0], false), lat);
    }
  }

  // ---- the whole run, lane by lane ----

  lemma MarketCrossGrows(m: Market, c: Cross, symbol: string, now: int)
    ensures |MarketCross(m, c, symbol, now).windows| == if IsActive(m, c.pair) then |m.windows| else |m.windows| + 1
  {
  }

  lemma {:induction false} CrossesMarket(p: Setup, s: Sim, cs: seq<Cross>, n: nat, symbol: string, now: int)
    requires n <= |cs|
    ensures var z := OnCrosses(p, s, cs, n, symbol, now);
            z.market == MarketCrosses(s.market, cs, n, symbol, now) && |s.market.windows| <= |z.market.windows|
  {
    if n != 0 {
      CrossesMarket(p, s, cs, n - 1, symbol, now);
      MarketCrossGrows(OnCrosses(p, s, cs, n - 1, symbol, now).market, cs[n - 1], symbol, now);
    }
  }

  lemma {:induction false} CrossesKeepQueue(p: Setup, s: Sim, cs: seq<Cross>, n: nat, symbol: string, now: int)
    requires QueueInv(s.accounts) && n <= |cs|
    ensures var z := OnCrosses(p, s, cs, n, symbol, now);
            QueueInv(z.accounts) && z.accounts.byLatency == s.accounts.byLatency
  {
    if n != 0 {
      CrossesKeepQueue(p, s, cs, n - 1, symbol, now);
      var y := OnCrosses(p, s, cs, n - 1, symbol, now);
      ScheduleKeeps(y.accounts, p.latencies, |p.latencies|, |y.market.windows|, now);
    }
  }

  function Copies(p: Setup, lat: int): nat {
    Count(p.latencies, |p.latencies|, lat)
  }

  lemma {:induction false} CrossesLane(p: Setup, s: Sim, cs: seq<Cross>, n: nat, symbol: string, now: int, lat: int)
    requires QueueInv(s.accounts) && n <= |cs|
    ensures var z := OnCrosses(p, s, cs, n, symbol, now);
            && |s.market.windows| <= |z.market.windows|
            && DueOf(z.accounts.queue, lat) ==
                 LaneOpen(DueOf(s.accounts.queue, lat), |s.market.windows|, |z.market.windows|, now + lat, Copies(p, lat))
  {
    if n != 0 {
      CrossesLane(p, s, cs, n - 1, symbol, now, lat);
      CrossesKeepQueue(p, s, cs, n - 1, symbol, now);
      CrossLane(p, OnCrosses(p, s, cs, n - 1, symbol, now), cs[n - 1], symbol, now, lat, DueOf(s.accounts.queue, lat),
                |s.market.windows|);
    }
  }

  /** A cross opens at most one window, and enqueues it for every latency exactly then. */
  lemma CrossLane(p: Setup, s: Sim, c: Cross, symbol: string, now: int, lat: int, due: seq<Due>, lo: nat)
    requires QueueInv(s.accounts) && lo <= |s.market.windows|
    requires DueOf(s.accounts.queue, lat) == LaneOpen(due, lo, |s.market.windows|, now + lat, Copies(p, lat))
    ensures var z := OnCross(p, s, c, symbol, now);
            && lo <= |z.market.windows|
            && DueOf(z.accounts.queue, lat) == LaneOpen(due, lo, |z.market.windows|, now + lat, Copies(p, lat))
  {
    MarketCrossGrows(s.market, c, symbol, now);
    ScheduleLane(s.accounts, p.latencies, |p.latencies|, |s.market.windows|, now, lat);
  }

  lemma {:induction false} CrossesKeepBooks(m: Market, cs: seq<Cross>, n: nat, symbol: string, now: int)
    requires n <= |cs|
    ensures MarketCrosses(m, cs, n, symbol, now).books == m.books
  {
    if n != 0 {
      CrossesKeepBooks(m, cs, n - 1, symbol, now);
    }
  }

  lemma {:induction false} CloseKeepsWindows(r: Rules, m: Market, cs: seq<Cross>, now: int, n: nat)
    requires n <= |m.active|
    ensures |CloseFirst(r, m, cs, now, n).windows| == |m.windows|
  {
    if n != 0 {
      CloseKeepsWindows(r, m, cs, now, n - 1);
    }
  }

  /** The market half of a step does not look at the accounts. */
  lemma StepMarket(p: Setup, s: Sim, e: Event)
    ensures Step(p, s, e).market == MarketStep(p.rules, s.market, e)
  {
    var now := e.book.ts;
    var due := Sim(Absorb(p.rules, s.market, e), Fire(p.trading, s.market, s.accounts, now));
    if |due.market.books| >= 2 {
      var cs := DetectCrosses(p.rules, due.market.books);
      CrossesMarket(p, due, cs, |cs|, e.book.symbol, now);
      CrossesKeepBooks(due.market, cs, |cs|, e.book.symbol, now);
    }
  }

  /** The accounts half: fire what is due, then enqueue the windows the market opened. */
  lemma StepAccounts(p: Setup, s: Sim, e: Event, lat: int)
    requires QueueInv(Fire(p.trading, s.market, s.accounts, e.book.ts))
    ensures var z, x := Step(p, s, e), Fire(p.trading, s.market, s.accounts, e.book.ts);
            && QueueInv(z.accounts) && z.accounts.byLatency == x.byLatency
            && |s.market.windows| <= |z.market.windows|
            && DueOf(z.accounts.queue, lat) ==
                 LaneOpen(DueOf(x.queue, lat), |s.market.windows|, |z.market.windows|, e.book.ts + lat, Copies(p, lat))
  {
    var now := e.book.ts;
    var due := Sim(Absorb(p.rules, s.market, e), Fire(p.trading, s.market, s.accounts, now));
    if |due.market.books| >= 2 {
      var cs := DetectCrosses(p.rules, due.market.books);
      CrossesLane(p, due, cs, |cs|, e.book.symbol, now, lat);
      CrossesKeepQueue(p, due, cs, |cs|, e.book.symbol, now);
      var z := OnCrosses(p, due, cs, |cs|, e.book.symbol, now);
      CloseKeepsWindows(p.rules, z.market, cs, now, |z.market.active|);
    }
  }

  lemma StepLane(p: Setup, s: Sim, e: Event, lat: int)
    requires QueueInv(s.accounts) && lat in s.accounts.byLatency
    ensures var z := Step(p, s, e);
            && QueueInv(z.accounts) && lat in z.accounts.byLatency
            && LaneOf(z.accounts, lat) ==
                 LaneStep(p.trading, s.market, z.market, LaneOf(s.accounts, lat), lat, Copies(p, lat), e.book.ts)
  {
    FireLane(p.trading, s.market, s.accounts, e.book.ts, lat);
    StepAccounts(p, s, e, lat);
  }

  lemma {:induction false} MarketAlone(p: Setup, es: seq<Event>, n: nat)
    requires n <= |es|
    ensures After(p, es, n).market == Path(p.rules, es)[n]
  {
    if n != 0 {
      MarketAlone(p, es, n - 1);
      StepMarket(p, After(p, es, n - 1), es[n - 1]);
    }
  }

  /** The market never looks at latencies, and each lane runs as if it were alone. */
  lemma {:induction false} LanesAlone(p: Setup, es: seq<Event>, n: nat, lat: int)
    requires n <= |es| && lat in p.latencies
    ensures var s := After(p, es, n);
            && s.market == MarketAfter(p.rules, es, n)
            && QueueInv(s.accounts) && lat in s.accounts.byLatency
            && LaneOf(s.accounts, lat) == LaneAfter(p.rules, p.trading, lat, Copies(p, lat), es, n)
  {
    MarketAlone(p, es, n);
    if n != 0 {
      LanesAlone(p, es, n - 1, lat);
      MarketAlone(p, es, n - 1);
      StepLane(p, After(p, es, n - 1), es[n - 1], lat);
    }
  }

  // ---- a repeated latency is the latency once ----

  /** Every element `copies` times in a row. */
  function Repeat(due: seq<Due>, copies: nat): seq<Due> {
    if due == [] then [] else Times(due[0], copies) + Repeat(due[1..], copies)
  }

  function Times(d: Due, copies: nat): seq<Due> {
    if copies == 0 then [] else [d] + Times(d, copies - 1)
  }

  lemma {:induction false} EnqueuePast(d: Due, copies: nat, rest: seq<Due>, x: Due)
    requires d.ts <= x.ts
    ensures Enqueue(Times(d, copies) + rest, x) == Times(d, copies) + Enqueue(rest, x)
  {
    if copies == 0 {
      assert Times(d, 0) + rest == rest;
    } else {
      EnqueuePast(d, copies - 1, rest, x);
      var all := Times(d, copies) + rest;
      assert all[1..] == Times(d, copies - 1) + rest;
    }
  }

  /** `x` enters a repeated lane where it enters the plain one. */
  lemma {:induction false} EnqueueRepeated(due: seq<Due>, copies: nat, x: Due, k: nat)
    requires copies >= 1
    ensures EnqueueN(Repeat(due, copies), x, k) == InsertTimes(due, copies, x, k)
    decreases k
  {
    if k == 0 {
      InsertNone(due, copies, x);
    } else {
      EnqueueRepeated(due, copies, x, k - 1);
      EnqueueInsert(due, copies, x, k - 1);
    }
  }

  /** The repeated lane with `x` put in `k` times at its place. */
  function InsertTimes(due: seq<Due>, copies: nat, x: Due, k: nat): seq<Due> {
    if due == [] || x.ts < due[0].ts then Times(x, k) + Repeat(due, copies)
    else Times(due[0], copies) + InsertTimes(due[1..], copies, x, k)
  }

  lemma {:induction false} InsertNone(due: seq<Due>, copies: nat, x: Due)
    ensures InsertTimes(due, copies, x, 0) == Repeat(due, copies)
  {
    if !(due == [] || x.ts < due[0].ts) {
      InsertNone(due[1..], copies, x);
    }
  }

  lemma {:induction false} TimesMore(x: Due, k: nat)
    ensures Times(x, k) + [x] == Times(x, k + 1)
  {
    if k != 0 {
      TimesMore(x, k - 1);
    }
  }

  lemma {:induction false} EnqueueInsert(due: seq<Due>, copies: nat, x: Due, k: nat)
    requires copies >= 1
    ensures Enqueue(InsertTimes(due, copies, x, k), x) == InsertTimes(due, copies, x, k + 1)
  {
    if due == [] || x.ts < due[0].ts {
      var rest := Repeat(due, copies);
      EnqueuePast(x, k, rest, x);
      assert rest == [] || rest[0] == due[0];
      assert Enqueue(rest, x) == [x] + rest;
      TimesMore(x, k);
      assert Times(x, k) + ([x] + rest) == Times(x, k + 1) + rest;
    } else {
      EnqueueInsert(due[1..], copies, x, k);
      EnqueuePast(due[0], copies, InsertTimes(due[1..], copies, x, k), x);
    }
  }

  lemma {:induction false} InsertIsRepeat(due: seq<Due>, copies: nat, x: Due)
    ensures InsertTimes(due, copies, x, copies) == Repeat(Enqueue(due, x), copies)
  {
    if due == [] || x.ts < due[0].ts {
      assert Enqueue(due, x)[1..] == due;
    } else {
      InsertIsRepeat(due[1..], copies, x);
      assert Enqueue(due, x)[1..] == Enqueue(due[1..], x);
    }
  }

  lemma {:induction false} OpenRepeated(due: seq<Due>, lo: nat, hi: nat, ts: int, copies: nat)
    requires lo <= hi && copies >= 1
    ensures LaneOpen(Repeat(due, copies), lo, hi, ts, copies) == Repeat(LaneOpen(due, lo, hi, ts, 1), copies)
    decreases hi
  {
    if lo < hi {
      OpenRepeated(due, lo, hi - 1, ts, copies);
      var one, x := LaneOpen(due, lo, hi - 1, ts, 1), Due(ts, hi - 1);
      EnqueueRepeated(one, copies, x, copies);
      InsertIsRepeat(one, copies, x);
      assert EnqueueN(one, x, 1) == Enqueue(EnqueueN(one, x, 0), x);
    }
  }

  ghost predicate Settled(f: (Account, Due) -> Account, a: Account, d: Due) {
    f(a, d) == a
  }

  /** Settling an entry that is already settled changes nothing. */
  ghost predicate SettlesOnce(f: (Account, Due) -> Account) {
    forall a, d {:trigger Settled(f, f(a, d), d)} :: Settled(f, f(a, d), d)
  }

  lemma SettlerSettlesOnce(t: Trading, m: Market, lat: int, inStream: bool)
    ensures SettlesOnce(Settler(t, m, lat, inStream))
  {
    var f := Settler(t, m, lat, inStream);
    forall a, d ensures Settled(f, f(a, d), d) {
      SettledHasResult(t, m, a, lat, d, inStream);
    }
  }

  lemma SettledHasResult(t: Trading, m: Market, a: Account, lat: int, d: Due, inStream: bool)
    ensures d.window >= |m.windows| || d.window in LaneSettle(t, m, a, lat, d, inStream).results
  {
  }

  lemma {:induction false} FireCopies(f: (Account, Due) -> Account, d: Due, copies: nat, rest: seq<Due>, a: Account, now: int)
    requires d.ts <= now && f(a, d) == a
    ensures FireWith(f, Lane(Times(d, copies) + rest, a), now) == FireWith(f, Lane(rest, a), now)
  {
    var all := Times(d, copies) + rest;
    if copies == 0 {
      assert all == rest;
    } else {
      FireCopies(f, d, copies - 1, rest, a, now);
      assert all[1..] == Times(d, copies - 1) + rest;
    }
  }

  lemma {:induction false} FireRepeated(f: (Account, Due) -> Account, l: Lane, now: int, copies: nat)
    requires copies >= 1 && SettlesOnce(f)
    ensures var z := FireWith(f, l, now);
            FireWith(f, l.(due := Repeat(l.due, copies)), now) == z.(due := Repeat(z.due, copies))
    decreases |l.due|
  {
    if l.due != [] {
      var d, rest := l.due[0], Repeat(l.due[1..], copies);
      var all := Repeat(l.due, copies);
      assert all[0] == d && all[1..] == Times(d, copies - 1) + rest;
      if d.ts <= now {
        var a := f(l.account, d);
        assert Settled(f, f(l.account, d), d);
        assert FireWith(f, Lane(all, l.account), now) == FireWith(f, Lane(all[1..], a), now);
        FireCopies(f, d, copies - 1, rest, a, now);
        FireRepeated(f, Lane(l.due[1..], a), now, copies);
      }
    }
  }

  lemma {:induction false} DrainCopies(f: (Account, Due) -> Account, d: Due, copies: nat, rest: seq<Due>, a: Account)
    requires f(a, d) == a
    ensures DrainWith(f, Lane(Times(d, copies) + rest, a)) == DrainWith(f, Lane(rest, a))
  {
    var all := Times(d, copies) + rest;
    if copies == 0 {
      assert all == rest;
    } else {
      DrainCopies(f, d, copies - 1, rest, a);
      assert all[1..] == Times(d, copies - 1) + rest;
    }
  }

  lemma {:induction false} DrainRepeated(f: (Account, Due) -> Account, l: Lane, copies: nat)
    requires copies >= 1 && SettlesOnce(f)
    ensures DrainWith(f, l.(due := Repeat(l.due, copies))).account == DrainWith(f, l).account
    decreases |l.due|
  {
    if l.due != [] {
      var d, rest := l.due[0], Repeat(l.due[1..], copies);
      var all := Repeat(l.due, copies);
      var a := f(l.account, d);
      assert Settled(f, f(l.account, d), d);
      assert all[0] == d && all[1..] == Times(d, copies - 1) + rest;
      assert DrainWith(f, Lane(all, l.account)) == DrainWith(f, Lane(all[1..], a));
      DrainCopies(f, d, copies - 1, rest, a);
      DrainRepeated(f, Lane(l.due[1..], a), copies);
    }
  }

  lemma StepRepeated(t: Trading, m: Market, k: Market, l: Lane, lat: int, copies: nat, now: int)
    requires copies >= 1
    ensures var z := LaneStep(t, m, k, l, lat, 1, now);
            LaneStep(t, m, k, l.(due := Repeat(l.due, copies)), lat, copies, now) == z.(due := Repeat(z.due, copies))
  {
    SettlerSettlesOnce(t, m, lat, true);
    FireRepeated(Settler(t, m, lat, true), l, now, copies);
    if |m.windows| <= |k.windows| {
      OpenRepeated(LaneFire(t, m, l, lat, now).due, |m.windows|, |k.windows|, now + lat, copies);
    }
  }

  lemma {:induction false} LaneRepeated(ms: seq<Market>, t: Trading, lat: int, copies: nat, es: seq<Event>, n: nat)
    requires n <= |es| && n < |ms| && copies >= 1
    ensures var l := LaneAlong(ms, t, lat, 1, es, n);
            LaneAlong(ms, t, lat, copies, es, n) == l.(due := Repeat(l.due, copies))
  {
    if n != 0 {
      LaneRepeated(ms, t, lat, copies, es, n - 1);
      StepRepeated(t, ms[n - 1], ms[n], LaneAlong(ms, t, lat, 1, es, n - 1), lat, copies, es[n - 1].book.ts);
    }
  }

  lemma {:induction false} CountPositive(lats: seq<int>, n: nat, lat: int)
    requires n <= |lats| && lat in lats[..n]
    ensures Count(lats, n, lat) >= 1
  {
    if lats[n - 1] != lat {
      assert lat in lats[..n - 1];
      CountPositive(lats, n - 1, lat);
    }
  }

  /**
   The account of a latency is that of its lane alone, before and after the drain, and the
   windows are those of the market alone: the list of latencies does not matter.
   */
  lemma AccountOfLane(p: Setup, es: seq<Event>, n: nat, lat: int)
    requires n <= |es| && lat in p.latencies
    ensures var s, l, m := After(p, es, n), LaneAfter(p.rules, p.trading, lat, 1, es, n), MarketAfter(p.rules, es, n);
            var d := Drain(p.trading, s.market, s.accounts);
            && s.market == m
            && lat in s.accounts.byLatency && s.accounts.byLatency[lat] == l.account
            && lat in d.byLatency && d.byLatency[lat] == LaneDrain(p.trading, m, l, lat).account
  {
    LanesAlone(p, es, n, lat);
    assert p.latencies[..|p.latencies|] == p.latencies;
    CountPositive(p.latencies, |p.latencies|, lat);
    var c := Copies(p, lat);
    LaneRepeated(Path(p.rules, es), p.trading, lat, c, es, n);
    var s := After(p, es, n);
    DrainLane(p.trading, s.market, s.accounts, lat);
    SettlerSettlesOnce(p.trading, s.market, lat, false);
    DrainRepeated(Settler(p.trading, s.market, lat, false), LaneAfter(p.rules, p.trading, lat, 1, es, n), c);
  }

  /**
   Scenario independence: two runs whose latency lists differ in any way agree, on every
   latency they share, on every result, every fill, the capital path and the windows.
   */
  lemma ScenariosIndependent(p: Setup, q: Setup, es: seq<Event>, n: nat, lat: int)
    requires n <= |es| && p.rules == q.rules && p.trading == q.trading && lat in p.latencies && lat in q.latencies
    ensures var s, z := After(p, es, n), After(q, es, n);
            var d, f := Drain(p.trading, s.market, s.accounts), Drain(q.trading, z.market, z.accounts);
            && s.market == z.market
            && lat in s.accounts.byLatency && lat in z.accounts.byLatency
            && s.accounts.byLatency[lat] == z.accounts.byLatency[lat]
            && lat in d.byLatency && lat in f.byLatency
            && d.byLatency[lat] == f.byLatency[lat]
  {
    AccountOfLane(p, es, n, lat);
    AccountOfLane(q, es, n, lat);
  }
}
