/** Completeness of the simulation: every window is executed once it is due, and every fill reaches the books. */
module SimResults {
  import opened Options
  import opened Simulator
  import opened SimLanes
  import opened SimLaws
  import opened SimFills

  ghost predicate InDue(due: seq<Due>, id: nat) {
    exists i :: 0 <= i < |due| && due[i].window == id
  }

  /** Every window is settled or still due, and only windows due by `last` are settled. */
  ghost predicate Settles(m: Market, lat: int, l: Lane, last: int) {
    && (forall id: nat :: id in l.account.results ==> id < |m.windows| && m.windows[id].tsOpen + lat <= last)
    && (forall id: nat :: id < |m.windows| ==> id in l.account.results || InDue(l.due, id))
  }

  lemma SettleAdds(t: Trading, m: Market, a: Account, lat: int, d: Due, inStream: bool)
    requires d.window < |m.windows|
    ensures LaneSettle(t, m, a, lat, d, inStream).results.Keys == a.results.Keys + {d.window}
  {
  }

  lemma InTail(due: seq<Due>, id: nat)
    requires due != []
    ensures InDue(due, id) <==> due[0].window == id || InDue(due[1..], id)
  {
    if InDue(due, id) {
      var i :| 0 <= i < |due| && due[i].window == id;
      assert i == 0 || due[1..][i - 1].window == id;
    }
    if InDue(due[1..], id) {
      var i :| 0 <= i < |due[1..]| && due[1..][i].window == id;
      assert due[i + 1].window == id;
    }
  }

  lemma FrontSettles(t: Trading, m: Market, l: Lane, lat: int, now: int)
    requires l.due != [] && DueOk(m, lat, l.due[0]) && l.due[0].ts <= now && Settles(m, lat, l, now)
    ensures Settles(m, lat, Lane(l.due[1..], LaneSettle(t, m, l.account, lat, l.due[0], true)), now)
  {
    SettleAdds(t, m, l.account, lat, l.due[0], true);
    forall id: nat | id < |m.windows|
      ensures id in LaneSettle(t, m, l.account, lat, l.due[0], true).results || InDue(l.due[1..], id)
    {
      InTail(l.due, id);
    }
  }

  lemma {:induction false} FireSettles(t: Trading, m: Market, l: Lane, lat: int, now: int)
    requires Settles(m, lat, l, now) && forall i :: 0 <= i < |l.due| ==> DueOk(m, lat, l.due[i])
    ensures Settles(m, lat, LaneFire(t, m, l, lat, now), now)
    decreases |l.due|
  {
    if l.due != [] && l.due[0].ts <= now {
      FrontSettles(t, m, l, lat, now);
      FireSettles(t, m, Lane(l.due[1..], Settler(t, m, lat, true)(l.account, l.due[0])), lat, now);
    }
  }

  lemma {:induction false} EnqueueHas(due: seq<Due>, d: Due, id: nat)
    requires InDue(due, id) || d.window == id
    ensures InDue(Enqueue(due, d), id)
  {
    var r := Enqueue(due, d);
    InTail(r, id);
    if due == [] || d.ts < due[0].ts {
      assert r[1..] == due;
    } else {
      InTail(due, id);
      assert r[1..] == Enqueue(due[1..], d);
      if r[0].window != id {
        EnqueueHas(due[1..], d, id);
      }
    }
  }

  lemma {:induction false} OpenHas(due: seq<Due>, lo: nat, hi: nat, ts: int, id: nat)
    requires lo <= hi && (InDue(due, id) || lo <= id < hi)
    ensures InDue(LaneOpen(due, lo, hi, ts, 1), id)
    decreases hi
  {
    if lo < hi {
      var one, d := LaneOpen(due, lo, hi - 1, ts, 1), Due(ts, hi - 1);
      if InDue(due, id) || id < hi - 1 {
        OpenHas(due, lo, hi - 1, ts, id);
      }
      EnqueueHas(one, d, id);
      assert EnqueueN(one, d, 1) == Enqueue(EnqueueN(one, d, 0), d);
    }
  }

  lemma StepSettles(t: Trading, m: Market, k: Market, l: Lane, lat: int, now: int)
    requires Settles(m, lat, LaneFire(t, m, l, lat, now), now) && Grows(m, k, now)
    ensures Settles(k, lat, LaneStep(t, m, k, l, lat, 1, now), now)
  {
    var f := LaneFire(t, m, l, lat, now);
    forall id: nat | id < |k.windows|
      ensures id in f.account.results || InDue(LaneStep(t, m, k, l, lat, 1, now).due, id)
    {
      if id !in f.account.results {
        OpenHas(f.due, |m.windows|, |k.windows|, now + lat, id);
      }
    }
  }

  lemma SettlesLater(m: Market, lat: int, l: Lane, last: int, now: int)
    requires Settles(m, lat, l, last) && last <= now
    ensures Settles(m, lat, l, now)
  {
  }

  lemma {:induction false} SettlesAlways(r: Rules, t: Trading, es: seq<Event>, n: nat, lat: int)
    requires TimeOrdered(es) && n <= |es| && lat > 0
    ensures Settles(Path(r, es)[n], lat, LaneAfter(r, t, lat, 1, es, n), if n > 0 then es[n - 1].book.ts else 0)
  {
    MarketAlways(r, es, 0);
    if n != 0 {
      SettlesAlways(r, t, es, n - 1, lat);
      LaneAlways(r, t, es, n - 1, lat);
      MarketGrows(r, es, n - 1);
      OneEventSettles(Path(r, es), t, es, n, lat);
    }
  }

  lemma OneEventSettles(ms: seq<Market>, t: Trading, es: seq<Event>, n: nat, lat: int)
    requires TimeOrdered(es) && 0 < n <= |es| && n < |ms| && LaneInv(ms, t, es, n - 1, lat)
    requires Grows(ms[n - 1], ms[n], es[n - 1].book.ts)
    requires Settles(ms[n - 1], lat, LaneAlong(ms, t, lat, 1, es, n - 1), if n > 1 then es[n - 2].book.ts else 0)
    ensures Settles(ms[n], lat, LaneAlong(ms, t, lat, 1, es, n), es[n - 1].book.ts)
  {
    var l, now := LaneAlong(ms, t, lat, 1, es, n - 1), es[n - 1].book.ts;
    SettlesLater(ms[n - 1], lat, l, if n > 1 then es[n - 2].book.ts else 0, now);
    FireSettles(t, ms[n - 1], l, lat, now);
    StepSettles(t, ms[n - 1], ms[n], l, lat, now);
  }

  lemma {:induction false} DrainSettles(t: Trading, m: Market, l: Lane, lat: int, id: nat)
    requires (forall i :: 0 <= i < |l.due| ==> DueOk(m, lat, l.due[i])) && (id in l.account.results || InDue(l.due, id))
    ensures id in LaneDrain(t, m, l, lat).account.results
    decreases |l.due|
  {
    if l.due != [] {
      SettleAdds(t, m, l.account, lat, l.due[0], false);
      InTail(l.due, id);
      DrainSettles(t, m, Lane(l.due[1..], Settler(t, m, lat, false)(l.account, l.due[0])), lat, id);
    }
  }

  /**
   Nothing is skipped and nothing comes early: after `n` events a window has a result for a
   latency exactly when some processed event is no earlier than its opening plus the latency,
   and after the drain every window has one.
   */
  lemma EveryWindowExecuted(p: Setup, es: seq<Event>, n: nat, lat: int, id: nat)
    requires TimeOrdered(es) && 0 < n <= |es| && lat in p.latencies && lat > 0 && id < |MarketAfter(p.rules, es, n).windows|
    ensures var s, w := After(p, es, n), MarketAfter(p.rules, es, n).windows[id];
            var d := Drain(p.trading, s.market, s.accounts);
            && lat in s.accounts.byLatency && lat in d.byLatency
            && (id in s.accounts.byLatency[lat].results <==> w.tsOpen + lat <= es[n - 1].book.ts)
            && id in d.byLatency[lat].results
  {
    AccountOfLane(p, es, n, lat);
    SettlesAlways(p.rules, p.trading, es, n, lat);
    LaneAlways(p.rules, p.trading, es, n, lat);
    var l := LaneAfter(p.rules, p.trading, lat, 1, es, n);
    SettledIff(Path(p.rules, es)[n], lat, l, es[n - 1].book.ts, id);
    DrainSettles(p.trading, Path(p.rules, es)[n], l, lat, id);
  }

  lemma SettledIff(m: Market, lat: int, l: Lane, last: int, id: nat)
    requires Settles(m, lat, l, last) && DueInv(m, lat, l.due, last) && id < |m.windows|
    ensures id in l.account.results <==> m.windows[id].tsOpen + lat <= last
  {
  }

  // ---- fills and the books ----

  /** What a fill leaves on the books. */
  datatype Entry = Entry(ts: int, qty: real, net: real)

  /** The fills of a log, in order. */
  function Fills(log: seq<Execution>): seq<Entry> {
    if log == [] then []
    else
      var x := log[|log| - 1];
      Fills(log[..|log| - 1]) + if x.result.valid then [Entry(x.executeTs, x.result.filledQty, x.result.net)] else []
  }

  function Points(eq: seq<EquityPoint>): seq<Entry> {
    if eq == [] then []
    else
      var p := eq[|eq| - 1];
      Points(eq[..|eq| - 1]) + [Entry(p.ts, p.filledQty, p.netPnl)]
  }

  /** The largest buy-leg notional among the fills. */
  function LargestUsed(log: seq<Execution>): real {
    if log == [] then 0.0
    else
      var most, x := LargestUsed(log[..|log| - 1]), log[|log| - 1];
      if x.result.valid && x.result.capitalUsed > most then x.result.capitalUsed else most
  }

  /** The equity curve is made of the fills of the log, in order and nothing else, and the peak trade is the largest of them. */
  ghost predicate Booked(a: Account) {
    Points(a.capital.equity) == Fills(a.log) && a.capital.peakTradeQuote == LargestUsed(a.log)
  }

  lemma PointsMore(eq: seq<EquityPoint>, p: EquityPoint)
    ensures Points(eq + [p]) == Points(eq) + [Entry(p.ts, p.filledQty, p.netPnl)]
  {
    assert (eq + [p])[..|eq|] == eq;
  }

  lemma FillsMore(log: seq<Execution>, x: Execution)
    ensures Fills(log + [x]) == if x.result.valid then Fills(log) + [Entry(x.executeTs, x.result.filledQty, x.result.net)] else Fills(log)
    ensures LargestUsed(log + [x]) ==
            if x.result.valid && x.result.capitalUsed > LargestUsed(log) then x.result.capitalUsed else LargestUsed(log)
  {
    assert (log + [x])[..|log|] == log;
    assert Fills(log) + [] == Fills(log);
  }

  /** One more execution and what it did to the capital. */
  lemma BookedMore(a: Account, x: Execution, c: Capital, pair: Pair)
    requires Booked(a)
    requires if x.result.valid
             then c == RecordFill(a.capital, x.result.net, x.result.capitalUsed, x.executeTs, pair, x.result.filledQty)
             else c == a.capital
    ensures Points(c.equity) == Fills(a.log + [x]) && c.peakTradeQuote == LargestUsed(a.log + [x])
  {
    FillsMore(a.log, x);
    if x.result.valid {
      PointsMore(a.capital.equity, EquityPoint(x.executeTs, pair, x.result.filledQty, x.result.net,
                                               a.capital.quote + x.result.net, a.capital.base));
    }
  }

  /** Settling an entry for the first time appends one execution and does to the capital what it says. */
  lemma SettleAppends(t: Trading, m: Market, a: Account, lat: int, d: Due, inStream: bool) returns (x: Execution)
    requires d.window < |m.windows| && d.window !in a.results
    ensures var z := LaneSettle(t, m, a, lat, d, inStream);
            && z.log == a.log + [x]
            && z.capital == if x.result.valid
                            then RecordFill(a.capital, x.result.net, x.result.capitalUsed, x.executeTs, m.windows[d.window].pair, x.result.filledQty)
                            else a.capital
  {
    var w := m.windows[d.window];
    var buy, sell := Get(m.books, w.pair.buy), Get(m.books, w.pair.sell);
    var ttl := Ttl(w, if inStream then INF_TTL else m.lastTs - w.tsOpen);
    FillFits(t, buy, sell, lat, ttl, a.capital, d.ts, w.pair);
    x := Execution(d.window, d.ts, m.processed, buy, sell, w.tsClose <= 0,
                   NetSim(t, buy, sell, lat, ttl, a.capital, d.ts, w.pair).0);
  }

  lemma SettleBooks(t: Trading, m: Market, a: Account, lat: int, d: Due, inStream: bool)
    requires Booked(a)
    ensures Booked(LaneSettle(t, m, a, lat, d, inStream))
  {
    if d.window < |m.windows| && d.window !in a.results {
      var x := SettleAppends(t, m, a, lat, d, inStream);
      BookedMore(a, x, LaneSettle(t, m, a, lat, d, inStream).capital, m.windows[d.window].pair);
    }
  }

  lemma {:induction false} FireBooks(t: Trading, m: Market, l: Lane, lat: int, now: int)
    requires Booked(l.account)
    ensures Booked(LaneFire(t, m, l, lat, now).account)
    decreases |l.due|
  {
    if l.due != [] && l.due[0].ts <= now {
      SettleBooks(t, m, l.account, lat, l.due[0], true);
      FireBooks(t, m, Lane(l.due[1..], Settler(t, m, lat, true)(l.account, l.due[0])), lat, now);
    }
  }

  lemma {:induction false} LaneBooks(ms: seq<Market>, t: Trading, lat: int, es: seq<Event>, n: nat)
    requires n <= |es| && n < |ms|
    ensures Booked(LaneAlong(ms, t, lat, 1, es, n).account)
  {
    if n != 0 {
      LaneBooks(ms, t, lat, es, n - 1);
      FireBooks(t, ms[n - 1], LaneAlong(ms, t, lat, 1, es, n - 1), lat, es[n - 1].book.ts);
    }
  }

  /** Over every run and for every scenario, the profit and loss on the books is that of the logged fills. */
  lemma FillsAreBooked(p: Setup, es: seq<Event>, n: nat, lat: int)
    requires n <= |es| && lat in p.latencies
    ensures var s := After(p, es, n); lat in s.accounts.byLatency && Booked(s.accounts.byLatency[lat])
  {
    AccountOfLane(p, es, n, lat);
    LaneBooks(Path(p.rules, es), p.trading, lat, es, n);
  }

  // ---- fills and the books they were made against ----

  /** A logged fill carries the figures of the two books it saw. */
  ghost predicate PricedRight(t: Trading, x: Execution) {
    x.result.valid ==>
      && Tradable(x.buy, x.sell)
      && Figures(t, x.buy.value.asks[0], x.sell.value.bids[0], x.buy.value.venue, x.sell.value.venue, x.result.filledQty, x.result)
  }

  ghost predicate Priced(t: Trading, a: Account) {
    forall i :: 0 <= i < |a.log| ==> PricedRight(t, a.log[i])
  }

  lemma SettlePrices(t: Trading, m: Market, a: Account, lat: int, d: Due)
    requires Priced(t, a)
    ensures Priced(t, LaneSettle(t, m, a, lat, d, true))
  {
    if d.window < |m.windows| && d.window !in a.results {
      var w := m.windows[d.window];
      FillExactly(t, Get(m.books, w.pair.buy), Get(m.books, w.pair.sell), lat, Ttl(w, INF_TTL), a.capital, d.ts, w.pair);
    }
  }

  lemma {:induction false} FirePrices(t: Trading, m: Market, l: Lane, lat: int, now: int)
    requires Priced(t, l.account)
    ensures Priced(t, LaneFire(t, m, l, lat, now).account)
    decreases |l.due|
  {
    if l.due != [] && l.due[0].ts <= now {
      SettlePrices(t, m, l.account, lat, l.due[0]);
      FirePrices(t, m, Lane(l.due[1..], Settler(t, m, lat, true)(l.account, l.due[0])), lat, now);
    }
  }

  lemma {:induction false} LanePrices(ms: seq<Market>, t: Trading, lat: int, es: seq<Event>, n: nat)
    requires n <= |es| && n < |ms|
    ensures Priced(t, LaneAlong(ms, t, lat, 1, es, n).account)
  {
    if n != 0 {
      LanePrices(ms, t, lat, es, n - 1);
      FirePrices(t, ms[n - 1], LaneAlong(ms, t, lat, 1, es, n - 1), lat, es[n - 1].book.ts);
    }
  }

  /** Over every run and for every scenario, each fill was made at the prices, and charged the fees, of the books it saw. */
  lemma FillsArePriced(p: Setup, es: seq<Event>, n: nat, lat: int)
    requires n <= |es| && lat in p.latencies
    ensures var s := After(p, es, n); lat in s.accounts.byLatency && Priced(p.trading, s.accounts.byLatency[lat])
  {
    AccountOfLane(p, es, n, lat);
    LanePrices(Path(p.rules, es), p.trading, lat, es, n);
  }
}
