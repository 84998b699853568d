/** No look-ahead, the harmless drain, and the books of each scenario. */
module SimLaws {
  import opened Options
  import opened TimedQueues
  import opened Simulator
  import opened SimLanes
  import opened SimFills

  /** A merged stream: time never goes back and every timestamp is positive. */
  ghost predicate TimeOrdered(es: seq<Event>) {
    && (forall i, j :: 0 <= i < j < |es| ==> es[i].book.ts <= es[j].book.ts)
    && (forall i :: 0 <= i < |es| ==> es[i].book.ts > 0)
  }

  // ---- how the market evolves ----

  /** Old windows keep their pair and opening, and change only by closing now; new ones open now. */
  ghost predicate Evolves(m: Market, k: Market, now: int) {
    && k.processed == m.processed && k.lastTs == m.lastTs && k.books == m.books
    && |m.windows| <= |k.windows|
    && (forall i :: 0 <= i < |m.windows| ==>
          && k.windows[i].pair == m.windows[i].pair && k.windows[i].tsOpen == m.windows[i].tsOpen
          && (k.windows[i].tsClose == m.windows[i].tsClose || k.windows[i].tsClose == now))
    && (forall i :: |m.windows| <= i < |k.windows| ==>
          k.windows[i].tsOpen == now && (k.windows[i].tsClose == 0 || k.windows[i].tsClose == now))
  }

  lemma CrossEvolves(m: Market, k: Market, c: Cross, symbol: string, now: int)
    requires Evolves(m, k, now)
    ensures Evolves(m, MarketCross(k, c, symbol, now), now)
  {
  }

  lemma {:induction false} CrossesEvolve(m: Market, cs: seq<Cross>, n: nat, symbol: string, now: int)
    requires n <= |cs|
    ensures Evolves(m, MarketCrosses(m, cs, n, symbol, now), now)
  {
    if n != 0 {
      CrossesEvolve(m, cs, n - 1, symbol, now);
      CrossEvolves(m, MarketCrosses(m, cs, n - 1, symbol, now), cs[n - 1], symbol, now);
    }
  }

  lemma {:induction false} CloseEvolves(r: Rules, m: Market, k: Market, cs: seq<Cross>, now: int, n: nat)
    requires Evolves(m, k, now) && n <= |k.active|
    ensures Evolves(m, CloseFirst(r, k, cs, now, n), now)
  {
    if n != 0 {
      CloseEvolves(r, m, k, cs, now, n - 1);
    }
  }

  lemma StepEvolves(r: Rules, m: Market, e: Event)
    ensures Evolves(Absorb(r, m, e), MarketStep(r, m, e), e.book.ts)
  {
    var k := Absorb(r, m, e);
    if |k.books| >= 2 {
      var cs := DetectCrosses(r, k.books);
      CrossesEvolve(k, cs, |cs|, e.book.symbol, e.book.ts);
      var o := MarketOpened(r, m, e);
      CloseEvolves(r, k, o, cs, e.book.ts, |o.active|);
    }
  }

  /** No window carries a time later than the last event. */
  ghost predicate MarketInv(m: Market, es: seq<Event>, n: nat) {
    && m.processed == n
    && (n == 0 ==> m.windows == [])
    && (0 < n <= |es| ==> m.lastTs == es[n - 1].book.ts)
    && (forall i :: 0 <= i < |m.windows| ==>
          m.windows[i].tsOpen <= m.lastTs && 0 <= m.windows[i].tsClose <= m.lastTs)
  }

  lemma {:induction false} MarketAlways(r: Rules, es: seq<Event>, n: nat)
    requires TimeOrdered(es) && n <= |es|
    ensures MarketInv(MarketAfter(r, es, n), es, n)
  {
    if n != 0 {
      MarketAlways(r, es, n - 1);
      StepEvolves(r, MarketAfter(r, es, n - 1), es[n - 1]);
      if n > 1 {
        assert es[n - 2].book.ts <= es[n - 1].book.ts;
      }
    }
  }

  // ---- due executions ----

  ghost predicate DueOk(m: Market, lat: int, d: Due) {
    d.window < |m.windows| && d.ts == m.windows[d.window].tsOpen + lat
  }

  /** In time order, and all strictly after the last event. */
  ghost predicate DueInv(m: Market, lat: int, due: seq<Due>, last: int) {
    && (forall i, j :: 0 <= i < j < |due| ==> due[i].ts <= due[j].ts)
    && (forall i :: 0 <= i < |due| ==> DueOk(m, lat, due[i]) && last < due[i].ts)
  }

  lemma {:induction false} EnqueueKeeps(m: Market, lat: int, due: seq<Due>, d: Due, last: int)
    requires DueInv(m, lat, due, last) && DueOk(m, lat, d) && last < d.ts
    ensures DueInv(m, lat, Enqueue(due, d), last)
    ensures forall i :: 0 <= i < |Enqueue(due, d)| ==> Enqueue(due, d)[i] == d || Enqueue(due, d)[i] in due
  {
    if !(due == [] || d.ts < due[0].ts) {
      EnqueueKeeps(m, lat, due[1..], d, last);
      var r := Enqueue(due[1..], d);
      forall i | 0 <= i < |r| ensures due[0].ts <= r[i].ts {
        assert r[i] == d || r[i] in due[1..];
      }
    }
  }

  lemma {:induction false} OpenKeeps(m: Market, lat: int, due: seq<Due>, lo: nat, hi: nat, now: int)
    requires DueInv(m, lat, due, now) && lo <= hi <= |m.windows| && lat > 0
    requires forall i :: lo <= i < hi ==> m.windows[i].tsOpen == now
    ensures DueInv(m, lat, LaneOpen(due, lo, hi, now + lat, 1), now)
    decreases hi
  {
    if lo < hi {
      OpenKeeps(m, lat, due, lo, hi - 1, now);
      var one, d := LaneOpen(due, lo, hi - 1, now + lat, 1), Due(now + lat, hi - 1);
      EnqueueKeeps(m, lat, one, d, now);
      assert EnqueueN(one, d, 1) == Enqueue(EnqueueN(one, d, 0), d);
    }
  }

  // ---- no look-ahead ----

  /** All events before `k` are earlier than `ts`, and none from `k` on is. */
  ghost predicate SplitsAt(es: seq<Event>, k: nat, ts: int) {
    && k <= |es|
    && (forall i :: 0 <= i < k ==> es[i].book.ts < ts)
    && (forall i :: k <= i < |es| ==> ts <= es[i].book.ts)
  }

  /** The execution saw exactly the market after all events earlier than its own time. */
  ghost predicate NoPeek(ms: seq<Market>, es: seq<Event>, lat: int, x: Execution) {
    && SplitsAt(es, x.after, x.executeTs) && x.after < |ms|
    && var m := ms[x.after];
    && x.window < |m.windows|
    && var w := m.windows[x.window];
    && x.executeTs == w.tsOpen + lat
    && x.buy == Get(m.books, w.pair.buy) && x.sell == Get(m.books, w.pair.sell)
    && x.stillOpen == (w.tsClose == 0)
    && (x.result.reached <==> w.tsClose == 0 && lat < 1152921504606846976)
  }

  ghost predicate LogInv(ms: seq<Market>, es: seq<Event>, lat: int, a: Account) {
    forall i :: 0 <= i < |a.log| ==> NoPeek(ms, es, lat, a.log[i])
  }

  lemma ReachedIffInTime(t: Trading, buy: Option<Book>, sell: Option<Book>, lat: int, ttl: int, cap: Capital, ts: int, pair: Pair)
    ensures NetSim(t, buy, sell, lat, ttl, cap, ts, pair).0.reached <==> lat < ttl
  {
  }

  /** What settling an entry for the first time writes down. */
  lemma SettleLogs(t: Trading, m: Market, a: Account, lat: int, d: Due)
    requires d.window < |m.windows| && d.window !in a.results
    ensures var w, log := m.windows[d.window], LaneSettle(t, m, a, lat, d, true).log;
            && |log| == |a.log| + 1 && log[..|a.log|] == a.log
            && var x := log[|a.log|];
            && x.window == d.window && x.executeTs == d.ts && x.after == m.processed
            && x.buy == Get(m.books, w.pair.buy) && x.sell == Get(m.books, w.pair.sell)
            && x.stillOpen == (w.tsClose <= 0)
            && (x.result.reached <==> lat < Ttl(w, INF_TTL))
  {
    var w := m.windows[d.window];
    ReachedIffInTime(t, Get(m.books, w.pair.buy), Get(m.books, w.pair.sell), lat, Ttl(w, INF_TTL), a.capital, d.ts, w.pair);
  }

  /** One due execution, fired by event `n`. */
  lemma SettleSees(ms: seq<Market>, t: Trading, es: seq<Event>, n: nat, lat: int, a: Account, d: Due)
    requires TimeOrdered(es) && n < |es| && n < |ms| && MarketInv(ms[n], es, n) && LogInv(ms, es, lat, a)
    requires DueOk(ms[n], lat, d) && (n > 0 ==> es[n - 1].book.ts < d.ts) && d.ts <= es[n].book.ts
    ensures LogInv(ms, es, lat, LaneSettle(t, ms[n], a, lat, d, true))
  {
    if d.window !in a.results {
      SettleLogs(t, ms[n], a, lat, d);
      var log := LaneSettle(t, ms[n], a, lat, d, true).log;
      assert SplitsAt(es, n, d.ts);
      assert NoPeek(ms, es, lat, log[|a.log|]);
      assert forall i :: 0 <= i < |a.log| ==> log[i] == log[..|a.log|][i];
    }
  }

  lemma {:induction false} FireSees(ms: seq<Market>, t: Trading, es: seq<Event>, n: nat, lat: int, l: Lane, last: int)
    requires TimeOrdered(es) && n < |es| && n < |ms| && MarketInv(ms[n], es, n) && LogInv(ms, es, lat, l.account)
    requires DueInv(ms[n], lat, l.due, last) && (n > 0 ==> es[n - 1].book.ts == last)
    ensures var z := LaneFire(t, ms[n], l, lat, es[n].book.ts);
            LogInv(ms, es, lat, z.account) && DueInv(ms[n], lat, z.due, es[n].book.ts)
    decreases |l.due|
  {
    var m, now := ms[n], es[n].book.ts;
    if l.due != [] && l.due[0].ts <= now {
      var a := Settler(t, m, lat, true)(l.account, l.due[0]);
      SettleSees(ms, t, es, n, lat, l.account, l.due[0]);
      assert DueInv(m, lat, l.due[1..], last);
      FireSees(ms, t, es, n, lat, Lane(l.due[1..], a), last);
    }
  }

  /** From one market to the next: windows stay attached to their opening times, and new ones open now. */
  ghost predicate Grows(m: Market, k: Market, now: int) {
    && |m.windows| <= |k.windows|
    && (forall i :: 0 <= i < |m.windows| ==> k.windows[i].tsOpen == m.windows[i].tsOpen)
    && (forall i :: |m.windows| <= i < |k.windows| ==> k.windows[i].tsOpen == now)
  }

  lemma MarketGrows(r: Rules, es: seq<Event>, n: nat)
    requires n < |es|
    ensures Grows(MarketAfter(r, es, n), MarketAfter(r, es, n + 1), es[n].book.ts)
  {
    StepEvolves(r, MarketAfter(r, es, n), es[n]);
  }

  /** Pending executions stay attached to their windows while the market moves on. */
  lemma DueStays(m: Market, k: Market, lat: int, due: seq<Due>, last: int)
    requires DueInv(m, lat, due, last) && Grows(m, k, last)
    ensures DueInv(k, lat, due, last)
  {
  }

  lemma StepDue(t: Trading, m: Market, k: Market, l: Lane, lat: int, now: int)
    requires DueInv(m, lat, LaneFire(t, m, l, lat, now).due, now) && Grows(m, k, now) && lat > 0
    ensures DueInv(k, lat, LaneStep(t, m, k, l, lat, 1, now).due, now)
    ensures LaneStep(t, m, k, l, lat, 1, now).account == LaneFire(t, m, l, lat, now).account
  {
    var due := LaneFire(t, m, l, lat, now).due;
    DueStays(m, k, lat, due, now);
    OpenKeeps(k, lat, due, |m.windows|, |k.windows|, now);
  }

  ghost predicate LaneInv(ms: seq<Market>, t: Trading, es: seq<Event>, n: nat, lat: int)
    requires n <= |es| && n < |ms|
  {
    var l := LaneAlong(ms, t, lat, 1, es, n);
    LogInv(ms, es, lat, l.account) && DueInv(ms[n], lat, l.due, if n > 0 then es[n - 1].book.ts else 0)
  }

  lemma LaneStepSees(ms: seq<Market>, t: Trading, es: seq<Event>, n: nat, lat: int)
    requires TimeOrdered(es) && n < |es| && n + 1 < |ms| && lat > 0 && LaneInv(ms, t, es, n, lat)
    requires MarketInv(ms[n], es, n) && Grows(ms[n], ms[n + 1], es[n].book.ts)
    ensures LaneInv(ms, t, es, n + 1, lat)
  {
    var l := LaneAlong(ms, t, lat, 1, es, n);
    FireSees(ms, t, es, n, lat, l, if n > 0 then es[n - 1].book.ts else 0);
    StepDue(t, ms[n], ms[n + 1], l, lat, es[n].book.ts);
  }

  lemma {:induction false} LaneAlways(r: Rules, t: Trading, es: seq<Event>, n: nat, lat: int)
    requires TimeOrdered(es) && n <= |es| && lat > 0
    ensures LaneInv(Path(r, es), t, es, n, lat)
  {
    if n != 0 {
      LaneAlways(r, t, es, n - 1, lat);
      MarketAlways(r, es, n - 1);
      MarketGrows(r, es, n - 1);
      LaneStepSees(Path(r, es), t, es, n - 1, lat);
    }
  }

  /**
   No look-ahead: over every time-ordered stream and every positive latency, each execution
   during the stream saw exactly the books after all events strictly earlier than its
   execution time, and it counts as having reached the market exactly when its window was
   still open then (for latencies below the 2^60 ns that stand for an open window).
   */
  lemma NoLookAhead(p: Setup, es: seq<Event>, n: nat, lat: int)
    requires TimeOrdered(es) && n <= |es| && lat in p.latencies && lat > 0
    ensures var s := After(p, es, n);
            lat in s.accounts.byLatency && LogInv(Path(p.rules, es), es, lat, s.accounts.byLatency[lat])
  {
    AccountOfLane(p, es, n, lat);
    LaneAlways(p.rules, p.trading, es, n, lat);
  }

  // ---- the drain ----

  ghost predicate OnlyExpired(before: Account, after: Account) {
    && after.capital == before.capital
    && before.log <= after.log
    && (forall i :: |before.log| <= i < |after.log| ==> after.log[i].result == Missed(false, Expired))
    && (forall id :: id in after.results ==>
          (id in before.results && after.results[id] == before.results[id]) || after.results[id] == Missed(false, Expired))
  }

  lemma SettleExpires(t: Trading, m: Market, a: Account, lat: int, d: Due)
    requires DueOk(m, lat, d) && m.lastTs < d.ts && 0 <= m.windows[d.window].tsClose <= m.lastTs
    ensures OnlyExpired(a, LaneSettle(t, m, a, lat, d, false))
  {
    var w := m.windows[d.window];
    assert lat >= Ttl(w, m.lastTs - w.tsOpen);
  }

  lemma ExpiredChains(a: Account, b: Account, c: Account)
    requires OnlyExpired(a, b) && OnlyExpired(b, c)
    ensures OnlyExpired(a, c)
  {
  }

  lemma {:induction false} DrainExpires(t: Trading, m: Market, l: Lane, lat: int)
    requires DueInv(m, lat, l.due, m.lastTs)
    requires forall i :: 0 <= i < |m.windows| ==> 0 <= m.windows[i].tsClose <= m.lastTs
    ensures OnlyExpired(l.account, LaneDrain(t, m, l, lat).account)
    decreases |l.due|
  {
    if l.due != [] {
      var a := Settler(t, m, lat, false)(l.account, l.due[0]);
      SettleExpires(t, m, l.account, lat, l.due[0]);
      DrainExpires(t, m, Lane(l.due[1..], a), lat);
      ExpiredChains(l.account, a, LaneDrain(t, m, l, lat).account);
    }
  }

  /** The end-of-stream drain never fills and never touches capital: everything it settles has expired. */
  lemma DrainIsHarmless(p: Setup, es: seq<Event>, lat: int)
    requires TimeOrdered(es) && lat in p.latencies && lat > 0
    ensures var s := After(p, es, |es|);
            var d := Drain(p.trading, s.market, s.accounts);
            && lat in s.accounts.byLatency && lat in d.byLatency
            && OnlyExpired(s.accounts.byLatency[lat], d.byLatency[lat])
  {
    var n := |es|;
    AccountOfLane(p, es, n, lat);
    LaneAlways(p.rules, p.trading, es, n, lat);
    MarketAlways(p.rules, es, n);
    var l := LaneAfter(p.rules, p.trading, lat, 1, es, n);
    assert DueInv(MarketAfter(p.rules, es, n), lat, l.due, MarketAfter(p.rules, es, n).lastTs);
    DrainExpires(p.trading, MarketAfter(p.rules, es, n), l, lat);
  }

  // ---- capital ----

  /** Sum of the net results of the first `n` equity points. */
  function NetSum(eq: seq<EquityPoint>, n: nat): real
    requires n <= |eq|
  {
    if n == 0 then 0.0 else NetSum(eq, n - 1) + eq[n - 1].netPnl
  }

  /** Quote is what went in plus the net of every fill, each positive; base is untouched; the curve is the prefix sums. */
  ghost predicate CapitalInv(t: Trading, c: Capital) {
    && c.initialQuote == t.initialQuote && c.initialBase == t.initialBase
    && c.base == t.initialBase && c.totalFills == |c.equity|
    && c.quote == t.initialQuote + NetSum(c.equity, |c.equity|)
    && (forall i :: 0 <= i < |c.equity| ==>
          && c.equity[i].netPnl > 0.0
          && c.equity[i].base == t.initialBase
          && c.equity[i].quote == t.initialQuote + NetSum(c.equity, i + 1))
  }

  lemma {:induction false} NetSumPrefix(eq: seq<EquityPoint>, p: EquityPoint, n: nat)
    requires n <= |eq|
    ensures NetSum(eq + [p], n) == NetSum(eq, n)
  {
    if n != 0 {
      NetSumPrefix(eq, p, n - 1);
    }
  }

  lemma RecordKeeps(t: Trading, c: Capital, net: real, notional: real, ts: int, pair: Pair, qty: real)
    requires CapitalInv(t, c) && net > 0.0
    ensures CapitalInv(t, RecordFill(c, net, notional, ts, pair, qty))
  {
    var p := EquityPoint(ts, pair, qty, net, c.quote + net, c.base);
    forall i: nat | i <= |c.equity| ensures NetSum(c.equity + [p], i) == NetSum(c.equity, i) {
      NetSumPrefix(c.equity, p, i);
    }
  }

  /** A fill fits both level-0 quantities, the target and the configured balances before it; otherwise capital is untouched. */
  lemma FillFits(t: Trading, buy: Option<Book>, sell: Option<Book>, lat: int, ttl: int, c: Capital, ts: int, pair: Pair)
    ensures var (r, c') := NetSim(t, buy, sell, lat, ttl, c, ts, pair);
            && (r.valid ==>
                  && r.reached && r.net > 0.0 && r.net == r.gross - r.buyFee - r.sellFee
                  && buy.Some? && sell.Some? && buy.value.asks != [] && sell.value.bids != []
                  && r.buyAvg == buy.value.asks[0].price && r.sellAvg == sell.value.bids[0].price && r.buyAvg < r.sellAvg
                  && 0.0 < r.filledQty <= buy.value.asks[0].qty && r.filledQty <= sell.value.bids[0].qty
                  && (t.targetQty > 0.0 ==> r.filledQty <= t.targetQty)
                  && (c.initialQuote > 0.0 ==> r.capitalUsed <= c.quote)
                  && (c.initialBase > 0.0 ==> r.filledQty <= c.base)
                  && c' == RecordFill(c, r.net, r.capitalUsed, ts, pair, r.filledQty))
            && (!r.valid ==> c' == c)
  {
    FillExactly(t, buy, sell, lat, ttl, c, ts, pair);
  }

  lemma SettleKeepsCapital(t: Trading, m: Market, a: Account, lat: int, d: Due, inStream: bool)
    requires CapitalInv(t, a.capital)
    ensures CapitalInv(t, LaneSettle(t, m, a, lat, d, inStream).capital)
  {
    if d.window < |m.windows| && d.window !in a.results {
      var w := m.windows[d.window];
      var buy, sell := Get(m.books, w.pair.buy), Get(m.books, w.pair.sell);
      var ttl := Ttl(w, if inStream then INF_TTL else m.lastTs - w.tsOpen);
      FillFits(t, buy, sell, lat, ttl, a.capital, d.ts, w.pair);
      var (r, c) := NetSim(t, buy, sell, lat, ttl, a.capital, d.ts, w.pair);
      if r.valid {
        RecordKeeps(t, a.capital, r.net, r.capitalUsed, d.ts, w.pair, r.filledQty);
      }
    }
  }

  lemma {:induction false} FireKeepsCapital(t: Trading, m: Market, l: Lane, lat: int, now: int)
    requires CapitalInv(t, l.account.capital)
    ensures CapitalInv(t, LaneFire(t, m, l, lat, now).account.capital)
    decreases |l.due|
  {
    if l.due != [] && l.due[0].ts <= now {
      SettleKeepsCapital(t, m, l.account, lat, l.due[0], true);
      FireKeepsCapital(t, m, Lane(l.due[1..], Settler(t, m, lat, true)(l.account, l.due[0])), lat, now);
    }
  }

  lemma {:induction false} LaneCapital(r: Rules, t: Trading, lat: int, es: seq<Event>, n: nat)
    requires n <= |es|
    ensures CapitalInv(t, LaneAfter(r, t, lat, 1, es, n).account.capital)
  {
    if n != 0 {
      LaneCapital(r, t, lat, es, n - 1);
      FireKeepsCapital(t, MarketAfter(r, es, n - 1), LaneAfter(r, t, lat, 1, es, n - 1), lat, es[n - 1].book.ts);
    }
  }

  /** Accounting over every run, for every scenario. */
  lemma CapitalAlways(p: Setup, es: seq<Event>, n: nat, lat: int)
    requires n <= |es| && lat in p.latencies
    ensures var s := After(p, es, n);
            lat in s.accounts.byLatency && CapitalInv(p.trading, s.accounts.byLatency[lat].capital)
  {
    AccountOfLane(p, es, n, lat);
    LaneCapital(p.rules, p.trading, lat, es, n);
  }
}
