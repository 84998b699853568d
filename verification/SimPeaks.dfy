/** What a window reports: its peak is the widest spread of its life, and only long enough windows are recorded. */
module SimPeaks {
  import opened Options
  import opened Simulator
  import opened SimLaws
  import opened SimWindows
  import opened SimBooks

  /** A spread in price and in basis points of the mid. */
  datatype Spread = Spread(abs: real, bps: real)

  /** The wider of two, the earlier one on a tie. */
  function Wider(a: Spread, b: Spread): Spread {
    if a.abs < b.abs then b else a
  }

  /** Top bid of the selling venue against top ask of the buying venue. */
  function Gap(bs: seq<Event>, pair: Pair): Spread {
    var buy, sell := Get(bs, pair.buy), Get(bs, pair.sell);
    if buy.Some? && sell.Some? && buy.value.asks != [] && sell.value.bids != []
    then
      var ask, bid: real := buy.value.asks[0].price, sell.value.bids[0].price;
      Spread(bid - ask, 20000.0 * ((bid - ask) / (bid + ask)))
    else Spread(0.0, 0.0)
  }

  function Peak(w: Window): Spread {
    Spread(w.peakAbs, w.peakBps)
  }

  /** The widest spread of a pair from event `k` to event `n`, over the events that leave two venues. */
  function PeakOver(r: Rules, es: seq<Event>, k: nat, n: nat, pair: Pair): Spread
    requires 0 < k <= n <= |es|
    decreases n
  {
    var here := Gap(BooksAfter(r, es, n), pair);
    if n == k then here
    else if |BooksAfter(r, es, n)| >= 2 then Wider(PeakOver(r, es, k, n - 1, pair), here)
    else PeakOver(r, es, k, n - 1, pair)
  }

  // ---- one batch of crosses ----

  ghost predicate AtGap(bs: seq<Event>, cs: seq<Cross>) {
    forall c :: c in cs ==> Spread(c.spreadAbs, c.spreadBps) == Gap(bs, c.pair)
  }

  lemma CrossesAtGap(r: Rules, bs: seq<Event>)
    requires OnePerVenue(bs)
    ensures AtGap(bs, DetectCrosses(r, bs))
  {
    RowsAreFlat(r, bs, |bs|);
    forall c | c in DetectCrosses(r, bs) ensures Spread(c.spreadAbs, c.spreadBps) == Gap(bs, c.pair) {
      var i := FlatOnly(Rows(r, bs), |bs|, c);
      var j := RowOnly(r, bs, i, |bs|, c);
      GetAt(bs, i);
      GetAt(bs, j);
      SameBps(bs[i].book.asks[0].price, bs[j].book.bids[0].price);
    }
  }

  lemma SameBps(ask: Price, bid: Price)
    ensures ((bid - ask) / ((bid + ask) / 2.0)) * 10000.0 == 20000.0 * ((bid - ask) / (bid + ask))
  {
    var sum, gap: real := bid + ask, bid - ask;
    var half := sum / 2.0;
    var p, q := gap / half, gap / sum;
    assert p * half == gap && q * sum == gap;
    assert (2.0 * q) * half == q * sum;
    assert (p - 2.0 * q) * half == 0.0;
  }

  ghost predicate Hit(cs: seq<Cross>, n: nat, pair: Pair)
    requires n <= |cs|
  {
    exists j :: 0 <= j < n && cs[j].pair == pair
  }

  /** One cross: its open window, if any, is widened to it; otherwise a new one starts at it. */
  lemma CrossPeak(m: Market, c: Cross, symbol: string, now: int)
    requires ActiveInv(m)
    ensures var k := MarketCross(m, c, symbol, now);
            && |m.windows| <= |k.windows| <= |m.windows| + 1
            && (forall i :: 0 <= i < |m.windows| ==>
                  && k.windows[i].pair == m.windows[i].pair && k.windows[i].tsClose == m.windows[i].tsClose
                  && Peak(k.windows[i]) == if m.windows[i].tsClose == 0 && m.windows[i].pair == c.pair
                                           then Wider(Peak(m.windows[i]), Spread(c.spreadAbs, c.spreadBps)) else Peak(m.windows[i]))
            && (|m.windows| < |k.windows| ==>
                  k.windows[|m.windows|].pair == c.pair && Peak(k.windows[|m.windows|]) == Spread(c.spreadAbs, c.spreadBps))
  {
    FindActiveFinds(m.windows, m.active, c.pair, 0);
    var x := FindActive(m.windows, m.active, c.pair, 0);
    if x == |m.active| {
      forall i | 0 <= i < |m.windows| && m.windows[i].tsClose == 0 ensures m.windows[i].pair != c.pair {
        assert i in m.active;
        var j :| 0 <= j < |m.active| && m.active[j] == i;
      }
    } else {
      assert m.active[x] in m.active;
    }
  }

  /** Windows of `m` against those of `z`, after the first `n` crosses. */
  ghost predicate Peaked(bs: seq<Event>, m: Market, z: Market, cs: seq<Cross>, n: nat)
    requires n <= |cs|
  {
    && |m.windows| <= |z.windows|
    && (forall i :: 0 <= i < |m.windows| ==>
          && z.windows[i].pair == m.windows[i].pair && z.windows[i].tsClose == m.windows[i].tsClose
          && Peak(z.windows[i]) == if m.windows[i].tsClose == 0 && Hit(cs, n, m.windows[i].pair)
                                   then Wider(Peak(m.windows[i]), Gap(bs, m.windows[i].pair)) else Peak(m.windows[i]))
    && (forall i :: |m.windows| <= i < |z.windows| ==> Peak(z.windows[i]) == Gap(bs, z.windows[i].pair))
  }

  lemma HitMore(cs: seq<Cross>, n: nat, pair: Pair)
    requires 0 < n <= |cs|
    ensures Hit(cs, n, pair) <==> Hit(cs, n - 1, pair) || cs[n - 1].pair == pair
  {
  }

  lemma PeakedMore(bs: seq<Event>, m: Market, z: Market, cs: seq<Cross>, n: nat, symbol: string, now: int)
    requires 0 < n <= |cs| && Peaked(bs, m, z, cs, n - 1) && ActiveInv(z) && AtGap(bs, cs)
    ensures Peaked(bs, m, MarketCross(z, cs[n - 1], symbol, now), cs, n)
  {
    CrossPeak(z, cs[n - 1], symbol, now);
    assert cs[n - 1] in cs;
    forall i | 0 <= i < |m.windows|
      ensures Hit(cs, n, m.windows[i].pair) <==> Hit(cs, n - 1, m.windows[i].pair) || cs[n - 1].pair == m.windows[i].pair
    {
      HitMore(cs, n, m.windows[i].pair);
    }
  }

  lemma {:induction false} CrossesPeak(bs: seq<Event>, m: Market, cs: seq<Cross>, n: nat, symbol: string, now: int)
    requires n <= |cs| && ActiveInv(m) && AtGap(bs, cs)
    ensures Peaked(bs, m, MarketCrosses(m, cs, n, symbol, now), cs, n)
  {
    if n != 0 {
      CrossesPeak(bs, m, cs, n - 1, symbol, now);
      PeakedNext(bs, m, cs, n - 1, symbol, now);
    }
  }

  lemma PeakedNext(bs: seq<Event>, m: Market, cs: seq<Cross>, n: nat, symbol: string, now: int)
    requires n < |cs| && ActiveInv(m) && AtGap(bs, cs) && Peaked(bs, m, MarketCrosses(m, cs, n, symbol, now), cs, n)
    ensures Peaked(bs, m, MarketCrosses(m, cs, n + 1, symbol, now), cs, n + 1)
  {
    CrossesOpen(m, cs, n, symbol, now);
    PeakedMore(bs, m, MarketCrosses(m, cs, n, symbol, now), cs, n + 1, symbol, now);
  }

  lemma {:induction false} CloseKeepsPeak(r: Rules, m: Market, cs: seq<Cross>, now: int, n: nat)
    requires n <= |m.active|
    ensures var k := CloseFirst(r, m, cs, now, n);
            |k.windows| == |m.windows| &&
            forall i :: 0 <= i < |m.windows| ==> Peak(k.windows[i]) == Peak(m.windows[i]) && k.windows[i].pair == m.windows[i].pair
  {
    if n != 0 {
      CloseKeepsPeak(r, m, cs, now, n - 1);
    }
  }

  // ---- one event ----

  lemma OpenIsHit(r: Rules, m: Market, e: Event, i: nat)
    requires ActiveInv(m) && e.book.ts > 0
    requires var z := MarketStep(r, m, e); i < |z.windows| && z.windows[i].tsClose == 0 && |z.books| >= 2
    ensures var z := MarketStep(r, m, e); var cs := DetectCrosses(r, z.books); Hit(cs, |cs|, z.windows[i].pair)
  {
    StepActive(r, m, e);
    var z := MarketStep(r, m, e);
    var pair, cs := z.windows[i].pair, DetectCrosses(r, z.books);
    assert OpenFor(z, i, pair);
    assert HasOpen(z, pair);
    var c :| c in cs && c.pair == pair;
    var j :| 0 <= j < |cs| && cs[j] == c;
  }

  /** A window that is still open has its peak raised to the current spread; a new one starts there. */
  lemma StepPeak(r: Rules, m: Market, e: Event, i: nat)
    requires ActiveInv(m) && e.book.ts > 0 && OnePerVenue(Absorb(r, m, e).books)
    requires i < |MarketStep(r, m, e).windows| && MarketStep(r, m, e).windows[i].tsClose == 0
    ensures var z, bs := MarketStep(r, m, e), Absorb(r, m, e).books;
            var w := z.windows[i];
            if i < |m.windows| then
              && m.windows[i].tsClose == 0 && w.pair == m.windows[i].pair && w.tsOpen == m.windows[i].tsOpen
              && Peak(w) == if |bs| >= 2 then Wider(Peak(m.windows[i]), Gap(bs, w.pair)) else Peak(m.windows[i])
            else w.tsOpen == e.book.ts && Peak(w) == Gap(bs, w.pair)
  {
    var a, now := Absorb(r, m, e), e.book.ts;
    StepEvolves(r, m, e);
    if |a.books| >= 2 {
      var cs := DetectCrosses(r, a.books);
      assert ActiveInv(a);
      CrossesAtGap(r, a.books);
      CrossesPeak(a.books, a, cs, |cs|, e.book.symbol, now);
      var o := MarketOpened(r, m, e);
      CrossesEvolve(a, cs, |cs|, e.book.symbol, now);
      CloseKeepsPeak(r, o, cs, now, |o.active|);
      OpenIsHit(r, m, e, i);
    }
  }

  // ---- the whole run ----

  /** The window opened with some event `k` and its peak is the widest spread since. */
  ghost predicate PeakSince(r: Rules, es: seq<Event>, n: nat, w: Window)
    requires n <= |es|
  {
    exists k: nat :: 0 < k <= n && es[k - 1].book.ts == w.tsOpen && Peak(w) == PeakOver(r, es, k, n, w.pair)
  }

  /** Over every run, the peak of an open window is the widest spread its pair has shown since it opened. */
  lemma {:induction false} PeakIsWidest(r: Rules, es: seq<Event>, n: nat, i: nat)
    requires n <= |es| && forall j :: 0 <= j < |es| ==> es[j].book.ts > 0
    requires i < |MarketAfter(r, es, n).windows| && MarketAfter(r, es, n).windows[i].tsClose == 0
    ensures PeakSince(r, es, n, MarketAfter(r, es, n).windows[i])
  {
    if n != 0 {
      var m, e := MarketAfter(r, es, n - 1), es[n - 1];
      ActiveAlways(r, es, n - 1);
      StepBooks(r, m, e);
      MarketBooks(r, es, n);
      BooksOne(r, es, n);
      StepPeak(r, m, e, i);
      var w := MarketAfter(r, es, n).windows[i];
      if i < |m.windows| {
        PeakIsWidest(r, es, n - 1, i);
        PeakExtends(r, es, n, m.windows[i], w);
      } else {
        assert Peak(w) == PeakOver(r, es, n, n, w.pair);
      }
    }
  }

  lemma PeakExtends(r: Rules, es: seq<Event>, n: nat, v: Window, w: Window)
    requires 0 < n <= |es| && PeakSince(r, es, n - 1, v) && w.pair == v.pair && w.tsOpen == v.tsOpen
    requires var bs := BooksAfter(r, es, n);
             Peak(w) == if |bs| >= 2 then Wider(Peak(v), Gap(bs, w.pair)) else Peak(v)
    ensures PeakSince(r, es, n, w)
  {
    var k: nat :| 0 < k <= n - 1 && es[k - 1].book.ts == v.tsOpen && Peak(v) == PeakOver(r, es, k, n - 1, v.pair);
    assert Peak(w) == PeakOver(r, es, k, n, w.pair);
  }

  // ---- how a window begins ----

  /** The opening cross quotes the tops of the two books. */
  ghost predicate OpenedOn(bs: seq<Event>, c: Cross) {
    var buy, sell := Get(bs, c.pair.buy), Get(bs, c.pair.sell);
    && buy.Some? && sell.Some? && buy.value.asks != [] && sell.value.bids != []
    && c.buyAsk == buy.value.asks[0].price && c.sellBid == sell.value.bids[0].price
    && Spread(c.spreadAbs, c.spreadBps) == Gap(bs, c.pair)
  }

  lemma CrossesOpenedOn(r: Rules, bs: seq<Event>, c: Cross)
    requires OnePerVenue(bs) && c in DetectCrosses(r, bs)
    ensures OpenedOn(bs, c)
  {
    RowsAreFlat(r, bs, |bs|);
    CrossesAtGap(r, bs);
    var i := FlatOnly(Rows(r, bs), |bs|, c);
    var j := RowOnly(r, bs, i, |bs|, c);
    GetAt(bs, i);
    GetAt(bs, j);
  }

  /** Pair, symbol, time and cross of the opening. */
  datatype Birth = Birth(pair: Pair, symbol: string, ts: int, cross: Cross)

  function BirthOf(w: Window): Birth {
    Birth(w.pair, w.symbol, w.tsOpen, w.open)
  }

  /** Windows keep their birth; new ones are born now, on one of these crosses. */
  ghost predicate Grown(m: Market, k: Market, cs: seq<Cross>, symbol: string, now: int) {
    && |m.windows| <= |k.windows|
    && (forall i :: 0 <= i < |m.windows| ==> BirthOf(k.windows[i]) == BirthOf(m.windows[i]))
    && (forall i :: |m.windows| <= i < |k.windows| ==>
          k.windows[i].open in cs && BirthOf(k.windows[i]) == Birth(k.windows[i].open.pair, symbol, now, k.windows[i].open))
  }

  lemma CrossGrown(m: Market, k: Market, cs: seq<Cross>, c: Cross, symbol: string, now: int)
    requires Grown(m, k, cs, symbol, now) && c in cs
    ensures Grown(m, MarketCross(k, c, symbol, now), cs, symbol, now)
  {
  }

  lemma {:induction false} CrossesGrown(m: Market, cs: seq<Cross>, n: nat, symbol: string, now: int)
    requires n <= |cs|
    ensures Grown(m, MarketCrosses(m, cs, n, symbol, now), cs, symbol, now)
  {
    if n != 0 {
      CrossesGrown(m, cs, n - 1, symbol, now);
      CrossGrown(m, MarketCrosses(m, cs, n - 1, symbol, now), cs, cs[n - 1], symbol, now);
    }
  }

  lemma {:induction false} CloseGrown(r: Rules, m: Market, k: Market, cs: seq<Cross>, symbol: string, now: int, n: nat)
    requires Grown(m, k, cs, symbol, now) && n <= |k.active|
    ensures Grown(m, CloseFirst(r, k, cs, now, n), cs, symbol, now)
  {
    if n != 0 {
      CloseGrown(r, m, k, cs, symbol, now, n - 1);
    }
  }

  lemma StepGrown(r: Rules, m: Market, e: Event)
    ensures var bs := Absorb(r, m, e).books;
            Grown(m, MarketStep(r, m, e), if |bs| >= 2 then DetectCrosses(r, bs) else [], e.book.symbol, e.book.ts)
  {
    var a := Absorb(r, m, e);
    if |a.books| >= 2 {
      var cs := DetectCrosses(r, a.books);
      CrossesGrown(a, cs, |cs|, e.book.symbol, e.book.ts);
      CrossesEvolve(a, cs, |cs|, e.book.symbol, e.book.ts);
      var o := MarketOpened(r, m, e);
      CloseGrown(r, a, o, cs, e.book.symbol, e.book.ts, |o.active|);
    }
  }

  /** Born with event `k`: its symbol and time, and the tops of the books as they were then. */
  ghost predicate BornAt(r: Rules, es: seq<Event>, k: nat, b: Birth) {
    && 0 < k <= |es| && b.ts == es[k - 1].book.ts && b.symbol == es[k - 1].book.symbol
    && b.pair == b.cross.pair && OpenedOn(BooksAfter(r, es, k), b.cross)
  }

  lemma NewlyBorn(r: Rules, m: Market, e: Event, i: nat)
    requires |m.windows| <= i < |MarketStep(r, m, e).windows| && OnePerVenue(Absorb(r, m, e).books)
    ensures var b := BirthOf(MarketStep(r, m, e).windows[i]);
            b == Birth(b.cross.pair, e.book.symbol, e.book.ts, b.cross) && OpenedOn(Absorb(r, m, e).books, b.cross)
  {
    StepGrown(r, m, e);
    CrossesOpenedOn(r, Absorb(r, m, e).books, MarketStep(r, m, e).windows[i].open);
  }

  lemma BornNow(r: Rules, es: seq<Event>, n: nat, i: nat)
    requires n < |es| && |MarketAfter(r, es, n).windows| <= i < |MarketAfter(r, es, n + 1).windows|
    ensures BornAt(r, es, n + 1, BirthOf(MarketAfter(r, es, n + 1).windows[i]))
  {
    StepBooks(r, MarketAfter(r, es, n), es[n]);
    MarketBooks(r, es, n + 1);
    BooksOne(r, es, n + 1);
    NewlyBorn(r, MarketAfter(r, es, n), es[n], i);
  }

  function BirthsAt(r: Rules, es: seq<Event>, n: nat): (bs: seq<Birth>)
    requires n <= |es|
    ensures |bs| == |MarketAfter(r, es, n).windows|
  {
    var ws := MarketAfter(r, es, n).windows;
    seq(|ws|, i requires 0 <= i < |ws| => BirthOf(ws[i]))
  }

  function Births(r: Rules, es: seq<Event>): (bss: seq<seq<Birth>>)
    ensures |bss| == |es| + 1
  {
    seq(|es| + 1, n requires 0 <= n <= |es| => BirthsAt(r, es, n))
  }

  /** From one event to the next births are kept, and new ones belong to that event. */
  ghost predicate BirthStep(r: Rules, es: seq<Event>, bss: seq<seq<Birth>>, n: nat) {
    && n + 1 < |bss|
    && var a, b, k := bss[n], bss[n + 1], n + 1;
    a <= b && forall i :: |a| <= i < |b| ==> BornAt(r, es, k, b[i])
  }

  lemma BirthSteps(r: Rules, es: seq<Event>, n: nat)
    requires n < |es|
    ensures BirthStep(r, es, Births(r, es), n)
  {
    var a, b := BirthsAt(r, es, n), BirthsAt(r, es, n + 1);
    StepGrown(r, MarketAfter(r, es, n), es[n]);
    assert a <= b;
    forall i | |a| <= i < |b| ensures BornAt(r, es, n + 1, b[i]) {
      BornNow(r, es, n, i);
    }
  }

  lemma {:induction false} BornAlong(r: Rules, es: seq<Event>, bss: seq<seq<Birth>>, n: nat, i: nat) returns (k: nat)
    requires n < |bss| && bss[0] == [] && i < |bss[n]| && forall j :: 0 <= j < n ==> BirthStep(r, es, bss, j)
    ensures k <= n && BornAt(r, es, k, bss[n][i])
  {
    assert BirthStep(r, es, bss, n - 1);
    if i < |bss[n - 1]| {
      k := BornAlong(r, es, bss, n - 1, i);
    } else {
      k := n;
    }
  }

  /** Over every run, each window, open or closed, tells truly with which event and on which quotes it opened. */
  lemma WindowsAreBorn(r: Rules, es: seq<Event>, n: nat, i: nat) returns (k: nat)
    requires n <= |es| && i < |MarketAfter(r, es, n).windows|
    ensures k <= n && BornAt(r, es, k, BirthOf(MarketAfter(r, es, n).windows[i]))
  {
    var bss := Births(r, es);
    forall j | 0 <= j < n ensures BirthStep(r, es, bss, j) {
      BirthSteps(r, es, j);
    }
    assert bss[0] == BirthsAt(r, es, 0) == [];
    k := BornAlong(r, es, bss, n, i);
  }

  // ---- recorded windows ----

  /** Closed, and open for long enough. */
  ghost predicate Reportable(r: Rules, w: Window) {
    w.tsClose > 0 && (r.ttlMinMs <= 0.0 || (w.tsClose - w.tsOpen) as real >= r.ttlMinMs * 1000000.0)
  }

  ghost predicate RecordedInv(r: Rules, m: Market) {
    forall i: nat :: i in m.recorded <==> i < |m.windows| && Reportable(r, m.windows[i])
  }

  ghost predicate Distinct(active: seq<nat>) {
    forall i, j :: 0 <= i < j < |active| ==> active[i] != active[j]
  }

  lemma CrossRecords(r: Rules, m: Market, c: Cross, symbol: string, now: int)
    requires ActiveInv(m) && RecordedInv(r, m) && Distinct(m.active)
    ensures var k := MarketCross(m, c, symbol, now); RecordedInv(r, k) && Distinct(k.active)
  {
    forall i | 0 <= i < |m.active| ensures m.active[i] < |m.windows| {
      assert m.active[i] in m.active;
    }
  }

  lemma {:induction false} CrossesRecord(r: Rules, m: Market, cs: seq<Cross>, n: nat, symbol: string, now: int)
    requires n <= |cs| && ActiveInv(m) && RecordedInv(r, m) && Distinct(m.active)
    ensures var k := MarketCrosses(m, cs, n, symbol, now); RecordedInv(r, k) && Distinct(k.active)
  {
    if n != 0 {
      CrossesRecord(r, m, cs, n - 1, symbol, now);
      CrossesOpen(m, cs, n - 1, symbol, now);
      CrossRecords(r, MarketCrosses(m, cs, n - 1, symbol, now), cs[n - 1], symbol, now);
    }
  }

  /** Closing one open window records it exactly when it lived long enough. */
  lemma CloseOneRecords(r: Rules, k: Market, id: nat, now: int)
    requires RecordedInv(r, k) && id < |k.windows| && k.windows[id].tsClose == 0 && now > 0
    ensures RecordedInv(r, k.(windows := k.windows[id := k.windows[id].(tsClose := now)],
                              recorded := if Recorded(r, k.windows[id], now) then k.recorded + [id] else k.recorded))
  {
    assert id !in k.recorded;
  }

  lemma {:induction false} CloseRecords(r: Rules, m: Market, cs: seq<Cross>, now: int, n: nat)
    requires ActiveInv(m) && RecordedInv(r, m) && Distinct(m.active) && n <= |m.active| && now > 0
    ensures RecordedInv(r, CloseFirst(r, m, cs, now, n))
  {
    if n == 0 {
      CloseNone(r, m, cs, now);
    } else {
      CloseRecords(r, m, cs, now, n - 1);
      CloseRecordsNext(r, m, cs, now, n - 1);
    }
  }

  lemma CloseNone(r: Rules, m: Market, cs: seq<Cross>, now: int)
    requires RecordedInv(r, m)
    ensures RecordedInv(r, CloseFirst(r, m, cs, now, 0))
  {
  }

  lemma CloseRecordsNext(r: Rules, m: Market, cs: seq<Cross>, now: int, n: nat)
    requires ActiveInv(m) && Distinct(m.active) && n < |m.active| && now > 0
    requires RecordedInv(r, CloseFirst(r, m, cs, now, n))
    ensures RecordedInv(r, CloseFirst(r, m, cs, now, n + 1))
  {
    StillOpen(r, m, cs, now, n);
    CloseOneRecords(r, CloseFirst(r, m, cs, now, n), m.active[n], now);
  }

  lemma StillOpen(r: Rules, m: Market, cs: seq<Cross>, now: int, n: nat)
    requires ActiveInv(m) && Distinct(m.active) && n < |m.active| && now > 0
    ensures var k, id := CloseFirst(r, m, cs, now, n), m.active[n]; id < |k.windows| && k.windows[id].tsClose == 0
  {
    CloseSplits(r, m, cs, now, n);
    assert m.active[n] in m.active && m.active[n] !in m.active[..n];
  }

  lemma {:induction false} CloseDistinct(r: Rules, m: Market, cs: seq<Cross>, now: int, n: nat)
    requires Distinct(m.active) && n <= |m.active|
    ensures var k := CloseFirst(r, m, cs, now, n);
            Distinct(k.active) && forall i :: 0 <= i < |k.active| ==> k.active[i] in m.active[..n]
  {
    if n != 0 {
      CloseDistinct(r, m, cs, now, n - 1);
      assert m.active[..n] == m.active[..n - 1] + [m.active[n - 1]];
      assert m.active[n - 1] !in m.active[..n - 1];
    }
  }

  lemma StepRecords(r: Rules, m: Market, e: Event)
    requires ActiveInv(m) && RecordedInv(r, m) && Distinct(m.active) && e.book.ts > 0
    ensures var k := MarketStep(r, m, e); RecordedInv(r, k) && Distinct(k.active)
  {
    var a := Absorb(r, m, e);
    assert ActiveInv(a) && RecordedInv(r, a);
    if |a.books| >= 2 {
      var cs := DetectCrosses(r, a.books);
      CrossesRecord(r, a, cs, |cs|, e.book.symbol, e.book.ts);
      CrossesOpen(a, cs, |cs|, e.book.symbol, e.book.ts);
      CrossesEvolve(a, cs, |cs|, e.book.symbol, e.book.ts);
      var o := MarketOpened(r, m, e);
      CloseRecords(r, o, cs, e.book.ts, |o.active|);
      CloseDistinct(r, o, cs, e.book.ts, |o.active|);
    }
  }

  ghost predicate Consistent(r: Rules, m: Market) {
    ActiveInv(m) && RecordedInv(r, m) && Distinct(m.active)
  }

  lemma StepConsistent(r: Rules, m: Market, e: Event)
    requires Consistent(r, m) && e.book.ts > 0
    ensures Consistent(r, MarketStep(r, m, e))
  {
    StepActive(r, m, e);
    StepRecords(r, m, e);
  }

  lemma {:induction false} ConsistentAlways(r: Rules, es: seq<Event>, n: nat)
    requires n <= |es| && forall j :: 0 <= j < |es| ==> es[j].book.ts > 0
    ensures Consistent(r, MarketAfter(r, es, n))
  {
    if n != 0 {
      ConsistentAlways(r, es, n - 1);
      StepConsistent(r, MarketAfter(r, es, n - 1), es[n - 1]);
    }
  }

  /** Over every run, the windows recorded are exactly those that have closed and lived at least the minimum lifetime. */
  lemma RecordedExactly(r: Rules, es: seq<Event>, n: nat, i: nat)
    requires n <= |es| && forall j :: 0 <= j < |es| ==> es[j].book.ts > 0
    ensures var m := MarketAfter(r, es, n); i in m.recorded <==> i < |m.windows| && Reportable(r, m.windows[i])
  {
    ConsistentAlways(r, es, n);
  }
}
