/**
 What the guards of the scan mean, said on ticks, timestamps and rates without the scan's own
 arithmetic: no median is computed, no spread divided.
 */
module DetectorMeaning {
  import opened Detector

  // ---- counting and ranks ----

  /** How many elements lie strictly below `lo`, and strictly above `hi`. */
  function CountBelow(s: seq<int>, lo: int): nat {
    if s == [] then 0 else (if s[0] < lo then 1 else 0) + CountBelow(s[1..], lo)
  }

  function CountAbove(s: seq<int>, hi: int): nat {
    if s == [] then 0 else (if s[0] > hi then 1 else 0) + CountAbove(s[1..], hi)
  }

  function CountIn(s: seq<int>, lo: int, hi: int): nat {
    if s == [] then 0 else (if lo <= s[0] <= hi then 1 else 0) + CountIn(s[1..], lo, hi)
  }

  lemma {:induction false} CountSplit(s: seq<int>, lo: int, hi: int)
    requires lo <= hi
    ensures CountBelow(s, lo) + CountIn(s, lo, hi) + CountAbove(s, hi) == |s|
  {
    if s != [] {
      CountSplit(s[1..], lo, hi);
    }
  }

  ghost predicate Ascending(s: seq<int>) {
    forall i, j :: 0 <= i < j < |s| ==> s[i] <= s[j]
  }

  lemma {:induction false} InsertAscending(x: int, s: seq<int>)
    requires Ascending(s)
    ensures Ascending(Insert(x, s))
    ensures forall y :: y in Insert(x, s) ==> y == x || y in s
  {
    if s != [] && x > s[0] {
      InsertAscending(x, s[1..]);
      var r := Insert(x, s[1..]);
      forall j | 0 <= j < |r| ensures s[0] <= r[j] {
        assert r[j] in r;
        if r[j] != x {
          var i :| 0 <= i < |s[1..]| && s[1..][i] == r[j];
          assert s[0] <= s[i + 1];
        }
      }
    }
  }

  lemma {:induction false} SortAscending(s: seq<int>)
    ensures Ascending(SortInts(s))
  {
    if s != [] {
      SortAscending(s[1..]);
      InsertAscending(s[0], SortInts(s[1..]));
    }
  }

  lemma {:induction false} InsertCounts(x: int, s: seq<int>, lo: int, hi: int)
    ensures CountBelow(Insert(x, s), lo) == CountBelow(s, lo) + if x < lo then 1 else 0
    ensures CountAbove(Insert(x, s), hi) == CountAbove(s, hi) + if x > hi then 1 else 0
  {
    var r := Insert(x, s);
    if s == [] || x <= s[0] {
      assert r[1..] == s;
    } else {
      InsertCounts(x, s[1..], lo, hi);
      assert r[1..] == Insert(x, s[1..]);
    }
  }

  lemma {:induction false} SortCounts(s: seq<int>, lo: int, hi: int)
    ensures CountBelow(SortInts(s), lo) == CountBelow(s, lo)
    ensures CountAbove(SortInts(s), hi) == CountAbove(s, hi)
  {
    if s != [] {
      SortCounts(s[1..], lo, hi);
      InsertCounts(s[0], SortInts(s[1..]), lo, hi);
    }
  }

  /** In an ascending list, an element at or past the count of smaller ones is not smaller. */
  lemma {:induction false} NotBelow(s: seq<int>, lo: int, k: nat)
    requires Ascending(s) && CountBelow(s, lo) <= k < |s|
    ensures s[k] >= lo
  {
    if s[0] < lo {
      NotBelow(s[1..], lo, k - 1);
    }
  }

  lemma {:induction false} NotAbove(s: seq<int>, hi: int, k: nat)
    requires Ascending(s) && k + CountAbove(s, hi) < |s|
    ensures s[k] <= hi
  {
    if s[0] > hi {
      AllAbove(s, hi);
    } else if k > 0 {
      NotAbove(s[1..], hi, k - 1);
    }
  }

  lemma {:induction false} AllAbove(s: seq<int>, hi: int)
    requires Ascending(s) && (s != [] ==> s[0] > hi)
    ensures CountAbove(s, hi) == |s|
  {
    if s != [] {
      AllAbove(s[1..], hi);
    }
  }

  /** `x` is the k-th smallest of the list, counting from 0. */
  ghost predicate Ranked(s: seq<int>, x: int, k: nat) {
    CountBelow(s, x) <= k < |s| - CountAbove(s, x)
  }

  lemma {:induction false} AscendingRanks(s: seq<int>, k: nat)
    requires Ascending(s) && k < |s|
    ensures Ranked(s, s[k], k)
  {
    if k == 0 {
      NoneBelow(s, s[0]);
      CountAboveTail(s, s[0]);
    } else {
      AscendingRanks(s[1..], k - 1);
    }
  }

  lemma {:induction false} NoneBelow(s: seq<int>, x: int)
    requires forall i :: 0 <= i < |s| ==> x <= s[i]
    ensures CountBelow(s, x) == 0
  {
    if s != [] {
      NoneBelow(s[1..], x);
    }
  }

  lemma {:induction false} CountAboveTail(s: seq<int>, x: int)
    ensures CountAbove(s, x) <= |s|
    ensures s != [] && s[0] <= x ==> CountAbove(s, x) < |s|
  {
    if s != [] {
      CountAboveTail(s[1..], x);
    }
  }

  lemma {:induction false} BelowCovers(s: seq<int>, x: int, y: int)
    requires x < y
    ensures CountBelow(s, y) + CountAbove(s, x) >= |s|
  {
    if s != [] {
      BelowCovers(s[1..], x, y);
    }
  }

  /** A rank has one holder. */
  lemma RankUnique(s: seq<int>, x: int, y: int, k: nat)
    requires Ranked(s, x, k) && Ranked(s, y, k)
    ensures x == y
  {
    if x < y {
      BelowCovers(s, x, y);
    } else if y < x {
      BelowCovers(s, y, x);
    }
  }

  /** The two middle bids, equal for an odd count, of which the median is the mean. */
  ghost predicate Middle(s: seq<int>, a: int, b: int) {
    |s| > 0 && Ranked(s, a, (|s| - 1) / 2) && Ranked(s, b, |s| / 2)
  }

  lemma MedianIsMiddle(s: seq<int>) returns (a: int, b: int)
    requires |s| > 0
    ensures Middle(s, a, b) && 2.0 * Median(s) == (a + b) as real
  {
    var t := SortInts(s);
    a, b := t[(|s| - 1) / 2], t[|s| / 2];
    SortAscending(s);
    AscendingRanks(t, (|s| - 1) / 2);
    AscendingRanks(t, |s| / 2);
    SortCounts(s, a, a);
    SortCounts(s, b, b);
  }

  // ---- the anomaly filter ----

  /** How many of the first `n` venues are synced and quote a positive bid below, or above, a price. */
  function QuotesBelow(vs: seq<Venue>, n: nat, x: int): nat
    requires n <= |vs|
  {
    if n == 0 then 0
    else QuotesBelow(vs, n - 1, x) + if vs[n - 1].synced && 0 < vs[n - 1].bestBid < x then 1 else 0
  }

  function QuotesAbove(vs: seq<Venue>, n: nat, x: int): nat
    requires n <= |vs|
  {
    if n == 0 then 0
    else QuotesAbove(vs, n - 1, x) + if vs[n - 1].synced && 0 < vs[n - 1].bestBid && x < vs[n - 1].bestBid then 1 else 0
  }

  function Quotes(vs: seq<Venue>, n: nat): nat
    requires n <= |vs|
  {
    if n == 0 then 0 else Quotes(vs, n - 1) + if vs[n - 1].synced && 0 < vs[n - 1].bestBid then 1 else 0
  }

  lemma {:induction false} CountAppend(s: seq<int>, x: int, y: int)
    ensures CountBelow(s + [y], x) == CountBelow(s, x) + if y < x then 1 else 0
    ensures CountAbove(s + [y], x) == CountAbove(s, x) + if y > x then 1 else 0
  {
    if s == [] {
      assert s + [y] == [y];
      assert [y][1..] == [];
    } else {
      var t := s + [y];
      assert t[0] == s[0] && t[1..] == s[1..] + [y];
      CountAppend(s[1..], x, y);
    }
  }

  lemma {:induction false} BidsCounted(vs: seq<Venue>, n: nat, x: int)
    requires n <= |vs|
    ensures |Bids(vs, n)| == Quotes(vs, n)
    ensures CountBelow(Bids(vs, n), x) == QuotesBelow(vs, n, x) && CountAbove(Bids(vs, n), x) == QuotesAbove(vs, n, x)
  {
    if n != 0 {
      BidsCounted(vs, n - 1, x);
      CountAppend(Bids(vs, n - 1), x, vs[n - 1].bestBid);
      assert Bids(vs, n - 1) + [] == Bids(vs, n - 1);
    }
  }

  /** `x` is the k-th smallest positive bid among the scanned synced venues. */
  ghost predicate BidRanked(vs: seq<Venue>, x: int, k: nat) {
    var n := Scanned(vs);
    QuotesBelow(vs, n, x) <= k < Quotes(vs, n) - QuotesAbove(vs, n, x)
  }

  /** The two middle bids of the scanned venues. */
  ghost predicate BidMiddle(vs: seq<Venue>, a: int, b: int) {
    var q := Quotes(vs, Scanned(vs));
    q > 0 && BidRanked(vs, a, (q - 1) / 2) && BidRanked(vs, b, q / 2)
  }

  lemma BidMiddleMeans(vs: seq<Venue>, a: int, b: int)
    ensures BidMiddle(vs, a, b) <==> Middle(Bids(vs, Scanned(vs)), a, b)
  {
    BidsCounted(vs, Scanned(vs), a);
    BidsCounted(vs, Scanned(vs), b);
  }

  lemma MiddleUnique(s: seq<int>, a: int, b: int, x: int, y: int)
    requires Middle(s, a, b) && Middle(s, x, y)
    ensures x == a && y == b
  {
    RankUnique(s, x, a, (|s| - 1) / 2);
    RankUnique(s, y, b, |s| / 2);
  }

  /** The venue's bid is off the mean of the two middle bids by more than the configured percentage of it. */
  ghost predicate OffMiddle(st: Settings, vs: seq<Venue>, i: nat, a: int, b: int)
    requires i < |vs|
  {
    var off := 2 * vs[i].bestBid - (a + b);
    || 100.0 * off as real > st.maxPriceDeviationPct * (a + b) as real
    || 100.0 * (0 - off) as real > st.maxPriceDeviationPct * (a + b) as real
  }

  /** Excluded by the anomaly filter. */
  ghost predicate Outlier(st: Settings, vs: seq<Venue>, i: nat)
    requires i < Scanned(vs)
  {
    && st.maxPriceDeviationPct > 0.0 && Quotes(vs, Scanned(vs)) >= 2 && vs[i].synced && vs[i].bestBid > 0
    && exists a, b :: BidMiddle(vs, a, b) && OffMiddle(st, vs, i, a, b)
  }

  lemma OffMedian(bid: int, median: real, pct: real, a: int, b: int)
    requires 2.0 * median == (a + b) as real
    ensures Abs(bid as real - median) > median * (pct / 100.0) <==>
            || 100.0 * (2 * bid - (a + b)) as real > pct * (a + b) as real
            || 100.0 * (0 - (2 * bid - (a + b))) as real > pct * (a + b) as real
  {
    var off := (2 * bid - (a + b)) as real;
    assert off == 2.0 * (bid as real - median);
    PercentOf(median, pct);
  }

  lemma PercentOf(median: real, pct: real)
    ensures 200.0 * (median * (pct / 100.0)) == pct * (2.0 * median)
  {
    assert median * (pct / 100.0) == (median * pct) / 100.0;
  }

  /** The middle bids are the ones the median is taken from. */
  lemma MedianOfVenues(vs: seq<Venue>) returns (a: int, b: int)
    requires Quotes(vs, Scanned(vs)) > 0
    ensures |Bids(vs, Scanned(vs))| > 0 && 2.0 * Median(Bids(vs, Scanned(vs))) == (a + b) as real
    ensures forall x, y :: BidMiddle(vs, x, y) <==> x == a && y == b
  {
    var bids := Bids(vs, Scanned(vs));
    BidsCounted(vs, Scanned(vs), 0);
    a, b := MedianIsMiddle(bids);
    forall x, y ensures BidMiddle(vs, x, y) <==> x == a && y == b {
      BidMiddleMeans(vs, x, y);
      if Middle(bids, x, y) {
        MiddleUnique(bids, a, b, x, y);
      }
    }
  }

  lemma AnomalousMeans(st: Settings, vs: seq<Venue>, i: nat)
    requires i < Scanned(vs)
    ensures Anomalous(st, vs, i) <==> Outlier(st, vs, i)
  {
    BidsCounted(vs, Scanned(vs), 0);
    if Quotes(vs, Scanned(vs)) >= 2 {
      var a, b := MedianOfVenues(vs);
      OutlierAt(st, vs, i, a, b);
      AnomalousAt(st, vs, i, a, b);
    }
  }

  lemma OutlierAt(st: Settings, vs: seq<Venue>, i: nat, a: int, b: int)
    requires i < Scanned(vs) && Quotes(vs, Scanned(vs)) >= 2 && forall x, y :: BidMiddle(vs, x, y) <==> x == a && y == b
    ensures Outlier(st, vs, i) <==>
            st.maxPriceDeviationPct > 0.0 && vs[i].synced && vs[i].bestBid > 0 && OffMiddle(st, vs, i, a, b)
  {
    assert BidMiddle(vs, a, b);
  }

  lemma AnomalousAt(st: Settings, vs: seq<Venue>, i: nat, a: int, b: int)
    requires i < Scanned(vs) && |Bids(vs, Scanned(vs))| >= 2 && 2.0 * Median(Bids(vs, Scanned(vs))) == (a + b) as real
    ensures Anomalous(st, vs, i) <==>
            st.maxPriceDeviationPct > 0.0 && vs[i].synced && vs[i].bestBid > 0 && OffMiddle(st, vs, i, a, b)
  {
    StraysMeans(st, vs, i, Median(Bids(vs, Scanned(vs))), a, b);
  }

  ghost predicate Strays(st: Settings, bid: int, median: real) {
    Abs(bid as real - median) > Threshold(st, median)
  }

  lemma StraysMeans(st: Settings, vs: seq<Venue>, i: nat, median: real, a: int, b: int)
    requires i < |vs| && 2.0 * median == (a + b) as real
    ensures Strays(st, vs[i].bestBid, median) <==> OffMiddle(st, vs, i, a, b)
  {
    OffMedian(vs[i].bestBid, median, st.maxPriceDeviationPct, a, b);
  }

  // ---- one pair ----

  /** The venue's taker fee; venues without an entry are free. */
  function TakerBps(st: Settings, v: Venue): real {
    if v.name in st.feeBps then st.feeBps[v.name] else 0.0
  }

  /** Neither book is too old, nor are they too far apart. */
  ghost predicate Timely(st: Settings, sell: Venue, buy: Venue, now: int) {
    st.maxAgeDiffNs <= 0
    || (now <= sell.tsBookNs + st.maxAgeDiffNs && now <= buy.tsBookNs + st.maxAgeDiffNs
        && sell.tsBookNs <= buy.tsBookNs + st.maxAgeDiffNs && buy.tsBookNs <= sell.tsBookNs + st.maxAgeDiffNs)
  }

  /** Spread against the mid, without the division: at least the minimum plus both fees, at most the cap. */
  ghost predicate Worthwhile(st: Settings, sell: Venue, buy: Venue) {
    var gap, mid2: real := (sell.bestBid - buy.bestAsk) as real, (sell.bestBid + buy.bestAsk) as real;
    && 20000.0 * gap >= (st.minSpreadBps + TakerBps(st, sell) + TakerBps(st, buy)) * mid2
    && (st.maxSpreadBps > 0.0 ==> 20000.0 * gap <= st.maxSpreadBps * mid2)
  }

  ghost predicate Qualifies(st: Settings, vs: seq<Venue>, now: int, si: nat, bi: nat)
    requires si < Scanned(vs) && bi < Scanned(vs)
  {
    var sell, buy := vs[si], vs[bi];
    && si != bi && sell.synced && buy.synced && !Outlier(st, vs, si) && !Outlier(st, vs, bi)
    && sell.bestBid != 0 && buy.bestAsk != 0 && buy.bestAsk < sell.bestBid && 0 < sell.bestBid + buy.bestAsk
    && Timely(st, sell, buy, now) && Worthwhile(st, sell, buy)
  }

  lemma Times(a: real, b: real, c: real)
    requires c > 0.0
    ensures a <= b <==> a * c <= b * c
  {
    assert (b - a) * c == b * c - a * c;
    if a <= b {
      assert (b - a) * c >= 0.0;
    } else {
      assert (a - b) * c > 0.0;
      assert (a - b) * c == a * c - b * c;
    }
  }

  /** The spread in basis points times twice the mid is 20000 times the price difference. */
  lemma SpreadTimesMid(sell: Venue, buy: Venue)
    requires sell.bestBid + buy.bestAsk > 0
    ensures SpreadBps(sell, buy) * (sell.bestBid + buy.bestAsk) as real == 20000.0 * (sell.bestBid - buy.bestAsk) as real
  {
    SpreadProduct((sell.bestBid - buy.bestAsk) as real, (sell.bestBid + buy.bestAsk) as real);
  }

  lemma SpreadProduct(gap: real, mid2: real)
    requires mid2 > 0.0
    ensures ((gap / (mid2 * 0.5)) * 10000.0) * mid2 == 20000.0 * gap
  {
    var half := mid2 * 0.5;
    var q := gap / half;
    assert q * half == gap;
    assert q * mid2 == 2.0 * (q * half);
    assert (q * 10000.0) * mid2 == 10000.0 * (q * mid2);
  }

  lemma SpreadTests(st: Settings, sell: Venue, buy: Venue)
    requires sell.bestBid + buy.bestAsk > 0
    ensures NetSpreadBps(st, sell, buy) >= st.minSpreadBps && !(st.maxSpreadBps > 0.0 && SpreadBps(sell, buy) > st.maxSpreadBps)
            <==> Worthwhile(st, sell, buy)
  {
    var spread, gap, mid2 := SpreadBps(sell, buy), (sell.bestBid - buy.bestAsk) as real, (sell.bestBid + buy.bestAsk) as real;
    SpreadTimesMid(sell, buy);
    NetTest(spread, st.minSpreadBps, TakerBps(st, sell), TakerBps(st, buy), gap, mid2);
    CapTest(spread, st.maxSpreadBps, gap, mid2);
  }

  lemma NetTest(spread: real, min: real, f: real, g: real, gap: real, mid2: real)
    requires mid2 > 0.0 && spread * mid2 == 20000.0 * gap
    ensures spread - f - g >= min <==> 20000.0 * gap >= (min + f + g) * mid2
  {
    Times(min + f + g, spread, mid2);
  }

  lemma CapTest(spread: real, cap: real, gap: real, mid2: real)
    requires mid2 > 0.0 && spread * mid2 == 20000.0 * gap
    ensures spread <= cap <==> 20000.0 * gap <= cap * mid2
  {
    Times(spread, cap, mid2);
  }

  /** The guards of the scan, in plain numbers. */
  lemma EligibleMeans(st: Settings, vs: seq<Venue>, now: int, si: nat, bi: nat)
    requires si < Scanned(vs) && bi < Scanned(vs)
    ensures Eligible(st, vs, now, si, bi) <==> Qualifies(st, vs, now, si, bi)
  {
    AnomalousMeans(st, vs, si);
    AnomalousMeans(st, vs, bi);
    if vs[si].bestBid + vs[bi].bestAsk > 0 {
      SpreadTests(st, vs[si], vs[bi]);
    }
  }

  /** What a returned cross says about its two venues, field by field. */
  ghost predicate Reports(st: Settings, sell: Venue, buy: Venue, now: int, c: Cross) {
    && c.sellVenue == sell.name && c.sellBidTick == sell.bestBid && c.sellTsBookNs == sell.tsBookNs
    && c.buyVenue == buy.name && c.buyAskTick == buy.bestAsk && c.buyTsBookNs == buy.tsBookNs
    && c.tsDetectedNs == now
    && c.spreadBps * (sell.bestBid + buy.bestAsk) as real == 20000.0 * (sell.bestBid - buy.bestAsk) as real
    && c.spreadBps - c.netSpreadBps == TakerBps(st, sell) + TakerBps(st, buy)
  }

  lemma CrossReports(st: Settings, vs: seq<Venue>, now: int, si: nat, bi: nat)
    requires si < Scanned(vs) && bi < Scanned(vs) && Eligible(st, vs, now, si, bi)
    ensures Reports(st, vs[si], vs[bi], now, CrossOf(st, vs, now, si, bi))
  {
    SpreadTimesMid(vs[si], vs[bi]);
  }
}
