/** What the scan guarantees: exactness, acyclic crosses, a robust median filter, spacing, standby. */
module DetectorLaws {
  import opened SetFacts
  import opened RateLimits
  import opened Detector
  import opened DetectorMeaning

  // ---- exactness ----

  datatype Pair = Pair(sell: nat, buy: nat)

  /** Lexicographic order on (sell, buy). */
  predicate Less(p: Pair, q: Pair) {
    p.sell < q.sell || (p.sell == q.sell && p.buy < q.buy)
  }

  predicate InRange(vs: seq<Venue>, p: Pair) {
    p.sell < 16 && p.sell < |vs| && p.buy < 16 && p.buy < |vs|
  }

  ghost predicate Passes(st: Settings, vs: seq<Venue>, now: int, p: Pair) {
    InRange(vs, p) && Qualifies(st, vs, now, p.sell, p.buy)
  }

  ghost predicate Ordered(pairs: seq<Pair>, end: Pair) {
    && (forall i, j :: 0 <= i < j < |pairs| ==> Less(pairs[i], pairs[j]))
    && (forall i :: 0 <= i < |pairs| ==> Less(pairs[i], end))
  }

  /** `pairs` holds exactly the members of `ok` before `end`, in order. */
  ghost predicate Enumerates(ok: iset<Pair>, pairs: seq<Pair>, end: Pair) {
    && Ordered(pairs, end)
    && (forall p :: p in pairs <==> p in ok && Less(p, end))
  }

  function Key(vs: seq<Venue>, p: Pair): string
    requires InRange(vs, p)
  {
    PairKey(vs[p.sell].name, vs[p.buy].name)
  }

  /** No earlier pair that passes the guards has this key (venue names repeat across symbols). */
  ghost predicate FirstOfKey(st: Settings, vs: seq<Venue>, now: int, p: Pair)
    requires InRange(vs, p)
  {
    forall q :: Passes(st, vs, now, q) && Less(q, p) ==> Key(vs, q) != Key(vs, p)
  }

  /** The pairs a scan returns: every guard passed, and under a rate limit a key that is old enough and new to this scan. */
  ghost predicate Returns(st: Settings, vs: seq<Venue>, now: int, last: map<string, int>, p: Pair) {
    && Passes(st, vs, now, p)
    && (st.rateLimitNs > 0 ==> (Key(vs, p) in last ==> last[Key(vs, p)] + st.rateLimitNs <= now) && FirstOfKey(st, vs, now, p))
  }

  ghost function Returning(st: Settings, vs: seq<Venue>, now: int, last: map<string, int>): iset<Pair> {
    iset p: Pair | Returns(st, vs, now, last, p)
  }

  ghost predicate CrossesOf(st: Settings, vs: seq<Venue>, now: int, pairs: seq<Pair>, result: seq<Cross>) {
    && |pairs| == |result|
    && (forall i :: 0 <= i < |pairs| ==>
          Passes(st, vs, now, pairs[i]) && Reports(st, vs[pairs[i].sell], vs[pairs[i].buy], now, result[i]))
  }

  /** `pairs` lists, in order, exactly the returned pairs before `end`, and `result` their crosses. */
  ghost predicate Lists(st: Settings, vs: seq<Venue>, now: int, last: map<string, int>, pairs: seq<Pair>, result: seq<Cross>,
                        end: Pair) {
    Enumerates(Returning(st, vs, now, last), pairs, end) && CrossesOf(st, vs, now, pairs, result)
  }

  ghost predicate Emitted(vs: seq<Venue>, pairs: seq<Pair>, key: string) {
    exists p :: p in pairs && InRange(vs, p) && Key(vs, p) == key
  }

  /** What the limiter remembers mid-scan: a key is open if it was at the start and nothing was emitted for it since. */
  ghost predicate Limits(st: Settings, vs: seq<Venue>, now: int, last: map<string, int>, pairs: seq<Pair>, memory: map<string, int>) {
    st.rateLimitNs > 0 ==>
      forall key :: Allows(st.rateLimitNs, memory, key, now) <==>
                    Allows(st.rateLimitNs, last, key, now) && !Emitted(vs, pairs, key)
  }

  ghost predicate ScanInv(st: Settings, vs: seq<Venue>, now: int, last: map<string, int>, pairs: seq<Pair>, sc: Scan, end: Pair) {
    Lists(st, vs, now, last, pairs, sc.result, end) && Limits(st, vs, now, last, pairs, sc.last)
  }

  lemma EnumeratesNext(ok: iset<Pair>, pairs: seq<Pair>, si: nat, bi: nat)
    requires Enumerates(ok, pairs, Pair(si, bi))
    ensures Enumerates(ok, if Pair(si, bi) in ok then pairs + [Pair(si, bi)] else pairs, Pair(si, bi + 1))
  {
    forall p: Pair ensures Less(p, Pair(si, bi + 1)) <==> p == Pair(si, bi) || Less(p, Pair(si, bi)) {
      assert p == Pair(p.sell, p.buy);
    }
  }

  lemma EnumeratesRow(ok: iset<Pair>, pairs: seq<Pair>, si: nat, n: nat)
    requires Enumerates(ok, pairs, Pair(si, n)) && forall p :: p in ok ==> p.buy < n
    ensures Enumerates(ok, pairs, Pair(si + 1, 0))
  {
    assert forall p :: p in ok && Less(p, Pair(si + 1, 0)) ==> Less(p, Pair(si, n));
  }

  /** A passing pair with an open key has a returned pair of that key at or before it. */
  lemma FirstReturned(st: Settings, vs: seq<Venue>, now: int, last: map<string, int>, q: Pair) returns (f: Pair)
    requires Passes(st, vs, now, q) && Allows(st.rateLimitNs, last, Key(vs, q), now)
    ensures Returns(st, vs, now, last, f) && Key(vs, f) == Key(vs, q) && (f == q || Less(f, q))
    decreases q.sell, q.buy
  {
    if FirstOfKey(st, vs, now, q) {
      f := q;
    } else {
      var r :| Passes(st, vs, now, r) && Less(r, q) && Key(vs, r) == Key(vs, q);
      f := FirstReturned(st, vs, now, last, r);
    }
  }

  /** At each pair, the limiter's answer is the specification's. */
  lemma LimiterAgrees(st: Settings, vs: seq<Venue>, now: int, last: map<string, int>, pairs: seq<Pair>, memory: map<string, int>, here: Pair)
    requires InRange(vs, here) && Enumerates(Returning(st, vs, now, last), pairs, here)
    requires Limits(st, vs, now, last, pairs, memory) && Passes(st, vs, now, here)
    ensures Allows(st.rateLimitNs, memory, Key(vs, here), now) <==> here in Returning(st, vs, now, last)
  {
    if st.rateLimitNs > 0 && Allows(st.rateLimitNs, last, Key(vs, here), now) {
      if Emitted(vs, pairs, Key(vs, here)) {
        var p :| p in pairs && InRange(vs, p) && Key(vs, p) == Key(vs, here);
        assert Returns(st, vs, now, last, p) && Less(p, here);
      }
      if !FirstOfKey(st, vs, now, here) {
        var q :| Passes(st, vs, now, q) && Less(q, here) && Key(vs, q) == Key(vs, here);
        var f := FirstReturned(st, vs, now, last, q);
        assert f in Returning(st, vs, now, last) && Less(f, here);
        assert f in pairs;
      }
    }
  }

  lemma LimitsNext(st: Settings, vs: seq<Venue>, now: int, last: map<string, int>, pairs: seq<Pair>, memory: map<string, int>, here: Pair)
    requires InRange(vs, here) && Limits(st, vs, now, last, pairs, memory)
    ensures Limits(st, vs, now, last, pairs + [here], Record(st.rateLimitNs, memory, Key(vs, here), now))
  {
    if st.rateLimitNs > 0 {
      var m := Record(st.rateLimitNs, memory, Key(vs, here), now);
      forall key ensures Allows(st.rateLimitNs, m, key, now) <==>
                         Allows(st.rateLimitNs, last, key, now) && !Emitted(vs, pairs + [here], key)
      {
        assert Emitted(vs, pairs + [here], key) <==> Emitted(vs, pairs, key) || key == Key(vs, here) by {
          assert here in pairs + [here];
          assert forall p :: p in pairs ==> p in pairs + [here];
        }
      }
    }
  }

  lemma VisitExact(st: Settings, vs: seq<Venue>, now: int, active: nat -> bool, last: map<string, int>, sc: Scan,
                   si: nat, bi: nat, before: seq<Pair>) returns (pairs: seq<Pair>)
    requires si < Scanned(vs) && bi < Scanned(vs) && ScanInv(st, vs, now, last, before, sc, Pair(si, bi))
    ensures ScanInv(st, vs, now, last, pairs, Visit(st, vs, now, active, sc, si, bi), Pair(si, bi + 1))
  {
    var here := Pair(si, bi);
    EnumeratesNext(Returning(st, vs, now, last), before, si, bi);
    EligibleMeans(st, vs, now, si, bi);
    if Eligible(st, vs, now, si, bi) {
      CrossReports(st, vs, now, si, bi);
      LimiterAgrees(st, vs, now, last, before, sc.last, here);
    }
    if here in Returning(st, vs, now, last) {
      LimitsNext(st, vs, now, last, before, sc.last, here);
      pairs := before + [here];
    } else {
      pairs := before;
    }
  }

  lemma {:induction false} RowExact(st: Settings, vs: seq<Venue>, now: int, active: nat -> bool, last: map<string, int>, sc: Scan,
                                    si: nat, bi: nat, before: seq<Pair>) returns (pairs: seq<Pair>)
    requires si < Scanned(vs) && bi <= Scanned(vs) && ScanInv(st, vs, now, last, before, sc, Pair(si, 0))
    ensures ScanInv(st, vs, now, last, pairs, Row(st, vs, now, active, sc, si, bi), Pair(si, bi))
    decreases bi
  {
    if bi == 0 {
      pairs := before;
    } else {
      pairs := RowExact(st, vs, now, active, last, sc, si, bi - 1, before);
      pairs := VisitExact(st, vs, now, active, last, Row(st, vs, now, active, sc, si, bi - 1), si, bi - 1, pairs);
    }
  }

  /**
   The scan returns, in lexicographic order of (seller, buyer), the crosses of precisely the
   pairs among the first 16 venues that qualify and, under a rate limit, whose key was old enough
   when the scan began and has no earlier qualifying pair in it.
   */
  lemma {:induction false} RowsExact(st: Settings, vs: seq<Venue>, now: int, active: nat -> bool, last: map<string, int>,
                                     seen: seq<Cross>, si: nat) returns (pairs: seq<Pair>)
    requires si <= Scanned(vs)
    ensures ScanInv(st, vs, now, last, pairs, Rows(st, vs, now, active, Scan(last, [], seen), si), Pair(si, 0))
    decreases si
  {
    if si == 0 {
      pairs := [];
    } else {
      var before := RowsExact(st, vs, now, active, last, seen, si - 1);
      var sc := Rows(st, vs, now, active, Scan(last, [], seen), si - 1);
      pairs := RowExact(st, vs, now, active, last, sc, si - 1, Scanned(vs), before);
      EnumeratesRow(Returning(st, vs, now, last), pairs, si - 1, Scanned(vs));
    }
  }

  // ---- acyclic crosses ----

  /** No scanned book quotes its own bid at or above its own ask. */
  ghost predicate BooksUncrossed(vs: seq<Venue>) {
    forall i :: 0 <= i < Scanned(vs) && vs[i].bestBid != 0 && vs[i].bestAsk != 0 ==> vs[i].bestBid < vs[i].bestAsk
  }

  ghost predicate Path(st: Settings, vs: seq<Venue>, now: int, p: seq<nat>) {
    && (forall k :: 0 <= k < |p| ==> p[k] < Scanned(vs))
    && (forall k :: 0 <= k < |p| - 1 ==> Qualifies(st, vs, now, p[k], p[k + 1]))
  }

  lemma {:induction false} PathDescends(st: Settings, vs: seq<Venue>, now: int, p: seq<nat>, k: nat)
    requires BooksUncrossed(vs) && Path(st, vs, now, p) && 1 <= k < |p|
    ensures vs[p[0]].bestBid > vs[p[k]].bestAsk && vs[p[k]].bestAsk != 0
  {
    assert Qualifies(st, vs, now, p[k - 1], p[k - 1 + 1]);
    if k > 1 {
      PathDescends(st, vs, now, p, k - 1);
    }
  }

  /** Selling into one venue and buying from the next never leads back to the start. */
  lemma CrossesAcyclic(st: Settings, vs: seq<Venue>, now: int, p: seq<nat>)
    requires BooksUncrossed(vs) && Path(st, vs, now, p) && |p| >= 2
    ensures p[0] != p[|p| - 1]
  {
    PathDescends(st, vs, now, p, |p| - 1);
    assert Qualifies(st, vs, now, p[0], p[0 + 1]);
  }

  // ---- how many ----

  /** Ordered pairs of distinct venues below `n`. */
  ghost function OffDiagonal(n: nat): set<Pair> {
    if n == 0 then {} else OffDiagonal(n - 1) + Below(n - 1, n - 1)
  }

  /** The pairs that join `m` with a venue below `k`, both ways. */
  ghost function Below(m: nat, k: nat): set<Pair> {
    if k == 0 then {} else Below(m, k - 1) + {Pair(m, k - 1), Pair(k - 1, m)}
  }

  lemma {:induction false} BelowMembers(m: nat, k: nat, p: Pair)
    ensures p in Below(m, k) <==> (p.sell == m && p.buy < k) || (p.buy == m && p.sell < k)
    decreases k
  {
    if k != 0 {
      BelowMembers(m, k - 1, p);
      assert p == Pair(p.sell, p.buy);
    }
  }

  lemma {:induction false} BelowSize(m: nat, k: nat)
    requires k <= m
    ensures |Below(m, k)| == 2 * k
    decreases k
  {
    if k != 0 {
      BelowSize(m, k - 1);
      BelowMembers(m, k - 1, Pair(m, k - 1));
      BelowMembers(m, k - 1, Pair(k - 1, m));
      TwoMore(Below(m, k - 1), Pair(m, k - 1), Pair(k - 1, m));
    }
  }

  lemma TwoMore(s: set<Pair>, p: Pair, q: Pair)
    requires p !in s && q !in s && p != q
    ensures |s + {p, q}| == |s| + 2
  {
    var a := s + {p};
    assert s + {p, q} == a + {q};
  }

  lemma {:induction false} OffDiagonalMembers(n: nat, p: Pair)
    ensures p in OffDiagonal(n) <==> p.sell < n && p.buy < n && p.sell != p.buy
  {
    if n != 0 {
      OffDiagonalMembers(n - 1, p);
      BelowMembers(n - 1, n - 1, p);
    }
  }

  lemma {:induction false} OffDiagonalSize(n: nat)
    ensures |OffDiagonal(n)| == n * n - n
  {
    if n != 0 {
      var m := n - 1;
      OffDiagonalSize(m);
      BelowSize(m, m);
      forall p | p in Below(m, m) ensures p !in OffDiagonal(m) {
        BelowMembers(m, m, p);
        OffDiagonalMembers(m, p);
      }
      assert |OffDiagonal(n)| == |OffDiagonal(m)| + |Below(m, m)|;
      SquareStep(m);
    }
  }

  lemma SquareStep(m: nat)
    ensures (m + 1) * (m + 1) == m * m + 2 * m + 1
  {
  }

  function Flip(p: Pair): Pair {
    Pair(p.buy, p.sell)
  }

  lemma {:induction false} FlippedSize(ps: seq<Pair>) returns (straight: set<Pair>, flipped: set<Pair>)
    requires forall i, j :: 0 <= i < j < |ps| ==> ps[i] != ps[j]
    ensures |straight| == |ps| && forall p :: p in straight <==> p in ps
    ensures |flipped| == |ps| && forall p :: p in flipped <==> Flip(p) in ps
    decreases |ps|
  {
    if ps == [] {
      straight, flipped := {}, {};
    } else {
      var n := |ps| - 1;
      var s, f := FlippedSize(ps[..n]);
      assert ps == ps[..n] + [ps[n]];
      assert ps[n] !in ps[..n];
      straight, flipped := s + {ps[n]}, f + {Flip(ps[n])};
      assert Flip(Flip(ps[n])) == ps[n];
      assert forall p :: Flip(p) == ps[n] <==> p == Flip(ps[n]);
    }
  }

  /** At most one direction per pair of venues, hence at most n(n-1)/2 crosses in one scan. */
  lemma CrossesBounded(st: Settings, vs: seq<Venue>, now: int, active: nat -> bool, last: map<string, int>, seen: seq<Cross>)
    requires BooksUncrossed(vs)
    ensures var n, r := Scanned(vs), ScanAll(st, vs, now, active, last, seen).result; 2 * |r| <= n * n - n
    ensures forall i, j :: 0 <= i < Scanned(vs) && 0 <= j < Scanned(vs) && Qualifies(st, vs, now, i, j) ==> !Qualifies(st, vs, now, j, i)
  {
    var n := Scanned(vs);
    forall i, j | 0 <= i < n && 0 <= j < n && Qualifies(st, vs, now, i, j) ensures !Qualifies(st, vs, now, j, i) {
    }
    var pairs := RowsExact(st, vs, now, active, last, seen, n);
    var s, f := FlippedSize(pairs);
    OffDiagonalSize(n);
    forall p | p in s || p in f ensures p in OffDiagonal(n) && !(p in s && p in f) {
      OffDiagonalMembers(n, p);
      assert Flip(Flip(p)) == p;
    }
    SubsetSize(s + f, OffDiagonal(n));
  }

  // ---- the median filter ----

  /** The median of a list whose strict majority lies in [lo, hi] lies there too, for odd and even lengths. */
  lemma MedianInMajority(bids: seq<int>, lo: int, hi: int)
    requires |bids| > 0 && lo <= hi && 2 * CountIn(bids, lo, hi) > |bids|
    ensures lo as real <= Median(bids) <= hi as real
  {
    var s, m := SortInts(bids), |bids| / 2;
    CountSplit(bids, lo, hi);
    SortCounts(bids, lo, hi);
    SortAscending(bids);
    NotBelow(s, lo, m);
    NotAbove(s, hi, m);
    if |bids| % 2 == 0 {
      NotBelow(s, lo, m - 1);
      NotAbove(s, hi, m - 1);
    }
  }

  /**
   If a strict majority of the positive bids lies in a band no wider than the configured
   percentage of its lower edge, no venue of that band is flagged, whatever the others report.
   */
  lemma MajorityNeverFlagged(st: Settings, vs: seq<Venue>, lo: int, hi: int, i: nat)
    requires i < Scanned(vs) && lo <= vs[i].bestBid <= hi
    requires var bids := Bids(vs, Scanned(vs)); 2 * CountIn(bids, lo, hi) > |bids|
    requires hi as real - lo as real <= Threshold(st, lo as real)
    ensures !Anomalous(st, vs, i)
  {
    var bids := Bids(vs, Scanned(vs));
    if st.maxPriceDeviationPct > 0.0 && |bids| >= 2 {
      MedianInMajority(bids, lo, hi);
      WithinBand(st, vs[i].bestBid as real, Median(bids), lo as real, hi as real);
    }
  }

  lemma WithinBand(st: Settings, bid: real, median: real, lo: real, hi: real)
    requires lo <= bid <= hi && lo <= median <= hi && st.maxPriceDeviationPct > 0.0 && hi - lo <= Threshold(st, lo)
    ensures Abs(bid - median) <= Threshold(st, median)
  {
    var f := st.maxPriceDeviationPct / 100.0;
    assert lo * f <= median * f;
  }

  // ---- spacing and standby over whole runs ----

  /** One call of the scan: the venues, the clock reading, the standby flag at each emission. */
  datatype Call = Call(vs: seq<Venue>, now: int, active: nat -> bool)

  /** Limiter memory, all crosses returned so far, all crosses the callback saw. */
  datatype Run = Run(last: map<string, int>, returned: seq<Cross>, seen: seq<Cross>)

  function RunScans(st: Settings, calls: seq<Call>, n: nat): Run
    requires n <= |calls|
  {
    if n == 0 then Run(map[], [], [])
    else
      var r, c := RunScans(st, calls, n - 1), calls[n - 1];
      var sc := ScanAll(st, c.vs, c.now, c.active, r.last, r.seen);
      Run(sc.last, r.returned + sc.result, sc.seen)
  }

  function Passed(cs: seq<Cross>): seq<Pass> {
    seq(|cs|, i requires 0 <= i < |cs| => Pass(PairKey(cs[i].sellVenue, cs[i].buyVenue), cs[i].tsDetectedNs))
  }

  lemma VisitSpaced(st: Settings, vs: seq<Venue>, now: int, active: nat -> bool, sc: Scan, si: nat, bi: nat, prior: seq<Cross>)
    requires si < Scanned(vs) && bi < Scanned(vs) && LimiterInv(st.rateLimitNs, sc.last, Passed(prior + sc.result))
    ensures var v := Visit(st, vs, now, active, sc, si, bi); LimiterInv(st.rateLimitNs, v.last, Passed(prior + v.result))
  {
    var key := PairKey(vs[si].name, vs[bi].name);
    if Eligible(st, vs, now, si, bi) && Allows(st.rateLimitNs, sc.last, key, now) {
      PassKeepsSpacing(st.rateLimitNs, sc.last, Passed(prior + sc.result), key, now);
      var c := CrossOf(st, vs, now, si, bi);
      assert prior + (sc.result + [c]) == prior + sc.result + [c];
      assert Passed(prior + sc.result + [c]) == Passed(prior + sc.result) + [Pass(key, now)];
    }
  }

  lemma {:induction false} RowSpaced(st: Settings, vs: seq<Venue>, now: int, active: nat -> bool, sc: Scan, si: nat, bi: nat, prior: seq<Cross>)
    requires si < Scanned(vs) && bi <= Scanned(vs) && LimiterInv(st.rateLimitNs, sc.last, Passed(prior + sc.result))
    ensures var v := Row(st, vs, now, active, sc, si, bi); LimiterInv(st.rateLimitNs, v.last, Passed(prior + v.result))
  {
    if bi != 0 {
      RowSpaced(st, vs, now, active, sc, si, bi - 1, prior);
      VisitSpaced(st, vs, now, active, Row(st, vs, now, active, sc, si, bi - 1), si, bi - 1, prior);
    }
  }

  lemma {:induction false} RowsSpaced(st: Settings, vs: seq<Venue>, now: int, active: nat -> bool, sc: Scan, si: nat, prior: seq<Cross>)
    requires si <= Scanned(vs) && LimiterInv(st.rateLimitNs, sc.last, Passed(prior + sc.result))
    ensures var v := Rows(st, vs, now, active, sc, si); LimiterInv(st.rateLimitNs, v.last, Passed(prior + v.result))
  {
    if si != 0 {
      RowsSpaced(st, vs, now, active, sc, si - 1, prior);
      RowSpaced(st, vs, now, active, Rows(st, vs, now, active, sc, si - 1), si - 1, Scanned(vs), prior);
    }
  }

  /** For any clock, even one that steps back: returned crosses of one pair are at least the limit apart. */
  lemma {:induction false} CrossesSpaced(st: Settings, calls: seq<Call>, n: nat)
    requires n <= |calls|
    ensures var r := RunScans(st, calls, n);
            LimiterInv(st.rateLimitNs, r.last, Passed(r.returned))
            && (st.rateLimitNs > 0 ==> Spaced(st.rateLimitNs, Passed(r.returned)))
  {
    if n != 0 {
      CrossesSpaced(st, calls, n - 1);
      var r, c := RunScans(st, calls, n - 1), calls[n - 1];
      assert r.returned + [] == r.returned;
      RowsSpaced(st, c.vs, c.now, c.active, Scan(r.last, [], r.seen), Scanned(c.vs), r.returned);
    }
  }

  /** The crosses of a scan whose emission found the detector active. */
  function ActiveOnes(cs: seq<Cross>, active: nat -> bool): seq<Cross> {
    if cs == [] then []
    else
      var n := |cs| - 1;
      ActiveOnes(cs[..n], active) + if active(n) then [cs[n]] else []
  }

  /** A scan under one standby schedule against the same scan under another. */
  ghost predicate SameReturned(sc: Scan, sd: Scan, active: nat -> bool, before: seq<Cross>) {
    sc.last == sd.last && sc.result == sd.result && sc.seen == before + ActiveOnes(sc.result, active)
  }

  lemma VisitStandby(st: Settings, vs: seq<Venue>, now: int, a: nat -> bool, b: nat -> bool, sc: Scan, sd: Scan,
                     si: nat, bi: nat, before: seq<Cross>)
    requires si < Scanned(vs) && bi < Scanned(vs) && SameReturned(sc, sd, a, before)
    ensures SameReturned(Visit(st, vs, now, a, sc, si, bi), Visit(st, vs, now, b, sd, si, bi), a, before)
  {
    var v := Visit(st, vs, now, a, sc, si, bi);
    assert |v.result| > |sc.result| ==> v.result[..|v.result| - 1] == sc.result;
  }

  lemma {:induction false} RowStandby(st: Settings, vs: seq<Venue>, now: int, a: nat -> bool, b: nat -> bool, sc: Scan, sd: Scan,
                                      si: nat, bi: nat, before: seq<Cross>)
    requires si < Scanned(vs) && bi <= Scanned(vs) && SameReturned(sc, sd, a, before)
    ensures SameReturned(Row(st, vs, now, a, sc, si, bi), Row(st, vs, now, b, sd, si, bi), a, before)
  {
    if bi != 0 {
      RowStandby(st, vs, now, a, b, sc, sd, si, bi - 1, before);
      VisitStandby(st, vs, now, a, b, Row(st, vs, now, a, sc, si, bi - 1), Row(st, vs, now, b, sd, si, bi - 1), si, bi - 1, before);
    }
  }

  lemma {:induction false} RowsStandby(st: Settings, vs: seq<Venue>, now: int, a: nat -> bool, b: nat -> bool, sc: Scan, sd: Scan,
                                       si: nat, before: seq<Cross>)
    requires si <= Scanned(vs) && SameReturned(sc, sd, a, before)
    ensures SameReturned(Rows(st, vs, now, a, sc, si), Rows(st, vs, now, b, sd, si), a, before)
  {
    if si != 0 {
      RowsStandby(st, vs, now, a, b, sc, sd, si - 1, before);
      RowStandby(st, vs, now, a, b, Rows(st, vs, now, a, sc, si - 1), Rows(st, vs, now, b, sd, si - 1), si - 1, Scanned(vs), before);
    }
  }

  ghost predicate SameCalls(calls: seq<Call>, other: seq<Call>) {
    |calls| == |other| && forall i :: 0 <= i < |calls| ==> calls[i].vs == other[i].vs && calls[i].now == other[i].now
  }

  /** The crosses returned by the first `n` scans whose emission found the detector active. */
  function ActiveReturned(st: Settings, calls: seq<Call>, n: nat): seq<Cross>
    requires n <= |calls|
  {
    if n == 0 then []
    else
      var r, c := RunScans(st, calls, n - 1), calls[n - 1];
      ActiveReturned(st, calls, n - 1) + ActiveOnes(ScanAll(st, c.vs, c.now, c.active, r.last, r.seen).result, c.active)
  }

  /**
   Toggling standby at any moments never changes what the scans return or remember, and the
   callback sees exactly the returned crosses that fall in active moments.
   */
  lemma {:induction false} StandbyOnlySilences(st: Settings, calls: seq<Call>, other: seq<Call>, n: nat)
    requires SameCalls(calls, other) && n <= |calls|
    ensures var r, q := RunScans(st, calls, n), RunScans(st, other, n);
            && r.returned == q.returned && r.last == q.last
            && r.seen == ActiveReturned(st, calls, n)
  {
    if n != 0 {
      StandbyOnlySilences(st, calls, other, n - 1);
      var r, q, c := RunScans(st, calls, n - 1), RunScans(st, other, n - 1), calls[n - 1];
      RowsStandby(st, c.vs, c.now, c.active, other[n - 1].active, Scan(r.last, [], r.seen), Scan(q.last, [], q.seen),
                  Scanned(c.vs), r.seen);
    }
  }
}
