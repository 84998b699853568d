/**
 The depth-bounded book against an unlimited book fed the same updates, and both
 against the plain map from tick to lot that the updates describe.
 */
module BoundedBook {
  import opened OrderBooks

  /** The book that keeps everything: each of the first `n` updates finds room. */
  function Unlimited(s: Side, ls: seq<Level>, n: nat): seq<Level>
    requires n <= |ls|
  {
    if n == 0 then []
    else
      var u := Unlimited(s, ls, n - 1);
      UpdateSide(s, u, |u| + 1, ls[n - 1])
  }

  /** An absolute level write on a map from tick to lot; lot 0 deletes. */
  function Write(m: map<int, int>, l: Level): map<int, int> {
    if l.IsEmpty() then m - {l.priceTick} else m[l.priceTick := l.quantityLot]
  }

  function WriteFirst(m: map<int, int>, ls: seq<Level>, n: nat): map<int, int>
    requires n <= |ls|
  {
    if n == 0 then m else Write(WriteFirst(m, ls, n - 1), ls[n - 1])
  }

  /** Every level of `v` is in `m`: no phantom level. */
  ghost predicate SubMap(v: seq<Level>, m: map<int, int>) {
    forall l :: l in v ==> l.priceTick in m && m[l.priceTick] == l.quantityLot
  }

  /** Every entry of `m` is a level of `v`: nothing missing. */
  ghost predicate Covers(v: seq<Level>, m: map<int, int>) {
    forall t :: t in m ==> Level(t, m[t]) in v
  }

  ghost predicate Means(v: seq<Level>, m: map<int, int>) {
    SubMap(v, m) && Covers(v, m)
  }

  /** Removals that took a level out of the bounded book while it was already hiding some level. */
  function LossyRemovals(s: Side, depth: nat, ls: seq<Level>, n: nat): nat
    requires n <= |ls|
  {
    if n == 0 then 0
    else LossyRemovals(s, depth, ls, n - 1) +
         Loss(UpdateFirst(s, [], depth, ls, n - 1), Unlimited(s, ls, n - 1), ls[n - 1])
  }

  function Loss(v: seq<Level>, u: seq<Level>, l: Level): nat {
    if l.IsEmpty() && HasTick(v, l.priceTick) && |v| < |u| then 1 else 0
  }

  /** One update on a bounded book that is a sub-map keeps it one. */
  lemma UpdateKeepsSubMap(s: Side, v: seq<Level>, depth: nat, l: Level, m: map<int, int>)
    requires ValidSide(s, v, depth) && SubMap(v, m)
    ensures SubMap(UpdateSide(s, v, depth, l), Write(m, l))
  {
    UpdateSideContents(s, v, depth, l);
  }

  /** With room for the level, one update keeps the book exact. */
  lemma UpdateKeepsMeaning(s: Side, v: seq<Level>, depth: nat, l: Level, m: map<int, int>)
    requires ValidSide(s, v, depth) && Means(v, m)
    requires |v| < depth || HasTick(v, l.priceTick)
    ensures Means(UpdateSide(s, v, depth, l), Write(m, l))
  {
    UpdateSideContents(s, v, depth, l);
  }

  /** Writing a resting level that contradicts none of the others adds it. */
  lemma UpdateAdds(s: Side, v: seq<Level>, depth: nat, l: Level)
    requires ValidSide(s, v, depth) && !l.IsEmpty() && (|v| < depth || HasTick(v, l.priceTick))
    requires forall x :: x in v && x.priceTick == l.priceTick ==> x == l
    ensures forall x :: x in UpdateSide(s, v, depth, l) <==> x in v || x == l
  {
    UpdateSideContents(s, v, depth, l);
  }

  lemma {:induction false} UnlimitedValid(s: Side, ls: seq<Level>, n: nat)
    requires n <= |ls|
    ensures ValidSide(s, Unlimited(s, ls, n), |Unlimited(s, ls, n)| + 1)
  {
    if n != 0 {
      UnlimitedValid(s, ls, n - 1);
      var u := Unlimited(s, ls, n - 1);
      UpdateSideContents(s, u, |u| + 1, ls[n - 1]);
    }
  }

  /** The unlimited book is exactly the map of the writes. */
  lemma {:induction false} UnlimitedMeansWrites(s: Side, ls: seq<Level>, n: nat)
    requires n <= |ls|
    ensures ValidSide(s, Unlimited(s, ls, n), |Unlimited(s, ls, n)|)
    ensures Means(Unlimited(s, ls, n), WriteFirst(map[], ls, n))
  {
    if n != 0 {
      var u := Unlimited(s, ls, n - 1);
      UnlimitedMeansWrites(s, ls, n - 1);
      UpdateSideContents(s, u, |u| + 1, ls[n - 1]);
      UpdateKeepsMeaning(s, u, |u| + 1, ls[n - 1], WriteFirst(map[], ls, n - 1));
    }
  }

  /** The level at index `k`, or the empty level past the end. */
  function At(v: seq<Level>, k: nat): Level {
    if k < |v| then v[k] else Level(0, 0)
  }

  /** Both vectors agree on their best `a` levels. */
  ghost predicate AgreeTo(v: seq<Level>, u: seq<Level>, a: int) {
    forall k: nat :: k < a ==> At(v, k) == At(u, k)
  }

  /** A sorted vector whose levels all occur in another is no longer than it, and equal to it at equal length. */
  lemma {:induction false} SortedSubset(s: Side, v: seq<Level>, u: seq<Level>)
    requires Sorted(s, v) && Sorted(s, u) && forall l :: l in v ==> l in u
    ensures |v| <= |u|
    ensures |v| == |u| ==> v == u
    decreases |u|
  {
    if v != [] {
      var n, m := |v| - 1, |u| - 1;
      assert v[n] in u;
      if v[n] == u[m] {
        forall l | l in v[..n] ensures l in u[..m] {
          var k :| 0 <= k < n && v[k] == l;
          assert v[k] in v && Before(s, v[k].priceTick, v[n].priceTick);
          var y :| 0 <= y < |u| && u[y] == l;
          assert u[..m][y] == l;
        }
        SortedSubset(s, v[..n], u[..m]);
      } else {
        forall l | l in v ensures l in u[..m] {
          var k :| 0 <= k < |v| && v[k] == l;
          var x :| 0 <= x < |u| && u[x] == v[n];
          assert k == n || Before(s, v[k].priceTick, v[n].priceTick);
          var y :| 0 <= y < |u| && u[y] == l;
          assert u[..m][y] == l;
        }
        SortedSubset(s, v, u[..m]);
      }
    }
  }

  /** The two books after some run: valid, contained one in the other, equal on the best `a` levels. */
  ghost predicate Tracks(s: Side, v: seq<Level>, u: seq<Level>, depth: nat, a: int) {
    && ValidSide(s, v, depth) && ValidSide(s, u, |u|)
    && (forall x :: x in v ==> x in u)
    && a <= depth && AgreeTo(v, u, a)
  }

  /** Index `k` of an updated vector, in terms of the vector before. */
  lemma UpdateSideAt(s: Side, v: seq<Level>, depth: nat, l: Level, k: nat)
    ensures var i, w := LowerBound(s, v, l.priceTick), UpdateSide(s, v, depth, l);
            var found := i < |v| && v[i].priceTick == l.priceTick;
            && (k < i ==> k < |w| && w[k] == v[k])
            && |w| >= (if l.IsEmpty() && found then |v| - 1 else |v|)
            && (i <= k < |w| ==> (w[k] ==
                    if l.IsEmpty() then (if found then v[k + 1] else v[k])
                    else if k == i then l
                    else if found then v[k] else v[k - 1]))
  {
  }

  lemma StepAgreesAt(s: Side, v: seq<Level>, u: seq<Level>, depth: nat, a: nat, l: Level, k: nat)
    requires Tracks(s, v, u, depth, a) && a <= |v| && a <= |u|
    requires k < if l.IsEmpty() && HasTick(v, l.priceTick) then a - 1 else a
    ensures var v', u' := UpdateSide(s, v, depth, l), UpdateSide(s, u, |u| + 1, l);
            k < |v'| && k < |u'| && v'[k] == u'[k]
  {
    var i, j := LowerBound(s, v, l.priceTick), LowerBound(s, u, l.priceTick);
    UpdateSideAt(s, v, depth, l, k);
    UpdateSideAt(s, u, |u| + 1, l, k);
    LowerBoundFinds(s, v, l.priceTick);
    LowerBoundFinds(s, u, l.priceTick);
    assert At(v, k) == At(u, k);
    if i <= k || j <= k {
      assert forall m :: 0 <= m < a ==> At(v, m) == v[m] == u[m];
      assert i == j && v[i] == u[i];
      assert k > i ==> v[k - 1] == u[k - 1];
      assert k + 1 < a ==> v[k + 1] == u[k + 1];
    }
  }

  lemma StepContained(s: Side, v: seq<Level>, u: seq<Level>, depth: nat, l: Level)
    requires ValidSide(s, v, depth) && ValidSide(s, u, |u|) && forall x :: x in v ==> x in u
    ensures var v', u' := UpdateSide(s, v, depth, l), UpdateSide(s, u, |u| + 1, l);
            ValidSide(s, v', depth) && ValidSide(s, u', |u'|) && forall x :: x in v' ==> x in u'
  {
    UpdateSideContents(s, v, depth, l);
    UpdateSideContents(s, u, |u| + 1, l);
  }

  lemma AgreeingIsLong(v: seq<Level>, u: seq<Level>, a: nat)
    requires AgreeTo(v, u, a) && |v| < |u| && NoEmpty(u)
    ensures a <= |v|
  {
    assert u[|v|] in u;
    assert |v| < a ==> At(v, |v|) == At(u, |v|);
  }

  lemma StepAgrees(s: Side, v: seq<Level>, u: seq<Level>, depth: nat, a: nat, l: Level)
    requires Tracks(s, v, u, depth, a) && a <= |v| && a <= |u|
    ensures AgreeTo(UpdateSide(s, v, depth, l), UpdateSide(s, u, |u| + 1, l),
                    if l.IsEmpty() && HasTick(v, l.priceTick) then a - 1 else a)
  {
    var b := if l.IsEmpty() && HasTick(v, l.priceTick) then a - 1 else a;
    forall k: nat | k < b
      ensures At(UpdateSide(s, v, depth, l), k) == At(UpdateSide(s, u, |u| + 1, l), k)
    {
      StepAgreesAt(s, v, u, depth, a, l, k);
    }
  }

  lemma SameWithRoom(s: Side, v: seq<Level>, depth: nat, l: Level)
    requires Sorted(s, v) && (|v| < depth || l.IsEmpty() || HasTick(v, l.priceTick))
    ensures UpdateSide(s, v, depth, l) == UpdateSide(s, v, |v| + 1, l)
  {
    LowerBoundFinds(s, v, l.priceTick);
  }

  /** One update applied to both books; only a removal from a book that hides a level costs a place. */
  lemma StepTracks(s: Side, v: seq<Level>, u: seq<Level>, depth: nat, a: int, l: Level)
    requires Tracks(s, v, u, depth, a)
    ensures Tracks(s, UpdateSide(s, v, depth, l), UpdateSide(s, u, |u| + 1, l), depth, a - Loss(v, u, l))
  {
    StepContained(s, v, u, depth, l);
    SortedSubset(s, v, u);
    if 0 <= a {
      if |v| == |u| && (|v| < depth || l.IsEmpty() || HasTick(v, l.priceTick)) {
        SameWithRoom(s, v, depth, l);
      } else {
        if |v| < |u| {
          AgreeingIsLong(v, u, a);
        }
        StepAgrees(s, v, u, depth, a, l);
      }
    }
  }

  lemma LossNext(s: Side, depth: nat, ls: seq<Level>, n: nat)
    requires n < |ls|
    ensures LossyRemovals(s, depth, ls, n + 1)
         == LossyRemovals(s, depth, ls, n) + Loss(UpdateFirst(s, [], depth, ls, n), Unlimited(s, ls, n), ls[n])
  {
  }

  /** Both books after `n` updates agree on their best `a` levels. */
  ghost predicate TracksAt(s: Side, depth: nat, ls: seq<Level>, n: nat, a: int)
    requires n <= |ls|
  {
    Tracks(s, UpdateFirst(s, [], depth, ls, n), Unlimited(s, ls, n), depth, a)
  }

  lemma TracksNext(s: Side, depth: nat, ls: seq<Level>, n: nat, a: int)
    requires n < |ls| && TracksAt(s, depth, ls, n, a)
    ensures TracksAt(s, depth, ls, n + 1, a - Loss(UpdateFirst(s, [], depth, ls, n), Unlimited(s, ls, n), ls[n]))
  {
    StepTracks(s, UpdateFirst(s, [], depth, ls, n), Unlimited(s, ls, n), depth, a, ls[n]);
  }

  lemma {:induction false} TracksAlways(s: Side, depth: nat, ls: seq<Level>, n: nat)
    requires n <= |ls|
    ensures TracksAt(s, depth, ls, n, depth - LossyRemovals(s, depth, ls, n))
  {
    if n == 0 {
      assert UpdateFirst(s, [], depth, ls, 0) == [] == Unlimited(s, ls, 0);
    } else {
      TracksAlways(s, depth, ls, n - 1);
      TracksNext(s, depth, ls, n - 1, depth - LossyRemovals(s, depth, ls, n - 1));
      LossNext(s, depth, ls, n - 1);
    }
  }

  /**
   After any run of updates since a clear, the depth-N book is valid and a sub-map of the
   writes, and its best N - k levels are the best N - k levels of the unlimited book, where
   k counts the lossy removals. A book as long as the unlimited one is the unlimited one.
   */
  lemma TopAgrees(s: Side, depth: nat, ls: seq<Level>, n: nat)
    requires n <= |ls|
    ensures var v, u := UpdateFirst(s, [], depth, ls, n), Unlimited(s, ls, n);
            && ValidSide(s, v, depth)
            && SubMap(v, WriteFirst(map[], ls, n))
            && Means(u, WriteFirst(map[], ls, n))
            && AgreeTo(v, u, depth - LossyRemovals(s, depth, ls, n))
            && |v| <= |u|
            && (|v| == |u| ==> v == u)
  {
    TracksAlways(s, depth, ls, n);
    UnlimitedMeansWrites(s, ls, n);
    SortedSubset(s, UpdateFirst(s, [], depth, ls, n), Unlimited(s, ls, n));
  }

  /** The best `depth` levels. */
  function Top(u: seq<Level>, depth: nat): seq<Level> {
    if depth <= |u| then u[..depth] else u
  }

  lemma AgreeingIsPrefix(v: seq<Level>, u: seq<Level>, depth: nat)
    requires AgreeTo(v, u, depth) && NoEmpty(u) && |v| <= depth && |v| <= |u| && (|v| == |u| ==> v == u)
    ensures v == Top(u, depth)
  {
    if |v| < |u| {
      AgreeingIsLong(v, u, depth);
      assert forall k :: 0 <= k < depth ==> At(v, k) == v[k] == u[k];
    }
  }

  /** With no lossy removal the bounded book is exactly the best `depth` levels. */
  lemma NoLossIsTop(s: Side, depth: nat, ls: seq<Level>, n: nat)
    requires n <= |ls| && LossyRemovals(s, depth, ls, n) == 0
    ensures UpdateFirst(s, [], depth, ls, n) == Top(Unlimited(s, ls, n), depth)
  {
    TopAgrees(s, depth, ls, n);
    UnlimitedMeansWrites(s, ls, n);
    AgreeingIsPrefix(UpdateFirst(s, [], depth, ls, n), Unlimited(s, ls, n), depth);
  }

  // ---- when the book is exact ----

  lemma TopTracks(s: Side, u: seq<Level>, depth: nat)
    requires ValidSide(s, u, |u|)
    ensures Tracks(s, Top(u, depth), u, depth, depth)
  {
    var v := Top(u, depth);
    forall k: nat | k < depth ensures At(v, k) == At(u, k) {
    }
  }

  lemma TrackedIsTop(s: Side, v: seq<Level>, u: seq<Level>, depth: nat)
    requires Tracks(s, v, u, depth, depth)
    ensures v == Top(u, depth)
  {
    SortedSubset(s, v, u);
    AgreeingIsPrefix(v, u, depth);
  }

  /** Taking a level out of a full book that hides one leaves it short. */
  lemma LossShortens(s: Side, u: seq<Level>, depth: nat, l: Level)
    requires ValidSide(s, u, |u|) && Loss(Top(u, depth), u, l) == 1
    ensures |UpdateSide(s, Top(u, depth), depth, l)| == depth - 1 && |UpdateSide(s, u, |u| + 1, l)| >= depth
  {
    LowerBoundFinds(s, Top(u, depth), l.priceTick);
    LowerBoundFinds(s, u, l.priceTick);
  }

  /** The step law: from an exact book, one update leaves it exact if and only if it loses nothing. */
  lemma StepExact(s: Side, u: seq<Level>, depth: nat, l: Level)
    requires ValidSide(s, u, |u|)
    ensures UpdateSide(s, Top(u, depth), depth, l) == Top(UpdateSide(s, u, |u| + 1, l), depth) <==> Loss(Top(u, depth), u, l) == 0
  {
    if Loss(Top(u, depth), u, l) == 0 {
      TopTracks(s, u, depth);
      StepTracks(s, Top(u, depth), u, depth, depth, l);
      TrackedIsTop(s, UpdateSide(s, Top(u, depth), depth, l), UpdateSide(s, u, |u| + 1, l), depth);
    } else {
      LossShortens(s, u, depth, l);
    }
  }

  /** The bounded book is the top of the unlimited one after `n` updates. */
  ghost predicate ExactAt(s: Side, depth: nat, ls: seq<Level>, n: nat)
    requires n <= |ls|
  {
    UpdateFirst(s, [], depth, ls, n) == Top(Unlimited(s, ls, n), depth)
  }

  /** Exact after every prefix of the first `n` updates. */
  ghost predicate AlwaysExact(s: Side, depth: nat, ls: seq<Level>, n: nat)
    requires n <= |ls|
  {
    forall k: nat :: k <= n ==> ExactAt(s, depth, ls, k)
  }

  lemma ExactNext(s: Side, depth: nat, ls: seq<Level>, n: nat)
    requires n < |ls| && ExactAt(s, depth, ls, n)
    ensures ExactAt(s, depth, ls, n + 1) <==>
            Loss(UpdateFirst(s, [], depth, ls, n), Unlimited(s, ls, n), ls[n]) == 0
  {
    UnlimitedMeansWrites(s, ls, n);
    StepExact(s, Unlimited(s, ls, n), depth, ls[n]);
  }

  lemma NoLossBefore(s: Side, depth: nat, ls: seq<Level>, n: nat)
    requires n < |ls| && LossyRemovals(s, depth, ls, n + 1) == 0
    ensures LossyRemovals(s, depth, ls, n) == 0
  {
  }

  /** While nothing is lost the book is exact. */
  lemma {:induction false} ExactBefore(s: Side, depth: nat, ls: seq<Level>, n: nat, k: nat)
    requires k <= n <= |ls| && LossyRemovals(s, depth, ls, n) == 0
    ensures ExactAt(s, depth, ls, k)
    decreases n
  {
    if k == n {
      NoLossIsTop(s, depth, ls, n);
    } else {
      NoLossBefore(s, depth, ls, n - 1);
      ExactBefore(s, depth, ls, n - 1, k);
    }
  }

  lemma LossBreaks(s: Side, depth: nat, ls: seq<Level>, n: nat)
    requires n < |ls| && LossyRemovals(s, depth, ls, n) == 0 && LossyRemovals(s, depth, ls, n + 1) > 0
    ensures !ExactAt(s, depth, ls, n + 1)
  {
    NoLossIsTop(s, depth, ls, n);
    LossNext(s, depth, ls, n);
    ExactNext(s, depth, ls, n);
  }

  /** Right after the first lossy removal the book is not exact. */
  lemma {:induction false} FirstLoss(s: Side, depth: nat, ls: seq<Level>, n: nat) returns (k: nat)
    requires n <= |ls| && LossyRemovals(s, depth, ls, n) > 0
    ensures k <= n && !ExactAt(s, depth, ls, k)
  {
    if LossyRemovals(s, depth, ls, n - 1) > 0 {
      k := FirstLoss(s, depth, ls, n - 1);
    } else {
      LossBreaks(s, depth, ls, n - 1);
      k := n;
    }
  }

  /** The run law: the book is the best `depth` levels after every prefix of the run if and only if no removal was lossy. */
  lemma ExactThroughout(s: Side, depth: nat, ls: seq<Level>, n: nat)
    requires n <= |ls|
    ensures AlwaysExact(s, depth, ls, n) <==> LossyRemovals(s, depth, ls, n) == 0
  {
    if LossyRemovals(s, depth, ls, n) == 0 {
      forall k: nat | k <= n ensures ExactAt(s, depth, ls, k) {
        ExactBefore(s, depth, ls, n, k);
      }
    } else {
      var k := FirstLoss(s, depth, ls, n);
    }
  }

  // ---- a loss, and how it can heal ----

  /** Bids 3, 2, 1 into depth 2, then 3 withdrawn, then a new best 4. */
  const DRIFT := [Level(3, 1), Level(2, 1), Level(1, 1), Level(3, 0), Level(4, 1)]

  lemma DriftStart()
    ensures UpdateFirst(Bid, [], 2, DRIFT, 3) == DRIFT[..2] && Unlimited(Bid, DRIFT, 3) == DRIFT[..3]
    ensures LossyRemovals(Bid, 2, DRIFT, 3) == 0
  {
    assert UpdateFirst(Bid, [], 2, DRIFT, 1) == DRIFT[..1] == Unlimited(Bid, DRIFT, 1);
    assert UpdateFirst(Bid, [], 2, DRIFT, 2) == DRIFT[..2] == Unlimited(Bid, DRIFT, 2);
  }

  /** A hidden level is not recovered when a removal makes room for it. */
  lemma LossIsReal()
    ensures LossyRemovals(Bid, 2, DRIFT, 4) == 1
    ensures UpdateFirst(Bid, [], 2, DRIFT, 4) == [Level(2, 1)] && Unlimited(Bid, DRIFT, 4) == [Level(2, 1), Level(1, 1)]
  {
    DriftStart();
    assert DRIFT[0] in DRIFT[..2];
  }

  /** A later level can make the loss good: the count bounds the damage, it does not measure it. */
  lemma LossCanHeal()
    ensures LossyRemovals(Bid, 2, DRIFT, 5) == 1 && !ExactAt(Bid, 2, DRIFT, 4) && ExactAt(Bid, 2, DRIFT, 5)
  {
    LossIsReal();
    assert UpdateFirst(Bid, [], 2, DRIFT, 5) == [Level(4, 1), Level(2, 1)];
    assert Unlimited(Bid, DRIFT, 5) == [Level(4, 1), Level(2, 1), Level(1, 1)];
  }
}
