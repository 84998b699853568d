/** Loading a snapshot does not depend on the order of its levels, and a published checkpoint loads back. */
module Checkpoints {
  import opened OrderBooks
  import opened BoundedBook
  import opened Controllers
  import opened FeedHandlers
  import opened Brain

  /** At most one resting lot per price. */
  ghost predicate OneLotPerTick(ls: seq<Level>) {
    forall x, y :: x in ls && y in ls && !x.IsEmpty() && !y.IsEmpty() && x.priceTick == y.priceTick ==> x == y
  }

  /** `w` lists the resting levels of `ls`. */
  ghost predicate SameLevels(w: seq<Level>, ls: seq<Level>) {
    forall l :: l in w <==> l in ls && !l.IsEmpty()
  }

  lemma {:induction false} UnlimitedFrom(s: Side, ls: seq<Level>, n: nat)
    requires n <= |ls|
    ensures forall l :: l in Unlimited(s, ls, n) ==> l in ls
  {
    if n != 0 {
      UnlimitedFrom(s, ls, n - 1);
      UnlimitedValid(s, ls, n - 1);
      var u := Unlimited(s, ls, n - 1);
      UpdateSideContents(s, u, |u| + 1, ls[n - 1]);
    }
  }

  /** A resting level that no other of the list contradicts. */
  ghost predicate Settled(ls: seq<Level>, l: Level) {
    !l.IsEmpty() && forall y :: y in ls && y.priceTick == l.priceTick ==> y == l
  }

  /** One more write of a list without contradictions. */
  lemma WriteHolds(s: Side, u: seq<Level>, l: Level, ls: seq<Level>, x: Level)
    requires ValidSide(s, u, |u| + 1) && (forall y :: y in u ==> y in ls)
    requires Settled(ls, l) && (x in u || x == l)
    ensures x in UpdateSide(s, u, |u| + 1, l)
  {
    UpdateAdds(s, u, |u| + 1, l);
  }

  lemma WriteHoldsAt(s: Side, ls: seq<Level>, n: nat, u: seq<Level>, x: Level)
    requires n < |ls| && Settled(ls, ls[n]) && u == Unlimited(s, ls, n) && (x in u || x == ls[n])
    ensures x in UpdateSide(s, u, |u| + 1, ls[n])
  {
    UnlimitedFrom(s, ls, n);
    UnlimitedValid(s, ls, n);
    WriteHolds(s, u, ls[n], ls, x);
  }

  lemma UnlimitedKeeps(s: Side, ls: seq<Level>, n: nat, x: Level)
    requires 0 < n <= |ls| && Settled(ls, ls[n - 1]) && (x in Unlimited(s, ls, n - 1) || x == ls[n - 1])
    ensures x in Unlimited(s, ls, n)
  {
    WriteHoldsAt(s, ls, n - 1, Unlimited(s, ls, n - 1), x);
  }

  lemma {:induction false} UnlimitedHolds(s: Side, ls: seq<Level>, n: nat, j: nat)
    requires j < n <= |ls| && NoEmpty(ls) && OneLotPerTick(ls)
    ensures ls[j] in Unlimited(s, ls, n)
  {
    if j < n - 1 {
      UnlimitedHolds(s, ls, n - 1, j);
    }
    assert ls[n - 1] in ls;
    UnlimitedKeeps(s, ls, n, ls[j]);
  }

  /** Without contradictions the unlimited book holds exactly the levels written. */
  lemma UnlimitedLevels(s: Side, ls: seq<Level>)
    requires NoEmpty(ls) && OneLotPerTick(ls)
    ensures forall l :: l in Unlimited(s, ls, |ls|) <==> l in ls
  {
    UnlimitedFrom(s, ls, |ls|);
    forall l | l in ls ensures l in Unlimited(s, ls, |ls|) {
      var j :| 0 <= j < |ls| && ls[j] == l;
      UnlimitedHolds(s, ls, |ls|, j);
    }
  }

  lemma {:induction false} NoRemovalsNoLoss(s: Side, depth: nat, ls: seq<Level>, n: nat)
    requires n <= |ls| && NoEmpty(ls)
    ensures LossyRemovals(s, depth, ls, n) == 0
  {
    if n != 0 {
      assert ls[n - 1] in ls;
      NoRemovalsNoLoss(s, depth, ls, n - 1);
    }
  }

  /** A snapshot side loads as the best `depth` of its resting levels, whatever order they came in. */
  lemma LoadIsTop(s: Side, depth: nat, ls: seq<Level>, w: seq<Level>)
    requires OneLotPerTick(ls) && Sorted(s, w) && SameLevels(w, ls)
    ensures UpdateAll(s, [], depth, Baseline(s, ls)) == Top(w, depth)
  {
    var base := Baseline(s, ls);
    var n := |base|;
    BaselineKeeps(s, ls);
    NoRemovalsNoLoss(s, depth, base, n);
    NoLossIsTop(s, depth, base, n);
    UnlimitedLevels(s, base);
    UnlimitedMeansWrites(s, base, n);
    SortedSubset(s, Unlimited(s, base, n), w);
    SortedSubset(s, w, Unlimited(s, base, n));
  }

  /** Order independence: two snapshot sides with the same resting levels load the same vector. */
  lemma LoadOrderIrrelevant(s: Side, depth: nat, ls: seq<Level>, ms: seq<Level>)
    requires OneLotPerTick(ls)
    requires forall l :: l in ls && !l.IsEmpty() <==> l in ms && !l.IsEmpty()
    ensures UpdateAll(s, [], depth, Baseline(s, ls)) == UpdateAll(s, [], depth, Baseline(s, ms))
  {
    var base := Baseline(s, ls);
    BaselineKeeps(s, ls);
    UnlimitedLevels(s, base);
    UnlimitedMeansWrites(s, base, |base|);
    var w := Unlimited(s, base, |base|);
    LoadIsTop(s, depth, ls, w);
    LoadIsTop(s, depth, ms, w);
  }

  lemma {:induction false} TopLevelsIsPrefix(v: seq<Level>, n: nat)
    requires NoEmpty(v)
    ensures TopLevels(v, n) == Top(v, n)
  {
    if n != 0 && v != [] {
      assert v[0] in v;
      assert NoEmpty(v[1..]);
      TopLevelsIsPrefix(v[1..], n - 1);
    }
  }

  lemma SortedOneLot(s: Side, v: seq<Level>)
    requires Sorted(s, v)
    ensures OneLotPerTick(v)
  {
    forall x, y | x in v && y in v && x.priceTick == y.priceTick ensures x == y {
      var i :| 0 <= i < |v| && v[i] == x;
      var j :| 0 <= j < |v| && v[j] == y;
    }
  }

  lemma TopValid(s: Side, v: seq<Level>, top: nat)
    requires Sorted(s, v) && NoEmpty(v)
    ensures Sorted(s, Top(v, top)) && NoEmpty(Top(v, top))
  {
    assert forall l :: l in Top(v, top) ==> l in v;
  }

  lemma TopOfTop(v: seq<Level>, top: nat, depth: nat)
    ensures Top(Top(v, top), depth) == Top(v, if top <= depth then top else depth)
  {
  }

  lemma SideRoundTrip(s: Side, v: seq<Level>, top: nat, depth: nat)
    requires Sorted(s, v) && NoEmpty(v)
    ensures UpdateAll(s, [], depth, Baseline(s, TopLevels(v, top))) == Top(v, if top <= depth then top else depth)
  {
    var w := TopLevels(v, top);
    TopLevelsIsPrefix(v, top);
    TopValid(s, v, top);
    SortedOneLot(s, w);
    LoadIsTop(s, depth, w, w);
    TopOfTop(v, top, depth);
  }

  ghost predicate PositiveLevels(v: seq<Level>) {
    forall l :: l in v ==> l.priceTick > 0 && l.quantityLot > 0
  }

  /**
   Publishing a valid positive book as a checkpoint and loading it into a brain of another
   depth reproduces the first min(top, depth) levels of each side and the applied sequence.
   */
  lemma CheckpointRoundTrip(c: Ctl, from: nat, top: nat, depth: nat, b: VenueBook)
    requires ValidBook(c.book, from) && PositiveLevels(c.book.bids) && PositiveLevels(c.book.asks)
    ensures var e := BookStateEvent(c.lastSeq, TopLevels(c.book.bids, top), TopLevels(c.book.asks, top));
            var b' := OnEvent(depth, b, e);
            var n := if top <= depth then top else depth;
            && b'.Synced() && b'.ctl.lastSeq == c.lastSeq
            && b'.ctl.book == Book(Top(c.book.bids, n), Top(c.book.asks, n))
  {
    TopLevelsIsPrefix(c.book.bids, top);
    TopLevelsIsPrefix(c.book.asks, top);
    assert forall l :: l in Top(c.book.bids, top) ==> l in c.book.bids;
    assert forall l :: l in Top(c.book.asks, top) ==> l in c.book.asks;
    SideRoundTrip(Bid, c.book.bids, top, depth);
    SideRoundTrip(Ask, c.book.asks, top, depth);
  }
}
