/**
 The depth-bounded order book: two vectors of price levels, bids sorted by
 descending tick and asks by ascending tick, never longer than `depth`.
 */
module OrderBooks {

  datatype Level = Level(priceTick: int, quantityLot: int) {
    predicate IsEmpty() {
      quantityLot == 0
    }
  }

  datatype Side = Bid | Ask

  datatype Book = Book(bids: seq<Level>, asks: seq<Level>) {
    function Levels(s: Side): seq<Level> {
      if s.Bid? then bids else asks
    }
  }

  const EMPTY := Book([], [])

  /** Tick `a` stands strictly in front of tick `b` on side `s`. */
  predicate Before(s: Side, a: int, b: int) {
    if s.Bid? then a > b else a < b
  }

  predicate Sorted(s: Side, v: seq<Level>) {
    forall i, j :: 0 <= i < j < |v| ==> Before(s, v[i].priceTick, v[j].priceTick)
  }

  predicate NoEmpty(v: seq<Level>) {
    forall l :: l in v ==> !l.IsEmpty()
  }

  /** What every vector of the book satisfies: sorted, duplicate-free, no empty level, bounded. */
  predicate ValidSide(s: Side, v: seq<Level>, depth: nat) {
    Sorted(s, v) && NoEmpty(v) && |v| <= depth
  }

  predicate ValidBook(b: Book, depth: nat) {
    ValidSide(Bid, b.bids, depth) && ValidSide(Ask, b.asks, depth)
  }

  /** The insertion point `std::lower_bound` returns for `tick`. */
  function LowerBound(s: Side, v: seq<Level>, tick: int): (i: nat)
    ensures i <= |v|
  {
    LowerBoundFrom(s, v, tick, 0)
  }

  function LowerBoundFrom(s: Side, v: seq<Level>, tick: int, from: nat): (i: nat)
    requires from <= |v|
    ensures i <= |v|
    decreases |v| - from
  {
    if from == |v| || !Before(s, v[from].priceTick, tick) then from
    else LowerBoundFrom(s, v, tick, from + 1)
  }

  function RemoveSide(s: Side, v: seq<Level>, tick: int): seq<Level> {
    var i := LowerBound(s, v, tick);
    if i < |v| && v[i].priceTick == tick then v[..i] + v[i + 1..] else v
  }

  /** One exchange update applied to one side of a book that keeps at most `depth` levels. */
  function UpdateSide(s: Side, v: seq<Level>, depth: nat, l: Level): seq<Level> {
    if l.IsEmpty() then RemoveSide(s, v, l.priceTick)
    else
      var i := LowerBound(s, v, l.priceTick);
      if i < |v| && v[i].priceTick == l.priceTick then v[i := l]
      else if |v| < depth then v[..i] + [l] + v[i..]
      else if i < |v| then (v[..i] + [l] + v[i..])[..|v|]
      else v
  }

  /** The first `n` updates of a run, left to right. */
  function UpdateFirst(s: Side, v: seq<Level>, depth: nat, ls: seq<Level>, n: nat): seq<Level>
    requires n <= |ls|
  {
    if n == 0 then v else UpdateSide(s, UpdateFirst(s, v, depth, ls, n - 1), depth, ls[n - 1])
  }

  /** A whole run of updates. */
  function UpdateAll(s: Side, v: seq<Level>, depth: nat, ls: seq<Level>): seq<Level> {
    UpdateFirst(s, v, depth, ls, |ls|)
  }

  predicate HasTick(v: seq<Level>, tick: int) {
    exists l :: l in v && l.priceTick == tick
  }

  lemma LowerBoundSplits(s: Side, v: seq<Level>, tick: int, from: nat)
    requires from <= |v|
    ensures var i := LowerBoundFrom(s, v, tick, from);
            && from <= i
            && (forall j :: from <= j < i ==> Before(s, v[j].priceTick, tick))
            && (i < |v| ==> !Before(s, v[i].priceTick, tick))
    decreases |v| - from
  {
    if from < |v| && Before(s, v[from].priceTick, tick) {
      LowerBoundSplits(s, v, tick, from + 1);
    }
  }

  /** In a sorted vector everything before the lower bound is better, everything after is worse or the tick itself. */
  lemma LowerBoundFinds(s: Side, v: seq<Level>, tick: int)
    requires Sorted(s, v)
    ensures var i := LowerBound(s, v, tick);
            && (HasTick(v, tick) <==> i < |v| && v[i].priceTick == tick)
            && (forall j :: 0 <= j < i ==> Before(s, v[j].priceTick, tick))
            && (i < |v| ==> !Before(s, v[i].priceTick, tick))
            && (forall j :: i < j < |v| ==> Before(s, tick, v[j].priceTick))
  {
    LowerBoundSplits(s, v, tick, 0);
    var i := LowerBound(s, v, tick);
    if HasTick(v, tick) {
      var l :| l in v && l.priceTick == tick;
      var k :| 0 <= k < |v| && v[k] == l;
    }
  }

  /** A sorted vector with the span [i..j) replaced by `mid` stays sorted when `mid` fits the gap. */
  lemma SpliceSorted(s: Side, v: seq<Level>, i: nat, j: nat, mid: seq<Level>)
    requires Sorted(s, v) && i <= j <= |v| && |mid| <= 1
    requires mid != [] ==> forall k :: 0 <= k < i ==> Before(s, v[k].priceTick, mid[0].priceTick)
    requires mid != [] ==> forall k :: j <= k < |v| ==> Before(s, mid[0].priceTick, v[k].priceTick)
    ensures Sorted(s, v[..i] + mid + v[j..])
  {
    var w := v[..i] + mid + v[j..];
    var m := i + |mid|;
    forall x, y | 0 <= x < y < |w| ensures Before(s, w[x].priceTick, w[y].priceTick) {
      if m <= x {
        assert w[x] == v[x - m + j] && w[y] == v[y - m + j];
      } else if m <= y {
        assert w[y] == v[y - m + j];
      }
    }
  }

  lemma InsertContents(s: Side, v: seq<Level>, l: Level)
    requires Sorted(s, v) && !HasTick(v, l.priceTick)
    ensures var i := LowerBound(s, v, l.priceTick);
            var w := v[..i] + [l] + v[i..];
            && Sorted(s, w)
            && (forall x :: x in w <==> x == l || x in v)
  {
    LowerBoundFinds(s, v, l.priceTick);
    var i := LowerBound(s, v, l.priceTick);
    forall k | i <= k < |v| ensures Before(s, l.priceTick, v[k].priceTick) {
      assert v[k] in v;
    }
    SpliceSorted(s, v, i, i, [l]);
    assert v == v[..i] + v[i..];
  }

  lemma RemoveContents(s: Side, v: seq<Level>, tick: int)
    requires Sorted(s, v)
    ensures var w := RemoveSide(s, v, tick);
            && Sorted(s, w)
            && |w| == (if HasTick(v, tick) then |v| - 1 else |v|)
            && (forall x :: x in w <==> x in v && x.priceTick != tick)
  {
    LowerBoundFinds(s, v, tick);
    var i := LowerBound(s, v, tick);
    if i < |v| && v[i].priceTick == tick {
      SpliceSorted(s, v, i, i + 1, []);
      var w := v[..i] + v[i + 1..];
      assert v[..i] + [] + v[i + 1..] == w;
      forall x | x in v && x.priceTick != tick ensures x in w {
        var k :| 0 <= k < |v| && v[k] == x;
        assert k != i;
        assert x == w[if k < i then k else k - 1];
      }
    }
  }

  lemma ReplaceContents(s: Side, v: seq<Level>, i: nat, l: Level)
    requires Sorted(s, v) && NoEmpty(v) && !l.IsEmpty() && i < |v| && v[i].priceTick == l.priceTick
    ensures var w := v[i := l];
            && Sorted(s, w) && NoEmpty(w)
            && (forall x :: x in w <==> x == l || (x in v && x.priceTick != l.priceTick))
  {
    var w := v[i := l];
    assert w[i] == l;
    forall x | x in v && x.priceTick != l.priceTick ensures x in w {
      var k :| 0 <= k < |v| && v[k] == x;
      assert w[k] == x;
    }
  }

  /** What one update keeps and changes: the invariant, no invented level, and (with room) no lost level. */
  lemma UpdateSideContents(s: Side, v: seq<Level>, depth: nat, l: Level)
    requires ValidSide(s, v, depth)
    ensures var w := UpdateSide(s, v, depth, l);
            && ValidSide(s, w, depth)
            && (forall x :: x in w ==> (x == l && !l.IsEmpty()) || (x in v && x.priceTick != l.priceTick))
            && (|v| < depth || HasTick(v, l.priceTick) || l.IsEmpty() ==>
                  forall x :: x in w <==> (x == l && !l.IsEmpty()) || (x in v && x.priceTick != l.priceTick))
  {
    LowerBoundFinds(s, v, l.priceTick);
    if l.IsEmpty() {
      RemoveContents(s, v, l.priceTick);
    } else if HasTick(v, l.priceTick) {
      ReplaceContents(s, v, LowerBound(s, v, l.priceTick), l);
    } else {
      InsertContents(s, v, l);
      var i := LowerBound(s, v, l.priceTick);
      var full := v[..i] + [l] + v[i..];
      assert forall x :: x in full[..|v|] ==> x in full;
    }
  }

  lemma {:induction false} UpdateFirstValid(s: Side, v: seq<Level>, depth: nat, ls: seq<Level>, n: nat)
    requires ValidSide(s, v, depth) && n <= |ls|
    ensures ValidSide(s, UpdateFirst(s, v, depth, ls, n), depth)
  {
    if n != 0 {
      UpdateFirstValid(s, v, depth, ls, n - 1);
      UpdateSideContents(s, UpdateFirst(s, v, depth, ls, n - 1), depth, ls[n - 1]);
    }
  }

  lemma SortedTicks(s: Side, v: seq<Level>) returns (ticks: set<int>)
    requires Sorted(s, v)
    ensures |ticks| == |v|
    ensures forall t :: t in ticks <==> HasTick(v, t)
    decreases |v|
  {
    if v == [] {
      ticks := {};
    } else {
      var n := |v| - 1;
      var rest := SortedTicks(s, v[..n]);
      assert !HasTick(v[..n], v[n].priceTick);
      ticks := rest + {v[n].priceTick};
      assert v == v[..n] + [v[n]];
      forall t ensures t in ticks <==> HasTick(v, t) {
        if t in rest {
          var l :| l in v[..n] && l.priceTick == t;
          assert l in v;
        }
        if t == v[n].priceTick {
          assert v[n] in v;
        }
        if HasTick(v, t) {
          var l :| l in v && l.priceTick == t;
          assert l in v[..n] || l == v[n];
        }
      }
    }
  }

  /** Best level, or the all-zero level of an empty side. */
  function Best(v: seq<Level>): Level {
    if v == [] then Level(0, 0) else v[0]
  }

  /** The crossed-book test of the controller. */
  predicate Crossed(b: Book) {
    && Best(b.bids).priceTick > 0
    && Best(b.asks).priceTick > 0
    && Best(b.bids).priceTick >= Best(b.asks).priceTick
  }

  class OrderBook {
    const depth: nat
    var bids: seq<Level>
    var asks: seq<Level>

    ghost function View(): Book
      reads this
    {
      Book(bids, asks)
    }

    /** The source throws for depth 0; a constructed book always has room for one level. */
    constructor (depth: nat)
      requires depth > 0
      ensures this.depth == depth && View() == EMPTY
    {
      this.depth := depth;
      bids, asks := [], [];
    }

    method Update(s: Side, level: Level)
      modifies this
      ensures bids == if s.Bid? then UpdateSide(Bid, old(bids), depth, level) else old(bids)
      ensures asks == if s.Ask? then UpdateSide(Ask, old(asks), depth, level) else old(asks)
    {
      if level.IsEmpty() {
        Remove(s, level.priceTick);
        return;
      }
      var vec := if s.Bid? then bids else asks;
      var it := LowerBound(s, vec, level.priceTick);
      if it < |vec| && vec[it].priceTick == level.priceTick {
        vec := vec[it := Level(vec[it].priceTick, level.quantityLot)];
      } else if |vec| < depth {
        vec := vec[..it] + [level] + vec[it..];
      } else if it < |vec| {
        vec := vec[..it] + [level] + vec[it..];
        vec := vec[..|vec| - 1];
      }
      if s.Bid? {
        bids := vec;
      } else {
        asks := vec;
      }
    }

    method Remove(s: Side, priceTick: int)
      modifies this
      ensures bids == if s.Bid? then RemoveSide(Bid, old(bids), priceTick) else old(bids)
      ensures asks == if s.Ask? then RemoveSide(Ask, old(asks), priceTick) else old(asks)
    {
      var vec := if s.Bid? then bids else asks;
      var it := LowerBound(s, vec, priceTick);
      if it < |vec| && vec[it].priceTick == priceTick {
        vec := vec[..it] + vec[it + 1..];
      }
      match s {
        case Bid => bids := vec;
        case Ask => asks := vec;
      }
    }

    method Clear()
      modifies this
      ensures View() == EMPTY
    {
      bids, asks := [], [];
    }

    /** The run-time self check answers exactly whether the book invariant holds. */
    method Validate() returns (ok: bool)
      ensures ok <==> ValidBook(View(), depth)
    {
      if |bids| > depth || |asks| > depth {
        return false;
      }
      ok := ValidateVector(Bid, bids);
      if ok {
        ok := ValidateVector(Ask, asks);
      }
    }
  }

  /** Adjacent ticks strictly ordered and no empty level, decided in one pass each. */
  method ValidateVector(s: Side, v: seq<Level>) returns (ok: bool)
    ensures ok <==> Sorted(s, v) && NoEmpty(v)
  {
    var i := 1;
    while i < |v|
      invariant 1 <= i
      invariant forall j, k :: 0 <= j < k < i && k < |v| ==> Before(s, v[j].priceTick, v[k].priceTick)
    {
      if !Before(s, v[i - 1].priceTick, v[i].priceTick) {
        return false;
      }
      i := i + 1;
    }
    for k := 0 to |v|
      invariant forall j :: 0 <= j < k ==> !v[j].IsEmpty()
    {
      if v[k].IsEmpty() {
        return false;
      }
    }
    return true;
  }
}
