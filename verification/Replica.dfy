/**
 The exchange as a history of absolute level writes (write number i has sequence number
 i + 1), what an honest snapshot or incremental says about it, and the theorem that the
 controller's book means the exchange's book.
 */
module Replica {
  import opened SetFacts
  import opened OrderBooks
  import opened BoundedBook
  import opened Controllers
  import opened ControllerLaws

  datatype Update = Update(side: Side, level: Level)

  /** The exchange's side of the book after the first `n` writes. */
  function BookAt(h: seq<Update>, s: Side, n: nat): map<int, int>
    requires n <= |h|
  {
    if n == 0 then map[]
    else if h[n - 1].side == s then Write(BookAt(h, s, n - 1), h[n - 1].level)
    else BookAt(h, s, n - 1)
  }

  /** The last lot written per tick by writes `lo` up to `hi`; lot 0 is a removal. */
  function Touched(h: seq<Update>, s: Side, lo: nat, hi: nat): map<int, int>
    requires lo <= hi <= |h|
  {
    if hi == lo then map[]
    else if h[hi - 1].side == s then Touched(h, s, lo, hi - 1)[h[hi - 1].level.priceTick := h[hi - 1].level.quantityLot]
    else Touched(h, s, lo, hi - 1)
  }

  /** The last lot per tick in the first `n` levels of a message. */
  function Net(ls: seq<Level>, n: nat): map<int, int>
    requires n <= |ls|
  {
    if n == 0 then map[] else Net(ls, n - 1)[ls[n - 1].priceTick := ls[n - 1].quantityLot]
  }

  function LevelsOf(s: Side, bids: seq<Level>, asks: seq<Level>): seq<Level> {
    if s.Bid? then bids else asks
  }

  /** An incremental [first..last] carries, per touched price, the last write of that range. */
  ghost predicate AuthenticInc(h: seq<Update>, m: Incremental) {
    && 1 <= m.firstSeq <= m.lastSeq <= |h|
    && Net(m.bids, |m.bids|) == Touched(h, Bid, m.firstSeq - 1, m.lastSeq)
    && Net(m.asks, |m.asks|) == Touched(h, Ask, m.firstSeq - 1, m.lastSeq)
  }

  /** A possibly partial snapshot: every resting level it carries is on the exchange at that sequence. */
  ghost predicate AuthenticSnap(h: seq<Update>, m: Snapshot) {
    && m.lastUpdateId <= |h|
    && (forall l :: l in m.bids && !l.IsEmpty() ==> Lot(BookAt(h, Bid, m.lastUpdateId), l.priceTick) == l.quantityLot)
    && (forall l :: l in m.asks && !l.IsEmpty() ==> Lot(BookAt(h, Ask, m.lastUpdateId), l.priceTick) == l.quantityLot)
  }

  /** A full snapshot carries every level as well. */
  ghost predicate CompleteSnap(h: seq<Update>, m: Snapshot) {
    && AuthenticSnap(h, m)
    && Covers(m.bids, BookAt(h, Bid, m.lastUpdateId))
    && Covers(m.asks, BookAt(h, Ask, m.lastUpdateId))
  }

  ghost predicate Authentic(h: seq<Update>, m: Message) {
    match m
    case SnapshotMsg(snap, _) => AuthenticSnap(h, snap)
    case IncrementMsg(inc) => AuthenticInc(h, inc)
    case ResetMsg => true
  }

  /** No phantom level: the local book is part of the exchange's book at the applied sequence. */
  ghost predicate Mirrors(h: seq<Update>, c: Ctl) {
    !c.state.WaitingSnapshot? ==>
      && c.lastSeq <= |h|
      && SubMap(c.book.bids, BookAt(h, Bid, c.lastSeq))
      && SubMap(c.book.asks, BookAt(h, Ask, c.lastSeq))
  }

  /** The local book is the exchange's book at the applied sequence. */
  ghost predicate Equals(h: seq<Update>, c: Ctl) {
    !c.state.WaitingSnapshot? ==>
      && c.lastSeq <= |h|
      && Means(c.book.bids, BookAt(h, Bid, c.lastSeq))
      && Means(c.book.asks, BookAt(h, Ask, c.lastSeq))
  }

  /** One side of the exchange at `n` fits into the depth. */
  ghost predicate BookFits(h: seq<Update>, s: Side, n: nat, depth: nat) {
    n <= |h| && |BookAt(h, s, n).Keys| <= depth
  }

  /** The ticks of one side at `mid` together with those written by `lo..hi` fit into the depth. */
  ghost predicate SpanFits(h: seq<Update>, s: Side, lo: nat, mid: nat, hi: nat, depth: nat) {
    lo <= mid <= hi <= |h| && |BookAt(h, s, mid).Keys + Touched(h, s, lo, hi).Keys| <= depth
  }

  /** So they do wherever an incremental `lo..hi` may be applied. */
  ghost predicate RangeFits(h: seq<Update>, s: Side, lo: nat, hi: nat, depth: nat) {
    forall mid: nat :: lo <= mid < hi ==> SpanFits(h, s, lo, mid, hi, depth)
  }

  /** Room for a message: a snapshot's book, or whatever an incremental may meet and write. Earlier ticks do not matter. */
  ghost predicate Fits(h: seq<Update>, depth: nat, m: Message) {
    match m
    case SnapshotMsg(snap, _) => BookFits(h, Bid, snap.lastUpdateId, depth) && BookFits(h, Ask, snap.lastUpdateId, depth)
    case IncrementMsg(inc) =>
      1 <= inc.firstSeq &&
      RangeFits(h, Bid, inc.firstSeq - 1, inc.lastSeq, depth) && RangeFits(h, Ask, inc.firstSeq - 1, inc.lastSeq, depth)
    case ResetMsg => true
  }

  // ---- lots and maps ----

  /** The resting lot at a tick, 0 when there is none. */
  function Lot(m: map<int, int>, t: int): int {
    if t in m then m[t] else 0
  }

  ghost predicate NoZero(m: map<int, int>) {
    forall t :: t in m ==> m[t] != 0
  }

  lemma SameLots(m: map<int, int>, n: map<int, int>)
    requires NoZero(m) && NoZero(n) && forall t :: Lot(m, t) == Lot(n, t)
    ensures m == n
  {
    forall t ensures t in m <==> t in n {
      assert Lot(m, t) == Lot(n, t);
    }
    forall t | t in m ensures m[t] == n[t] {
      assert Lot(m, t) == Lot(n, t);
    }
  }

  lemma {:induction false} WriteFirstLots(m: map<int, int>, ls: seq<Level>, n: nat)
    requires n <= |ls| && NoZero(m)
    ensures NoZero(WriteFirst(m, ls, n))
    ensures forall t :: Lot(WriteFirst(m, ls, n), t) == if t in Net(ls, n) then Net(ls, n)[t] else Lot(m, t)
  {
    if n != 0 {
      WriteFirstLots(m, ls, n - 1);
    }
  }

  lemma {:induction false} BookNoZero(h: seq<Update>, s: Side, n: nat)
    requires n <= |h|
    ensures NoZero(BookAt(h, s, n))
  {
    if n != 0 {
      BookNoZero(h, s, n - 1);
    }
  }

  /** Writes `lo..hi` over the book at any `mid` in between give the book at `hi`. */
  lemma {:induction false} OverlapLots(h: seq<Update>, s: Side, lo: nat, mid: nat, hi: nat)
    requires lo <= mid <= hi <= |h|
    ensures forall t :: Lot(BookAt(h, s, hi), t) ==
                        if t in Touched(h, s, lo, hi) then Touched(h, s, lo, hi)[t] else Lot(BookAt(h, s, mid), t)
    decreases hi
  {
    if lo < hi {
      if mid < hi {
        OverlapLots(h, s, lo, mid, hi - 1);
      } else {
        OverlapLots(h, s, lo, hi - 1, hi - 1);
      }
    }
  }

  /** The overlap law: an authentic incremental applied to the book at any covered sequence gives the book at its end. */
  lemma IncrementOverlay(h: seq<Update>, s: Side, mid: nat, ls: seq<Level>, lo: nat, hi: nat)
    requires lo <= mid <= hi <= |h| && Net(ls, |ls|) == Touched(h, s, lo, hi)
    ensures WriteFirst(BookAt(h, s, mid), ls, |ls|) == BookAt(h, s, hi)
  {
    BookNoZero(h, s, mid);
    BookNoZero(h, s, hi);
    WriteFirstLots(BookAt(h, s, mid), ls, |ls|);
    OverlapLots(h, s, lo, mid, hi);
    var m, n := WriteFirst(BookAt(h, s, mid), ls, |ls|), BookAt(h, s, hi);
    forall t ensures Lot(m, t) == Lot(n, t) {
    }
    SameLots(m, n);
  }

  // ---- one side of the book ----

  lemma {:induction false} UpdatesStaySubMap(s: Side, v: seq<Level>, depth: nat, ls: seq<Level>, n: nat, m: map<int, int>)
    requires n <= |ls| && ValidSide(s, v, depth) && SubMap(v, m)
    ensures SubMap(UpdateFirst(s, v, depth, ls, n), WriteFirst(m, ls, n))
  {
    if n != 0 {
      UpdatesStaySubMap(s, v, depth, ls, n - 1, m);
      UpdateFirstValid(s, v, depth, ls, n - 1);
      UpdateKeepsSubMap(s, UpdateFirst(s, v, depth, ls, n - 1), depth, ls[n - 1], WriteFirst(m, ls, n - 1));
    }
  }

  lemma {:induction false} LoadStaysSubMap(s: Side, depth: nat, ls: seq<Level>, n: nat, m: map<int, int>)
    requires n <= |ls| && forall l :: l in ls ==> !l.IsEmpty() && Lot(m, l.priceTick) == l.quantityLot
    ensures SubMap(UpdateFirst(s, [], depth, ls, n), m)
  {
    if n != 0 {
      LoadStaysSubMap(s, depth, ls, n - 1, m);
      UpdateFirstValid(s, [], depth, ls, n - 1);
      UpdateSideContents(s, UpdateFirst(s, [], depth, ls, n - 1), depth, ls[n - 1]);
    }
  }

  ghost predicate Within(v: seq<Level>, ticks: set<int>) {
    forall l :: l in v ==> l.priceTick in ticks
  }

  /** A book confined to at most `depth` ticks always has room for one of them. */
  lemma RoomFor(s: Side, v: seq<Level>, depth: nat, ticks: set<int>, tick: int)
    requires ValidSide(s, v, depth) && Within(v, ticks) && tick in ticks && |ticks| <= depth
    ensures |v| < depth || HasTick(v, tick)
  {
    var own := SortedTicks(s, v);
    if !HasTick(v, tick) {
      forall x | x in own ensures x in ticks - {tick} {
        var l :| l in v && l.priceTick == x;
      }
      SubsetSize(own, ticks - {tick});
    }
  }

  lemma {:induction false} UpdatesStayExact(s: Side, v: seq<Level>, depth: nat, ticks: set<int>, ls: seq<Level>, n: nat,
                                            m: map<int, int>)
    requires n <= |ls| && ValidSide(s, v, depth) && Means(v, m)
    requires Within(v, ticks) && Within(ls, ticks) && |ticks| <= depth
    ensures Means(UpdateFirst(s, v, depth, ls, n), WriteFirst(m, ls, n))
    ensures Within(UpdateFirst(s, v, depth, ls, n), ticks)
  {
    if n != 0 {
      UpdatesStayExact(s, v, depth, ticks, ls, n - 1, m);
      UpdateFirstValid(s, v, depth, ls, n - 1);
      var w := UpdateFirst(s, v, depth, ls, n - 1);
      RoomFor(s, w, depth, ticks, ls[n - 1].priceTick);
      UpdateKeepsMeaning(s, w, depth, ls[n - 1], WriteFirst(m, ls, n - 1));
      UpdateSideContents(s, w, depth, ls[n - 1]);
    }
  }

  lemma {:induction false} UpdatesWithin(s: Side, depth: nat, ticks: set<int>, ls: seq<Level>, n: nat)
    requires n <= |ls| && Within(ls, ticks)
    ensures Within(UpdateFirst(s, [], depth, ls, n), ticks)
  {
    if n != 0 {
      UpdatesWithin(s, depth, ticks, ls, n - 1);
      UpdateFirstValid(s, [], depth, ls, n - 1);
      assert ls[n - 1] in ls;
      UpdateSideContents(s, UpdateFirst(s, [], depth, ls, n - 1), depth, ls[n - 1]);
    }
  }

  /** Every level rests with the lot of the map, on one of the ticks. */
  ghost predicate Agrees(ls: seq<Level>, m: map<int, int>, ticks: set<int>) {
    forall l :: l in ls ==> !l.IsEmpty() && Lot(m, l.priceTick) == l.quantityLot && l.priceTick in ticks
  }

  ghost predicate Loaded(s: Side, v: seq<Level>, depth: nat, m: map<int, int>, ticks: set<int>) {
    ValidSide(s, v, depth) && SubMap(v, m) && Within(v, ticks)
  }

  lemma LoadedAlways(s: Side, depth: nat, ls: seq<Level>, n: nat, m: map<int, int>, ticks: set<int>)
    requires n <= |ls| && Agrees(ls, m, ticks)
    ensures Loaded(s, UpdateFirst(s, [], depth, ls, n), depth, m, ticks)
  {
    UpdateFirstValid(s, [], depth, ls, n);
    UpdatesWithin(s, depth, ticks, ls, n);
    LoadStaysSubMap(s, depth, ls, n, m);
  }

  /** A level agreeing with the map joins a book that does, if there is room for its tick. */
  lemma LoadAdds(s: Side, v: seq<Level>, depth: nat, l: Level, m: map<int, int>, ticks: set<int>, x: Level)
    requires Loaded(s, v, depth, m, ticks) && Agrees([l], m, ticks) && |ticks| <= depth && (x in v || x == l)
    ensures x in UpdateSide(s, v, depth, l)
  {
    assert l in [l];
    RoomFor(s, v, depth, ticks, l.priceTick);
    UpdateAdds(s, v, depth, l);
  }

  lemma LoadKeepsLevel(s: Side, depth: nat, ls: seq<Level>, n: nat, m: map<int, int>, ticks: set<int>, x: Level)
    requires 0 < n <= |ls| && Agrees(ls, m, ticks) && |ticks| <= depth
    requires x in UpdateFirst(s, [], depth, ls, n - 1) || x == ls[n - 1]
    ensures x in UpdateFirst(s, [], depth, ls, n)
  {
    LoadedAlways(s, depth, ls, n - 1, m, ticks);
    assert ls[n - 1] in ls;
    LoadAdds(s, UpdateFirst(s, [], depth, ls, n - 1), depth, ls[n - 1], m, ticks, x);
  }

  /** With enough depth no loaded level is lost again. */
  lemma {:induction false} LoadHolds(s: Side, depth: nat, ls: seq<Level>, n: nat, m: map<int, int>, ticks: set<int>, j: nat)
    requires j < n <= |ls| && Agrees(ls, m, ticks) && |ticks| <= depth
    ensures ls[j] in UpdateFirst(s, [], depth, ls, n)
  {
    if j < n - 1 {
      LoadHolds(s, depth, ls, n - 1, m, ticks, j);
    }
    LoadKeepsLevel(s, depth, ls, n, m, ticks, ls[j]);
  }

  // ---- one message ----

  lemma SnapshotMirrors(cfg: Config, h: seq<Update>, c: Ctl, m: Snapshot, kind: BaselineKind)
    requires AuthenticSnap(h, m)
    ensures Mirrors(h, OnSnapshot(cfg, c, m, kind).0)
  {
    BaselineKeeps(Bid, m.bids);
    BaselineKeeps(Ask, m.asks);
    LoadStaysSubMap(Bid, cfg.depth, Baseline(Bid, m.bids), |Baseline(Bid, m.bids)|, BookAt(h, Bid, m.lastUpdateId));
    LoadStaysSubMap(Ask, cfg.depth, Baseline(Ask, m.asks), |Baseline(Ask, m.asks)|, BookAt(h, Ask, m.lastUpdateId));
  }

  /** An authentic incremental that is in reach of the applied sequence keeps the mirror. */
  lemma AppliedMirrors(cfg: Config, h: seq<Update>, c: Ctl, m: Incremental)
    requires Inv(cfg, c) && Mirrors(h, c) && AuthenticInc(h, m)
    requires !c.state.WaitingSnapshot? && c.expectedSeq <= m.lastSeq && m.firstSeq <= c.expectedSeq
    ensures Mirrors(h, WithApplied(cfg, c, m))
  {
    UpdatesStaySubMap(Bid, c.book.bids, cfg.depth, m.bids, |m.bids|, BookAt(h, Bid, c.lastSeq));
    UpdatesStaySubMap(Ask, c.book.asks, cfg.depth, m.asks, |m.asks|, BookAt(h, Ask, c.lastSeq));
    IncrementOverlay(h, Bid, c.lastSeq, m.bids, m.firstSeq - 1, m.lastSeq);
    IncrementOverlay(h, Ask, c.lastSeq, m.asks, m.firstSeq - 1, m.lastSeq);
  }

  lemma IncrementMirrors(cfg: Config, h: seq<Update>, c: Ctl, m: Incremental)
    requires Inv(cfg, c) && Mirrors(h, c) && AuthenticInc(h, m)
    requires !cfg.allowSeqGap || m.firstSeq <= c.expectedSeq
    ensures Mirrors(h, OnIncrement(cfg, c, m).0)
  {
    if !Outdated(c, m) && Applies(cfg, c, m) {
      AppliedMirrors(cfg, h, c, m);
    }
  }

  lemma StepMirrors(cfg: Config, h: seq<Update>, c: Ctl, m: Message)
    requires Inv(cfg, c) && Mirrors(h, c) && Authentic(h, m) && !cfg.allowSeqGap
    ensures Mirrors(h, Step(cfg, c, m).0)
  {
    match m
    case SnapshotMsg(snap, kind) => SnapshotMirrors(cfg, h, c, snap, kind);
    case IncrementMsg(inc) => IncrementMirrors(cfg, h, c, inc);
    case ResetMsg =>
  }

  /**
   Whatever mix of authentic messages arrives (late, duplicated, overlapping, reordered, with
   losses), a gap-intolerant controller of any depth never shows a level the exchange does
   not have at the applied sequence.
   */
  lemma {:induction false} NeverPhantom(cfg: Config, h: seq<Update>, ms: seq<Message>, n: nat)
    requires n <= |ms| && !cfg.allowSeqGap
    requires forall i :: 0 <= i < n ==> Authentic(h, ms[i])
    ensures Mirrors(h, After(cfg, ms, n))
  {
    if n != 0 {
      NeverPhantom(cfg, h, ms, n - 1);
      NextMirrors(cfg, h, ms, n - 1);
    }
  }

  lemma NextMirrors(cfg: Config, h: seq<Update>, ms: seq<Message>, n: nat)
    requires n < |ms| && !cfg.allowSeqGap && Authentic(h, ms[n]) && Mirrors(h, After(cfg, ms, n))
    ensures Mirrors(h, After(cfg, ms, n + 1))
  {
    InvAlways(cfg, ms, n);
    StepMirrors(cfg, h, After(cfg, ms, n), ms[n]);
  }

  // ---- beyond a gap ----

  /** Some level of `v` that the message does not name differs from the exchange's book at `n`. */
  ghost predicate HasStale(h: seq<Update>, s: Side, v: seq<Level>, ls: seq<Level>, n: nat)
    requires n <= |h|
  {
    exists l :: l in v && l.priceTick !in Net(ls, |ls|) && Lot(BookAt(h, s, n), l.priceTick) != l.quantityLot
  }

  /** An applied increment left a level behind that the exchange had changed before it. */
  ghost predicate LeavesStale(h: seq<Update>, b: Book, m: Incremental)
    requires 1 <= m.firstSeq <= |h|
  {
    HasStale(h, Bid, b.bids, m.bids, m.firstSeq - 1) || HasStale(h, Ask, b.asks, m.asks, m.firstSeq - 1)
  }

  /** Updated levels against the exchange at the end of the message, tick by tick. */
  lemma UpdatedLots(h: seq<Update>, s: Side, v: seq<Level>, depth: nat, ls: seq<Level>, mid: nat, lo: nat, hi: nat, l: Level)
    requires ValidSide(s, v, depth) && mid <= |h| && SubMap(v, BookAt(h, s, mid))
    requires lo <= hi <= |h| && Net(ls, |ls|) == Touched(h, s, lo, hi) && l in UpdateAll(s, v, depth, ls)
    ensures !l.IsEmpty()
    ensures if l.priceTick in Net(ls, |ls|) then Lot(BookAt(h, s, hi), l.priceTick) == l.quantityLot
            else Lot(BookAt(h, s, hi), l.priceTick) == Lot(BookAt(h, s, lo), l.priceTick)
  {
    UpdateFirstValid(s, v, depth, ls, |ls|);
    UpdatesStaySubMap(s, v, depth, ls, |ls|, BookAt(h, s, mid));
    BookNoZero(h, s, mid);
    WriteFirstLots(BookAt(h, s, mid), ls, |ls|);
    OverlapLots(h, s, lo, lo, hi);
    assert Lot(WriteFirst(BookAt(h, s, mid), ls, |ls|), l.priceTick) == l.quantityLot;
  }

  lemma SideStale(h: seq<Update>, s: Side, v: seq<Level>, depth: nat, ls: seq<Level>, mid: nat, lo: nat, hi: nat)
    requires ValidSide(s, v, depth) && mid <= |h| && SubMap(v, BookAt(h, s, mid))
    requires lo <= hi <= |h| && Net(ls, |ls|) == Touched(h, s, lo, hi)
    ensures SubMap(UpdateAll(s, v, depth, ls), BookAt(h, s, hi)) <==> !HasStale(h, s, UpdateAll(s, v, depth, ls), ls, lo)
  {
    forall l | l in UpdateAll(s, v, depth, ls)
      ensures l.priceTick in BookAt(h, s, hi) && BookAt(h, s, hi)[l.priceTick] == l.quantityLot <==>
              l.priceTick in Net(ls, |ls|) || Lot(BookAt(h, s, lo), l.priceTick) == l.quantityLot
    {
      UpdatedLots(h, s, v, depth, ls, mid, lo, hi, l);
    }
  }

  /**
   Exactly when an authentic incremental, in reach or not, leaves the mirror intact: every level
   it does not name still rests on the exchange, with its lot, just before the incremental's first write.
   */
  lemma AppliedExactly(cfg: Config, h: seq<Update>, c: Ctl, m: Incremental)
    requires Inv(cfg, c) && Mirrors(h, c) && AuthenticInc(h, m) && !c.state.WaitingSnapshot?
    ensures Mirrors(h, WithApplied(cfg, c, m)) <==> !LeavesStale(h, WithApplied(cfg, c, m).book, m)
  {
    SideStale(h, Bid, c.book.bids, cfg.depth, m.bids, c.lastSeq, m.firstSeq - 1, m.lastSeq);
    SideStale(h, Ask, c.book.asks, cfg.depth, m.asks, c.lastSeq, m.firstSeq - 1, m.lastSeq);
  }

  // ---- exactness with enough depth ----

  lemma {:induction false} NetTicks(ls: seq<Level>, n: nat)
    requires n <= |ls|
    ensures forall j :: 0 <= j < n ==> ls[j].priceTick in Net(ls, n)
  {
    if n != 0 {
      NetTicks(ls, n - 1);
    }
  }

  /** One side of a complete snapshot, loaded with enough depth, is the exchange's side. */
  lemma LoadEquals(h: seq<Update>, s: Side, n: nat, ls: seq<Level>, depth: nat)
    requires BookFits(h, s, n, depth)
    requires forall l :: l in ls && !l.IsEmpty() ==> Lot(BookAt(h, s, n), l.priceTick) == l.quantityLot
    requires Covers(ls, BookAt(h, s, n))
    ensures Means(UpdateAll(s, [], depth, Baseline(s, ls)), BookAt(h, s, n))
  {
    var base, m := Baseline(s, ls), BookAt(h, s, n);
    BaselineKeeps(s, ls);
    BookNoZero(h, s, n);
    forall l | l in base ensures l.priceTick in m.Keys {
      assert Lot(m, l.priceTick) != 0;
    }
    LoadStaysSubMap(s, depth, base, |base|, m);
    forall t | t in m ensures Level(t, m[t]) in UpdateAll(s, [], depth, base) {
      var l := Level(t, m[t]);
      assert l in base;
      var j :| 0 <= j < |base| && base[j] == l;
      LoadHolds(s, depth, base, |base|, m, m.Keys, j);
    }
  }

  lemma SnapshotEquals(cfg: Config, h: seq<Update>, c: Ctl, m: Snapshot, kind: BaselineKind)
    requires CompleteSnap(h, m) && Fits(h, cfg.depth, SnapshotMsg(m, kind))
    ensures Equals(h, OnSnapshot(cfg, c, m, kind).0)
  {
    LoadEquals(h, Bid, m.lastUpdateId, m.bids, cfg.depth);
    LoadEquals(h, Ask, m.lastUpdateId, m.asks, cfg.depth);
  }

  /** One side through an authentic incremental that is in reach. */
  lemma SideEquals(h: seq<Update>, s: Side, v: seq<Level>, depth: nat, ls: seq<Level>, lo: nat, mid: nat, hi: nat)
    requires ValidSide(s, v, depth) && lo <= mid < hi <= |h| && RangeFits(h, s, lo, hi, depth)
    requires Means(v, BookAt(h, s, mid)) && Net(ls, |ls|) == Touched(h, s, lo, hi)
    ensures Means(UpdateAll(s, v, depth, ls), BookAt(h, s, hi))
  {
    assert SpanFits(h, s, lo, mid, hi, depth);
    var ticks := BookAt(h, s, mid).Keys + Touched(h, s, lo, hi).Keys;
    NetTicks(ls, |ls|);
    UpdatesStayExact(s, v, depth, ticks, ls, |ls|, BookAt(h, s, mid));
    IncrementOverlay(h, s, mid, ls, lo, hi);
  }

  lemma AppliedEquals(cfg: Config, h: seq<Update>, c: Ctl, m: Incremental)
    requires Inv(cfg, c) && Equals(h, c) && AuthenticInc(h, m) && Fits(h, cfg.depth, IncrementMsg(m))
    requires !c.state.WaitingSnapshot? && c.expectedSeq <= m.lastSeq && m.firstSeq <= c.expectedSeq
    ensures Equals(h, WithApplied(cfg, c, m))
  {
    var lo, mid, hi := m.firstSeq - 1, c.lastSeq, m.lastSeq;
    SideEquals(h, Bid, c.book.bids, cfg.depth, m.bids, lo, mid, hi);
    SideEquals(h, Ask, c.book.asks, cfg.depth, m.asks, lo, mid, hi);
  }

  ghost predicate Complete(h: seq<Update>, m: Message) {
    Authentic(h, m) && (m.SnapshotMsg? ==> CompleteSnap(h, m.snap))
  }

  lemma StepEquals(cfg: Config, h: seq<Update>, c: Ctl, m: Message)
    requires Inv(cfg, c) && Equals(h, c) && Complete(h, m) && Fits(h, cfg.depth, m) && !cfg.allowSeqGap
    ensures Equals(h, Step(cfg, c, m).0)
  {
    match m
    case SnapshotMsg(snap, kind) => SnapshotEquals(cfg, h, c, snap, kind);
    case IncrementMsg(inc) =>
      if !Outdated(c, inc) && Applies(cfg, c, inc) {
        AppliedEquals(cfg, h, c, inc);
      }
    case ResetMsg =>
  }

  lemma NextEquals(cfg: Config, h: seq<Update>, ms: seq<Message>, n: nat)
    requires n < |ms| && !cfg.allowSeqGap && Complete(h, ms[n]) && Fits(h, cfg.depth, ms[n])
    requires Equals(h, After(cfg, ms, n))
    ensures Equals(h, After(cfg, ms, n + 1))
  {
    InvAlways(cfg, ms, n);
    StepEquals(cfg, h, After(cfg, ms, n), ms[n]);
  }

  /**
   Replica correctness: with complete snapshots and room for each message the controller holds
   exactly the exchange's book at the applied sequence whenever it is bridging or synced.
   */
  lemma {:induction false} ReplicaExact(cfg: Config, h: seq<Update>, ms: seq<Message>, n: nat)
    requires n <= |ms| && !cfg.allowSeqGap
    requires forall i :: 0 <= i < n ==> Complete(h, ms[i]) && Fits(h, cfg.depth, ms[i])
    ensures Equals(h, After(cfg, ms, n))
  {
    if n != 0 {
      ReplicaExact(cfg, h, ms, n - 1);
      NextEquals(cfg, h, ms, n - 1);
    }
  }

  // ---- when the controller gives up ----

  /** At no point does the exchange quote a positive bid at or above a positive ask. */
  ghost predicate Uncrossed(h: seq<Update>) {
    forall n: nat, b, a :: n <= |h| && b in BookAt(h, Bid, n) && a in BookAt(h, Ask, n) && b > 0 && a > 0 ==> b < a
  }

  lemma MirrorNotCrossed(h: seq<Update>, c: Ctl)
    requires Mirrors(h, c) && Uncrossed(h) && !c.state.WaitingSnapshot?
    ensures !Crossed(c.book)
  {
    var bids, asks := c.book.bids, c.book.asks;
    if bids != [] && asks != [] {
      assert bids[0] in bids && asks[0] in asks;
      assert bids[0].priceTick in BookAt(h, Bid, c.lastSeq) && asks[0].priceTick in BookAt(h, Ask, c.lastSeq);
    }
  }

  /**
   On an uncrossed exchange and without checksum enforcement, an authentic incremental makes
   the controller give up exactly when it starts beyond the expected sequence.
   */
  lemma ResyncOnlyOnGap(cfg: Config, h: seq<Update>, c: Ctl, m: Incremental)
    requires Inv(cfg, c) && Mirrors(h, c) && AuthenticInc(h, m) && Uncrossed(h)
    requires !cfg.allowSeqGap && cfg.checksumFn.None? && !(cfg.requireChecksum && cfg.hasChecksum)
    ensures OnIncrement(cfg, c, m).1.NeedResync? <==> !c.state.WaitingSnapshot? && m.firstSeq > c.expectedSeq
  {
    if !Outdated(c, m) && Applies(cfg, c, m) {
      AppliedMirrors(cfg, h, c, m);
      MirrorNotCrossed(h, WithApplied(cfg, c, m));
      AppliedValid(cfg, c.book, m);
    }
  }
}
