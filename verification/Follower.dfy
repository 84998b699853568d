/**
 Feed and brain together: the brain consumes, without loss, the stream a gap-intolerant feed
 publishes while it follows an honest exchange. Nothing the brain may use is ever a phantom.
 */
module Follower {
  import opened Options
  import opened OrderBooks
  import opened BoundedBook
  import opened Controllers
  import CL = ControllerLaws
  import opened Replica
  import opened FeedHandlers
  import opened FeedLaws
  import opened Brain

  /** Prices on the exchange are positive and lots never negative. */
  ghost predicate Positive(h: seq<Update>) {
    forall i :: 0 <= i < |h| ==> h[i].level.priceTick > 0 && h[i].level.quantityLot >= 0
  }

  /** Each level is one of the writes `lo` up to `hi` of that side. */
  ghost predicate WritesOf(h: seq<Update>, s: Side, lo: nat, hi: nat, ls: seq<Level>) {
    forall l :: l in ls ==> exists i :: lo <= i < hi <= |h| && h[i] == Update(s, l)
  }

  /** An incremental of the exchange: made of writes of its range, the last one per price counting. */
  ghost predicate HonestInc(h: seq<Update>, m: Incremental) {
    && AuthenticInc(h, m)
    && WritesOf(h, Bid, m.firstSeq - 1, m.lastSeq, m.bids) && WritesOf(h, Ask, m.firstSeq - 1, m.lastSeq, m.asks)
  }

  ghost predicate HonestPayload(h: seq<Update>, p: Payload) {
    && (Parses(p) ==> HonestInc(h, p.inc.value))
    && (IsWsSnapshot(p) ==> AuthenticSnap(h, p.snap.value))
  }

  ghost predicate Honest(h: seq<Update>, i: Input) {
    match i
    case WsMessage(p) => HonestPayload(h, p)
    case RestBody(s) => s.Some? ==> AuthenticSnap(h, s.value)
    case _ => true
  }

  // ---- what an exchange sends, the brain can parse ----

  lemma {:induction false} BookPositive(h: seq<Update>, s: Side, n: nat)
    requires n <= |h| && Positive(h)
    ensures forall t :: t in BookAt(h, s, n) ==> t > 0 && BookAt(h, s, n)[t] > 0
  {
    if n != 0 {
      BookPositive(h, s, n - 1);
    }
  }

  lemma IncrementParses(h: seq<Update>, m: Incremental)
    requires Positive(h) && HonestInc(h, m)
    ensures EventParses(IncrementalEvent(m))
  {
    WritesParse(h, Bid, m.firstSeq - 1, m.lastSeq, m.bids);
    WritesParse(h, Ask, m.firstSeq - 1, m.lastSeq, m.asks);
  }

  lemma WritesParse(h: seq<Update>, s: Side, lo: nat, hi: nat, ls: seq<Level>)
    requires Positive(h) && WritesOf(h, s, lo, hi, ls)
    ensures LevelsParse(ls)
  {
    forall l | l in ls ensures LevelParses(l) {
      var i :| lo <= i < hi <= |h| && h[i] == Update(s, l);
    }
  }

  lemma SnapshotParses(h: seq<Update>, m: Snapshot)
    requires Positive(h) && AuthenticSnap(h, m)
    ensures EventParses(SnapshotEvent(m))
  {
    BookPositive(h, Bid, m.lastUpdateId);
    BookPositive(h, Ask, m.lastUpdateId);
  }

  // ---- feed and brain in step ----

  /** The brain's venue against the feed's controller, once the whole stream is consumed. */
  ghost predicate Linked(h: seq<Update>, depth: nat, c: Ctl, b: VenueBook) {
    && Mirrors(h, c)
    && CL.Inv(BrainConfig(depth), b.ctl)
    && !b.ctl.state.WaitingBridge?
    && (b.Synced() ==> Mirrors(h, b.ctl))
    && (!c.state.WaitingSnapshot? && b.ctl.state.Synced? ==> b.ctl.lastSeq == c.lastSeq && Mirrors(h, b.ctl))
    && (!c.state.WaitingSnapshot? && Uncrossed(h) ==> b.ctl.state.Synced?)
  }

  // ---- one event on the pair (feed controller, brain venue) ----

  lemma StatusLinked(h: seq<Update>, depth: nat, c: Ctl, b: VenueBook, s: FeedStatus)
    requires Linked(h, depth, c, b) && !s.IsDisconnected?
    ensures Linked(h, depth, c, OnEvent(depth, b, StatusEvent(s)))
  {
    CL.StepInv(BrainConfig(depth), b.ctl, CL.ResetMsg);
  }

  lemma SnapshotLinked(h: seq<Update>, cfg: Config, depth: nat, c: Ctl, b: VenueBook, s: Snapshot, kind: BaselineKind)
    requires Linked(h, depth, c, b) && AuthenticSnap(h, s) && EventParses(SnapshotEvent(s))
    ensures Linked(h, depth, OnSnapshot(cfg, c, s, kind).0, OnEvent(depth, b, SnapshotEvent(s)))
  {
    SnapshotMirrors(cfg, h, c, s, kind);
    SnapshotMirrors(BrainConfig(depth), h, b.ctl, s, WsAuthoritative);
    CL.StepInv(BrainConfig(depth), b.ctl, CL.SnapshotMsg(s, WsAuthoritative));
  }

  /** An incremental the feed can use keeps the two in step, whether or not a guard then rejects it. */
  lemma IncrementLinked(h: seq<Update>, cfg: Config, depth: nat, c: Ctl, b: VenueBook, i: Incremental)
    requires Linked(h, depth, c, b) && CL.Inv(cfg, c) && !c.state.WaitingSnapshot? && !cfg.allowSeqGap
    requires AuthenticInc(h, i) && EventParses(IncrementalEvent(i)) && i.firstSeq <= c.expectedSeq
    ensures Linked(h, depth, OnIncrement(cfg, c, i).0, OnEvent(depth, b, IncrementalEvent(i)))
  {
    IncrementMirrors(cfg, h, c, i);
    CL.StepInv(BrainConfig(depth), b.ctl, CL.IncrementMsg(i));
    if b.ctl.state.Synced? {
      IncrementMirrors(BrainConfig(depth), h, b.ctl, i);
      if Uncrossed(h) {
        VenueAdvances(h, depth, b, i);
      }
    }
  }

  /**
   On an uncrossed exchange, a venue that consumes an increment in reach stays synced and usable,
   and is at the end of that increment if that is news.
   */
  lemma VenueAdvances(h: seq<Update>, depth: nat, b: VenueBook, i: Incremental)
    requires CL.Inv(BrainConfig(depth), b.ctl) && b.ctl.state.Synced? && Mirrors(h, b.ctl) && Uncrossed(h)
    requires AuthenticInc(h, i) && EventParses(IncrementalEvent(i)) && i.firstSeq <= b.ctl.lastSeq + 1
    ensures var b' := OnEvent(depth, b, IncrementalEvent(i));
            && b'.Synced() && Mirrors(h, b'.ctl)
            && b'.ctl.lastSeq == if i.lastSeq > b.ctl.lastSeq then i.lastSeq else b.ctl.lastSeq
  {
    IncrementMirrors(BrainConfig(depth), h, b.ctl, i);
    if i.lastSeq > b.ctl.lastSeq {
      AppliedMirrors(BrainConfig(depth), h, b.ctl, i);
      MirrorNotCrossed(h, WithApplied(BrainConfig(depth), b.ctl, i));
    }
  }

  ghost predicate OutOfReach(b: VenueBook, e: Event) {
    e.IncrementalEvent? && b.ctl.state.Synced? && e.inc.firstSeq > b.ctl.expectedSeq
  }

  /** The venue after an out-of-reach increment: usable or not, and a mirror exactly when nothing stale was left behind. */
  lemma GapExact(h: seq<Update>, depth: nat, b: VenueBook, i: Incremental)
    requires CL.Inv(BrainConfig(depth), b.ctl) && AuthenticInc(h, i) && EventParses(IncrementalEvent(i))
    requires OutOfReach(b, IncrementalEvent(i)) && Mirrors(h, b.ctl)
    ensures var b' := OnEvent(depth, b, IncrementalEvent(i));
            b'.Synced() ==> (Mirrors(h, b'.ctl) <==> !LeavesStale(h, b'.ctl.book, i))
  {
    AppliedExactly(BrainConfig(depth), h, b.ctl, i);
  }

  /** An incremental beyond a gap makes the feed give up; the brain swallows it, and the status event follows. */
  lemma GapLinked(h: seq<Update>, cfg: Config, depth: nat, c: Ctl, b: VenueBook, i: Incremental)
    requires Linked(h, depth, c, b) && CL.Inv(cfg, c) && !c.state.WaitingSnapshot? && !cfg.allowSeqGap
    requires AuthenticInc(h, i) && EventParses(IncrementalEvent(i)) && i.firstSeq > c.expectedSeq
    ensures OnIncrement(cfg, c, i) == (Reset(c), NeedResync)
    ensures var b' := OnEvent(depth, b, IncrementalEvent(i));
            && (b'.Synced() ==> OutOfReach(b, IncrementalEvent(i)))
            && Linked(h, depth, Reset(c), OnEvent(depth, b', StatusEvent(IsResyncing)))
  {
    CL.StepInv(BrainConfig(depth), b.ctl, CL.IncrementMsg(i));
  }

  lemma {:induction false} TopLevelsSubset(v: seq<Level>, n: nat)
    ensures forall l :: l in TopLevels(v, n) ==> l in v && !l.IsEmpty()
  {
    if !(n == 0 || v == [] || v[0].IsEmpty()) {
      TopLevelsSubset(v[1..], n - 1);
    }
  }

  lemma CheckpointLinked(h: seq<Update>, depth: nat, c: Ctl, b: VenueBook, top: nat)
    requires Linked(h, depth, c, b) && c.state.Synced? && Positive(h)
    ensures var e := BookStateEvent(c.lastSeq, TopLevels(c.book.bids, top), TopLevels(c.book.asks, top));
            EventParses(e) && Linked(h, depth, c, OnEvent(depth, b, e))
  {
    var bids, asks := TopLevels(c.book.bids, top), TopLevels(c.book.asks, top);
    TopLevelsSubset(c.book.bids, top);
    TopLevelsSubset(c.book.asks, top);
    BookPositive(h, Bid, c.lastSeq);
    BookPositive(h, Ask, c.lastSeq);
    SnapshotMirrors(BrainConfig(depth), h, b.ctl, Checkpoint(c.lastSeq, bids, asks), WsAuthoritative);
    CL.StepInv(BrainConfig(depth), b.ctl, CL.SnapshotMsg(Checkpoint(c.lastSeq, bids, asks), WsAuthoritative));
  }

  // ---- the stream ----

  /** The last of the first `k` events was an incremental beyond a gap that left a stale level in the book. */
  ghost predicate StaleAt(h: seq<Update>, depth: nat, b0: VenueBook, es: seq<Event>, k: nat)
    requires k <= |es|
  {
    && 0 < k && OutOfReach(VenueAfter(depth, b0, es, k - 1), es[k - 1])
    && 1 <= es[k - 1].inc.firstSeq <= |h|
    && LeavesStale(h, VenueAfter(depth, b0, es, k).ctl.book, es[k - 1].inc)
  }

  /**
   After `k` events: a usable venue mirrors the exchange if and only if it was not just left
   stale, and in that case the very next event is a status that makes the venue unusable.
   */
  ghost predicate SafeAt(h: seq<Update>, depth: nat, b0: VenueBook, es: seq<Event>, k: nat)
    requires k <= |es|
  {
    var b := VenueAfter(depth, b0, es, k);
    b.Synced() ==>
      && (Mirrors(h, b.ctl) <==> !StaleAt(h, depth, b0, es, k))
      && (StaleAt(h, depth, b0, es, k) ==> k < |es| && es[k].StatusEvent?)
  }

  ghost predicate AllSafe(h: seq<Update>, depth: nat, b0: VenueBook, es: seq<Event>) {
    forall k: nat :: k <= |es| ==> SafeAt(h, depth, b0, es, k)
  }

  ghost predicate AllParse(es: seq<Event>) {
    forall e :: e in es ==> EventParses(e)
  }

  ghost predicate Follows(h: seq<Update>, depth: nat, b0: VenueBook, c: Ctl, es: seq<Event>) {
    AllSafe(h, depth, b0, es) && AllParse(es) && Linked(h, depth, c, VenueAfter(depth, b0, es, |es|))
  }

  lemma SafeExtends(h: seq<Update>, depth: nat, b0: VenueBook, es: seq<Event>, more: seq<Event>, k: nat)
    requires k <= |es| && SafeAt(h, depth, b0, es, k)
    ensures SafeAt(h, depth, b0, es + more, k)
  {
    var fs := es + more;
    assert es[..k] == fs[..k];
    PrefixAfter(depth, b0, es, fs, k);
    if 0 < k {
      assert es[..k - 1] == fs[..k - 1];
      PrefixAfter(depth, b0, es, fs, k - 1);
    }
  }

  lemma AfterExtends(depth: nat, b0: VenueBook, es: seq<Event>, e: Event)
    ensures VenueAfter(depth, b0, es + [e], |es| + 1) == OnEvent(depth, VenueAfter(depth, b0, es, |es|), e)
  {
    assert es[..|es|] == (es + [e])[..|es|];
    PrefixAfter(depth, b0, es, es + [e], |es|);
  }

  lemma BeforeExtends(depth: nat, b0: VenueBook, es: seq<Event>, e: Event)
    ensures VenueAfter(depth, b0, es + [e], |es|) == VenueAfter(depth, b0, es, |es|)
  {
    assert es[..|es|] == (es + [e])[..|es|];
    PrefixAfter(depth, b0, es, es + [e], |es|);
  }

  /** One more event, after which the pair is linked again. */
  lemma FollowsEvent(h: seq<Update>, depth: nat, b0: VenueBook, c: Ctl, es: seq<Event>, c': Ctl, e: Event)
    requires Follows(h, depth, b0, c, es)
    requires Linked(h, depth, c', OnEvent(depth, VenueAfter(depth, b0, es, |es|), e))
    requires !OutOfReach(VenueAfter(depth, b0, es, |es|), e) && EventParses(e)
    ensures Follows(h, depth, b0, c', es + [e])
  {
    AfterExtends(depth, b0, es, e);
    forall k: nat | k <= |es + [e]| ensures SafeAt(h, depth, b0, es + [e], k) {
      if k <= |es| {
        SafeExtends(h, depth, b0, es, [e], k);
      } else {
        SafeLast(h, depth, b0, c', es, e);
      }
    }
  }

  lemma SafeLast(h: seq<Update>, depth: nat, b0: VenueBook, c': Ctl, es: seq<Event>, e: Event)
    requires Linked(h, depth, c', OnEvent(depth, VenueAfter(depth, b0, es, |es|), e))
    requires !OutOfReach(VenueAfter(depth, b0, es, |es|), e)
    ensures SafeAt(h, depth, b0, es + [e], |es| + 1)
  {
    AfterExtends(depth, b0, es, e);
    BeforeExtends(depth, b0, es, e);
  }

  /** Two more events, the second a status, of which the first may leave an unusable increment in the book. */
  lemma FollowsPair(h: seq<Update>, depth: nat, b0: VenueBook, c: Ctl, es: seq<Event>, c': Ctl, e: Event, s: Event)
    requires Follows(h, depth, b0, c, es) && s.StatusEvent? && e.IncrementalEvent? && 1 <= e.inc.firstSeq <= |h| && EventParses(e)
    requires var b := VenueAfter(depth, b0, es, |es|);
             var b' := OnEvent(depth, b, e);
             && (b'.Synced() ==> OutOfReach(b, e) && (Mirrors(h, b'.ctl) <==> !LeavesStale(h, b'.ctl.book, e.inc)))
             && Linked(h, depth, c', OnEvent(depth, OnEvent(depth, b, e), s))
    ensures Follows(h, depth, b0, c', es + [e] + [s])
  {
    var fs := es + [e];
    var gs := fs + [s];
    AfterExtends(depth, b0, es, e);
    AfterExtends(depth, b0, fs, s);
    forall k: nat | k <= |gs| ensures SafeAt(h, depth, b0, gs, k) {
      if k <= |es| {
        SafeExtends(h, depth, b0, es, [e] + [s], k);
        assert gs == es + ([e] + [s]);
      } else if k == |fs| {
        PairMiddle(depth, b0, es, e, s);
      }
    }
  }

  lemma PairMiddle(depth: nat, b0: VenueBook, es: seq<Event>, e: Event, s: Event)
    ensures var gs, b := es + [e] + [s], VenueAfter(depth, b0, es, |es|);
            VenueAfter(depth, b0, gs, |es|) == b && VenueAfter(depth, b0, gs, |es| + 1) == OnEvent(depth, b, e)
  {
    var fs := es + [e];
    var gs := fs + [s];
    assert gs[..|es|] == es[..|es|];
    PrefixAfter(depth, b0, es, gs, |es|);
  }

  /** The pair of events of a gap: the unusable increment and the status that follows it. */
  lemma FollowsGap(h: seq<Update>, cfg: Config, depth: nat, b0: VenueBook, c: Ctl, es: seq<Event>, i: Incremental)
    requires Follows(h, depth, b0, c, es) && CL.Inv(cfg, c) && !c.state.WaitingSnapshot? && !cfg.allowSeqGap
    requires AuthenticInc(h, i) && EventParses(IncrementalEvent(i)) && i.firstSeq > c.expectedSeq
    ensures Follows(h, depth, b0, Reset(c), es + [IncrementalEvent(i)] + [StatusEvent(IsResyncing)])
  {
    var b := VenueAfter(depth, b0, es, |es|);
    GapLinked(h, cfg, depth, c, b, i);
    if OutOfReach(b, IncrementalEvent(i)) {
      GapExact(h, depth, b, i);
    }
    FollowsPair(h, depth, b0, c, es, Reset(c), IncrementalEvent(i), StatusEvent(IsResyncing));
  }

  // ---- the handler ----

  ghost predicate HonestBuffer(h: seq<Update>, f: Feed) {
    forall p :: p in f.buffer ==> HonestPayload(h, p)
  }

  ghost predicate FeedFollows(h: seq<Update>, depth: nat, b0: VenueBook, f: Feed) {
    Follows(h, depth, b0, f.ctl, f.published) && HonestBuffer(h, f)
  }

  lemma SetStateFollows(h: seq<Update>, depth: nat, b0: VenueBook, f: Feed, next: FeedState)
    requires FeedFollows(h, depth, b0, f) && !next.Disconnected?
    ensures FeedFollows(h, depth, b0, SetState(f, next))
  {
    var e := StatusEvent(StatusOf(next));
    StatusLinked(h, depth, f.ctl, VenueAfter(depth, b0, f.published, |f.published|), StatusOf(next));
    FollowsEvent(h, depth, b0, f.ctl, f.published, f.ctl, e);
  }

  lemma MaybeBookFollows(h: seq<Update>, caps: Caps, depth: nat, b0: VenueBook, f: Feed)
    requires FeedFollows(h, depth, b0, f) && Positive(h)
    ensures FeedFollows(h, depth, b0, MaybeBook(caps, f))
  {
    if f.ctl.state.Synced? {
      var b := VenueAfter(depth, b0, f.published, |f.published|);
      CheckpointLinked(h, depth, f.ctl, b, caps.bookTop);
      FollowsEvent(h, depth, b0, f.ctl, f.published, f.ctl,
                   BookStateEvent(f.ctl.lastSeq, TopLevels(f.ctl.book.bids, caps.bookTop),
                                  TopLevels(f.ctl.book.asks, caps.bookTop)));
    }
  }

  lemma RestartFollows(h: seq<Update>, depth: nat, b0: VenueBook, f: Feed)
    requires FeedFollows(h, depth, b0, f)
    ensures FeedFollows(h, depth, b0, Restart(f))
  {
    var g := f.(buffer := [], ctl := Reset(f.ctl));
    assert Follows(h, depth, b0, g.ctl, g.published);
    SetStateFollows(h, depth, b0, g, Connecting);
  }

  lemma HandFollows(h: seq<Update>, caps: Caps, depth: nat, b0: VenueBook, f: Feed, i: Incremental)
    requires FeedFollows(h, depth, b0, f) && Positive(h) && !caps.ctl.allowSeqGap
    requires CL.Inv(caps.ctl, f.ctl) && !f.ctl.state.WaitingSnapshot? && (f.state.WaitBridge? || f.state.FeedSynced?)
    requires HonestInc(h, i)
    ensures FeedFollows(h, depth, b0, Hand(caps, f, i))
  {
    IncrementParses(h, i);
    var (c, action) := OnIncrement(caps.ctl, f.ctl, i);
    var g := f.(ctl := c, published := f.published + [IncrementalEvent(i)]);
    if i.firstSeq > f.ctl.expectedSeq {
      FollowsGap(h, caps.ctl, depth, b0, f.ctl, f.published, i);
      GapLinked(h, caps.ctl, depth, f.ctl, VenueAfter(depth, b0, f.published, |f.published|), i);
      assert Restart(g).published == f.published + [IncrementalEvent(i)] + [StatusEvent(IsResyncing)];
    } else {
      IncrementLinked(h, caps.ctl, depth, f.ctl, VenueAfter(depth, b0, f.published, |f.published|), i);
      FollowsEvent(h, depth, b0, f.ctl, f.published, c, IncrementalEvent(i));
      if action.NeedResync? {
        RestartFollows(h, depth, b0, g);
      } else {
        MaybeBookFollows(h, caps, depth, b0, g);
      }
    }
  }

  lemma {:induction false} DrainFollows(h: seq<Update>, caps: Caps, depth: nat, b0: VenueBook, f: Feed)
    requires FeedFollows(h, depth, b0, f) && Positive(h) && !caps.ctl.allowSeqGap && Core(caps, f)
    requires f.buffer != [] ==> !f.ctl.state.WaitingSnapshot? && f.state.WaitBridge?
    ensures FeedFollows(h, depth, b0, Drain(caps, f))
    decreases |f.buffer|
  {
    if f.buffer != [] {
      var g := f.(buffer := f.buffer[1..]);
      assert f.buffer[0] in f.buffer;
      assert FeedFollows(h, depth, b0, g);
      if Parses(f.buffer[0]) {
        var i := f.buffer[0].inc.value;
        HandKeeps(caps, g, i);
        HandFollows(h, caps, depth, b0, g, i);
        DrainFollows(h, caps, depth, b0, Hand(caps, g, i));
      } else {
        DrainFollows(h, caps, depth, b0, g);
      }
    }
  }

  lemma LoadFollows(h: seq<Update>, caps: Caps, depth: nat, b0: VenueBook, f: Feed, s: Snapshot, kind: BaselineKind)
    requires FeedFollows(h, depth, b0, f) && Positive(h) && AuthenticSnap(h, s)
    ensures FeedFollows(h, depth, b0, Load(caps, f, s, kind).0)
  {
    SnapshotParses(h, s);
    SnapshotLinked(h, caps.ctl, depth, f.ctl, VenueAfter(depth, b0, f.published, |f.published|), s, kind);
    FollowsEvent(h, depth, b0, f.ctl, f.published, OnSnapshot(caps.ctl, f.ctl, s, kind).0, SnapshotEvent(s));
  }

  lemma SyncedFollows(h: seq<Update>, depth: nat, b0: VenueBook, f: Feed)
    requires FeedFollows(h, depth, b0, f)
    ensures FeedFollows(h, depth, b0, SyncedIfBridged(f))
  {
    SetStateFollows(h, depth, b0, f, FeedSynced);
  }

  /** A baseline in place: drain what was buffered, then announce. */
  lemma DrainedFollows(h: seq<Update>, caps: Caps, depth: nat, b0: VenueBook, k: Feed)
    requires FeedFollows(h, depth, b0, k) && Positive(h) && !caps.ctl.allowSeqGap && Core(caps, k)
    requires !k.ctl.state.WaitingSnapshot? && k.state.WaitBridge?
    ensures FeedFollows(h, depth, b0, SyncedIfBridged(Drain(caps, k)))
  {
    DrainFollows(h, caps, depth, b0, k);
    SyncedFollows(h, depth, b0, Drain(caps, k));
  }

  lemma RestLoadedFollows(h: seq<Update>, caps: Caps, depth: nat, b0: VenueBook, g: Feed)
    requires FeedFollows(h, depth, b0, g) && Positive(h) && !caps.ctl.allowSeqGap && Core(caps, g)
    requires !g.ctl.state.WaitingSnapshot?
    ensures FeedFollows(h, depth, b0, SyncedIfBridged(Drain(caps, SetState(MaybeBook(caps, g), WaitBridge))))
  {
    MaybeBookFollows(h, caps, depth, b0, g);
    SetStateFollows(h, depth, b0, MaybeBook(caps, g), WaitBridge);
    DrainedFollows(h, caps, depth, b0, SetState(MaybeBook(caps, g), WaitBridge));
  }

  lemma RestBodyFollows(h: seq<Update>, caps: Caps, depth: nat, b0: VenueBook, f: Feed, s: Snapshot)
    requires FeedFollows(h, depth, b0, f) && FeedInv(caps, f) && Positive(h) && !caps.ctl.allowSeqGap
    requires AuthenticSnap(h, s)
    ensures FeedFollows(h, depth, b0, OnRestBody(caps, f, Some(s)))
  {
    var kind := if caps.restAnchored then RestAnchored else WsAuthoritative;
    LoadFollows(h, caps, depth, b0, f, s, kind);
    LoadKeeps(caps, f, s, kind);
    var (g, action) := Load(caps, f, s, kind);
    if action.NeedResync? {
      RestartFollows(h, depth, b0, g);
    } else {
      RestLoadedFollows(h, caps, depth, b0, g);
    }
  }

  lemma BaselineFollows(h: seq<Update>, caps: Caps, depth: nat, b0: VenueBook, f: Feed, p: Payload)
    requires FeedFollows(h, depth, b0, f) && FeedInv(caps, f) && Positive(h) && !caps.ctl.allowSeqGap
    requires IsWsSnapshot(p) && HonestPayload(h, p)
    ensures FeedFollows(h, depth, b0, OnBaseline(caps, f, p))
  {
    LoadFollows(h, caps, depth, b0, f, p.snap.value, WsAuthoritative);
    LoadKeeps(caps, f, p.snap.value, WsAuthoritative);
    var (g, action) := Load(caps, f, p.snap.value, WsAuthoritative);
    if action.NeedResync? {
      RestartFollows(h, depth, b0, g);
    } else {
      MaybeBookFollows(h, caps, depth, b0, g);
      var k := MaybeBook(caps, g).(state := WaitBridge);
      assert FeedFollows(h, depth, b0, k);
      DrainedFollows(h, caps, depth, b0, k);
    }
  }

  lemma InterruptFollows(h: seq<Update>, caps: Caps, depth: nat, b0: VenueBook, f: Feed, p: Payload)
    requires FeedFollows(h, depth, b0, f) && Positive(h) && IsWsSnapshot(p) && HonestPayload(h, p)
    ensures FeedFollows(h, depth, b0, OnInterruptingSnapshot(caps, f, p))
  {
    LoadFollows(h, caps, depth, b0, f, p.snap.value, WsAuthoritative);
    var (g, action) := Load(caps, f, p.snap.value, WsAuthoritative);
    if action.NeedResync? {
      RestartFollows(h, depth, b0, g);
    } else {
      MaybeBookFollows(h, caps, depth, b0, g);
      var k := MaybeBook(caps, g).(buffer := []);
      assert FeedFollows(h, depth, b0, k);
      SetStateFollows(h, depth, b0, k, if k.ctl.state.Synced? then FeedSynced else WaitBridge);
    }
  }

  lemma PushFollows(h: seq<Update>, caps: Caps, depth: nat, b0: VenueBook, f: Feed, p: Payload)
    requires FeedFollows(h, depth, b0, f) && HonestPayload(h, p)
    ensures FeedFollows(h, depth, b0, Push(caps, f, p))
  {
    RestartFollows(h, depth, b0, f);
  }

  lemma WsMessageFollows(h: seq<Update>, caps: Caps, depth: nat, b0: VenueBook, f: Feed, p: Payload)
    requires FeedFollows(h, depth, b0, f) && FeedInv(caps, f) && Positive(h) && !caps.ctl.allowSeqGap
    requires HonestPayload(h, p)
    ensures FeedFollows(h, depth, b0, OnWsMessage(caps, f, p))
  {
    PushFollows(h, caps, depth, b0, f, p);
    if f.state.WaitWsSnapshot? && IsWsSnapshot(p) {
      BaselineFollows(h, caps, depth, b0, f, p);
    } else if f.state.WaitBridge? || f.state.FeedSynced? {
      if caps.wsSendsSnapshot && IsWsSnapshot(p) {
        InterruptFollows(h, caps, depth, b0, f, p);
      } else if f.state.WaitBridge? && caps.restAnchored {
        if p.isIncremental && |f.buffer| < caps.maxBuffer {
          DrainFollows(h, caps, depth, b0, Push(caps, f, p));
          SyncedFollows(h, depth, b0, Drain(caps, Push(caps, f, p)));
        }
      } else if Parses(p) {
        HandFollows(h, caps, depth, b0, f, p.inc.value);
        SyncedFollows(h, depth, b0, Hand(caps, f, p.inc.value));
      }
    }
  }

  lemma StepFollows(h: seq<Update>, caps: Caps, depth: nat, b0: VenueBook, f: Feed, i: Input)
    requires FeedFollows(h, depth, b0, f) && FeedInv(caps, f) && Positive(h) && !caps.ctl.allowSeqGap && Honest(h, i)
    ensures FeedFollows(h, depth, b0, Step(caps, f, i))
  {
    RestartFollows(h, depth, b0, f);
    match i
    case WsMessage(p) => WsMessageFollows(h, caps, depth, b0, f, p);
    case RestBody(s) =>
      if s.Some? {
        RestBodyFollows(h, caps, depth, b0, f, s.value);
      }
    case WsOpen => SetStateFollows(h, depth, b0, f, if caps.restAnchored then WaitRestSnapshot else WaitWsSnapshot);
    case RetryTimer => SetStateFollows(h, depth, b0, f, WaitRestSnapshot);
    case ReconnectTimer(_) => SetStateFollows(h, depth, b0, f, if caps.requiresBootstrap then Bootstrapping else Connecting);
    case _ =>
  }

  lemma {:induction false} FollowsAlways(h: seq<Update>, caps: Caps, depth: nat, b0: VenueBook, ins: seq<Input>, n: nat)
    requires n <= |ins| && Positive(h) && !caps.ctl.allowSeqGap && b0.ctl == START && !b0.feedHealthy
    requires forall i :: 0 <= i < n ==> Honest(h, ins[i])
    ensures FeedFollows(h, depth, b0, FeedAfter(caps, ins, n))
  {
    if n == 0 {
      var f := IDLE.(state := Connecting);
      assert VenueAfter(depth, b0, f.published, 0) == b0;
      assert FeedFollows(h, depth, b0, f);
      SetStateFollows(h, depth, b0, f, Bootstrapping);
    } else {
      FollowsAlways(h, caps, depth, b0, ins, n - 1);
      FeedInvAlways(caps, ins, n - 1);
      assert Honest(h, ins[n - 1]);
      StepFollows(h, caps, depth, b0, FeedAfter(caps, ins, n - 1), ins[n - 1]);
    }
  }

  /**
   Brain as follower, over every run of the feed on honest inputs and every prefix of the
   stream it published: a usable venue's book is part of the exchange's book at its applied
   sequence if and only if the event just consumed was not an incremental beyond a gap that
   left a stale level behind, and then the next event on the stream is a status that makes the
   venue unusable. Once the brain has caught up with the stream there is no exception.
   */
  lemma BrainNeverPhantom(h: seq<Update>, caps: Caps, depth: nat, venue: string, symbol: string,
                          ins: seq<Input>, n: nat, k: nat)
    requires n <= |ins| && Positive(h) && !caps.ctl.allowSeqGap
    requires forall i :: 0 <= i < n ==> Honest(h, ins[i])
    requires k <= |FeedAfter(caps, ins, n).published|
    ensures var es, b0 := FeedAfter(caps, ins, n).published, NewVenue(venue, symbol);
            var b := VenueAfter(depth, b0, es, k);
            && SafeAt(h, depth, b0, es, k)
            && (k == |es| && b.Synced() ==> Mirrors(h, b.ctl))
            && (0 < k && es[k - 1].StatusEvent? ==> !b.Synced())
            && Mirrors(h, FeedAfter(caps, ins, n).ctl)
  {
    FollowsAlways(h, caps, depth, NewVenue(venue, symbol), ins, n);
  }

  /** An event that parses makes the venue healthy if it carries data, and unhealthy if it is a status. */
  lemma EventHealth(depth: nat, b: VenueBook, e: Event)
    requires EventParses(e)
    ensures OnEvent(depth, b, e).feedHealthy <==> !e.StatusEvent?
  {
  }

  /**
   The brain keeps up: on an uncrossed exchange, whenever the feed has a baseline and the brain
   has consumed what was published, the brain's book is synced at the feed's applied sequence and
   part of the exchange's book there, and the venue is usable unless the last event was a status.
   */
  lemma BrainKeepsUp(h: seq<Update>, caps: Caps, depth: nat, venue: string, symbol: string, ins: seq<Input>, n: nat)
    requires n <= |ins| && Positive(h) && Uncrossed(h) && !caps.ctl.allowSeqGap
    requires forall i :: 0 <= i < n ==> Honest(h, ins[i])
    requires !FeedAfter(caps, ins, n).ctl.state.WaitingSnapshot?
    ensures var f := FeedAfter(caps, ins, n);
            var es := f.published;
            var b := VenueAfter(depth, NewVenue(venue, symbol), es, |es|);
            && b.ctl.state.Synced? && b.ctl.lastSeq == f.ctl.lastSeq && Mirrors(h, b.ctl)
            && (b.Synced() <==> es != [] && !es[|es| - 1].StatusEvent?)
  {
    FollowsAlways(h, caps, depth, NewVenue(venue, symbol), ins, n);
    var es := FeedAfter(caps, ins, n).published;
    if es != [] {
      assert es[|es| - 1] in es;
      EventHealth(depth, VenueAfter(depth, NewVenue(venue, symbol), es, |es| - 1), es[|es| - 1]);
    }
  }

  // ---- the exception is real ----

  const HISTORY := [Update(Bid, Level(10, 1)), Update(Bid, Level(10, 0)), Update(Ask, Level(20, 1))]
  const FIRST := Snapshot(1, 0, [Level(10, 1)], [])
  const BEYOND := Incremental(3, 3, 0, [], [Level(20, 1)])
  const PLAIN := Caps(Config(5, false, 0, false, false, None), false, false, false, 10, 0, 0)
  const INPUTS := [WsOpen, WsMessage(Payload(false, None, true, Some(FIRST))), WsMessage(Payload(true, Some(BEYOND), false, None))]
  const STREAM := [StatusEvent(IsResyncing), SnapshotEvent(FIRST), StatusEvent(IsSynced), IncrementalEvent(BEYOND),
                   StatusEvent(IsResyncing)]

  /** The history bids 10, withdraws it, then asks 20. */
  lemma HistoryBooks()
    ensures BookAt(HISTORY, Bid, 0) == BookAt(HISTORY, Bid, 2) == BookAt(HISTORY, Bid, 3) == map[]
    ensures BookAt(HISTORY, Ask, 0) == BookAt(HISTORY, Ask, 1) == BookAt(HISTORY, Ask, 2) == map[]
    ensures BookAt(HISTORY, Bid, 1) == map[10 := 1] && BookAt(HISTORY, Ask, 3) == map[20 := 1]
  {
    assert BookAt(HISTORY, Bid, 1) == map[10 := 1];
  }

  /** The inputs are honest and the exchange is never crossed. */
  lemma HonestInputs()
    ensures Positive(HISTORY) && Uncrossed(HISTORY) && forall i :: 0 <= i < |INPUTS| ==> Honest(HISTORY, INPUTS[i])
  {
    HistoryBooks();
    assert Touched(HISTORY, Bid, 2, 3) == map[] && Touched(HISTORY, Ask, 2, 3) == map[20 := 1];
    assert Net(BEYOND.bids, 0) == map[] && Net(BEYOND.asks, 1) == map[20 := 1];
    assert HISTORY[2] == Update(Ask, Level(20, 1));
    assert HonestInc(HISTORY, BEYOND);
    assert AuthenticSnap(HISTORY, FIRST);
  }

  lemma LoadedFirst(depth: nat)
    requires depth > 0
    ensures UpdateAll(Bid, [], depth, Baseline(Bid, FIRST.bids)) == [Level(10, 1)]
    ensures UpdateAll(Ask, [], depth, Baseline(Ask, FIRST.asks)) == []
  {
    assert Baseline(Bid, FIRST.bids) == [Level(10, 1)];
    assert UpdateFirst(Bid, [], depth, [Level(10, 1)], 0) == [];
  }

  /** What the feed publishes on these inputs. */
  lemma PublishedStream()
    ensures FeedAfter(PLAIN, INPUTS, 3).published == STREAM
  {
    var f1, f2 := FeedAfter(PLAIN, INPUTS, 1), FeedAfter(PLAIN, INPUTS, 2);
    assert FeedAfter(PLAIN, INPUTS, 0) == IDLE.(state := Connecting);
    assert f1.state.WaitWsSnapshot? && f1.published == STREAM[..1] && f1.buffer == [];
    var (g, a) := Load(PLAIN, f1, FIRST, WsAuthoritative);
    assert a.NoAction? && g.published == STREAM[..2] && g.ctl.expectedSeq == 2 && g.ctl.state.Synced?;
    var w := g.(state := WaitBridge);
    assert MaybeBook(PLAIN, g) == g && Drain(PLAIN, w) == w;
    assert f2 == SetState(w, FeedSynced);
    assert f2.published == STREAM[..3];
    assert OnIncrement(PLAIN.ctl, f2.ctl, BEYOND).1.NeedResync?;
    assert FeedAfter(PLAIN, INPUTS, 3) == Hand(PLAIN, f2, BEYOND);
  }

  /** The venue after the fourth event offers the withdrawn bid. */
  lemma StaleVenue()
    ensures var b := VenueAfter(5, NewVenue("v", "s"), STREAM, 4);
            b.Synced() && b.ctl.lastSeq == 3 && b.ctl.book == Book([Level(10, 1)], [Level(20, 1)])
  {
    var b0 := NewVenue("v", "s");
    LoadedFirst(5);
    var b2, b3 := VenueAfter(5, b0, STREAM, 2), VenueAfter(5, b0, STREAM, 3);
    assert VenueAfter(5, b0, STREAM, 1) == b0;
    assert b2.ctl.book == Book([Level(10, 1)], []) && b2.ctl.state.Synced? && b2.ctl.lastSeq == 1;
    assert b3 == b2.(feedHealthy := false);
    assert UpdateAll(Ask, [], 5, BEYOND.asks) == [Level(20, 1)];
  }

  /** A run of the feed on honest inputs after whose fourth event the brain offers a bid the exchange has withdrawn. */
  lemma GapExposesPhantom()
    ensures Positive(HISTORY) && Uncrossed(HISTORY) && forall i :: 0 <= i < |INPUTS| ==> Honest(HISTORY, INPUTS[i])
    ensures FeedAfter(PLAIN, INPUTS, 3).published == STREAM
    ensures var b := VenueAfter(5, NewVenue("v", "s"), STREAM, 4);
            && b.Synced() && b.ctl.lastSeq == 3 && !Mirrors(HISTORY, b.ctl)
            && Level(10, 1) in b.ctl.book.bids && 10 !in BookAt(HISTORY, Bid, 3)
  {
    HonestInputs();
    PublishedStream();
    StaleVenue();
    HistoryBooks();
  }
}
