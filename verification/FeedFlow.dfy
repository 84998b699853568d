/**
 Nothing lost, invented or reordered between the socket and the controller. Arrivals and
 restarts are defined from the inputs and the state they meet, apart from what the handler
 does with them.
 */
module FeedFlow {
  import opened Options
  import opened OrderBooks
  import opened Controllers
  import CL = ControllerLaws
  import opened FeedHandlers
  import opened FeedLaws

  // ---- arrivals and restarts ----

  predicate Listening(s: FeedState) {
    s.WaitRestSnapshot? || s.WaitWsSnapshot? || s.WaitBridge? || s.FeedSynced?
  }

  /** The frame is a WS snapshot and this state wants one. */
  predicate TakenAsSnapshot(caps: Caps, s: FeedState, p: Payload) {
    IsWsSnapshot(p) && (s.WaitWsSnapshot? || ((s.WaitBridge? || s.FeedSynced?) && caps.wsSendsSnapshot))
  }

  /** The incremental that arrives with an input, if any. */
  function Arrival(caps: Caps, s: FeedState, i: Input): seq<Incremental> {
    if i.WsMessage? && Listening(s) && Parses(i.payload) && !TakenAsSnapshot(caps, s, i.payload)
    then [i.payload.inc.value]
    else []
  }

  /** The parsed incrementals among buffered frames, in order. */
  function ParsedOf(ps: seq<Payload>): seq<Incremental> {
    if ps == [] then []
    else (if Parses(ps[0]) then [ps[0].inc.value] else []) + ParsedOf(ps[1..])
  }

  /** The controller refuses one of these incrementals, applied in order. */
  predicate Refuses(cfg: Config, c: Ctl, incs: seq<Incremental>)
    decreases |incs|
  {
    incs != [] && (OnIncrement(cfg, c, incs[0]).1.NeedResync? || Refuses(cfg, OnIncrement(cfg, c, incs[0]).0, incs[1..]))
  }

  /** The snapshot is refused, or what was buffered does not continue it. */
  predicate RefusesBaseline(cfg: Config, c: Ctl, snap: Snapshot, kind: BaselineKind, incs: seq<Incremental>) {
    var (d, action) := OnSnapshot(cfg, c, snap, kind);
    action.NeedResync? || Refuses(cfg, d, incs)
  }

  /** A frame overflows the buffer or is refused by the controller. */
  predicate FrameRefused(caps: Caps, f: Feed, p: Payload) {
    if TakenAsSnapshot(caps, f.state, p) then
      RefusesBaseline(caps.ctl, f.ctl, p.snap.value, WsAuthoritative, if f.state.WaitWsSnapshot? then ParsedOf(f.buffer) else [])
    else
      && Listening(f.state) && p.isIncremental
      && if f.state.FeedSynced? || (f.state.WaitBridge? && !caps.restAnchored) then Refuses(caps.ctl, f.ctl, ParsedOf([p]))
         else |f.buffer| >= caps.maxBuffer || (f.state.WaitBridge? && Refuses(caps.ctl, f.ctl, ParsedOf(f.buffer + [p])))
  }

  /** The input is a reason to start over. */
  predicate GivesUp(caps: Caps, f: Feed, i: Input) {
    match i
    case WsMessage(p) => FrameRefused(caps, f, p)
    case WsClosed => !f.closingForRestart
    case RestFailed => true
    case RestBody(s) =>
      s.None? || RefusesBaseline(caps.ctl, f.ctl, s.value, if caps.restAnchored then RestAnchored else WsAuthoritative,
                                 ParsedOf(f.buffer))
    case BootstrapReply(ok) => !ok
    case StaleWatchdog => !(f.state.Disconnected? || f.state.Connecting? || f.state.Bootstrapping?)
    case _ => false
  }

  /** What has arrived since the last restart, in arrival order. */
  function Arrived(caps: Caps, ins: seq<Input>, n: nat): seq<Incremental>
    requires n <= |ins|
  {
    if n == 0 then []
    else
      var f, i := FeedAfter(caps, ins, n - 1), ins[n - 1];
      if GivesUp(caps, f, i) then [] else Arrived(caps, ins, n - 1) + Arrival(caps, f.state, i)
  }

  /** Length of the published stream at the last restart. */
  function Since(caps: Caps, ins: seq<Input>, n: nat): nat
    requires n <= |ins|
  {
    if n == 0 then 0
    else if GivesUp(caps, FeedAfter(caps, ins, n - 1), ins[n - 1]) then |FeedAfter(caps, ins, n).published|
    else Since(caps, ins, n - 1)
  }

  // ---- what was handed over ----

  /** The incrementals among published events, in order. */
  function HandedIn(es: seq<Event>): seq<Incremental> {
    if es == [] then []
    else HandedIn(es[..|es| - 1]) + if es[|es| - 1].IncrementalEvent? then [es[|es| - 1].inc] else []
  }

  function Handed(f: Feed, since: nat): seq<Incremental>
    requires since <= |f.published|
  {
    HandedIn(f.published[since..])
  }

  /** Handed over, then buffered. */
  function Flow(f: Feed, since: nat): seq<Incremental>
    requires since <= |f.published|
  {
    Handed(f, since) + ParsedOf(f.buffer)
  }

  // ---- list facts ----

  lemma {:induction false} ParsedAppend(ps: seq<Payload>, p: Payload)
    ensures ParsedOf(ps + [p]) == ParsedOf(ps) + ParsedOf([p])
  {
    if ps == [] {
      assert ps + [p] == [p];
    } else {
      var all := ps + [p];
      assert all[0] == ps[0] && all[1..] == ps[1..] + [p];
      ParsedAppend(ps[1..], p);
    }
  }

  lemma ParsedOne(p: Payload)
    ensures ParsedOf([p]) == if Parses(p) then [p.inc.value] else []
  {
    assert [p][1..] == [];
  }

  lemma RefusesOne(cfg: Config, c: Ctl, inc: Incremental)
    ensures Refuses(cfg, c, [inc]) <==> OnIncrement(cfg, c, inc).1.NeedResync?
  {
    assert [inc][1..] == [];
    assert !Refuses(cfg, OnIncrement(cfg, c, inc).0, []);
  }

  lemma PublishHanded(f: Feed, g: Feed, e: Event, since: nat)
    requires since <= |f.published| && g.published == f.published + [e]
    ensures Handed(g, since) == if e.IncrementalEvent? then Handed(f, since) + [e.inc] else Handed(f, since)
  {
    var es := f.published[since..];
    assert g.published[since..] == es + [e];
    assert (es + [e])[..|es|] == es;
  }

  /** `g` published more than `f`, but no incremental. */
  ghost predicate Quiet(f: Feed, g: Feed, since: nat) {
    && since <= |f.published| <= |g.published|
    && Handed(g, since) == Handed(f, since) && g.buffer == f.buffer && g.reconnectGen == f.reconnectGen
  }

  lemma SetStateQuiet(f: Feed, next: FeedState, since: nat)
    requires since <= |f.published|
    ensures Quiet(f, SetState(f, next), since)
  {
    if f.state != next {
      PublishHanded(f, SetState(f, next), StatusEvent(StatusOf(next)), since);
    }
  }

  lemma BookQuiet(caps: Caps, f: Feed, since: nat)
    requires since <= |f.published|
    ensures Quiet(f, MaybeBook(caps, f), since)
  {
    var g := MaybeBook(caps, f);
    if g.published != f.published {
      PublishHanded(f, g, BookStateEvent(f.ctl.lastSeq, TopLevels(f.ctl.book.bids, caps.bookTop),
                                         TopLevels(f.ctl.book.asks, caps.bookTop)), since);
    }
  }

  lemma LoadQuiet(caps: Caps, f: Feed, snap: Snapshot, kind: BaselineKind, since: nat)
    requires since <= |f.published|
    ensures Quiet(f, Load(caps, f, snap, kind).0, since)
  {
    PublishHanded(f, Load(caps, f, snap, kind).0, SnapshotEvent(snap), since);
  }

  /** Loaded and, if due, checkpointed. */
  lemma LoadedQuiet(caps: Caps, f: Feed, snap: Snapshot, kind: BaselineKind, since: nat)
    requires since <= |f.published|
    ensures Quiet(f, MaybeBook(caps, Load(caps, f, snap, kind).0), since)
  {
    LoadQuiet(caps, f, snap, kind, since);
    BookQuiet(caps, Load(caps, f, snap, kind).0, since);
  }

  // ---- handing over ----

  /** Started over: the generation moved on and nothing is buffered. */
  ghost predicate StartedOver(f: Feed, g: Feed) {
    g.reconnectGen == f.reconnectGen + 1 && g.buffer == [] && g.state.Connecting? && g.ctl == Reset(g.ctl)
  }

  lemma HandFlow(caps: Caps, f: Feed, inc: Incremental, since: nat)
    requires since <= |f.published|
    ensures var g := Hand(caps, f, inc);
            if OnIncrement(caps.ctl, f.ctl, inc).1.NeedResync? then StartedOver(f, g)
            else
              && since <= |g.published| && Handed(g, since) == Handed(f, since) + [inc]
              && g.buffer == f.buffer && g.reconnectGen == f.reconnectGen && g.ctl == OnIncrement(caps.ctl, f.ctl, inc).0
  {
    var (c, action) := OnIncrement(caps.ctl, f.ctl, inc);
    var g := f.(ctl := c, published := f.published + [IncrementalEvent(inc)]);
    PublishHanded(f, g, IncrementalEvent(inc), since);
    BookQuiet(caps, g, since);
  }

  /** The drain hands the whole buffer over in order, or starts over exactly when the controller refuses some of it. */
  lemma {:induction false} DrainFlow(caps: Caps, f: Feed, since: nat)
    requires since <= |f.published|
    ensures var g := Drain(caps, f);
            if Refuses(caps.ctl, f.ctl, ParsedOf(f.buffer)) then StartedOver(f, g)
            else
              && since <= |g.published| && Handed(g, since) == Handed(f, since) + ParsedOf(f.buffer)
              && g.buffer == [] && g.reconnectGen == f.reconnectGen
    decreases |f.buffer|
  {
    if f.buffer != [] {
      var g, p := f.(buffer := f.buffer[1..]), f.buffer[0];
      assert Handed(g, since) == Handed(f, since);
      if Parses(p) {
        var h := Hand(caps, g, p.inc.value);
        assert ParsedOf(f.buffer)[0] == p.inc.value && ParsedOf(f.buffer)[1..] == ParsedOf(g.buffer);
        HandFlow(caps, g, p.inc.value, since);
        if OnIncrement(caps.ctl, f.ctl, p.inc.value).1.NoAction? {
          DrainFlow(caps, h, since);
        }
      } else {
        assert ParsedOf(f.buffer) == ParsedOf(g.buffer);
        DrainFlow(caps, g, since);
      }
    }
  }

  lemma RestartsOver(f: Feed)
    ensures StartedOver(f, Restart(f))
  {
  }

  // ---- one input ----

  /** A step neither loses nor invents: it starts over exactly when there is reason to, or passes the arrival on. */
  ghost predicate Flows(f: Feed, g: Feed, over: bool, more: seq<Incremental>, since: nat) {
    since <= |f.published| &&
    if over then StartedOver(f, g)
    else since <= |g.published| && g.reconnectGen == f.reconnectGen && Flow(g, since) == Flow(f, since) + more
  }

  lemma QuietFlows(f: Feed, g: Feed, since: nat)
    requires Quiet(f, g, since)
    ensures Flows(f, g, false, [], since)
  {
    assert Flow(f, since) + [] == Flow(f, since);
  }

  /** A loaded baseline followed by the drain of what was buffered. */
  lemma BaselineFlow(caps: Caps, f: Feed, k: Feed, since: nat)
    requires Quiet(f, k, since)
    ensures Flows(f, SyncedIfBridged(Drain(caps, k)), Refuses(caps.ctl, k.ctl, ParsedOf(f.buffer)), [], since)
  {
    DrainFlow(caps, k, since);
    var d := Drain(caps, k);
    if !Refuses(caps.ctl, k.ctl, ParsedOf(f.buffer)) {
      SetStateQuiet(d, FeedSynced, since);
      assert Flow(f, since) + [] == Flow(f, since);
      assert Handed(d, since) + [] == Handed(d, since);
    }
  }

  lemma RestLoadedFlow(caps: Caps, f: Feed, snap: Snapshot, kind: BaselineKind, since: nat)
    requires since <= |f.published|
    ensures var (g, _) := Load(caps, f, snap, kind);
            Flows(f, SyncedIfBridged(Drain(caps, SetState(MaybeBook(caps, g), WaitBridge))),
                  Refuses(caps.ctl, g.ctl, ParsedOf(f.buffer)), [], since)
  {
    LoadedQuiet(caps, f, snap, kind, since);
    var k := MaybeBook(caps, Load(caps, f, snap, kind).0);
    SetStateQuiet(k, WaitBridge, since);
    BaselineFlow(caps, f, SetState(k, WaitBridge), since);
  }

  lemma RestBodyFlow(caps: Caps, f: Feed, i: Input, since: nat)
    requires since <= |f.published| && i.RestBody?
    ensures Flows(f, Step(caps, f, i), GivesUp(caps, f, i), [], since)
  {
    RestartsOver(f);
    if i.snap.Some? {
      var kind := if caps.restAnchored then RestAnchored else WsAuthoritative;
      RestartsOver(Load(caps, f, i.snap.value, kind).0);
      RestLoadedFlow(caps, f, i.snap.value, kind, since);
    }
  }

  lemma SnapshotFlow(caps: Caps, f: Feed, p: Payload, since: nat)
    requires since <= |f.published| && TakenAsSnapshot(caps, f.state, p)
    requires !f.state.WaitWsSnapshot? ==> f.buffer == []
    ensures Flows(f, OnWsMessage(caps, f, p), FrameRefused(caps, f, p), [], since)
  {
    var (g, action) := Load(caps, f, p.snap.value, WsAuthoritative);
    LoadedQuiet(caps, f, p.snap.value, WsAuthoritative, since);
    RestartsOver(g);
    if action.NoAction? {
      var k := MaybeBook(caps, g);
      if f.state.WaitWsSnapshot? {
        var w := k.(state := WaitBridge);
        assert Handed(w, since) == Handed(k, since);
        BaselineFlow(caps, f, w, since);
      } else {
        assert k == k.(buffer := []);
        SetStateQuiet(k, if k.ctl.state.Synced? then FeedSynced else WaitBridge, since);
        QuietFlows(f, OnWsMessage(caps, f, p), since);
      }
    }
  }

  lemma PushFlow(caps: Caps, f: Feed, p: Payload, since: nat)
    requires since <= |f.published|
    ensures Flows(f, Push(caps, f, p), |f.buffer| >= caps.maxBuffer, ParsedOf([p]), since)
  {
    RestartsOver(f);
    ParsedAppend(f.buffer, p);
    if |f.buffer| < caps.maxBuffer {
      var g := Push(caps, f, p);
      assert Handed(g, since) == Handed(f, since);
    }
  }

  /** Through the buffer while bridging from a REST baseline. */
  lemma BridgeFlow(caps: Caps, f: Feed, p: Payload, since: nat)
    requires since <= |f.published| && |f.buffer| < caps.maxBuffer
    ensures Flows(f, SyncedIfBridged(Drain(caps, Push(caps, f, p))), Refuses(caps.ctl, f.ctl, ParsedOf(f.buffer + [p])),
                  ParsedOf([p]), since)
  {
    PushFlow(caps, f, p, since);
    var g := Push(caps, f, p);
    BaselineFlow(caps, g, g, since);
    assert Flow(g, since) + [] == Flow(g, since);
  }

  /** Straight to the controller. */
  lemma DirectFlow(caps: Caps, f: Feed, p: Payload, since: nat)
    requires since <= |f.published| && Parses(p) && f.buffer == []
    ensures Flows(f, Hand(caps, f, p.inc.value), Refuses(caps.ctl, f.ctl, ParsedOf([p])), ParsedOf([p]), since)
  {
    ParsedOne(p);
    RefusesOne(caps.ctl, f.ctl, p.inc.value);
    HandFlow(caps, f, p.inc.value, since);
  }

  lemma BridgedFlow(f: Feed, g: Feed, over: bool, more: seq<Incremental>, since: nat)
    requires Flows(f, g, over, more, since)
    ensures Flows(f, SyncedIfBridged(g), over, more, since)
  {
    if over {
      assert Reset(g.ctl).state.WaitingSnapshot?;
    } else {
      SetStateQuiet(g, FeedSynced, since);
    }
  }

  lemma FrameFlow(caps: Caps, f: Feed, p: Payload, since: nat)
    requires FeedInv(caps, f) && since <= |f.published| && Listening(f.state) && !TakenAsSnapshot(caps, f.state, p)
    ensures Flows(f, OnWsMessage(caps, f, p), FrameRefused(caps, f, p), ParsedOf([p]), since)
  {
    ParsedOne(p);
    if !p.isIncremental {
      QuietFlows(f, f, since);
    } else if f.state.WaitRestSnapshot? || f.state.WaitWsSnapshot? {
      PushFlow(caps, f, p, since);
    } else if f.state.WaitBridge? && caps.restAnchored {
      RestartsOver(f);
      if |f.buffer| < caps.maxBuffer {
        BridgeFlow(caps, f, p, since);
      }
    } else if Parses(p) {
      DirectFlow(caps, f, p, since);
      BridgedFlow(f, Hand(caps, f, p.inc.value), Refuses(caps.ctl, f.ctl, ParsedOf([p])), ParsedOf([p]), since);
    } else {
      QuietFlows(f, f, since);
    }
  }

  lemma StepFlow(caps: Caps, f: Feed, i: Input, since: nat)
    requires FeedInv(caps, f) && since <= |f.published|
    ensures Flows(f, Step(caps, f, i), GivesUp(caps, f, i), Arrival(caps, f.state, i), since)
  {
    RestartsOver(f);
    QuietFlows(f, f, since);
    match i
    case WsMessage(p) =>
      if TakenAsSnapshot(caps, f.state, p) {
        SnapshotFlow(caps, f, p, since);
      } else if Listening(f.state) {
        ParsedOne(p);
        FrameFlow(caps, f, p, since);
      }
    case RestBody(_) => RestBodyFlow(caps, f, i, since);
    case WsOpen => StateFlow(f, if caps.restAnchored then WaitRestSnapshot else WaitWsSnapshot, since);
    case RetryTimer => StateFlow(f, WaitRestSnapshot, since);
    case ReconnectTimer(_) => StateFlow(f, if caps.requiresBootstrap then Bootstrapping else Connecting, since);
    case WsClosed => ClosedFlow(f, since);
    case _ =>
  }

  lemma StateFlow(f: Feed, next: FeedState, since: nat)
    requires since <= |f.published|
    ensures Flows(f, SetState(f, next), false, [], since)
  {
    SetStateQuiet(f, next, since);
    QuietFlows(f, SetState(f, next), since);
  }

  lemma ClosedFlow(f: Feed, since: nat)
    requires since <= |f.published|
    ensures Flows(f, f.(closingForRestart := false), false, [], since)
  {
    var g := f.(closingForRestart := false);
    assert Handed(g, since) == Handed(f, since);
    QuietFlows(f, g, since);
  }

  // ---- every run ----

  /** A step restarts the sync exactly when the input is a reason to, and then leaves nothing behind. */
  lemma RestartsExactly(caps: Caps, ins: seq<Input>, n: nat)
    requires n < |ins|
    ensures var f, g := FeedAfter(caps, ins, n), FeedAfter(caps, ins, n + 1);
            if GivesUp(caps, f, ins[n]) then StartedOver(f, g) else g.reconnectGen == f.reconnectGen
  {
    FeedInvAlways(caps, ins, n);
    StepFlow(caps, FeedAfter(caps, ins, n), ins[n], 0);
  }

  /**
   Over every interleaving of inputs: what was handed to the controller since the last restart,
   followed by what is still buffered, is exactly what has arrived since then, in arrival order.
   */
  lemma {:induction false} NothingLost(caps: Caps, ins: seq<Input>, n: nat)
    requires n <= |ins|
    ensures Since(caps, ins, n) <= |FeedAfter(caps, ins, n).published|
    ensures Flow(FeedAfter(caps, ins, n), Since(caps, ins, n)) == Arrived(caps, ins, n)
  {
    if n == 0 {
      StartFlow(caps);
    } else {
      NothingLost(caps, ins, n - 1);
      FeedInvAlways(caps, ins, n - 1);
      var f, i := FeedAfter(caps, ins, n - 1), ins[n - 1];
      StepFlow(caps, f, i, Since(caps, ins, n - 1));
      if GivesUp(caps, f, i) {
        NothingSince(Step(caps, f, i));
      }
    }
  }

  lemma NothingSince(g: Feed)
    requires g.buffer == []
    ensures Flow(g, |g.published|) == []
  {
    assert g.published[|g.published|..] == [];
  }

  lemma StartFlow(caps: Caps)
    ensures Flow(Started(caps), 0) == []
  {
    SetStateQuiet(IDLE.(state := Connecting), Bootstrapping, 0);
    NothingSince(IDLE.(state := Connecting));
  }

  // ---- bridging, opening, old timers ----

  /** Some increment goes beyond `seqNo`, or carries no sequence at all. */
  ghost predicate GoesBeyond(incs: seq<Incremental>, seqNo: nat) {
    exists inc :: inc in incs && (inc.lastSeq == 0 || inc.lastSeq > seqNo)
  }

  lemma BeyondSplit(incs: seq<Incremental>, seqNo: nat)
    requires incs != []
    ensures GoesBeyond(incs, seqNo) <==> incs[0].lastSeq == 0 || incs[0].lastSeq > seqNo || GoesBeyond(incs[1..], seqNo)
  {
    assert incs == [incs[0]] + incs[1..];
    assert incs[0] in incs;
  }

  /** Handing over keeps a synced controller synced, and syncs a waiting one exactly when the increment goes beyond its baseline. */
  lemma HandSyncs(caps: Caps, f: Feed, inc: Incremental)
    requires Core(caps, f) && !f.ctl.state.WaitingSnapshot? && OnIncrement(caps.ctl, f.ctl, inc).1.NoAction?
    ensures var g := Hand(caps, f, inc);
            && Core(caps, g) && g.state == f.state && g.buffer == f.buffer && !g.ctl.state.WaitingSnapshot?
            && (g.ctl.state.Synced? <==> f.ctl.state.Synced? || inc.lastSeq == 0 || inc.lastSeq > f.ctl.lastSeq)
            && (!g.ctl.state.Synced? ==> g.ctl == f.ctl)
  {
    CL.StepInv(caps.ctl, f.ctl, CL.IncrementMsg(inc));
    CL.AcceptedIncrement(caps.ctl, f.ctl, inc);
  }

  lemma {:induction false} DrainSyncs(caps: Caps, f: Feed)
    requires Core(caps, f) && !f.ctl.state.WaitingSnapshot? && !Refuses(caps.ctl, f.ctl, ParsedOf(f.buffer))
    ensures var g := Drain(caps, f);
            && g.state == f.state && !g.ctl.state.WaitingSnapshot?
            && (g.ctl.state.Synced? <==> f.ctl.state.Synced? || GoesBeyond(ParsedOf(f.buffer), f.ctl.lastSeq))
    decreases |f.buffer|
  {
    if f.buffer != [] {
      var g, p, incs := f.(buffer := f.buffer[1..]), f.buffer[0], ParsedOf(f.buffer);
      if Parses(p) {
        assert incs[0] == p.inc.value && incs[1..] == ParsedOf(g.buffer);
        BeyondSplit(incs, f.ctl.lastSeq);
        HandSyncs(caps, g, p.inc.value);
        HandFlow(caps, g, p.inc.value, 0);
        DrainSyncs(caps, Hand(caps, g, p.inc.value));
      } else {
        assert incs == ParsedOf(g.buffer);
        DrainSyncs(caps, g);
      }
    }
  }

  /**
   A REST baseline that is not refused leaves the handler waiting for the bridge, unless an
   increment buffered before it goes beyond it: exactly then it is synced at once.
   */
  lemma RestBaselineBridges(caps: Caps, f: Feed, snap: Snapshot)
    requires FeedInv(caps, f) && caps.restAnchored && !GivesUp(caps, f, RestBody(Some(snap)))
    ensures var g := Step(caps, f, RestBody(Some(snap)));
            g.state == if GoesBeyond(ParsedOf(f.buffer), snap.lastUpdateId) then FeedSynced else WaitBridge
  {
    var (l, _) := Load(caps, f, snap, RestAnchored);
    LoadKeeps(caps, f, snap, RestAnchored);
    CL.AcceptedSnapshot(caps.ctl, f.ctl, snap, RestAnchored);
    DrainSyncs(caps, SetState(MaybeBook(caps, l), WaitBridge));
  }

  /** An opened socket waits for the venue's kind of baseline, a retry for a REST one; a change of state is announced. */
  lemma OpenWaits(caps: Caps, ins: seq<Input>, n: nat)
    requires n < |ins| && (ins[n].WsOpen? || ins[n].RetryTimer?)
    ensures var f, g := FeedAfter(caps, ins, n), FeedAfter(caps, ins, n + 1);
            && (if caps.restAnchored || ins[n].RetryTimer? then g.state.WaitRestSnapshot? else g.state.WaitWsSnapshot?)
            && g.ctl == f.ctl && g.buffer == f.buffer
            && g.published == if g.state == f.state then f.published else f.published + [StatusEvent(IsResyncing)]
  {
  }

  /** The generation after each input, and which inputs start over. */
  ghost function Generations(caps: Caps, ins: seq<Input>): (gens: seq<nat>)
    ensures |gens| == |ins| + 1
  {
    seq(|ins| + 1, n requires 0 <= n <= |ins| => FeedAfter(caps, ins, n).reconnectGen)
  }

  ghost predicate Undisturbed(caps: Caps, ins: seq<Input>, k: nat) {
    k < |ins| && !GivesUp(caps, FeedAfter(caps, ins, k), ins[k])
  }

  ghost predicate GenerationStep(gens: seq<nat>, n: nat, same: bool) {
    n + 1 < |gens| && gens[n + 1] == if same then gens[n] else gens[n] + 1
  }

  ghost predicate NextGeneration(f: Feed, g: Feed, same: bool) {
    g.reconnectGen == if same then f.reconnectGen else f.reconnectGen + 1
  }

  lemma GenerationMoves(caps: Caps, f: Feed, x: Input)
    requires FeedInv(caps, f)
    ensures NextGeneration(f, Step(caps, f, x), !GivesUp(caps, f, x))
  {
    StepFlow(caps, f, x, 0);
  }

  lemma GenerationSteps(caps: Caps, ins: seq<Input>, n: nat)
    requires n < |ins|
    ensures GenerationStep(Generations(caps, ins), n, Undisturbed(caps, ins, n))
  {
    FeedInvAlways(caps, ins, n);
    GenerationMoves(caps, FeedAfter(caps, ins, n), ins[n]);
  }

  ghost predicate Steps(gens: seq<nat>, n: nat) {
    GenerationStep(gens, n, true) || GenerationStep(gens, n, false)
  }

  lemma {:induction false} StepsGrow(gens: seq<nat>, j: nat, n: nat)
    requires j <= n < |gens| && forall i :: j <= i < n ==> Steps(gens, i)
    ensures gens[j] <= gens[n]
    decreases n
  {
    if j < n {
      StepsGrow(gens, j, n - 1);
      assert Steps(gens, n - 1);
    }
  }

  lemma {:induction false} StepsStay(gens: seq<nat>, j: nat, n: nat)
    requires j <= n < |gens| && forall i :: j <= i < n ==> GenerationStep(gens, i, true)
    ensures gens[j] == gens[n]
    decreases n
  {
    if j < n {
      StepsStay(gens, j, n - 1);
      assert GenerationStep(gens, n - 1, true);
    }
  }

  lemma GenerationsGrow(caps: Caps, ins: seq<Input>, j: nat, n: nat)
    requires j <= n <= |ins|
    ensures Generations(caps, ins)[j] <= Generations(caps, ins)[n]
  {
    var gens := Generations(caps, ins);
    forall i | j <= i < n ensures Steps(gens, i) {
      GenerationSteps(caps, ins, i);
    }
    StepsGrow(gens, j, n);
  }

  lemma GenerationsPass(caps: Caps, ins: seq<Input>, j: nat, k: nat, n: nat)
    requires j <= k < n <= |ins| && !Undisturbed(caps, ins, k)
    ensures Generations(caps, ins)[j] < Generations(caps, ins)[n]
  {
    GenerationsGrow(caps, ins, j, k);
    GenerationSteps(caps, ins, k);
    GenerationsGrow(caps, ins, k + 1, n);
  }

  /** A reconnect timer set at one point does nothing once the sync has started over since. */
  lemma OldTimerIgnored(caps: Caps, ins: seq<Input>, j: nat, k: nat, n: nat)
    requires j <= k < n < |ins| && GivesUp(caps, FeedAfter(caps, ins, k), ins[k])
    requires ins[n] == ReconnectTimer(FeedAfter(caps, ins, j).reconnectGen)
    ensures FeedAfter(caps, ins, n + 1) == FeedAfter(caps, ins, n)
  {
    assert FeedAfter(caps, ins, n).reconnectGen != FeedAfter(caps, ins, j).reconnectGen by {
      GenerationsPass(caps, ins, j, k, n);
    }
  }

  /** The timer of the current generation does reconnect. */
  lemma CurrentTimerReconnects(caps: Caps, ins: seq<Input>, j: nat, n: nat)
    requires j <= n < |ins| && ins[n] == ReconnectTimer(FeedAfter(caps, ins, j).reconnectGen)
    requires forall k :: j <= k < n ==> Undisturbed(caps, ins, k)
    ensures FeedAfter(caps, ins, n + 1).state == if caps.requiresBootstrap then Bootstrapping else Connecting
  {
    var gens := Generations(caps, ins);
    forall i | j <= i < n ensures GenerationStep(gens, i, true) {
      assert Undisturbed(caps, ins, i);
      GenerationSteps(caps, ins, i);
    }
    StepsStay(gens, j, n);
  }

  // ---- how often checkpoints come ----

  /** Snapshots and incrementals published since the last checkpoint. */
  function DataSince(es: seq<Event>): nat {
    if es == [] || es[|es| - 1].BookStateEvent? then 0
    else DataSince(es[..|es| - 1]) + if es[|es| - 1].StatusEvent? then 0 else 1
  }

  /** Every checkpoint comes after at least `every` snapshots and incrementals since the one before. */
  ghost predicate Spaced(es: seq<Event>, every: nat) {
    es == [] || (Spaced(es[..|es| - 1], every) && (es[|es| - 1].BookStateEvent? ==> every > 0 && DataSince(es[..|es| - 1]) >= every))
  }

  /** The counter never runs ahead of the data published, nor up to the cadence. */
  ghost predicate Counted(caps: Caps, f: Feed) {
    && Spaced(f.published, caps.bookEvery) && f.updatesSinceBook <= DataSince(f.published)
    && (caps.bookEvery > 0 ==> f.updatesSinceBook < caps.bookEvery)
  }

  lemma PublishMore(es: seq<Event>, e: Event, every: nat)
    requires Spaced(es, every) && (e.BookStateEvent? ==> every > 0 && DataSince(es) >= every)
    ensures Spaced(es + [e], every)
    ensures DataSince(es + [e]) == if e.BookStateEvent? then 0 else if e.StatusEvent? then DataSince(es) else DataSince(es) + 1
  {
    assert (es + [e])[..|es|] == es;
  }

  lemma SetStateCounted(caps: Caps, f: Feed, next: FeedState)
    requires Counted(caps, f)
    ensures Counted(caps, SetState(f, next))
  {
    PublishMore(f.published, StatusEvent(StatusOf(next)), caps.bookEvery);
  }

  /** One snapshot or incremental published, then perhaps the checkpoint. */
  lemma UpdateCounted(caps: Caps, f: Feed, g: Feed, e: Event)
    requires Counted(caps, f) && (e.SnapshotEvent? || e.IncrementalEvent?)
    requires g.published == f.published + [e] && g.updatesSinceBook == f.updatesSinceBook
    ensures Counted(caps, g) && Counted(caps, MaybeBook(caps, g))
  {
    PublishMore(f.published, e, caps.bookEvery);
    if caps.bookEvery > 0 && g.updatesSinceBook + 1 >= caps.bookEvery {
      PublishMore(g.published, BookStateEvent(g.ctl.lastSeq, TopLevels(g.ctl.book.bids, caps.bookTop),
                                              TopLevels(g.ctl.book.asks, caps.bookTop)), caps.bookEvery);
    }
  }

  lemma HandCounted(caps: Caps, f: Feed, inc: Incremental)
    requires Counted(caps, f)
    ensures Counted(caps, Hand(caps, f, inc))
  {
    var g := f.(ctl := OnIncrement(caps.ctl, f.ctl, inc).0, published := f.published + [IncrementalEvent(inc)]);
    UpdateCounted(caps, f, g, IncrementalEvent(inc));
    SetStateCounted(caps, g.(buffer := [], ctl := Reset(g.ctl)), Connecting);
  }

  lemma {:induction false} DrainCounted(caps: Caps, f: Feed)
    requires Counted(caps, f)
    ensures Counted(caps, Drain(caps, f))
    decreases |f.buffer|
  {
    if f.buffer != [] {
      var g := f.(buffer := f.buffer[1..]);
      if Parses(f.buffer[0]) {
        HandCounted(caps, g, f.buffer[0].inc.value);
        HandShrinks(caps, g, f.buffer[0].inc.value);
        DrainCounted(caps, Hand(caps, g, f.buffer[0].inc.value));
      } else {
        DrainCounted(caps, g);
      }
    }
  }

  lemma HandShrinks(caps: Caps, f: Feed, inc: Incremental)
    ensures |Hand(caps, f, inc).buffer| <= |f.buffer|
  {
  }

  lemma LoadCounted(caps: Caps, f: Feed, snap: Snapshot, kind: BaselineKind)
    requires Counted(caps, f)
    ensures var (g, _) := Load(caps, f, snap, kind); Counted(caps, g) && Counted(caps, MaybeBook(caps, g))
  {
    UpdateCounted(caps, f, Load(caps, f, snap, kind).0, SnapshotEvent(snap));
  }

  lemma RestartCounted(caps: Caps, f: Feed)
    requires Counted(caps, f)
    ensures Counted(caps, Restart(f))
  {
    SetStateCounted(caps, f.(buffer := [], ctl := Reset(f.ctl)), Connecting);
  }

  lemma BaselineCounted(caps: Caps, k: Feed)
    requires Counted(caps, k)
    ensures Counted(caps, SyncedIfBridged(Drain(caps, k)))
  {
    DrainCounted(caps, k);
    SetStateCounted(caps, Drain(caps, k), FeedSynced);
  }

  lemma SnapshotCounted(caps: Caps, f: Feed, snap: Snapshot, kind: BaselineKind)
    requires Counted(caps, f)
    ensures var (g, _) := Load(caps, f, snap, kind);
            && Counted(caps, Restart(g))
            && Counted(caps, SyncedIfBridged(Drain(caps, SetState(MaybeBook(caps, g), WaitBridge))))
            && Counted(caps, SyncedIfBridged(Drain(caps, MaybeBook(caps, g).(state := WaitBridge))))
            && forall next :: Counted(caps, SetState(MaybeBook(caps, g).(buffer := []), next))
  {
    var g := Load(caps, f, snap, kind).0;
    LoadCounted(caps, f, snap, kind);
    RestartCounted(caps, g);
    var k := MaybeBook(caps, g);
    SetStateCounted(caps, k, WaitBridge);
    BaselineCounted(caps, SetState(k, WaitBridge));
    BaselineCounted(caps, k.(state := WaitBridge));
    forall next ensures Counted(caps, SetState(k.(buffer := []), next)) {
      SetStateCounted(caps, k.(buffer := []), next);
    }
  }

  lemma BaselineFrameCounted(caps: Caps, f: Feed, p: Payload)
    requires Counted(caps, f) && TakenAsSnapshot(caps, f.state, p)
    ensures Counted(caps, OnWsMessage(caps, f, p))
  {
    SnapshotCounted(caps, f, p.snap.value, WsAuthoritative);
  }

  lemma DirectFrameCounted(caps: Caps, f: Feed, p: Payload)
    requires Counted(caps, f) && Parses(p)
    ensures Counted(caps, Hand(caps, f, p.inc.value)) && Counted(caps, SyncedIfBridged(Hand(caps, f, p.inc.value)))
  {
    HandCounted(caps, f, p.inc.value);
    SetStateCounted(caps, Hand(caps, f, p.inc.value), FeedSynced);
  }

  lemma FrameCounted(caps: Caps, f: Feed, p: Payload)
    requires Counted(caps, f)
    ensures Counted(caps, OnWsMessage(caps, f, p))
  {
    RestartCounted(caps, f);
    if TakenAsSnapshot(caps, f.state, p) {
      BaselineFrameCounted(caps, f, p);
    } else if f.state.WaitBridge? && caps.restAnchored {
      if |f.buffer| < caps.maxBuffer {
        BaselineCounted(caps, Push(caps, f, p));
      }
    } else if (f.state.WaitBridge? || f.state.FeedSynced?) && Parses(p) {
      DirectFrameCounted(caps, f, p);
    }
  }

  lemma StepCounted(caps: Caps, f: Feed, i: Input)
    requires Counted(caps, f)
    ensures Counted(caps, Step(caps, f, i))
  {
    RestartCounted(caps, f);
    match i
    case WsMessage(p) => FrameCounted(caps, f, p);
    case RestBody(s) =>
      if s.Some? {
        SnapshotCounted(caps, f, s.value, if caps.restAnchored then RestAnchored else WsAuthoritative);
      }
    case WsOpen => SetStateCounted(caps, f, if caps.restAnchored then WaitRestSnapshot else WaitWsSnapshot);
    case RetryTimer => SetStateCounted(caps, f, WaitRestSnapshot);
    case ReconnectTimer(_) => SetStateCounted(caps, f, if caps.requiresBootstrap then Bootstrapping else Connecting);
    case _ =>
  }

  /** Over every run, a checkpoint comes only after at least the configured number of snapshots and incrementals since the last. */
  lemma {:induction false} CheckpointsSpaced(caps: Caps, ins: seq<Input>, n: nat)
    requires n <= |ins|
    ensures Counted(caps, FeedAfter(caps, ins, n))
  {
    if n == 0 {
      SetStateCounted(caps, IDLE.(state := Connecting), Bootstrapping);
    } else {
      CheckpointsSpaced(caps, ins, n - 1);
      StepCounted(caps, FeedAfter(caps, ins, n - 1), ins[n - 1]);
    }
  }

  /** And no later: a synced update that completes the number is followed by its checkpoint at once. */
  lemma CheckpointDue(caps: Caps, f: Feed)
    requires f.ctl.state.Synced? && caps.bookTop > 0 && f.updatesSinceBook + 1 == caps.bookEvery
    ensures var g := MaybeBook(caps, f);
            |g.published| == |f.published| + 1 && g.published[|f.published|].BookStateEvent? && g.updatesSinceBook == 0
  {
  }
}
