/**
 What a consumer of the published stream can tell from its status events, and which closes of
 the socket the handler takes for its own.
 */
module FeedStatus {
  import opened Options
  import opened Controllers
  import opened FeedHandlers
  import opened FeedFlow

  /** The status most recently published. */
  function LastStatus(es: seq<Event>): Option<FeedStatus> {
    if es == [] then None
    else if es[|es| - 1].StatusEvent? then Some(es[|es| - 1].status)
    else LastStatus(es[..|es| - 1])
  }

  /** The stream says "synced" exactly when the handler is, and never "disconnected" while it runs. */
  ghost predicate Told(f: Feed) {
    && (f.state.FeedSynced? <==> LastStatus(f.published) == Some(IsSynced))
    && LastStatus(f.published) != Some(IsDisconnected)
  }

  /** A move of the handler: what was told stays told, and only a restart touches the closing flag. */
  ghost predicate Turns(f: Feed, g: Feed) {
    && (Told(f) ==> Told(g)) && f.reconnectGen <= g.reconnectGen
    && g.closingForRestart == (g.reconnectGen > f.reconnectGen || f.closingForRestart)
  }

  lemma LastStatusMore(es: seq<Event>, e: Event)
    ensures LastStatus(es + [e]) == if e.StatusEvent? then Some(e.status) else LastStatus(es)
  {
    assert (es + [e])[..|es|] == es;
  }

  lemma SetStateTurns(f: Feed, next: FeedState)
    requires !next.Disconnected?
    ensures Turns(f, SetState(f, next))
  {
    LastStatusMore(f.published, StatusEvent(StatusOf(next)));
  }

  lemma MaybeBookTurns(caps: Caps, f: Feed)
    ensures Turns(f, MaybeBook(caps, f))
  {
    LastStatusMore(f.published, BookStateEvent(f.ctl.lastSeq, TopLevels(f.ctl.book.bids, caps.bookTop),
                                               TopLevels(f.ctl.book.asks, caps.bookTop)));
  }

  lemma RestartTurns(f: Feed)
    ensures Turns(f, Restart(f))
  {
    SetStateTurns(f.(buffer := [], ctl := Reset(f.ctl)), Connecting);
  }

  lemma HandTurns(caps: Caps, f: Feed, inc: Incremental)
    ensures Turns(f, Hand(caps, f, inc))
  {
    LastStatusMore(f.published, IncrementalEvent(inc));
    var g := f.(ctl := OnIncrement(caps.ctl, f.ctl, inc).0, published := f.published + [IncrementalEvent(inc)]);
    RestartTurns(g);
    MaybeBookTurns(caps, g);
  }

  lemma {:induction false} DrainTurns(caps: Caps, f: Feed)
    ensures Turns(f, Drain(caps, f))
    decreases |f.buffer|
  {
    if f.buffer != [] {
      var g := f.(buffer := f.buffer[1..]);
      if Parses(f.buffer[0]) {
        HandTurns(caps, g, f.buffer[0].inc.value);
        HandShrinks(caps, g, f.buffer[0].inc.value);
        DrainTurns(caps, Hand(caps, g, f.buffer[0].inc.value));
      } else {
        DrainTurns(caps, g);
      }
    }
  }

  lemma DrainedTurns(caps: Caps, f: Feed)
    ensures Turns(f, SyncedIfBridged(Drain(caps, f)))
  {
    DrainTurns(caps, f);
    SetStateTurns(Drain(caps, f), FeedSynced);
  }

  lemma LoadTurns(caps: Caps, f: Feed, snap: Snapshot, kind: BaselineKind)
    ensures var g := Load(caps, f, snap, kind).0;
            Turns(f, g) && Turns(f, MaybeBook(caps, g)) && Turns(f, Restart(g)) && MaybeBook(caps, g).state == f.state
  {
    LastStatusMore(f.published, SnapshotEvent(snap));
    var g := Load(caps, f, snap, kind).0;
    MaybeBookTurns(caps, g);
    RestartTurns(g);
  }

  lemma RestBodyTurns(caps: Caps, f: Feed, snap: Option<Snapshot>)
    ensures Turns(f, OnRestBody(caps, f, snap))
  {
    RestartTurns(f);
    if snap.Some? {
      var kind := if caps.restAnchored then RestAnchored else WsAuthoritative;
      LoadTurns(caps, f, snap.value, kind);
      var k := MaybeBook(caps, Load(caps, f, snap.value, kind).0);
      SetStateTurns(k, WaitBridge);
      DrainedTurns(caps, SetState(k, WaitBridge));
    }
  }

  /** The baseline of an authoritative feed moves the handler on without a status of its own. */
  lemma BaselineTurns(caps: Caps, f: Feed, p: Payload)
    requires IsWsSnapshot(p) && f.state.WaitWsSnapshot?
    ensures Turns(f, OnBaseline(caps, f, p))
  {
    LoadTurns(caps, f, p.snap.value, WsAuthoritative);
    DrainedTurns(caps, MaybeBook(caps, Load(caps, f, p.snap.value, WsAuthoritative).0).(state := WaitBridge));
  }

  lemma InterruptTurns(caps: Caps, f: Feed, p: Payload)
    requires IsWsSnapshot(p)
    ensures Turns(f, OnInterruptingSnapshot(caps, f, p))
  {
    LoadTurns(caps, f, p.snap.value, WsAuthoritative);
    var k := MaybeBook(caps, Load(caps, f, p.snap.value, WsAuthoritative).0).(buffer := []);
    SetStateTurns(k, FeedSynced);
    SetStateTurns(k, WaitBridge);
  }

  lemma FrameTurns(caps: Caps, f: Feed, p: Payload)
    ensures Turns(f, OnWsMessage(caps, f, p))
  {
    RestartTurns(f);
    if TakenAsSnapshot(caps, f.state, p) {
      if f.state.WaitWsSnapshot? {
        BaselineTurns(caps, f, p);
      } else {
        InterruptTurns(caps, f, p);
      }
    } else if f.state.WaitBridge? && caps.restAnchored {
      DrainedTurns(caps, Push(caps, f, p));
    } else if (f.state.WaitBridge? || f.state.FeedSynced?) && Parses(p) {
      HandTurns(caps, f, p.inc.value);
      SetStateTurns(Hand(caps, f, p.inc.value), FeedSynced);
    }
  }

  lemma StepTurns(caps: Caps, f: Feed, i: Input)
    requires !i.WsClosed?
    ensures Turns(f, Step(caps, f, i))
  {
    RestartTurns(f);
    match i
    case WsMessage(p) => FrameTurns(caps, f, p);
    case RestBody(s) => RestBodyTurns(caps, f, s);
    case WsOpen => SetStateTurns(f, if caps.restAnchored then WaitRestSnapshot else WaitWsSnapshot);
    case RetryTimer => SetStateTurns(f, WaitRestSnapshot);
    case ReconnectTimer(_) => SetStateTurns(f, if caps.requiresBootstrap then Bootstrapping else Connecting);
    case _ =>
  }

  lemma StepTold(caps: Caps, f: Feed, i: Input)
    requires Told(f)
    ensures Told(Step(caps, f, i))
  {
    if i.WsClosed? {
      RestartTurns(f);
    } else {
      StepTurns(caps, f, i);
    }
  }

  /** Over every run, the last status on the published stream says "synced" if and only if the handler is synced. */
  lemma {:induction false} StatusTold(caps: Caps, ins: seq<Input>, n: nat)
    requires n <= |ins|
    ensures Told(FeedAfter(caps, ins, n))
  {
    if n == 0 {
      SetStateTurns(IDLE.(state := Connecting), Bootstrapping);
    } else {
      StatusTold(caps, ins, n - 1);
      StepTold(caps, FeedAfter(caps, ins, n - 1), ins[n - 1]);
    }
  }

  // ---- closes ----

  /** A restart came with or since the last close, so the handler takes the next close for its own. */
  ghost function CloseExpected(caps: Caps, ins: seq<Input>, n: nat): bool
    requires n <= |ins|
  {
    n != 0 && (GivesUp(caps, FeedAfter(caps, ins, n - 1), ins[n - 1]) || (!ins[n - 1].WsClosed? && CloseExpected(caps, ins, n - 1)))
  }

  lemma StepExpects(caps: Caps, ins: seq<Input>, n: nat)
    requires n < |ins|
    ensures FeedAfter(caps, ins, n + 1).closingForRestart ==
            (GivesUp(caps, FeedAfter(caps, ins, n), ins[n]) || (!ins[n].WsClosed? && FeedAfter(caps, ins, n).closingForRestart))
  {
    var f := FeedAfter(caps, ins, n);
    RestartsExactly(caps, ins, n);
    if !ins[n].WsClosed? {
      StepTurns(caps, f, ins[n]);
    }
  }

  /** The flag says just that. */
  lemma {:induction false} ClosingExactly(caps: Caps, ins: seq<Input>, n: nat)
    requires n <= |ins|
    ensures FeedAfter(caps, ins, n).closingForRestart == CloseExpected(caps, ins, n)
  {
    if n != 0 {
      ClosingExactly(caps, ins, n - 1);
      StepExpects(caps, ins, n - 1);
    }
  }

  lemma CloseStep(caps: Caps, f: Feed)
    ensures var g := Step(caps, f, WsClosed); if f.closingForRestart then g == f.(closingForRestart := false) else StartedOver(f, g)
  {
  }

  /** Over every run, a close restarts the sync if and only if no restart came with or since the close before it. */
  lemma CloseExactly(caps: Caps, ins: seq<Input>, n: nat)
    requires n < |ins| && ins[n].WsClosed?
    ensures var f, g := FeedAfter(caps, ins, n), FeedAfter(caps, ins, n + 1);
            if CloseExpected(caps, ins, n) then g == f.(closingForRestart := false) else StartedOver(f, g)
  {
    ClosingExactly(caps, ins, n);
    CloseStep(caps, FeedAfter(caps, ins, n));
  }
}
