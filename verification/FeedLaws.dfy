/** What the state of the feed handler satisfies over every interleaving of its inputs. */
module FeedLaws {
  import opened OrderBooks
  import opened Controllers
  import CL = ControllerLaws
  import opened FeedHandlers

  ghost predicate Core(caps: Caps, f: Feed) {
    CL.Inv(caps.ctl, f.ctl) && |f.buffer| <= caps.maxBuffer
  }

  ghost predicate FeedInv(caps: Caps, f: Feed) {
    && Core(caps, f)
    && (f.state.FeedSynced? ==> f.ctl.state.Synced?)
    && (f.state.WaitBridge? ==> f.ctl.state.WaitingBridge?)
    && (f.state.WaitBridge? || f.state.FeedSynced? ==> f.buffer == [])
  }

  /** Restarting: nothing buffered, nothing loaded. */
  ghost predicate Cleared(caps: Caps, f: Feed) {
    FeedInv(caps, f) && f.state.Connecting? && f.buffer == [] && f.ctl.state.WaitingSnapshot?
  }

  // ---- one building block at a time ----

  lemma RestartInv(caps: Caps, f: Feed)
    requires CL.Inv(caps.ctl, f.ctl)
    ensures Cleared(caps, Restart(f))
  {
  }

  /** Handing one incremental over. */
  lemma HandKeeps(caps: Caps, f: Feed, inc: Incremental)
    requires Core(caps, f) && !f.ctl.state.WaitingSnapshot?
    ensures var g := Hand(caps, f, inc);
            || Cleared(caps, g)
            || (Core(caps, g) && g.state == f.state && g.buffer == f.buffer && !g.ctl.state.WaitingSnapshot?
                && (f.ctl.state.Synced? ==> g.ctl.state.Synced?))
  {
    var (c, action) := OnIncrement(caps.ctl, f.ctl, inc);
    CL.StepInv(caps.ctl, f.ctl, CL.IncrementMsg(inc));
    if action.NeedResync? {
      RestartInv(caps, f.(ctl := c, published := f.published + [IncrementalEvent(inc)]));
    } else {
      CL.AcceptedIncrement(caps.ctl, f.ctl, inc);
    }
  }

  /** Draining empties the buffer, with or without a restart on the way. */
  lemma {:induction false} DrainKeeps(caps: Caps, f: Feed)
    requires Core(caps, f) && (f.buffer != [] ==> !f.ctl.state.WaitingSnapshot?)
    ensures var g := Drain(caps, f);
            && Core(caps, g) && g.buffer == []
            && ((g.state.Connecting? && g.ctl.state.WaitingSnapshot?)
                || (g.state == f.state && (!f.ctl.state.WaitingSnapshot? ==> !g.ctl.state.WaitingSnapshot?)))
    decreases |f.buffer|
  {
    if f.buffer != [] {
      var g := f.(buffer := f.buffer[1..]);
      if Parses(f.buffer[0]) {
        HandKeeps(caps, g, f.buffer[0].inc.value);
        DrainKeeps(caps, Hand(caps, g, f.buffer[0].inc.value));
      } else {
        DrainKeeps(caps, g);
      }
    }
  }

  lemma LoadKeeps(caps: Caps, f: Feed, snap: Snapshot, kind: BaselineKind)
    requires Core(caps, f)
    ensures var (g, action) := Load(caps, f, snap, kind);
            && Core(caps, g) && g.state == f.state && g.buffer == f.buffer
            && (action.NoAction? ==> !g.ctl.state.WaitingSnapshot? && (kind.WsAuthoritative? ==> g.ctl.state.Synced?))
  {
    CL.StepInv(caps.ctl, f.ctl, CL.SnapshotMsg(snap, kind));
  }

  lemma SyncedKeeps(caps: Caps, f: Feed)
    requires Core(caps, f) && f.buffer == []
    requires (f.state.Connecting? && f.ctl.state.WaitingSnapshot?) || (f.state.WaitBridge? && !f.ctl.state.WaitingSnapshot?)
    ensures FeedInv(caps, SyncedIfBridged(f))
  {
  }

  // ---- one input at a time ----

  lemma RestBodyKeeps(caps: Caps, f: Feed, i: Input)
    requires FeedInv(caps, f) && i.RestBody?
    ensures FeedInv(caps, Step(caps, f, i))
  {
    if i.snap.None? {
      RestartInv(caps, f);
    } else {
      var kind := if caps.restAnchored then RestAnchored else WsAuthoritative;
      LoadKeeps(caps, f, i.snap.value, kind);
      var (g, action) := Load(caps, f, i.snap.value, kind);
      if action.NeedResync? {
        RestartInv(caps, g);
      } else {
        var k := SetState(MaybeBook(caps, g), WaitBridge);
        DrainKeeps(caps, k);
        SyncedKeeps(caps, Drain(caps, k));
      }
    }
  }

  lemma BaselineKeeps(caps: Caps, f: Feed, p: Payload)
    requires FeedInv(caps, f) && IsWsSnapshot(p)
    ensures FeedInv(caps, OnBaseline(caps, f, p))
  {
    LoadKeeps(caps, f, p.snap.value, WsAuthoritative);
    var (g, action) := Load(caps, f, p.snap.value, WsAuthoritative);
    if action.NeedResync? {
      RestartInv(caps, g);
    } else {
      var k := MaybeBook(caps, g).(state := WaitBridge);
      DrainKeeps(caps, k);
      SyncedKeeps(caps, Drain(caps, k));
    }
  }

  lemma InterruptKeeps(caps: Caps, f: Feed, p: Payload)
    requires FeedInv(caps, f) && IsWsSnapshot(p)
    ensures FeedInv(caps, OnInterruptingSnapshot(caps, f, p))
  {
    LoadKeeps(caps, f, p.snap.value, WsAuthoritative);
    var (g, action) := Load(caps, f, p.snap.value, WsAuthoritative);
    if action.NeedResync? {
      RestartInv(caps, g);
    }
  }

  /** A frame while bridging from a REST baseline: through the buffer. */
  lemma BridgingKeeps(caps: Caps, f: Feed, p: Payload)
    requires FeedInv(caps, f) && f.state.WaitBridge? && |f.buffer| < caps.maxBuffer
    ensures FeedInv(caps, SyncedIfBridged(Drain(caps, Push(caps, f, p))))
  {
    DrainKeeps(caps, Push(caps, f, p));
    SyncedKeeps(caps, Drain(caps, Push(caps, f, p)));
  }

  lemma WsMessageKeeps(caps: Caps, f: Feed, p: Payload)
    requires FeedInv(caps, f)
    ensures FeedInv(caps, OnWsMessage(caps, f, p))
  {
    RestartInv(caps, f);
    if f.state.WaitWsSnapshot? && IsWsSnapshot(p) {
      BaselineKeeps(caps, f, p);
    } else if f.state.WaitBridge? || f.state.FeedSynced? {
      if caps.wsSendsSnapshot && IsWsSnapshot(p) {
        InterruptKeeps(caps, f, p);
      } else if f.state.WaitBridge? && caps.restAnchored {
        if |f.buffer| < caps.maxBuffer {
          BridgingKeeps(caps, f, p);
        }
      } else if Parses(p) {
        HandKeeps(caps, f, p.inc.value);
        if f.state.WaitBridge? {
          SyncedKeeps(caps, Hand(caps, f, p.inc.value));
        }
      }
    }
  }

  lemma StepKeeps(caps: Caps, f: Feed, i: Input)
    requires FeedInv(caps, f)
    ensures FeedInv(caps, Step(caps, f, i))
  {
    RestartInv(caps, f);
    match i
    case WsMessage(p) => WsMessageKeeps(caps, f, p);
    case RestBody(_) => RestBodyKeeps(caps, f, i);
    case _ =>
  }

  /**
   Over every run: SYNCED means the controller is synced, WAIT_BRIDGE means a baseline is
   loaded and its bridge still missing, and the buffer respects its cap and is empty once a
   baseline is in use.
   */
  lemma {:induction false} FeedInvAlways(caps: Caps, ins: seq<Input>, n: nat)
    requires n <= |ins|
    ensures FeedInv(caps, FeedAfter(caps, ins, n))
  {
    if n != 0 {
      FeedInvAlways(caps, ins, n - 1);
      StepKeeps(caps, FeedAfter(caps, ins, n - 1), ins[n - 1]);
    }
  }
}
