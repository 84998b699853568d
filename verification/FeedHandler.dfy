/**
 The venue-agnostic feed handler: a state machine over socket messages, REST replies, closes
 and timers that buffers incrementals until a baseline is there, drives the controller and
 publishes what it hands over. Any input may arrive in any state.
 */
module FeedHandlers {
  import opened Options
  import opened OrderBooks
  import opened Controllers

  datatype FeedState = Disconnected | Connecting | Bootstrapping | WaitRestSnapshot | WaitWsSnapshot | WaitBridge | FeedSynced

  datatype Caps = Caps(ctl: Config, restAnchored: bool, wsSendsSnapshot: bool, requiresBootstrap: bool,
                       maxBuffer: nat, bookEvery: nat, bookTop: nat)

  /** What the venue adapter makes of one raw frame. */
  datatype Payload = Payload(isIncremental: bool, inc: Option<Incremental>, isSnapshot: bool, snap: Option<Snapshot>)

  datatype Input =
    | WsOpen
    | WsMessage(payload: Payload)
    | WsClosed
    | RestFailed
    | RestRateLimited
    | RestBody(snap: Option<Snapshot>)
    | RetryTimer
    | ReconnectTimer(gen: nat)
    | BootstrapReply(ok: bool)
    | StaleWatchdog

  datatype FeedStatus = IsDisconnected | IsResyncing | IsSynced

  /** The events on the wire to the brain. */
  datatype Event =
    | SnapshotEvent(snap: Snapshot)
    | IncrementalEvent(inc: Incremental)
    | BookStateEvent(appliedSeq: nat, bids: seq<Level>, asks: seq<Level>)
    | StatusEvent(status: FeedStatus)

  /**
   The handler's fields; `published` is the stream of events sent so far.
   */
  datatype Feed = Feed(state: FeedState, buffer: seq<Payload>, ctl: Ctl, closingForRestart: bool, reconnectGen: nat,
                       updatesSinceBook: nat, published: seq<Event>)

  const IDLE := Feed(Disconnected, [], START, false, 0, 0, [])

  function StatusOf(s: FeedState): FeedStatus {
    if s.Disconnected? then IsDisconnected else if s.FeedSynced? then IsSynced else IsResyncing
  }

  function SetState(f: Feed, next: FeedState): Feed {
    if f.state == next then f
    else f.(state := next, published := f.published + [StatusEvent(StatusOf(next))])
  }

  /** The levels of a checkpoint: the first `n`, cut short at an empty level. */
  function TopLevels(v: seq<Level>, n: nat): seq<Level> {
    if n == 0 || v == [] || v[0].IsEmpty() then [] else [v[0]] + TopLevels(v[1..], n - 1)
  }

  /** A checkpoint of the synced book every `bookEvery` updates. */
  function MaybeBook(caps: Caps, f: Feed): Feed {
    if caps.bookEvery == 0 || caps.bookTop == 0 || !f.ctl.state.Synced? then f
    else if f.updatesSinceBook + 1 < caps.bookEvery then f.(updatesSinceBook := f.updatesSinceBook + 1)
    else f.(updatesSinceBook := 0,
            published := f.published + [BookStateEvent(f.ctl.lastSeq, TopLevels(f.ctl.book.bids, caps.bookTop),
                                                       TopLevels(f.ctl.book.asks, caps.bookTop))])
  }

  function Restart(f: Feed): Feed {
    SetState(f.(buffer := [], ctl := Reset(f.ctl)), Connecting).(closingForRestart := true, reconnectGen := f.reconnectGen + 1)
  }

  /** One parsed incremental handed to the controller and published; a refusal restarts the sync. */
  function Hand(caps: Caps, f: Feed, inc: Incremental): Feed {
    var (c, action) := OnIncrement(caps.ctl, f.ctl, inc);
    var g := f.(ctl := c, published := f.published + [IncrementalEvent(inc)]);
    if action.NeedResync? then Restart(g) else MaybeBook(caps, g)
  }

  predicate Parses(p: Payload) {
    p.isIncremental && p.inc.Some?
  }

  /** The buffer handed over front to back; a restart on the way empties it. */
  function Drain(caps: Caps, f: Feed): Feed
    decreases |f.buffer|
  {
    if f.buffer == [] then f
    else
      var g := f.(buffer := f.buffer[1..]);
      if Parses(f.buffer[0]) then Drain(caps, Hand(caps, g, f.buffer[0].inc.value)) else Drain(caps, g)
  }

  function SyncedIfBridged(f: Feed): Feed {
    if f.ctl.state.Synced? then SetState(f, FeedSynced) else f
  }

  /** Buffer an incremental frame, or give up when the buffer is full. */
  function Push(caps: Caps, f: Feed, p: Payload): Feed {
    if |f.buffer| < caps.maxBuffer then f.(buffer := f.buffer + [p]) else Restart(f)
  }

  /** Publish a snapshot and load it into the controller. */
  function Load(caps: Caps, f: Feed, snap: Snapshot, kind: BaselineKind): (Feed, Action) {
    var (c, action) := OnSnapshot(caps.ctl, f.ctl, snap, kind);
    (f.(ctl := c, published := f.published + [SnapshotEvent(snap)]), action)
  }

  function OnRestBody(caps: Caps, f: Feed, snap: Option<Snapshot>): Feed {
    if snap.None? then Restart(f)
    else
      var (g, action) := Load(caps, f, snap.value, if caps.restAnchored then RestAnchored else WsAuthoritative);
      if action.NeedResync? then Restart(g)
      else SyncedIfBridged(Drain(caps, SetState(MaybeBook(caps, g), WaitBridge)))
  }

  predicate IsWsSnapshot(p: Payload) {
    p.isSnapshot && p.snap.Some?
  }

  function OnBaseline(caps: Caps, f: Feed, p: Payload): Feed
    requires IsWsSnapshot(p)
  {
    var (g, action) := Load(caps, f, p.snap.value, WsAuthoritative);
    if action.NeedResync? then Restart(g)
    else SyncedIfBridged(Drain(caps, MaybeBook(caps, g).(state := WaitBridge)))
  }

  function OnInterruptingSnapshot(caps: Caps, f: Feed, p: Payload): Feed
    requires IsWsSnapshot(p)
  {
    var (g, action) := Load(caps, f, p.snap.value, WsAuthoritative);
    if action.NeedResync? then Restart(g)
    else
      var k := MaybeBook(caps, g).(buffer := []);
      SetState(k, if k.ctl.state.Synced? then FeedSynced else WaitBridge)
  }

  function OnWsMessage(caps: Caps, f: Feed, p: Payload): Feed {
    match f.state
    case WaitRestSnapshot => if p.isIncremental then Push(caps, f, p) else f
    case WaitWsSnapshot =>
      if IsWsSnapshot(p) then OnBaseline(caps, f, p)
      else if p.isIncremental then Push(caps, f, p)
      else f
    case WaitBridge =>
      if caps.wsSendsSnapshot && IsWsSnapshot(p) then OnInterruptingSnapshot(caps, f, p)
      else if caps.restAnchored then
        if !p.isIncremental then f
        else if |f.buffer| < caps.maxBuffer then SyncedIfBridged(Drain(caps, Push(caps, f, p)))
        else Restart(f)
      else if Parses(p) then SyncedIfBridged(Hand(caps, f, p.inc.value))
      else f
    case FeedSynced =>
      if caps.wsSendsSnapshot && IsWsSnapshot(p) then OnInterruptingSnapshot(caps, f, p)
      else if Parses(p) then Hand(caps, f, p.inc.value)
      else f
    case _ => f
  }

  function Step(caps: Caps, f: Feed, i: Input): Feed {
    match i
    case WsOpen => SetState(f, if caps.restAnchored then WaitRestSnapshot else WaitWsSnapshot)
    case WsMessage(p) => OnWsMessage(caps, f, p)
    case WsClosed => if f.closingForRestart then f.(closingForRestart := false) else Restart(f)
    case RestFailed => Restart(f)
    case RestRateLimited => f
    case RestBody(snap) => OnRestBody(caps, f, snap)
    case RetryTimer => SetState(f, WaitRestSnapshot)
    case ReconnectTimer(gen) =>
      if gen != f.reconnectGen then f else SetState(f, if caps.requiresBootstrap then Bootstrapping else Connecting)
    case BootstrapReply(ok) => if ok then f else Restart(f)
    case StaleWatchdog =>
      if f.state.Disconnected? || f.state.Connecting? || f.state.Bootstrapping? then f else Restart(f)
  }

  /** `start()`: the publishers come up after the first transition, so only a bootstrap is announced. */
  function Started(caps: Caps): Feed {
    var f := IDLE.(state := Connecting);
    if caps.requiresBootstrap then SetState(f, Bootstrapping) else f
  }

  /** The handler after the first `n` inputs. */
  function FeedAfter(caps: Caps, ins: seq<Input>, n: nat): Feed
    requires n <= |ins|
  {
    if n == 0 then Started(caps) else Step(caps, FeedAfter(caps, ins, n - 1), ins[n - 1])
  }

  // ---- the class ----

  lemma TopLevelsFrom(arr: seq<Level>, v: seq<Level>, i: nat, n: nat)
    requires i < |v| && n > 0 && !v[i].IsEmpty()
    ensures arr + TopLevels(v[i..], n) == (arr + [v[i]]) + TopLevels(v[i + 1..], n - 1)
  {
    assert v[i..][1..] == v[i + 1..];
  }

  method LevelsFromBook(v: seq<Level>, topN: nat) returns (arr: seq<Level>)
    ensures arr == TopLevels(v, topN)
  {
    arr := [];
    var i := 0;
    while i < topN
      invariant i <= topN && i <= |v|
      invariant arr + TopLevels(v[i..], topN - i) == TopLevels(v, topN)
    {
      if i >= |v| || v[i].IsEmpty() {
        break;
      }
      TopLevelsFrom(arr, v, i, topN - i);
      arr := arr + [v[i]];
      i := i + 1;
    }
  }

  class GenericFeedHandler {
    const caps: Caps
    const controller: OrderBookController
    var state: FeedState
    var buffer: seq<Payload>
    var closingForRestart: bool
    var reconnectGen: nat
    var updatesSinceBook: nat
    var published: seq<Event>

    ghost predicate Valid()
      reads this, controller, controller.book
    {
      controller.Valid() && controller.cfg == caps.ctl
    }

    ghost function View(): Feed
      reads this, controller, controller.book
    {
      Feed(state, buffer, controller.View(), closingForRestart, reconnectGen, updatesSinceBook, published)
    }

    /** `init` followed by `start`. */
    constructor (caps: Caps)
      requires caps.ctl.depth > 0
      ensures Valid() && fresh(controller) && fresh(controller.book)
      ensures this.caps == caps && View() == Started(caps)
    {
      this.caps := caps;
      controller := new OrderBookController(caps.ctl);
      state := if caps.requiresBootstrap then Bootstrapping else Connecting;
      buffer, closingForRestart, reconnectGen, updatesSinceBook := [], false, 0, 0;
      published := if caps.requiresBootstrap then [StatusEvent(IsResyncing)] else [];
    }

    method EnterState(next: FeedState)
      requires Valid()
      modifies this
      ensures Valid() && View() == SetState(old(View()), next)
    {
      if state == next {
        return;
      }
      state := next;
      published := published + [StatusEvent(StatusOf(next))];
    }

    method MaybePersistBook()
      requires Valid()
      modifies this
      ensures Valid() && View() == MaybeBook(caps, old(View()))
    {
      if caps.bookEvery == 0 || caps.bookTop == 0 || !controller.state.Synced? {
        return;
      }
      updatesSinceBook := updatesSinceBook + 1;
      if updatesSinceBook < caps.bookEvery {
        return;
      }
      updatesSinceBook := 0;
      var bids := LevelsFromBook(controller.book.bids, caps.bookTop);
      var asks := LevelsFromBook(controller.book.asks, caps.bookTop);
      published := published + [BookStateEvent(controller.lastSeq, bids, asks)];
    }

    method RestartSync()
      requires Valid()
      modifies this, controller, controller.book
      ensures Valid() && View() == Restart(old(View()))
    {
      buffer := [];
      controller.ResetBook();
      EnterState(Connecting);
      closingForRestart := true;
      reconnectGen := reconnectGen + 1;
    }

    method HandIncremental(inc: Incremental) returns (action: Action)
      requires Valid()
      modifies this, controller, controller.book
      ensures Valid() && View() == Hand(caps, old(View()), inc)
      ensures action == OnIncrement(caps.ctl, old(controller.View()), inc).1
    {
      action := controller.HandleIncrement(inc);
      published := published + [IncrementalEvent(inc)];
      if action.NeedResync? {
        RestartSync();
      } else {
        MaybePersistBook();
      }
    }

    method DrainBufferedIncrementals()
      requires Valid()
      modifies this, controller, controller.book
      ensures Valid() && View() == Drain(caps, old(View()))
    {
      while buffer != []
        invariant Valid()
        invariant Drain(caps, View()) == Drain(caps, old(View()))
        decreases |buffer|
      {
        var front := buffer[0];
        buffer := buffer[1..];
        if !Parses(front) {
          continue;
        }
        var action := HandIncremental(front.inc.value);
        if action.NeedResync? {
          return;
        }
      }
    }

    method BridgeIfSynced()
      requires Valid()
      modifies this
      ensures Valid() && View() == SyncedIfBridged(old(View()))
    {
      if controller.state.Synced? {
        EnterState(FeedSynced);
      }
    }

    method LoadSnapshot(snap: Snapshot, kind: BaselineKind) returns (action: Action)
      requires Valid()
      modifies this, controller, controller.book
      ensures Valid() && (View(), action) == Load(caps, old(View()), snap, kind)
    {
      published := published + [SnapshotEvent(snap)];
      action := controller.HandleSnapshot(snap, kind);
    }

    method HandleRestBody(snap: Option<Snapshot>)
      requires Valid()
      modifies this, controller, controller.book
      ensures Valid() && View() == OnRestBody(caps, old(View()), snap)
    {
      if snap.None? {
        RestartSync();
        return;
      }
      var action := LoadSnapshot(snap.value, if caps.restAnchored then RestAnchored else WsAuthoritative);
      if action.NeedResync? {
        RestartSync();
        return;
      }
      MaybePersistBook();
      EnterState(WaitBridge);
      DrainBufferedIncrementals();
      BridgeIfSynced();
    }

    method HandleBaseline(p: Payload)
      requires Valid() && IsWsSnapshot(p)
      modifies this, controller, controller.book
      ensures Valid() && View() == OnBaseline(caps, old(View()), p)
    {
      var action := LoadSnapshot(p.snap.value, WsAuthoritative);
      if action.NeedResync? {
        RestartSync();
        return;
      }
      MaybePersistBook();
      state := WaitBridge;
      DrainBufferedIncrementals();
      BridgeIfSynced();
    }

    method HandleInterruptingSnapshot(p: Payload)
      requires Valid() && IsWsSnapshot(p)
      modifies this, controller, controller.book
      ensures Valid() && View() == OnInterruptingSnapshot(caps, old(View()), p)
    {
      var action := LoadSnapshot(p.snap.value, WsAuthoritative);
      if action.NeedResync? {
        RestartSync();
        return;
      }
      MaybePersistBook();
      buffer := [];
      EnterState(if controller.state.Synced? then FeedSynced else WaitBridge);
    }

    method BufferFrame(p: Payload) returns (room: bool)
      requires Valid()
      modifies this, controller, controller.book
      ensures Valid() && View() == Push(caps, old(View()), p) && room == (|old(buffer)| < caps.maxBuffer)
    {
      room := |buffer| < caps.maxBuffer;
      if room {
        buffer := buffer + [p];
      } else {
        RestartSync();
      }
    }

    method HandleWsMessage(p: Payload)
      requires Valid()
      modifies this, controller, controller.book
      ensures Valid() && View() == OnWsMessage(caps, old(View()), p)
    {
      var at := state;
      if at.WaitRestSnapshot? {
        if p.isIncremental {
          var _ := BufferFrame(p);
        }
        return;
      }
      if at.WaitWsSnapshot? {
        if IsWsSnapshot(p) {
          HandleBaseline(p);
        } else if p.isIncremental {
          var _ := BufferFrame(p);
        }
        return;
      }
      if !at.WaitBridge? && !at.FeedSynced? {
        return;
      }
      if caps.wsSendsSnapshot && IsWsSnapshot(p) {
        HandleInterruptingSnapshot(p);
        return;
      }
      if caps.restAnchored && at.WaitBridge? {
        if p.isIncremental {
          var room := BufferFrame(p);
          if room {
            DrainBufferedIncrementals();
            BridgeIfSynced();
          }
        }
        return;
      }
      if !Parses(p) {
        return;
      }
      var action := HandIncremental(p.inc.value);
      if action.NoAction? && at.WaitBridge? {
        BridgeIfSynced();
      }
    }

    method HandleInput(i: Input)
      requires Valid()
      modifies this, controller, controller.book
      ensures Valid() && View() == Step(caps, old(View()), i)
    {
      match i {
        case WsOpen => EnterState(if caps.restAnchored then WaitRestSnapshot else WaitWsSnapshot);
        case WsMessage(p) => HandleWsMessage(p);
        case WsClosed =>
          if closingForRestart {
            closingForRestart := false;
          } else {
            RestartSync();
          }
        case RestFailed => RestartSync();
        case RestRateLimited =>
        case RestBody(snap) => HandleRestBody(snap);
        case RetryTimer => EnterState(WaitRestSnapshot);
        case ReconnectTimer(gen) =>
          if gen == reconnectGen {
            EnterState(if caps.requiresBootstrap then Bootstrapping else Connecting);
          }
        case BootstrapReply(ok) =>
          if !ok {
            RestartSync();
          }
        case StaleWatchdog =>
          if !(state.Disconnected? || state.Connecting? || state.Bootstrapping?) {
            RestartSync();
          }
      }
    }
  }
}
