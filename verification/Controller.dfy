/**
 The order-book controller: a snapshot loads a baseline, a bridging incremental
 (REST-anchored venues) joins it to the stream, and from then on incrementals must be
 contiguous. Anything suspicious empties the book and asks for a resync.
 */
module Controllers {
  import opened Options
  import opened OrderBooks

  datatype Snapshot = Snapshot(lastUpdateId: nat, checksum: int, bids: seq<Level>, asks: seq<Level>)

  datatype Incremental = Incremental(firstSeq: nat, lastSeq: nat, checksum: int,
                                     bids: seq<Level>, asks: seq<Level>)

  datatype BaselineKind = RestAnchored | WsAuthoritative
  datatype Action = NoAction | NeedResync
  datatype SyncState = WaitingSnapshot | WaitingBridge | Synced

  /** Fixed at start-up. The checksum of a venue is any predicate of the book and the sent value. */
  datatype Config = Config(depth: nat, allowSeqGap: bool, validatePeriod: nat,
                           hasChecksum: bool, requireChecksum: bool,
                           checksumFn: Option<(Book, int) -> bool>)

  datatype Ctl = Ctl(book: Book, state: SyncState, lastSeq: nat, expectedSeq: nat, validateCounter: nat)

  const START := Ctl(EMPTY, WaitingSnapshot, 0, 0, 0)

  // ---- sorting of snapshot levels ----

  function DropEmpty(ls: seq<Level>): seq<Level> {
    if ls == [] then []
    else (if ls[0].IsEmpty() then [] else [ls[0]]) + DropEmpty(ls[1..])
  }

  function InsertLevel(s: Side, l: Level, ls: seq<Level>): seq<Level> {
    if ls == [] || Before(s, l.priceTick, ls[0].priceTick) then [l] + ls
    else [ls[0]] + InsertLevel(s, l, ls[1..])
  }

  /** `std::sort` by tick; equal ticks keep their order of arrival. */
  function SortLevels(s: Side, ls: seq<Level>): seq<Level> {
    if ls == [] then [] else InsertLevel(s, ls[|ls| - 1], SortLevels(s, ls[..|ls| - 1]))
  }

  /** The levels a snapshot side loads, in loading order. */
  function Baseline(s: Side, ls: seq<Level>): seq<Level> {
    SortLevels(s, DropEmpty(ls))
  }

  lemma DropEmptyKeeps(ls: seq<Level>)
    ensures forall l :: l in DropEmpty(ls) <==> l in ls && !l.IsEmpty()
  {
    if ls != [] {
      DropEmptyKeeps(ls[1..]);
    }
  }

  lemma InsertLevelAdds(s: Side, x: Level, ls: seq<Level>)
    ensures forall l :: l in InsertLevel(s, x, ls) <==> l == x || l in ls
  {
    if ls != [] {
      InsertLevelAdds(s, x, ls[1..]);
    }
  }

  lemma SortLevelsKeeps(s: Side, ls: seq<Level>)
    ensures forall l :: l in SortLevels(s, ls) <==> l in ls
  {
    if ls != [] {
      var n := |ls| - 1;
      SortLevelsKeeps(s, ls[..n]);
      InsertLevelAdds(s, ls[n], SortLevels(s, ls[..n]));
      assert ls == ls[..n] + [ls[n]];
    }
  }

  /** A baseline is the snapshot's non-empty levels, no more and no less. */
  lemma BaselineKeeps(s: Side, ls: seq<Level>)
    ensures forall l :: l in Baseline(s, ls) <==> l in ls && !l.IsEmpty()
  {
    DropEmptyKeeps(ls);
    SortLevelsKeeps(s, DropEmpty(ls));
  }

  // ---- specification of the transitions ----

  function Reset(c: Ctl): Ctl {
    c.(book := EMPTY, state := WaitingSnapshot, lastSeq := 0, expectedSeq := 0)
  }

  function LoadedBook(cfg: Config, msg: Snapshot): Book {
    Book(UpdateAll(Bid, [], cfg.depth, Baseline(Bid, msg.bids)), UpdateAll(Ask, [], cfg.depth, Baseline(Ask, msg.asks)))
  }

  function OnSnapshot(cfg: Config, c: Ctl, msg: Snapshot, kind: BaselineKind): (Ctl, Action) {
    var book := LoadedBook(cfg, msg);
    if cfg.checksumFn.Some? && msg.checksum != 0 && !cfg.checksumFn.value(book, msg.checksum) then
      (Reset(c), NeedResync)
    else
      (Ctl(book, if kind.WsAuthoritative? then Synced else WaitingBridge,
           msg.lastUpdateId, msg.lastUpdateId + 1, c.validateCounter), NoAction)
  }

  function Applied(cfg: Config, b: Book, msg: Incremental): Book {
    Book(UpdateAll(Bid, b.bids, cfg.depth, msg.bids), UpdateAll(Ask, b.asks, cfg.depth, msg.asks))
  }

  predicate HasSeq(msg: Incremental) {
    msg.lastSeq != 0
  }

  /** The message reaches the book: a baseline is loaded, and it is sequenced, new and in reach, or seq-less and checked. */
  predicate Applies(cfg: Config, c: Ctl, msg: Incremental) {
    && !c.state.WaitingSnapshot?
    && (if HasSeq(msg) then c.expectedSeq <= msg.lastSeq && (msg.firstSeq <= c.expectedSeq || cfg.allowSeqGap)
        else cfg.checksumFn.Some?)
  }

  predicate Outdated(c: Ctl, msg: Incremental) {
    c.state.WaitingSnapshot? || (HasSeq(msg) && msg.lastSeq < c.expectedSeq)
  }

  function CounterAfter(cfg: Config, c: Ctl, bridging: bool): nat {
    if bridging || cfg.validatePeriod == 0 then c.validateCounter
    else if c.validateCounter + 1 >= cfg.validatePeriod then 0
    else c.validateCounter + 1
  }

  predicate ChecksumRejects(cfg: Config, book: Book, bridging: bool, msg: Incremental) {
    if cfg.checksumFn.Some? then msg.checksum == 0 || !cfg.checksumFn.value(book, msg.checksum)
    else !bridging && cfg.requireChecksum && cfg.hasChecksum && msg.checksum == 0
  }

  predicate ValidationRejects(cfg: Config, c: Ctl, bridging: bool) {
    && !bridging && cfg.validatePeriod > 0
    && c.validateCounter + 1 >= cfg.validatePeriod
    && !ValidBook(c.book, cfg.depth)
  }

  /** The controller right after the levels of `msg` reached its book. */
  function WithApplied(cfg: Config, c: Ctl, msg: Incremental): Ctl {
    c.(book := Applied(cfg, c.book, msg), state := Synced,
       lastSeq := if HasSeq(msg) then msg.lastSeq else c.lastSeq,
       expectedSeq := if HasSeq(msg) then msg.lastSeq + 1 else c.expectedSeq)
  }

  /** The guards run on the applied book; `bridging` says the message was the bridge. */
  function Settle(cfg: Config, c: Ctl, bridging: bool, msg: Incremental): (Ctl, Action) {
    if Crossed(c.book) then (Reset(c), NeedResync)
    else
      var c' := c.(validateCounter := CounterAfter(cfg, c, bridging));
      if ValidationRejects(cfg, c, bridging) || ChecksumRejects(cfg, c.book, bridging, msg) then (Reset(c'), NeedResync)
      else (c', NoAction)
  }

  function OnIncrement(cfg: Config, c: Ctl, msg: Incremental): (Ctl, Action) {
    if Outdated(c, msg) then (c, NoAction)
    else if !Applies(cfg, c, msg) then (Reset(c), NeedResync)
    else Settle(cfg, WithApplied(cfg, c, msg), c.state.WaitingBridge?, msg)
  }

  // ---- the class ----

  class OrderBookController {
    const cfg: Config
    const book: OrderBook
    var state: SyncState
    var lastSeq: nat
    var expectedSeq: nat
    var validateCounter: nat

    ghost predicate Valid()
      reads this, book
    {
      cfg.depth == book.depth
    }

    ghost function View(): Ctl
      reads this, book
    {
      Ctl(book.View(), state, lastSeq, expectedSeq, validateCounter)
    }

    constructor (cfg: Config)
      requires cfg.depth > 0
      ensures Valid() && fresh(book) && this.cfg == cfg && View() == START
    {
      this.cfg := cfg;
      book := new OrderBook(cfg.depth);
      state, lastSeq, expectedSeq, validateCounter := WaitingSnapshot, 0, 0, 0;
    }

    method ResetBook()
      requires Valid()
      modifies this, book
      ensures Valid() && View() == Reset(old(View()))
    {
      book.Clear();
      state, lastSeq, expectedSeq := WaitingSnapshot, 0, 0;
    }

    method ApplyLevels(s: Side, ls: seq<Level>)
      requires Valid()
      modifies book
      ensures Valid()
      ensures book.bids == if s.Bid? then UpdateAll(Bid, old(book.bids), cfg.depth, ls) else old(book.bids)
      ensures book.asks == if s.Ask? then UpdateAll(Ask, old(book.asks), cfg.depth, ls) else old(book.asks)
    {
      for i := 0 to |ls|
        invariant Valid()
        invariant book.bids == if s.Bid? then UpdateFirst(Bid, old(book.bids), cfg.depth, ls, i) else old(book.bids)
        invariant book.asks == if s.Ask? then UpdateFirst(Ask, old(book.asks), cfg.depth, ls, i) else old(book.asks)
      {
        book.Update(s, ls[i]);
      }
    }

    method ApplyBaseline(msg: Snapshot)
      requires Valid() && book.View() == EMPTY
      modifies book
      ensures Valid() && book.View() == LoadedBook(cfg, msg)
    {
      var bids, asks := Baseline(Bid, msg.bids), Baseline(Ask, msg.asks);
      ApplyLevels(Bid, bids);
      ApplyLevels(Ask, asks);
    }

    method HandleSnapshot(msg: Snapshot, kind: BaselineKind) returns (action: Action)
      requires Valid()
      modifies this, book
      ensures Valid() && (View(), action) == OnSnapshot(cfg, old(View()), msg, kind)
    {
      ResetBook();
      ApplyBaseline(msg);
      lastSeq := msg.lastUpdateId;
      expectedSeq := lastSeq + 1;
      if cfg.checksumFn.Some? {
        if msg.checksum == 0 {
          // best-effort baseline: the first incremental checksum verifies it
        } else if !cfg.checksumFn.value(Book(book.bids, book.asks), msg.checksum) {
          ResetBook();
          return NeedResync;
        }
      }
      state := if kind.WsAuthoritative? then Synced else WaitingBridge;
      return NoAction;
    }

    method ApplyIncrementUpdate(msg: Incremental)
      requires Valid()
      modifies this, book
      ensures Valid() && View() == WithApplied(cfg, old(View()), msg)
    {
      ApplyLevels(Bid, msg.bids);
      ApplyLevels(Ask, msg.asks);
      if HasSeq(msg) {
        lastSeq := msg.lastSeq;
        expectedSeq := lastSeq + 1;
      }
      state := Synced;
    }

    method NeedsResync() returns (action: Action)
      requires Valid()
      modifies this, book
      ensures Valid() && View() == Reset(old(View())) && action == NeedResync
    {
      ResetBook();
      return NeedResync;
    }

    method RunGuards(bridging: bool, msg: Incremental) returns (action: Action)
      requires Valid()
      modifies this, book
      ensures Valid() && (View(), action) == Settle(cfg, old(View()), bridging, msg)
    {
      if Crossed(Book(book.bids, book.asks)) {
        action := NeedsResync();
        return;
      }
      if !bridging && cfg.validatePeriod > 0 {
        validateCounter := validateCounter + 1;
        if validateCounter >= cfg.validatePeriod {
          validateCounter := 0;
          var ok := book.Validate();
          if !ok {
            action := NeedsResync();
            return;
          }
        }
      }
      if cfg.checksumFn.Some? {
        if msg.checksum == 0 || !cfg.checksumFn.value(Book(book.bids, book.asks), msg.checksum) {
          action := NeedsResync();
          return;
        }
      } else if !bridging && cfg.requireChecksum && cfg.hasChecksum && msg.checksum == 0 {
        action := NeedsResync();
        return;
      }
      return NoAction;
    }

    method HandleIncrement(msg: Incremental) returns (action: Action)
      requires Valid()
      modifies this, book
      ensures Valid() && (View(), action) == OnIncrement(cfg, old(View()), msg)
    {
      if state.WaitingSnapshot? {
        return NoAction;
      }
      if !HasSeq(msg) && cfg.checksumFn.None? {
        action := NeedsResync();
        return;
      }
      if HasSeq(msg) {
        if msg.lastSeq < expectedSeq {
          return NoAction;
        }
        if msg.firstSeq > expectedSeq && !cfg.allowSeqGap {
          action := NeedsResync();
          return;
        }
      }
      var bridging := state.WaitingBridge?;
      ApplyIncrementUpdate(msg);
      action := RunGuards(bridging, msg);
    }
  }
}
