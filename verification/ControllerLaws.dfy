/** What every controller keeps under arbitrary messages, honest or not. */
module ControllerLaws {
  import opened OrderBooks
  import opened Controllers

  datatype Message = SnapshotMsg(snap: Snapshot, kind: BaselineKind) | IncrementMsg(inc: Incremental) | ResetMsg

  ghost function Step(cfg: Config, c: Ctl, m: Message): (Ctl, Action) {
    match m
    case SnapshotMsg(snap, kind) => OnSnapshot(cfg, c, snap, kind)
    case IncrementMsg(inc) => OnIncrement(cfg, c, inc)
    case ResetMsg => (Reset(c), NoAction)
  }

  /** The controller after the first `n` messages of a run. */
  ghost function After(cfg: Config, ms: seq<Message>, n: nat): Ctl
    requires n <= |ms|
  {
    if n == 0 then START else Step(cfg, After(cfg, ms, n - 1), ms[n - 1]).0
  }

  ghost predicate Inv(cfg: Config, c: Ctl) {
    && ValidBook(c.book, cfg.depth)
    && (c.state.WaitingSnapshot? ==> c.book == EMPTY && c.lastSeq == 0 && c.expectedSeq == 0)
    && (!c.state.WaitingSnapshot? ==> c.expectedSeq == c.lastSeq + 1)
  }

  lemma AppliedValid(cfg: Config, b: Book, msg: Incremental)
    requires ValidBook(b, cfg.depth)
    ensures ValidBook(Applied(cfg, b, msg), cfg.depth)
  {
    UpdateFirstValid(Bid, b.bids, cfg.depth, msg.bids, |msg.bids|);
    UpdateFirstValid(Ask, b.asks, cfg.depth, msg.asks, |msg.asks|);
  }

  lemma LoadedValid(cfg: Config, msg: Snapshot)
    ensures ValidBook(LoadedBook(cfg, msg), cfg.depth)
  {
    UpdateFirstValid(Bid, [], cfg.depth, Baseline(Bid, msg.bids), |Baseline(Bid, msg.bids)|);
    UpdateFirstValid(Ask, [], cfg.depth, Baseline(Ask, msg.asks), |Baseline(Ask, msg.asks)|);
  }

  /** One message: the invariant is kept and a resync always leaves an empty, waiting book. */
  lemma StepInv(cfg: Config, c: Ctl, m: Message)
    requires Inv(cfg, c)
    ensures var (c', action) := Step(cfg, c, m);
            && Inv(cfg, c')
            && (action.NeedResync? ==> c'.state.WaitingSnapshot? && c'.book == EMPTY)
  {
    match m
    case SnapshotMsg(snap, kind) => LoadedValid(cfg, snap);
    case IncrementMsg(inc) => AppliedValid(cfg, c.book, inc);
    case ResetMsg =>
  }

  /** Every reachable state has a valid book, so the self check can never fail. */
  lemma {:induction false} InvAlways(cfg: Config, ms: seq<Message>, n: nat)
    requires n <= |ms|
    ensures Inv(cfg, After(cfg, ms, n))
  {
    if n != 0 {
      InvAlways(cfg, ms, n - 1);
      StepInv(cfg, After(cfg, ms, n - 1), ms[n - 1]);
    }
  }

  /** Positive best prices mean that every bid lies below every ask. */
  ghost predicate Apart(b: Book) {
    b.bids != [] && b.asks != [] && b.bids[0].priceTick > 0 && b.asks[0].priceTick > 0 ==>
      forall x, y :: x in b.bids && y in b.asks ==> x.priceTick < y.priceTick
  }

  lemma UncrossedIsApart(b: Book, depth: nat)
    requires ValidBook(b, depth) && !Crossed(b)
    ensures Apart(b)
  {
    forall x, y | x in b.bids && y in b.asks && b.bids[0].priceTick > 0 && b.asks[0].priceTick > 0
      ensures x.priceTick < y.priceTick
    {
      var i :| 0 <= i < |b.bids| && b.bids[i] == x;
      var j :| 0 <= j < |b.asks| && b.asks[j] == y;
      assert i == 0 || Before(Bid, b.bids[0].priceTick, x.priceTick);
      assert j == 0 || Before(Ask, b.asks[0].priceTick, y.priceTick);
    }
  }

  /**
   An incremental that the controller accepts: it either changes nothing (outdated) or it
   reaches the book, advances the sequence strictly and leaves a synced book whose bids lie below its asks.
   */
  lemma AcceptedIncrement(cfg: Config, c: Ctl, inc: Incremental)
    requires Inv(cfg, c)
    requires OnIncrement(cfg, c, inc).1.NoAction?
    ensures var c' := OnIncrement(cfg, c, inc).0;
            if c.state.WaitingSnapshot? || 0 < inc.lastSeq < c.expectedSeq then c' == c
            else
              && c'.state.Synced? && Apart(c'.book)
              && c'.book == Applied(cfg, c.book, inc)
              && (if inc.lastSeq == 0 then cfg.checksumFn.Some? && c'.lastSeq == c.lastSeq
                  else c'.lastSeq == inc.lastSeq > c.lastSeq && (inc.firstSeq <= c.lastSeq + 1 || cfg.allowSeqGap))
  {
    if !(c.state.WaitingSnapshot? || 0 < inc.lastSeq < c.expectedSeq) {
      AppliedValid(cfg, c.book, inc);
      UncrossedIsApart(Applied(cfg, c.book, inc), cfg.depth);
    }
  }

  /**
   On a loaded controller a sequenced increment that is not refused leaves everything as it was
   if and only if it ends before the expected sequence; otherwise the controller is now at its end.
   */
  lemma UnchangedExactly(cfg: Config, c: Ctl, inc: Incremental)
    requires Inv(cfg, c) && !c.state.WaitingSnapshot? && inc.lastSeq > 0
    requires OnIncrement(cfg, c, inc).1.NoAction?
    ensures var c' := OnIncrement(cfg, c, inc).0;
            && (c' == c <==> inc.lastSeq <= c.lastSeq)
            && (c' != c ==> c'.state.Synced? && c'.lastSeq == inc.lastSeq && c'.expectedSeq == inc.lastSeq + 1)
  {
    AcceptedIncrement(cfg, c, inc);
    StepInv(cfg, c, IncrementMsg(inc));
  }

  /**
   Exactly when the controller gives up on an increment, on the message's numbers and the book it
   would make: no baseline, or an increment that is old news, never is a reason.
   */
  lemma ResyncExactly(cfg: Config, c: Ctl, inc: Incremental)
    requires Inv(cfg, c)
    ensures OnIncrement(cfg, c, inc).1.NeedResync? <==>
            && !c.state.WaitingSnapshot? && (inc.lastSeq == 0 || inc.lastSeq > c.lastSeq)
            && var b := Applied(cfg, c.book, inc);
               || (inc.lastSeq == 0 && cfg.checksumFn.None?)
               || (inc.lastSeq > 0 && inc.firstSeq > c.lastSeq + 1 && !cfg.allowSeqGap)
               || (b.bids != [] && b.asks != [] && 0 < b.asks[0].priceTick <= b.bids[0].priceTick)
               || (cfg.checksumFn.Some? && (inc.checksum == 0 || !cfg.checksumFn.value(b, inc.checksum)))
               || (cfg.checksumFn.None? && cfg.requireChecksum && cfg.hasChecksum && c.state.Synced? && inc.checksum == 0)
  {
    AppliedValid(cfg, c.book, inc);
  }

  /** A snapshot is refused exactly when it carries a checksum, one is enforced, and the loaded book fails it. */
  lemma SnapshotRefused(cfg: Config, c: Ctl, snap: Snapshot, kind: BaselineKind)
    ensures OnSnapshot(cfg, c, snap, kind).1.NeedResync? <==>
            cfg.checksumFn.Some? && snap.checksum != 0 && !cfg.checksumFn.value(LoadedBook(cfg, snap), snap.checksum)
  {
  }

  /** An accepted snapshot puts the controller at its sequence, waiting for the bridge exactly when it is REST-anchored. */
  lemma AcceptedSnapshot(cfg: Config, c: Ctl, snap: Snapshot, kind: BaselineKind)
    requires OnSnapshot(cfg, c, snap, kind).1.NoAction?
    ensures var c' := OnSnapshot(cfg, c, snap, kind).0;
            && c'.lastSeq == snap.lastUpdateId && c'.expectedSeq == snap.lastUpdateId + 1
            && (c'.state.WaitingBridge? <==> kind.RestAnchored?) && (c'.state.Synced? <==> kind.WsAuthoritative?)
            && ValidBook(c'.book, cfg.depth)
  {
    LoadedValid(cfg, snap);
  }

  /** Turning the periodic self check off changes no answer and nothing but its own counter. */
  lemma ValidationNeverFires(cfg: Config, c: Ctl, inc: Incremental)
    requires Inv(cfg, c)
    ensures var (on, a) := OnIncrement(cfg, c, inc);
            var (off, b) := OnIncrement(cfg.(validatePeriod := 0), c, inc);
            a == b && on.(validateCounter := 0) == off.(validateCounter := 0)
  {
    AppliedValid(cfg, c.book, inc);
  }

  // ---- no hole in the applied ranges ----

  /** One past the index of the baseline the state after `n` messages stands on. */
  ghost function BaselineEnd(ms: seq<Message>, n: nat): (b: nat)
    requires n <= |ms|
    ensures b <= n
  {
    if n == 0 || ms[n - 1].SnapshotMsg? then n else BaselineEnd(ms, n - 1)
  }

  /** Message `j` was an incremental that reached the book and covers sequence number `q`. */
  ghost predicate AppliedOver(cfg: Config, ms: seq<Message>, j: nat, q: nat)
    requires j < |ms|
  {
    && ms[j].IncrementMsg?
    && Applies(cfg, After(cfg, ms, j), ms[j].inc)
    && ms[j].inc.firstSeq <= q <= ms[j].inc.lastSeq
  }

  /**
   With gaps disallowed, every sequence number between the loaded baseline and the applied
   sequence was covered by an incremental applied since that baseline.
   */
  lemma {:induction false} NoHole(cfg: Config, ms: seq<Message>, n: nat, q: nat) returns (j: nat)
    requires n <= |ms| && !cfg.allowSeqGap
    requires !After(cfg, ms, n).state.WaitingSnapshot?
    requires BaselineEnd(ms, n) > 0 ==> After(cfg, ms, BaselineEnd(ms, n)).lastSeq < q
    requires q <= After(cfg, ms, n).lastSeq
    ensures 0 < BaselineEnd(ms, n) <= j < n && AppliedOver(cfg, ms, j, q)
  {
    InvAlways(cfg, ms, n - 1);
    var c := After(cfg, ms, n - 1);
    assert ms[n - 1].IncrementMsg?;
    if !Outdated(c, ms[n - 1].inc) && c.lastSeq < q {
      j := n - 1;
      NoHoleBase(cfg, ms, n - 1);
    } else {
      j := NoHole(cfg, ms, n - 1, q);
    }
  }

  /** A loaded controller has its baseline in the past. */
  lemma {:induction false} NoHoleBase(cfg: Config, ms: seq<Message>, n: nat)
    requires n <= |ms| && !After(cfg, ms, n).state.WaitingSnapshot?
    ensures 0 < BaselineEnd(ms, n) <= n
  {
    if n != 0 && !ms[n - 1].SnapshotMsg? {
      NoHoleBase(cfg, ms, n - 1);
    }
  }

  ghost predicate AppliedAt(cfg: Config, ms: seq<Message>, j: nat)
    requires j < |ms|
  {
    ms[j].IncrementMsg? && After(cfg, ms, j + 1).book == Applied(cfg, After(cfg, ms, j).book, ms[j].inc)
  }

  /** A controller that waited for its bridge, and has had no other baseline since, is synced only after an increment was applied. */
  lemma {:induction false} SyncedMeansBridged(cfg: Config, ms: seq<Message>, b: nat, n: nat) returns (j: nat)
    requires b <= n <= |ms| && After(cfg, ms, b).state.WaitingBridge? && After(cfg, ms, n).state.Synced?
    requires forall i :: b <= i < n ==> !ms[i].SnapshotMsg?
    ensures b <= j < n && AppliedAt(cfg, ms, j)
    decreases n
  {
    SyncedByIncrement(cfg, ms, n - 1);
    if AppliedAt(cfg, ms, n - 1) {
      j := n - 1;
    } else {
      j := SyncedMeansBridged(cfg, ms, b, n - 1);
    }
  }

  /** A message that leaves the controller synced without being a baseline is an increment: applied, or nothing changed. */
  lemma SyncedByIncrement(cfg: Config, ms: seq<Message>, n: nat)
    requires n < |ms| && After(cfg, ms, n + 1).state.Synced? && !(ms[n].SnapshotMsg? && ms[n].kind.WsAuthoritative?)
    ensures ms[n].IncrementMsg? && !After(cfg, ms, n).state.WaitingSnapshot?
    ensures var c, d := After(cfg, ms, n), After(cfg, ms, n + 1);
            d.book == Applied(cfg, c.book, ms[n].inc) || (d == c && c.state.Synced?)
  {
    InvAlways(cfg, ms, n);
    if ms[n].IncrementMsg? {
      StepInv(cfg, After(cfg, ms, n), ms[n]);
      AcceptedIncrement(cfg, After(cfg, ms, n), ms[n].inc);
    }
  }
}
