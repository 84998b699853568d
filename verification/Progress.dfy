/**
 Progress: what an honest exchange makes the controller do, so that a controller that
 ignores or refuses ordinary messages does not pass for a replica.
 */
module Progress {
  import opened OrderBooks
  import opened BoundedBook
  import opened Controllers
  import opened ControllerLaws
  import opened Replica

  /** The controller after the first `n` increments. */
  function Fed(cfg: Config, c: Ctl, incs: seq<Incremental>, n: nat): Ctl
    requires n <= |incs|
  {
    if n == 0 then c else OnIncrement(cfg, Fed(cfg, c, incs, n - 1), incs[n - 1]).0
  }

  /** Where the first `n` increments lead from `start`. */
  function Reached(start: nat, incs: seq<Incremental>, n: nat): nat
    requires n <= |incs|
  {
    if n == 0 then start else incs[n - 1].lastSeq
  }

  /** Increment `i` covers the sequence number that is due. Overlap with what was applied is fine. */
  ghost predicate Continues(start: nat, incs: seq<Incremental>, i: nat)
    requires i < |incs|
  {
    incs[i].firstSeq <= Reached(start, incs, i) + 1 <= incs[i].lastSeq
  }

  /** No checksum is enforced and gaps are not tolerated. */
  predicate Plain(cfg: Config) {
    !cfg.allowSeqGap && cfg.checksumFn.None? && !(cfg.requireChecksum && cfg.hasChecksum)
  }

  /** A loaded controller that shows nothing the exchange lacks. */
  ghost predicate Tracking(cfg: Config, h: seq<Update>, c: Ctl, at: nat) {
    Inv(cfg, c) && Mirrors(h, c) && !c.state.WaitingSnapshot? && c.lastSeq == at
  }

  /** The due increment is accepted and takes the controller to its end. */
  lemma Advances(cfg: Config, h: seq<Update>, c: Ctl, inc: Incremental)
    requires Plain(cfg) && Uncrossed(h) && Tracking(cfg, h, c, c.lastSeq) && AuthenticInc(h, inc)
    requires inc.firstSeq <= c.lastSeq + 1 <= inc.lastSeq
    ensures OnIncrement(cfg, c, inc).1.NoAction?
    ensures var d := OnIncrement(cfg, c, inc).0; Tracking(cfg, h, d, inc.lastSeq) && d.state.Synced?
  {
    ResyncOnlyOnGap(cfg, h, c, inc);
    IncrementMirrors(cfg, h, c, inc);
    StepInv(cfg, c, IncrementMsg(inc));
    UnchangedExactly(cfg, c, inc);
  }

  /** Increment `i` is what the exchange would send next. */
  ghost predicate Due(h: seq<Update>, start: nat, incs: seq<Incremental>, i: nat) {
    i < |incs| && AuthenticInc(h, incs[i]) && Continues(start, incs, i)
  }

  /** After `n` increments the controller is where they lead. */
  ghost predicate KeptUp(cfg: Config, h: seq<Update>, c: Ctl, incs: seq<Incremental>, n: nat)
    requires n <= |incs|
  {
    var d := Fed(cfg, c, incs, n);
    Tracking(cfg, h, d, Reached(c.lastSeq, incs, n)) && (n > 0 ==> d.state.Synced?)
  }

  ghost predicate AcceptedAt(cfg: Config, c: Ctl, incs: seq<Incremental>, i: nat)
    requires i < |incs|
  {
    OnIncrement(cfg, Fed(cfg, c, incs, i), incs[i]).1.NoAction?
  }

  lemma KeepsUpNext(cfg: Config, h: seq<Update>, c: Ctl, incs: seq<Incremental>, n: nat)
    requires Plain(cfg) && Uncrossed(h) && Due(h, c.lastSeq, incs, n) && KeptUp(cfg, h, c, incs, n)
    ensures AcceptedAt(cfg, c, incs, n) && KeptUp(cfg, h, c, incs, n + 1)
  {
    Advances(cfg, h, Fed(cfg, c, incs, n), incs[n]);
  }

  /** Fed whatever comes due, the controller is at the end of each message after it. */
  lemma {:induction false} KeepsUp(cfg: Config, h: seq<Update>, c: Ctl, incs: seq<Incremental>, n: nat)
    requires Plain(cfg) && Uncrossed(h) && Tracking(cfg, h, c, c.lastSeq) && n <= |incs|
    requires forall i :: 0 <= i < n ==> Due(h, c.lastSeq, incs, i)
    ensures KeptUp(cfg, h, c, incs, n)
  {
    if n != 0 {
      KeepsUp(cfg, h, c, incs, n - 1);
      assert Due(h, c.lastSeq, incs, n - 1);
      KeepsUpNext(cfg, h, c, incs, n - 1);
    }
  }

  /** It never resyncs. */
  lemma NeverRefuses(cfg: Config, h: seq<Update>, c: Ctl, incs: seq<Incremental>, n: nat, i: nat)
    requires Plain(cfg) && Uncrossed(h) && Tracking(cfg, h, c, c.lastSeq) && i < n <= |incs|
    requires forall k :: 0 <= k < n ==> Due(h, c.lastSeq, incs, k)
    ensures AcceptedAt(cfg, c, incs, i)
  {
    KeepsUp(cfg, h, c, incs, i);
    assert Due(h, c.lastSeq, incs, i);
    KeepsUpNext(cfg, h, c, incs, i);
  }

  lemma ExactNext(cfg: Config, h: seq<Update>, c: Ctl, incs: seq<Incremental>, n: nat)
    requires Plain(cfg) && Due(h, c.lastSeq, incs, n) && KeptUp(cfg, h, c, incs, n)
    requires Fits(h, cfg.depth, IncrementMsg(incs[n])) && Equals(h, Fed(cfg, c, incs, n))
    ensures Equals(h, Fed(cfg, c, incs, n + 1))
  {
    StepEquals(cfg, h, Fed(cfg, c, incs, n), IncrementMsg(incs[n]));
  }

  /** With room for each message the book is then the exchange's book at the end of the last one. */
  lemma {:induction false} StaysExact(cfg: Config, h: seq<Update>, c: Ctl, incs: seq<Incremental>, n: nat)
    requires Plain(cfg) && Uncrossed(h) && Tracking(cfg, h, c, c.lastSeq) && Equals(h, c) && n <= |incs|
    requires forall i :: 0 <= i < n ==> Due(h, c.lastSeq, incs, i) && Fits(h, cfg.depth, IncrementMsg(incs[i]))
    ensures Equals(h, Fed(cfg, c, incs, n))
  {
    if n != 0 {
      StaysExact(cfg, h, c, incs, n - 1);
      KeepsUp(cfg, h, c, incs, n - 1);
      assert Due(h, c.lastSeq, incs, n - 1);
      ExactNext(cfg, h, c, incs, n - 1);
    }
  }

  /**
   The progress theorem: a complete snapshot and then authentic increments that each cover the
   sequence due are all accepted, and after each of them the controller holds exactly the
   exchange's book at the end of that message.
   */
  lemma FollowsExchange(cfg: Config, h: seq<Update>, c0: Ctl, snap: Snapshot, kind: BaselineKind, incs: seq<Incremental>, n: nat)
    requires Plain(cfg) && Uncrossed(h) && CompleteSnap(h, snap) && Fits(h, cfg.depth, SnapshotMsg(snap, kind)) && n <= |incs|
    requires forall i :: 0 <= i < n ==> Due(h, snap.lastUpdateId, incs, i) && Fits(h, cfg.depth, IncrementMsg(incs[i]))
    ensures OnSnapshot(cfg, c0, snap, kind).1.NoAction?
    ensures var c, at := OnSnapshot(cfg, c0, snap, kind).0, Reached(snap.lastUpdateId, incs, n);
            var d := Fed(cfg, c, incs, n);
            && (forall i :: 0 <= i < n ==> AcceptedAt(cfg, c, incs, i))
            && d.lastSeq == at <= |h| && (n > 0 ==> d.state.Synced?)
            && Means(d.book.bids, BookAt(h, Bid, at)) && Means(d.book.asks, BookAt(h, Ask, at))
  {
    var c := OnSnapshot(cfg, c0, snap, kind).0;
    AcceptedSnapshot(cfg, c0, snap, kind);
    SnapshotEquals(cfg, h, c0, snap, kind);
    SnapshotMirrors(cfg, h, c0, snap, kind);
    KeepsUp(cfg, h, c, incs, n);
    StaysExact(cfg, h, c, incs, n);
    forall i | 0 <= i < n ensures AcceptedAt(cfg, c, incs, i) {
      NeverRefuses(cfg, h, c, incs, n, i);
    }
  }
}
