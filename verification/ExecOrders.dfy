/**
 Which orders a run sends, told from its inputs: which signals get past the guards, what each of
 them turns into at this venue, and that nothing is sent while paused.
 */
module ExecOrders {
  import opened Options
  import opened RateLimits
  import opened Detector
  import opened Exec

  // ---- what the engine remembers, from the inputs ----

  /** The last Pause or Resume among the first `n` inputs was a Pause. */
  function PausedAt(ins: seq<Input>, n: nat): bool
    requires n <= |ins|
  {
    n != 0 && (ins[n - 1].Pause? || (!ins[n - 1].Resume? && PausedAt(ins, n - 1)))
  }

  lemma {:induction false} PausedExactly(l: Limits, ins: seq<Input>, n: nat)
    requires n <= |ins|
    ensures After(l, ins, n).paused == PausedAt(ins, n)
  {
    if n != 0 {
      PausedExactly(l, ins, n - 1);
    }
  }

  /** The guards in plain numbers: ticks are hundredths. */
  ghost predicate Passes(l: Limits, ins: seq<Input>, n: nat, c: Cross)
    requires n <= |ins|
  {
    var e := After(l, ins, n);
    && (l.maxOrderNotional > 0.0 ==> c.sellBidTick as real <= 100.0 * l.maxOrderNotional)
    && (l.positionLimit > 0.0 ==> 100.0 * e.openNotional + c.sellBidTick as real <= 100.0 * l.positionLimit)
    && !PausedAt(ins, n)
    && (l.cooldownNs > 0 ==> CooledDown(l.cooldownNs, Forwarded(l, ins, n), c))
  }

  /** Every earlier signal of the same pair lies at least the cooldown back. */
  ghost predicate CooledDown(cooldown: int, earlier: seq<Cross>, c: Cross) {
    forall d :: d in earlier && SignalKey(d) == SignalKey(c) ==> d.tsDetectedNs + cooldown <= c.tsDetectedNs
  }

  /** Input `i` is a signal that reaches the strategy. */
  ghost predicate Forwards(l: Limits, ins: seq<Input>, i: nat)
    requires i < |ins|
  {
    ins[i].Signal? && Admits(l, After(l, ins, i), ins[i].c)
  }

  /** The signals among the first `n` inputs that reach the strategy, in order. */
  ghost function Forwarded(l: Limits, ins: seq<Input>, n: nat): seq<Cross>
    requires n <= |ins|
  {
    if n == 0 then [] else Forwarded(l, ins, n - 1) + if Forwards(l, ins, n - 1) then [ins[n - 1].c] else []
  }

  /** Per pair, the limiter holds the time of a forwarded signal that none of the pair is later than. */
  ghost predicate Remembers(last: map<string, int>, cs: seq<Cross>) {
    && (forall c :: c in cs ==> SignalKey(c) in last && c.tsDetectedNs <= last[SignalKey(c)])
    && (forall key :: key in last ==> Holder(last, cs, key))
  }

  ghost predicate Holder(last: map<string, int>, cs: seq<Cross>, key: string) {
    exists c :: c in cs && SignalKey(c) == key && key in last && last[key] == c.tsDetectedNs
  }

  lemma RemembersMore(cooldown: int, last: map<string, int>, cs: seq<Cross>, c: Cross)
    requires cooldown > 0 && Remembers(last, cs) && Allows(cooldown, last, SignalKey(c), c.tsDetectedNs)
    ensures Remembers(last[SignalKey(c) := c.tsDetectedNs], cs + [c])
  {
    var next := last[SignalKey(c) := c.tsDetectedNs];
    assert c in cs + [c];
    forall key | key in next ensures Holder(next, cs + [c], key) {
      if key != SignalKey(c) {
        assert Holder(last, cs, key);
        var d :| d in cs && SignalKey(d) == key && last[key] == d.tsDetectedNs;
        assert d in cs + [c];
      }
    }
  }

  /** The limiter's answer is about the forwarded signals. */
  lemma CooldownMeans(cooldown: int, last: map<string, int>, cs: seq<Cross>, c: Cross)
    requires cooldown > 0 && Remembers(last, cs)
    ensures Allows(cooldown, last, SignalKey(c), c.tsDetectedNs) <==> CooledDown(cooldown, cs, c)
  {
    var key := SignalKey(c);
    if key in last {
      assert Holder(last, cs, key);
      var d :| d in cs && SignalKey(d) == key && last[key] == d.tsDetectedNs;
    }
  }

  ghost predicate MemoryAt(l: Limits, ins: seq<Input>, n: nat)
    requires n <= |ins|
  {
    Remembers(After(l, ins, n).lastSignal, Forwarded(l, ins, n))
  }

  lemma MemoryNext(l: Limits, ins: seq<Input>, n: nat)
    requires n < |ins| && l.cooldownNs > 0 && MemoryAt(l, ins, n)
    ensures MemoryAt(l, ins, n + 1)
  {
    var last, cs := After(l, ins, n).lastSignal, Forwarded(l, ins, n);
    if Forwards(l, ins, n) {
      RemembersMore(l.cooldownNs, last, cs, ins[n].c);
    } else {
      assert cs + [] == cs;
    }
  }

  lemma {:induction false} MemoryAlways(l: Limits, ins: seq<Input>, n: nat)
    requires n <= |ins| && l.cooldownNs > 0
    ensures MemoryAt(l, ins, n)
  {
    if n != 0 {
      MemoryAlways(l, ins, n - 1);
      MemoryNext(l, ins, n - 1);
    }
  }

  lemma Hundredths(tick: int, amount: real)
    ensures Price(tick) <= amount <==> tick as real <= 100.0 * amount
  {
  }

  /** A signal reaches the strategy if and only if it passes the guards, told on the inputs so far and the filled notional. */
  lemma ForwardsExactly(l: Limits, ins: seq<Input>, n: nat)
    requires n < |ins| && ins[n].Signal?
    ensures Forwards(l, ins, n) <==> Passes(l, ins, n, ins[n].c)
  {
    var e, c := After(l, ins, n), ins[n].c;
    PausedExactly(l, ins, n);
    Hundredths(c.sellBidTick, l.maxOrderNotional);
    Hundredths(c.sellBidTick, l.positionLimit - e.openNotional);
    if l.cooldownNs > 0 {
      MemoryAlways(l, ins, n);
      CooldownMeans(l.cooldownNs, e.lastSignal, Forwarded(l, ins, n), c);
    }
  }

  /** The filled notional is the sum of the fills that answered an order in flight. */
  function Booked(l: Limits, ins: seq<Input>, n: nat): real
    requires n <= |ins|
  {
    if n == 0 then 0.0
    else
      Booked(l, ins, n - 1) +
      if ins[n - 1].Filled? && ins[n - 1].k < |After(l, ins, n - 1).inFlight|
      then ins[n - 1].fill.quantity * (ins[n - 1].fill.priceTick as real / 100.0)
      else 0.0
  }

  lemma {:induction false} OpenIsBooked(l: Limits, ins: seq<Input>, n: nat)
    requires n <= |ins|
    ensures After(l, ins, n).openNotional == Booked(l, ins, n)
  {
    if n != 0 {
      OpenIsBooked(l, ins, n - 1);
    }
  }

  // ---- orders ----

  /** The signals of a list that name this venue, in order. */
  function Naming(l: Limits, cs: seq<Cross>): seq<Cross> {
    if cs == [] then []
    else Naming(l, cs[..|cs| - 1]) + if NamesVenue(l, cs[|cs| - 1]) then [cs[|cs| - 1]] else []
  }

  predicate NamesVenue(l: Limits, c: Cross) {
    c.sellVenue == l.venue || c.buyVenue == l.venue
  }

  lemma NamingMore(l: Limits, cs: seq<Cross>, c: Cross)
    ensures Naming(l, cs + [c]) == if NamesVenue(l, c) then Naming(l, cs) + [c] else Naming(l, cs)
  {
    assert (cs + [c])[..|cs|] == cs;
  }

  /** The order a signal turns into: sell at its bid when this venue is the seller, otherwise buy at its ask. */
  ghost predicate OrderFor(l: Limits, c: Cross, o: Order) {
    && o.quantity == l.targetQty
    && (c.sellVenue == l.venue ==> o.side == Sell && o.priceTick == c.sellBidTick)
    && (c.sellVenue != l.venue ==> c.buyVenue == l.venue && o.side == Buy && o.priceTick == c.buyAskTick)
  }

  ghost predicate Corresponds(l: Limits, cs: seq<Cross>, os: seq<Order>) {
    |os| == |cs| && forall i :: 0 <= i < |os| ==> OrderFor(l, cs[i], os[i]) && os[i].id == i + 1
  }

  ghost predicate OrdersAt(l: Limits, ins: seq<Input>, n: nat)
    requires n <= |ins|
  {
    var e := After(l, ins, n);
    && e.orderSeq == |e.submitted|
    && Corresponds(l, if l.targetQty > 0.0 then Naming(l, Forwarded(l, ins, n)) else [], e.submitted)
  }

  lemma LegIsOrderFor(l: Limits, c: Cross, id: nat)
    requires NamesVenue(l, c)
    ensures OrderFor(l, c, LegOrder(l, c, id)) && LegOrder(l, c, id).id == id
  {
  }

  lemma CorrespondsMore(l: Limits, cs: seq<Cross>, os: seq<Order>, c: Cross, o: Order)
    requires Corresponds(l, cs, os) && OrderFor(l, c, o) && o.id == |os| + 1
    ensures Corresponds(l, cs + [c], os + [o])
  {
  }

  lemma OrdersNext(l: Limits, ins: seq<Input>, n: nat)
    requires n < |ins| && OrdersAt(l, ins, n)
    ensures OrdersAt(l, ins, n + 1)
  {
    var e, cs := After(l, ins, n), Forwarded(l, ins, n);
    if Forwards(l, ins, n) {
      var c := ins[n].c;
      NamingMore(l, cs, c);
      if NamesVenue(l, c) && l.targetQty > 0.0 {
        LegIsOrderFor(l, c, e.orderSeq + 1);
        CorrespondsMore(l, Naming(l, cs), e.submitted, c, LegOrder(l, c, e.orderSeq + 1));
      }
    } else {
      assert cs + [] == cs;
    }
  }

  /**
   Over every run, with a positive target quantity the submitted orders correspond one to one and
   in order to the forwarded signals that name this venue, each on its own side, at its own price,
   for the target quantity, numbered from one; otherwise none is submitted.
   */
  lemma {:induction false} OrdersExactly(l: Limits, ins: seq<Input>, n: nat)
    requires n <= |ins|
    ensures OrdersAt(l, ins, n)
  {
    if n != 0 {
      OrdersExactly(l, ins, n - 1);
      OrdersNext(l, ins, n - 1);
    }
  }

  /** The orders submitted by the input `n`. */
  ghost predicate SubmitsNothing(l: Limits, ins: seq<Input>, n: nat)
    requires n < |ins|
  {
    After(l, ins, n + 1).submitted == After(l, ins, n).submitted && After(l, ins, n + 1).orderSeq == After(l, ins, n).orderSeq
  }

  /** Between a Pause and the next Resume nothing is submitted. */
  lemma PausedSubmitsNothing(l: Limits, ins: seq<Input>, j: nat, n: nat)
    requires j < n < |ins| && ins[j].Pause? && forall i :: j < i < n ==> !ins[i].Resume?
    ensures SubmitsNothing(l, ins, n)
  {
    StaysPaused(ins, j, n);
    PausedExactly(l, ins, n);
  }

  lemma {:induction false} StaysPaused(ins: seq<Input>, j: nat, n: nat)
    requires j < n <= |ins| && ins[j].Pause? && forall i :: j < i < n ==> !ins[i].Resume?
    ensures PausedAt(ins, n)
    decreases n
  {
    if j < n - 1 {
      StaysPaused(ins, j, n - 1);
    }
  }

  /** Every submitted order is in flight until its reply: submissions less replies. */
  function Replies(l: Limits, ins: seq<Input>, n: nat): nat
    requires n <= |ins|
  {
    if n == 0 then 0
    else
      Replies(l, ins, n - 1) +
      if (ins[n - 1].Filled? || ins[n - 1].Rejected?) && ins[n - 1].k < |After(l, ins, n - 1).inFlight| then 1 else 0
  }

  lemma {:induction false} FlightBalance(l: Limits, ins: seq<Input>, n: nat)
    requires n <= |ins|
    ensures |After(l, ins, n).inFlight| + Replies(l, ins, n) == |After(l, ins, n).submitted|
  {
    if n != 0 {
      FlightBalance(l, ins, n - 1);
    }
  }
}
