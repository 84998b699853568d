/**
 The execution side: the engine's guards E4, E1, E2, E3 in that order, the immediate strategy
 behind them, and orders in flight until a full fill or a rejection comes back.
 */
module Exec {
  import opened Options
  import opened RateLimits
  import opened Detector

  datatype OrderSide = Buy | Sell
  datatype Order = Order(id: nat, side: OrderSide, priceTick: int, quantity: real)

  /** Limits of 0 or less disable their guard. */
  datatype Limits = Limits(venue: string, positionLimit: real, maxOrderNotional: real, cooldownNs: int, targetQty: real)

  /** `dispatched` (signals forwarded to the strategy) and `submitted` (orders ever sent) are history variables. */
  datatype Engine = Engine(openNotional: real, paused: bool, lastSignal: map<string, int>, orderSeq: nat,
                           inFlight: seq<Order>, dispatched: seq<Pass>, submitted: seq<Order>)

  const FRESH := Engine(0.0, false, map[], 0, [], [], [])

  function Price(tick: int): real {
    tick as real / 100.0
  }

  function Notional(o: Order): real {
    o.quantity * Price(o.priceTick)
  }

  function SignalKey(c: Cross): string {
    PairKey(c.sellVenue, c.buyVenue)
  }

  /** E4, E1, E2 and E3 all let the signal through. */
  predicate Admits(l: Limits, e: Engine, c: Cross) {
    && !(l.maxOrderNotional > 0.0 && Price(c.sellBidTick) > l.maxOrderNotional)
    && !(l.positionLimit > 0.0 && e.openNotional + Price(c.sellBidTick) > l.positionLimit)
    && !e.paused
    && Allows(l.cooldownNs, e.lastSignal, SignalKey(c), c.tsDetectedNs)
  }

  /** The strategy's leg of a cross, if this venue has one and the quantity is positive. */
  predicate HasLeg(l: Limits, c: Cross) {
    (c.sellVenue == l.venue || c.buyVenue == l.venue) && l.targetQty > 0.0
  }

  function LegOrder(l: Limits, c: Cross, id: nat): Order {
    if c.sellVenue == l.venue then Order(id, Sell, c.sellBidTick, l.targetQty) else Order(id, Buy, c.buyAskTick, l.targetQty)
  }

  function Dispatch(l: Limits, e: Engine, c: Cross): Engine {
    if !HasLeg(l, c) then e
    else
      var o := LegOrder(l, c, e.orderSeq + 1);
      e.(orderSeq := e.orderSeq + 1, inFlight := e.inFlight + [o], submitted := e.submitted + [o])
  }

  function OnSignal(l: Limits, e: Engine, c: Cross): Engine {
    if !Admits(l, e, c) then e
    else Dispatch(l, e.(lastSignal := Record(l.cooldownNs, e.lastSignal, SignalKey(c), c.tsDetectedNs),
                        dispatched := e.dispatched + [Pass(SignalKey(c), c.tsDetectedNs)]), c)
  }

  /** What a client reports for an order; the dry-run client reports the whole order at its price. */
  datatype Fill = Fill(quantity: real, priceTick: int)

  function FillCost(f: Fill): real {
    f.quantity * Price(f.priceTick)
  }

  datatype Input = Signal(c: Cross) | Filled(k: nat, fill: Fill) | Rejected(k: nat) | Pause | Resume

  function Without(os: seq<Order>, k: nat): seq<Order>
    requires k < |os|
  {
    os[..k] + os[k + 1..]
  }

  /** Replies arrive in any order; a reply for an order that is not in flight does nothing. */
  function Step(l: Limits, e: Engine, i: Input): Engine {
    match i
    case Signal(c) => OnSignal(l, e, c)
    case Filled(k, fill) =>
      if k < |e.inFlight|
      then e.(openNotional := e.openNotional + FillCost(fill), inFlight := Without(e.inFlight, k))
      else e
    case Rejected(k) => if k < |e.inFlight| then e.(inFlight := Without(e.inFlight, k)) else e
    case Pause => e.(paused := true)
    case Resume => e.(paused := false)
  }

  function After(l: Limits, ins: seq<Input>, n: nat): Engine
    requires n <= |ins|
  {
    if n == 0 then FRESH else Step(l, After(l, ins, n - 1), ins[n - 1])
  }

  // ---- start-up options ----

  datatype StartOptions = StartOptions(venue: string, targetQty: real, positionLimit: real, maxOrderNotional: real, cooldownMs: int,
                             dryRunFlag: bool, liveModeFlag: bool, armLive: bool, enableLiveVenue: string,
                             liveOrderNotionalCap: real)

  /** The rollout guards of the command line; live mode is what `--live-mode` asks for. */
  predicate OptionsAccepted(o: StartOptions) {
    && !(o.dryRunFlag && o.liveModeFlag)
    && o.liveOrderNotionalCap > 0.0
    && (o.liveModeFlag ==>
          && o.armLive && o.enableLiveVenue == o.venue
          && o.maxOrderNotional > 0.0
          && o.targetQty * o.maxOrderNotional <= o.liveOrderNotionalCap)
  }

  function LimitsOf(o: StartOptions): Limits {
    Limits(o.venue, o.positionLimit, o.maxOrderNotional, o.cooldownMs * 1000000, o.targetQty)
  }

  // ---- the classes ----

  class ImmediateStrategy {
    const venue: string
    const targetQty: real
    var paused: bool
    var orderSeq: nat
    var inFlight: seq<Order>
    ghost var submitted: seq<Order>

    constructor (venue: string, targetQty: real)
      ensures this.venue == venue && this.targetQty == targetQty
      ensures !paused && orderSeq == 0 && inFlight == [] && submitted == []
    {
      this.venue, this.targetQty := venue, targetQty;
      paused, orderSeq, inFlight, submitted := false, 0, [], [];
    }

    method HandleSignal(c: Cross, ghost l: Limits, ghost e: Engine)
      requires l.venue == venue && l.targetQty == targetQty
      requires orderSeq == e.orderSeq && inFlight == e.inFlight && submitted == e.submitted
      modifies this
      ensures var d := if paused then e else Dispatch(l, e, c);
              paused == old(paused) && orderSeq == d.orderSeq && inFlight == d.inFlight && submitted == d.submitted
    {
      if paused {
        return;
      }
      var side, price;
      if c.sellVenue == venue {
        side, price := Sell, c.sellBidTick;
      } else if c.buyVenue == venue {
        side, price := Buy, c.buyAskTick;
      } else {
        return;
      }
      if targetQty <= 0.0 {
        return;
      }
      orderSeq := orderSeq + 1;
      var order := Order(orderSeq, side, price, targetQty);
      inFlight := inFlight + [order];
      submitted := submitted + [order];
    }
  }

  class ExecEngine {
    const limits: Limits
    const strategy: ImmediateStrategy
    var openNotional: real
    var paused: bool
    var lastSignal: map<string, int>
    ghost var dispatched: seq<Pass>

    ghost predicate Valid()
      reads this, strategy
    {
      strategy.venue == limits.venue && strategy.targetQty == limits.targetQty && strategy.paused == paused
    }

    ghost function View(): Engine
      reads this, strategy
    {
      Engine(openNotional, paused, lastSignal, strategy.orderSeq, strategy.inFlight, dispatched, strategy.submitted)
    }

    constructor (limits: Limits)
      ensures Valid() && fresh(strategy) && this.limits == limits && View() == FRESH
    {
      this.limits := limits;
      strategy := new ImmediateStrategy(limits.venue, limits.targetQty);
      openNotional, paused, lastSignal, dispatched := 0.0, false, map[], [];
    }

    method HandleSignal(c: Cross)
      requires Valid()
      modifies this, strategy
      ensures Valid() && View() == OnSignal(limits, old(View()), c)
    {
      if limits.maxOrderNotional > 0.0 && Price(c.sellBidTick) > limits.maxOrderNotional {
        return;
      }
      if limits.positionLimit > 0.0 && openNotional + Price(c.sellBidTick) > limits.positionLimit {
        return;
      }
      if paused {
        return;
      }
      if limits.cooldownNs > 0 {
        var key := SignalKey(c);
        if key in lastSignal && c.tsDetectedNs - lastSignal[key] < limits.cooldownNs {
          return;
        }
        lastSignal := lastSignal[key := c.tsDetectedNs];
      }
      dispatched := dispatched + [Pass(SignalKey(c), c.tsDetectedNs)];
      strategy.HandleSignal(c, limits, View());
    }

    /** The client's reply for the k-th order in flight: a fill of any quantity and price, or an error. */
    method HandleReply(k: nat, fill: Option<Fill>)
      requires Valid() && k < |strategy.inFlight|
      modifies this, strategy
      ensures Valid() && View() == Step(limits, old(View()), if fill.Some? then Filled(k, fill.value) else Rejected(k))
    {
      strategy.inFlight := Without(strategy.inFlight, k);
      if fill.Some? {
        openNotional := openNotional + fill.value.quantity * (fill.value.priceTick as real / 100.0);
      }
    }

    method SetPaused(p: bool)
      requires Valid()
      modifies this, strategy
      ensures Valid() && View() == Step(limits, old(View()), if p then Pause else Resume)
    {
      paused := p;
      strategy.paused := p;
    }
  }

  // ---- exposure ----

  function Total(os: seq<Order>): real {
    if os == [] then 0.0 else Total(os[..|os| - 1]) + Notional(os[|os| - 1])
  }

  /** Filled plus in-flight notional. */
  function Exposure(e: Engine): real {
    e.openNotional + Total(e.inFlight)
  }

  /** A real cross of positive prices, sold no lower than bought. */
  ghost predicate Sane(i: Input) {
    i.Signal? ==> 0 <= i.c.buyAskTick <= i.c.sellBidTick
  }

  ghost predicate EachWithin(os: seq<Order>, cap: real) {
    forall o :: o in os ==> 0.0 <= Notional(o) <= cap
  }

  lemma {:induction false} TotalAppend(os: seq<Order>, o: Order)
    ensures Total(os + [o]) == Total(os) + Notional(o)
  {
    assert (os + [o])[..|os|] == os;
  }

  lemma {:induction false} TotalWithout(os: seq<Order>, k: nat)
    requires k < |os|
    ensures Total(Without(os, k)) == Total(os) - Notional(os[k])
  {
    var n := |os| - 1;
    if k < n {
      TotalWithout(os[..n], k);
      assert Without(os, k)[..n - 1] == Without(os[..n], k);
    } else {
      assert Without(os, k) == os[..n];
    }
  }

  /** `n` times `cap`, by addition. */
  function Worst(n: nat, cap: real): real {
    if n == 0 then 0.0 else Worst(n - 1, cap) + cap
  }

  lemma {:induction false} TotalBound(os: seq<Order>, n: nat, cap: real)
    requires EachWithin(os, cap) && |os| <= n && cap >= 0.0
    ensures Total(os) <= Worst(n, cap) && 0.0 <= Worst(n, cap)
    decreases n
  {
    if n != 0 {
      if os == [] {
        TotalBound(os, n - 1, cap);
      } else {
        assert os[|os| - 1] in os;
        TotalBound(os[..|os| - 1], n - 1, cap);
      }
    }
  }

  lemma {:induction false} WorstIsProduct(n: nat, cap: real)
    ensures Worst(n, cap) == n as real * cap
  {
    if n != 0 {
      WorstIsProduct(n - 1, cap);
      assert n as real * cap == (n - 1) as real * cap + cap;
    }
  }

  /** The worst single order: at most q times the fat-finger cap, and at most the price E1 charged for it. */
  lemma OrderBound(l: Limits, c: Cross, id: nat)
    requires 0.0 < l.targetQty && l.maxOrderNotional > 0.0 && 0 <= c.buyAskTick <= c.sellBidTick
    requires Price(c.sellBidTick) <= l.maxOrderNotional
    ensures 0.0 <= Notional(LegOrder(l, c, id)) <= OrderCap(l)
    ensures l.targetQty <= 1.0 ==> Notional(LegOrder(l, c, id)) <= Price(c.sellBidTick)
  {
    NotionalBound(LegOrder(l, c, id), c.sellBidTick, l.maxOrderNotional);
  }

  lemma NotionalBound(o: Order, top: int, most: real)
    requires 0.0 < o.quantity && 0 <= o.priceTick <= top && Price(top) <= most
    ensures 0.0 <= Notional(o) <= o.quantity * most
    ensures o.quantity <= 1.0 ==> Notional(o) <= Price(top)
  {
    CostBound(o.quantity, Price(o.priceTick), most);
  }

  lemma CostBound(q: real, p: real, most: real)
    requires 0.0 < q && 0.0 <= p <= most
    ensures 0.0 <= q * p <= q * most
    ensures q <= 1.0 ==> q * p <= p
  {
    Scale(q, 0.0, p);
    Scale(q, p, most);
    if q <= 1.0 {
      Scale(p, q, 1.0);
    }
  }

  lemma Scale(k: real, a: real, b: real)
    requires 0.0 <= k && a <= b
    ensures k * a <= k * b
  {
    assert 0.0 <= k * (b - a);
  }

  /** What one order may cost at most. */
  function OrderCap(l: Limits): real {
    l.targetQty * l.maxOrderNotional
  }

  /** The bound: the position limit plus what m - 1 other orders in flight may add. */
  function Ceiling(l: Limits, m: nat): real
    requires m >= 1
  {
    l.positionLimit + Worst(m - 1, OrderCap(l))
  }

  lemma CeilingIsProduct(l: Limits, m: nat)
    requires m >= 1
    ensures Ceiling(l, m) == l.positionLimit + (m - 1) as real * OrderCap(l)
  {
    WorstIsProduct(m - 1, OrderCap(l));
  }

  ghost predicate Guarded(l: Limits) {
    l.positionLimit > 0.0 && l.maxOrderNotional > 0.0 && 0.0 < l.targetQty <= 1.0
  }

  /** Any admissible leg costs at most `cap`, and at most the price that E1 charged for it. */
  ghost predicate LegsWithin(l: Limits, cap: real) {
    forall c: Cross, id: nat :: 0 <= c.buyAskTick <= c.sellBidTick && Price(c.sellBidTick) <= l.maxOrderNotional ==>
      0.0 <= Notional(LegOrder(l, c, id)) <= cap && Notional(LegOrder(l, c, id)) <= Price(c.sellBidTick)
  }

  ghost predicate ExposureInv(limit: real, cap: real, e: Engine, m: nat) {
    m >= 1 && Exposure(e) <= limit + Worst(m - 1, cap) && EachWithin(e.inFlight, cap)
  }

  lemma DispatchExposure(limit: real, e: Engine, o: Order, m: nat, cap: real, p: real)
    requires EachWithin(e.inFlight, cap) && |e.inFlight| < m && cap >= 0.0
    requires e.openNotional + p <= limit && Notional(o) <= p
    ensures e.openNotional + Total(e.inFlight + [o]) <= limit + Worst(m - 1, cap)
  {
    TotalAppend(e.inFlight, o);
    TotalBound(e.inFlight, m - 1, cap);
  }

  lemma SignalExposure(l: Limits, e: Engine, c: Cross, m: nat, cap: real)
    requires Guarded(l) && ExposureInv(l.positionLimit, cap, e, m) && 0 <= c.buyAskTick <= c.sellBidTick
    requires |OnSignal(l, e, c).inFlight| <= m && cap >= 0.0 && LegsWithin(l, cap)
    ensures ExposureInv(l.positionLimit, cap, OnSignal(l, e, c), m)
  {
    if Admits(l, e, c) && HasLeg(l, c) {
      DispatchExposure(l.positionLimit, e, LegOrder(l, c, e.orderSeq + 1), m, cap, Price(c.sellBidTick));
    }
  }

  /** A fill that costs no more than its order, or no fill. */
  ghost predicate Covered(e: Engine, i: Input) {
    i.Filled? && i.k < |e.inFlight| ==> FillCost(i.fill) <= Notional(e.inFlight[i.k])
  }

  lemma ReplyExposure(l: Limits, e: Engine, i: Input, m: nat, limit: real, cap: real)
    requires ExposureInv(limit, cap, e, m) && Covered(e, i) && (i.Filled? || i.Rejected?)
    ensures ExposureInv(limit, cap, Step(l, e, i), m)
  {
    if i.k < |e.inFlight| {
      TotalWithout(e.inFlight, i.k);
      assert e.inFlight[i.k] in e.inFlight;
      assert forall o :: o in Without(e.inFlight, i.k) ==> o in e.inFlight;
    }
  }

  /** The inputs of a run: real crosses, and fills within their orders. */
  ghost predicate Proper(l: Limits, ins: seq<Input>, i: nat)
    requires i < |ins|
  {
    Sane(ins[i]) && Covered(After(l, ins, i), ins[i])
  }

  lemma {:induction false} ExposureAlways(l: Limits, ins: seq<Input>, n: nat, m: nat, cap: real)
    requires Guarded(l) && n <= |ins| && m >= 1 && cap >= 0.0 && LegsWithin(l, cap)
    requires forall i :: 0 <= i < n ==> Proper(l, ins, i)
    requires forall i :: 0 <= i <= n ==> |After(l, ins, i).inFlight| <= m
    ensures ExposureInv(l.positionLimit, cap, After(l, ins, n), m)
  {
    if n == 0 {
      TotalBound([], m - 1, cap);
      assert Exposure(FRESH) == 0.0;
    } else {
      ExposureAlways(l, ins, n - 1, m, cap);
      var e, i := After(l, ins, n - 1), ins[n - 1];
      assert Proper(l, ins, n - 1) && |After(l, ins, n).inFlight| <= m;
      match i
      case Signal(c) => SignalExposure(l, e, c, m, cap);
      case Filled(_, _) => ReplyExposure(l, e, i, m, l.positionLimit, cap);
      case Rejected(_) => ReplyExposure(l, e, i, m, l.positionLimit, cap);
      case _ =>
    }
  }

  lemma CapHolds(l: Limits)
    requires Guarded(l)
    ensures OrderCap(l) >= 0.0 && LegsWithin(l, OrderCap(l))
  {
    Scale(l.targetQty, 0.0, l.maxOrderNotional);
    forall c: Cross, id: nat | 0 <= c.buyAskTick <= c.sellBidTick && Price(c.sellBidTick) <= l.maxOrderNotional
      ensures 0.0 <= Notional(LegOrder(l, c, id)) <= OrderCap(l) && Notional(LegOrder(l, c, id)) <= Price(c.sellBidTick)
    {
      OrderBound(l, c, id);
    }
  }

  /**
   Exposure bound over every run with at most m orders in flight: filled plus in-flight
   notional never exceeds the position limit plus m - 1 maximal orders.
   */
  lemma ExposureBounded(l: Limits, ins: seq<Input>, n: nat, m: nat)
    requires Guarded(l) && n <= |ins| && m >= 1
    requires forall i :: 0 <= i < n ==> Proper(l, ins, i)
    requires forall i :: 0 <= i <= n ==> |After(l, ins, i).inFlight| <= m
    ensures Exposure(After(l, ins, n)) <= Ceiling(l, m)
  {
    CapHolds(l);
    ExposureAlways(l, ins, n, m, OrderCap(l));
  }

  // ---- what E1 does for larger quantities ----

  /** What `ticks` cost at the target quantity. */
  function Cost(l: Limits, ticks: nat): real {
    l.targetQty * Price(ticks)
  }

  lemma CostAdds(l: Limits, a: nat, b: nat)
    ensures Cost(l, a + b) == Cost(l, a) + Cost(l, b)
  {
    assert Price(a + b) == Price(a) + Price(b);
  }

  lemma CostGrows(l: Limits, a: nat, b: nat)
    requires a <= b && l.targetQty >= 0.0
    ensures 0.0 <= Cost(l, a) <= Cost(l, b)
  {
    Scale(l.targetQty, 0.0, Price(a));
    Scale(l.targetQty, Price(a), Price(b));
  }

  /** With `filled` ticks on the books, an order at `tick` passes E4 and E1 and breaks the limit. */
  ghost predicate BreaksAt(l: Limits, filled: nat, tick: nat) {
    && tick >= 1 && Price(tick) <= l.maxOrderNotional
    && Cost(l, filled) + Price(tick) <= l.positionLimit < Cost(l, filled + tick)
  }

  /** Some filled amount and price get past the guards and beyond the limit. */
  ghost predicate Breakable(l: Limits) {
    exists filled: nat, tick: nat :: BreaksAt(l, filled, tick)
  }

  /** One order at a time, filled whole at its price. */
  ghost predicate Sequential(l: Limits, ins: seq<Input>, i: nat)
    requires i < |ins|
  {
    var e := After(l, ins, i);
    && Sane(ins[i])
    && |e.inFlight| <= 1 && |After(l, ins, i + 1).inFlight| <= 1
    && (ins[i].Filled? && ins[i].k < |e.inFlight| ==>
          ins[i].fill == Fill(e.inFlight[ins[i].k].quantity, e.inFlight[ins[i].k].priceTick))
  }

  ghost predicate AllSequential(l: Limits, ins: seq<Input>) {
    forall i :: 0 <= i < |ins| ==> Sequential(l, ins, i)
  }

  /** The books hold whole orders, and so does the one in flight. */
  ghost predicate Whole(l: Limits, e: Engine, filled: nat) {
    && e.openNotional == Cost(l, filled)
    && (e.inFlight == [] || (|e.inFlight| == 1 && e.inFlight[0].quantity == l.targetQty && e.inFlight[0].priceTick >= 0))
  }

  lemma OneTotal(os: seq<Order>)
    requires |os| == 1
    ensures Total(os) == Notional(os[0])
  {
    assert os[..0] == [];
  }

  lemma DispatchWhole(l: Limits, e: Engine, c: Cross, filled: nat)
    requires Whole(l, e, filled) && Exposure(e) <= l.positionLimit && 0 <= c.buyAskTick <= c.sellBidTick
    requires l.positionLimit > 0.0 && l.maxOrderNotional > 0.0 && |OnSignal(l, e, c).inFlight| <= 1
    ensures Whole(l, OnSignal(l, e, c), filled)
    ensures Exposure(OnSignal(l, e, c)) <= l.positionLimit || Breakable(l)
  {
    if Admits(l, e, c) && HasLeg(l, c) {
      var o := LegOrder(l, c, e.orderSeq + 1);
      var t: nat := o.priceTick;
      assert e.inFlight == [] && OnSignal(l, e, c).inFlight == [o];
      OneTotal([o]);
      CostAdds(l, filled, t);
      assert Exposure(OnSignal(l, e, c)) == Cost(l, filled + t);
      if Cost(l, filled + t) > l.positionLimit {
        assert Price(t) <= Price(c.sellBidTick);
        assert t != 0;
        assert BreaksAt(l, filled, t);
      }
    }
  }

  lemma ReplyWhole(l: Limits, e: Engine, i: Input, filled: nat) returns (after: nat)
    requires Whole(l, e, filled) && Exposure(e) <= l.positionLimit && l.targetQty > 0.0 && (i.Filled? || i.Rejected?)
    requires i.Filled? && i.k < |e.inFlight| ==>
             i.fill == Fill(e.inFlight[i.k].quantity, e.inFlight[i.k].priceTick)
    ensures Whole(l, Step(l, e, i), after) && Exposure(Step(l, e, i)) <= l.positionLimit
  {
    after := filled;
    if i.k < |e.inFlight| {
      var t: nat := e.inFlight[0].priceTick;
      OneTotal(e.inFlight);
      assert Without(e.inFlight, i.k) == [];
      CostGrows(l, 0, t);
      if i.Filled? {
        CostAdds(l, filled, t);
        after := filled + t;
      }
    }
  }

  /** While no order can break the limit, none does. */
  lemma {:induction false} SequentialKeeps(l: Limits, ins: seq<Input>, n: nat) returns (filled: nat)
    requires l.positionLimit > 0.0 && l.maxOrderNotional > 0.0 && l.targetQty > 0.0 && n <= |ins| && !Breakable(l)
    requires forall i :: 0 <= i < n ==> Sequential(l, ins, i)
    ensures Whole(l, After(l, ins, n), filled) && Exposure(After(l, ins, n)) <= l.positionLimit
  {
    if n == 0 {
      filled := 0;
      assert Cost(l, 0) == 0.0 && Exposure(FRESH) == 0.0;
    } else {
      filled := SequentialKeeps(l, ins, n - 1);
      assert Sequential(l, ins, n - 1);
      filled := SequentialStep(l, After(l, ins, n - 1), ins[n - 1], filled);
    }
  }

  lemma SequentialStep(l: Limits, e: Engine, i: Input, filled: nat) returns (after: nat)
    requires l.positionLimit > 0.0 && l.maxOrderNotional > 0.0 && l.targetQty > 0.0 && !Breakable(l)
    requires Whole(l, e, filled) && Exposure(e) <= l.positionLimit && Sane(i) && |Step(l, e, i).inFlight| <= 1
    requires i.Filled? && i.k < |e.inFlight| ==>
             i.fill == Fill(e.inFlight[i.k].quantity, e.inFlight[i.k].priceTick)
    ensures Whole(l, Step(l, e, i), after) && Exposure(Step(l, e, i)) <= l.positionLimit
  {
    after := filled;
    match i
    case Signal(c) => DispatchWhole(l, e, c, filled);
    case Filled(_, _) => after := ReplyWhole(l, e, i, filled);
    case Rejected(_) => after := ReplyWhole(l, e, i, filled);
    case _ =>
  }

  // ---- a run that breaks the limit ----

  /** The i-th signal of the run: this venue sells at `tick`, a cooldown after the one before. */
  function Ask(l: Limits, i: nat, tick: nat): Cross {
    Cross(l.venue, "", tick, 0, 0.0, 0.0, if l.cooldownNs > 0 then i * l.cooldownNs else 0, 0, 0)
  }

  /** `filled` orders of one tick, each filled before the next, then one at `tick`. */
  function BreakingRun(l: Limits, filled: nat, tick: nat): seq<Input> {
    OneTicks(l, filled) + [Signal(Ask(l, filled, tick))]
  }

  function OneTicks(l: Limits, n: nat): (ins: seq<Input>)
    ensures |ins| == 2 * n
  {
    if n == 0 then [] else OneTicks(l, n - 1) + [Signal(Ask(l, n - 1, 1)), Filled(0, Fill(l.targetQty, 1))]
  }

  lemma {:induction false} AfterPrefix(l: Limits, a: seq<Input>, b: seq<Input>, n: nat)
    requires n <= |a|
    ensures After(l, a + b, n) == After(l, a, n)
  {
    if n != 0 {
      AfterPrefix(l, a, b, n - 1);
    }
  }

  /** Idle, with `n` ticks filled and the last signal a cooldown before the next. */
  ghost predicate IdleAt(l: Limits, e: Engine, n: nat) {
    && e.openNotional == Cost(l, n) && e.inFlight == [] && !e.paused
    && (l.cooldownNs > 0 ==> forall key :: key in e.lastSignal ==> e.lastSignal[key] <= (n - 1) * l.cooldownNs)
  }

  lemma AskAdmitted(l: Limits, e: Engine, n: nat, tick: nat)
    requires IdleAt(l, e, n) && l.targetQty > 0.0 && Price(tick) <= l.maxOrderNotional && Cost(l, n) + Price(tick) <= l.positionLimit
    ensures var g := OnSignal(l, e, Ask(l, n, tick));
            && g.inFlight == [Order(e.orderSeq + 1, Sell, tick, l.targetQty)]
            && g.openNotional == e.openNotional && !g.paused
            && (l.cooldownNs > 0 ==> forall key :: key in g.lastSignal ==> g.lastSignal[key] <= n * l.cooldownNs)
  {
    if l.cooldownNs > 0 {
      assert n * l.cooldownNs == (n - 1) * l.cooldownNs + l.cooldownNs;
    }
  }

  lemma OneTickFilled(l: Limits, e: Engine, n: nat)
    requires IdleAt(l, e, n) && l.targetQty > 0.0 && Price(1) <= l.maxOrderNotional && Cost(l, n) + Price(1) <= l.positionLimit
    ensures var g := OnSignal(l, e, Ask(l, n, 1));
            |g.inFlight| == 1 && g.inFlight[0].quantity == l.targetQty && g.inFlight[0].priceTick == 1
            && IdleAt(l, Step(l, g, Filled(0, Fill(l.targetQty, 1))), n + 1)
  {
    AskAdmitted(l, e, n, 1);
    CostAdds(l, n, 1);
  }

  lemma {:induction false} OneTicksRun(l: Limits, n: nat)
    requires l.targetQty > 0.0 && Price(1) <= l.maxOrderNotional
    requires n > 0 ==> Cost(l, n - 1) + Price(1) <= l.positionLimit
    ensures IdleAt(l, After(l, OneTicks(l, n), 2 * n), n)
    ensures AllSequential(l, OneTicks(l, n))
  {
    if n == 0 {
      assert Cost(l, 0) == 0.0;
    } else {
      CostGrows(l, if n > 1 then n - 2 else 0, n - 1);
      OneTicksRun(l, n - 1);
      OneTicksNext(l, n - 1);
    }
  }

  lemma OneTicksNext(l: Limits, n: nat)
    requires l.targetQty > 0.0 && Price(1) <= l.maxOrderNotional && Cost(l, n) + Price(1) <= l.positionLimit
    requires IdleAt(l, After(l, OneTicks(l, n), 2 * n), n)
    requires AllSequential(l, OneTicks(l, n))
    ensures IdleAt(l, After(l, OneTicks(l, n + 1), 2 * n + 2), n + 1)
    ensures AllSequential(l, OneTicks(l, n + 1))
  {
    var a, all := OneTicks(l, n), OneTicks(l, n + 1);
    var e := After(l, a, 2 * n);
    AfterPrefix(l, a, all[2 * n..], 2 * n);
    assert all == a + all[2 * n..];
    TwoMoreInputs(l, e, all, n);
    forall i | 0 <= i < 2 * n + 2 ensures Sequential(l, all, i) {
      if i < 2 * n {
        SequentialPrefix(l, a, all[2 * n..], i);
      }
    }
  }

  /** The signal and its fill that end the run. */
  lemma TwoMoreInputs(l: Limits, e: Engine, all: seq<Input>, n: nat)
    requires l.targetQty > 0.0 && Price(1) <= l.maxOrderNotional && Cost(l, n) + Price(1) <= l.positionLimit
    requires |all| == 2 * n + 2 && After(l, all, 2 * n) == e && IdleAt(l, e, n)
    requires all[2 * n] == Signal(Ask(l, n, 1)) && all[2 * n + 1] == Filled(0, Fill(l.targetQty, 1))
    ensures IdleAt(l, After(l, all, 2 * n + 2), n + 1) && Sequential(l, all, 2 * n) && Sequential(l, all, 2 * n + 1)
  {
    OneTickFilled(l, e, n);
    assert After(l, all, 2 * n + 1) == OnSignal(l, e, Ask(l, n, 1));
  }

  lemma SequentialPrefix(l: Limits, a: seq<Input>, b: seq<Input>, i: nat)
    requires i < |a| && Sequential(l, a, i)
    ensures Sequential(l, a + b, i)
  {
    AfterPrefix(l, a, b, i);
    AfterPrefix(l, a, b, i + 1);
  }

  lemma LastAskBreaks(l: Limits, e: Engine, filled: nat, tick: nat)
    requires IdleAt(l, e, filled) && l.targetQty > 0.0 && BreaksAt(l, filled, tick)
    ensures var g := OnSignal(l, e, Ask(l, filled, tick)); |g.inFlight| == 1 && Exposure(g) > l.positionLimit
  {
    AskAdmitted(l, e, filled, tick);
    OneTotal(OnSignal(l, e, Ask(l, filled, tick)).inFlight);
    CostAdds(l, filled, tick);
  }

  /** The filled ticks that precede the breaking order can all be reached one by one. */
  lemma ReachFilled(l: Limits, filled: nat, tick: nat)
    requires l.targetQty > 0.0 && BreaksAt(l, filled, tick)
    ensures IdleAt(l, After(l, OneTicks(l, filled), 2 * filled), filled) && AllSequential(l, OneTicks(l, filled))
  {
    assert Price(1) <= Price(tick);
    if filled > 0 {
      CostGrows(l, filled - 1, filled);
    }
    OneTicksRun(l, filled);
  }

  /** One more sane input that leaves at most one order in flight. */
  lemma SequentialSnoc(l: Limits, a: seq<Input>, c: Cross)
    requires AllSequential(l, a) && 0 <= c.buyAskTick <= c.sellBidTick
    requires var e := After(l, a, |a|); |e.inFlight| <= 1 && |OnSignal(l, e, c).inFlight| <= 1
    ensures AllSequential(l, a + [Signal(c)])
    ensures After(l, a + [Signal(c)], |a| + 1) == OnSignal(l, After(l, a, |a|), c)
  {
    AfterPrefix(l, a, [Signal(c)], |a|);
    forall i | 0 <= i < |a| + 1 ensures Sequential(l, a + [Signal(c)], i) {
      if i < |a| {
        SequentialPrefix(l, a, [Signal(c)], i);
      }
    }
  }

  /** The run that breaks the limit. */
  lemma BreakingRunBreaks(l: Limits, filled: nat, tick: nat)
    requires l.targetQty > 0.0 && BreaksAt(l, filled, tick)
    ensures var ins := BreakingRun(l, filled, tick); AllSequential(l, ins) && Exposure(After(l, ins, |ins|)) > l.positionLimit
  {
    ReachFilled(l, filled, tick);
    LastAskBreaks(l, After(l, OneTicks(l, filled), 2 * filled), filled, tick);
    SequentialSnoc(l, OneTicks(l, filled), Ask(l, filled, tick));
  }

  /** Some sequential run ends with more filled and in flight than the position limit allows. */
  ghost predicate SomeRunBreaks(l: Limits) {
    exists ins: seq<Input> :: AllSequential(l, ins) && Exposure(After(l, ins, |ins|)) > l.positionLimit
  }

  /**
   E1 charges one unit while an order costs `targetQty` units. With one order at a time and whole
   fills, some run breaks the position limit if and only if some multiple of a tick can be on the
   books together with a price that passes E4 and E1 there and yet costs too much at the target quantity.
   */
  lemma UnitGuardExact(l: Limits)
    requires l.positionLimit > 0.0 && l.maxOrderNotional > 0.0 && l.targetQty > 0.0
    ensures SomeRunBreaks(l) <==> Breakable(l)
  {
    if Breakable(l) {
      var filled: nat, tick: nat :| BreaksAt(l, filled, tick);
      BreakingRunBreaks(l, filled, tick);
    } else {
      forall ins: seq<Input> | AllSequential(l, ins) ensures Exposure(After(l, ins, |ins|)) <= l.positionLimit {
        var _ := SequentialKeeps(l, ins, |ins|);
      }
    }
  }

  /** At most one unit per order, the limit cannot be broken. */
  lemma SmallQuantityKeeps(l: Limits)
    requires 0.0 < l.targetQty <= 1.0
    ensures !Breakable(l)
  {
    forall filled: nat, tick: nat ensures !BreaksAt(l, filled, tick) {
      CostAdds(l, filled, tick);
      CostBound(l.targetQty, Price(tick), Price(tick));
    }
  }

  // ---- live mode and spacing ----

  /** A signal on which this venue buys asks no more than it bids. */
  ghost predicate FairBuy(venue: string, i: Input) {
    i.Signal? && i.c.sellVenue != venue ==> i.c.buyAskTick <= i.c.sellBidTick
  }

  /** An order whose leg price passes E4 costs at most the quantity times the fat-finger limit. */
  lemma LegCapped(l: Limits, c: Cross, id: nat)
    requires 0.0 < l.targetQty && Price(c.sellBidTick) <= l.maxOrderNotional && FairBuy(l.venue, Signal(c))
    ensures Notional(LegOrder(l, c, id)) <= OrderCap(l)
  {
    Scale(l.targetQty, Price(LegOrder(l, c, id).priceTick), l.maxOrderNotional);
  }

  /** In live mode no order ever submitted exceeds the configured notional cap, sells without condition, buys on fair signals. */
  lemma {:induction false} LiveOrdersCapped(o: StartOptions, ins: seq<Input>, n: nat)
    requires OptionsAccepted(o) && o.liveModeFlag && n <= |ins|
    requires forall i :: 0 <= i < n ==> FairBuy(o.venue, ins[i])
    ensures forall x :: x in After(LimitsOf(o), ins, n).submitted ==> Notional(x) <= o.liveOrderNotionalCap
  {
    if n != 0 {
      var l := LimitsOf(o);
      LiveOrdersCapped(o, ins, n - 1);
      var e, i := After(l, ins, n - 1), ins[n - 1];
      assert FairBuy(o.venue, i);
      if i.Signal? && Admits(l, e, i.c) && HasLeg(l, i.c) {
        LegCapped(l, i.c, e.orderSeq + 1);
      }
    }
  }

  /** Some tick costs more than any given amount. */
  lemma DearTick(q: real, cap: real) returns (tick: nat)
    requires q > 0.0 && cap > 0.0
    ensures q * Price(tick) > cap
  {
    var x := 100.0 * cap / q;
    assert q * x == 100.0 * cap;
    assert x > 0.0;
    tick := x.Floor + 1;
    GrowsStrictly(q, x, tick as real);
    Hundredth(q, tick as real, cap);
  }

  lemma Hundredth(q: real, t: real, cap: real)
    requires q * t > 100.0 * cap
    ensures q * (t / 100.0) > cap
  {
    assert q * (t / 100.0) == (q * t) / 100.0;
  }

  lemma GrowsStrictly(q: real, a: real, b: real)
    requires q > 0.0 && a < b
    ensures q * a < q * b
  {
    assert q * (b - a) > 0.0;
  }

  /** Every signal that gets past a fresh engine leads to an order within the cap. */
  ghost predicate CapHoldsForAll(o: StartOptions) {
    forall c: Cross :: Admits(LimitsOf(o), FRESH, c) && HasLeg(LimitsOf(o), c) ==>
      Notional(LegOrder(LimitsOf(o), c, 1)) <= o.liveOrderNotionalCap
  }

  /** Without fair buys the cap protects nothing that trades: E4 never looks at the buy ask. */
  lemma CapNeedsFairBuys(o: StartOptions)
    requires OptionsAccepted(o) && o.liveModeFlag
    ensures CapHoldsForAll(o) <==> o.targetQty <= 0.0
  {
    if o.targetQty > 0.0 {
      var tick := DearTick(o.targetQty, o.liveOrderNotionalCap);
      var l, c := LimitsOf(o), Cross(o.venue + "'", o.venue, 0, tick, 0.0, 0.0, 0, 0, 0);
      assert |c.sellVenue| != |o.venue|;
      assert Price(0) == 0.0;
      assert Admits(l, FRESH, c) && HasLeg(l, c);
      assert Notional(LegOrder(l, c, 1)) == o.targetQty * Price(tick);
    }
  }

  /** For any signal timestamps, dispatched signals of one pair are at least the cooldown apart. */
  lemma {:induction false} SignalsSpaced(l: Limits, ins: seq<Input>, n: nat)
    requires n <= |ins|
    ensures var e := After(l, ins, n);
            LimiterInv(l.cooldownNs, e.lastSignal, e.dispatched) && (l.cooldownNs > 0 ==> Spaced(l.cooldownNs, e.dispatched))
  {
    if n != 0 {
      SignalsSpaced(l, ins, n - 1);
      var e, i := After(l, ins, n - 1), ins[n - 1];
      if i.Signal? && Admits(l, e, i.c) {
        PassKeepsSpacing(l.cooldownNs, e.lastSignal, e.dispatched, SignalKey(i.c), i.c.tsDetectedNs);
      }
    }
  }
}
