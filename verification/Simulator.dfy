/**
 The multi-latency backtest. The market part (books, crosses, windows) is driven by the events
 alone; the accounts part (pending executions, capital and results per latency) rides on it.
 */
module Simulator {
  import opened Options
  import opened TimedQueues

  type Price = p: real | p > 0.0 witness 1.0

  datatype Quote = Quote(price: Price, qty: real)
  datatype Book = Book(venue: string, symbol: string, ts: int, bids: seq<Quote>, asks: seq<Quote>)

  /** One row of the merged stream: the venue of its file and the book it carries. */
  datatype Event = Event(venue: string, book: Book)

  /** What drives the market part. */
  datatype Rules = Rules(minSpreadBps: real, maxDiffNs: real, maxAgeNs: int, ttlMinMs: real)

  /** What drives one execution. */
  datatype Trading = Trading(targetQty: real, riskPct: real, initialQuote: real, initialBase: real,
                             takerBps: map<string, real>, fallbackTakerBps: real)

  /** The latency list may repeat a value, as the command line may. */
  datatype Setup = Setup(rules: Rules, trading: Trading, latencies: seq<int>)

  const EVICT_EVERY: nat := 100000
  const INF_TTL: int := 1152921504606846976
  const NS_PER_MS: real := 1000000.0

  // ---- unified order book: the latest book per venue, in insertion order ----

  function Find(bs: seq<Event>, venue: string, from: nat): (i: nat)
    requires from <= |bs|
    ensures from <= i <= |bs|
    decreases |bs| - from
  {
    if from == |bs| || bs[from].venue == venue then from else Find(bs, venue, from + 1)
  }

  function Put(bs: seq<Event>, e: Event): seq<Event> {
    var i := Find(bs, e.venue, 0);
    if i < |bs| then bs[i := e] else bs + [e]
  }

  function Get(bs: seq<Event>, venue: string): Option<Book> {
    var i := Find(bs, venue, 0);
    if i < |bs| then Some(bs[i].book) else None
  }

  function Evict(bs: seq<Event>, now: int, maxAge: int): seq<Event> {
    if bs == [] then []
    else (if now - bs[0].book.ts > maxAge then [] else [bs[0]]) + Evict(bs[1..], now, maxAge)
  }

  // ---- crosses ----

  datatype Pair = Pair(buy: string, sell: string)
  datatype Cross = Cross(pair: Pair, buyAsk: real, sellBid: real, spreadAbs: real, spreadBps: real)

  function AbsInt(x: int): int {
    if x < 0 then -x else x
  }

  predicate Crosses(r: Rules, buy: Event, sell: Event) {
    && buy.venue != sell.venue
    && AbsInt(buy.book.ts - sell.book.ts) as real <= r.maxDiffNs
    && buy.book.asks != [] && sell.book.bids != []
    && sell.book.bids[0].price > buy.book.asks[0].price
    && CrossOf(buy, sell).spreadBps >= r.minSpreadBps
  }

  function CrossOf(buy: Event, sell: Event): Cross
    requires buy.book.asks != [] && sell.book.bids != []
  {
    var ask, bid: real := buy.book.asks[0].price, sell.book.bids[0].price;
    Cross(Pair(buy.venue, sell.venue), ask, bid, bid - ask, ((bid - ask) / ((bid + ask) / 2.0)) * 10000.0)
  }

  function CrossRow(r: Rules, bs: seq<Event>, i: nat, j: nat): seq<Cross>
    requires i < |bs| && j <= |bs|
  {
    if j == 0 then []
    else CrossRow(r, bs, i, j - 1) + if Crosses(r, bs[i], bs[j - 1]) then [CrossOf(bs[i], bs[j - 1])] else []
  }

  function CrossRows(r: Rules, bs: seq<Event>, i: nat): seq<Cross>
    requires i <= |bs|
  {
    if i == 0 then [] else CrossRows(r, bs, i - 1) + CrossRow(r, bs, i - 1, |bs|)
  }

  function DetectCrosses(r: Rules, bs: seq<Event>): seq<Cross> {
    CrossRows(r, bs, |bs|)
  }

  // ---- windows ----

  /** `tsClose` 0 means open. */
  datatype Window = Window(pair: Pair, symbol: string, tsOpen: int, open: Cross, peakAbs: real, peakBps: real, tsClose: int)

  /** `active` and `recorded` name windows by their index in `windows`. */
  datatype Market = Market(books: seq<Event>, windows: seq<Window>, active: seq<nat>, recorded: seq<nat>,
                           processed: nat, lastTs: int)

  const QUIET := Market([], [], [], [], 0, 0)

  ghost predicate Sound(m: Market) {
    forall k :: 0 <= k < |m.active| ==> m.active[k] < |m.windows|
  }

  /** Position of the open window of a pair, or the length of the list. */
  function FindActive(ws: seq<Window>, active: seq<nat>, pair: Pair, from: nat): (i: nat)
    requires from <= |active|
    ensures from <= i <= |active|
    decreases |active| - from
  {
    if from == |active| || (active[from] < |ws| && ws[active[from]].pair == pair) then from
    else FindActive(ws, active, pair, from + 1)
  }

  predicate IsActive(m: Market, pair: Pair) {
    FindActive(m.windows, m.active, pair, 0) < |m.active|
  }

  function OpenWindow(c: Cross, symbol: string, now: int): Window {
    Window(c.pair, symbol, now, c, c.spreadAbs, c.spreadBps, 0)
  }

  function Widen(w: Window, c: Cross): Window {
    if c.spreadAbs > w.peakAbs then w.(peakAbs := c.spreadAbs, peakBps := c.spreadBps) else w
  }

  function MarketCross(m: Market, c: Cross, symbol: string, now: int): Market {
    var i := FindActive(m.windows, m.active, c.pair, 0);
    if i == |m.active| then
      m.(windows := m.windows + [OpenWindow(c, symbol, now)], active := m.active + [|m.windows|])
    else if m.active[i] < |m.windows| then
      m.(windows := m.windows[m.active[i] := Widen(m.windows[m.active[i]], c)])
    else m
  }

  predicate Live(cs: seq<Cross>, pair: Pair) {
    exists c :: c in cs && c.pair == pair
  }

  predicate Recorded(r: Rules, w: Window, now: int) {
    r.ttlMinMs <= 0.0 || (now - w.tsOpen) as real / NS_PER_MS >= r.ttlMinMs
  }

  /** The closing pass over the first `n` windows that were active when it began. */
  function CloseFirst(r: Rules, m: Market, cs: seq<Cross>, now: int, n: nat): Market
    requires n <= |m.active|
  {
    if n == 0 then m.(active := [])
    else
      var k, id := CloseFirst(r, m, cs, now, n - 1), m.active[n - 1];
      if id >= |k.windows| || Live(cs, k.windows[id].pair) then k.(active := k.active + [id])
      else
        k.(windows := k.windows[id := k.windows[id].(tsClose := now)],
           recorded := if Recorded(r, k.windows[id], now) then k.recorded + [id] else k.recorded)
  }

  /** Books after one more event, with the periodic eviction. */
  function Absorb(r: Rules, m: Market, e: Event): Market {
    var bs, n := Put(m.books, e), m.processed + 1;
    m.(books := if n % EVICT_EVERY == 0 then Evict(bs, e.book.ts, r.maxAgeNs) else bs, processed := n, lastTs := e.book.ts)
  }

  function MarketCrosses(m: Market, cs: seq<Cross>, n: nat, symbol: string, now: int): Market
    requires n <= |cs|
  {
    if n == 0 then m else MarketCross(MarketCrosses(m, cs, n - 1, symbol, now), cs[n - 1], symbol, now)
  }

  /** The market with the crosses of the current books opened, before anything is closed. */
  function MarketOpened(r: Rules, m: Market, e: Event): Market {
    var k := Absorb(r, m, e);
    if |k.books| < 2 then k
    else
      var cs := DetectCrosses(r, k.books);
      MarketCrosses(k, cs, |cs|, e.book.symbol, e.book.ts)
  }

  function MarketStep(r: Rules, m: Market, e: Event): Market {
    var k := MarketOpened(r, m, e);
    if |k.books| < 2 then k else CloseFirst(r, k, DetectCrosses(r, k.books), e.book.ts, |k.active|)
  }

  /** The market after the first `n` events: a function of the events and the rules alone. */
  function MarketAfter(r: Rules, es: seq<Event>, n: nat): Market
    requires n <= |es|
  {
    if n == 0 then QUIET else MarketStep(r, MarketAfter(r, es, n - 1), es[n - 1])
  }

  // ---- accounts ----

  datatype EquityPoint = EquityPoint(ts: int, pair: Pair, filledQty: real, netPnl: real, quote: real, base: real)

  datatype Capital = Capital(initialQuote: real, initialBase: real, quote: real, base: real, peakTradeQuote: real,
                             totalFills: nat, equity: seq<EquityPoint>)

  function Funded(t: Trading): Capital {
    Capital(t.initialQuote, t.initialBase, t.initialQuote, t.initialBase, 0.0, 0, [])
  }

  function RecordFill(c: Capital, net: real, notional: real, ts: int, pair: Pair, qty: real): Capital {
    c.(quote := c.quote + net, totalFills := c.totalFills + 1,
       peakTradeQuote := if notional > c.peakTradeQuote then notional else c.peakTradeQuote,
       equity := c.equity + [EquityPoint(ts, pair, qty, net, c.quote + net, c.base)])
  }

  datatype Note = Expired | MissingBook | EmptyBook | CrossClosed | NoQuote | NoBase | ZeroQty | FeesExceedSpread | Filled

  datatype NetResult = NetResult(reached: bool, valid: bool, filledQty: real, buyAvg: real, sellAvg: real, gross: real,
                                 buyFee: real, sellFee: real, net: real, capitalUsed: real, note: Note)

  function Missed(reached: bool, note: Note): NetResult {
    NetResult(reached, false, 0.0, 0.0, 0.0, 0.0, 0.0, 0.0, 0.0, 0.0, note)
  }

  function TakerRate(t: Trading, venue: string): real {
    (if venue in t.takerBps then t.takerBps[venue] else t.fallbackTakerBps) / 10000.0
  }

  function Min(a: real, b: real): real {
    if b < a then b else a
  }

  /** Quantity after the level-0, target and risk caps. */
  function WantedQty(t: Trading, cap: Capital, buy: Quote, sell: Quote): real {
    var q0 := Min(buy.qty, sell.qty);
    var q1 := if t.targetQty > 0.0 then Min(q0, t.targetQty) else q0;
    if t.riskPct > 0.0 && cap.initialQuote > 0.0 then Min(q1, (cap.quote * t.riskPct / 100.0) / buy.price) else q1
  }

  /** The capital caps, for the balances that are configured. */
  function AffordableQty(cap: Capital, buy: Quote, qty: real): real {
    var q := if cap.initialQuote > 0.0 then Min(qty, cap.quote / buy.price) else qty;
    if cap.initialBase > 0.0 then Min(q, cap.base) else q
  }

  predicate QuoteSpent(cap: Capital) {
    cap.initialQuote > 0.0 && cap.quote <= 0.0
  }

  predicate BaseSpent(cap: Capital) {
    cap.initialBase > 0.0 && cap.base <= 0.0
  }

  /** Both legs taken at one quantity, unless that is nothing or the fees eat it up. */
  function TakeBoth(t: Trading, b: Quote, s: Quote, buyVenue: string, sellVenue: string, qty: real, cap: Capital, ts: int, pair: Pair)
    : (NetResult, Capital)
  {
    if qty <= 0.0 then (Missed(true, ZeroQty), cap)
    else
      var buyFee, sellFee := b.price * qty * TakerRate(t, buyVenue), s.price * qty * TakerRate(t, sellVenue);
      var gross := (s.price - b.price) * qty;
      var net := gross - buyFee - sellFee;
      if net <= 0.0 then (Missed(true, FeesExceedSpread), cap)
      else
        (NetResult(true, true, qty, b.price, s.price, gross, buyFee, sellFee, net, b.price * qty, Filled),
         RecordFill(cap, net, b.price * qty, ts, pair, qty))
  }

  /** One taker fill on both legs at the top of the two books. */
  function NetSim(t: Trading, buy: Option<Book>, sell: Option<Book>, lat: int, ttl: int, cap: Capital, ts: int, pair: Pair)
    : (NetResult, Capital)
  {
    if lat >= ttl then (Missed(false, Expired), cap)
    else if buy.None? || sell.None? then (Missed(true, MissingBook), cap)
    else if buy.value.asks == [] || sell.value.bids == [] then (Missed(true, EmptyBook), cap)
    else
      var b, s := buy.value.asks[0], sell.value.bids[0];
      if s.price <= b.price then (Missed(true, CrossClosed), cap)
      else if QuoteSpent(cap) then (Missed(true, NoQuote), cap)
      else if BaseSpent(cap) then (Missed(true, NoBase), cap)
      else TakeBoth(t, b, s, buy.value.venue, sell.value.venue, AffordableQty(cap, b, WantedQty(t, cap, b, s)), cap, ts, pair)
  }

  /** An execution as it happened: what it saw and what came out (history). */
  datatype Execution = Execution(window: nat, executeTs: int, after: nat, buy: Option<Book>, sell: Option<Book>,
                                 stillOpen: bool, result: NetResult)

  /** One latency scenario: its capital, its results by window, its executions in order. */
  datatype Account = Account(capital: Capital, results: map<nat, NetResult>, log: seq<Execution>)

  datatype Pending = Pending(latency: int, window: nat)

  datatype Accounts = Accounts(queue: seq<Entry<Pending>>, order: nat, byLatency: map<int, Account>)

  datatype Sim = Sim(market: Market, accounts: Accounts)

  /** Lifetime of a window as an execution sees it; `openTtl` stands for one that is still open. */
  function Ttl(w: Window, openTtl: int): int {
    if w.tsClose > 0 then w.tsClose - w.tsOpen else openTtl
  }

  function Settle(t: Trading, m: Market, a: Account, lat: int, ts: int, id: nat, openTtl: int): Account
    requires id < |m.windows|
  {
    if id in a.results then a
    else
      var w := m.windows[id];
      var buy, sell := Get(m.books, w.pair.buy), Get(m.books, w.pair.sell);
      var (r, cap) := NetSim(t, buy, sell, lat, Ttl(w, openTtl), a.capital, ts, w.pair);
      Account(cap, a.results[id := r], a.log + [Execution(id, ts, m.processed, buy, sell, w.tsClose <= 0, r)])
  }

  function Execute(t: Trading, m: Market, x: Accounts, e: Entry<Pending>, inStream: bool): Accounts {
    var lat, id := e.item.latency, e.item.window;
    if id >= |m.windows| || lat !in x.byLatency then x
    else
      var openTtl := if inStream then INF_TTL else m.lastTs - m.windows[id].tsOpen;
      x.(byLatency := x.byLatency[lat := Settle(t, m, x.byLatency[lat], lat, e.ts, id, openTtl)])
  }

  /** Fires, front to back, the pending executions due at `now`. */
  function Fire(t: Trading, m: Market, x: Accounts, now: int): Accounts
    decreases |x.queue|
  {
    if x.queue == [] || x.queue[0].ts > now then x
    else Fire(t, m, Execute(t, m, x.(queue := x.queue[1..]), x.queue[0], true), now)
  }

  /** The end-of-stream drain. */
  function Drain(t: Trading, m: Market, x: Accounts): Accounts
    decreases |x.queue|
  {
    if x.queue == [] then x
    else Drain(t, m, Execute(t, m, x.(queue := x.queue[1..]), x.queue[0], false))
  }

  /** One pending execution per latency for a window opened at `now`. */
  function Schedule(x: Accounts, lats: seq<int>, n: nat, id: nat, now: int): Accounts
    requires n <= |lats|
  {
    if n == 0 then x
    else
      var y := Schedule(x, lats, n - 1, id, now);
      y.(order := y.order + 1, queue := Push(y.queue, Entry(now + lats[n - 1], y.order + 1, Pending(lats[n - 1], id))))
  }

  function OnCross(p: Setup, s: Sim, c: Cross, symbol: string, now: int): Sim {
    Sim(MarketCross(s.market, c, symbol, now),
        if IsActive(s.market, c.pair) then s.accounts
        else Schedule(s.accounts, p.latencies, |p.latencies|, |s.market.windows|, now))
  }

  function OnCrosses(p: Setup, s: Sim, cs: seq<Cross>, n: nat, symbol: string, now: int): Sim
    requires n <= |cs|
  {
    if n == 0 then s else OnCross(p, OnCrosses(p, s, cs, n - 1, symbol, now), cs[n - 1], symbol, now)
  }

  function Step(p: Setup, s: Sim, e: Event): Sim {
    var now := e.book.ts;
    var due := Sim(Absorb(p.rules, s.market, e), Fire(p.trading, s.market, s.accounts, now));
    if |due.market.books| < 2 then due
    else
      var cs := DetectCrosses(p.rules, due.market.books);
      var after := OnCrosses(p, due, cs, |cs|, e.book.symbol, now);
      Sim(CloseFirst(p.rules, after.market, cs, now, |after.market.active|), after.accounts)
  }

  function Start(p: Setup): Sim {
    Sim(QUIET, Accounts([], 0, map l | l in p.latencies :: Account(Funded(p.trading), map[], [])))
  }

  /** The simulation after the first `n` events. */
  function After(p: Setup, es: seq<Event>, n: nat): Sim
    requires n <= |es|
  {
    if n == 0 then Start(p) else Step(p, After(p, es, n - 1), es[n - 1])
  }

  // ---- the program ----

  method Detect(r: Rules, bs: seq<Event>) returns (cs: seq<Cross>)
    ensures cs == DetectCrosses(r, bs)
  {
    cs := [];
    for i := 0 to |bs|
      invariant cs == CrossRows(r, bs, i)
    {
      var before := cs;
      for j := 0 to |bs|
        invariant cs == before + CrossRow(r, bs, i, j)
      {
        var c := DetectPair(r, bs[i], bs[j]);
        cs := if c.Some? then cs + [c.value] else cs;
      }
    }
  }

  method DetectPair(r: Rules, buy: Event, sell: Event) returns (c: Option<Cross>)
    ensures c.Some? <==> Crosses(r, buy, sell)
    ensures c.Some? ==> c.value == CrossOf(buy, sell)
  {
    if buy.venue == sell.venue || AbsInt(buy.book.ts - sell.book.ts) as real > r.maxDiffNs {
      return None;
    }
    if buy.book.asks == [] || sell.book.bids == [] || sell.book.bids[0].price <= buy.book.asks[0].price {
      return None;
    }
    var cross := CrossOf(buy, sell);
    if cross.spreadBps < r.minSpreadBps {
      return None;
    }
    return Some(cross);
  }

  method FireDue(t: Trading, m: Market, x0: Accounts, now: int) returns (x: Accounts)
    ensures x == Fire(t, m, x0, now)
  {
    x := x0;
    while x.queue != [] && x.queue[0].ts <= now
      invariant Fire(t, m, x, now) == Fire(t, m, x0, now)
      decreases |x.queue|
    {
      var e := x.queue[0];
      x := Execute(t, m, x.(queue := x.queue[1..]), e, true);
    }
  }

  /** One pending execution per latency, pushed with a fresh tiebreak each. */
  method ScheduleAll(x0: Accounts, lats: seq<int>, id: nat, now: int) returns (x: Accounts)
    ensures x == Schedule(x0, lats, |lats|, id, now)
  {
    var queue, order := x0.queue, x0.order;
    for n := 0 to |lats|
      invariant x0.(queue := queue, order := order) == Schedule(x0, lats, n, id, now)
    {
      order := order + 1;
      queue := Push(queue, Entry(now + lats[n], order, Pending(lats[n], id)));
    }
    x := x0.(queue := queue, order := order);
  }

  /** The opening pass on one cross: a new window with its executions, or a wider peak. */
  method TakeCross(p: Setup, s0: Sim, c: Cross, symbol: string, now: int) returns (s: Sim)
    ensures s == OnCross(p, s0, c, symbol, now)
  {
    var m := s0.market;
    var i := FindActive(m.windows, m.active, c.pair, 0);
    if i == |m.active| {
      var id := |m.windows|;
      var w := Window(c.pair, symbol, now, c, c.spreadAbs, c.spreadBps, 0);
      var x := ScheduleAll(s0.accounts, p.latencies, id, now);
      return Sim(m.(windows := m.windows + [w], active := m.active + [id]), x);
    }
    var id := m.active[i];
    if id < |m.windows| && c.spreadAbs > m.windows[id].peakAbs {
      var w := m.windows[id].(peakAbs := c.spreadAbs, peakBps := c.spreadBps);
      m := m.(windows := m.windows[id := w]);
    }
    return Sim(m, s0.accounts);
  }

  method IsLive(cs: seq<Cross>, pair: Pair) returns (live: bool)
    ensures live == Live(cs, pair)
  {
    live := false;
    for k := 0 to |cs|
      invariant live == exists j :: 0 <= j < k && cs[j].pair == pair
    {
      if cs[k].pair == pair {
        live := true;
      }
    }
  }

  /** The closing pass: windows that are no longer live leave the active list, and are recorded if they lived long enough. */
  method CloseDead(r: Rules, m0: Market, cs: seq<Cross>, now: int) returns (m: Market)
    ensures m == CloseFirst(r, m0, cs, now, |m0.active|)
  {
    var windows, recorded: seq<nat> := m0.windows, m0.recorded;
    var active: seq<nat> := [];
    for n := 0 to |m0.active|
      invariant m0.(windows := windows, active := active, recorded := recorded) == CloseFirst(r, m0, cs, now, n)
    {
      var id := m0.active[n];
      if id >= |windows| {
        active := active + [id];
        continue;
      }
      var live := IsLive(cs, windows[id].pair);
      if live {
        active := active + [id];
      } else {
        var lifetimeMs := (now - windows[id].tsOpen) as real / NS_PER_MS;
        if r.ttlMinMs <= 0.0 || lifetimeMs >= r.ttlMinMs {
          recorded := recorded + [id];
        }
        windows := windows[id := windows[id].(tsClose := now)];
      }
    }
    m := m0.(windows := windows, active := active, recorded := recorded);
  }

  method RunSimulation(p: Setup, es: seq<Event>) returns (s: Sim)
    ensures var end := After(p, es, |es|); s == Sim(end.market, Drain(p.trading, end.market, end.accounts))
  {
    s := Start(p);
    for n := 0 to |es|
      invariant s == After(p, es, n)
    {
      var e := es[n];
      var now := e.book.ts;
      var x := FireDue(p.trading, s.market, s.accounts, now);
      s := Sim(Absorb(p.rules, s.market, e), x);
      if |s.market.books| < 2 {
        continue;
      }
      var cs := Detect(p.rules, s.market.books);
      ghost var fired := s;
      for k := 0 to |cs|
        invariant s == OnCrosses(p, fired, cs, k, e.book.symbol, now)
      {
        s := TakeCross(p, s, cs[k], e.book.symbol, now);
      }
      var m := CloseDead(p.rules, s.market, cs, now);
      s := Sim(m, s.accounts);
    }
    ghost var end := s;
    var x := s.accounts;
    while x.queue != []
      invariant Drain(p.trading, end.market, x) == Drain(p.trading, end.market, end.accounts)
      decreases |x.queue|
    {
      x := Execute(p.trading, s.market, x.(queue := x.queue[1..]), x.queue[0], false);
    }
    s := Sim(s.market, x);
  }
}
