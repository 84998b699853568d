/**
 The net simulation of one execution, said on prices, quantities, balances and fee rates: which
 verdict it reaches and, for a fill, every figure it reports.
 */
module SimFills {
  import opened Options
  import opened Simulator

  // ---- the quantity ----

  /** A quantity that no configured cap forbids. */
  ghost predicate Within(t: Trading, c: Capital, b: Quote, s: Quote, q: real) {
    && q <= b.qty && q <= s.qty
    && (t.targetQty > 0.0 ==> q <= t.targetQty)
    && (t.riskPct > 0.0 && c.initialQuote > 0.0 ==> 100.0 * (b.price * q) <= c.quote * t.riskPct)
    && (c.initialQuote > 0.0 ==> b.price * q <= c.quote)
    && (c.initialBase > 0.0 ==> q <= c.base)
  }

  ghost predicate Largest(t: Trading, c: Capital, b: Quote, s: Quote, q: real) {
    Within(t, c, b, s, q) && forall r: real :: Within(t, c, b, s, r) ==> r <= q
  }

  /** Paying for `q` at a price, against a budget. */
  lemma Affords(price: Price, q: real, budget: real)
    ensures q <= budget / price <==> price * q <= budget
  {
    var most := budget / price;
    assert price * most == budget;
    assert price * (most - q) == budget - price * q;
    if q <= most {
      assert price * (most - q) >= 0.0;
    } else {
      assert price * (most - q) < 0.0;
    }
  }

  /** The risk cap with its division undone. */
  lemma RiskAllows(price: Price, q: real, quote: real, pct: real)
    ensures q <= (quote * pct / 100.0) / price <==> 100.0 * (price * q) <= quote * pct
  {
    Affords(price, q, quote * pct / 100.0);
  }

  /** The caps as plain numbers: what risk and quote balance buy at the ask. */
  function RiskQty(t: Trading, c: Capital, b: Quote): real {
    (c.quote * t.riskPct / 100.0) / b.price
  }

  function QuoteQty(c: Capital, b: Quote): real {
    c.quote / b.price
  }

  /** The smallest of the caps that are switched on. */
  function Least(q: real, byTarget: bool, target: real, byRisk: bool, risk: real, byQuote: bool, quote: real,
                 byBase: bool, base: real): real {
    var q1 := if byTarget then Min(q, target) else q;
    var q2 := if byRisk then Min(q1, risk) else q1;
    var q3 := if byQuote then Min(q2, quote) else q2;
    if byBase then Min(q3, base) else q3
  }

  lemma LeastMeans(q: real, byTarget: bool, target: real, byRisk: bool, risk: real, byQuote: bool, quote: real,
                   byBase: bool, base: real, x: real)
    ensures x <= Least(q, byTarget, target, byRisk, risk, byQuote, quote, byBase, base) <==>
            && x <= q && (byTarget ==> x <= target) && (byRisk ==> x <= risk) && (byQuote ==> x <= quote) && (byBase ==> x <= base)
    ensures x < Least(q, byTarget, target, byRisk, risk, byQuote, quote, byBase, base) <==>
            && x < q && (byTarget ==> x < target) && (byRisk ==> x < risk) && (byQuote ==> x < quote) && (byBase ==> x < base)
  {
  }

  lemma QtyIsLeast(t: Trading, c: Capital, b: Quote, s: Quote)
    ensures AffordableQty(c, b, WantedQty(t, c, b, s)) ==
            Least(Min(b.qty, s.qty), t.targetQty > 0.0, t.targetQty, t.riskPct > 0.0 && c.initialQuote > 0.0, RiskQty(t, c, b),
                  c.initialQuote > 0.0, QuoteQty(c, b), c.initialBase > 0.0, c.base)
  {
  }

  /** Within the caps, given what risk and quote balance say. */
  ghost predicate WithinCaps(t: Trading, c: Capital, b: Quote, s: Quote, q: real, riskOk: bool, quoteOk: bool) {
    && q <= b.qty && q <= s.qty
    && (t.targetQty > 0.0 ==> q <= t.targetQty)
    && (t.riskPct > 0.0 && c.initialQuote > 0.0 ==> riskOk)
    && (c.initialQuote > 0.0 ==> quoteOk)
    && (c.initialBase > 0.0 ==> q <= c.base)
  }

  lemma CapsMean(t: Trading, c: Capital, b: Quote, s: Quote, q: real, risk: real, quote: real)
    ensures WithinCaps(t, c, b, s, q, q <= risk, q <= quote) <==>
            q <= Least(Min(b.qty, s.qty), t.targetQty > 0.0, t.targetQty, t.riskPct > 0.0 && c.initialQuote > 0.0, risk,
                       c.initialQuote > 0.0, quote, c.initialBase > 0.0, c.base)
  {
    LeastMeans(Min(b.qty, s.qty), t.targetQty > 0.0, t.targetQty, t.riskPct > 0.0 && c.initialQuote > 0.0, risk,
               c.initialQuote > 0.0, quote, c.initialBase > 0.0, c.base, q);
  }

  lemma SameCaps(t: Trading, c: Capital, b: Quote, s: Quote, q: real, riskOk: bool, quoteOk: bool, r: bool, k: bool)
    requires riskOk == r && quoteOk == k
    ensures WithinCaps(t, c, b, s, q, riskOk, quoteOk) == WithinCaps(t, c, b, s, q, r, k)
  {
  }

  lemma WithinByQuotients(t: Trading, c: Capital, b: Quote, s: Quote, q: real)
    ensures Within(t, c, b, s, q) <==> WithinCaps(t, c, b, s, q, q <= RiskQty(t, c, b), q <= QuoteQty(c, b))
  {
    RiskAllows(b.price, q, c.quote, t.riskPct);
    Affords(b.price, q, c.quote);
    SameCaps(t, c, b, s, q, 100.0 * (b.price * q) <= c.quote * t.riskPct, b.price * q <= c.quote,
             q <= RiskQty(t, c, b), q <= QuoteQty(c, b));
  }

  lemma WithinMeans(t: Trading, c: Capital, b: Quote, s: Quote, q: real)
    ensures Within(t, c, b, s, q) <==> q <= AffordableQty(c, b, WantedQty(t, c, b, s))
  {
    WithinByQuotients(t, c, b, s, q);
    CapsMean(t, c, b, s, q, RiskQty(t, c, b), QuoteQty(c, b));
    QtyIsLeast(t, c, b, s);
  }

  /** The quantity is the largest that every configured cap allows. */
  lemma QtyIsLargest(t: Trading, c: Capital, b: Quote, s: Quote)
    ensures Largest(t, c, b, s, AffordableQty(c, b, WantedQty(t, c, b, s)))
  {
    var qty := AffordableQty(c, b, WantedQty(t, c, b, s));
    WithinMeans(t, c, b, s, qty);
    forall r: real | Within(t, c, b, s, r) ensures r <= qty {
      WithinMeans(t, c, b, s, r);
    }
  }

  /** Both sides offer something and, where balances are configured, there is something to pay with and to deliver. */
  ghost predicate CapsPositive(c: Capital, b: Quote, s: Quote) {
    && b.qty > 0.0 && s.qty > 0.0
    && (c.initialQuote > 0.0 ==> c.quote > 0.0)
    && (c.initialBase > 0.0 ==> c.base > 0.0)
  }

  lemma QuotientPositive(x: real, price: Price)
    ensures x / price > 0.0 <==> x > 0.0
  {
    Affords(price, 0.0, x);
    var q := x / price;
    assert price * q == x;
    if q > 0.0 {
      assert price * q > 0.0;
    }
  }

  lemma ProductPositive(x: real, y: real)
    requires y > 0.0
    ensures x * y / 100.0 > 0.0 <==> x > 0.0
  {
    if x > 0.0 {
      assert x * y > 0.0;
    } else {
      assert x * y <= 0.0;
    }
  }

  lemma QtyPositive(t: Trading, c: Capital, b: Quote, s: Quote)
    ensures AffordableQty(c, b, WantedQty(t, c, b, s)) > 0.0 <==> CapsPositive(c, b, s)
  {
    QtyIsLeast(t, c, b, s);
    LeastMeans(Min(b.qty, s.qty), t.targetQty > 0.0, t.targetQty, t.riskPct > 0.0 && c.initialQuote > 0.0, RiskQty(t, c, b),
               c.initialQuote > 0.0, QuoteQty(c, b), c.initialBase > 0.0, c.base, 0.0);
    QuotientPositive(c.quote, b.price);
    QuotientPositive(c.quote * t.riskPct / 100.0, b.price);
    if t.riskPct > 0.0 {
      ProductPositive(c.quote, t.riskPct);
    }
  }

  // ---- the fees ----

  /** The configured taker rate of a venue in basis points, or the fallback. */
  function Bps(t: Trading, venue: string): real {
    if venue in t.takerBps then t.takerBps[venue] else t.fallbackTakerBps
  }

  /** The spread is worth more than both taker fees. */
  ghost predicate BeatsFees(t: Trading, b: Quote, s: Quote, buyVenue: string, sellVenue: string) {
    10000.0 * (s.price - b.price) > b.price * Bps(t, buyVenue) + s.price * Bps(t, sellVenue)
  }

  lemma FeeProduct(p: real, q: real, bps: real)
    ensures 10000.0 * (p * q * (bps / 10000.0)) == p * q * bps
  {
    var x := p * q;
    assert x * (bps / 10000.0) == (x * bps) / 10000.0;
  }

  lemma NetProduct(ask: real, bid: real, q: real, f: real, g: real)
    ensures 10000.0 * ((bid - ask) * q - ask * q * (f / 10000.0) - bid * q * (g / 10000.0))
         == q * (10000.0 * (bid - ask) - ask * f - bid * g)
  {
    FeeProduct(ask, q, f);
    FeeProduct(bid, q, g);
    assert ask * q * f == q * (ask * f);
    assert bid * q * g == q * (bid * g);
    assert 10000.0 * ((bid - ask) * q) == q * (10000.0 * (bid - ask));
  }

  lemma NetSign(ask: real, bid: real, q: real, f: real, g: real)
    requires q > 0.0
    ensures (bid - ask) * q - ask * q * (f / 10000.0) - bid * q * (g / 10000.0) > 0.0 <==>
            10000.0 * (bid - ask) > ask * f + bid * g
  {
    NetProduct(ask, bid, q, f, g);
    var w := 10000.0 * (bid - ask) - ask * f - bid * g;
    if w > 0.0 {
      assert q * w > 0.0;
    } else {
      assert q * w <= 0.0;
    }
  }

  // ---- the verdict ----

  /** Both books are there and have the level the order goes for. */
  ghost predicate Tradable(buy: Option<Book>, sell: Option<Book>) {
    buy.Some? && sell.Some? && buy.value.asks != [] && sell.value.bids != []
  }

  /** The verdict on an execution, each by its own condition; the first that applies counts. */
  ghost function Verdict(t: Trading, buy: Option<Book>, sell: Option<Book>, lat: int, ttl: int, c: Capital): Note {
    if ttl <= lat then Expired
    else if buy.None? || sell.None? then MissingBook
    else if buy.value.asks == [] || sell.value.bids == [] then EmptyBook
    else
      var b, s := buy.value.asks[0], sell.value.bids[0];
      if s.price <= b.price then CrossClosed
      else if c.initialQuote > 0.0 && c.quote <= 0.0 then NoQuote
      else if c.initialBase > 0.0 && c.base <= 0.0 then NoBase
      else if b.qty <= 0.0 || s.qty <= 0.0 then ZeroQty
      else if !BeatsFees(t, b, s, buy.value.venue, sell.value.venue) then FeesExceedSpread
      else Filled
  }

  /** The figures of a fill of `qty`. */
  ghost predicate Figures(t: Trading, b: Quote, s: Quote, buyVenue: string, sellVenue: string, qty: real, r: NetResult) {
    && r.filledQty == qty > 0.0
    && r.buyAvg == b.price && r.sellAvg == s.price
    && r.gross == (s.price - b.price) * qty
    && 10000.0 * r.buyFee == b.price * qty * Bps(t, buyVenue)
    && 10000.0 * r.sellFee == s.price * qty * Bps(t, sellVenue)
    && r.net == r.gross - r.buyFee - r.sellFee && r.net > 0.0
    && r.capitalUsed == b.price * qty
  }

  lemma TakeExactly(t: Trading, b: Quote, s: Quote, buyVenue: string, sellVenue: string, qty: real, c: Capital, ts: int, pair: Pair)
    ensures var (r, c') := TakeBoth(t, b, s, buyVenue, sellVenue, qty, c, ts, pair);
            && r.reached && (r.valid <==> qty > 0.0 && BeatsFees(t, b, s, buyVenue, sellVenue))
            && (r.valid ==> Figures(t, b, s, buyVenue, sellVenue, qty, r)
                            && r.note.Filled? && c' == RecordFill(c, r.net, r.capitalUsed, ts, pair, qty))
            && (!r.valid ==> c' == c && r == Missed(true, if qty <= 0.0 then ZeroQty else FeesExceedSpread))
  {
    if qty > 0.0 {
      TakeDecides(t, b, s, buyVenue, sellVenue, qty, c, ts, pair);
      FeeProduct(b.price, qty, Bps(t, buyVenue));
      FeeProduct(s.price, qty, Bps(t, sellVenue));
    }
  }

  lemma TakeDecides(t: Trading, b: Quote, s: Quote, buyVenue: string, sellVenue: string, qty: real, c: Capital, ts: int, pair: Pair)
    requires qty > 0.0
    ensures TakeBoth(t, b, s, buyVenue, sellVenue, qty, c, ts, pair).0.valid <==> BeatsFees(t, b, s, buyVenue, sellVenue)
  {
    NetSign(b.price, s.price, qty, Bps(t, buyVenue), Bps(t, sellVenue));
  }

  lemma TradeExactly(t: Trading, buy: Book, sell: Book, lat: int, ttl: int, c: Capital, ts: int, pair: Pair, qty: real)
    requires lat < ttl && buy.asks != [] && sell.bids != [] && sell.bids[0].price > buy.asks[0].price
    requires !QuoteSpent(c) && !BaseSpent(c) && qty == AffordableQty(c, buy.asks[0], WantedQty(t, c, buy.asks[0], sell.bids[0]))
    ensures NetSim(t, Some(buy), Some(sell), lat, ttl, c, ts, pair)
         == TakeBoth(t, buy.asks[0], sell.bids[0], buy.venue, sell.venue, qty, c, ts, pair)
    ensures qty > 0.0 <==> CapsPositive(c, buy.asks[0], sell.bids[0])
    ensures Largest(t, c, buy.asks[0], sell.bids[0], qty)
  {
    QtyIsLargest(t, c, buy.asks[0], sell.bids[0]);
    QtyPositive(t, c, buy.asks[0], sell.bids[0]);
  }

  /**
   The net simulation, exactly: the verdict is the first condition that applies, an execution
   fills if and only if none stands against it, a fill reports the figures of the largest
   quantity every cap allows and books its net, and anything else leaves the capital alone.
   */
  lemma FillExactly(t: Trading, buy: Option<Book>, sell: Option<Book>, lat: int, ttl: int, c: Capital, ts: int, pair: Pair)
    ensures var (r, c') := NetSim(t, buy, sell, lat, ttl, c, ts, pair);
            && r.note == Verdict(t, buy, sell, lat, ttl, c)
            && (r.reached <==> lat < ttl)
            && (r.valid <==> && lat < ttl && Tradable(buy, sell)
                             && buy.value.asks[0].price < sell.value.bids[0].price
                             && CapsPositive(c, buy.value.asks[0], sell.value.bids[0])
                             && BeatsFees(t, buy.value.asks[0], sell.value.bids[0], buy.value.venue, sell.value.venue))
            && (r.valid ==> Figures(t, buy.value.asks[0], sell.value.bids[0], buy.value.venue, sell.value.venue, r.filledQty, r)
                            && Largest(t, c, buy.value.asks[0], sell.value.bids[0], r.filledQty)
                            && c' == RecordFill(c, r.net, r.capitalUsed, ts, pair, r.filledQty))
            && (!r.valid ==> c' == c && r == Missed(r.reached, r.note))
  {
    if lat < ttl && Tradable(buy, sell) && sell.value.bids[0].price > buy.value.asks[0].price && !QuoteSpent(c) && !BaseSpent(c) {
      var b, s := buy.value.asks[0], sell.value.bids[0];
      var qty := AffordableQty(c, b, WantedQty(t, c, b, s));
      TradeExactly(t, buy.value, sell.value, lat, ttl, c, ts, pair, qty);
      TakeExactly(t, b, s, buy.value.venue, sell.value.venue, qty, c, ts, pair);
    }
  }
}
