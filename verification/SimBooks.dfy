/** What the unified book holds and what a cross is, said without the machinery that computes them. */
module SimBooks {
  import opened Options
  import opened Simulator
  import opened SimLanes
  import opened SimLaws
  import opened SimWindows

  // ---- the latest book per venue ----

  ghost predicate OnePerVenue(bs: seq<Event>) {
    forall i, j :: 0 <= i < j < |bs| ==> bs[i].venue != bs[j].venue
  }

  lemma {:induction false} FindFinds(bs: seq<Event>, venue: string, from: nat)
    requires from <= |bs|
    ensures var i := Find(bs, venue, from);
            && (i < |bs| ==> bs[i].venue == venue)
            && (forall j :: from <= j < i ==> bs[j].venue != venue)
    decreases |bs| - from
  {
    if from < |bs| && bs[from].venue != venue {
      FindFinds(bs, venue, from + 1);
    }
  }

  /** `Get` returns the book of the venue's only entry. */
  lemma GetAt(bs: seq<Event>, i: nat)
    requires OnePerVenue(bs) && i < |bs|
    ensures Get(bs, bs[i].venue) == Some(bs[i].book)
  {
    FindFinds(bs, bs[i].venue, 0);
  }

  lemma GetNone(bs: seq<Event>, venue: string)
    ensures Get(bs, venue) == None <==> forall i :: 0 <= i < |bs| ==> bs[i].venue != venue
  {
    FindFinds(bs, venue, 0);
  }

  lemma PutOne(bs: seq<Event>, e: Event)
    requires OnePerVenue(bs)
    ensures OnePerVenue(Put(bs, e))
  {
    FindFinds(bs, e.venue, 0);
  }

  lemma PutGet(bs: seq<Event>, e: Event, venue: string)
    requires OnePerVenue(bs)
    ensures Get(Put(bs, e), venue) == if e.venue == venue then Some(e.book) else Get(bs, venue)
  {
    PutOne(bs, e);
    FindFinds(bs, e.venue, 0);
    var i, ps := Find(bs, e.venue, 0), Put(bs, e);
    if e.venue == venue {
      GetAt(ps, i);
    } else {
      FindFinds(bs, venue, 0);
      var j := Find(bs, venue, 0);
      if j < |bs| {
        GetAt(ps, j);
      } else {
        GetNone(ps, venue);
      }
    }
  }

  lemma {:induction false} EvictFrom(bs: seq<Event>, now: int, age: int)
    ensures forall e :: e in Evict(bs, now, age) ==> e in bs
  {
    if bs != [] {
      EvictFrom(bs[1..], now, age);
    }
  }

  lemma {:induction false} EvictOne(bs: seq<Event>, now: int, age: int)
    requires OnePerVenue(bs)
    ensures OnePerVenue(Evict(bs, now, age))
  {
    if bs != [] {
      EvictOne(bs[1..], now, age);
      EvictFrom(bs[1..], now, age);
      ConsOne(bs, Evict(bs[1..], now, age));
    }
  }

  lemma ConsOne(bs: seq<Event>, rest: seq<Event>)
    requires bs != [] && OnePerVenue(bs) && OnePerVenue(rest) && forall e :: e in rest ==> e in bs[1..]
    ensures OnePerVenue([bs[0]] + rest)
  {
    forall i | 0 <= i < |rest| ensures rest[i].venue != bs[0].venue {
      assert rest[i] in bs[1..];
    }
  }

  lemma {:induction false} EvictGet(bs: seq<Event>, now: int, age: int, venue: string)
    requires OnePerVenue(bs)
    ensures var b := Get(bs, venue);
            Get(Evict(bs, now, age), venue) == if b.Some? && now - b.value.ts > age then None else b
  {
    if bs == [] {
      assert Evict(bs, now, age) == bs;
    } else {
      var e, tail := bs[0], bs[1..];
      assert bs == [e] + tail;
      GetCons(e, tail, venue);
      EvictGet(tail, now, age, venue);
      if now - e.book.ts > age {
        assert Evict(bs, now, age) == Evict(tail, now, age);
      } else {
        EvictOne(bs, now, age);
        GetCons(e, Evict(tail, now, age), venue);
      }
    }
  }

  lemma GetCons(e: Event, bs: seq<Event>, venue: string)
    requires OnePerVenue([e] + bs)
    ensures Get([e] + bs, venue) == if e.venue == venue then Some(e.book) else Get(bs, venue)
    ensures e.venue == venue ==> Get(bs, venue) == None
  {
    var all := [e] + bs;
    assert forall i :: 0 <= i < |bs| ==> all[i + 1] == bs[i];
    GetNone(bs, venue);
    GetNone(all, venue);
    if e.venue == venue {
      GetAt(all, 0);
    } else {
      FindFinds(bs, venue, 0);
      var j := Find(bs, venue, 0);
      if j < |bs| {
        GetAt(all, j + 1);
      }
    }
  }

  /** How many of the first `n` events it takes to include the last one of the venue; 0 when there is none. */
  function LastOf(es: seq<Event>, n: nat, venue: string): (k: nat)
    requires n <= |es|
    ensures k <= n
  {
    if n == 0 then 0 else if es[n - 1].venue == venue then n else LastOf(es, n - 1, venue)
  }

  /** Some sweep after the book arrived found it too old. */
  ghost predicate Swept(r: Rules, es: seq<Event>, k: nat, n: nat)
    requires 0 < k && n <= |es|
  {
    exists j :: k <= j <= n && j % 100000 == 0 && es[j - 1].book.ts - es[k - 1].book.ts > r.maxAgeNs
  }

  /** The venue's latest book among the first `n` events, unless a sweep removed it. */
  ghost function Latest(r: Rules, es: seq<Event>, n: nat, venue: string): Option<Book>
    requires n <= |es|
  {
    var k := LastOf(es, n, venue);
    if k == 0 || Swept(r, es, k, n) then None else Some(es[k - 1].book)
  }

  lemma SweptMore(r: Rules, es: seq<Event>, k: nat, n: nat)
    requires 0 < k <= n <= |es|
    ensures Swept(r, es, k, n) <==>
            (k < n && Swept(r, es, k, n - 1)) || (n % EVICT_EVERY == 0 && es[n - 1].book.ts - es[k - 1].book.ts > r.maxAgeNs)
  {
  }

  /** The unified book on its own. */
  function BooksAfter(r: Rules, es: seq<Event>, n: nat): seq<Event>
    requires n <= |es|
  {
    if n == 0 then []
    else BooksStep(r, BooksAfter(r, es, n - 1), es[n - 1], n)
  }

  /** One more event on the books alone. */
  function BooksStep(r: Rules, bs: seq<Event>, e: Event, n: nat): seq<Event> {
    if n % EVICT_EVERY == 0 then Evict(Put(bs, e), e.book.ts, r.maxAgeNs) else Put(bs, e)
  }

  lemma StepBooks(r: Rules, m: Market, e: Event)
    ensures MarketStep(r, m, e).books == Absorb(r, m, e).books == BooksStep(r, m.books, e, m.processed + 1)
    ensures MarketStep(r, m, e).processed == m.processed + 1
  {
    StepEvolves(r, m, e);
  }

  /** Along any path of markets, the books depend on the books alone. */
  lemma {:induction false} BooksAlong(r: Rules, ms: seq<Market>, es: seq<Event>, n: nat)
    requires n <= |es| && n < |ms| && ms[0].books == [] && ms[0].processed == 0
    requires forall i :: 0 <= i < n ==> Steps(r, ms, es, i)
    ensures ms[n].processed == n && ms[n].books == BooksAfter(r, es, n)
  {
    if n != 0 {
      BooksAlong(r, ms, es, n - 1);
      assert Steps(r, ms, es, n - 1);
    }
  }

  ghost predicate Steps(r: Rules, ms: seq<Market>, es: seq<Event>, i: nat) {
    && i < |es| && i + 1 < |ms|
    && ms[i + 1].processed == ms[i].processed + 1
    && ms[i + 1].books == BooksStep(r, ms[i].books, es[i], ms[i].processed + 1)
  }

  lemma PathSteps(r: Rules, es: seq<Event>, i: nat)
    requires i < |es|
    ensures Steps(r, Path(r, es), es, i)
  {
    StepBooks(r, MarketAfter(r, es, i), es[i]);
  }

  lemma MarketBooks(r: Rules, es: seq<Event>, n: nat)
    requires n <= |es|
    ensures MarketAfter(r, es, n).processed == n && MarketAfter(r, es, n).books == BooksAfter(r, es, n)
  {
    var ms := Path(r, es);
    forall i | 0 <= i < n ensures Steps(r, ms, es, i) {
      PathSteps(r, es, i);
    }
    assert ms[0] == QUIET;
    BooksAlong(r, ms, es, n);
  }

  lemma {:induction false} BooksOne(r: Rules, es: seq<Event>, n: nat)
    requires n <= |es|
    ensures OnePerVenue(BooksAfter(r, es, n))
  {
    if n != 0 {
      BooksOne(r, es, n - 1);
      PutOne(BooksAfter(r, es, n - 1), es[n - 1]);
      EvictOne(Put(BooksAfter(r, es, n - 1), es[n - 1]), es[n - 1].book.ts, r.maxAgeNs);
    }
  }

  lemma {:induction false} BooksLatest(r: Rules, es: seq<Event>, n: nat, venue: string)
    requires n <= |es|
    ensures Get(BooksAfter(r, es, n), venue) == Latest(r, es, n, venue)
  {
    if n != 0 {
      var bs, e := BooksAfter(r, es, n - 1), es[n - 1];
      BooksLatest(r, es, n - 1, venue);
      BooksOne(r, es, n - 1);
      PutOne(bs, e);
      PutGet(bs, e, venue);
      EvictGet(Put(bs, e), e.book.ts, r.maxAgeNs, venue);
      LatestStep(r, es, n, venue);
    }
  }

  /** The unified book holds, per venue, exactly its latest book unless a sweep found that one too old. */
  lemma BooksAreLatest(r: Rules, es: seq<Event>, n: nat, venue: string)
    requires n <= |es|
    ensures OnePerVenue(MarketAfter(r, es, n).books) && Get(MarketAfter(r, es, n).books, venue) == Latest(r, es, n, venue)
  {
    MarketBooks(r, es, n);
    BooksOne(r, es, n);
    BooksLatest(r, es, n, venue);
  }

  lemma LatestStep(r: Rules, es: seq<Event>, n: nat, venue: string)
    requires 0 < n <= |es|
    ensures var e := es[n - 1];
            var b := if e.venue == venue then Some(e.book) else Latest(r, es, n - 1, venue);
            Latest(r, es, n, venue) ==
              if n % EVICT_EVERY == 0 && b.Some? && e.book.ts - b.value.ts > r.maxAgeNs then None else b
  {
    var k := LastOf(es, n, venue);
    if k > 0 {
      SweptMore(r, es, k, n);
    }
  }

  /**
   No look-ahead, down to the quotes: an execution filled against the latest books of its two
   venues among the events strictly earlier than its time, and against nothing else.
   */
  lemma ExecutionsSeeLatest(p: Setup, es: seq<Event>, n: nat, lat: int, i: nat)
    requires TimeOrdered(es) && n <= |es| && lat in p.latencies && lat > 0
    requires lat in After(p, es, n).accounts.byLatency && i < |After(p, es, n).accounts.byLatency[lat].log|
    ensures var x := After(p, es, n).accounts.byLatency[lat].log[i];
            && SplitsAt(es, x.after, x.executeTs)
            && var m := MarketAfter(p.rules, es, x.after);
            && x.window < |m.windows|
            && x.buy == Latest(p.rules, es, x.after, m.windows[x.window].pair.buy)
            && x.sell == Latest(p.rules, es, x.after, m.windows[x.window].pair.sell)
  {
    NoLookAhead(p, es, n, lat);
    var x := After(p, es, n).accounts.byLatency[lat].log[i];
    assert NoPeek(Path(p.rules, es), es, lat, x);
    var pair := MarketAfter(p.rules, es, x.after).windows[x.window].pair;
    BooksAreLatest(p.rules, es, x.after, pair.buy);
    BooksAreLatest(p.rules, es, x.after, pair.sell);
  }

  // ---- crosses ----

  /** A cross of two books: synchronous enough, top bid above top ask, wide enough. */
  ghost predicate BooksCross(r: Rules, buy: Book, sell: Book) {
    && -r.maxDiffNs <= (buy.ts - sell.ts) as real <= r.maxDiffNs
    && buy.asks != [] && sell.bids != []
    && var ask, bid: real := buy.asks[0].price, sell.bids[0].price;
    && ask < bid && r.minSpreadBps * (ask + bid) <= 20000.0 * (bid - ask)
  }

  lemma SpreadTest(ask: real, bid: real, min: real)
    requires ask + bid > 0.0
    ensures ((bid - ask) / ((bid + ask) / 2.0)) * 10000.0 >= min <==> min * (ask + bid) <= 20000.0 * (bid - ask)
  {
    var mid := (bid + ask) / 2.0;
    var q := (bid - ask) / mid;
    assert q * mid == bid - ask;
    if q * 10000.0 >= min {
      Grow(min, q * 10000.0, mid);
    } else {
      GrowStrict(q * 10000.0, min, mid);
    }
    assert q * 10000.0 * mid == 10000.0 * (bid - ask);
    assert min * mid * 2.0 == min * (ask + bid);
  }

  lemma Grow(a: real, b: real, c: real)
    requires a <= b && c > 0.0
    ensures a * c <= b * c
  {
    assert (b - a) * c >= 0.0;
  }

  lemma GrowStrict(a: real, b: real, c: real)
    requires a < b && c > 0.0
    ensures a * c < b * c
  {
    assert (b - a) * c > 0.0;
  }

  lemma CrossesMeans(r: Rules, buy: Event, sell: Event)
    ensures Crosses(r, buy, sell) <==> buy.venue != sell.venue && BooksCross(r, buy.book, sell.book)
  {
    if buy.book.asks != [] && sell.book.bids != [] {
      SpreadTest(buy.book.asks[0].price, sell.book.bids[0].price, r.minSpreadBps);
    }
  }

  function Flat(rows: seq<seq<Cross>>, n: nat): seq<Cross>
    requires n <= |rows|
  {
    if n == 0 then [] else Flat(rows, n - 1) + rows[n - 1]
  }

  lemma {:induction false} FlatHolds(rows: seq<seq<Cross>>, n: nat, i: nat, c: Cross)
    requires i < n <= |rows| && c in rows[i]
    ensures c in Flat(rows, n)
  {
    if i < n - 1 {
      FlatHolds(rows, n - 1, i, c);
    }
  }

  lemma {:induction false} FlatOnly(rows: seq<seq<Cross>>, n: nat, c: Cross) returns (i: nat)
    requires n <= |rows| && c in Flat(rows, n)
    ensures i < n && c in rows[i]
  {
    if c in Flat(rows, n - 1) {
      i := FlatOnly(rows, n - 1, c);
    } else {
      i := n - 1;
    }
  }

  function Rows(r: Rules, bs: seq<Event>): (rows: seq<seq<Cross>>)
    ensures |rows| == |bs|
  {
    seq(|bs|, i requires 0 <= i < |bs| => CrossRow(r, bs, i, |bs|))
  }

  lemma {:induction false} RowsAreFlat(r: Rules, bs: seq<Event>, n: nat)
    requires n <= |bs|
    ensures CrossRows(r, bs, n) == Flat(Rows(r, bs), n)
  {
    if n != 0 {
      RowsAreFlat(r, bs, n - 1);
    }
  }

  /** Every crossing pair is reported. */
  lemma {:induction false} RowHolds(r: Rules, bs: seq<Event>, i: nat, n: nat, j: nat)
    requires i < |bs| && j < n <= |bs| && Crosses(r, bs[i], bs[j])
    ensures CrossOf(bs[i], bs[j]) in CrossRow(r, bs, i, n)
  {
    if j < n - 1 {
      RowHolds(r, bs, i, n - 1, j);
    }
  }

  /** Everything reported is a crossing pair. */
  lemma {:induction false} RowOnly(r: Rules, bs: seq<Event>, i: nat, n: nat, c: Cross) returns (j: nat)
    requires i < |bs| && n <= |bs| && c in CrossRow(r, bs, i, n)
    ensures j < n && Crosses(r, bs[i], bs[j]) && c == CrossOf(bs[i], bs[j])
  {
    if c in CrossRow(r, bs, i, n - 1) {
      j := RowOnly(r, bs, i, n - 1, c);
    } else {
      j := n - 1;
    }
  }

  /** The detector reports a directed pair exactly when the latest books of two different venues cross. */
  lemma LiveMeansCross(r: Rules, bs: seq<Event>, pair: Pair)
    requires OnePerVenue(bs)
    ensures Live(DetectCrosses(r, bs), pair) <==>
            && pair.buy != pair.sell && Get(bs, pair.buy).Some? && Get(bs, pair.sell).Some?
            && BooksCross(r, Get(bs, pair.buy).value, Get(bs, pair.sell).value)
  {
    RowsAreFlat(r, bs, |bs|);
    if Live(DetectCrosses(r, bs), pair) {
      var c :| c in DetectCrosses(r, bs) && c.pair == pair;
      var i := FlatOnly(Rows(r, bs), |bs|, c);
      var j := RowOnly(r, bs, i, |bs|, c);
      CrossesMeans(r, bs[i], bs[j]);
      GetAt(bs, i);
      GetAt(bs, j);
    }
    FindFinds(bs, pair.buy, 0);
    FindFinds(bs, pair.sell, 0);
    var i, j := Find(bs, pair.buy, 0), Find(bs, pair.sell, 0);
    if pair.buy != pair.sell && i < |bs| && j < |bs| && BooksCross(r, bs[i].book, bs[j].book) {
      CrossesMeans(r, bs[i], bs[j]);
      RowHolds(r, bs, i, |bs|, j);
      FlatHolds(Rows(r, bs), |bs|, i, CrossOf(bs[i], bs[j]));
      assert CrossOf(bs[i], bs[j]).pair == pair;
    }
  }

  /** After every event that leaves two venues, a window of a pair is open exactly when the latest books of its venues cross. */
  lemma WindowsTrackCrosses(r: Rules, es: seq<Event>, n: nat, pair: Pair)
    requires 0 < n <= |es| && forall i :: 0 <= i < |es| ==> es[i].book.ts > 0
    requires |MarketAfter(r, es, n).books| >= 2
    ensures var buy, sell := Latest(r, es, n, pair.buy), Latest(r, es, n, pair.sell);
            HasOpen(MarketAfter(r, es, n), pair) <==>
            pair.buy != pair.sell && buy.Some? && sell.Some? && BooksCross(r, buy.value, sell.value)
  {
    OpenWindowsAreLive(r, es, n, pair);
    BooksAreLatest(r, es, n, pair.buy);
    BooksAreLatest(r, es, n, pair.sell);
    LiveMeansCross(r, MarketAfter(r, es, n).books, pair);
  }
}
