/** A per-key limiter on timestamps, as used by the detector (B2) and the execution engine (E3). */
module RateLimits {

  /** Limit 0 or less means unlimited. */
  predicate Allows(limit: int, last: map<string, int>, key: string, ts: int) {
    limit <= 0 || key !in last || ts - last[key] >= limit
  }

  function Record(limit: int, last: map<string, int>, key: string, ts: int): map<string, int> {
    if limit <= 0 then last else last[key := ts]
  }

  datatype Pass = Pass(key: string, ts: int)

  /** Any two passes of the same key are at least `limit` apart, the later one being later in time too. */
  ghost predicate Spaced(limit: int, log: seq<Pass>) {
    forall i, j :: 0 <= i < j < |log| && log[i].key == log[j].key ==> log[j].ts - log[i].ts >= limit
  }

  ghost predicate Remembered(last: map<string, int>, log: seq<Pass>) {
    forall i :: 0 <= i < |log| ==> log[i].key in last && log[i].ts <= last[log[i].key]
  }

  ghost predicate LimiterInv(limit: int, last: map<string, int>, log: seq<Pass>) {
    limit > 0 ==> Spaced(limit, log) && Remembered(last, log)
  }

  /** Whatever the clock did since, one more allowed pass keeps every pair spaced. */
  lemma PassKeepsSpacing(limit: int, last: map<string, int>, log: seq<Pass>, key: string, ts: int)
    requires LimiterInv(limit, last, log) && Allows(limit, last, key, ts)
    ensures LimiterInv(limit, Record(limit, last, key, ts), log + [Pass(key, ts)])
  {
  }
}

/** The scan over all directed venue pairs. */
module Detector {
  import opened RateLimits

  /** What the scan reads of one venue. A missing side quotes tick 0. */
  datatype Venue = Venue(name: string, synced: bool, bestBid: int, bestAsk: int, tsBookNs: int)

  datatype Cross = Cross(sellVenue: string, buyVenue: string, sellBidTick: int, buyAskTick: int,
                         spreadBps: real, netSpreadBps: real, tsDetectedNs: int, sellTsBookNs: int, buyTsBookNs: int)

  datatype Settings = Settings(minSpreadBps: real, maxSpreadBps: real, rateLimitNs: int, maxAgeDiffNs: int,
                               maxPriceDeviationPct: real, feeBps: map<string, real>)

  const MAX_VENUES: nat := 16

  function Scanned(vs: seq<Venue>): (n: nat)
    ensures n <= |vs|
  {
    if |vs| < MAX_VENUES then |vs| else MAX_VENUES
  }

  function Fee(st: Settings, venue: string): real {
    if venue in st.feeBps then st.feeBps[venue] else 0.0
  }

  // ---- the median filter ----

  predicate Quoting(v: Venue) {
    v.synced && v.bestBid > 0
  }

  /** Positive best bids of the first `n` venues, in venue order. */
  function Bids(vs: seq<Venue>, n: nat): seq<int>
    requires n <= |vs|
  {
    if n == 0 then [] else Bids(vs, n - 1) + if Quoting(vs[n - 1]) then [vs[n - 1].bestBid] else []
  }

  function Insert(x: int, s: seq<int>): (r: seq<int>)
    ensures |r| == |s| + 1
  {
    if s == [] || x <= s[0] then [x] + s else [s[0]] + Insert(x, s[1..])
  }

  function SortInts(s: seq<int>): (r: seq<int>)
    ensures |r| == |s|
  {
    if s == [] then [] else Insert(s[0], SortInts(s[1..]))
  }

  function Median(bids: seq<int>): real
    requires |bids| > 0
  {
    var s, m := SortInts(bids), |bids| / 2;
    if |bids| % 2 == 0 then (s[m - 1] + s[m]) as real * 0.5 else s[m] as real
  }

  function Abs(x: real): real {
    if x < 0.0 then -x else x
  }

  /** The deviation allowed around a price. */
  function Threshold(st: Settings, price: real): real {
    price * (st.maxPriceDeviationPct / 100.0)
  }

  /** The venue's bid is farther from the median than the configured percentage. */
  predicate Anomalous(st: Settings, vs: seq<Venue>, i: nat)
    requires i < Scanned(vs)
  {
    var bids := Bids(vs, Scanned(vs));
    && st.maxPriceDeviationPct > 0.0 && |bids| >= 2 && Quoting(vs[i])
    && Abs(vs[i].bestBid as real - Median(bids)) > Threshold(st, Median(bids))
  }

  // ---- one pair ----

  function SpreadBps(sell: Venue, buy: Venue): real
    requires sell.bestBid + buy.bestAsk > 0
  {
    ((sell.bestBid - buy.bestAsk) as real / ((sell.bestBid + buy.bestAsk) as real * 0.5)) * 10000.0
  }

  predicate Fresh(st: Settings, sell: Venue, buy: Venue, now: int) {
    st.maxAgeDiffNs > 0 ==>
      && now - sell.tsBookNs <= st.maxAgeDiffNs
      && now - buy.tsBookNs <= st.maxAgeDiffNs
      && -st.maxAgeDiffNs <= sell.tsBookNs - buy.tsBookNs <= st.maxAgeDiffNs
  }

  function NetSpreadBps(st: Settings, sell: Venue, buy: Venue): real
    requires sell.bestBid + buy.bestAsk > 0
  {
    SpreadBps(sell, buy) - Fee(st, sell.name) - Fee(st, buy.name)
  }

  /** Every guard of the scan except the rate limit. */
  predicate Eligible(st: Settings, vs: seq<Venue>, now: int, si: nat, bi: nat)
    requires si < Scanned(vs) && bi < Scanned(vs)
  {
    var sell, buy := vs[si], vs[bi];
    && si != bi
    && sell.synced && buy.synced
    && !Anomalous(st, vs, si) && !Anomalous(st, vs, bi)
    && sell.bestBid != 0 && buy.bestAsk != 0 && sell.bestBid > buy.bestAsk
    && Fresh(st, sell, buy, now)
    && sell.bestBid + buy.bestAsk > 0
    && !(st.maxSpreadBps > 0.0 && SpreadBps(sell, buy) > st.maxSpreadBps)
    && NetSpreadBps(st, sell, buy) >= st.minSpreadBps
  }

  function CrossOf(st: Settings, vs: seq<Venue>, now: int, si: nat, bi: nat): Cross
    requires si < Scanned(vs) && bi < Scanned(vs) && Eligible(st, vs, now, si, bi)
  {
    var sell, buy := vs[si], vs[bi];
    Cross(sell.name, buy.name, sell.bestBid, buy.bestAsk, SpreadBps(sell, buy), NetSpreadBps(st, sell, buy),
          now, sell.tsBookNs, buy.tsBookNs)
  }

  function PairKey(sell: string, buy: string): string {
    sell + ":" + buy
  }

  // ---- the whole scan ----

  /** Limiter memory, crosses returned by this scan, crosses the callback has seen. */
  datatype Scan = Scan(last: map<string, int>, result: seq<Cross>, seen: seq<Cross>)

  /** One pair. `active(k)` is the standby flag at the moment the k-th cross of this scan is emitted. */
  function Visit(st: Settings, vs: seq<Venue>, now: int, active: nat -> bool, sc: Scan, si: nat, bi: nat): Scan
    requires si < Scanned(vs) && bi < Scanned(vs)
  {
    var key := PairKey(vs[si].name, vs[bi].name);
    if Eligible(st, vs, now, si, bi) && Allows(st.rateLimitNs, sc.last, key, now) then
      var c := CrossOf(st, vs, now, si, bi);
      Scan(Record(st.rateLimitNs, sc.last, key, now), sc.result + [c],
           if active(|sc.result|) then sc.seen + [c] else sc.seen)
    else sc
  }

  function Row(st: Settings, vs: seq<Venue>, now: int, active: nat -> bool, sc: Scan, si: nat, bi: nat): Scan
    requires si < Scanned(vs) && bi <= Scanned(vs)
  {
    if bi == 0 then sc else Visit(st, vs, now, active, Row(st, vs, now, active, sc, si, bi - 1), si, bi - 1)
  }

  function Rows(st: Settings, vs: seq<Venue>, now: int, active: nat -> bool, sc: Scan, si: nat): Scan
    requires si <= Scanned(vs)
  {
    if si == 0 then sc
    else Row(st, vs, now, active, Rows(st, vs, now, active, sc, si - 1), si - 1, Scanned(vs))
  }

  function ScanAll(st: Settings, vs: seq<Venue>, now: int, active: nat -> bool, last: map<string, int>, seen: seq<Cross>): Scan {
    Rows(st, vs, now, active, Scan(last, [], seen), Scanned(vs))
  }

  // ---- the class ----

  class ArbDetector {
    const st: Settings
    const priceAnomaly: array<bool>
    const bidsBuf: array<int>
    var lastEmit: map<string, int>
    var seen: seq<Cross>

    ghost predicate Valid()
      reads this
    {
      priceAnomaly.Length == MAX_VENUES && bidsBuf.Length == MAX_VENUES
    }

    constructor (st: Settings)
      ensures Valid() && fresh(priceAnomaly) && fresh(bidsBuf)
      ensures this.st == st && lastEmit == map[] && seen == []
    {
      this.st := st;
      priceAnomaly := new bool[MAX_VENUES](_ => false);
      bidsBuf := new int[MAX_VENUES](_ => 0);
      lastEmit, seen := map[], [];
    }

    /** Fills the reusable anomaly flags for this scan. */
    method FlagAnomalies(vs: seq<Venue>)
      requires Valid()
      modifies priceAnomaly, bidsBuf
      ensures forall i :: 0 <= i < Scanned(vs) ==> priceAnomaly[i] == Anomalous(st, vs, i)
    {
      var n := Scanned(vs);
      forall i | 0 <= i < priceAnomaly.Length {
        priceAnomaly[i] := false;
      }
      if st.maxPriceDeviationPct > 0.0 {
        var count := 0;
        for i := 0 to n
          invariant count == |Bids(vs, i)| <= i
          invariant bidsBuf[..count] == Bids(vs, i)
          invariant forall j :: 0 <= j < priceAnomaly.Length ==> !priceAnomaly[j]
        {
          if Quoting(vs[i]) {
            bidsBuf[count] := vs[i].bestBid;
            count := count + 1;
          }
        }
        if count >= 2 {
          var median := Median(bidsBuf[..count]);
          var threshold := Threshold(st, median);
          for i := 0 to n
            invariant forall j :: 0 <= j < i ==> priceAnomaly[j] == Anomalous(st, vs, j)
            invariant forall j :: i <= j < priceAnomaly.Length ==> !priceAnomaly[j]
          {
            if Quoting(vs[i]) && Abs(vs[i].bestBid as real - median) > threshold {
              priceAnomaly[i] := true;
            }
          }
        }
      }
    }

    method CheckRateLimit(key: string, ts: int) returns (ok: bool)
      modifies this`lastEmit
      ensures ok == Allows(st.rateLimitNs, old(lastEmit), key, ts)
      ensures lastEmit == if ok then Record(st.rateLimitNs, old(lastEmit), key, ts) else old(lastEmit)
    {
      if st.rateLimitNs <= 0 {
        return true;
      }
      if key in lastEmit && ts - lastEmit[key] < st.rateLimitNs {
        return false;
      }
      lastEmit := lastEmit[key := ts];
      return true;
    }

    /** The scan returns and reports exactly what `ScanAll` says. */
    method ScanVenues(vs: seq<Venue>, now: int, active: nat -> bool) returns (result: seq<Cross>)
      requires Valid()
      modifies this`lastEmit, this`seen, priceAnomaly, bidsBuf
      ensures Scan(lastEmit, result, seen) == ScanAll(st, vs, now, active, old(lastEmit), old(seen))
    {
      result := [];
      var n := Scanned(vs);
      ghost var start := Scan(lastEmit, [], seen);
      FlagAnomalies(vs);
      for si := 0 to n
        invariant Scan(lastEmit, result, seen) == Rows(st, vs, now, active, start, si)
        invariant forall i :: 0 <= i < n ==> priceAnomaly[i] == Anomalous(st, vs, i)
      {
        ghost var row := Rows(st, vs, now, active, start, si);
        var sell := vs[si];
        if !sell.synced || priceAnomaly[si] || sell.bestBid == 0 {
          SkippedRow(st, vs, now, active, row, si, n);
          continue;
        }
        for bi := 0 to n
          invariant Scan(lastEmit, result, seen) == Row(st, vs, now, active, row, si, bi)
          invariant forall i :: 0 <= i < n ==> priceAnomaly[i] == Anomalous(st, vs, i)
        {
          var buy := vs[bi];
          if bi == si || !buy.synced || priceAnomaly[bi] || buy.bestAsk == 0 {
            continue;
          }
          if sell.bestBid <= buy.bestAsk || !Fresh(st, sell, buy, now) || sell.bestBid + buy.bestAsk <= 0 {
            continue;
          }
          var spread := SpreadBps(sell, buy);
          if st.maxSpreadBps > 0.0 && spread > st.maxSpreadBps {
            continue;
          }
          var net := spread - Fee(st, sell.name) - Fee(st, buy.name);
          if net < st.minSpreadBps {
            continue;
          }
          var ok := CheckRateLimit(PairKey(sell.name, buy.name), now);
          if !ok {
            continue;
          }
          var cross := Cross(sell.name, buy.name, sell.bestBid, buy.bestAsk, spread, net, now, sell.tsBookNs, buy.tsBookNs);
          if active(|result|) {
            seen := seen + [cross];
          }
          result := result + [cross];
        }
      }
    }
  }

  /** A seller that fails its own guards contributes nothing. */
  lemma SkippedRow(st: Settings, vs: seq<Venue>, now: int, active: nat -> bool, sc: Scan, si: nat, bi: nat)
    requires si < Scanned(vs) && bi <= Scanned(vs)
    requires !vs[si].synced || Anomalous(st, vs, si) || vs[si].bestBid == 0
    ensures Row(st, vs, now, active, sc, si, bi) == sc
  {
    if bi != 0 {
      SkippedRow(st, vs, now, active, sc, si, bi - 1);
    }
  }
}
