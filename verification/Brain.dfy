/**
 The brain's side of the wire: one gap-tolerant controller per (venue, symbol), fed by the
 events of many feeds, and the health flag that decides whether a venue may be used.
 */
module Brain {
  import opened Options
  import opened OrderBooks
  import opened Controllers
  import opened FeedHandlers

  datatype VenueBook = VenueBook(venue: string, symbol: string, ctl: Ctl, feedHealthy: bool) {
    predicate Synced() {
      feedHealthy && ctl.state.Synced?
    }
  }

  /** The brain joins mid-stream: gaps are tolerated and no checksum is wired. */
  function BrainConfig(depth: nat): Config {
    Config(depth, true, 0, false, false, None)
  }

  function NewVenue(venue: string, symbol: string): VenueBook {
    VenueBook(venue, symbol, START, false)
  }

  /** `parse_level` throws on a negative lot and on a resting level without a positive price. */
  predicate LevelParses(l: Level) {
    l.quantityLot >= 0 && (l.quantityLot > 0 ==> l.priceTick > 0)
  }

  predicate LevelsParse(ls: seq<Level>) {
    forall l :: l in ls ==> LevelParses(l)
  }

  predicate EventParses(e: Event) {
    match e
    case SnapshotEvent(s) => LevelsParse(s.bids) && LevelsParse(s.asks)
    case IncrementalEvent(i) => LevelsParse(i.bids) && LevelsParse(i.asks)
    case BookStateEvent(_, bids, asks) => LevelsParse(bids) && LevelsParse(asks)
    case StatusEvent(_) => true
  }

  /** The levels an event carries. */
  function EventLevels(e: Event): seq<Level> {
    match e
    case SnapshotEvent(s) => s.bids + s.asks
    case IncrementalEvent(i) => i.bids + i.asks
    case BookStateEvent(_, bids, asks) => bids + asks
    case StatusEvent(_) => []
  }

  /** An event parses if and only if each of its levels is a removal, or rests with a positive lot at a positive price. */
  lemma ParsesExactly(e: Event)
    ensures EventParses(e) <==>
            forall l :: l in EventLevels(e) ==> l.quantityLot == 0 || (l.quantityLot > 0 && l.priceTick > 0)
  {
    match e
    case SnapshotEvent(s) => ParsesSides(s.bids, s.asks);
    case IncrementalEvent(i) => ParsesSides(i.bids, i.asks);
    case BookStateEvent(_, bids, asks) => ParsesSides(bids, asks);
    case StatusEvent(_) =>
  }

  lemma ParsesSides(bids: seq<Level>, asks: seq<Level>)
    ensures LevelsParse(bids) && LevelsParse(asks) <==>
            forall l :: l in bids + asks ==> l.quantityLot == 0 || (l.quantityLot > 0 && l.priceTick > 0)
  {
    assert forall l :: l in bids + asks <==> l in bids || l in asks;
  }

  function Checkpoint(appliedSeq: nat, bids: seq<Level>, asks: seq<Level>): Snapshot {
    Snapshot(appliedSeq, 0, bids, asks)
  }

  /** One event for one venue. A book_state marks the venue healthy before its levels are parsed. */
  function OnEvent(depth: nat, b: VenueBook, e: Event): VenueBook {
    var cfg := BrainConfig(depth);
    match e
    case SnapshotEvent(s) =>
      if !EventParses(e) then b
      else
        var (c, action) := OnSnapshot(cfg, b.ctl, s, WsAuthoritative);
        b.(ctl := c, feedHealthy := action.NoAction?)
    case IncrementalEvent(i) =>
      if !EventParses(e) then b else b.(ctl := OnIncrement(cfg, b.ctl, i).0, feedHealthy := true)
    case BookStateEvent(seqNo, bids, asks) =>
      if !EventParses(e) then b.(feedHealthy := true)
      else b.(ctl := OnSnapshot(cfg, b.ctl, Checkpoint(seqNo, bids, asks), WsAuthoritative).0, feedHealthy := true)
    case StatusEvent(status) =>
      if status.IsDisconnected? then b.(feedHealthy := false, ctl := Reset(b.ctl)) else b.(feedHealthy := false)
  }

  /** The venue after the first `n` events of a stream. */
  function VenueAfter(depth: nat, b: VenueBook, es: seq<Event>, n: nat): VenueBook
    requires n <= |es|
  {
    if n == 0 then b else OnEvent(depth, VenueAfter(depth, b, es, n - 1), es[n - 1])
  }

  // ---- what the stream alone says about a venue ----

  /** The last word on the feed's health: a status is bad news, a checkpoint or anything else that parses good news. */
  function HealthAt(es: seq<Event>, n: nat): bool
    requires n <= |es|
  {
    n != 0 &&
    match es[n - 1]
    case StatusEvent(_) => false
    case BookStateEvent(_, _, _) => true
    case _ => EventParses(es[n - 1]) || HealthAt(es, n - 1)
  }

  /** Some baseline parsed since the last disconnect. */
  function LoadedAt(es: seq<Event>, n: nat): bool
    requires n <= |es|
  {
    n != 0 &&
    match es[n - 1]
    case StatusEvent(status) => !status.IsDisconnected? && LoadedAt(es, n - 1)
    case IncrementalEvent(_) => LoadedAt(es, n - 1)
    case _ => EventParses(es[n - 1]) || LoadedAt(es, n - 1)
  }

  /**
   After any stream the venue is marked healthy exactly as the last telling event says, and has an
   empty book waiting for a baseline whenever none has parsed since the last disconnect.
   */
  lemma {:induction false} HealthExactly(depth: nat, venue: string, symbol: string, es: seq<Event>, n: nat)
    requires n <= |es|
    ensures var b := VenueAfter(depth, NewVenue(venue, symbol), es, n);
            b.feedHealthy == HealthAt(es, n) && (!LoadedAt(es, n) ==> b.ctl == Reset(b.ctl))
  {
    if n != 0 {
      HealthExactly(depth, venue, symbol, es, n - 1);
    }
  }

  // ---- routing ----

  /** One message on the wire; `event` is None for an unknown type. */
  datatype Wire = Wire(schemaVersion: int, typeEmpty: bool, venue: string, symbol: string, event: Option<Event>) {
    predicate Accepted() {
      schemaVersion == 1 && !typeEmpty && venue != ""
    }
  }

  predicate Matches(b: VenueBook, w: Wire) {
    b.venue == w.venue && b.symbol == w.symbol
  }

  function Find(books: seq<VenueBook>, w: Wire, from: nat): (i: nat)
    requires from <= |books|
    ensures from <= i <= |books|
    decreases |books| - from
  {
    if from == |books| || Matches(books[from], w) then from else Find(books, w, from + 1)
  }

  function WithVenue(books: seq<VenueBook>, w: Wire): seq<VenueBook> {
    if Find(books, w, 0) < |books| then books else books + [NewVenue(w.venue, w.symbol)]
  }

  function Route(depth: nat, books: seq<VenueBook>, w: Wire): seq<VenueBook> {
    if !w.Accepted() then books
    else
      var i, bs := Find(books, w, 0), WithVenue(books, w);
      if w.event.None? then bs else bs[i := OnEvent(depth, bs[i], w.event.value)]
  }

  function RouteAll(depth: nat, ws: seq<Wire>, n: nat): seq<VenueBook>
    requires n <= |ws|
  {
    if n == 0 then [] else Route(depth, RouteAll(depth, ws, n - 1), ws[n - 1])
  }

  /** The venue's book among `books`, or a fresh one. */
  function Lookup(books: seq<VenueBook>, venue: string, symbol: string): VenueBook {
    var i := Find(books, Wire(1, false, venue, symbol, None), 0);
    if i < |books| then books[i] else NewVenue(venue, symbol)
  }

  /** A well-formed message of the current schema, of a known type, for this venue and symbol. */
  predicate ForVenue(w: Wire, venue: string, symbol: string) {
    w.schemaVersion == 1 && !w.typeEmpty && w.venue == venue && venue != "" && w.symbol == symbol && w.event.Some?
  }

  /** The events of one (venue, symbol) among the first `n` messages. */
  function EventsFor(ws: seq<Wire>, venue: string, symbol: string, n: nat): seq<Event>
    requires n <= |ws|
  {
    if n == 0 then []
    else
      EventsFor(ws, venue, symbol, n - 1) +
      if ForVenue(ws[n - 1], venue, symbol) then [ws[n - 1].event.value] else []
  }

  lemma FindMatches(books: seq<VenueBook>, w: Wire, from: nat)
    requires from <= |books|
    ensures var i := Find(books, w, from);
            && (forall j :: from <= j < i ==> !Matches(books[j], w))
            && (i < |books| ==> Matches(books[i], w))
    decreases |books| - from
  {
    if from < |books| && !Matches(books[from], w) {
      FindMatches(books, w, from + 1);
    }
  }

  lemma OnEventKeepsName(depth: nat, b: VenueBook, e: Event)
    ensures OnEvent(depth, b, e).venue == b.venue && OnEvent(depth, b, e).symbol == b.symbol
  {
  }

  /** Routing one message changes exactly the addressed venue. */
  lemma RouteLookup(depth: nat, books: seq<VenueBook>, w: Wire, venue: string, symbol: string)
    ensures var b := Lookup(books, venue, symbol);
            Lookup(Route(depth, books, w), venue, symbol) ==
              if ForVenue(w, venue, symbol) then OnEvent(depth, b, w.event.value) else b
  {
    var q := Wire(1, false, venue, symbol, None);
    FindMatches(books, q, 0);
    FindMatches(books, w, 0);
    var after := Route(depth, books, w);
    FindMatches(after, q, 0);
    if w.Accepted() {
      var i, bs := Find(books, w, 0), WithVenue(books, w);
      if w.event.Some? {
        OnEventKeepsName(depth, bs[i], w.event.value);
      }
      var k, m := Find(books, q, 0), Find(after, q, 0);
      assert forall j :: 0 <= j < |books| ==> Matches(after[j], q) == Matches(books[j], q);
      if k < |books| {
        assert m == k;
      } else if venue == w.venue && symbol == w.symbol {
        assert i == |books| && Matches(after[i], q);
        assert m == |books|;
      } else {
        assert m == |after|;
      }
    }
  }

  /** Each venue evolves as if its own events were the whole stream. */
  lemma {:induction false} VenuesIndependent(depth: nat, ws: seq<Wire>, venue: string, symbol: string, n: nat)
    requires n <= |ws|
    ensures var es := EventsFor(ws, venue, symbol, n);
            Lookup(RouteAll(depth, ws, n), venue, symbol) == VenueAfter(depth, NewVenue(venue, symbol), es, |es|)
  {
    if n != 0 {
      VenuesIndependent(depth, ws, venue, symbol, n - 1);
      RouteLookup(depth, RouteAll(depth, ws, n - 1), ws[n - 1], venue, symbol);
      var before, es := EventsFor(ws, venue, symbol, n - 1), EventsFor(ws, venue, symbol, n);
      PrefixAfter(depth, NewVenue(venue, symbol), before, es, |before|);
    }
  }

  lemma {:induction false} PrefixAfter(depth: nat, b: VenueBook, es: seq<Event>, fs: seq<Event>, n: nat)
    requires n <= |es| && n <= |fs| && es[..n] == fs[..n]
    ensures VenueAfter(depth, b, es, n) == VenueAfter(depth, b, fs, n)
  {
    if n != 0 {
      assert es[..n - 1] == es[..n][..n - 1] == fs[..n - 1];
      assert es[n - 1] == es[..n][n - 1] == fs[n - 1];
      PrefixAfter(depth, b, es, fs, n - 1);
    }
  }

  // ---- the parser ----

  method ParseLevels(ls: seq<Level>) returns (ok: bool)
    ensures ok == LevelsParse(ls)
  {
    for i := 0 to |ls|
      invariant forall j :: 0 <= j < i ==> LevelParses(ls[j])
    {
      if ls[i].quantityLot < 0 {
        assert ls[i] in ls;
        return false;
      }
      if ls[i].quantityLot > 0 && ls[i].priceTick <= 0 {
        assert ls[i] in ls;
        return false;
      }
    }
    return true;
  }

  method ParseEvent(e: Event) returns (ok: bool)
    ensures ok == EventParses(e)
  {
    ok := true;
    var bids, asks := [], [];
    match e {
      case SnapshotEvent(s) => bids, asks := s.bids, s.asks;
      case IncrementalEvent(i) => bids, asks := i.bids, i.asks;
      case BookStateEvent(_, b, a) => bids, asks := b, a;
      case StatusEvent(_) => return;
    }
    ok := ParseLevels(bids);
    if ok {
      ok := ParseLevels(asks);
    }
  }

  // ---- the classes ----

  class VenueSlot {
    const venue: string
    const symbol: string
    const controller: OrderBookController
    var feedHealthy: bool

    ghost predicate Valid(depth: nat) {
      controller.cfg == BrainConfig(depth) && controller.book.depth == depth
    }

    ghost function View(): VenueBook
      reads this, controller, controller.book
    {
      VenueBook(venue, symbol, controller.View(), feedHealthy)
    }

    /** The objects a slot owns. */
    ghost function Footprint(): set<object> {
      {this, controller, controller.book}
    }

    constructor (venue: string, symbol: string, depth: nat)
      requires depth > 0
      ensures Valid(depth) && fresh(controller) && fresh(controller.book) && View() == NewVenue(venue, symbol)
    {
      this.venue, this.symbol := venue, symbol;
      controller := new OrderBookController(BrainConfig(depth));
      feedHealthy := false;
    }

    /** The dispatch on the event type; a payload that does not parse leaves by the exception path. */
    method HandleEvent(e: Event, ghost depth: nat) returns (ok: bool)
      requires Valid(depth)
      modifies this, controller, controller.book
      ensures View() == OnEvent(depth, old(View()), e) && ok == EventParses(e)
    {
      ok := ParseEvent(e);
      match e {
        case SnapshotEvent(snap) =>
          if !ok {
            return;
          }
          var action := controller.HandleSnapshot(snap, WsAuthoritative);
          feedHealthy := action.NoAction?;
        case IncrementalEvent(inc) =>
          if !ok {
            return;
          }
          feedHealthy := true;
          var _ := controller.HandleIncrement(inc);
        case BookStateEvent(seqNo, bids, asks) =>
          feedHealthy := true;
          if !ok {
            return;
          }
          var _ := controller.HandleSnapshot(Checkpoint(seqNo, bids, asks), WsAuthoritative);
        case StatusEvent(status) =>
          feedHealthy := false;
          if status.IsDisconnected? {
            controller.ResetBook();
          }
      }
    }
  }

  class UnifiedBook {
    const depth: nat
    var slots: seq<VenueSlot>
    ghost var Repr: set<object>

    /** Every slot owns its controller and its book, and shares neither. */
    ghost predicate Valid()
      reads this
    {
      && depth > 0 && this !in Repr
      && (forall i :: 0 <= i < |slots| ==> slots[i].Valid(depth) && slots[i].Footprint() <= Repr)
      && (forall i, j :: 0 <= i < j < |slots| ==> slots[i].Footprint() !! slots[j].Footprint())
    }

    ghost function Books(): seq<VenueBook>
      requires Valid()
      reads this, Repr
    {
      seq(|slots|, i requires 0 <= i < |slots| reads this, Repr requires Valid() => slots[i].View())
    }

    constructor (depth: nat)
      requires depth > 0
      ensures Valid() && fresh(Repr) && this.depth == depth && Books() == []
    {
      this.depth := depth;
      slots, Repr := [], {};
    }

    method FindOrCreate(w: Wire) returns (i: nat)
      requires Valid()
      modifies this
      ensures Valid() && fresh(Repr - old(Repr))
      ensures Books() == WithVenue(old(Books()), w) && i == Find(old(Books()), w, 0) && i < |slots|
    {
      i := 0;
      while i < |slots|
        invariant i <= |slots| && slots == old(slots) && Repr == old(Repr)
        invariant Find(Books(), w, 0) == Find(Books(), w, i)
      {
        assert Books()[i] == slots[i].View();
        if slots[i].venue == w.venue && slots[i].symbol == w.symbol {
          return;
        }
        i := i + 1;
      }
      Append(w);
    }

    method Append(w: Wire)
      requires Valid()
      modifies this
      ensures Valid() && fresh(Repr - old(Repr)) && |slots| == old(|slots|) + 1
      ensures Books() == old(Books()) + [NewVenue(w.venue, w.symbol)]
    {
      var slot := new VenueSlot(w.venue, w.symbol, depth);
      slots := slots + [slot];
      Repr := Repr + slot.Footprint();
    }

    method HandleAt(i: nat, e: Event) returns (ok: bool)
      requires Valid() && i < |slots|
      modifies Repr
      ensures Valid() && ok == EventParses(e)
      ensures Books() == old(Books())[i := OnEvent(depth, old(Books())[i], e)]
    {
      ok := slots[i].HandleEvent(e, depth);
      forall j | 0 <= j < |slots| && j != i ensures slots[j].View() == old(slots[j].View()) {
        assert slots[i].Footprint() !! slots[j].Footprint();
      }
    }

    /** Routes one message; the answer is the venue, or empty when the message was discarded. */
    method HandleEvent(w: Wire) returns (venue: string)
      requires Valid()
      modifies this, Repr
      ensures Valid() && fresh(Repr - old(Repr))
      ensures Books() == Route(depth, old(Books()), w)
      ensures venue == if w.Accepted() && w.event.Some? && EventParses(w.event.value) then w.venue else ""
    {
      if !w.Accepted() {
        return "";
      }
      var i := FindOrCreate(w);
      if w.event.None? {
        return "";
      }
      var ok := HandleAt(i, w.event.value);
      return if ok then w.venue else "";
    }
  }
}
