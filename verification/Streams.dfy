/**
 A min-queue of timestamped items with a push counter as tie-break. The vector is kept sorted by
 (timestamp, counter), so popping the front is what a binary heap of such tuples pops.
 */
module TimedQueues {

  datatype Entry<+T> = Entry(ts: int, order: nat, item: T)

  predicate Precedes<T>(a: Entry<T>, b: Entry<T>) {
    a.ts < b.ts || (a.ts == b.ts && a.order < b.order)
  }

  function Push<T>(q: seq<Entry<T>>, e: Entry<T>): seq<Entry<T>> {
    if q == [] || Precedes(e, q[0]) then [e] + q else [q[0]] + Push(q[1..], e)
  }

  ghost predicate InOrder<T>(q: seq<Entry<T>>) {
    forall i, j :: 0 <= i < j < |q| ==> Precedes(q[i], q[j])
  }

  /** Every counter in the queue is below `next`. */
  ghost predicate Older<T>(q: seq<Entry<T>>, next: nat) {
    forall i :: 0 <= i < |q| ==> q[i].order < next
  }

  lemma {:induction false} PushMembers<T>(q: seq<Entry<T>>, e: Entry<T>)
    ensures |Push(q, e)| == |q| + 1
    ensures forall x :: x in Push(q, e) <==> x == e || x in q
    ensures forall j :: 0 <= j < |Push(q, e)| ==> Push(q, e)[j] == e || Push(q, e)[j] in q
  {
    if !(q == [] || Precedes(e, q[0])) {
      PushMembers(q[1..], e);
      assert q == [q[0]] + q[1..];
    }
  }

  lemma {:induction false} PushInOrder<T>(q: seq<Entry<T>>, e: Entry<T>)
    requires InOrder(q) && Older(q, e.order)
    ensures InOrder(Push(q, e)) && Older(Push(q, e), e.order + 1)
  {
    if !(q == [] || Precedes(e, q[0])) {
      var tail := q[1..];
      PushInOrder(tail, e);
      PushMembers(tail, e);
      var r := Push(tail, e);
      forall j | 0 <= j < |r| ensures Precedes(q[0], r[j]) {
        assert r[j] == e || r[j] in tail;
      }
    }
  }
}

/** Reading one venue file with prefetch, and merging many in timestamp order. */
module Streams {
  import opened Options
  import opened TimedQueues

  /** A book_state row: its timestamp and its contents. */
  datatype Row = Row(ts: int, payload: string)

  /** The rows a file still holds from line `from` on; a line that does not parse is skipped. */
  function RowsFrom(lines: seq<Option<Row>>, from: nat): seq<Row>
    requires from <= |lines|
    decreases |lines| - from
  {
    if from == |lines| then []
    else (if lines[from].Some? then [lines[from].value] else []) + RowsFrom(lines, from + 1)
  }

  class RawBookStateStream {
    const lines: seq<Option<Row>>
    const bufferSize: nat
    var pos: nat
    var buffer: seq<Row>

    ghost predicate Valid()
      reads this
    {
      pos <= |lines| && bufferSize >= 1
    }

    /** What the stream will still deliver. */
    ghost function Remaining(): seq<Row>
      requires Valid()
      reads this
    {
      buffer + RowsFrom(lines, pos)
    }

    constructor (lines: seq<Option<Row>>, bufferSize: int)
      ensures Valid() && Remaining() == RowsFrom(lines, 0)
      ensures this.lines == lines
    {
      this.lines := lines;
      this.bufferSize := if bufferSize < 1 then 1 else bufferSize;
      pos, buffer := 0, [];
    }

    method FillBuffer()
      requires Valid()
      modifies this
      ensures Valid() && Remaining() == old(Remaining())
      ensures buffer == [] ==> Remaining() == []
    {
      while |buffer| < bufferSize
        invariant Valid() && Remaining() == old(Remaining())
        decreases |lines| - pos
      {
        if pos == |lines| {
          break;
        }
        var row := lines[pos];
        pos := pos + 1;
        if row.Some? {
          buffer := buffer + [row.value];
        }
      }
    }

    /** Delivers the rows of the file in order, whatever the buffer size. */
    method NextRow() returns (row: Option<Row>)
      requires Valid()
      modifies this
      ensures Valid()
      ensures row == if old(Remaining()) == [] then None else Some(old(Remaining())[0])
      ensures Remaining() == if old(Remaining()) == [] then [] else old(Remaining())[1..]
    {
      if buffer == [] {
        FillBuffer();
      }
      if buffer == [] {
        return None;
      }
      row := Some(buffer[0]);
      buffer := buffer[1..];
      if buffer == [] {
        FillBuffer();
      }
    }
  }

  // ---- the merge ----

  datatype File = File(venue: string, rows: seq<Row>)
  datatype Head = Head(venue: string, row: Row)

  /** The queue of next rows, what each venue's stream still holds, the push counter, the rows yielded. */
  datatype Merge = Merge(queue: seq<Entry<Head>>, rest: map<string, seq<Row>>, order: nat, out: seq<Head>)

  function Offer(m: Merge, venue: string): Merge {
    if venue !in m.rest || m.rest[venue] == [] then m
    else
      var row := m.rest[venue][0];
      m.(queue := Push(m.queue, Entry(row.ts, m.order, Head(venue, row))), order := m.order + 1,
         rest := m.rest[venue := m.rest[venue][1..]])
  }

  /** A file opened: its stream takes the place of an earlier one of the venue, and its first row is offered. */
  function Open(m: Merge, f: File): Merge {
    Offer(m.(rest := m.rest[f.venue := f.rows]), f.venue)
  }

  /** The constructor: the files in discovery order. */
  function Opened(files: seq<File>, n: nat): Merge
    requires n <= |files|
  {
    if n == 0 then Merge([], map[], 0, []) else Open(Opened(files, n - 1), files[n - 1])
  }

  /** One turn of the iterator. */
  function Turn(m: Merge): Merge {
    if m.queue == [] then m
    else
      var head := m.queue[0].item;
      Offer(m.(queue := m.queue[1..], out := m.out + [head]), head.venue)
  }

  function Turns(files: seq<File>, n: nat): Merge {
    if n == 0 then Opened(files, |files|) else Turn(Turns(files, n - 1))
  }

  // ---- the class ----

  lemma SameRest(a: map<string, seq<Row>>, b: map<string, seq<Row>>)
    requires a.Keys == b.Keys && forall v :: v in a ==> a[v] == b[v]
    ensures a == b
  {
  }

  class TimeMergedBookStream {
    var streams: map<string, RawBookStateStream>
    var queue: seq<Entry<Head>>
    var order: nat
    ghost var out: seq<Head>

    /** Different venues read different files, each through its own stream. */
    ghost predicate StreamsValid()
      reads this`streams, streams.Values
    {
      && (forall v :: v in streams ==> streams[v].Valid())
      && (forall v, w :: v in streams && w in streams && v != w ==> streams[v] != streams[w])
    }

    /** Every waiting head has its stream. */
    ghost predicate Valid()
      reads this, streams.Values
    {
      StreamsValid() && forall e :: e in queue ==> e.item.venue in streams
    }

    ghost function Rest(): map<string, seq<Row>>
      requires StreamsValid()
      reads this`streams, streams.Values
    {
      map v | v in streams :: streams[v].Remaining()
    }

    ghost function View(): Merge
      requires Valid()
      reads this, streams.Values
    {
      Merge(queue, Rest(), order, out)
    }

    /** No file opened yet. */
    constructor ()
      ensures Valid() && View() == Opened([], 0)
    {
      streams, queue, order, out := map[], [], 0, [];
    }

    /** One turn of the constructor's loop: open a stream, replacing an earlier one of the venue, and offer its first row. */
    method AddFile(venue: string, lines: seq<Option<Row>>, bufferSize: int)
      requires Valid()
      modifies this`streams, this`queue, this`order
      ensures Valid() && venue in streams && fresh(streams[venue])
      ensures streams == old(streams)[venue := streams[venue]]
      ensures View() == Open(old(View()), File(venue, RowsFrom(lines, 0)))
    {
      var stream := new RawBookStateStream(lines, bufferSize);
      streams := streams[venue := stream];
      ghost var m := old(View());
      SameRest(Rest(), m.rest[venue := RowsFrom(lines, 0)]);
      OfferNext(venue);
    }

    method TakeRow(venue: string) returns (row: Option<Row>)
      requires StreamsValid() && venue in streams
      modifies streams[venue]
      ensures StreamsValid()
      ensures row == if old(Rest())[venue] == [] then None else Some(old(Rest())[venue][0])
      ensures Rest() == if row.None? then old(Rest()) else old(Rest())[venue := old(Rest())[venue][1..]]
    {
      ghost var before := Rest();
      row := streams[venue].NextRow();
      ghost var after := if row.None? then before else before[venue := before[venue][1..]];
      forall v | v in streams ensures Rest()[v] == after[v] {
        if v != venue {
          assert streams[v].Remaining() == before[v];
        }
      }
      SameRest(Rest(), after);
    }

    method OfferNext(venue: string)
      requires Valid() && venue in streams
      modifies this`queue, this`order, streams[venue]
      ensures streams == old(streams) && Valid() && View() == Offer(old(View()), venue)
    {
      ghost var before := View();
      var row := TakeRow(venue);
      if row.Some? {
        Enter(Entry(row.value.ts, order, Head(venue, row.value)));
      }
      assert View() == Offer(before, venue);
    }

    method Enter(e: Entry<Head>)
      requires Valid() && e.item.venue in streams
      modifies this`queue, this`order
      ensures Valid() && View() == old(View()).(queue := Push(old(queue), e), order := old(order) + 1)
    {
      PushMembers(queue, e);
      queue := Push(queue, e);
      order := order + 1;
    }

    /** One turn of the iterator, whatever the buffer sizes of the streams. */
    method Next() returns (head: Option<Head>)
      requires Valid()
      modifies this`queue, this`order, this`out, streams.Values
      ensures streams == old(streams) && Valid() && View() == Turn(old(View()))
      ensures head == if old(queue) == [] then None else Some(old(queue)[0].item)
    {
      if queue == [] {
        return None;
      }
      assert queue[0] in queue;
      head := Some(queue[0].item);
      queue := queue[1..];
      out := out + [head.value];
      ghost var m := old(View());
      assert View() == m.(queue := m.queue[1..], out := m.out + [head.value]);
      OfferNext(head.value.venue);
    }
  }
}
