/** What the merged stream consists of and in which order it comes, for any files, venues repeated or not. */
module MergeLaws {
  import opened TimedQueues
  import opened Streams

  /** The rows of one venue among yielded heads, in order. */
  function RowsOf(hs: seq<Head>, venue: string): seq<Row> {
    if hs == [] then []
    else RowsOf(hs[..|hs| - 1], venue) + if hs[|hs| - 1].venue == venue then [hs[|hs| - 1].row] else []
  }

  /** The rows of one venue waiting in the queue. */
  function Waiting(q: seq<Entry<Head>>, venue: string): seq<Row> {
    if q == [] then [] else (if q[0].item.venue == venue then [q[0].item.row] else []) + Waiting(q[1..], venue)
  }

  function RestOf(m: Merge, venue: string): seq<Row> {
    if venue in m.rest then m.rest[venue] else []
  }

  /** Everything the merge has delivered or still owes for a venue. */
  function Account(m: Merge, venue: string): seq<Row> {
    RowsOf(m.out, venue) + Waiting(m.queue, venue) + RestOf(m, venue)
  }

  /** At most one head per venue waits, and a venue with rows left has one waiting. */
  ghost predicate OneWaiting(m: Merge, venue: string) {
    |Waiting(m.queue, venue)| <= 1 && (RestOf(m, venue) != [] ==> |Waiting(m.queue, venue)| == 1)
  }

  lemma {:induction false} PushWaiting(q: seq<Entry<Head>>, e: Entry<Head>, venue: string)
    ensures e.item.venue != venue ==> Waiting(Push(q, e), venue) == Waiting(q, venue)
    ensures Waiting(q, venue) == [] && e.item.venue == venue ==> Waiting(Push(q, e), venue) == [e.item.row]
  {
    var r := Push(q, e);
    if q == [] || Precedes(e, q[0]) {
      assert r[1..] == q;
    } else {
      PushWaiting(q[1..], e, venue);
      assert r[1..] == Push(q[1..], e);
    }
  }

  lemma OfferKeeps(m: Merge, offered: string, venue: string)
    requires offered == venue ==> Waiting(m.queue, venue) == []
    requires offered != venue ==> OneWaiting(m, venue)
    ensures var k := Offer(m, offered); Account(k, venue) == Account(m, venue) && OneWaiting(k, venue)
  {
    if offered in m.rest && m.rest[offered] != [] {
      var row := m.rest[offered][0];
      PushWaiting(m.queue, Entry(row.ts, m.order, Head(offered, row)), venue);
      if offered == venue {
        assert m.rest[venue] == [row] + m.rest[venue][1..];
      }
    }
  }

  lemma TurnKeeps(m: Merge, venue: string)
    requires OneWaiting(m, venue)
    ensures Account(Turn(m), venue) == Account(m, venue) && OneWaiting(Turn(m), venue)
  {
    if m.queue != [] {
      var head := m.queue[0].item;
      var k := m.(queue := m.queue[1..], out := m.out + [head]);
      assert (m.out + [head])[..|m.out|] == m.out;
      assert Account(k, venue) == Account(m, venue);
      OfferKeeps(k, head.venue, venue);
    }
  }

  // ---- a venue with one file: the file, in order ----

  /** The rows of the venue's last file among the first `n`. */
  function FileRows(files: seq<File>, n: nat, venue: string): seq<Row>
    requires n <= |files|
  {
    if n == 0 then [] else if files[n - 1].venue == venue then files[n - 1].rows else FileRows(files, n - 1, venue)
  }

  /** No two files of this venue. */
  ghost predicate Unique(files: seq<File>, venue: string) {
    forall i, j :: 0 <= i < j < |files| ==> files[i].venue != venue || files[j].venue != venue
  }

  lemma {:induction false} OpenedKeeps(files: seq<File>, n: nat, venue: string)
    requires n <= |files| && Unique(files, venue)
    ensures var m := Opened(files, n);
            && Account(m, venue) == FileRows(files, n, venue) && OneWaiting(m, venue)
            && ((forall i :: 0 <= i < n ==> files[i].venue != venue) ==> Account(m, venue) == [] && venue !in m.rest)
  {
    if n != 0 {
      OpenedKeeps(files, n - 1, venue);
      var m, f := Opened(files, n - 1), files[n - 1];
      OfferKeeps(m.(rest := m.rest[f.venue := f.rows]), f.venue, venue);
    }
  }

  lemma {:induction false} TurnsKeep(files: seq<File>, n: nat, venue: string)
    requires Unique(files, venue)
    ensures Account(Turns(files, n), venue) == FileRows(files, |files|, venue) && OneWaiting(Turns(files, n), venue)
  {
    if n == 0 {
      OpenedKeeps(files, |files|, venue);
    } else {
      TurnsKeep(files, n - 1, venue);
      TurnKeeps(Turns(files, n - 1), venue);
    }
  }

  /** A file that is not replaced is what its venue's stream was opened on. */
  lemma {:induction false} FileRowsAt(files: seq<File>, n: nat, i: nat)
    requires i < n <= |files| && forall j :: i < j < n ==> files[j].venue != files[i].venue
    ensures FileRows(files, n, files[i].venue) == files[i].rows
  {
    if i < n - 1 {
      FileRowsAt(files, n - 1, i);
    }
  }

  /**
   An interleaving that keeps every file's order: at every moment the rows yielded for a venue
   with one file are a prefix of that file, and once the queue is empty they are all of it.
   Other venues may repeat.
   */
  lemma MergeIsInterleaving(files: seq<File>, n: nat, i: nat)
    requires i < |files| && Unique(files, files[i].venue)
    ensures var m := Turns(files, n);
            && RowsOf(m.out, files[i].venue) <= files[i].rows
            && (m.queue == [] ==> RowsOf(m.out, files[i].venue) == files[i].rows)
  {
    TurnsKeep(files, n, files[i].venue);
    FileRowsAt(files, |files|, i);
  }

  // ---- any venue: what is waiting leads what is left ----

  /** Rows left in a venue's stream have a head of that venue waiting before them. */
  ghost predicate Led(m: Merge, venue: string) {
    RestOf(m, venue) != [] ==> Waiting(m.queue, venue) != []
  }

  lemma {:induction false} PushWaits(q: seq<Entry<Head>>, e: Entry<Head>, venue: string)
    ensures multiset(Waiting(Push(q, e), venue)) ==
            multiset(Waiting(q, venue)) + if e.item.venue == venue then multiset{e.item.row} else multiset{}
  {
    var r := Push(q, e);
    if q == [] || Precedes(e, q[0]) {
      assert r[1..] == q;
    } else {
      PushWaits(q[1..], e, venue);
      assert r[0] == q[0] && r[1..] == Push(q[1..], e);
    }
  }

  lemma OfferLeads(m: Merge, offered: string, venue: string)
    requires offered != venue ==> Led(m, venue)
    ensures Led(Offer(m, offered), venue)
  {
    if offered in m.rest && m.rest[offered] != [] {
      var row := m.rest[offered][0];
      var e := Entry(row.ts, m.order, Head(offered, row));
      PushWaits(m.queue, e, venue);
      NotEmpty(Waiting(Push(m.queue, e), venue));
      NotEmpty(Waiting(m.queue, venue));
    }
  }

  lemma NotEmpty(rows: seq<Row>)
    ensures rows == [] <==> multiset(rows) == multiset{}
  {
    if rows != [] {
      assert rows[0] in multiset(rows);
    }
  }

  lemma {:induction false} OpenedLeads(files: seq<File>, n: nat, venue: string)
    requires n <= |files|
    ensures Led(Opened(files, n), venue)
  {
    if n != 0 {
      OpenedLeads(files, n - 1, venue);
      var m, f := Opened(files, n - 1), files[n - 1];
      OfferLeads(m.(rest := m.rest[f.venue := f.rows]), f.venue, venue);
    }
  }

  lemma {:induction false} TurnsLead(files: seq<File>, n: nat, venue: string)
    ensures Led(Turns(files, n), venue)
  {
    if n == 0 {
      OpenedLeads(files, |files|, venue);
    } else {
      TurnsLead(files, n - 1, venue);
      var m := Turns(files, n - 1);
      if m.queue != [] {
        var head := m.queue[0].item;
        OfferLeads(m.(queue := m.queue[1..], out := m.out + [head]), head.venue, venue);
      }
    }
  }

  // ---- any venue: which rows are delivered ----

  function Tail(rows: seq<Row>): seq<Row> {
    if rows == [] then [] else rows[1..]
  }

  /** The first row of each of the venue's files among the first `n`. */
  ghost function Heads(files: seq<File>, n: nat, venue: string): multiset<Row>
    requires n <= |files|
  {
    if n == 0 then multiset{} else Heads(files, n - 1, venue) + HeadOf(files[n - 1], venue)
  }

  ghost function HeadOf(f: File, venue: string): multiset<Row> {
    if f.venue == venue && f.rows != [] then multiset{f.rows[0]} else multiset{}
  }

  lemma {:induction false} OpenedYieldsNothing(files: seq<File>, n: nat)
    requires n <= |files|
    ensures Opened(files, n).out == []
  {
    if n != 0 {
      OpenedYieldsNothing(files, n - 1);
    }
  }

  /** The heads waiting for a venue after each opening. */
  ghost function Bags(files: seq<File>, venue: string): (bags: seq<multiset<Row>>)
    ensures |bags| == |files| + 1
  {
    seq(|files| + 1, i requires 0 <= i <= |files| => multiset(Waiting(Opened(files, i).queue, venue)))
  }

  ghost predicate BagStep(bags: seq<multiset<Row>>, files: seq<File>, i: nat, venue: string) {
    i < |files| && i + 1 < |bags| && bags[i + 1] == bags[i] + HeadOf(files[i], venue)
  }

  lemma OpenedBag(files: seq<File>, i: nat, venue: string)
    requires i < |files|
    ensures BagStep(Bags(files, venue), files, i, venue)
  {
    OpenWaits(Opened(files, i), files[i], venue);
  }

  lemma {:induction false} BagsAdd(bags: seq<multiset<Row>>, files: seq<File>, n: nat, venue: string)
    requires n <= |files| && n < |bags| && bags[0] == multiset{}
    requires forall i :: 0 <= i < n ==> BagStep(bags, files, i, venue)
    ensures bags[n] == Heads(files, n, venue)
  {
    if n != 0 {
      BagsAdd(bags, files, n - 1, venue);
      assert BagStep(bags, files, n - 1, venue);
    }
  }

  /** Opening leaves one head per file waiting. */
  lemma OpenedWaits(files: seq<File>, n: nat, venue: string)
    requires n <= |files|
    ensures multiset(Waiting(Opened(files, n).queue, venue)) == Heads(files, n, venue)
  {
    var bags := Bags(files, venue);
    forall i | 0 <= i < n ensures BagStep(bags, files, i, venue) {
      OpenedBag(files, i, venue);
    }
    assert bags[0] == multiset(Waiting([], venue));
    BagsAdd(bags, files, n, venue);
  }

  lemma OpenWaits(m: Merge, f: File, venue: string)
    ensures multiset(Waiting(Open(m, f).queue, venue)) == multiset(Waiting(m.queue, venue)) + HeadOf(f, venue)
  {
    if f.rows != [] {
      PushWaits(m.queue, Entry(f.rows[0].ts, m.order, Head(f.venue, f.rows[0])), venue);
    }
  }

  /** Of each venue the stream holds the rest of its last file. */
  lemma {:induction false} OpenedRest(files: seq<File>, n: nat, venue: string)
    requires n <= |files|
    ensures RestOf(Opened(files, n), venue) == Tail(FileRows(files, n, venue))
  {
    if n != 0 {
      OpenedRest(files, n - 1, venue);
    }
  }

  /** Delivered, waiting or still in the stream, in no particular order. */
  ghost function Tally(m: Merge, venue: string): multiset<Row> {
    multiset(RowsOf(m.out, venue)) + multiset(Waiting(m.queue, venue)) + multiset(RestOf(m, venue))
  }

  lemma OfferTally(m: Merge, offered: string, venue: string)
    ensures Tally(Offer(m, offered), venue) == Tally(m, venue)
  {
    if offered in m.rest && m.rest[offered] != [] {
      var rows := m.rest[offered];
      PushWaits(m.queue, Entry(rows[0].ts, m.order, Head(offered, rows[0])), venue);
      assert rows == [rows[0]] + rows[1..];
    }
  }

  lemma TurnTally(m: Merge, venue: string)
    ensures Tally(Turn(m), venue) == Tally(m, venue)
  {
    if m.queue != [] {
      var head := m.queue[0].item;
      var k := m.(queue := m.queue[1..], out := m.out + [head]);
      assert (m.out + [head])[..|m.out|] == m.out;
      assert Tally(k, venue) == Tally(m, venue);
      OfferTally(k, head.venue, venue);
    }
  }

  lemma {:induction false} TurnsTally(files: seq<File>, n: nat, venue: string)
    ensures Tally(Turns(files, n), venue) ==
            Heads(files, |files|, venue) + multiset(Tail(FileRows(files, |files|, venue)))
  {
    if n == 0 {
      OpenedYieldsNothing(files, |files|);
      OpenedWaits(files, |files|, venue);
      OpenedRest(files, |files|, venue);
      assert multiset(RowsOf(Opened(files, |files|).out, venue)) == multiset{};
    } else {
      TurnsTally(files, n - 1, venue);
      TurnTally(Turns(files, n - 1), venue);
    }
  }

  /** An empty queue means every stream is exhausted. */
  lemma MergeIdle(files: seq<File>, n: nat, venue: string)
    requires Turns(files, n).queue == []
    ensures RestOf(Turns(files, n), venue) == []
  {
    TurnsLead(files, n, venue);
  }

  /** Once the queue is empty a venue has delivered the first row of each of its files and the rest of its last one. */
  lemma MergeRows(files: seq<File>, n: nat, venue: string)
    requires Turns(files, n).queue == []
    ensures multiset(RowsOf(Turns(files, n).out, venue)) ==
            Heads(files, |files|, venue) + multiset(Tail(FileRows(files, |files|, venue)))
  {
    TurnsTally(files, n, venue);
    MergeIdle(files, n, venue);
  }

  // ---- how many rows are delivered ----

  /** A later file of the same venue takes this one's place. */
  ghost predicate Replaced(files: seq<File>, i: nat)
    requires i < |files|
  {
    exists j :: i < j < |files| && files[j].venue == files[i].venue
  }

  function TotalRows(files: seq<File>, n: nat): nat
    requires n <= |files|
  {
    if n == 0 then 0 else TotalRows(files, n - 1) + |files[n - 1].rows|
  }

  /** What a file contributes: a replaced one its first row at most. */
  ghost function KeptOf(files: seq<File>, i: nat): nat
    requires i < |files|
  {
    if Replaced(files, i) && files[i].rows != [] then 1 else |files[i].rows|
  }

  ghost function KeptRows(files: seq<File>, n: nat): nat
    requires n <= |files|
  {
    if n == 0 then 0 else KeptRows(files, n - 1) + KeptOf(files, n - 1)
  }

  /** Rows left in the streams, each venue counted at its last file. */
  ghost function Owed(m: Merge, files: seq<File>, n: nat): nat
    requires n <= |files|
  {
    if n == 0 then 0
    else Owed(m, files, n - 1) + if Replaced(files, n - 1) then 0 else |RestOf(m, files[n - 1].venue)|
  }

  function Filled(files: seq<File>, n: nat): nat
    requires n <= |files|
  {
    if n == 0 then 0 else Filled(files, n - 1) + if files[n - 1].rows == [] then 0 else 1
  }

  ghost function Left(m: Merge, files: seq<File>): nat {
    |m.queue| + Owed(m, files, |files|)
  }

  lemma {:induction false} OpenedQueue(files: seq<File>, n: nat)
    requires n <= |files|
    ensures |Opened(files, n).queue| == Filled(files, n)
  {
    if n != 0 {
      OpenedQueue(files, n - 1);
      var m, f := Opened(files, n - 1), files[n - 1];
      if f.rows != [] {
        PushMembers(m.queue, Entry(f.rows[0].ts, m.order, Head(f.venue, f.rows[0])));
      }
    }
  }

  lemma {:induction false} OpenedOwes(files: seq<File>, n: nat)
    requires n <= |files|
    ensures Owed(Opened(files, |files|), files, n) + Filled(files, n) == KeptRows(files, n)
  {
    if n != 0 {
      OpenedOwes(files, n - 1);
      OpenedRest(files, |files|, files[n - 1].venue);
      if !Replaced(files, n - 1) {
        FileRowsAt(files, |files|, n - 1);
        assert RestOf(Opened(files, |files|), files[n - 1].venue) == Tail(files[n - 1].rows);
      }
    }
  }

  /** The file a venue's stream was opened on last. */
  lemma LastFile(files: seq<File>, i: nat) returns (k: nat)
    requires i < |files|
    ensures k < |files| && files[k].venue == files[i].venue && !Replaced(files, k)
    decreases |files| - i
  {
    if Replaced(files, i) {
      var j :| i < j < |files| && files[j].venue == files[i].venue;
      k := LastFile(files, j);
    } else {
      k := i;
    }
  }

  /** A changed stream is counted at its venue's last file, and nowhere else. */
  lemma {:induction false} OwedChanges(m: Merge, k: Merge, files: seq<File>, n: nat, i: nat)
    requires i < |files| && n <= |files| && !Replaced(files, i)
    requires forall v :: v != files[i].venue ==> RestOf(k, v) == RestOf(m, v)
    ensures Owed(k, files, n) ==
            Owed(m, files, n) + if i < n then |RestOf(k, files[i].venue)| - |RestOf(m, files[i].venue)| else 0
  {
    if n != 0 {
      OwedChanges(m, k, files, n - 1, i);
      if n - 1 != i && !Replaced(files, n - 1) {
        assert files[n - 1].venue != files[i].venue;
      }
    }
  }

  lemma OfferLeft(m: Merge, files: seq<File>, i: nat)
    requires i < |files|
    ensures Left(Offer(m, files[i].venue), files) == Left(m, files)
  {
    var v := files[i].venue;
    if v in m.rest && m.rest[v] != [] {
      var k := LastFile(files, i);
      PushMembers(m.queue, Entry(m.rest[v][0].ts, m.order, Head(v, m.rest[v][0])));
      OwedChanges(m, Offer(m, v), files, |files|, k);
    }
  }

  ghost predicate HasFile(files: seq<File>, venue: string) {
    exists i :: 0 <= i < |files| && files[i].venue == venue
  }

  /** Every waiting head belongs to some file. */
  ghost predicate FromFiles(m: Merge, files: seq<File>) {
    forall e :: e in m.queue ==> HasFile(files, e.item.venue)
  }

  lemma OfferFrom(m: Merge, files: seq<File>, venue: string)
    requires HasFile(files, venue) && FromFiles(m, files)
    ensures FromFiles(Offer(m, venue), files)
  {
    if venue in m.rest && m.rest[venue] != [] {
      PushMembers(m.queue, Entry(m.rest[venue][0].ts, m.order, Head(venue, m.rest[venue][0])));
    }
  }

  lemma {:induction false} OpenedFrom(files: seq<File>, n: nat)
    requires n <= |files|
    ensures FromFiles(Opened(files, n), files)
  {
    if n != 0 {
      OpenedFrom(files, n - 1);
      var m, f := Opened(files, n - 1), files[n - 1];
      assert HasFile(files, f.venue);
      OfferFrom(m.(rest := m.rest[f.venue := f.rows]), files, f.venue);
    }
  }

  lemma TurnLeft(m: Merge, files: seq<File>)
    requires FromFiles(m, files) && m.queue != []
    ensures FromFiles(Turn(m), files) && |Turn(m).out| == |m.out| + 1 && Left(Turn(m), files) == Left(m, files) - 1
  {
    var head := m.queue[0];
    assert head in m.queue;
    var i :| 0 <= i < |files| && files[i].venue == head.item.venue;
    var k := m.(queue := m.queue[1..], out := m.out + [head.item]);
    assert FromFiles(k, files);
    SameOwed(m, k, files, |files|);
    OfferLeft(k, files, i);
    OfferFrom(k, files, head.item.venue);
  }

  lemma {:induction false} SameOwed(m: Merge, k: Merge, files: seq<File>, n: nat)
    requires n <= |files| && m.rest == k.rest
    ensures Owed(m, files, n) == Owed(k, files, n)
  {
    if n != 0 {
      SameOwed(m, k, files, n - 1);
    }
  }

  lemma {:induction false} NothingOwed(m: Merge, files: seq<File>, n: nat)
    requires n <= |files| && forall v :: RestOf(m, v) == []
    ensures Owed(m, files, n) == 0
  {
    if n != 0 {
      NothingOwed(m, files, n - 1);
    }
  }

  lemma {:induction false} TurnsLeft(files: seq<File>, n: nat)
    ensures var m := Turns(files, n);
            FromFiles(m, files) && |m.out| + Left(m, files) == KeptRows(files, |files|)
  {
    if n == 0 {
      OpenedFrom(files, |files|);
      OpenedQueue(files, |files|);
      OpenedOwes(files, |files|);
      OpenedYieldsNothing(files, |files|);
    } else {
      TurnsLeft(files, n - 1);
      if Turns(files, n - 1).queue != [] {
        TurnLeft(Turns(files, n - 1), files);
      }
    }
  }

  /** Each of the first turns yielded a row, until all that was kept was delivered and the queue was empty. */
  ghost predicate Yielded(files: seq<File>, n: nat) {
    var m, kept := Turns(files, n), KeptRows(files, |files|);
    |m.out| == (if n <= kept then n else kept) && (n >= kept ==> m.queue == [])
  }

  lemma YieldsNext(files: seq<File>, n: nat)
    requires Yielded(files, n)
    ensures Yielded(files, n + 1)
  {
    TurnsLeft(files, n);
    TurnsLeft(files, n + 1);
    if Turns(files, n).queue == [] {
      IdleIsDone(files, n);
    } else {
      TurnLeft(Turns(files, n), files);
    }
  }

  lemma {:induction false} TurnsYield(files: seq<File>, n: nat)
    ensures Yielded(files, n)
  {
    if n == 0 {
      TurnsLeft(files, 0);
      OpenedYieldsNothing(files, |files|);
    } else {
      TurnsYield(files, n - 1);
      YieldsNext(files, n - 1);
    }
  }

  lemma IdleIsDone(files: seq<File>, n: nat)
    requires Turns(files, n).queue == []
    ensures |Turns(files, n).out| == KeptRows(files, |files|)
  {
    TurnsLeft(files, n);
    forall v ensures RestOf(Turns(files, n), v) == [] {
      MergeIdle(files, n, v);
    }
    NothingOwed(Turns(files, n), files, |files|);
  }

  /** No file but the last of its venue has a second row. */
  ghost predicate NoneCut(files: seq<File>) {
    forall i, j :: 0 <= i < j < |files| && files[i].venue == files[j].venue ==> |files[i].rows| <= 1
  }

  ghost predicate NoneCutIn(files: seq<File>, n: nat)
    requires n <= |files|
  {
    forall i :: 0 <= i < n && Replaced(files, i) ==> |files[i].rows| <= 1
  }

  lemma {:induction false} KeptIsAll(files: seq<File>, n: nat)
    requires n <= |files|
    ensures KeptRows(files, n) <= TotalRows(files, n)
    ensures KeptRows(files, n) == TotalRows(files, n) <==> NoneCutIn(files, n)
  {
    if n != 0 {
      KeptIsAll(files, n - 1);
    }
  }

  /** The merge has ended after as many turns as there are rows, and it delivered them all if and only if no file was cut. */
  lemma MergeComplete(files: seq<File>)
    ensures var all := TotalRows(files, |files|);
            && Turns(files, all).queue == []
            && (|Turns(files, all).out| == all <==> NoneCut(files))
  {
    KeptIsAll(files, |files|);
    TurnsYield(files, TotalRows(files, |files|));
    CutMeansReplaced(files);
  }

  lemma CutMeansReplaced(files: seq<File>)
    ensures NoneCut(files) <==> NoneCutIn(files, |files|)
  {
    if NoneCutIn(files, |files|) {
      forall i, j | 0 <= i < j < |files| && files[i].venue == files[j].venue ensures |files[i].rows| <= 1 {
        assert Replaced(files, i);
      }
    }
  }

  /** A file that is alone in its venue is delivered whole and in order. */
  lemma MergeDelivers(files: seq<File>, i: nat)
    requires i < |files| && Unique(files, files[i].venue)
    ensures var m := Turns(files, TotalRows(files, |files|));
            m.queue == [] && RowsOf(m.out, files[i].venue) == files[i].rows
  {
    MergeComplete(files);
    MergeIsInterleaving(files, TotalRows(files, |files|), i);
  }

  /** Two files of one venue: the second replaces the first, whose later rows are never read. */
  lemma SameVenueLosesRows()
    ensures var a, b, c := Row(1, "a"), Row(2, "b"), Row(3, "c");
            var m := Turns([File("v", [a, b]), File("v", [c])], 2);
            m.queue == [] && m.out == [Head("v", a), Head("v", c)]
  {
    var a, b, c := Row(1, "a"), Row(2, "b"), Row(3, "c");
    var files := [File("v", [a, b]), File("v", [c])];
    var x, y := Entry(1, 0, Head("v", a)), Entry(3, 1, Head("v", c));
    assert [a, b][1..] == [b] && [c][1..] == [];
    assert Push([], x) == [x];
    var m0 := Merge([], map["v" := [a, b]], 0, []);
    var m1 := Offer(m0, "v");
    assert m1.queue == [x] && m1.order == 1 && m1.rest["v"] == [b];
    assert Opened(files, 0).(rest := map["v" := [a, b]]) == m0;
    assert Opened(files, 1) == m1;
    assert [x][1..] == [] && Push([], y) == [y];
    assert Push([x], y) == [x, y];
    var m2 := Opened(files, 2);
    assert m2.queue == [x, y] && m2.rest["v"] == [];
    assert [x, y][1..] == [y];
    var m3 := Turn(m2);
    assert (m2.out + [Head("v", a)]) == [Head("v", a)];
    assert m3.queue == [y] && m3.out == [Head("v", a)] && m3.rest["v"] == [];
    assert Turns(files, 1) == m3;
  }

  // ---- order of the merged stream ----

  ghost predicate RowsSorted(rows: seq<Row>) {
    forall i, j :: 0 <= i < j < |rows| ==> rows[i].ts <= rows[j].ts
  }

  ghost predicate RestSorted(m: Merge) {
    forall v :: v in m.rest ==> RowsSorted(m.rest[v])
  }

  /** This waiting head is no later than anything its venue's stream still holds. */
  ghost predicate Leads(e: Entry<Head>, m: Merge, venue: string) {
    e.item.venue == venue && forall r :: r in RestOf(m, venue) ==> e.ts <= r.ts
  }

  ghost predicate HasLeader(m: Merge, venue: string) {
    exists e :: e in m.queue && Leads(e, m, venue)
  }

  /** Streams with rows left have a leader waiting, except perhaps one. */
  ghost predicate AllLed(m: Merge, except: string) {
    forall v :: v != except && RestOf(m, v) != [] ==> HasLeader(m, v)
  }

  ghost predicate OutSorted(m: Merge) {
    forall i, j :: 0 <= i < j < |m.out| ==> m.out[i].row.ts <= m.out[j].row.ts
  }

  /** Nothing waiting comes before the last row yielded. */
  ghost predicate NoneLate(m: Merge) {
    m.out != [] ==> forall e :: e in m.queue ==> m.out[|m.out| - 1].row.ts <= e.ts
  }

  ghost predicate QueueOk(m: Merge) {
    InOrder(m.queue) && Older(m.queue, m.order) && forall e :: e in m.queue ==> e.ts == e.item.row.ts
  }

  /** The stream so far is in time order, and so is what is to come. */
  ghost predicate Timely(m: Merge) {
    QueueOk(m) && RestSorted(m) && OutSorted(m) && NoneLate(m) && forall v :: RestOf(m, v) != [] ==> HasLeader(m, v)
  }

  lemma LeaderStays(m: Merge, k: Merge, venue: string)
    requires HasLeader(m, venue) && RestOf(k, venue) == RestOf(m, venue)
    requires forall e :: e in m.queue && e.item.venue == venue ==> e in k.queue
    ensures HasLeader(k, venue)
  {
    var e :| e in m.queue && Leads(e, m, venue);
    assert Leads(e, k, venue);
  }

  lemma OfferLed(m: Merge, venue: string, v: string)
    requires RestSorted(m) && AllLed(m, venue) && RestOf(Offer(m, venue), v) != []
    ensures HasLeader(Offer(m, venue), v)
  {
    var k := Offer(m, venue);
    if RestOf(m, venue) != [] {
      var rows := m.rest[venue];
      var e := Entry(rows[0].ts, m.order, Head(venue, rows[0]));
      PushMembers(m.queue, e);
      if v == venue {
        assert Leads(e, k, v) && e in k.queue;
      } else {
        LeaderStays(m, k, v);
      }
    }
  }

  lemma OfferQueue(m: Merge, venue: string)
    requires QueueOk(m) && RestSorted(m) && NoneLate(m)
    requires m.out != [] && RestOf(m, venue) != [] ==> m.out[|m.out| - 1].row.ts <= RestOf(m, venue)[0].ts
    ensures var k := Offer(m, venue); QueueOk(k) && RestSorted(k) && NoneLate(k)
  {
    if RestOf(m, venue) != [] {
      var rows := m.rest[venue];
      var e := Entry(rows[0].ts, m.order, Head(venue, rows[0]));
      PushInOrder(m.queue, e);
      PushMembers(m.queue, e);
    }
  }

  lemma OfferTimely(m: Merge, venue: string)
    requires QueueOk(m) && RestSorted(m) && OutSorted(m) && NoneLate(m) && AllLed(m, venue)
    requires m.out != [] && RestOf(m, venue) != [] ==> m.out[|m.out| - 1].row.ts <= RestOf(m, venue)[0].ts
    ensures Timely(Offer(m, venue))
  {
    OfferQueue(m, venue);
    forall v | RestOf(Offer(m, venue), v) != [] ensures HasLeader(Offer(m, venue), v) {
      OfferLed(m, venue, v);
    }
  }

  function Popped(m: Merge): Merge
    requires m.queue != []
  {
    m.(queue := m.queue[1..], out := m.out + [m.queue[0].item])
  }

  lemma PoppedQueue(m: Merge)
    requires Timely(m) && m.queue != []
    ensures var k := Popped(m); QueueOk(k) && RestSorted(k) && OutSorted(k) && NoneLate(k)
  {
    assert m.queue[0] in m.queue;
    assert forall e :: e in m.queue[1..] ==> e in m.queue && m.queue[0].ts <= e.ts;
  }

  lemma PoppedLed(m: Merge)
    requires Timely(m) && m.queue != []
    ensures AllLed(Popped(m), m.queue[0].item.venue)
  {
    var head := m.queue[0];
    forall v | v != head.item.venue && RestOf(m, v) != [] ensures HasLeader(Popped(m), v) {
      assert m.queue == [head] + m.queue[1..];
      LeaderStays(m, Popped(m), v);
    }
  }

  /** The row that follows a popped head is no earlier than it: the head precedes its venue's leader. */
  lemma NextInTime(m: Merge, venue: string)
    requires Timely(m) && m.queue != [] && RestOf(m, venue) != []
    ensures m.queue[0].item.row.ts <= RestOf(m, venue)[0].ts
  {
    assert m.queue[0] in m.queue;
    var e :| e in m.queue && Leads(e, m, venue);
    var j :| 0 <= j < |m.queue| && m.queue[j] == e;
    assert j == 0 || Precedes(m.queue[0], m.queue[j]);
    assert RestOf(m, venue)[0] in RestOf(m, venue);
  }

  lemma TurnTimely(m: Merge)
    requires Timely(m)
    ensures Timely(Turn(m))
  {
    if m.queue != [] {
      var venue := m.queue[0].item.venue;
      PoppedQueue(m);
      PoppedLed(m);
      if RestOf(m, venue) != [] {
        NextInTime(m, venue);
      }
      OfferTimely(Popped(m), venue);
    }
  }

  lemma OpenTimely(m: Merge, f: File)
    requires Timely(m) && m.out == [] && RowsSorted(f.rows)
    ensures Timely(Open(m, f))
  {
    var k := m.(rest := m.rest[f.venue := f.rows]);
    forall v | v != f.venue && RestOf(k, v) != [] ensures HasLeader(k, v) {
      LeaderStays(m, k, v);
    }
    OfferTimely(k, f.venue);
  }

  lemma OneMoreFile(files: seq<File>, n: nat)
    requires n < |files| && RowsSorted(files[n].rows) && Timely(Opened(files, n))
    ensures Timely(Opened(files, n + 1))
  {
    OpenedYieldsNothing(files, n);
    OpenTimely(Opened(files, n), files[n]);
  }

  lemma {:induction false} OpenedTimely(files: seq<File>, n: nat)
    requires n <= |files| && forall i :: 0 <= i < n ==> RowsSorted(files[i].rows)
    ensures Timely(Opened(files, n))
  {
    if n != 0 {
      OpenedTimely(files, n - 1);
      OneMoreFile(files, n - 1);
    }
  }

  lemma {:induction false} TurnsTimely(files: seq<File>, n: nat)
    requires Timely(Opened(files, |files|))
    ensures Timely(Turns(files, n))
  {
    if n != 0 {
      TurnsTimely(files, n - 1);
      TurnTimely(Turns(files, n - 1));
    }
  }

  /** When every file is in time order, so is the merged stream, repeated venues included. */
  lemma MergeIsSorted(files: seq<File>, n: nat)
    requires forall i :: 0 <= i < |files| ==> RowsSorted(files[i].rows)
    ensures OutSorted(Turns(files, n))
  {
    OpenedTimely(files, |files|);
    TurnsTimely(files, n);
  }
}
