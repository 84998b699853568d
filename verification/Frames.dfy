/**
 The WebSocket frame codec of the test server: framing and the three length forms (section 5.2
 of RFC 6455), masking (section 5.3) and fragmentation (section 5.4).
 */
module Frames {
  import opened Options

  type Byte = b: nat | b < 256
  type Bytes = seq<Byte>

  // ---- numbers ----

  function Pow(base: nat, k: nat): nat {
    if k == 0 then 1 else base * Pow(base, k - 1)
  }

  /** Big-endian bytes of `n`, `k` of them. */
  function ToBig(n: nat, k: nat): (bs: Bytes)
    ensures |bs| == k
  {
    if k == 0 then [] else ToBig(n / 256, k - 1) + [n % 256]
  }

  function FromBig(bs: Bytes): nat {
    if bs == [] then 0 else FromBig(bs[..|bs| - 1]) * 256 + bs[|bs| - 1]
  }

  lemma {:induction false} BigRoundTrip(n: nat, k: nat)
    requires n < Pow(256, k)
    ensures FromBig(ToBig(n, k)) == n
  {
    if k != 0 {
      var bs := ToBig(n, k);
      assert bs[..k - 1] == ToBig(n / 256, k - 1);
      assert n / 256 < Pow(256, k - 1);
      BigRoundTrip(n / 256, k - 1);
    }
  }

  /** Exclusive or of the lowest `k` bits. */
  function XorBits(a: nat, b: nat, k: nat): (x: nat)
    ensures x < Pow(2, k)
  {
    if k == 0 then 0 else (if a % 2 != b % 2 then 1 else 0) + 2 * XorBits(a / 2, b / 2, k - 1)
  }

  lemma {:induction false} XorTwice(a: nat, b: nat, k: nat)
    requires a < Pow(2, k)
    ensures XorBits(XorBits(a, b, k), b, k) == a
  {
    if k != 0 {
      var x := XorBits(a, b, k);
      assert x / 2 == XorBits(a / 2, b / 2, k - 1);
      XorTwice(a / 2, b / 2, k - 1);
    }
  }

  lemma EightBits()
    ensures Pow(2, 8) == 256
  {
    assert Pow(2, 2) == 4;
    assert Pow(2, 4) == 16;
    assert Pow(2, 6) == 64;
  }

  function Xor(a: Byte, b: Byte): Byte {
    EightBits();
    XorBits(a, b, 8)
  }

  lemma XorUndoes(a: Byte, b: Byte)
    ensures Xor(Xor(a, b), b) == a
  {
    EightBits();
    XorTwice(a, b, 8);
  }

  // ---- bits and bytes by position ----

  /** Bit `j` of a number, counting from the lowest. */
  function Bit(x: nat, j: nat): nat {
    if j == 0 then x % 2 else Bit(x / 2, j - 1)
  }

  /** Byte `j` of a number, counting from the least significant. */
  function ByteOf(n: nat, j: nat): nat {
    if j == 0 then n % 256 else ByteOf(n / 256, j - 1)
  }

  lemma {:induction false} XorBit(a: nat, b: nat, k: nat, j: nat)
    requires j < k
    ensures Bit(XorBits(a, b, k), j) == (Bit(a, j) + Bit(b, j)) % 2
  {
    var x := XorBits(a, b, k);
    assert x / 2 == XorBits(a / 2, b / 2, k - 1);
    if j > 0 {
      XorBit(a / 2, b / 2, k - 1, j - 1);
    }
  }

  /** Length bytes, most significant first. */
  lemma {:induction false} ToBigAt(n: nat, k: nat, i: nat)
    requires i < k
    ensures ToBig(n, k)[i] == ByteOf(n, k - 1 - i)
  {
    if i < k - 1 {
      ToBigAt(n / 256, k - 1, i);
    }
  }

  lemma {:induction false} FromBigAt(bs: Bytes, i: nat)
    requires i < |bs|
    ensures bs[i] == ByteOf(FromBig(bs), |bs| - 1 - i)
  {
    var n := |bs| - 1;
    assert FromBig(bs) / 256 == FromBig(bs[..n]) && FromBig(bs) % 256 == bs[n];
    if i < n {
      FromBigAt(bs[..n], i);
    }
  }

  // ---- frames ----

  datatype Frame = Frame(fin: bool, opcode: nat, payload: Bytes)

  /** A masking key, when the sender masks. */
  type Mask = m: Option<Bytes> | m.Some? ==> |m.value| == 4 witness None

  function Masked(m: Mask, payload: Bytes): (r: Bytes)
    ensures |r| == |payload|
  {
    if m.None? then payload else seq(|payload|, i requires 0 <= i < |payload| => Xor(payload[i], m.value[i % 4]))
  }

  /** Length field: 7 bits, or 126 and two bytes, or 127 and eight bytes. */
  function LengthCode(n: nat): nat {
    if n < 126 then n else if n < 65536 then 126 else 127
  }

  function LengthExtra(n: nat): Bytes {
    if n < 126 then [] else if n < 65536 then ToBig(n, 2) else ToBig(n, 8)
  }

  /** What a sender puts on the wire. The server's own frames are final and unmasked. */
  function Encode(f: Frame, m: Mask): Bytes {
    [(if f.fin then 128 else 0) + f.opcode % 16, (if m.Some? then 128 else 0) + LengthCode(|f.payload|)]
    + LengthExtra(|f.payload|) + (if m.Some? then m.value else []) + Masked(m, f.payload)
  }

  datatype Read<T> = Closed | Got(value: T, rest: Bytes)

  function TakeBytes(s: Bytes, n: nat): Read<Bytes> {
    if |s| < n then Closed else Got(s[..n], s[n..])
  }

  function ExtraSize(code: nat): nat {
    if code == 126 then 2 else if code == 127 then 8 else 0
  }

  /** The payload after the header, unmasked when a key came with it. */
  function DecodeBody(fin: bool, opcode: nat, masked: bool, length: nat, s: Bytes): Read<Frame> {
    var key := TakeBytes(s, if masked then 4 else 0);
    if key.Closed? then Closed
    else
      var body := TakeBytes(key.rest, length);
      if body.Closed? then Closed
      else Got(Frame(fin, opcode, Masked(if masked then Some(key.value) else None, body.value)), body.rest)
  }

  /** What follows the two header bytes: the longer length forms, then the body. */
  function DecodeRest(b0: Byte, b1: Byte, s: Bytes): Read<Frame> {
    var extra := TakeBytes(s, ExtraSize(b1 % 128));
    if extra.Closed? then Closed
    else
      var length := if ExtraSize(b1 % 128) == 0 then b1 % 128 else FromBig(extra.value);
      DecodeBody(b0 >= 128, b0 % 16, b1 >= 128, length, extra.rest)
  }

  function DecodeFrame(s: Bytes): Read<Frame> {
    if |s| < 2 then Closed else DecodeRest(s[0], s[1], s[2..])
  }

  lemma UnmaskMasked(m: Mask, payload: Bytes)
    ensures Masked(m, Masked(m, payload)) == payload
  {
    if m.Some? {
      var once := Masked(m, payload);
      forall i | 0 <= i < |payload| ensures Masked(m, once)[i] == payload[i] {
        XorUndoes(payload[i], m.value[i % 4]);
      }
    }
  }

  /** Masking is the bitwise exclusive or with byte `i % 4` of the key. */
  lemma MaskedAt(m: Mask, payload: Bytes, i: nat, j: nat)
    requires m.Some? && i < |payload| && j < 8
    ensures Bit(Masked(m, payload)[i], j) == (Bit(payload[i], j) + Bit(m.value[i % 4], j)) % 2
  {
    XorBit(payload[i], m.value[i % 4], 8, j);
  }

  /** Payload sizes the eight-byte form can say. */
  ghost predicate Sendable(f: Frame) {
    f.opcode < 16 && |f.payload| < Pow(256, 8)
  }

  lemma LengthRoundTrip(n: nat)
    requires n < Pow(256, 8)
    ensures ExtraSize(LengthCode(n)) == |LengthExtra(n)|
    ensures n == if ExtraSize(LengthCode(n)) == 0 then LengthCode(n) else FromBig(LengthExtra(n))
  {
    assert Pow(256, 1) == 256 && Pow(256, 2) == 65536;
    if 126 <= n < 65536 {
      BigRoundTrip(n, 2);
    } else if n >= 65536 {
      BigRoundTrip(n, 8);
    }
  }

  lemma TakePrefix(a: Bytes, b: Bytes)
    ensures TakeBytes(a + b, |a|) == Got(a, b)
  {
  }

  lemma BodyRoundTrip(f: Frame, m: Mask, rest: Bytes)
    ensures DecodeBody(f.fin, f.opcode, m.Some?, |f.payload|, (if m.Some? then m.value else []) + Masked(m, f.payload) + rest)
         == Got(f, rest)
  {
    var key := if m.Some? then m.value else [];
    var s := key + Masked(m, f.payload) + rest;
    assert s == key + (Masked(m, f.payload) + rest);
    TakePrefix(key, Masked(m, f.payload) + rest);
    TakePrefix(Masked(m, f.payload), rest);
    UnmaskMasked(m, f.payload);
  }

  lemma HeaderDecodes(b0: Byte, b1: Byte, extra: Bytes, tail: Bytes)
    requires |extra| == ExtraSize(b1 % 128)
    ensures DecodeFrame([b0, b1] + extra + tail) ==
            DecodeBody(b0 >= 128, b0 % 16, b1 >= 128, if |extra| == 0 then b1 % 128 else FromBig(extra), tail)
  {
    var s := [b0, b1] + extra + tail;
    assert s[2..] == extra + tail;
    TakePrefix(extra, tail);
  }

  lemma FlagBits(flag: bool, low: nat)
    requires low < 128
    ensures var b := (if flag then 128 else 0) + low; b < 256 && (b >= 128 <==> flag) && b % 128 == low && b % 16 == low % 16
  {
  }

  /** A frame spelled out: two header bytes, length bytes, then key, masked payload and what follows. */
  function Spelled(f: Frame, m: Mask, rest: Bytes): Bytes {
    [(if f.fin then 128 else 0) + f.opcode % 16, (if m.Some? then 128 else 0) + LengthCode(|f.payload|)]
    + LengthExtra(|f.payload|) + ((if m.Some? then m.value else []) + Masked(m, f.payload) + rest)
  }

  lemma EncodeShape(f: Frame, m: Mask, rest: Bytes)
    ensures Encode(f, m) + rest == Spelled(f, m, rest)
  {
  }

  lemma HeaderRoundTrip(fin: bool, opcode: nat, masked: bool, n: nat, tail: Bytes)
    requires opcode < 16 && n < Pow(256, 8)
    ensures DecodeFrame([(if fin then 128 else 0) + opcode % 16, (if masked then 128 else 0) + LengthCode(n)]
                        + LengthExtra(n) + tail)
         == DecodeBody(fin, opcode, masked, n, tail)
  {
    FlagBits(fin, opcode);
    FlagBits(masked, LengthCode(n));
    var b0: Byte, b1: Byte := (if fin then 128 else 0) + opcode % 16, (if masked then 128 else 0) + LengthCode(n);
    LengthRoundTrip(n);
    HeaderDecodes(b0, b1, LengthExtra(n), tail);
  }

  lemma SpelledRoundTrip(f: Frame, m: Mask, rest: Bytes)
    requires Sendable(f)
    ensures DecodeFrame(Spelled(f, m, rest)) == Got(f, rest)
  {
    HeaderRoundTrip(f.fin, f.opcode, m.Some?, |f.payload|, (if m.Some? then m.value else []) + Masked(m, f.payload) + rest);
    BodyRoundTrip(f, m, rest);
  }

  /** Decoding what was encoded returns the frame and leaves the rest, in every length form and under any key. */
  lemma FrameRoundTrip(f: Frame, m: Mask, rest: Bytes)
    requires Sendable(f)
    ensures DecodeFrame(Encode(f, m) + rest) == Got(f, rest)
  {
    EncodeShape(f, m, rest);
    SpelledRoundTrip(f, m, rest);
  }

  /** More bytes behind a complete frame change nothing about it. */
  lemma TakeExtends(s: Bytes, t: Bytes, n: nat)
    requires TakeBytes(s, n).Got?
    ensures TakeBytes(s + t, n) == Got(TakeBytes(s, n).value, TakeBytes(s, n).rest + t)
  {
    assert (s + t)[..n] == s[..n] && (s + t)[n..] == s[n..] + t;
  }

  lemma BodyExtends(fin: bool, opcode: nat, masked: bool, length: nat, s: Bytes, t: Bytes)
    requires DecodeBody(fin, opcode, masked, length, s).Got?
    ensures var d := DecodeBody(fin, opcode, masked, length, s);
            DecodeBody(fin, opcode, masked, length, s + t) == Got(d.value, d.rest + t)
  {
    var n := if masked then 4 else 0;
    TakeExtends(s, t, n);
    TakeExtends(TakeBytes(s, n).rest, t, length);
  }

  lemma DecodeExtends(s: Bytes, t: Bytes)
    requires DecodeFrame(s).Got?
    ensures DecodeFrame(s + t) == Got(DecodeFrame(s).value, DecodeFrame(s).rest + t)
  {
    assert (s + t)[2..] == s[2..] + t;
    var size := ExtraSize(s[1] % 128);
    TakeExtends(s[2..], t, size);
    var extra := TakeBytes(s[2..], size);
    BodyExtends(s[0] >= 128, s[0] % 16, s[1] >= 128, if size == 0 then s[1] % 128 else FromBig(extra.value), extra.rest, t);
  }

  /** A connection that ends anywhere inside a frame yields no frame. */
  lemma CutFrameIsNone(f: Frame, m: Mask, k: nat)
    requires Sendable(f) && k < |Encode(f, m)|
    ensures DecodeFrame(Encode(f, m)[..k]).Closed?
  {
    var whole := Encode(f, m);
    FrameRoundTrip(f, m, []);
    assert whole + [] == whole == whole[..k] + whole[k..];
    if DecodeFrame(whole[..k]).Got? {
      DecodeExtends(whole[..k], whole[k..]);
    }
  }

  // ---- messages ----

  datatype Outcome = Message(opcode: nat, payload: Bytes) | SocketClosed | PeerClosed | StrayContinuation | BadOpcode(opcode: nat)

  /** What reading one message does: its outcome, what is left on the socket, the frames sent meanwhile. */
  datatype Received = Received(outcome: Outcome, rest: Bytes, sent: seq<Frame>)

  lemma DecodeConsumes(s: Bytes)
    ensures DecodeFrame(s).Got? ==> |DecodeFrame(s).rest| < |s|
  {
  }

  function ReadFragments(s: Bytes, opcode: nat, parts: Bytes, sent: seq<Frame>): Received
    decreases |s|
  {
    DecodeConsumes(s);
    match DecodeFrame(s)
    case Closed => Received(SocketClosed, [], sent)
    case Got(f, rest) =>
      if f.opcode == 9 then ReadFragments(rest, opcode, parts, sent + [Frame(true, 10, f.payload)])
      else if f.opcode == 10 then ReadFragments(rest, opcode, parts, sent)
      else if f.opcode == 8 then Received(PeerClosed, rest, sent + [Frame(true, 8, [])])
      else if f.opcode != 0 then Received(BadOpcode(f.opcode), rest, sent)
      else if f.fin then Received(Message(opcode, parts + f.payload), rest, sent)
      else ReadFragments(rest, opcode, parts + f.payload, sent)
  }

  function ReadMessage(s: Bytes): Received {
    match DecodeFrame(s)
    case Closed => Received(SocketClosed, [], [])
    case Got(f, rest) =>
      if f.opcode == 8 || f.opcode == 9 || f.opcode == 10 then Received(Message(f.opcode, f.payload), rest, [])
      else if f.opcode == 0 then Received(StrayContinuation, rest, [])
      else if f.fin then Received(Message(f.opcode, f.payload), rest, [])
      else ReadFragments(rest, f.opcode, f.payload, [])
  }

  /** What may stand between the first and the last fragment. */
  datatype Kind = Continuation | Ping | Pong
  datatype Item = Item(kind: Kind, payload: Bytes, mask: Mask)

  function ItemFrame(i: Item): Frame {
    match i.kind
    case Continuation => Frame(false, 0, i.payload)
    case Ping => Frame(true, 9, i.payload)
    case Pong => Frame(true, 10, i.payload)
  }

  function Wire(items: seq<Item>): Bytes {
    if items == [] then [] else Encode(ItemFrame(items[0]), items[0].mask) + Wire(items[1..])
  }

  /** The continuation payloads, joined. */
  function Joined(items: seq<Item>): Bytes {
    if items == [] then [] else (if items[0].kind.Continuation? then items[0].payload else []) + Joined(items[1..])
  }

  /** The pongs due for the pings, in order, each with the ping's payload. */
  function Pongs(items: seq<Item>): seq<Frame> {
    if items == [] then [] else (if items[0].kind.Ping? then [Frame(true, 10, items[0].payload)] else []) + Pongs(items[1..])
  }

  /** Reading one item between the fragments. */
  lemma ItemRead(i: Item, tail: Bytes, opcode: nat, parts: Bytes, sent: seq<Frame>)
    requires Sendable(ItemFrame(i))
    ensures ReadFragments(Encode(ItemFrame(i), i.mask) + tail, opcode, parts, sent) ==
            ReadFragments(tail, opcode, if i.kind.Continuation? then parts + i.payload else parts,
                          if i.kind.Ping? then sent + [Frame(true, 10, i.payload)] else sent)
  {
    FrameRoundTrip(ItemFrame(i), i.mask, tail);
  }

  lemma Assoc<T>(a: seq<T>, b: seq<T>, c: seq<T>, d: seq<T>)
    ensures (a + b) + c + d == a + (b + c + d)
    ensures (a + b) + c == a + (b + c)
  {
  }

  /** Items between the fragments are taken in, whatever follows them. */
  lemma {:induction false} ItemsRead(items: seq<Item>, tail: Bytes, opcode: nat, parts: Bytes, sent: seq<Frame>)
    requires forall i :: i in items ==> Sendable(ItemFrame(i))
    ensures ReadFragments(Wire(items) + tail, opcode, parts, sent)
         == ReadFragments(tail, opcode, parts + Joined(items), sent + Pongs(items))
    decreases |items|
  {
    if items == [] {
      assert Wire(items) + tail == tail;
      assert parts + [] == parts && sent + [] == sent;
    } else {
      var i, w := items[0], Wire(items[1..]);
      Assoc(Encode(ItemFrame(i), i.mask), w, tail, []);
      ItemRead(i, w + tail, opcode, parts, sent);
      var own := if i.kind.Continuation? then i.payload else [];
      var pong := if i.kind.Ping? then [Frame(true, 10, i.payload)] else [];
      assert parts + [] == parts && sent + [] == sent;
      ItemsRead(items[1..], tail, opcode, parts + own, sent + pong);
      Assoc(parts, own, Joined(items[1..]), []);
      Assoc(sent, pong, Pongs(items[1..]), []);
    }
  }

  /** How a fragmented message ends with a frame that is no ping, pong or further fragment. */
  function Ending(last: Frame, opcode: nat, parts: Bytes, rest: Bytes, sent: seq<Frame>): Received {
    if last.opcode == 0 then Received(Message(opcode, parts + last.payload), rest, sent)
    else if last.opcode == 8 then Received(PeerClosed, rest, sent + [Frame(true, 8, [])])
    else Received(BadOpcode(last.opcode), rest, sent)
  }

  ghost predicate Ends(last: Frame) {
    Sendable(last) && last.opcode != 9 && last.opcode != 10 && (last.opcode == 0 ==> last.fin)
  }

  lemma LastRead(last: Frame, mask: Mask, rest: Bytes, opcode: nat, parts: Bytes, sent: seq<Frame>)
    requires Ends(last)
    ensures ReadFragments(Encode(last, mask) + rest, opcode, parts, sent) == Ending(last, opcode, parts, rest, sent)
  {
    FrameRoundTrip(last, mask, rest);
  }

  /** A whole message in one frame, a lone control frame, or a continuation of nothing. */
  lemma SingleFrame(fin: bool, opcode: nat, payload: Bytes, mask: Mask, rest: Bytes)
    requires Sendable(Frame(fin, opcode, payload)) && (fin || opcode == 0 || opcode == 8 || opcode == 9 || opcode == 10)
    ensures ReadMessage(Encode(Frame(fin, opcode, payload), mask) + rest)
         == Received(if opcode == 0 then StrayContinuation else Message(opcode, payload), rest, [])
  {
    FrameRoundTrip(Frame(fin, opcode, payload), mask, rest);
  }

  /**
   A message that starts with an unfinished frame, however many pings, pongs and fragments later:
   its last fragment completes it, a close frame is answered and ends it, any other frame is an error.
   */
  lemma FragmentedRead(opcode: nat, first: Bytes, mask: Mask, items: seq<Item>, last: Frame, lastMask: Mask, rest: Bytes)
    requires opcode < 16 && opcode != 0 && opcode != 8 && opcode != 9 && opcode != 10
    requires Sendable(Frame(false, opcode, first)) && Ends(last)
    requires forall i :: i in items ==> Sendable(ItemFrame(i))
    ensures ReadMessage(Encode(Frame(false, opcode, first), mask) + (Wire(items) + (Encode(last, lastMask) + rest)))
         == Ending(last, opcode, first + Joined(items), rest, Pongs(items))
  {
    var tail := Encode(last, lastMask) + rest;
    FrameRoundTrip(Frame(false, opcode, first), mask, Wire(items) + tail);
    ItemsRead(items, tail, opcode, first, []);
    assert [] + Pongs(items) == Pongs(items);
    LastRead(last, lastMask, rest, opcode, first + Joined(items), Pongs(items));
  }

  /**
   Any fragmentation of a message, with pings and pongs anywhere after its first fragment and
   each frame under its own key or none, reads back as the message, leaves the rest of the
   stream, and answers each ping in order with its payload.
   */
  lemma MessageRoundTrip(opcode: nat, first: Bytes, mask: Mask, items: seq<Item>, last: Bytes, lastMask: Mask, rest: Bytes)
    requires opcode < 16 && opcode != 0 && opcode != 8 && opcode != 9 && opcode != 10
    requires Sendable(Frame(false, opcode, first)) && Sendable(Frame(true, 0, last))
    requires forall i :: i in items ==> Sendable(ItemFrame(i))
    ensures ReadMessage(Encode(Frame(false, opcode, first), mask) + Wire(items) + Encode(Frame(true, 0, last), lastMask) + rest)
         == Received(Message(opcode, first + Joined(items) + last), rest, Pongs(items))
  {
    var head, body, end := Encode(Frame(false, opcode, first), mask), Wire(items), Encode(Frame(true, 0, last), lastMask);
    assert head + body + end + rest == head + (body + (end + rest));
    FragmentedRead(opcode, first, mask, items, Frame(true, 0, last), lastMask, rest);
  }

  // ---- the socket code ----

  /** The bytes of a run of server frames. */
  function SentBytes(fs: seq<Frame>): Bytes {
    if fs == [] then [] else SentBytes(fs[..|fs| - 1]) + Encode(fs[|fs| - 1], None)
  }

  /** A TCP socket: bytes still to arrive, bytes sent. A receive returns any non-empty part of what was asked for. */
  class Socket {
    var inbox: Bytes
    var outbox: Bytes
    ghost var sent: seq<Frame>

    /** The bytes on the wire are the encodings of the frames sent. */
    ghost predicate Valid()
      reads this
    {
      outbox == SentBytes(sent)
    }

    constructor (inbox: Bytes)
      ensures Valid() && this.inbox == inbox && sent == []
    {
      this.inbox, outbox, sent := inbox, [], [];
    }

    method Recv(n: nat) returns (chunk: Bytes)
      modifies this`inbox
      ensures chunk <= old(inbox) && inbox == old(inbox)[|chunk|..] && |chunk| <= n
      ensures chunk == [] <==> n == 0 || old(inbox) == []
    {
      if n == 0 || inbox == [] {
        return [];
      }
      var k :| 1 <= k <= n && k <= |inbox|;
      chunk := inbox[..k];
      inbox := inbox[k..];
    }

    method SendFrame(opcode: nat, payload: Bytes)
      requires Valid()
      modifies this`outbox, this`sent
      ensures Valid() && sent == old(sent) + [Frame(true, opcode, payload)]
    {
      var first: Byte := 128 + opcode % 16;
      var header: Bytes;
      var n := |payload|;
      if n < 126 {
        header := [first, n];
      } else if n < 65536 {
        header := [first, 126] + ToBig(n, 2);
      } else {
        header := [first, 127] + ToBig(n, 8);
      }
      assert Encode(Frame(true, opcode, payload), None) == header + payload;
      outbox := outbox + (header + payload);
      sent := sent + [Frame(true, opcode, payload)];
      assert sent[..|sent| - 1] == old(sent);
    }

    /** However the bytes are chunked, the result is the next `n` bytes, or the connection ended first. */
    method RecvExact(n: nat) returns (r: Option<Bytes>)
      modifies this`inbox
      ensures var t := TakeBytes(old(inbox), n);
              if t.Closed? then r == None && inbox == [] else r == Some(t.value) && inbox == t.rest
    {
      var buf: Bytes := [];
      while |buf| < n
        invariant |buf| <= n && buf + inbox == old(inbox)
        decreases n - |buf|
      {
        var before := inbox;
        var chunk := Recv(n - |buf|);
        if chunk == [] {
          return None;
        }
        assert before == chunk + inbox;
        buf := buf + chunk;
      }
      assert old(inbox)[..n] == buf && old(inbox)[n..] == inbox;
      return Some(buf);
    }

    method RecvFrame() returns (r: Option<Frame>)
      modifies this`inbox
      ensures var d := DecodeFrame(old(inbox));
              if d.Closed? then r == None && inbox == [] else r == Some(d.value) && inbox == d.rest
    {
      var hdr := RecvExact(2);
      if hdr.None? {
        return None;
      }
      var b0, b1 := hdr.value[0], hdr.value[1];
      var length: nat := b1 % 128;
      if length == 126 || length == 127 {
        var extra := RecvExact(ExtraSize(length));
        if extra.None? {
          return None;
        }
        length := FromBig(extra.value);
      }
      r := RecvBody(b0 >= 128, b0 % 16, b1 >= 128, length);
    }

    method RecvBody(fin: bool, opcode: nat, masked: bool, length: nat) returns (r: Option<Frame>)
      modifies this`inbox
      ensures var d := DecodeBody(fin, opcode, masked, length, old(inbox));
              if d.Closed? then r == None && inbox == [] else r == Some(d.value) && inbox == d.rest
    {
      var key: Bytes := [];
      if masked {
        var k := RecvExact(4);
        if k.None? {
          return None;
        }
        key := k.value;
      }
      var payload := RecvExact(length);
      if payload.None? {
        return None;
      }
      r := Some(Frame(fin, opcode, Masked(if masked then Some(key) else None, payload.value)));
    }

    /** The loop over the fragments after the first. */
    method RecvFragments(opcode: nat, first: Bytes) returns (o: Outcome)
      requires Valid()
      modifies this
      ensures var m := ReadFragments(old(inbox), opcode, first, []);
              Valid() && o == m.outcome && inbox == m.rest && sent == old(sent) + m.sent
    {
      var parts := first;
      ghost var replies: seq<Frame> := [];
      ghost var goal := ReadFragments(inbox, opcode, first, []);
      while true
        invariant Valid() && sent == old(sent) + replies
        invariant goal == ReadFragments(inbox, opcode, parts, replies)
        decreases |inbox|
      {
        DecodeConsumes(inbox);
        var next := RecvFrame();
        if next.None? {
          return SocketClosed;
        }
        var g := next.value;
        if g.opcode == 9 {
          SendFrame(10, g.payload);
          Assoc(old(sent), replies, [Frame(true, 10, g.payload)], []);
          replies := replies + [Frame(true, 10, g.payload)];
          continue;
        }
        if g.opcode == 10 {
          continue;
        }
        if g.opcode == 8 {
          SendFrame(8, []);
          Assoc(old(sent), replies, [Frame(true, 8, [])], []);
          return PeerClosed;
        }
        if g.opcode != 0 {
          return BadOpcode(g.opcode);
        }
        parts := parts + g.payload;
        if g.fin {
          return Message(opcode, parts);
        }
      }
    }

    /** The outcome, the bytes left and the frames sent are those of `ReadMessage`. */
    method RecvMessage() returns (o: Outcome)
      requires Valid()
      modifies this
      ensures var m := ReadMessage(old(inbox)); Valid() && o == m.outcome && inbox == m.rest && sent == old(sent) + m.sent
    {
      var first := RecvFrame();
      if first.None? {
        return SocketClosed;
      }
      var f := first.value;
      if f.opcode == 8 || f.opcode == 9 || f.opcode == 10 {
        return Message(f.opcode, f.payload);
      }
      if f.opcode == 0 {
        return StrayContinuation;
      }
      if f.fin {
        return Message(f.opcode, f.payload);
      }
      o := RecvFragments(f.opcode, f.payload);
    }
  }
}
