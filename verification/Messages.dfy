/**
 Requests on the wire: what the client library writes and what a worker makes of the frame.
 */
module Messages {
  import opened Basics
  import opened BigEndian
  import opened Framing

  // Operation codes, in the order of the protocol's enumeration.
  const OP_OPEN: Byte := 2
  const OP_OPEN_CREATE: Byte := 3
  const OP_OPEN_LOCK: Byte := 4
  const OP_OPEN_CREATE_LOCK: Byte := 5
  const OP_READ: Byte := 6
  const OP_READ_MANY: Byte := 7
  const OP_WRITE: Byte := 8
  const OP_APPEND: Byte := 9
  const OP_LOCK: Byte := 10
  const OP_UNLOCK: Byte := 11
  const OP_CLOSE: Byte := 12
  const OP_REMOVE: Byte := 13

  /** Operations whose only argument is a path and for which the worker has a handler. */
  predicate IsPathOp(op: Byte) {
    op in {OP_OPEN, OP_OPEN_CREATE, OP_OPEN_LOCK, OP_OPEN_CREATE_LOCK, OP_READ, OP_LOCK, OP_UNLOCK, OP_CLOSE, OP_REMOVE}
  }

  /** What a worker reads out of a frame. `Nothing` is a bare header, `Fatal` stops the server,
      `Malformed` and `Unrecognized` are logged and dropped, `Overrun` reads past the frame. */
  datatype Request =
    | PathRequest(op: Byte, path: Bytes)
    | WriteRequest(path: Bytes, contents: Bytes)
    | ReadManyRequest(count: U64)
    | Nothing
    | Fatal
    | Overrun
    | Malformed
    | Unrecognized

  /** A byte string used as a C string ends at its first zero byte. */
  function CString(b: Bytes): Bytes {
    if b == [] || b[0] == 0 then [] else [b[0]] + CString(b[1..])
  }

  // ---------------------------------------------------------------------------
  // The client
  // ---------------------------------------------------------------------------

  function Header(payload: nat): Bytes
    requires payload < TWO_64
  {
    BigEndian.Encode(MAGIC) + BigEndian.Encode(payload)
  }

  function PathPayload(op: Byte, path: Bytes): Bytes {
    [op] + path
  }

  function WritePayload(op: Byte, path: Bytes, contents: Bytes): Bytes
    requires |path| < TWO_64 && |contents| < TWO_64
  {
    [op] + BigEndian.Encode(|path|) + BigEndian.Encode(|contents|) + path + contents
  }

  function ReadManyPayload(count: U64): Bytes {
    [OP_READ_MANY] + BigEndian.Encode(count)
  }

  /** A request a client can make: paths are C strings, and the whole frame fits 64-bit lengths. */
  predicate Sendable(r: Request) {
    match r
    case PathRequest(op, path) => IsPathOp(op) && 0 !in path && 17 + |path| < TWO_64
    case WriteRequest(path, contents) => 0 !in path && 33 + |path| + |contents| < TWO_64
    case ReadManyRequest(_) => true
    case _ => false
  }

  function Payload(r: Request): Bytes
    requires Sendable(r)
  {
    match r
    case PathRequest(op, path) => PathPayload(op, path)
    case WriteRequest(path, contents) => WritePayload(OP_WRITE, path, contents)
    case ReadManyRequest(count) => ReadManyPayload(count)
  }

  /** The bytes written for a request: magic code, length of the payload, payload. */
  function EncodeRequest(r: Request): Bytes
    requires Sendable(r)
  {
    Header(|Payload(r)|) + Payload(r)
  }

  // ---------------------------------------------------------------------------
  // The worker
  // ---------------------------------------------------------------------------

  function DecodeWrite(args: Bytes): Request {
    if |args| < 16 then Malformed
    else
      var n1, n2 := BigEndian.Decode(args[..8]), BigEndian.Decode(args[8..16]);
      if |args| != (16 + n1 + n2) % TWO_64 then Malformed
      else if 16 + n1 + n2 != |args| then Overrun
      else WriteRequest(CString(args[16..16 + n1]), args[16 + n1..])
  }

  function DecodeArgs(op: Byte, args: Bytes): Request {
    if IsPathOp(op) then PathRequest(op, CString(args))
    else if op == OP_READ_MANY then
      if |args| != 8 then Malformed else ReadManyRequest(BigEndian.Decode(args))
    else if op == OP_WRITE then DecodeWrite(args)
    else Unrecognized
  }

  /** The worker's reading of a frame. */
  function DecodeFrame(frame: Bytes): Request
    requires |frame| >= HEADER
  {
    if |frame| == HEADER then Nothing
    else if (Prefix(frame) + 8) % TWO_64 != |frame| - 8 then Fatal
    else DecodeArgs(frame[HEADER], frame[HEADER + 1..])
  }

  /** One more byte of a string that does not end there. */
  lemma CStringOn(b: Bytes, at: nat, n: nat, len: nat)
    requires n < len && at + len <= |b| && b[at + n] != 0
    ensures b[at..at + n] + CString(b[at + n..at + len]) == b[at..at + n + 1] + CString(b[at + n + 1..at + len])
  {
    assert b[at + n..at + len][1..] == b[at + n + 1..at + len];
    assert b[at..at + n] + [b[at + n]] == b[at..at + n + 1];
  }

  /** The bytes of a frame up to the first zero, as a string the handlers use. */
  method ReadString(frame: array<Byte>, at: nat, len: nat) returns (path: Bytes)
    requires at + len <= frame.Length
    ensures path == CString(frame[at..at + len])
  {
    var n := 0;
    while n < len && frame[at + n] != 0
      invariant n <= len
      invariant frame[..][at..at + n] + CString(frame[..][at + n..at + len]) == CString(frame[..][at..at + len])
    {
      CStringOn(frame[..], at, n, len);
      n := n + 1;
    }
    path := frame[at..at + n];
    assert frame[..][at..at + n] == path && frame[..][at..at + len] == frame[at..at + len];
  }

  /** The arguments of a write, from `at` on. */
  method ReadWrite(frame: array<Byte>, at: nat, len: nat) returns (r: Request)
    requires at + len == frame.Length
    ensures r == DecodeWrite(frame[at..])
  {
    if len < 16 {
      return Malformed;
    }
    var n1, n2 := BigEndian.Decode(frame[at..at + 8]), BigEndian.Decode(frame[at + 8..at + 16]);
    assert frame[at..][..8] == frame[at..at + 8] && frame[at..][8..16] == frame[at + 8..at + 16];
    if len != (16 + n1 + n2) % TWO_64 {
      return Malformed;
    }
    if 16 + n1 + n2 != len {
      return Overrun;
    }
    assert frame[at..][16..16 + n1] == frame[at + 16..at + 16 + n1];
    assert frame[at..][16 + n1..] == frame[at + 16 + n1..];
    var path := ReadString(frame, at + 16, n1);
    r := WriteRequest(path, frame[at + 16 + n1..]);
  }

  /** The worker's reading of a frame as it goes: a position that moves on and a length that shrinks. */
  method ReadMessage(frame: array<Byte>) returns (r: Request)
    requires frame.Length >= HEADER
    ensures r == DecodeFrame(frame[..])
  {
    var at, len := 0, frame.Length;
    if len == HEADER {
      return Nothing;
    }
    at, len := at + 8, len - 8;
    assert frame[..][8..16] == frame[8..16];
    if (BigEndian.Decode(frame[at..at + 8]) + 8) % TWO_64 != len {
      return Fatal;
    }
    var op := frame[at + 8];
    at, len := at + 9, len - 9;
    assert frame[..][HEADER + 1..] == frame[at..];
    if IsPathOp(op) {
      var path := ReadString(frame, at, len);
      assert frame[at..at + len] == frame[at..];
      r := PathRequest(op, path);
    } else if op == OP_READ_MANY {
      r := if len != 8 then Malformed else ReadManyRequest(BigEndian.Decode(frame[at..]));
    } else if op == OP_WRITE {
      r := ReadWrite(frame, at, len);
    } else {
      r := Unrecognized;
    }
  }

  // ---------------------------------------------------------------------------
  // Round trip
  // ---------------------------------------------------------------------------

  lemma {:induction false} CStringOf(b: Bytes)
    requires 0 !in b
    ensures CString(b) == b
  {
    if b != [] {
      CStringOf(b[1..]);
    }
  }

  lemma {:induction false} HeaderRead(payload: Bytes)
    requires |payload| < TWO_64
    ensures
      var frame := Header(|payload|) + payload;
      && Whole(frame)
      && Prefix(frame) == |payload|
      && Plausible(frame)
      && frame[HEADER..] == payload
  {
    var frame := Header(|payload|) + payload;
    assert frame[8..16] == BigEndian.Encode(|payload|);
    assert frame[..8] == BigEndian.Encode(MAGIC);
    DecodeEncode(|payload|);
    DecodeEncode(MAGIC);
  }

  /** Where the four parts of a write's arguments lie. */
  lemma WriteParts(op: Byte, e1: Bytes, e2: Bytes, path: Bytes, contents: Bytes)
    requires |e1| == |e2| == 8
    ensures
      var args := ([op] + e1 + e2 + path + contents)[1..];
      && |args| == 16 + |path| + |contents|
      && args[..8] == e1 && args[8..16] == e2
      && args[16..16 + |path|] == path && args[16 + |path|..] == contents
  {
    var args := ([op] + e1 + e2 + path + contents)[1..];
    assert args == e1 + e2 + path + contents;
    assert args[..8] == e1;
    assert args[8..16] == e2;
    assert args[16..16 + |path|] == path;
    assert args[16 + |path|..] == contents;
  }

  lemma WriteRead(path: Bytes, contents: Bytes)
    requires 0 !in path && 17 + |path| + |contents| < TWO_64
    ensures DecodeWrite(WritePayload(OP_WRITE, path, contents)[1..]) == WriteRequest(path, contents)
  {
    WriteParts(OP_WRITE, BigEndian.Encode(|path|), BigEndian.Encode(|contents|), path, contents);
    DecodeEncode(|path|);
    DecodeEncode(|contents|);
    CStringOf(path);
  }

  lemma ArgsRead(r: Request)
    requires Sendable(r)
    ensures DecodeArgs(Payload(r)[0], Payload(r)[1..]) == r
  {
    match r
    case PathRequest(op, path) => CStringOf(path);
    case WriteRequest(path, contents) => WriteRead(path, contents);
    case ReadManyRequest(count) =>
      DecodeEncode(count);
      assert Payload(r)[1..] == BigEndian.Encode(count);
  }

  lemma FrameRead(frame: Bytes)
    requires Whole(frame) && HEADER < |frame| < TWO_64
    ensures DecodeFrame(frame) == DecodeArgs(frame[HEADER..][0], frame[HEADER..][1..])
  {
    NeverFatalHeader(frame);
    assert frame[HEADER + 1..] == frame[HEADER..][1..];
  }

  /** What a client writes is one whole frame that passes validation, and the worker reads the request
      back from it. */
  lemma RequestRoundTrip(r: Request)
    requires Sendable(r)
    ensures Whole(EncodeRequest(r)) && Plausible(EncodeRequest(r)) && DecodeFrame(EncodeRequest(r)) == r
  {
    var payload := Payload(r);
    assert 0 < |payload| < TWO_64;
    HeaderRead(payload);
    FrameRead(EncodeRequest(r));
    ArgsRead(r);
  }

  function EncodeAll(rs: seq<Request>): seq<Bytes>
    requires forall r :: r in rs ==> Sendable(r)
  {
    seq(|rs|, i requires 0 <= i < |rs| => EncodeRequest(rs[i]))
  }

  function DecodeAll(frames: seq<Bytes>): seq<Request>
    requires forall f :: f in frames ==> |f| >= HEADER
  {
    seq(|frames|, i requires 0 <= i < |frames| => DecodeFrame(frames[i]))
  }

  lemma AllFramesWhole(rs: seq<Request>)
    requires forall r :: r in rs ==> Sendable(r)
    ensures forall f :: f in EncodeAll(rs) ==> Whole(f)
    ensures DecodeAll(EncodeAll(rs)) == rs
  {
    var frames := EncodeAll(rs);
    forall i | 0 <= i < |rs|
      ensures Whole(frames[i]) && DecodeFrame(frames[i]) == rs[i]
    {
      RequestRoundTrip(rs[i]);
    }
  }

  /** Any number of requests written one after another on a connection, delivered in any reads, comes
      out of the deserializer as that many frames, and the workers read exactly those requests. */
  lemma ConversationRoundTrip(rs: seq<Request>, chunks: seq<Bytes>)
    requires forall r :: r in rs ==> Sendable(r)
    requires LegalReads(chunks) && Flatten(chunks) == Flatten(EncodeAll(rs))
    ensures Deliver(chunks) == Progress(EncodeAll(rs), [])
    ensures (forall f :: f in EncodeAll(rs) ==> |f| >= HEADER) && DecodeAll(EncodeAll(rs)) == rs
  {
    var frames := EncodeAll(rs);
    AllFramesWhole(rs);
    ChunkingIrrelevant(chunks);
    CutFrames(frames, []);
    assert Flatten(frames) + [] == Flatten(frames);
    assert frames + [] == frames;
  }

  /** The worker's fatal length check never fires on a frame the deserializer gave out. */
  lemma NeverFatalHeader(frame: Bytes)
    requires Whole(frame) && |frame| < TWO_64
    ensures (Prefix(frame) + 8) % TWO_64 == |frame| - 8
  {
  }

  /** An append is a whole valid frame like a write, and every worker drops it: there is no case for its
      operation code. */
  lemma AppendIsDropped(path: Bytes, contents: Bytes)
    requires 33 + |path| + |contents| < TWO_64
    ensures
      var payload := WritePayload(OP_APPEND, path, contents);
      var frame := Header(|payload|) + payload;
      Whole(frame) && Plausible(frame) && DecodeFrame(frame) == Unrecognized
  {
    var payload := WritePayload(OP_APPEND, path, contents);
    HeaderRead(payload);
    FrameRead(Header(|payload|) + payload);
  }

  /** Such a frame can be received: a write of 16 argument bytes whose two lengths are 2^64 - 1 and 1 is a
      whole valid frame, and the worker goes on to read past it. */
  lemma WrappedLengths()
    ensures
      var args := BigEndian.Encode(TWO_64 - 1) + BigEndian.Encode(1);
      var frame := Header(17) + ([OP_WRITE] + args);
      Whole(frame) && Plausible(frame) && DecodeFrame(frame) == Overrun
  {
    var e1, e2 := BigEndian.Encode(TWO_64 - 1), BigEndian.Encode(1);
    var payload := [OP_WRITE] + (e1 + e2);
    HeaderRead(payload);
    FrameRead(Header(17) + payload);
    assert payload[1..] == e1 + e2;
    DecodeEncode(TWO_64 - 1);
    DecodeEncode(1);
    WrappedArgs(e1, e2);
  }

  lemma WrappedArgs(e1: Bytes, e2: Bytes)
    requires |e1| == |e2| == 8 && BigEndian.Decode(e1) == TWO_64 - 1 && BigEndian.Decode(e2) == 1
    ensures DecodeWrite(e1 + e2) == Overrun
  {
    Halves(e1, e2);
  }

  /** A C string is everything before the first zero byte. */
  lemma {:induction false} CStringExactly(b: Bytes)
    ensures CString(b) <= b && 0 !in CString(b)
    ensures |CString(b)| < |b| ==> b[|CString(b)|] == 0
  {
    if b != [] && b[0] != 0 {
      CStringExactly(b[1..]);
      assert b == [b[0]] + b[1..];
    }
  }

  /** When the worker does not act on a frame: on bare headers, on lengths that do not add up, on unknown
      operations and on arguments of the wrong length. */
  lemma FramesNotActedOn(frame: Bytes)
    requires HEADER <= |frame| < TWO_64
    ensures DecodeFrame(frame).Nothing? <==> |frame| == HEADER
    ensures DecodeFrame(frame).Fatal? <==> |frame| > HEADER && (Prefix(frame) + HEADER - |frame|) % TWO_64 != 0
    ensures DecodeFrame(frame).Malformed? ==> frame[HEADER] == 7 || frame[HEADER] == 8
    ensures Whole(frame) && |frame| > HEADER && frame[HEADER] == 7 ==>
      (DecodeFrame(frame).Malformed? <==> |frame| != HEADER + 9)
    ensures Whole(frame) && |frame| > HEADER && frame[HEADER] == 8 && |frame| < HEADER + 17 ==>
      DecodeFrame(frame).Malformed?
  {
  }

  /** The worker recognises the operations 2 to 13 of the protocol, from opening to removal, but for 9, the
      append; of these 7 reads many files, 8 writes, and the others take a path. */
  lemma OperationsRecognised(op: Byte, args: Bytes)
    ensures DecodeArgs(op, args).Unrecognized? <==> op < 2 || op == 9 || op > 13
    ensures DecodeArgs(op, args).PathRequest? <==> 2 <= op <= 13 && op !in {7, 8, 9}
    ensures DecodeArgs(op, args).PathRequest? ==> DecodeArgs(op, args).op == op
    ensures DecodeArgs(op, args).ReadManyRequest? ==> op == 7
    ensures DecodeArgs(op, args).WriteRequest? ==> op == 8
  {
  }

  /** The length check of a write accepts arguments that are not there exactly when the two lengths
      wrap around 64 bits. */
  lemma WriteCheckExactly(args: Bytes)
    requires 16 <= |args| < TWO_64
    requires |args| == (16 + BigEndian.Decode(args[..8]) + BigEndian.Decode(args[8..16])) % TWO_64
    ensures DecodeWrite(args).WriteRequest? <==>
      16 + BigEndian.Decode(args[..8]) + BigEndian.Decode(args[8..16]) < TWO_64
  {
  }
}
