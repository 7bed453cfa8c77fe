/**
 The incremental deserializer of requests: a frame is an eight-byte magic code, an eight-byte length and
 that many bytes of payload, and arrives in reads of any size up to what is still missing.
 */
module Framing {
  import opened Basics
  import opened BigEndian

  const HEADER: nat := 16
  const MAGIC: U64 := 0x86b2f464f65e01

  type Bytes = seq<Byte>

  /** The length field of a buffer that holds at least a header. */
  function Prefix(buf: Bytes): U64
    requires |buf| >= HEADER
  {
    Decode(buf[8..16])
  }

  /** What the deserializer asks for next, in 64-bit arithmetic. */
  function Missing(buf: Bytes): U64 {
    if |buf| < HEADER then HEADER - |buf| else (Prefix(buf) + HEADER - |buf|) % TWO_64
  }

  /** The bytes seen so far can be the beginning of a frame. */
  predicate Plausible(buf: Bytes) {
    |buf| < 8 || Decode(buf[..8]) == MAGIC
  }

  /** The size of the buffer handed out as a sink, in 64-bit arithmetic. */
  function SinkSize(buf: Bytes): U64 {
    (|buf| + Missing(buf)) % TWO_64
  }

  /** A buffer that is not yet a whole frame: no header, or less than its header announces. */
  predicate Partial(buf: Bytes) {
    |buf| < HEADER || |buf| < HEADER + Prefix(buf)
  }

  predicate Whole(frame: Bytes) {
    |frame| >= HEADER && |frame| == HEADER + Prefix(frame)
  }

  /** The deserializer after some reads: the frames it has given out and the bytes it holds. */
  datatype Progress = Progress(frames: seq<Bytes>, held: Bytes)

  /** One read and the detach that follows it. */
  function Feed(p: Progress, chunk: Bytes): Progress {
    var buf := p.held + chunk;
    if Missing(buf) > 0 then Progress(p.frames, buf) else Progress(p.frames + [buf], [])
  }

  function Deliver(chunks: seq<Bytes>): Progress {
    if chunks == [] then Progress([], [])
    else Feed(Deliver(chunks[..|chunks| - 1]), chunks[|chunks| - 1])
  }

  /** Each read gave at least one byte and no more than was asked for. */
  predicate LegalReads(chunks: seq<Bytes>) {
    chunks != [] ==>
      var n := |chunks| - 1;
      LegalReads(chunks[..n]) && 0 < |chunks[n]| <= Missing(Deliver(chunks[..n]).held)
  }

  function Flatten(parts: seq<Bytes>): Bytes {
    if parts == [] then [] else Flatten(parts[..|parts| - 1]) + parts[|parts| - 1]
  }

  /** Cutting a whole stream by its length fields: the frames in it and what is left over. */
  function Cut(stream: Bytes): Progress
    decreases |stream|
  {
    if Partial(stream) then Progress([], stream)
    else
      var n := HEADER + Prefix(stream);
      var rest := Cut(stream[n..]);
      Progress([stream[..n]] + rest.frames, rest.held)
  }

  // ---------------------------------------------------------------------------
  // The deserializer cuts the stream
  // ---------------------------------------------------------------------------

  /** While a frame is unfinished the 64-bit subtraction does not wrap: what is asked for is what is
      missing, and it is never zero. */
  lemma MissingExact(buf: Bytes)
    requires Partial(buf)
    ensures Missing(buf) == (if |buf| < HEADER then HEADER else HEADER + Prefix(buf)) - |buf|
    ensures Missing(buf) > 0
  {
  }

  /** A buffer that has just been filled to what was asked for is unfinished or whole. */
  lemma FedBuffer(held: Bytes, chunk: Bytes)
    requires Partial(held) && 0 < |chunk| <= Missing(held)
    ensures Missing(held + chunk) > 0 ==> Partial(held + chunk)
    ensures Missing(held + chunk) == 0 ==> Whole(held + chunk)
  {
    MissingExact(held);
    var buf := held + chunk;
    if |held| >= HEADER {
      assert buf[8..16] == held[8..16];
    }
  }

  lemma {:induction false} CutWhole(frame: Bytes, rest: Bytes)
    requires Whole(frame)
    ensures Cut(frame + rest) == Progress([frame] + Cut(rest).frames, Cut(rest).held)
  {
    var stream := frame + rest;
    assert stream[8..16] == frame[8..16];
    assert stream[..|frame|] == frame && stream[|frame|..] == rest;
  }

  lemma Regroup<T>(a: seq<T>, b: seq<T>, c: seq<T>)
    ensures a + b + c == a + (b + c)
  {
  }

  /** Whole frames in front of anything come out as they are. */
  lemma {:induction false} CutFrames(frames: seq<Bytes>, rest: Bytes)
    requires forall f :: f in frames ==> Whole(f)
    ensures Cut(Flatten(frames) + rest) == Progress(frames + Cut(rest).frames, Cut(rest).held)
  {
    if frames == [] {
      assert Flatten(frames) + rest == rest;
    } else {
      var n := |frames| - 1;
      var front, last := frames[..n], frames[n];
      CutFrames(front, last + rest);
      CutWhole(last, rest);
      Regroup(Flatten(front), last, rest);
      Regroup(front, [last], Cut(rest).frames);
      assert front + [last] == frames;
    }
  }

  /** What every reachable deserializer looks like. */
  ghost predicate InStep(p: Progress, stream: Bytes) {
    && Partial(p.held)
    && (forall f :: f in p.frames ==> Whole(f))
    && Flatten(p.frames) + p.held == stream
  }

  lemma FeedInStep(p: Progress, stream: Bytes, chunk: Bytes)
    requires InStep(p, stream) && 0 < |chunk| <= Missing(p.held)
    ensures InStep(Feed(p, chunk), stream + chunk)
  {
    FedBuffer(p.held, chunk);
    var buf := p.held + chunk;
    assert Flatten(p.frames) + buf == stream + chunk;
    if Missing(buf) == 0 {
      assert (p.frames + [buf])[..|p.frames|] == p.frames;
      assert Flatten(p.frames + [buf]) + [] == Flatten(p.frames) + buf;
    }
  }

  lemma {:induction false} DeliverInStep(chunks: seq<Bytes>)
    requires LegalReads(chunks)
    ensures InStep(Deliver(chunks), Flatten(chunks))
  {
    if chunks != [] {
      var n := |chunks| - 1;
      DeliverInStep(chunks[..n]);
      FeedInStep(Deliver(chunks[..n]), Flatten(chunks[..n]), chunks[n]);
    }
  }

  /** However the stream is split into reads, the frames given out and the bytes held are those of
      cutting the whole stream by its length fields; nothing is lost or made up; and the number of
      missing bytes, which the poll loop asserts to be positive, is positive. */
  lemma ChunkingIrrelevant(chunks: seq<Bytes>)
    requires LegalReads(chunks)
    ensures Deliver(chunks) == Cut(Flatten(chunks))
    ensures Flatten(Deliver(chunks).frames) + Deliver(chunks).held == Flatten(chunks)
    ensures Missing(Deliver(chunks).held) > 0
  {
    DeliverInStep(chunks);
    var p := Deliver(chunks);
    MissingExact(p.held);
    CutFrames(p.frames, p.held);
    assert p.frames + [] == p.frames;
  }

  /** The announced frame size fits 64 bits. */
  predicate SinkFits(buf: Bytes) {
    |buf| < HEADER || Prefix(buf) + HEADER < TWO_64
  }

  /** The sink handed out is as large as promised exactly when the announced frame size fits 64 bits;
      otherwise it is smaller than what is already held. */
  lemma SinkFitsExactly(buf: Bytes)
    requires Partial(buf)
    ensures SinkSize(buf) == |buf| + Missing(buf) <==> SinkFits(buf)
    ensures !SinkFits(buf) ==> SinkSize(buf) < HEADER <= |buf|
  {
    MissingExact(buf);
  }

  /** Such headers can be received: the magic code followed by any length that wraps, such as 2^64 - 1, is
      plausible, arrives in one legal read, and makes the deserializer ask for a sink smaller than the
      sixteen bytes it holds; for 2^64 - 16 of no bytes at all, where reallocation may end the process. */
  lemma OversizedHeader(n: U64)
    requires n + HEADER >= TWO_64
    ensures
      var buf := Encode(MAGIC) + Encode(n);
      && LegalReads([buf]) && Deliver([buf]) == Progress([], buf) && Plausible(buf)
      && Partial(buf) && !SinkFits(buf) && SinkSize(buf) == n + HEADER - TWO_64
  {
    var buf := Encode(MAGIC) + Encode(n);
    HeaderOf(n);
    HeaderInOneRead(buf);
    OversizedSink(buf);
  }

  lemma OversizedSink(buf: Bytes)
    requires |buf| == HEADER && Prefix(buf) + HEADER >= TWO_64
    ensures Partial(buf) && !SinkFits(buf) && SinkSize(buf) == Prefix(buf) + HEADER - TWO_64
  {
    MissingExact(buf);
  }

  lemma HeaderOf(n: U64)
    ensures var buf := Encode(MAGIC) + Encode(n); |buf| == HEADER && Prefix(buf) == n && Plausible(buf)
  {
    var magic, length := Encode(MAGIC), Encode(n);
    Halves(magic, length);
    DecodeEncode(MAGIC);
    DecodeEncode(n);
  }

  lemma Halves<T>(a: seq<T>, b: seq<T>)
    requires |a| == |b| == 8
    ensures (a + b)[..8] == a && (a + b)[8..16] == b
  {
  }

  lemma HeaderInOneRead(buf: Bytes)
    requires |buf| == HEADER && Prefix(buf) > 0
    ensures LegalReads([buf]) && Deliver([buf]) == Progress([], buf)
  {
    var chunks := [buf];
    assert chunks[..0] == [] && [] + buf == buf;
    assert Deliver([]) == Progress([], []) && LegalReads([]);
  }

  /** The eight bytes a frame begins with. */
  lemma MagicBytes(buf: Bytes)
    requires |buf| >= 8
    ensures Plausible(buf) <==> buf[..8] == [0x00, 0x86, 0xb2, 0xf4, 0x64, 0xf6, 0x5e, 0x01]
  {
    var magic: Bytes := [0x00, 0x86, 0xb2, 0xf4, 0x64, 0xf6, 0x5e, 0x01];
    assert Decode(magic) == MAGIC;
    EncodeDecode(magic);
    EncodeDecode(buf[..8]);
  }

  // ---------------------------------------------------------------------------
  // The object
  // ---------------------------------------------------------------------------

  class Deserializer {
    var buffer: array<Byte>
    var size: nat

    ghost predicate Valid()
      reads this
    {
      size <= buffer.Length
    }

    ghost function Held(): Bytes
      requires Valid()
      reads this, buffer
    {
      buffer[..size]
    }

    constructor ()
      ensures Valid() && Held() == [] && fresh(buffer)
    {
      buffer, size := new Byte[0], 0;
    }

    method Validate() returns (ok: bool)
      requires Valid()
      ensures ok == Plausible(Held())
    {
      if size < 8 {
        return true;
      }
      assert buffer[..8] == Held()[..8];
      ok := Decode(buffer[..8]) == MAGIC;
    }

    method MissingBytes() returns (n: U64)
      requires Valid()
      ensures n == Missing(Held())
    {
      if size < HEADER {
        n := HEADER - size;
      } else {
        assert buffer[8..16] == Held()[8..16];
        n := (Decode(buffer[8..16]) + HEADER - size) % TWO_64;
      }
    }

    /** Reallocates the buffer to have room for what is missing. If the size asked for wraps around 64 bits
        the source goes on with a buffer too small for what it holds; the model stops there. */
    method Sink() returns (fits: bool)
      requires Valid() && Partial(Held())
      modifies this
      ensures Valid() && Held() == old(Held()) && size == old(size)
      ensures fits <==> SinkFits(Held())
      ensures fits ==> fresh(buffer) && buffer.Length == size + Missing(Held())
      ensures !fits ==> buffer == old(buffer)
    {
      var missing := MissingBytes();
      SinkFitsExactly(Held());
      fits := (size + missing) % TWO_64 == size + missing;
      if !fits {
        return;
      }
      var larger := new Byte[size + missing](_ => 0);
      for k := 0 to size
        invariant size == old(size) && buffer == old(buffer) && k <= size <= buffer.Length
        invariant buffer[..] == old(buffer[..]) && larger[..k] == buffer[..k]
      {
        larger[k] := buffer[k];
      }
      buffer := larger;
    }

    /** What `read` puts into the sink. */
    method Read(chunk: Bytes)
      requires Valid() && size + |chunk| <= buffer.Length
      modifies buffer
      ensures buffer[..size + |chunk|] == old(Held()) + chunk
    {
      for k := 0 to |chunk|
        invariant buffer[..size] == old(buffer[..size])
        invariant buffer[size..size + k] == chunk[..k]
      {
        buffer[size + k] := chunk[k];
      }
      assert buffer[..size + |chunk|] == buffer[..size] + buffer[size..size + |chunk|];
    }

    /** Counts the new bytes and gives the frame out if it is complete. */
    method Detach(newBytes: nat) returns (frame: Option<Bytes>)
      requires Valid() && size + newBytes <= buffer.Length
      modifies this
      ensures Valid() && (frame.None? ==> buffer == old(buffer)) && (frame.Some? ==> fresh(buffer))
      ensures
        var buf := old(buffer[..size + newBytes]);
        if Missing(buf) > 0 then frame == None && Held() == buf else frame == Some(buf) && Held() == []
    {
      size := size + newBytes;
      var missing := MissingBytes();
      if missing > 0 {
        frame := None;
      } else {
        frame := Some(buffer[..size]);
        buffer, size := new Byte[0], 0;
      }
    }

    /** The poll loop's handling of a readable connection. `overrun` says that the sink is too small. */
    method Take(chunk: Bytes) returns (frame: Option<Bytes>, overrun: bool)
      requires Valid() && Partial(Held()) && 0 < |chunk| <= Missing(Held())
      modifies this, buffer
      ensures Valid() && (overrun <==> !SinkFits(old(Held()))) && (buffer == old(buffer) || fresh(buffer))
      ensures !overrun ==>
        var p := Feed(Progress([], old(Held())), chunk);
        Held() == p.held && p.frames == if frame.Some? then [frame.value] else []
    {
      frame := None;
      var fits := Sink();
      overrun := !fits;
      if overrun {
        return;
      }
      Read(chunk);
      frame := Detach(|chunk|);
    }
  }

  lemma DeliverPrefix(chunks: seq<Bytes>, n: nat)
    requires n < |chunks|
    ensures Deliver(chunks[..n + 1]) == Feed(Deliver(chunks[..n]), chunks[n])
  {
    assert chunks[..n + 1][..n] == chunks[..n];
  }

  /** Before each of the first `n` reads there was room for it. */
  ghost predicate AllFit(chunks: seq<Bytes>, n: nat)
    requires n <= |chunks|
  {
    n > 0 ==> AllFit(chunks, n - 1) && SinkFits(Deliver(chunks[..n - 1]).held)
  }

  lemma {:induction false} UnfitStays(chunks: seq<Bytes>, n: nat, m: nat)
    requires n <= m <= |chunks| && !AllFit(chunks, n)
    ensures !AllFit(chunks, m)
    decreases m
  {
    if n < m {
      UnfitStays(chunks, n, m - 1);
    }
  }

  /** A connection from its first read: any split of the stream gives the frames of the stream, unless and
      only if some header announces a size that does not fit 64 bits while more is to be read. */
  method ReadAll(chunks: seq<Bytes>) returns (frames: seq<Bytes>, held: Bytes, overrun: bool)
    requires LegalReads(chunks)
    ensures overrun <==> !AllFit(chunks, |chunks|)
    ensures !overrun ==> Progress(frames, held) == Cut(Flatten(chunks))
  {
    var d := new Deserializer();
    frames, held, overrun := [], [], false;
    for n := 0 to |chunks|
      invariant d.Valid() && fresh(d) && fresh(d.buffer)
      invariant Progress(frames, d.Held()) == Deliver(chunks[..n])
      invariant AllFit(chunks, n)
    {
      LegalPrefix(chunks, n);
      DeliverPrefix(chunks, n);
      var frame;
      frame, overrun := d.Take(chunks[n]);
      if overrun {
        UnfitStays(chunks, n + 1, |chunks|);
        return;
      }
      if frame.Some? {
        frames := frames + [frame.value];
      }
    }
    assert chunks[..|chunks|] == chunks;
    ChunkingIrrelevant(chunks);
    held := d.buffer[..d.size];
  }

  lemma {:induction false} LegalPrefix(chunks: seq<Bytes>, n: nat)
    requires LegalReads(chunks) && n < |chunks|
    ensures LegalReads(chunks[..n]) && Partial(Deliver(chunks[..n]).held)
    ensures 0 < |chunks[n]| <= Missing(Deliver(chunks[..n]).held)
  {
    if n + 1 < |chunks| {
      var m := |chunks| - 1;
      LegalPrefix(chunks[..m], n);
      assert chunks[..m][..n] == chunks[..n];
    }
    DeliverInStep(chunks[..n]);
  }
}
