/**
 Moving bytes over a descriptor that transfers as much as it likes at a time, and the two replies that
 carry files: the worker's writing and the client's reading of them.
 */
module Transfers {
  import opened Basics
  import opened BigEndian
  import opened Framing
  import opened Messages

  // ---------------------------------------------------------------------------
  // The descriptor
  // ---------------------------------------------------------------------------

  /** What one `read` or `write` call may do instead of moving everything it was asked to. */
  datatype Glitch = Short(count: nat) | Interrupted | Broken

  /** A call is cut short to at least one byte or interrupted; it does not fail. */
  predicate Harmless(glitches: seq<Glitch>) {
    forall i :: 0 <= i < |glitches| ==> glitches[i].Interrupted? || (glitches[i].Short? && glitches[i].count > 0)
  }

  /** A call is at most cut short. */
  predicate Smooth(glitches: seq<Glitch>) {
    forall i :: 0 <= i < |glitches| ==> glitches[i].Short? && glitches[i].count > 0
  }

  /** The next call is interrupted. */
  predicate CutShort(glitches: seq<Glitch>) {
    glitches != [] && glitches[0].Interrupted?
  }

  /** One end of a connection. `bytes` is what has been written and not yet read. The glitches are met
      one by one; once they are used up, calls move all they can. */
  class Wire {
    var bytes: Bytes
    var glitches: seq<Glitch>

    constructor (bytes: Bytes, glitches: seq<Glitch>)
      ensures this.bytes == bytes && this.glitches == glitches
    {
      this.bytes, this.glitches := bytes, glitches;
    }

    /** How many bytes a call that could move `most` moves, or what goes wrong. */
    method Attempt(most: nat) returns (moved: nat, interrupted: bool, failed: bool)
      requires most > 0
      modifies `glitches
      ensures moved <= most && |glitches| <= |old(glitches)|
      ensures interrupted || failed ==> moved == 0
      ensures interrupted ==> |glitches| < |old(glitches)|
      ensures Harmless(old(glitches)) ==> Harmless(glitches) && !failed && (interrupted || moved > 0)
      ensures Smooth(old(glitches)) ==> Smooth(glitches) && !interrupted
      ensures interrupted <==> CutShort(old(glitches))
    {
      moved, interrupted, failed := most, false, false;
      if glitches != [] {
        match glitches[0] {
        case Short(k) => moved := if k < most then k else most;
        case Interrupted => moved, interrupted := 0, true;
        case Broken => moved, failed := 0, true;
        }
        glitches := glitches[1..];
      }
    }
  }

  /** A 64-bit size returned as an `int`. */
  function AsInt(size: nat): int {
    (size + 0x8000_0000) % 0x1_0000_0000 - 0x8000_0000
  }

  /** What is left of it in 32 bits. */
  lemma AsIntExactly(size: nat)
    ensures -0x8000_0000 <= AsInt(size) < 0x8000_0000 && (size - AsInt(size)) % 0x1_0000_0000 == 0
    ensures size < 0x8000_0000 ==> AsInt(size) == size
  {
    var q := (size + 0x8000_0000) / 0x1_0000_0000;
    assert size - AsInt(size) == 0x1_0000_0000 * q;
  }

  /** Reads exactly `size` bytes: -1 on failure, 0 at the end of the stream, otherwise the size. */
  method ReadBytes(w: Wire, size: nat) returns (r: int, data: Bytes)
    modifies w
    ensures data + w.bytes == old(w.bytes) && |data| <= size
    ensures |data| < size ==> r == -1 || r == 0
    ensures |data| == size ==> r == AsInt(size)
    ensures Harmless(old(w.glitches)) && |old(w.bytes)| < size ==> r == 0 && data == old(w.bytes)
    ensures Harmless(old(w.glitches)) && |old(w.bytes)| >= size ==> |data| == size && Harmless(w.glitches)
  {
    data := [];
    while |data| < size
      invariant data + w.bytes == old(w.bytes) && |data| <= size
      invariant Harmless(old(w.glitches)) ==> Harmless(w.glitches)
      decreases size - |data|, |w.glitches|
    {
      if w.bytes == [] {
        return 0, data;
      }
      var left := size - |data|;
      var k, interrupted, failed := w.Attempt(if left < |w.bytes| then left else |w.bytes|);
      if interrupted {
        continue;
      }
      if failed {
        return -1, data;
      }
      if k == 0 {
        return 0, data;
      }
      data, w.bytes := data + w.bytes[..k], w.bytes[k..];
    }
    r := AsInt(size);
  }

  /** Writes all of `data`: -1 on failure, 0 if nothing could be written, otherwise 1. */
  method WriteBytes(w: Wire, data: Bytes) returns (r: int)
    modifies w
    ensures r == 1 ==> w.bytes == old(w.bytes) + data
    ensures Harmless(old(w.glitches)) ==> r == 1 && Harmless(w.glitches)
    ensures Smooth(old(w.glitches)) ==> Smooth(w.glitches)
    ensures r == 1 || r == 0 || r == -1
  {
    var sent := 0;
    while sent < |data|
      invariant sent <= |data| && w.bytes == old(w.bytes) + data[..sent]
      invariant Harmless(old(w.glitches)) ==> Harmless(w.glitches)
      invariant Smooth(old(w.glitches)) ==> Smooth(w.glitches)
      decreases |data| - sent, |w.glitches|
    {
      var k, interrupted, failed := w.Attempt(|data| - sent);
      if interrupted {
        continue;
      }
      if failed {
        return -1;
      }
      if k == 0 {
        return 0;
      }
      w.bytes := w.bytes + data[sent..sent + k];
      sent := sent + k;
      assert data[..sent - k] + data[sent - k..sent] == data[..sent];
    }
    r := 1;
  }

  // ---------------------------------------------------------------------------
  // The client's requests
  // ---------------------------------------------------------------------------

  /** One write of a series whose results are or-ed together: the series has failed so far if the or is
      negative. */
  method Put(w: Wire, failed: bool, data: Bytes) returns (failed': bool)
    modifies w
    ensures Harmless(old(w.glitches)) ==>
      Harmless(w.glitches) && failed' == failed && w.bytes == old(w.bytes) + data
    ensures Smooth(old(w.glitches)) ==> Smooth(w.glitches)
  {
    var r := WriteBytes(w, data);
    failed' := failed || r < 0;
  }

  /** The operation code goes out in a single call that is not repeated when it is interrupted. */
  method PutOp(w: Wire, failed: bool, op: Byte) returns (failed': bool)
    modifies w
    ensures Harmless(old(w.glitches)) ==>
      Harmless(w.glitches) && (failed' || (!failed && w.bytes == old(w.bytes) + [op]))
    ensures Smooth(old(w.glitches)) ==> Smooth(w.glitches) && failed' == failed
  {
    var k, interrupted, broken := w.Attempt(1);
    failed' := failed || interrupted || broken;
    if k == 1 {
      w.bytes := w.bytes + [op];
    }
  }

  /** A request with one argument. */
  method MakeSimpleRequest(w: Wire, op: Byte, path: Bytes) returns (failed: bool)
    requires 1 + |path| < TWO_64
    modifies w
    ensures Harmless(old(w.glitches)) && !failed ==>
      w.bytes == old(w.bytes) + (Header(1 + |path|) + PathPayload(op, path))
    ensures Smooth(old(w.glitches)) ==> !failed
  {
    var start, f1, f2 := w.bytes, BigEndian.Encode(MAGIC), BigEndian.Encode(1 + |path|);
    failed := Put(w, false, f1);
    failed := Put(w, failed, f2);
    failed := PutOp(w, failed, op);
    failed := Put(w, failed, path);
    assert start + f1 + f2 + [op] + path == start + (f1 + f2 + ([op] + path));
  }

  lemma JoinParts<T>(s: seq<T>, a: seq<T>, b: seq<T>, c: seq<T>, d: seq<T>, e: seq<T>, f: seq<T>, g: seq<T>)
    ensures s + a + b + c + d + e + f + g == s + (a + b + (c + d + e + f + g))
  {
    assert s + a + b == s + (a + b);
    assert s + (a + b) + c + d + e + f + g == s + (a + b + (c + d + e + f + g));
  }

  /** A request with two arguments. */
  method MakeRequestWithTwoArgs(w: Wire, op: Byte, arg1: Bytes, arg2: Bytes) returns (failed: bool)
    requires 17 + |arg1| + |arg2| < TWO_64
    modifies w
    ensures Harmless(old(w.glitches)) && !failed ==>
      w.bytes == old(w.bytes) + (Header(17 + |arg1| + |arg2|) + WritePayload(op, arg1, arg2))
    ensures Smooth(old(w.glitches)) ==> !failed
  {
    var start, f1, f2 := w.bytes, BigEndian.Encode(MAGIC), BigEndian.Encode(17 + |arg1| + |arg2|);
    var f4, f5 := BigEndian.Encode(|arg1|), BigEndian.Encode(|arg2|);
    failed := Put(w, false, f1);
    failed := Put(w, failed, f2);
    failed := PutOp(w, failed, op);
    failed := Put(w, failed, f4);
    failed := Put(w, failed, f5);
    failed := Put(w, failed, arg1);
    failed := Put(w, failed, arg2);
    JoinParts(start, f1, f2, [op], f4, f5, arg1, arg2);
  }

  // ---------------------------------------------------------------------------
  // Replies that carry files
  // ---------------------------------------------------------------------------

  const RESPONSE_OK: Byte := 0
  const RESPONSE_ERR: Byte := 1

  datatype Entry = Entry(path: Bytes, contents: Bytes)

  /** A file that fits in memory. */
  predicate Sized(e: Entry) {
    |e.path| + |e.contents| < TWO_64
  }

  function EncodeEntry(e: Entry): Bytes
    requires Sized(e)
  {
    BigEndian.Encode(|e.path|) + BigEndian.Encode(|e.contents|) + (e.path + e.contents)
  }

  function EncodeEntries(es: seq<Entry>): Bytes
    requires forall e :: e in es ==> Sized(e)
  {
    if es == [] then [] else EncodeEntry(es[0]) + EncodeEntries(es[1..])
  }

  /** The reply to a write: the status, the number of evicted files, the files. */
  function WriteReply(es: seq<Entry>): Bytes
    requires |es| < TWO_64 && forall e :: e in es ==> Sized(e)
  {
    [RESPONSE_OK] + BigEndian.Encode(|es|) + EncodeEntries(es)
  }

  lemma {:induction false} EntriesSnoc(es: seq<Entry>, e: Entry)
    requires Sized(e) && forall x :: x in es ==> Sized(x)
    ensures EncodeEntries(es + [e]) == EncodeEntries(es) + EncodeEntry(e)
  {
    if es == [] {
      assert es + [e] == [e];
      assert [e][1..] == [];
    } else {
      assert (es + [e])[1..] == es[1..] + [e];
      EntriesSnoc(es[1..], e);
    }
  }

  lemma EntriesUpTo(start: Bytes, head: Bytes, es: seq<Entry>, i: nat)
    requires i < |es| && forall x :: x in es ==> Sized(x)
    ensures start + (head + EncodeEntries(es[..i])) + EncodeEntry(es[i]) == start + (head + EncodeEntries(es[..i + 1]))
  {
    EntriesSnoc(es[..i], es[i]);
    assert es[..i] + [es[i]] == es[..i + 1];
    var a, b := EncodeEntries(es[..i]), EncodeEntry(es[i]);
    assert start + (head + a) + b == start + (head + (a + b));
  }

  /** The worker's side: one evicted file. */
  method PutEntry(w: Wire, failed: bool, e: Entry) returns (failed': bool)
    requires Sized(e)
    modifies w
    ensures Harmless(old(w.glitches)) ==>
      Harmless(w.glitches) && failed' == failed && w.bytes == old(w.bytes) + EncodeEntry(e)
  {
    var start, n1, n2 := w.bytes, BigEndian.Encode(|e.path|), BigEndian.Encode(|e.contents|);
    failed' := Put(w, failed, n1);
    failed' := Put(w, failed', n2);
    failed' := Put(w, failed', e.path);
    failed' := Put(w, failed', e.contents);
    assert start + n1 + n2 + e.path + e.contents == start + (n1 + n2 + (e.path + e.contents));
  }

  /** The worker's side: the whole reply. */
  method SendWriteReply(w: Wire, es: seq<Entry>) returns (failed: bool)
    requires |es| < TWO_64 && forall e :: e in es ==> Sized(e)
    modifies w
    ensures Harmless(old(w.glitches)) ==> !failed && Harmless(w.glitches) && w.bytes == old(w.bytes) + WriteReply(es)
  {
    ghost var start, head := w.bytes, [RESPONSE_OK] + BigEndian.Encode(|es|);
    failed := Put(w, false, [RESPONSE_OK]);
    failed := Put(w, failed, BigEndian.Encode(|es|));
    if failed {
      return;
    }
    for i := 0 to |es|
      invariant Harmless(old(w.glitches)) ==>
        !failed && Harmless(w.glitches) && w.bytes == start + (head + EncodeEntries(es[..i]))
    {
      failed := PutEntry(w, failed, es[i]);
      if failed {
        return;
      }
      EntriesUpTo(start, head, es, i);
    }
    assert es[..|es|] == es;
  }

  /** The rest of a fixed buffer that a short read left at zero. */
  function Padded(data: Bytes, size: nat): Bytes
    requires |data| <= size
  {
    data + seq(size - |data|, _ => 0)
  }

  lemma EntryParts(e: Entry)
    requires Sized(e)
    ensures
      var b := EncodeEntry(e);
      && |b| == 16 + |e.path| + |e.contents|
      && BigEndian.Decode(b[..16][..8]) == |e.path|
      && BigEndian.Decode(b[..16][8..16]) == |e.contents|
      && b[16..] == e.path + e.contents
  {
    var n1, n2 := BigEndian.Encode(|e.path|), BigEndian.Encode(|e.contents|);
    EntrySlices(n1, n2, e.path + e.contents);
    DecodeEncode(|e.path|);
    DecodeEncode(|e.contents|);
  }

  lemma EntrySlices<T>(n1: seq<T>, n2: seq<T>, rest: seq<T>)
    requires |n1| == |n2| == 8
    ensures
      var b := n1 + n2 + rest;
      b[..16][..8] == n1 && b[..16][8..16] == n2 && b[16..] == rest
  {
    var b := n1 + n2 + rest;
    assert b[..16][..8] == n1;
    assert b[..16][8..16] == n2;
    assert b[16..] == rest;
  }

  /** Bytes read off the front of a stream that starts with `whole`. */
  lemma ReadFront<T>(data: seq<T>, left: seq<T>, whole: seq<T>, rest: seq<T>)
    requires data + left == whole + rest && |data| <= |whole|
    ensures data == whole[..|data|] && left == whole[|data|..] + rest
  {
    assert data == (data + left)[..|data|] == (whole + rest)[..|data|];
    assert left == (data + left)[|data|..] == (whole + rest)[|data|..];
  }

  /** The two lengths of one file of a reply. */
  method GetLengths(w: Wire, ghost e: Entry, ghost rest: Bytes) returns (r: int, n1: nat, n2: nat)
    requires Sized(e)
    modifies w
    ensures n1 < TWO_64 && n2 < TWO_64
    ensures Harmless(old(w.glitches)) && old(w.bytes) == EncodeEntry(e) + rest ==>
      && Harmless(w.glitches) && r > 0 && n1 == |e.path| && n2 == |e.contents|
      && w.bytes == e.path + e.contents + rest
  {
    var lengths;
    r, lengths := ReadBytes(w, 16);
    var buf := Padded(lengths, 16);
    n1, n2 := BigEndian.Decode(buf[..8]), BigEndian.Decode(buf[8..16]);
    ghost var b := EncodeEntry(e);
    EntryParts(e);
    if Harmless(old(w.glitches)) && old(w.bytes) == b + rest {
      ReadFront(lengths, w.bytes, b, rest);
      assert buf == lengths;
    }
  }

  /** A received file after which the client goes on: its size is not negative as an `int`, and saving it
      writes at least one byte. */
  predicate Deliverable(e: Entry) {
    AsInt(|e.path| + |e.contents|) >= 0 && e.contents != []
  }

  /** The client's side: one file of a reply. It is saved before the client looks whether anything went
      wrong; nothing is saved if the lengths cannot be read, or overflow so that the memory allocated is
      too small for them, or nothing at all was read. `seen` says that some read so far returned something
      other than zero. */
  method GetEntry(w: Wire, seen: bool, ghost e: Entry, ghost rest: Bytes) returns (ok: bool, saved: Option<Entry>)
    requires Sized(e)
    modifies w
    ensures seen && Harmless(old(w.glitches)) && old(w.bytes) == EncodeEntry(e) + rest ==>
      saved == Some(e) && ok == Deliverable(e) && Harmless(w.glitches) && w.bytes == rest
    ensures ok ==> saved.Some?
  {
    var r0, n1, n2 := GetLengths(w, e, rest);
    if r0 < 0 || n1 + n2 >= TWO_64 {
      return false, None;
    }
    var r, data := ReadBytes(w, n1 + n2);
    var both := Padded(data, n1 + n2);
    var file := Entry(both[..n1], both[n1..]);
    if !seen && r0 == 0 && r == 0 {
      return false, None;
    }
    saved, ok := Some(file), r >= 0 && file.contents != [];
    if Harmless(old(w.glitches)) && old(w.bytes) == EncodeEntry(e) + rest {
      ReadFront(data, w.bytes, e.path + e.contents, rest);
      assert both == data == e.path + e.contents;
    }
  }

  /** The client's side: status and number of files. */
  method GetReplyHead(w: Wire, ghost es: seq<Entry>, ghost rest: Bytes) returns (failed: bool, seen: bool, count: nat)
    requires |es| < TWO_64 && forall e :: e in es ==> Sized(e)
    modifies w
    ensures Harmless(old(w.glitches)) && old(w.bytes) == WriteReply(es) + rest ==>
      Harmless(w.glitches) && !failed && seen && count == |es| && w.bytes == EncodeEntries(es) + rest
    ensures Harmless(old(w.glitches)) && old(w.bytes) == [RESPONSE_ERR] + rest ==> failed && w.bytes == rest
  {
    seen, count := false, 0;
    ghost var b, num, all := WriteReply(es), BigEndian.Encode(|es|), EncodeEntries(es);
    var r, status := ReadBytes(w, 1);
    failed := r < 0 || Padded(status, 1)[0] == RESPONSE_ERR;
    if failed {
      HeadParts(num, all);
      if Harmless(old(w.glitches)) && old(w.bytes) == b + rest {
        ReadFront(status, w.bytes, b, rest);
      } else if Harmless(old(w.glitches)) && old(w.bytes) == [RESPONSE_ERR] + rest {
        ReadFront(status, w.bytes, [RESPONSE_ERR], rest);
      }
      return;
    }
    if Harmless(old(w.glitches)) && old(w.bytes) == [RESPONSE_ERR] + rest {
      ReadFront(status, w.bytes, [RESPONSE_ERR], rest);
      assert false;
    }
    ghost var mid := w.bytes;
    var r', digits := ReadBytes(w, 8);
    var buf := Padded(digits, 8);
    failed, seen, count := r' < 0, r != 0 || r' != 0, BigEndian.Decode(buf);
    if Harmless(old(w.glitches)) && old(w.bytes) == b + rest {
      HeadParts(num, all);
      ReadFront(status, mid, b, rest);
      ReadFront(digits, w.bytes, num + all, rest);
      assert buf == digits == num;
      DecodeEncode(|es|);
    }
  }

  lemma HeadParts(num: Bytes, all: Bytes)
    requires |num| == 8
    ensures var b := [RESPONSE_OK] + num + all; |b| >= 9 && b[..1] == [RESPONSE_OK] && b[1..] == num + all
    ensures (num + all)[..8] == num && (num + all)[8..] == all
  {
    assert [RESPONSE_OK] + num + all == [RESPONSE_OK] + (num + all);
  }

  lemma EntriesFrom(es: seq<Entry>, i: nat, rest: Bytes)
    requires i < |es| && forall e :: e in es ==> Sized(e)
    ensures EncodeEntries(es[i..]) + rest == EncodeEntry(es[i]) + (EncodeEntries(es[i + 1..]) + rest)
  {
    assert es[i..][1..] == es[i + 1..];
    var a, b := EncodeEntry(es[i]), EncodeEntries(es[i + 1..]);
    assert a + b + rest == a + (b + rest);
  }

  /** What the caller is told, `r`, and what was saved, `got`, of the files `es`: all up to and including the
      first at which the client gives up, and success exactly when there is none such. */
  ghost predicate SavedAsSent(r: int, got: seq<Entry>, es: seq<Entry>) {
    && (r == 0 <==> forall e :: e in es ==> Deliverable(e))
    && got <= es
    && (r == 0 ==> got == es)
    && (r != 0 ==> got != [] && !Deliverable(got[|got| - 1]) && forall k :: 0 <= k < |got| - 1 ==> Deliverable(got[k]))
  }

  /** The client's side: the files of a reply. */
  method SaveFiles(w: Wire, seen: bool, count: nat, ghost es: seq<Entry>, ghost rest: Bytes)
    returns (r: int, got: seq<Entry>)
    requires forall e :: e in es ==> Sized(e)
    modifies w
    ensures seen && count == |es| && Harmless(old(w.glitches)) && old(w.bytes) == EncodeEntries(es) + rest ==>
      SavedAsSent(r, got, es) && (r == 0 ==> w.bytes == rest && Harmless(w.glitches))
  {
    ghost var fine := seen && count == |es| && Harmless(w.glitches) && w.bytes == EncodeEntries(es) + rest;
    var seen' := seen;
    got := [];
    for i := 0 to count
      invariant fine ==> seen' && Harmless(w.glitches)
      invariant fine ==> got == es[..i] && w.bytes == EncodeEntries(es[i..]) + rest
      invariant fine ==> forall k :: 0 <= k < i ==> Deliverable(es[k])
    {
      ghost var e, after := Entry([], []), [];
      if fine {
        EntriesFrom(es, i, rest);
        e, after := es[i], EncodeEntries(es[i + 1..]) + rest;
      }
      var ok, saved := GetEntry(w, seen', e, after);
      if saved.Some? {
        got := got + [saved.value];
        assert fine ==> got == es[..i + 1];
      }
      if !ok {
        return -1, got;
      }
      seen' := true;
    }
    r := 0;
  }

  /** The client's side: the whole reply. The files saved are `got`; `r` is the result the caller sees. */
  method HandleResponseWithFiles(w: Wire, ghost es: seq<Entry>, ghost rest: Bytes)
    returns (r: int, got: seq<Entry>)
    requires |es| < TWO_64 && forall e :: e in es ==> Sized(e)
    modifies w
    ensures Harmless(old(w.glitches)) && old(w.bytes) == WriteReply(es) + rest ==>
      SavedAsSent(r, got, es) && (r == 0 ==> w.bytes == rest && Harmless(w.glitches))
    ensures Harmless(old(w.glitches)) && old(w.bytes) == [RESPONSE_ERR] + rest ==>
      r == -1 && got == [] && w.bytes == rest
  {
    var failed, seen, count := GetReplyHead(w, es, rest);
    if failed {
      return -1, [];
    }
    r, got := SaveFiles(w, seen, count, es, rest);
  }

  /** The worker's reply to a read, which is written in one piece and then the contents. */
  function ReadReply(contents: Bytes): Bytes
    requires |contents| < TWO_64
  {
    [RESPONSE_OK] + BigEndian.Encode(|contents|) + contents
  }

  method SendReadReply(w: Wire, contents: Bytes) returns (failed: bool)
    requires |contents| < TWO_64
    modifies w
    ensures Harmless(old(w.glitches)) ==>
      !failed && Harmless(w.glitches) && w.bytes == old(w.bytes) + ReadReply(contents)
    ensures Smooth(old(w.glitches)) ==> Smooth(w.glitches)
  {
    var start, head := w.bytes, [RESPONSE_OK] + BigEndian.Encode(|contents|);
    failed := Put(w, false, head);
    failed := Put(w, failed, contents);
    assert start + head + contents == start + (head + contents);
  }

  // ---------------------------------------------------------------------------
  // Replies of one byte
  // ---------------------------------------------------------------------------

  /** What a request came to, as one byte: zero results are good, all others are not. */
  function Status(result: int): Byte {
    if result == 0 then RESPONSE_OK else RESPONSE_ERR
  }

  /** The worker's reply to a request without files, and its refusal of a read. It goes out in a single call,
      so that an interruption loses it. */
  method SendStatus(w: Wire, result: int) returns (failed: bool)
    modifies w
    ensures Harmless(old(w.glitches)) ==>
      && Harmless(w.glitches) && failed == CutShort(old(w.glitches))
      && w.bytes == if failed then old(w.bytes) else old(w.bytes) + [Status(result)]
    ensures Smooth(old(w.glitches)) ==> Smooth(w.glitches)
  {
    var k, interrupted, broken := w.Attempt(1);
    failed := interrupted || broken;
    if k == 1 {
      w.bytes := w.bytes + [Status(result)];
    }
  }

  /** The client's reading of the status, by a single call: -1 if it is interrupted or the status is that of an
      error, otherwise 0. */
  method GetStatus(w: Wire) returns (r: int)
    modifies w
    ensures Harmless(old(w.glitches)) && old(w.bytes) != [] ==>
      && Harmless(w.glitches)
      && r == (if CutShort(old(w.glitches)) || old(w.bytes)[0] == RESPONSE_ERR then -1 else 0)
      && w.bytes == if CutShort(old(w.glitches)) then old(w.bytes) else old(w.bytes)[1..]
    ensures r == 0 || r == -1
  {
    var status := 0;
    var negative := false;
    if w.bytes != [] {
      var k, interrupted, broken := w.Attempt(1);
      negative := interrupted || broken;
      if k == 1 {
        status, w.bytes := w.bytes[0], w.bytes[1..];
      }
    }
    r := if negative || status == RESPONSE_ERR then -1 else 0;
  }

  /** The client's reading of a read reply: good exactly when the read of the status is not interrupted,
      which the client takes for an error, and the size is not negative as an `int`. A refusal is an error. */
  method ReadFileReply(w: Wire, ghost contents: Bytes, ghost rest: Bytes) returns (r: int, data: Bytes)
    requires |contents| < TWO_64
    modifies w
    ensures Harmless(old(w.glitches)) && old(w.bytes) == ReadReply(contents) + rest ==>
      && (r == 0 <==> AsInt(|contents|) >= 0 && !CutShort(old(w.glitches)))
      && (r == 0 ==> data == contents && w.bytes == rest)
    ensures Harmless(old(w.glitches)) && old(w.bytes) == [RESPONSE_ERR] + rest ==>
      && r == -1 && data == []
      && w.bytes == if CutShort(old(w.glitches)) then old(w.bytes) else rest
    ensures r == 0 || r == -1
  {
    ghost var b, num := ReadReply(contents), BigEndian.Encode(|contents|);
    ghost var fine := Harmless(w.glitches) && w.bytes == b + rest;
    HeadParts(num, contents);
    data := [];
    if fine {
      assert w.bytes[0] == RESPONSE_OK && w.bytes[1..] == num + contents + rest;
    }
    r := GetStatus(w);
    if r < 0 {
      return;
    }
    r, data := GetContents(w, contents, rest);
  }

  /** The length and the contents after the status. */
  method GetContents(w: Wire, ghost contents: Bytes, ghost rest: Bytes) returns (r: int, data: Bytes)
    requires |contents| < TWO_64
    modifies w
    ensures Harmless(old(w.glitches)) && old(w.bytes) == BigEndian.Encode(|contents|) + contents + rest ==>
      && (r == 0 <==> AsInt(|contents|) >= 0)
      && (r == 0 ==> data == contents && w.bytes == rest)
    ensures r == 0 || r == -1
  {
    ghost var num := BigEndian.Encode(|contents|);
    ghost var fine := Harmless(w.glitches) && w.bytes == num + contents + rest;
    HeadParts(num, contents);
    data := [];
    var r1, digits := ReadBytes(w, 8);
    if fine {
      ReadFront(digits, w.bytes, num + contents, rest);
      DecodeEncode(|contents|);
    }
    if r1 < 0 {
      return -1, data;
    }
    var size := BigEndian.Decode(Padded(digits, 8));
    var r2;
    r2, data := ReadBytes(w, size);
    if fine {
      assert Padded(digits, 8) == num;
      ReadFront(data, w.bytes, contents, rest);
    }
    data := Padded(data, size);
    r := if r2 < 0 then -1 else 0;
  }

  // ---------------------------------------------------------------------------
  // Both ends of a connection
  // ---------------------------------------------------------------------------

  /** The files a write evicted travel from the worker to the client. */
  method WriteReplyTravels(w: Wire, es: seq<Entry>) returns (r: int, got: seq<Entry>)
    requires |es| < TWO_64 && (forall e :: e in es ==> Sized(e))
    requires w.bytes == [] && Harmless(w.glitches)
    modifies w
    ensures SavedAsSent(r, got, es) && (r == 0 ==> w.bytes == [])
  {
    var failed := SendWriteReply(w, es);
    assert w.bytes == WriteReply(es) + [];
    r, got := HandleResponseWithFiles(w, es, []);
  }

  /** The worker's answer to a read: the file if it is stored, otherwise a refusal. */
  method SendRead(w: Wire, file: Option<Bytes>) returns (unsent: bool)
    requires file.Some? ==> |file.value| < TWO_64
    modifies w
    ensures Harmless(old(w.glitches)) ==>
      && Harmless(w.glitches) && (unsent <==> file.None? && CutShort(old(w.glitches)))
      && (!unsent ==> w.bytes == old(w.bytes) + if file.Some? then ReadReply(file.value) else [RESPONSE_ERR])
    ensures Smooth(old(w.glitches)) ==> Smooth(w.glitches)
  {
    if file.None? {
      unsent := SendStatus(w, -1);
    } else {
      unsent := SendReadReply(w, file.value);
    }
  }

  /** A read, from the worker to the client. `cut` says that the client's read of the status is interrupted. The
      client succeeds if and only if the file is stored, its size is not negative as an `int`, and that read
      is not interrupted; a refusal that is sent is an error, and one that is not leaves the client waiting. */
  method ReadReplyTravels(w: Wire, file: Option<Bytes>) returns (r: int, data: Bytes, unsent: bool, ghost cut: bool)
    requires w.bytes == [] && Harmless(w.glitches) && (file.Some? ==> |file.value| < TWO_64)
    modifies w
    ensures unsent <==> file.None? && CutShort(old(w.glitches))
    ensures !unsent ==> (r == 0 <==> file.Some? && AsInt(|file.value|) >= 0 && !cut)
    ensures !unsent && r == 0 ==> data == file.value && w.bytes == []
    ensures !unsent && r != 0 ==> r == -1 && (file.None? ==> data == [])
    ensures Smooth(old(w.glitches)) ==> !cut
  {
    r, data, cut := -1, [], false;
    unsent := SendRead(w, file);
    if unsent {
      return;
    }
    cut := CutShort(w.glitches);
    ghost var contents := if file.Some? then file.value else [];
    assert w.bytes == (if file.Some? then ReadReply(contents) else [RESPONSE_ERR]) + [];
    r, data := ReadFileReply(w, contents, []);
  }

  /** The result of any other request, from the worker to the client: the client succeeds if and only if the
      result is zero and its read is not interrupted. */
  method StatusTravels(w: Wire, result: int) returns (r: int, unsent: bool, ghost cut: bool)
    requires w.bytes == [] && Harmless(w.glitches)
    modifies w
    ensures unsent <==> CutShort(old(w.glitches))
    ensures !unsent ==> (r == 0 <==> result == 0 && !cut) && (r == 0 || r == -1)
  {
    r, cut := -1, false;
    unsent := SendStatus(w, result);
    if unsent {
      return;
    }
    cut := CutShort(w.glitches);
    r := GetStatus(w);
  }
}
