/**
 The receiver: its two parallel arrays of sockets and deserializers, the removal of dead connections by
 swapping in the last one, and the poll loop that feeds the deserializers and hands frames to workers.
 */
module Receivers {
  import opened Basics
  import opened Framing
  import opened Messages

  /** A deserializer: which one it is and the bytes it holds. */
  datatype Holder = Holder(id: nat, held: Bytes)

  /** One connection: what sits at the same index of both arrays. A negative descriptor is dead. */
  datatype Conn = Conn(fd: int, holder: Holder)

  // ---------------------------------------------------------------------------
  // Removing dead connections
  // ---------------------------------------------------------------------------

  /** Overwrites entry `i` with the last entry, which goes away. */
  function DropAt<T>(s: seq<T>, i: nat): seq<T>
    requires i < |s|
  {
    s[i := s[|s| - 1]][..|s| - 1]
  }

  /** From `i` on, each dead entry is dropped; the entry swapped in is not looked at again. */
  function Sweep(s: seq<Conn>, i: nat): seq<Conn>
    decreases |s| - i
  {
    if i >= |s| then s
    else if s[i].fd < 0 then Sweep(DropAt(s, i), i + 1)
    else Sweep(s, i + 1)
  }

  /** Entry 0 is the listening socket and is not looked at. */
  function Cleanup(s: seq<Conn>): seq<Conn> {
    Sweep(s, 1)
  }

  function DeadOne(c: Conn): int {
    if c.fd < 0 then 1 else 0
  }

  function Dead(s: seq<Conn>): int {
    Total(s, DeadOne)
  }

  lemma DropAtMultiset<T>(s: seq<T>, i: nat)
    requires i < |s|
    ensures multiset(DropAt(s, i)) == multiset(s) - multiset{s[i]}
  {
    var n := |s| - 1;
    assert s == s[..n] + [s[n]];
    if i < n {
      assert DropAt(s, i) == s[..n][i := s[n]];
    } else {
      assert DropAt(s, i) == s[..n];
    }
  }

  /** A pass leaves everything before where it starts. */
  lemma {:induction false} SweepPrefix(s: seq<Conn>, i: nat)
    requires i <= |s|
    ensures i <= |Sweep(s, i)| <= |s| && Sweep(s, i)[..i] == s[..i]
    decreases |s| - i
  {
    if i < |s| {
      var t := if s[i].fd < 0 then DropAt(s, i) else s;
      if i < |t| {
        SweepPrefix(t, i + 1);
        assert Sweep(t, i + 1)[..i] == Sweep(t, i + 1)[..i + 1][..i] == t[..i + 1][..i];
      }
      assert t[..i] == s[..i];
    }
  }

  /** What a pass keeps: every live entry as often as it occurs, and no entry more often than before. */
  lemma {:induction false} SweepKeeps(s: seq<Conn>, i: nat)
    ensures forall c: Conn :: multiset(Sweep(s, i))[c] <= multiset(s)[c]
    ensures forall c: Conn :: c.fd >= 0 ==> multiset(Sweep(s, i))[c] == multiset(s)[c]
    decreases |s| - i
  {
    if i < |s| {
      if s[i].fd < 0 {
        DropAtMultiset(s, i);
        SweepKeeps(DropAt(s, i), i + 1);
      } else {
        SweepKeeps(s, i + 1);
      }
    }
  }

  lemma TailStep(s: seq<Conn>, i: nat)
    requires i < |s|
    ensures Dead(s[i..]) == DeadOne(s[i]) + Dead(s[i + 1..])
  {
    assert s[i..] == [s[i]] + s[i + 1..];
    TotalPrepend(s[i], s[i + 1..], DeadOne);
  }

  lemma TailDropped(s: seq<Conn>, i: nat)
    requires i < |s| - 1
    ensures Dead(DropAt(s, i)[i + 1..]) == Dead(s[i + 1..]) - DeadOne(s[|s| - 1])
  {
    assert s[i + 1..] == DropAt(s, i)[i + 1..] + [s[|s| - 1]];
    TotalAppend(DropAt(s, i)[i + 1..], s[|s| - 1], DeadOne);
  }

  lemma DeadBounds(s: seq<Conn>)
    ensures 0 <= Dead(s) <= |s|
  {
    if s != [] {
      DeadBounds(s[..|s| - 1]);
    }
  }

  /** A pass that meets `d` dead entries among `n` drops at least half of the `d`, and at most half of
      the `n`, both rounded up. */
  lemma {:induction false} SweepCounts(s: seq<Conn>, i: nat)
    requires i <= |s|
    ensures Dead(s[i..]) <= 2 * (|s| - |Sweep(s, i)|) <= |s| - i + 1
    ensures Dead(Sweep(s, i)) == Dead(s) - (|s| - |Sweep(s, i)|)
    decreases |s| - i
  {
    if i < |s| {
      TailStep(s, i);
      if s[i].fd >= 0 {
        SweepCounts(s, i + 1);
      } else {
        DropAtWeight(s, i);
        if i == |s| - 1 {
          assert s[i + 1..] == [];
        } else {
          TailDropped(s, i);
          SweepCounts(DropAt(s, i), i + 1);
        }
      }
    }
  }

  lemma DropAtWeight(s: seq<Conn>, i: nat)
    requires i < |s|
    ensures Dead(DropAt(s, i)) == Dead(s) - DeadOne(s[i])
  {
    var n := |s| - 1;
    var t := s[i := s[n]];
    TotalSet(s, i, s[n], DeadOne);
    assert t == DropAt(s, i) + [s[n]];
    TotalAppend(DropAt(s, i), s[n], DeadOne);
  }

  /** The cleanup keeps the listening entry, keeps every live connection with its own deserializer and
      loses none, drops only dead ones, and halves the number of dead ones. */
  lemma CleanupKeepsLive(s: seq<Conn>)
    requires s != []
    ensures Cleanup(s) != [] && Cleanup(s)[0] == s[0]
    ensures forall c: Conn :: c.fd >= 0 ==> multiset(Cleanup(s))[c] == multiset(s)[c]
    ensures forall c: Conn :: multiset(Cleanup(s))[c] <= multiset(s)[c]
    ensures Dead(Cleanup(s)[1..]) <= Dead(s[1..]) / 2
  {
    var r := Cleanup(s);
    SweepKeeps(s, 1);
    SweepPrefix(s, 1);
    assert r[..1][0] == s[..1][0];
    SweepCounts(s, 1);
    TailStep(s, 0);
    TailStep(r, 0);
    assert s[0..] == s && r[0..] == r;
  }

  /** Half is the most that can be promised: a table with nothing but dead connections loses exactly
      half of them, rounded up. */
  lemma {:induction false} AllDeadHalves(s: seq<Conn>, i: nat)
    requires i <= |s| && forall k :: i <= k < |s| ==> s[k].fd < 0
    ensures |s| - |Sweep(s, i)| == (|s| - i + 1) / 2
    decreases |s| - i
  {
    if i + 1 < |s| {
      AllDeadHalves(DropAt(s, i), i + 1);
    }
  }

  function Passes(s: seq<Conn>, n: nat): seq<Conn>
    decreases n
  {
    if n == 0 then s else Passes(Cleanup(s), n - 1)
  }

  function Power2(n: nat): int {
    if n == 0 then 1 else 2 * Power2(n - 1)
  }

  /** Repeated passes end with every live connection and no dead one, after logarithmically many. */
  lemma {:induction false} PassesClean(s: seq<Conn>, n: nat)
    requires s != [] && Power2(n) > Dead(s[1..])
    ensures Passes(s, n) != [] && Passes(s, n)[0] == s[0]
    ensures forall c :: c in Passes(s, n)[1..] ==> c.fd >= 0
    ensures forall c: Conn :: c.fd >= 0 ==> multiset(Passes(s, n))[c] == multiset(s)[c]
    decreases n
  {
    if n == 0 {
      DeadBounds(s[1..]);
      NoneDead(s[1..]);
    } else {
      CleanupKeepsLive(s);
      PassesClean(Cleanup(s), n - 1);
    }
  }

  lemma {:induction false} NoneDead(s: seq<Conn>)
    ensures Dead(s) == 0 <==> forall c :: c in s ==> c.fd >= 0
  {
    if s != [] {
      var n := |s| - 1;
      NoneDead(s[..n]);
      DeadBounds(s[..n]);
      assert s == s[..n] + [s[n]];
    }
  }

  // ---------------------------------------------------------------------------
  // The poll loop
  // ---------------------------------------------------------------------------

  const POLLIN: nat := 1

  datatype ReadResult = Eof | Fault | Data(chunk: Bytes)

  /** What the system answers during one iteration: the result of `poll`, the events it reports for each
      entry, the descriptor `accept` would return, and what `read` would return for each entry. */
  datatype Events = Events(ready: int, revents: seq<nat>, accepted: int, results: seq<ReadResult>)

  /** A read by a deserializer and a frame handed to a worker. */
  datatype Took = Took(id: nat, chunk: Bytes)
  datatype Hand = Hand(id: nat, fd: int, frame: Bytes)

  /** The receiver's state, with all that it has read and handed over so far. */
  datatype Pool = Pool(conns: seq<Conn>, accepting: bool, created: nat, taken: seq<Took>, handed: seq<Hand>)

  function NewPool(fd: int): Pool {
    Pool([Conn(fd, Holder(0, []))], true, 1, [], [])
  }

  function Accept(p: Pool, fd: int): Pool {
    if fd < 0 then p
    else p.(conns := p.conns + [Conn(fd, Holder(p.created, []))], created := p.created + 1)
  }

  /** The first entry from `i` on whose deserializer holds something that is not a frame. */
  function FirstInvalid(conns: seq<Conn>, i: nat): (k: nat)
    ensures i <= |conns| ==> i <= k <= |conns|
    ensures forall j :: i <= j < k && j < |conns| ==> Plausible(conns[j].holder.held)
    ensures i <= k < |conns| ==> !Plausible(conns[k].holder.held)
    decreases |conns| - i
  {
    if i >= |conns| then |conns|
    else if !Plausible(conns[i].holder.held) then i
    else FirstInvalid(conns, i + 1)
  }

  function Negate(p: Pool, i: nat): Pool
    requires i < |p.conns|
  {
    p.(conns := p.conns[i := p.conns[i].(fd := -p.conns[i].fd)])
  }

  /** A readable connection: it dies, or its deserializer takes the bytes and may give out a frame. */
  function ReadOne(p: Pool, i: nat, result: ReadResult): Pool
    requires i < |p.conns|
  {
    var c := p.conns[i];
    match result
    case Data(chunk) =>
      var q := Feed(Progress([], c.holder.held), chunk);
      p.(conns := p.conns[i := Conn(c.fd, Holder(c.holder.id, q.held))],
         taken := p.taken + [Took(c.holder.id, chunk)],
         handed := p.handed + if q.frames == [] then [] else [Hand(c.holder.id, c.fd, q.frames[0])])
    case _ =>
      p.(conns := p.conns[i := c.(fd := -1)])
  }

  /** The event reported for entry `i`; a connection accepted after the report has none. */
  function EventOf(e: Events, i: nat): nat {
    if i < |e.revents| then e.revents[i] else 0
  }

  function ReadFrom(p: Pool, i: nat, e: Events): Pool
    requires |e.results| >= |e.revents|
    decreases |p.conns| - i
  {
    if i >= |p.conns| then p
    else if EventOf(e, i) > 0 && EventOf(e, i) != POLLIN then Negate(p, i)
    else if EventOf(e, i) == POLLIN then ReadFrom(ReadOne(p, i, e.results[i]), i + 1, e)
    else ReadFrom(p, i + 1, e)
  }

  /** What the system may answer: events for each entry but none for dead ones, reads of at least one and
      at most the missing bytes. */
  predicate LegalEvents(conns: seq<Conn>, e: Events) {
    && |e.revents| == |e.results| == |conns|
    && (forall i :: 0 <= i < |conns| && conns[i].fd < 0 ==> e.revents[i] == 0)
    && (forall i :: 0 <= i < |conns| && e.results[i].Data? ==>
          0 < |e.results[i].chunk| <= Missing(conns[i].holder.held))
  }

  function Welcome(p: Pool, e: Events): Pool {
    if EventOf(e, 0) % 2 == 1 && p.accepting then Accept(p, e.accepted) else p
  }

  /** Checks every deserializer before any read; the first bad one ends the iteration. */
  function ReadAllReady(p: Pool, e: Events): Pool
    requires |e.results| >= |e.revents|
  {
    var k := FirstInvalid(p.conns, 1);
    if k < |p.conns| then Negate(p, k) else ReadFrom(p, 1, e)
  }

  /** One iteration. */
  function Poll(p: Pool, e: Events): Pool
    requires LegalEvents(Cleanup(p.conns), e)
  {
    var clean := p.(conns := Cleanup(p.conns));
    if e.ready <= 0 then clean
    else ReadAllReady(Welcome(clean, e), e)
  }

  /** Between iterations the main loop may stop accepting connections. */
  datatype Turn = Iteration(e: Events) | StopAccepting

  predicate LegalTurns(fd: int, turns: seq<Turn>)
    decreases |turns|, 0
  {
    turns != [] ==>
      var n := |turns| - 1;
      && LegalTurns(fd, turns[..n])
      && (turns[n].Iteration? ==> LegalEvents(Cleanup(PollRun(fd, turns[..n]).conns), turns[n].e))
  }

  function PollRun(fd: int, turns: seq<Turn>): Pool
    requires LegalTurns(fd, turns)
    decreases |turns|, 1
  {
    if turns == [] then NewPool(fd)
    else
      var n := |turns| - 1;
      var p := PollRun(fd, turns[..n]);
      match turns[n]
      case Iteration(e) => Poll(p, e)
      case StopAccepting => p.(accepting := false)
  }

  // ---------------------------------------------------------------------------
  // What every run keeps
  // ---------------------------------------------------------------------------

  /** The reads of one deserializer. */
  function Chunks(taken: seq<Took>, id: nat): seq<Bytes> {
    if taken == [] then []
    else
      var n := |taken| - 1;
      Chunks(taken[..n], id) + if taken[n].id == id then [taken[n].chunk] else []
  }

  /** The frames of one deserializer. */
  function Frames(handed: seq<Hand>, id: nat): seq<Bytes> {
    if handed == [] then []
    else
      var n := |handed| - 1;
      Frames(handed[..n], id) + if handed[n].id == id then [handed[n].frame] else []
  }

  /** A frame a worker may be given: whole, and marked with the magic code if it has a payload. */
  predicate Proper(frame: Bytes) {
    Whole(frame) && (|frame| > HEADER ==> Plausible(frame))
  }

  /** What deserializer `id` has given out and would now hold is what its own reads make of it. */
  ghost predicate Tracked(p: Pool, id: nat) {
    LegalReads(Chunks(p.taken, id)) && Frames(p.handed, id) == Deliver(Chunks(p.taken, id)).frames
  }

  ghost predicate Separate(conns: seq<Conn>, created: nat) {
    && (forall i, j :: 0 <= i < j < |conns| ==> conns[i].holder.id != conns[j].holder.id)
    && (forall i :: 0 <= i < |conns| ==> conns[i].holder.id < created)
  }

  ghost predicate InStepWith(conns: seq<Conn>, taken: seq<Took>) {
    forall i :: 0 <= i < |conns| ==> conns[i].holder.held == Deliver(Chunks(taken, conns[i].holder.id)).held
  }

  ghost predicate Sound(p: Pool) {
    && p.conns != [] && Separate(p.conns, p.created) && InStepWith(p.conns, p.taken)
    && (forall id: nat :: Tracked(p, id))
    && (forall id: nat :: id >= p.created ==> Chunks(p.taken, id) == [])
    && (forall h :: h in p.handed ==> Proper(h.frame))
  }

  lemma {:induction false} SweepSound(s: seq<Conn>, i: nat, created: nat, taken: seq<Took>)
    requires Separate(s, created) && InStepWith(s, taken)
    ensures Separate(Sweep(s, i), created) && InStepWith(Sweep(s, i), taken)
    decreases |s| - i
  {
    if i < |s| {
      SweepSound(if s[i].fd < 0 then DropAt(s, i) else s, i + 1, created, taken);
    }
  }

  lemma AcceptSound(p: Pool, fd: int)
    requires Sound(p)
    ensures Sound(Accept(p, fd))
  {
    var q := Accept(p, fd);
    assert forall id: nat :: Tracked(p, id) ==> Tracked(q, id);
    if fd >= 0 {
      assert Chunks(p.taken, p.created) == [];
      NewcomerInStep(p.conns, p.taken, Conn(fd, Holder(p.created, [])));
      NewcomerSeparate(p.conns, p.created, fd);
    }
  }

  lemma NewcomerInStep(conns: seq<Conn>, taken: seq<Took>, c: Conn)
    requires InStepWith(conns, taken) && Chunks(taken, c.holder.id) == [] && c.holder.held == []
    ensures InStepWith(conns + [c], taken)
  {
    forall i | 0 <= i < |conns + [c]|
      ensures (conns + [c])[i].holder.held == Deliver(Chunks(taken, (conns + [c])[i].holder.id)).held
    {
      if i < |conns| {
        assert (conns + [c])[i] == conns[i];
      }
    }
  }

  lemma NewcomerSeparate(conns: seq<Conn>, created: nat, fd: int)
    requires Separate(conns, created)
    ensures Separate(conns + [Conn(fd, Holder(created, []))], created + 1)
  {
  }

  /** Changing a descriptor alone changes nothing about the deserializers. */
  lemma DescriptorSound(p: Pool, i: nat, fd: int)
    requires Sound(p) && i < |p.conns|
    ensures Sound(p.(conns := p.conns[i := p.conns[i].(fd := fd)]))
  {
    var q := p.(conns := p.conns[i := p.conns[i].(fd := fd)]);
    assert forall id: nat :: Tracked(p, id) ==> Tracked(q, id);
  }

  lemma ChunksTake(taken: seq<Took>, t: Took, id: nat)
    ensures Chunks(taken + [t], id) == if t.id == id then Chunks(taken, id) + [t.chunk] else Chunks(taken, id)
  {
    assert (taken + [t])[..|taken|] == taken;
  }

  lemma FramesHand(handed: seq<Hand>, h: Hand, id: nat)
    ensures Frames(handed + [h], id) == if h.id == id then Frames(handed, id) + [h.frame] else Frames(handed, id)
  {
    assert (handed + [h])[..|handed|] == handed;
  }

  /** A frame completed by a read into a plausible buffer is proper: the bytes after the header come in a
      later read than the header, and the header was checked in between. */
  lemma CompletedFrame(held: Bytes, chunk: Bytes)
    requires Partial(held) && Plausible(held) && 0 < |chunk| <= Missing(held) && Missing(held + chunk) == 0
    ensures Proper(held + chunk)
  {
    FedBuffer(held, chunk);
    MissingExact(held);
    if |held| >= HEADER {
      assert (held + chunk)[..8] == held[..8];
    }
  }

  lemma DeliverNext(before: seq<Bytes>, chunk: Bytes)
    requires LegalReads(before) && 0 < |chunk| <= Missing(Deliver(before).held)
    ensures LegalReads(before + [chunk]) && Deliver(before + [chunk]) == Feed(Deliver(before), chunk)
  {
    assert (before + [chunk])[..|before|] == before;
  }

  /** The reader's own deserializer after a read. */
  lemma OwnTracked(p: Pool, i: nat, chunk: Bytes)
    requires i < |p.conns| && 0 < |chunk| <= Missing(p.conns[i].holder.held)
    requires Tracked(p, p.conns[i].holder.id)
    requires p.conns[i].holder.held == Deliver(Chunks(p.taken, p.conns[i].holder.id)).held
    ensures
      var q, id := ReadOne(p, i, Data(chunk)), p.conns[i].holder.id;
      Tracked(q, id) && q.conns[i].holder.held == Deliver(Chunks(q.taken, id)).held
  {
    var h := p.conns[i].holder;
    ChunksTake(p.taken, Took(h.id, chunk), h.id);
    DeliverNext(Chunks(p.taken, h.id), chunk);
    FeedParts(Deliver(Chunks(p.taken, h.id)), chunk);
    FramesAfter(p.handed, h.id, p.conns[i].fd, Feed(Progress([], h.held), chunk).frames);
  }

  lemma FramesAfter(handed: seq<Hand>, id: nat, fd: int, frames: seq<Bytes>)
    requires |frames| <= 1
    ensures Frames(handed + (if frames == [] then [] else [Hand(id, fd, frames[0])]), id) == Frames(handed, id) + frames
  {
    if frames != [] {
      FramesHand(handed, Hand(id, fd, frames[0]), id);
    } else {
      assert handed + [] == handed;
    }
  }

  lemma FeedParts(p: Progress, chunk: Bytes)
    ensures
      var q := Feed(Progress([], p.held), chunk);
      && |q.frames| <= 1 && Feed(p, chunk) == Progress(p.frames + q.frames, q.held)
  {
    assert p.frames + [] == p.frames;
  }

  /** Every other deserializer after a read. */
  lemma OthersTracked(p: Pool, i: nat, chunk: Bytes, id: nat)
    requires i < |p.conns| && id != p.conns[i].holder.id && Tracked(p, id)
    ensures
      var q := ReadOne(p, i, Data(chunk));
      Tracked(q, id) && Chunks(q.taken, id) == Chunks(p.taken, id)
  {
    var h := p.conns[i].holder;
    ChunksTake(p.taken, Took(h.id, chunk), id);
    FramesHand(p.handed, Hand(h.id, p.conns[i].fd, h.held + chunk), id);
    assert p.handed + [] == p.handed;
  }

  /** After a read every deserializer is tracked, and the others have read what they had. */
  lemma ReadOneTracked(p: Pool, i: nat, chunk: Bytes)
    requires Sound(p) && i < |p.conns| && 0 < |chunk| <= Missing(p.conns[i].holder.held)
    ensures
      var q, own := ReadOne(p, i, Data(chunk)), p.conns[i].holder.id;
      && (forall id: nat :: Tracked(q, id))
      && (forall id: nat :: id != own ==> Chunks(q.taken, id) == Chunks(p.taken, id))
      && q.conns[i].holder.held == Deliver(Chunks(q.taken, own)).held
  {
    var q, own := ReadOne(p, i, Data(chunk)), p.conns[i].holder.id;
    assert Tracked(p, own);
    OwnTracked(p, i, chunk);
    forall id: nat | id != own
      ensures Tracked(q, id) && Chunks(q.taken, id) == Chunks(p.taken, id)
    {
      assert Tracked(p, id);
      OthersTracked(p, i, chunk, id);
    }
  }

  lemma ReadOneHistory(p: Pool, i: nat, chunk: Bytes)
    requires Sound(p) && i < |p.conns| && 0 < |chunk| <= Missing(p.conns[i].holder.held)
    ensures
      var q := ReadOne(p, i, Data(chunk));
      && (forall id: nat :: Tracked(q, id))
      && (forall id: nat :: id >= q.created ==> Chunks(q.taken, id) == [])
  {
    ReadOneTracked(p, i, chunk);
  }

  lemma ReadOneSeparate(p: Pool, i: nat, chunk: Bytes)
    requires Separate(p.conns, p.created) && i < |p.conns|
    ensures Separate(ReadOne(p, i, Data(chunk)).conns, ReadOne(p, i, Data(chunk)).created)
  {
    var q := ReadOne(p, i, Data(chunk));
    assert forall j :: 0 <= j < |q.conns| ==> q.conns[j].holder.id == p.conns[j].holder.id;
  }

  /** After a read every connection is in step with its own deserializer. */
  lemma ReadOneInStep(p: Pool, i: nat, chunk: Bytes)
    requires Sound(p) && i < |p.conns| && 0 < |chunk| <= Missing(p.conns[i].holder.held)
    ensures InStepWith(ReadOne(p, i, Data(chunk)).conns, ReadOne(p, i, Data(chunk)).taken)
  {
    var q := ReadOne(p, i, Data(chunk));
    ReadOneTracked(p, i, chunk);
    forall j | 0 <= j < |q.conns|
      ensures q.conns[j].holder.held == Deliver(Chunks(q.taken, q.conns[j].holder.id)).held
    {
      if j != i {
        assert q.conns[j] == p.conns[j] && p.conns[j].holder.id != p.conns[i].holder.id;
      }
    }
  }

  lemma ReadOneProper(p: Pool, i: nat, chunk: Bytes)
    requires i < |p.conns| && 0 < |chunk| <= Missing(p.conns[i].holder.held)
    requires Plausible(p.conns[i].holder.held) && Partial(p.conns[i].holder.held)
    requires forall h :: h in p.handed ==> Proper(h.frame)
    ensures forall h :: h in ReadOne(p, i, Data(chunk)).handed ==> Proper(h.frame)
  {
    var held := p.conns[i].holder.held;
    if Missing(held + chunk) == 0 {
      CompletedFrame(held, chunk);
    }
  }

  lemma ReadOneSound(p: Pool, i: nat, chunk: Bytes)
    requires Sound(p) && i < |p.conns| && 0 < |chunk| <= Missing(p.conns[i].holder.held)
    requires Plausible(p.conns[i].holder.held)
    ensures Sound(ReadOne(p, i, Data(chunk)))
  {
    var id := p.conns[i].holder.id;
    assert Tracked(p, id);
    DeliverInStep(Chunks(p.taken, id));
    ReadOneHistory(p, i, chunk);
    ReadOneInStep(p, i, chunk);
    ReadOneSeparate(p, i, chunk);
    ReadOneProper(p, i, chunk);
  }

  /** The entries from `i` on still hold what was checked and asked for. */
  ghost predicate Unread(p: Pool, i: nat, e: Events) {
    && |e.results| == |e.revents| <= |p.conns|
    && forall j :: i <= j < |e.revents| ==>
         && Plausible(p.conns[j].holder.held)
         && (e.results[j].Data? ==> 0 < |e.results[j].chunk| <= Missing(p.conns[j].holder.held))
  }

  lemma StillUnread(p: Pool, i: nat, e: Events)
    requires Unread(p, i, e) && i < |e.revents|
    ensures Unread(ReadOne(p, i, e.results[i]), i + 1, e)
  {
    var q := ReadOne(p, i, e.results[i]);
    assert forall j :: 0 <= j < |p.conns| && j != i ==> q.conns[j] == p.conns[j];
  }

  lemma {:induction false} ReadFromSound(p: Pool, i: nat, e: Events)
    requires Sound(p) && Unread(p, i, e)
    ensures Sound(ReadFrom(p, i, e))
    decreases |p.conns| - i
  {
    if i < |p.conns| {
      if EventOf(e, i) > 0 && EventOf(e, i) != POLLIN {
        DescriptorSound(p, i, -p.conns[i].fd);
      } else if EventOf(e, i) == POLLIN {
        ServeSound(p, i, e);
        ReadFromSound(ReadOne(p, i, e.results[i]), i + 1, e);
      } else {
        ReadFromSound(p, i + 1, e);
      }
    }
  }

  /** A connection with something to read. */
  lemma ServeSound(p: Pool, i: nat, e: Events)
    requires Sound(p) && Unread(p, i, e) && i < |e.revents|
    ensures
      var q := ReadOne(p, i, e.results[i]);
      Sound(q) && Unread(q, i + 1, e) && |q.conns| == |p.conns|
  {
    StillUnread(p, i, e);
    if e.results[i].Data? {
      ReadOneSound(p, i, e.results[i].chunk);
    } else {
      DescriptorSound(p, i, -1);
    }
  }

  lemma CleanupSound(p: Pool)
    requires Sound(p)
    ensures Sound(p.(conns := Cleanup(p.conns)))
  {
    SweepSound(p.conns, 1, p.created, p.taken);
    SweepPrefix(p.conns, 1);
    var clean := p.(conns := Cleanup(p.conns));
    assert forall id: nat :: Tracked(p, id) ==> Tracked(clean, id);
  }

  lemma ReadAllReadySound(p: Pool, e: Events)
    requires Sound(p) && |e.results| == |e.revents| <= |p.conns|
    requires forall i :: 0 <= i < |e.revents| && e.results[i].Data? ==>
               0 < |e.results[i].chunk| <= Missing(p.conns[i].holder.held)
    ensures Sound(ReadAllReady(p, e))
  {
    var k := FirstInvalid(p.conns, 1);
    if k < |p.conns| {
      DescriptorSound(p, k, -p.conns[k].fd);
    } else {
      ReadFromSound(p, 1, e);
    }
  }

  lemma PollSound(p: Pool, e: Events)
    requires Sound(p) && LegalEvents(Cleanup(p.conns), e)
    ensures Sound(Poll(p, e))
  {
    CleanupSound(p);
    if e.ready > 0 {
      var clean := p.(conns := Cleanup(p.conns));
      AcceptSound(clean, e.accepted);
      ReadAllReadySound(Welcome(clean, e), e);
    }
  }

  lemma {:induction false} PollRunSound(fd: int, turns: seq<Turn>)
    requires LegalTurns(fd, turns)
    ensures Sound(PollRun(fd, turns))
  {
    if turns == [] {
      var p := NewPool(fd);
      assert forall id: nat :: Tracked(p, id);
    } else {
      var n := |turns| - 1;
      PollRunSound(fd, turns[..n]);
      var p := PollRun(fd, turns[..n]);
      match turns[n]
      case Iteration(e) => PollSound(p, e);
      case StopAccepting =>
        assert forall id: nat :: Tracked(p, id) ==> Tracked(p.(accepting := false), id);
    }
  }

  /** Over every run of the poll loop, whatever connects, dies, is swapped about and arrives in whatever
      pieces: the frames handed over for each deserializer are those of cutting the stream of its own
      reads, each connection still there holds the rest of its own stream and asks for at least one byte,
      and every frame is whole and begins with the magic code if it is longer than a header. */
  lemma PollRunFrames(fd: int, turns: seq<Turn>)
    requires LegalTurns(fd, turns)
    ensures
      var p := PollRun(fd, turns);
      && (forall id: nat :: Frames(p.handed, id) == Cut(Flatten(Chunks(p.taken, id))).frames)
      && (forall c :: c in p.conns ==>
            c.holder.held == Cut(Flatten(Chunks(p.taken, c.holder.id))).held && Missing(c.holder.held) > 0)
      && (forall h :: h in p.handed ==> Proper(h.frame))
  {
    PollRunSound(fd, turns);
    var p := PollRun(fd, turns);
    forall id: nat
      ensures Deliver(Chunks(p.taken, id)) == Cut(Flatten(Chunks(p.taken, id)))
      ensures Missing(Deliver(Chunks(p.taken, id)).held) > 0
      ensures Frames(p.handed, id) == Cut(Flatten(Chunks(p.taken, id))).frames
    {
      assert Tracked(p, id);
      ChunkingIrrelevant(Chunks(p.taken, id));
    }
  }

  /** From client to workers: if what one connection sent is a series of requests one after another, then
      after any run of the poll loop that has read it all, in whatever pieces and among whatever other
      connections, the frames handed over for it are read by the workers as exactly those requests. */
  lemma RequestsReachWorkers(fd: int, turns: seq<Turn>, id: nat, rs: seq<Request>)
    requires LegalTurns(fd, turns) && forall r :: r in rs ==> Sendable(r)
    ensures
      var frames := Frames(PollRun(fd, turns).handed, id);
      Flatten(Chunks(PollRun(fd, turns).taken, id)) == Flatten(EncodeAll(rs)) ==>
        (forall f :: f in frames ==> |f| >= HEADER) && DecodeAll(frames) == rs
  {
    PollRunSound(fd, turns);
    var p := PollRun(fd, turns);
    assert Tracked(p, id);
    if Flatten(Chunks(p.taken, id)) == Flatten(EncodeAll(rs)) {
      ConversationRoundTrip(rs, Chunks(p.taken, id));
    }
  }

  /** The workers' fatal check of the header never fires on what the poll loop hands them. */
  lemma WorkersNeverDie(fd: int, turns: seq<Turn>, h: Hand)
    requires LegalTurns(fd, turns) && h in PollRun(fd, turns).handed && |h.frame| < TWO_64
    ensures |h.frame| >= HEADER && DecodeFrame(h.frame) != Fatal
  {
    PollRunSound(fd, turns);
    NeverFatalHeader(h.frame);
  }

  /** A connection that failed the check is marked by changing the sign of its descriptor. If it was
      already marked and the cleanup passed over it, it is live again: after an iteration that finds an
      invalid connection, that connection is dead exactly when it was not before. */
  lemma MarkingExactly(p: Pool, e: Events)
    requires LegalEvents(Cleanup(p.conns), e) && e.ready > 0
    requires var k := FirstInvalid(Welcome(p.(conns := Cleanup(p.conns)), e).conns, 1);
      k < |Cleanup(p.conns)| && Cleanup(p.conns)[k].fd != 0
    ensures
      var before, k := Cleanup(p.conns), FirstInvalid(Welcome(p.(conns := Cleanup(p.conns)), e).conns, 1);
      && Poll(p, e).handed == p.handed && Poll(p, e).taken == p.taken
      && (Poll(p, e).conns[k].fd < 0 <==> before[k].fd >= 0)
  {
  }

  // ---------------------------------------------------------------------------
  // A dropped connection that comes back
  // ---------------------------------------------------------------------------

  lemma PollOn(fd: int, turns: seq<Turn>, e: Events)
    requires LegalTurns(fd, turns) && LegalEvents(Cleanup(PollRun(fd, turns).conns), e)
    ensures LegalTurns(fd, turns + [Iteration(e)])
    ensures PollRun(fd, turns + [Iteration(e)]) == Poll(PollRun(fd, turns), e)
  {
    assert (turns + [Iteration(e)])[..|turns|] == turns;
  }

  lemma {:induction false} NothingToSweep(s: seq<Conn>, i: nat)
    requires forall k :: i <= k < |s| ==> s[k].fd >= 0
    ensures Sweep(s, i) == s
    decreases |s| - i
  {
    if i < |s| {
      NothingToSweep(s, i + 1);
    }
  }

  lemma {:induction false} NothingToRead(p: Pool, i: nat, e: Events)
    requires |e.results| >= |e.revents| && forall k :: i <= k < |p.conns| ==> EventOf(e, k) == 0
    ensures ReadFrom(p, i, e) == p
    decreases |p.conns| - i
  {
    if i < |p.conns| {
      NothingToRead(p, i + 1, e);
    }
  }

  /** Only the listening socket has an event, and `accept` returns `fd`. */
  function Knock(n: nat, fd: int): Events {
    Events(1, seq(n, i => if i == 0 then 1 else 0), fd, seq(n, _ => Eof))
  }

  /** An iteration that accepts a connection while all are live and hold nothing. */
  lemma KnockAccepts(p: Pool, fd: int)
    requires p.conns != [] && p.accepting && fd >= 0
    requires forall k :: 0 <= k < |p.conns| ==> p.conns[k].fd >= 0 && p.conns[k].holder.held == []
    ensures LegalEvents(Cleanup(p.conns), Knock(|p.conns|, fd)) && Poll(p, Knock(|p.conns|, fd)) == Accept(p, fd)
  {
    var e := Knock(|p.conns|, fd);
    NothingToSweep(p.conns, 1);
    var q := Accept(p, fd);
    assert FirstInvalid(q.conns, 1) == |q.conns|;
    NothingToRead(q, 1, e);
  }

  /** The state of the example: three clients have connected, and are where `one`, `two`, `three` say. */
  function Three(one: Conn, two: Conn, three: Conn, taken: seq<Took>): Pool {
    Pool([Conn(3, Holder(0, [])), one, two, three], true, 4, taken, [])
  }

  lemma ThreeConnect() returns (turns: seq<Turn>)
    ensures LegalTurns(3, turns)
    ensures PollRun(3, turns) == Three(Conn(5, Holder(1, [])), Conn(6, Holder(2, [])), Conn(7, Holder(3, [])), [])
  {
    var p0 := NewPool(3);
    var p1, p2 := Accept(p0, 5), Accept(Accept(p0, 5), 6);
    turns := [];
    turns := Connected(turns, p0, 5);
    assert p1.conns == [Conn(3, Holder(0, [])), Conn(5, Holder(1, []))];
    turns := Connected(turns, p1, 6);
    assert p2.conns == [Conn(3, Holder(0, [])), Conn(5, Holder(1, [])), Conn(6, Holder(2, []))];
    turns := Connected(turns, p2, 7);
  }

  lemma Connected(turns: seq<Turn>, p: Pool, fd: int) returns (more: seq<Turn>)
    requires LegalTurns(3, turns) && PollRun(3, turns) == p && p.conns != [] && p.accepting && fd >= 0
    requires forall k :: 0 <= k < |p.conns| ==> p.conns[k].fd >= 0 && p.conns[k].holder.held == []
    ensures LegalTurns(3, more) && PollRun(3, more) == Accept(p, fd)
  {
    var e := Knock(|p.conns|, fd);
    KnockAccepts(p, fd);
    PollOn(3, turns, e);
    more := turns + [Iteration(e)];
  }

  /** The first and the third hang up and the second sends eight bytes. */
  lemma BadBytes(bad: Bytes)
    requires |bad| == 8
    ensures
      var p := Three(Conn(5, Holder(1, [])), Conn(6, Holder(2, [])), Conn(7, Holder(3, [])), []);
      var e := Events(3, [0, 1, 1, 1], -1, [Eof, Eof, Data(bad), Eof]);
      && LegalEvents(Cleanup(p.conns), e)
      && Poll(p, e) == Three(Conn(-1, Holder(1, [])), Conn(6, Holder(2, bad)), Conn(-1, Holder(3, [])), [Took(2, bad)])
  {
    var p := Three(Conn(5, Holder(1, [])), Conn(6, Holder(2, [])), Conn(7, Holder(3, [])), []);
    var e := Events(3, [0, 1, 1, 1], -1, [Eof, Eof, Data(bad), Eof]);
    NothingToSweep(p.conns, 1);
    assert FirstInvalid(p.conns, 1) == 4;
    var p1 := ReadOne(p, 1, Eof);
    assert p1 == Three(Conn(-1, Holder(1, [])), Conn(6, Holder(2, [])), Conn(7, Holder(3, [])), []);
    var p2 := ReadOne(p1, 2, Data(bad));
    assert [] + bad == bad;
    assert p2 == Three(Conn(-1, Holder(1, [])), Conn(6, Holder(2, bad)), Conn(7, Holder(3, [])), [Took(2, bad)]);
    var p3 := ReadOne(p2, 3, Eof);
    assert p3 == Three(Conn(-1, Holder(1, [])), Conn(6, Holder(2, bad)), Conn(-1, Holder(3, [])), [Took(2, bad)]);
    assert ReadFrom(p3, 4, e) == p3 && ReadFrom(p2, 3, e) == p3 && ReadFrom(p1, 2, e) == p3;
  }

  /** The cleanup drops the first client and puts the third, also dead, in its place; the second is found
      invalid and marked. */
  lemma Marked(bad: Bytes)
    requires |bad| == 8 && !Plausible(bad)
    ensures
      var p := Three(Conn(-1, Holder(1, [])), Conn(6, Holder(2, bad)), Conn(-1, Holder(3, [])), [Took(2, bad)]);
      && LegalEvents(Cleanup(p.conns), Knock(3, -1))
      && Poll(p, Knock(3, -1)).conns == [Conn(3, Holder(0, [])), Conn(-1, Holder(3, [])), Conn(-6, Holder(2, bad))]
  {
    var p := Three(Conn(-1, Holder(1, [])), Conn(6, Holder(2, bad)), Conn(-1, Holder(3, [])), [Took(2, bad)]);
    var s := [Conn(3, Holder(0, [])), Conn(-1, Holder(3, [])), Conn(6, Holder(2, bad))];
    assert DropAt(p.conns, 1) == s;
    NothingToSweep(s, 2);
    assert Cleanup(p.conns) == s;
    assert FirstInvalid(s, 1) == 2;
  }

  /** The cleanup puts the marked client in the place of the dead one and does not look at it again; it is
      still invalid, and marking it once more makes it live. */
  lemma Unmarked(p: Pool, bad: Bytes)
    requires |bad| == 8 && !Plausible(bad)
    requires p.conns == [Conn(3, Holder(0, [])), Conn(-1, Holder(3, [])), Conn(-6, Holder(2, bad))]
    ensures LegalEvents(Cleanup(p.conns), Knock(2, -1))
    ensures Poll(p, Knock(2, -1)).conns == [Conn(3, Holder(0, [])), Conn(6, Holder(2, bad))]
  {
    var s := [Conn(3, Holder(0, [])), Conn(-6, Holder(2, bad))];
    assert DropAt(p.conns, 1) == s;
    assert Sweep(s, 2) == s;
    assert Cleanup(p.conns) == s;
    assert FirstInvalid(s, 1) == 1;
  }

  /** A run of six iterations at whose end a connection that had been dropped for what it sent is live. */
  lemma DroppedComesBack(bad: Bytes) returns (turns: seq<Turn>, last: Turn)
    requires |bad| == 8 && !Plausible(bad)
    ensures LegalTurns(3, turns) && LegalTurns(3, turns + [last])
    ensures Conn(-6, Holder(2, bad)) in PollRun(3, turns).conns
    ensures Conn(6, Holder(2, bad)) in PollRun(3, turns + [last]).conns
  {
    turns := ThreeConnect();
    var e := Events(3, [0, 1, 1, 1], -1, [Eof, Eof, Data(bad), Eof]);
    BadBytes(bad);
    PollOn(3, turns, e);
    turns := turns + [Iteration(e)];
    Marked(bad);
    PollOn(3, turns, Knock(3, -1));
    turns := turns + [Iteration(Knock(3, -1))];
    var p := PollRun(3, turns);
    assert p.conns[2] == Conn(-6, Holder(2, bad));
    Unmarked(p, bad);
    PollOn(3, turns, Knock(2, -1));
    last := Iteration(Knock(2, -1));
    assert PollRun(3, turns + [last]).conns[1] == Conn(6, Holder(2, bad));
  }

  // ---------------------------------------------------------------------------
  // The object
  // ---------------------------------------------------------------------------

  function Zip(fds: seq<int>, holders: seq<Holder>): seq<Conn>
    requires |fds| == |holders|
  {
    seq(|fds|, i requires 0 <= i < |fds| => Conn(fds[i], holders[i]))
  }

  class Receiver {
    var sockets: array<int>
    var deserializers: array<Holder>
    var count: nat
    var accepting: bool
    var created: nat
    ghost var taken: seq<Took>
    ghost var handed: seq<Hand>

    ghost predicate Valid()
      reads this
    {
      sockets.Length == deserializers.Length && 1 <= count <= sockets.Length
    }

    ghost function Conns(): (s: seq<Conn>)
      requires Valid()
      reads this, sockets, deserializers
      ensures |s| == count
    {
      Zip(sockets[..count], deserializers[..count])
    }

    ghost function View(): Pool
      requires Valid()
      reads this, sockets, deserializers
    {
      Pool(Conns(), accepting, created, taken, handed)
    }

    constructor (fd: int)
      ensures Valid() && fresh(sockets) && fresh(deserializers) && View() == NewPool(fd)
    {
      sockets := new int[1](_ => fd);
      deserializers := new Holder[1](_ => Holder(0, []));
      count, accepting, created, taken, handed := 1, true, 1, [], [];
    }

    /** The last entry of both arrays over entry `i`. */
    method DropEntry(i: nat)
      requires Valid() && 1 <= i < count
      modifies `count, sockets, deserializers
      ensures Valid() && count == old(count) - 1 && Conns() == DropAt(old(Conns()), i)
    {
      sockets[i] := sockets[count - 1];
      deserializers[i] := deserializers[count - 1];
      count := count - 1;
    }

    /** Removes dead connections in place, in both arrays at once. */
    method RemoveDead()
      requires Valid()
      modifies `count, sockets, deserializers
      ensures Valid() && Conns() == Cleanup(old(Conns()))
    {
      var i := 1;
      while i < count
        invariant Valid() && Sweep(Conns(), i) == Cleanup(old(Conns()))
        decreases count - i
      {
        if sockets[i] < 0 {
          DropEntry(i);
        }
        i := i + 1;
      }
    }

    /** A new connection at the end of both arrays, unless `accept` failed. */
    method AddConnection(fd: int)
      requires Valid()
      modifies `sockets, `deserializers, `count, `created
      ensures Valid() && View() == Accept(old(View()), fd)
      ensures fd >= 0 ==> fresh(sockets) && fresh(deserializers)
      ensures fd < 0 ==> sockets == old(sockets) && deserializers == old(deserializers)
    {
      if fd < 0 {
        return;
      }
      ghost var s := Conns();
      var fds, holders, holder := sockets[..count] + [fd], deserializers[..count], Holder(created, []);
      holders := holders + [holder];
      sockets := new int[count + 1](i requires 0 <= i < |fds| => fds[i]);
      deserializers := new Holder[count + 1](i requires 0 <= i < |holders| => holders[i]);
      count, created := count + 1, created + 1;
      assert Conns() == s + [Conn(fd, holder)];
    }

    method FirstBad() returns (k: nat)
      requires Valid()
      ensures k == FirstInvalid(Conns(), 1)
    {
      k := 1;
      while k < count
        invariant 1 <= k <= count && FirstInvalid(Conns(), k) == FirstInvalid(Conns(), 1)
      {
        if !Plausible(deserializers[k].held) {
          return;
        }
        k := k + 1;
      }
    }

    method SetDescriptor(i: nat, fd: int)
      requires Valid() && i < count
      modifies sockets
      ensures Valid() && Conns() == old(Conns())[i := old(Conns())[i].(fd := fd)]
    {
      sockets[i] := fd;
    }

    method SetHolder(i: nat, holder: Holder)
      requires Valid() && i < count
      modifies deserializers
      ensures Valid() && Conns() == old(Conns())[i := old(Conns())[i].(holder := holder)]
    {
      deserializers[i] := holder;
    }

    /** One readable connection. */
    method Serve(i: nat, result: ReadResult)
      requires Valid() && i < count
      modifies sockets, deserializers, `taken, `handed
      ensures Valid() && View() == ReadOne(old(View()), i, result)
    {
      match result {
      case Data(chunk) =>
        var h := deserializers[i];
        var buf := h.held + chunk;
        taken := taken + [Took(h.id, chunk)];
        if Missing(buf) > 0 {
          SetHolder(i, Holder(h.id, buf));
        } else {
          SetHolder(i, Holder(h.id, []));
          handed := handed + [Hand(h.id, sockets[i], buf)];
        }
      case _ =>
        SetDescriptor(i, -1);
      }
    }

    /** The loop over the connections with events. */
    method ServeReady(e: Events)
      requires Valid() && |e.results| >= |e.revents|
      modifies sockets, deserializers, `taken, `handed
      ensures Valid() && View() == ReadFrom(old(View()), 1, e)
    {
      for i := 1 to count
        invariant Valid() && count == old(count) && sockets == old(sockets) && deserializers == old(deserializers)
        invariant ReadFrom(View(), i, e) == ReadFrom(old(View()), 1, e)
      {
        var event := if i < |e.revents| then e.revents[i] else 0;
        if event > 0 && event != POLLIN {
          SetDescriptor(i, -sockets[i]);
          return;
        } else if event == POLLIN {
          Serve(i, e.results[i]);
        }
      }
    }

    /** The check of all deserializers, and the reads if they pass. */
    method CheckAndServe(e: Events)
      requires Valid() && |e.results| >= |e.revents|
      modifies sockets, deserializers, `taken, `handed
      ensures Valid() && View() == ReadAllReady(old(View()), e)
    {
      var k := FirstBad();
      if k < count {
        SetDescriptor(k, -sockets[k]);
      } else {
        ServeReady(e);
      }
    }

    /** One iteration of the poll loop. */
    method PollOnce(e: Events) returns (r: int)
      requires Valid() && LegalEvents(Cleanup(Conns()), e)
      modifies this, sockets, deserializers
      ensures Valid() && View() == Poll(old(View()), e)
      ensures r == (if e.ready < 0 then -1 else 0)
    {
      RemoveDead();
      if e.ready < 0 {
        return -1;
      } else if e.ready == 0 {
        return 0;
      }
      if e.revents[0] % 2 == 1 && accepting {
        AddConnection(e.accepted);
      }
      CheckAndServe(e);
      r := 0;
    }
  }
}
