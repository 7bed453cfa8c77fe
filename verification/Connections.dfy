/**
 Which descriptor goes with what: over every run of the poll loop, the frames handed to the workers carry
 the descriptor under which their sender was accepted, as read off the system's answers alone. And entry by
 entry, what one iteration does to every connection.
 */
module Connections {
  import opened Basics
  import opened Framing
  import opened Messages
  import opened Receivers

  // ---------------------------------------------------------------------------
  // Whose descriptor
  // ---------------------------------------------------------------------------

  /** The descriptors of the connections taken in, in order: what `accept` returned in each iteration that
      had an event on the listening socket, unless it failed or no more were wanted by then. */
  function Admitted(turns: seq<Turn>): seq<int> {
    if turns == [] then []
    else
      var n := |turns| - 1;
      var before := Admitted(turns[..n]);
      match turns[n]
      case Iteration(e) =>
        if e.ready > 0 && EventOf(e, 0) % 2 == 1 && e.accepted >= 0 && StopAccepting !in turns[..n]
        then before + [e.accepted]
        else before
      case StopAccepting => before
  }

  /** Deserializer 0 is the listening socket's, the others are those of the connections in order. */
  function OwnDescriptors(fd: int, turns: seq<Turn>): seq<int> {
    [fd] + Admitted(turns)
  }

  /** An entry has its own descriptor, or that one marked as dead, or the mark of a failed read; the last only
      if what it holds would pass the check. */
  ghost predicate Marked(c: Conn, own: int) {
    c.fd == own || c.fd == -own || (c.fd == -1 && Plausible(c.holder.held))
  }

  ghost predicate Addressed(p: Pool, own: seq<int>) {
    && p.created == |own| && (forall id :: 0 <= id < |own| ==> own[id] >= 0)
    && (forall i :: 0 <= i < |p.conns| ==> p.conns[i].holder.id < |own|)
    && (forall i :: 0 <= i < |p.conns| ==> Marked(p.conns[i], own[p.conns[i].holder.id]))
    && (forall h :: h in p.handed ==> h.id < |own| && h.fd == own[h.id])
  }

  /** From entry `i` on, dead entries have no events and what is held passes the check. */
  ghost predicate Ready(p: Pool, i: nat, e: Events) {
    && |e.results| == |e.revents| <= |p.conns|
    && forall j :: i <= j < |e.revents| ==>
         Plausible(p.conns[j].holder.held) && (p.conns[j].fd < 0 ==> e.revents[j] == 0)
  }

  lemma {:induction false} SweepFrom(s: seq<Conn>, i: nat)
    ensures forall k :: 0 <= k < |Sweep(s, i)| ==> Sweep(s, i)[k] in s
    decreases |s| - i
  {
    if i < |s| {
      var t := if s[i].fd < 0 then DropAt(s, i) else s;
      SweepFrom(t, i + 1);
      assert forall c :: c in t ==> c in s;
    }
  }

  lemma CleanupAddressed(p: Pool, own: seq<int>)
    requires Addressed(p, own)
    ensures Addressed(p.(conns := Cleanup(p.conns)), own)
  {
    SweepFrom(p.conns, 1);
    forall k | 0 <= k < |Cleanup(p.conns)|
      ensures Cleanup(p.conns)[k].holder.id < |own| && Marked(Cleanup(p.conns)[k], own[Cleanup(p.conns)[k].holder.id])
    {
      var i :| 0 <= i < |p.conns| && p.conns[i] == Cleanup(p.conns)[k];
    }
  }

  lemma AcceptAddressed(p: Pool, own: seq<int>, fd: int)
    requires Addressed(p, own) && fd >= 0
    ensures Addressed(Accept(p, fd), own + [fd])
  {
    var q := Accept(p, fd);
    forall i | 0 <= i < |q.conns|
      ensures q.conns[i].holder.id <= |own| && Marked(q.conns[i], (own + [fd])[q.conns[i].holder.id])
    {
      assert i < |p.conns| ==> q.conns[i] == p.conns[i];
    }
    assert forall h :: h in q.handed ==> (own + [fd])[h.id] == own[h.id];
  }

  /** Changing the sign of a descriptor, of an entry that is not marked by a failed read. */
  lemma NegateAddressed(p: Pool, own: seq<int>, i: nat)
    requires Addressed(p, own) && i < |p.conns| && (p.conns[i].fd >= 0 || !Plausible(p.conns[i].holder.held))
    ensures Addressed(Negate(p, i), own)
  {
  }

  lemma ReadOneAddressed(p: Pool, own: seq<int>, i: nat, result: ReadResult)
    requires Addressed(p, own) && i < |p.conns| && p.conns[i].fd >= 0 && Plausible(p.conns[i].holder.held)
    ensures Addressed(ReadOne(p, i, result), own)
  {
    assert p.conns[i].fd == own[p.conns[i].holder.id];
  }

  lemma {:induction false} ReadFromAddressed(p: Pool, own: seq<int>, i: nat, e: Events)
    requires Addressed(p, own) && Ready(p, i, e)
    ensures Addressed(ReadFrom(p, i, e), own)
    decreases |p.conns| - i
  {
    if i < |p.conns| {
      if EventOf(e, i) > 0 && EventOf(e, i) != POLLIN {
        NegateAddressed(p, own, i);
      } else if EventOf(e, i) == POLLIN {
        ReadOneAddressed(p, own, i, e.results[i]);
        ReadFromAddressed(ReadOne(p, i, e.results[i]), own, i + 1, e);
      } else {
        ReadFromAddressed(p, own, i + 1, e);
      }
    }
  }

  lemma ReadAllReadyAddressed(p: Pool, own: seq<int>, e: Events)
    requires Addressed(p, own) && |e.results| == |e.revents| <= |p.conns|
    requires forall j :: 0 <= j < |e.revents| && p.conns[j].fd < 0 ==> e.revents[j] == 0
    ensures Addressed(ReadAllReady(p, e), own)
  {
    var k := FirstInvalid(p.conns, 1);
    if k < |p.conns| {
      NegateAddressed(p, own, k);
    } else {
      ReadFromAddressed(p, own, 1, e);
    }
  }

  lemma PollAddressed(p: Pool, own: seq<int>, e: Events)
    requires Addressed(p, own) && LegalEvents(Cleanup(p.conns), e)
    ensures
      var admits := e.ready > 0 && EventOf(e, 0) % 2 == 1 && e.accepted >= 0 && p.accepting;
      Addressed(Poll(p, e), if admits then own + [e.accepted] else own)
  {
    var clean := p.(conns := Cleanup(p.conns));
    CleanupAddressed(p, own);
    if e.ready > 0 {
      var admits := EventOf(e, 0) % 2 == 1 && e.accepted >= 0 && p.accepting;
      if admits {
        AcceptAddressed(clean, own, e.accepted);
      }
      ReadAllReadyAddressed(Welcome(clean, e), if admits then own + [e.accepted] else own, e);
    }
  }

  lemma {:induction false} PollKeepsAccepting(p: Pool, i: nat, e: Events)
    requires |e.results| >= |e.revents|
    ensures ReadFrom(p, i, e).accepting == p.accepting
    decreases |p.conns| - i
  {
    if i < |p.conns| && (EventOf(e, i) == 0 || EventOf(e, i) == POLLIN) {
      PollKeepsAccepting(if EventOf(e, i) == POLLIN then ReadOne(p, i, e.results[i]) else p, i + 1, e);
    }
  }

  lemma {:induction false} RunAddressed(fd: int, turns: seq<Turn>)
    requires LegalTurns(fd, turns) && fd >= 0
    ensures Addressed(PollRun(fd, turns), OwnDescriptors(fd, turns))
    ensures PollRun(fd, turns).accepting <==> StopAccepting !in turns
  {
    if turns != [] {
      var n := |turns| - 1;
      RunAddressed(fd, turns[..n]);
      var p := PollRun(fd, turns[..n]);
      assert turns == turns[..n] + [turns[n]];
      match turns[n]
      case Iteration(e) =>
        PollAddressed(p, OwnDescriptors(fd, turns[..n]), e);
        PollKeepsAccepting(Welcome(p.(conns := Cleanup(p.conns)), e), 1, e);
        assert [fd] + (Admitted(turns[..n]) + [e.accepted]) == [fd] + Admitted(turns[..n]) + [e.accepted];
      case StopAccepting =>
    }
  }

  /** Over every run of the poll loop: as many deserializers are made as connections are taken in, none after
      the loop was told to stop accepting; every frame is handed over with the descriptor that `accept`
      returned for its sender; and every live connection still has its own. */
  lemma HandedToSender(fd: int, turns: seq<Turn>)
    requires LegalTurns(fd, turns) && fd >= 0
    ensures
      var p, own := PollRun(fd, turns), OwnDescriptors(fd, turns);
      && p.created == |own|
      && (forall h :: h in p.handed ==> h.id < |own| && h.fd == own[h.id])
      && (forall c :: c in p.conns && c.fd >= 0 ==> c.holder.id < |own| && c.fd == own[c.holder.id])
  {
    RunAddressed(fd, turns);
  }

  /** From client to workers and back: the requests a connection sent are the requests the workers read from
      its frames, and the descriptor they answer to is the one the connection was accepted under. */
  lemma RequestsReachWorkersOf(fd: int, turns: seq<Turn>, id: nat, rs: seq<Request>)
    requires LegalTurns(fd, turns) && fd >= 0 && forall r :: r in rs ==> Sendable(r)
    ensures
      var p, own := PollRun(fd, turns), OwnDescriptors(fd, turns);
      Flatten(Chunks(p.taken, id)) == Flatten(EncodeAll(rs)) ==>
        && (forall f :: f in Frames(p.handed, id) ==> |f| >= HEADER) && DecodeAll(Frames(p.handed, id)) == rs
        && (forall h :: h in p.handed && h.id == id ==> id < |own| && h.fd == own[id])
  {
    RequestsReachWorkers(fd, turns, id, rs);
    HandedToSender(fd, turns);
  }

  // ---------------------------------------------------------------------------
  // One iteration, entry by entry
  // ---------------------------------------------------------------------------

  /** The first entry from `i` on with an event other than readable, which ends the loop over the entries. */
  function FirstFault(e: Events, i: nat, n: nat): (k: nat)
    ensures i <= n ==> i <= k <= n
    ensures forall j :: i <= j < k && j < n ==> EventOf(e, j) == 0 || EventOf(e, j) == POLLIN
    ensures i <= k < n ==> EventOf(e, k) > 0 && EventOf(e, k) != POLLIN
    decreases n - i
  {
    if i >= n then n else if EventOf(e, i) > 0 && EventOf(e, i) != POLLIN then i else FirstFault(e, i + 1, n)
  }

  /** What becomes of an entry that is reached. */
  ghost predicate Handled(c: Conn, c': Conn, event: nat, result: ReadResult) {
    && c'.holder.id == c.holder.id
    && (event == 0 ==> c' == c)
    && (event > 0 && event != POLLIN ==> c'.fd == -c.fd && c'.holder == c.holder)
    && (event == POLLIN && !result.Data? ==> c'.fd == -1 && c'.holder == c.holder)
    && (event == POLLIN && result.Data? ==>
          var buf := c.holder.held + result.chunk;
          c'.fd == c.fd && c'.holder.held == if Missing(buf) > 0 then buf else [])
  }

  function ResultOf(e: Events, i: nat): ReadResult {
    if i < |e.results| then e.results[i] else Eof
  }

  lemma ReadOneHandled(p: Pool, i: nat, result: ReadResult)
    requires i < |p.conns|
    ensures Handled(p.conns[i], ReadOne(p, i, result).conns[i], POLLIN, result)
    ensures |ReadOne(p, i, result).conns| == |p.conns|
    ensures forall j :: 0 <= j < |p.conns| && j != i ==> ReadOne(p, i, result).conns[j] == p.conns[j]
  {
  }

  /** Every entry up to the first fault is handled, the fault too, and no other changes. */
  lemma {:induction false} ReadFromHandles(p: Pool, i: nat, e: Events)
    requires |e.results| >= |e.revents|
    ensures
      var q, k := ReadFrom(p, i, e), FirstFault(e, i, |p.conns|);
      && |q.conns| == |p.conns|
      && (forall j :: 0 <= j < |p.conns| && (j < i || k < j) ==> q.conns[j] == p.conns[j])
      && (forall j :: i <= j <= k && j < |p.conns| ==> Handled(p.conns[j], q.conns[j], EventOf(e, j), ResultOf(e, j)))
    decreases |p.conns| - i
  {
    if i < |p.conns| && (EventOf(e, i) == 0 || EventOf(e, i) == POLLIN) {
      if EventOf(e, i) == POLLIN {
        ReadOneHandled(p, i, e.results[i]);
        ReadFromHandles(ReadOne(p, i, e.results[i]), i + 1, e);
      } else {
        ReadFromHandles(p, i + 1, e);
      }
    }
  }

  /** The iteration takes a connection in. */
  predicate Admits(p: Pool, e: Events) {
    EventOf(e, 0) % 2 == 1 && e.accepted >= 0 && p.accepting
  }

  /** The entries after the cleanup and, if one is taken in, the new connection. */
  function Present(p: Pool, e: Events): seq<Conn> {
    Cleanup(p.conns) + if Admits(p, e) then [Conn(e.accepted, Holder(p.created, []))] else []
  }

  lemma PresentAtReads(p: Pool, e: Events)
    ensures
      var q := Welcome(p.(conns := Cleanup(p.conns)), e);
      q.conns == Present(p, e) && q.created == p.created + (if Admits(p, e) then 1 else 0) && q.taken == p.taken
  {
    assert Cleanup(p.conns) + [] == Cleanup(p.conns);
  }

  /** One iteration. If an entry present is invalid, the first such is marked and that is all. Otherwise each is
      handled in turn up to the first one with an error event, which is marked as dead and ends the iteration;
      a failed read kills its connection and only that. */
  lemma IterationExactly(p: Pool, e: Events)
    requires LegalEvents(Cleanup(p.conns), e) && e.ready > 0
    ensures
      var w, q := Present(p, e), Poll(p, e);
      var bad, fault := FirstInvalid(w, 1), FirstFault(e, 1, |w|);
      && |q.conns| == |w| && q.created == p.created + (if Admits(p, e) then 1 else 0)
      && (bad < |w| ==> q.conns == w[bad := w[bad].(fd := -w[bad].fd)])
      && (bad >= |w| ==>
            && (forall j :: 0 <= j < |w| && (j < 1 || fault < j) ==> q.conns[j] == w[j])
            && (forall j :: 1 <= j <= fault && j < |w| ==> Handled(w[j], q.conns[j], EventOf(e, j), ResultOf(e, j))))
  {
    PresentAtReads(p, e);
    var ready := Welcome(p.(conns := Cleanup(p.conns)), e);
    ReadFromHandles(ready, 1, e);
    ReadFromCreated(ready, 1, e);
  }

  lemma {:induction false} ReadFromCreated(p: Pool, i: nat, e: Events)
    requires |e.results| >= |e.revents|
    ensures ReadFrom(p, i, e).created == p.created
    decreases |p.conns| - i
  {
    if i < |p.conns| && (EventOf(e, i) == 0 || EventOf(e, i) == POLLIN) {
      ReadFromCreated(if EventOf(e, i) == POLLIN then ReadOne(p, i, e.results[i]) else p, i + 1, e);
    }
  }

  // ---------------------------------------------------------------------------
  // Nothing that was read is dropped
  // ---------------------------------------------------------------------------

  /** What the system gives to deserializer `id` in the loop over the entries from `i` on. */
  function Given(conns: seq<Conn>, i: nat, k: nat, e: Events, id: nat): seq<Bytes>
    decreases k - i
  {
    if i >= k || i >= |conns| then []
    else
      var r := ResultOf(e, i);
      (if conns[i].holder.id == id && EventOf(e, i) == POLLIN && r.Data? then [r.chunk] else [])
      + Given(conns, i + 1, k, e, id)
  }

  lemma {:induction false} GivenSame(conns: seq<Conn>, conns': seq<Conn>, i: nat, k: nat, e: Events, id: nat)
    requires |conns| == |conns'| && forall j :: i <= j < |conns| ==> conns'[j] == conns[j]
    ensures Given(conns', i, k, e, id) == Given(conns, i, k, e, id)
    decreases k - i
  {
    if i < k && i < |conns| {
      GivenSame(conns, conns', i + 1, k, e, id);
    }
  }

  lemma OneTakes(p: Pool, i: nat, result: ReadResult, id: nat)
    requires i < |p.conns|
    ensures Chunks(ReadOne(p, i, result).taken, id) ==
      Chunks(p.taken, id) + if p.conns[i].holder.id == id && result.Data? then [result.chunk] else []
  {
    if result.Data? {
      ChunksTake(p.taken, Took(p.conns[i].holder.id, result.chunk), id);
    }
  }

  /** Every chunk that a read returned before the first fault is taken by the deserializer of the connection it
      was read from. */
  lemma {:induction false} ReadFromTakes(p: Pool, i: nat, e: Events, id: nat)
    requires |e.results| >= |e.revents|
    ensures Chunks(ReadFrom(p, i, e).taken, id) ==
      Chunks(p.taken, id) + Given(p.conns, i, FirstFault(e, i, |p.conns|), e, id)
    decreases |p.conns| - i
  {
    if i < |p.conns| {
      if EventOf(e, i) == POLLIN {
        var q := ReadOne(p, i, e.results[i]);
        OneTakes(p, i, e.results[i], id);
        ReadFromTakes(q, i + 1, e, id);
        ReadOneHandled(p, i, e.results[i]);
        GivenSame(p.conns, q.conns, i + 1, FirstFault(e, i + 1, |p.conns|), e, id);
      } else if EventOf(e, i) == 0 {
        ReadFromTakes(p, i + 1, e, id);
      }
    }
  }

  /** So for a whole iteration, unless it finds something invalid and reads nothing. */
  lemma IterationTakes(p: Pool, e: Events, id: nat)
    requires LegalEvents(Cleanup(p.conns), e) && e.ready > 0
    ensures
      var w := Present(p, e);
      Chunks(Poll(p, e).taken, id) ==
        Chunks(p.taken, id) + if FirstInvalid(w, 1) < |w| then [] else Given(w, 1, FirstFault(e, 1, |w|), e, id)
  {
    PresentAtReads(p, e);
    ReadFromTakes(Welcome(p.(conns := Cleanup(p.conns)), e), 1, e, id);
  }
}
