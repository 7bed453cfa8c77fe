/**
 The workers' wait for messages and the shutdown handshake, as a step model: every worker pulls from its
 own queue under its mutex and condition variable, the main thread adds messages, raises the shutdown
 flag, signals every queue and joins the workers. A signal handler may raise the flag at any time, and a
 wait may end for no reason.
 */
module Handshakes {
  import opened Basics

  /** Where a worker is. It holds the mutex at Check, Test, Commit and Take; Commit is between reading the
      lowered flag and waiting; Woken is a wait that has ended and has to take the mutex again. */
  datatype Pc = Start | Check | Test | Commit | Waiting | Woken | Take | Handling | Exited

  datatype Owner = Nobody | Worker | MainThread

  /** One worker and its queue. */
  datatype Desk = Desk(pc: Pc, owner: Owner, queue: seq<nat>, pulled: seq<nat>)

  /** Where the main thread is: polling, adding a message (four steps), ringing every queue in turn
      (three steps each), joining every worker in turn. */
  datatype MainPc =
    | Polling
    | Locking(i: nat, msg: nat)
    | Linking(i: nat, msg: nat)
    | Signalling(i: nat)
    | Releasing(i: nat)
    | Ringing(i: nat)
    | RingLocked(i: nat)
    | RingReleasing(i: nat)
    | Joining(i: nat)
    | Done

  /** `interrupted` says that a signal handler, and not only the main thread, raised the flag. */
  datatype State = State(desks: seq<Desk>, main: MainPc, hard: bool, interrupted: bool)

  datatype Move = WorkerMove(i: nat) | MainMove | Hand(i: nat, msg: nat) | Shut | Wake(i: nat) | Interrupt

  function Opening(n: nat): State {
    State(seq(n, _ => Desk(Start, Nobody, [], [])), Polling, false, false)
  }

  /** The next step of a worker, if it can take one. */
  function WorkerNext(d: Desk, hard: bool): Option<Desk> {
    match d.pc
    case Start => if d.owner.Nobody? then Some(d.(pc := Check, owner := Worker)) else None
    case Check => Some(d.(pc := if d.queue == [] then Test else Take))
    case Test => Some(d.(pc := if hard then Take else Commit))
    case Commit => Some(d.(pc := Waiting, owner := Nobody))
    case Waiting => None
    case Woken => if d.owner.Nobody? then Some(d.(pc := Check, owner := Worker)) else None
    case Take =>
      if d.queue == [] then Some(d.(pc := Exited, owner := Nobody))
      else Some(Desk(Handling, Nobody, d.queue[1..], d.pulled + [d.queue[0]]))
    case Handling => Some(d.(pc := Start))
    case Exited => None
  }

  /** A signal ends the wait of the queue's only consumer. */
  function Signalled(d: Desk): Desk {
    if d.pc.Waiting? then d.(pc := Woken) else d
  }

  function Next(s: State, i: nat, d: Desk, main: MainPc): Option<State>
    requires i < |s.desks|
  {
    Some(s.(desks := s.desks[i := d], main := main))
  }

  /** The next step of the main thread, other than a choice while polling. */
  function MainNext(s: State): Option<State> {
    var n := |s.desks|;
    match s.main
    case Polling => None
    case Locking(i, msg) =>
      if i < n && s.desks[i].owner.Nobody? then Next(s, i, s.desks[i].(owner := MainThread), Linking(i, msg)) else None
    case Linking(i, msg) =>
      if i < n then Next(s, i, s.desks[i].(queue := s.desks[i].queue + [msg]), Signalling(i)) else None
    case Signalling(i) =>
      if i < n then Next(s, i, Signalled(s.desks[i]), Releasing(i)) else None
    case Releasing(i) =>
      if i < n then Next(s, i, s.desks[i].(owner := Nobody), Polling) else None
    case Ringing(i) =>
      if i >= n then Some(s.(main := Joining(0)))
      else if s.desks[i].owner.Nobody? then Next(s, i, s.desks[i].(owner := MainThread), RingLocked(i))
      else None
    case RingLocked(i) =>
      if i < n then Next(s, i, Signalled(s.desks[i]), RingReleasing(i)) else None
    case RingReleasing(i) =>
      if i < n then Next(s, i, s.desks[i].(owner := Nobody), Ringing(i + 1)) else None
    case Joining(i) =>
      if i >= n then Some(s.(main := Done))
      else if s.desks[i].pc.Exited? then Some(s.(main := Joining(i + 1)))
      else None
    case Done => None
  }

  function Fire(s: State, m: Move): Option<State> {
    match m
    case WorkerMove(i) =>
      if i < |s.desks| && WorkerNext(s.desks[i], s.hard).Some? then
        Some(s.(desks := s.desks[i := WorkerNext(s.desks[i], s.hard).value]))
      else None
    case MainMove => MainNext(s)
    case Hand(i, msg) => if s.main.Polling? && i < |s.desks| then Some(s.(main := Locking(i, msg))) else None
    case Shut => if s.main.Polling? then Some(s.(main := Ringing(0), hard := true)) else None
    case Wake(i) =>
      if i < |s.desks| && s.desks[i].pc.Waiting? then Some(s.(desks := s.desks[i := Signalled(s.desks[i])])) else None
    case Interrupt => Some(s.(hard := true, interrupted := true))
  }

  predicate LegalMoves(n: nat, moves: seq<Move>)
    decreases |moves|, 0
  {
    moves != [] ==>
      var k := |moves| - 1;
      LegalMoves(n, moves[..k]) && Fire(Reached(n, moves[..k]), moves[k]).Some?
  }

  function Reached(n: nat, moves: seq<Move>): State
    requires LegalMoves(n, moves)
    decreases |moves|, 1
  {
    if moves == [] then Opening(n)
    else
      var k := |moves| - 1;
      Fire(Reached(n, moves[..k]), moves[k]).value
  }

  // ---------------------------------------------------------------------------
  // What every reachable state satisfies
  // ---------------------------------------------------------------------------

  predicate Inside(pc: Pc) {
    pc.Check? || pc.Test? || pc.Commit? || pc.Take?
  }

  predicate MainInside(main: MainPc, i: nat) {
    (main.Linking? || main.Signalling? || main.Releasing? || main.RingLocked? || main.RingReleasing?) && main.i == i
  }

  /** The main thread has raised the flag. */
  predicate Shutting(main: MainPc) {
    main.Ringing? || main.RingLocked? || main.RingReleasing? || main.Joining? || main.Done?
  }

  /** The main thread has sent queue `i` its shutdown signal. */
  predicate Rung(main: MainPc, i: nat) {
    match main
    case Ringing(k) => i < k
    case RingLocked(k) => i < k
    case RingReleasing(k) => i <= k
    case Joining(_) => true
    case Done => true
    case _ => false
  }

  /** A wakeup of worker `i` is on its way: the main thread is between adding a message and signalling. */
  predicate WakeupPending(main: MainPc, i: nat) {
    main == Signalling(i)
  }

  ghost predicate DeskSound(d: Desk, i: nat, main: MainPc, hard: bool, interrupted: bool) {
    && (d.owner.Worker? <==> Inside(d.pc))
    && (d.owner.MainThread? <==> MainInside(main, i))
    && (d.pc.Test? || d.pc.Commit? ==> d.queue == [])
    && (d.pc.Waiting? ==> d.queue == [] || WakeupPending(main, i))
    && (d.pc.Waiting? || d.pc.Commit? ==> !Rung(main, i))
    && (d.pc.Exited? || (d.pc.Take? && d.queue == []) ==> hard)
    && (d.pc.Exited? && !interrupted ==> d.queue == [])
    && (main.Joining? && i < main.i ==> d.pc.Exited?)
    && (main.Done? ==> d.pc.Exited?)
  }

  ghost predicate MainSound(s: State) {
    && (Shutting(s.main) ==> s.hard)
    && (!s.interrupted ==> (s.hard <==> Shutting(s.main)))
    && (s.main.Locking? ==> s.main.i < |s.desks|)
    && (forall i: nat :: MainInside(s.main, i) ==> i < |s.desks|)
    && (s.main.Ringing? || s.main.Joining? ==> s.main.i <= |s.desks|)
  }

  ghost predicate Sound(s: State) {
    && MainSound(s)
    && forall i :: 0 <= i < |s.desks| ==> DeskSound(s.desks[i], i, s.main, s.hard, s.interrupted)
  }

  lemma WorkerSound(s: State, i: nat)
    requires Sound(s) && i < |s.desks| && WorkerNext(s.desks[i], s.hard).Some?
    ensures DeskSound(WorkerNext(s.desks[i], s.hard).value, i, s.main, s.hard, s.interrupted)
  {
    // A worker that reads the lowered flag has not been rung: ringing comes after the flag is raised.
    assert DeskSound(s.desks[i], i, s.main, s.hard, s.interrupted);
  }

  lemma MainStepSound(s: State)
    requires Sound(s) && MainNext(s).Some?
    ensures Sound(MainNext(s).value)
  {
    var t := MainNext(s).value;
    assert MainSound(t);
    forall i | 0 <= i < |t.desks|
      ensures DeskSound(t.desks[i], i, t.main, t.hard, t.interrupted)
    {
      MainDeskSound(s, i);
    }
  }

  lemma MainDeskSound(s: State, i: nat)
    requires Sound(s) && MainNext(s).Some? && i < |s.desks|
    ensures var t := MainNext(s).value; DeskSound(t.desks[i], i, t.main, t.hard, t.interrupted)
  {
    assert DeskSound(s.desks[i], i, s.main, s.hard, s.interrupted);
  }

  lemma FireSound(s: State, m: Move)
    requires Sound(s) && Fire(s, m).Some?
    ensures Sound(Fire(s, m).value)
  {
    match m
    case WorkerMove(i) => WorkerSound(s, i);
    case MainMove => MainStepSound(s);
    case _ =>
  }

  lemma {:induction false} ReachedSound(n: nat, moves: seq<Move>)
    requires LegalMoves(n, moves)
    ensures Sound(Reached(n, moves)) && |Reached(n, moves).desks| == n
  {
    if moves != [] {
      var k := |moves| - 1;
      ReachedSound(n, moves[..k]);
      FireSound(Reached(n, moves[..k]), moves[k]);
    }
  }

  // ---------------------------------------------------------------------------
  // No message is lost
  // ---------------------------------------------------------------------------

  /** The messages for worker `i` that the main thread was told to hand over, in order. */
  function HandedTo(moves: seq<Move>, i: nat): seq<nat> {
    if moves == [] then []
    else
      var n := |moves| - 1;
      HandedTo(moves[..n], i) + if moves[n].Hand? && moves[n].i == i then [moves[n].msg] else []
  }

  /** The message for worker `i` that the main thread still has in hand. */
  function InHand(main: MainPc, i: nat): seq<nat> {
    if (main.Locking? || main.Linking?) && main.i == i then [main.msg] else []
  }

  /** A worker's messages: those it has pulled, those in its queue, and the one on its way there. */
  function Messages(s: State, i: nat): seq<nat>
    requires i < |s.desks|
  {
    s.desks[i].pulled + s.desks[i].queue + InHand(s.main, i)
  }

  lemma WorkerKeepsMessages(d: Desk, hard: bool)
    requires WorkerNext(d, hard).Some?
    ensures var d' := WorkerNext(d, hard).value; d'.pulled + d'.queue == d.pulled + d.queue
  {
    if d.pc.Take? && d.queue != [] {
      assert d.pulled + [d.queue[0]] + d.queue[1..] == d.pulled + d.queue;
    }
  }

  lemma FireKeepsMessages(s: State, m: Move, i: nat)
    requires MainSound(s) && Fire(s, m).Some? && i < |s.desks|
    ensures
      var t := Fire(s, m).value;
      && |t.desks| == |s.desks|
      && Messages(t, i) == Messages(s, i) + if m.Hand? && m.i == i then [m.msg] else []
  {
    match m
    case WorkerMove(j) => WorkerKeepsMessages(s.desks[j], s.hard);
    case MainMove =>
      if s.main.Linking? && s.main.i == i {
        var d := s.desks[i];
        assert d.pulled + d.queue + [s.main.msg] == d.pulled + (d.queue + [s.main.msg]) + [];
      }
    case _ =>
  }

  /** In every interleaving, what a worker has pulled, followed by what is in its queue and by the message the
      main thread has in hand for it, are the messages handed over for it, in order. */
  lemma {:induction false} MessagesAreThoseHanded(n: nat, moves: seq<Move>, i: nat)
    requires LegalMoves(n, moves) && i < n
    ensures |Reached(n, moves).desks| == n && Messages(Reached(n, moves), i) == HandedTo(moves, i)
  {
    ReachedSound(n, moves);
    if moves != [] {
      var k := |moves| - 1;
      MessagesAreThoseHanded(n, moves[..k], i);
      ReachedSound(n, moves[..k]);
      FireKeepsMessages(Reached(n, moves[..k]), moves[k], i);
    }
  }

  /** No wakeup is lost: in every interleaving, a worker that waits with no wakeup on its way has an
      empty queue and has not been sent its shutdown signal; it has pulled all that was handed over for it but
      for what the main thread still has in hand. */
  lemma NoLostWakeup(n: nat, moves: seq<Move>, i: nat)
    requires LegalMoves(n, moves) && i < n
    ensures
      var s := Reached(n, moves);
      && |s.desks| == n
      && (s.desks[i].pc.Waiting? && !WakeupPending(s.main, i) ==>
            && s.desks[i].queue == [] && !Rung(s.main, i)
            && s.desks[i].pulled + InHand(s.main, i) == HandedTo(moves, i))
      && (Rung(s.main, i) ==> !s.desks[i].pc.Waiting?)
  {
    ReachedSound(n, moves);
    MessagesAreThoseHanded(n, moves, i);
    var s := Reached(n, moves);
    assert DeskSound(s.desks[i], i, s.main, s.hard, s.interrupted);
  }

  /** Only the worker itself ends its loop, and only with the flag up and its queue empty. */
  lemma ExitStep(s: State, m: Move, i: nat)
    requires Sound(s) && Fire(s, m).Some? && i < |s.desks| && |Fire(s, m).value.desks| == |s.desks|
    requires !s.desks[i].pc.Exited? && Fire(s, m).value.desks[i].pc.Exited?
    ensures m == WorkerMove(i) && s.hard && s.desks[i].queue == [] && Fire(s, m).value.desks[i].queue == []
  {
    assert DeskSound(s.desks[i], i, s.main, s.hard, s.interrupted);
  }

  /** A pull returns nothing only when the flag is up and the queue is empty: whenever a worker has just
      ended in some run, it did so by its own step, and that was the state. */
  lemma NullPullMeansShutdown(n: nat, moves: seq<Move>, m: Move, i: nat)
    requires LegalMoves(n, moves) && Fire(Reached(n, moves), m).Some? && i < n
    ensures
      var before, after := Reached(n, moves), Fire(Reached(n, moves), m).value;
      && |before.desks| == |after.desks| == n
      && (!before.desks[i].pc.Exited? && after.desks[i].pc.Exited? ==>
            m == WorkerMove(i) && before.hard && after.desks[i].queue == before.desks[i].queue == [])
  {
    ReachedSound(n, moves);
    var before, after := Reached(n, moves), Fire(Reached(n, moves), m).value;
    assert |after.desks| == n;
    if !before.desks[i].pc.Exited? && after.desks[i].pc.Exited? {
      ExitStep(before, m, i);
    }
  }

  /** A shutdown that no signal handler forced leaves nothing behind: once the main thread is done, every
      worker has exited and has pulled every message ever handed over for it, in order. */
  lemma GracefulShutdownServesAll(n: nat, moves: seq<Move>, i: nat)
    requires LegalMoves(n, moves) && i < n && Reached(n, moves).main.Done?
    ensures
      var s := Reached(n, moves);
      && |s.desks| == n && s.desks[i].pc.Exited?
      && (!s.interrupted ==> s.desks[i].pulled == HandedTo(moves, i))
  {
    ReachedSound(n, moves);
    MessagesAreThoseHanded(n, moves, i);
    var s := Reached(n, moves);
    assert DeskSound(s.desks[i], i, s.main, s.hard, s.interrupted);
  }

  // ---------------------------------------------------------------------------
  // The shutdown ends
  // ---------------------------------------------------------------------------

  /** Steps a worker can still take when no more messages come. */
  function Load(d: Desk): int {
    8 * |d.queue|
    + match d.pc
      case Start => 6
      case Check => 5
      case Test => 4
      case Commit => 2
      case Waiting => 1
      case Woken => 6
      case Take => 3
      case Handling => 7
      case Exited => 0
  }

  function MainLoad(s: State): int {
    match s.main
    case Joining(i) => |s.desks| - i + 1
    case _ => 0
  }

  function Rank(s: State): int {
    Total(s.desks, Load) + MainLoad(s)
  }

  predicate Joined(s: State) {
    s.main.Joining? || s.main.Done?
  }

  predicate ByThread(m: Move) {
    !m.Interrupt?
  }

  lemma RankNonNegative(s: State)
    requires Sound(s) && Joined(s)
    ensures Rank(s) >= 0
  {
    TotalNonNegative(s.desks, Load);
  }

  /** After the signals every step of a thread uses up one of finitely many. */
  lemma JoinStepDescends(s: State, m: Move)
    requires Sound(s) && Joined(s) && Fire(s, m).Some?
    ensures var t := Fire(s, m).value;
      Joined(t) && |t.desks| == |s.desks| && (if ByThread(m) then Rank(t) < Rank(s) else Rank(t) == Rank(s))
  {
    match m
    case WorkerMove(i) =>
      assert DeskSound(s.desks[i], i, s.main, s.hard, s.interrupted);
      TotalSet(s.desks, i, WorkerNext(s.desks[i], s.hard).value, Load);
    case _ =>
  }

  /** A schedule from a given state. */
  predicate LegalFrom(s: State, moves: seq<Move>)
    decreases |moves|
  {
    moves != [] ==> Fire(s, moves[0]).Some? && LegalFrom(Fire(s, moves[0]).value, moves[1..])
  }

  function ThreadMoves(moves: seq<Move>): nat {
    if moves == [] then 0 else (if ByThread(moves[0]) then 1 else 0) + ThreadMoves(moves[1..])
  }

  lemma {:induction false} JoinBounded(s: State, moves: seq<Move>)
    requires Sound(s) && Joined(s) && LegalFrom(s, moves)
    ensures ThreadMoves(moves) <= Rank(s)
    decreases |moves|
  {
    if moves == [] {
      RankNonNegative(s);
    } else {
      FireSound(s, moves[0]);
      JoinStepDescends(s, moves[0]);
      JoinBounded(Fire(s, moves[0]).value, moves[1..]);
    }
  }

  /** A worker that has not exited once the signals are out, can move. */
  lemma UnexitedMoves(s: State, i: nat)
    requires Sound(s) && Joined(s) && i < |s.desks| && !s.desks[i].pc.Exited?
    ensures Fire(s, WorkerMove(i)).Some?
  {
    assert DeskSound(s.desks[i], i, s.main, s.hard, s.interrupted);
  }

  /** Whatever happened before, once the main thread has sent its signals it joins every worker: threads
      take a bounded number of further steps, and until the main thread is done one of them can move. */
  lemma JoinEnds(n: nat, moves: seq<Move>, further: seq<Move>)
    requires LegalMoves(n, moves) && Joined(Reached(n, moves)) && LegalFrom(Reached(n, moves), further)
    ensures ThreadMoves(further) <= Rank(Reached(n, moves))
    ensures !Reached(n, moves).main.Done? ==> exists m :: ByThread(m) && Fire(Reached(n, moves), m).Some?
  {
    ReachedSound(n, moves);
    var s := Reached(n, moves);
    JoinBounded(s, further);
    if !s.main.Done? {
      if s.main.i < n && !s.desks[s.main.i].pc.Exited? {
        UnexitedMoves(s, s.main.i);
        assert ByThread(WorkerMove(s.main.i));
      } else {
        assert ByThread(MainMove) && Fire(s, MainMove).Some?;
      }
    }
  }

  /** The main thread is never stuck behind a mutex: whenever it wants one and cannot have it, the worker
      that holds it can move. */
  lemma MutexComesFree(n: nat, moves: seq<Move>)
    requires LegalMoves(n, moves)
    ensures
      var s := Reached(n, moves);
      (s.main.Locking? || (s.main.Ringing? && s.main.i < n)) && Fire(s, MainMove).None? ==>
        Fire(s, WorkerMove(s.main.i)).Some?
  {
    ReachedSound(n, moves);
    var s := Reached(n, moves);
    if s.main.Locking? || (s.main.Ringing? && s.main.i < n) {
      assert DeskSound(s.desks[s.main.i], s.main.i, s.main, s.hard, s.interrupted);
    }
  }
}
