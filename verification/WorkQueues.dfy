/**
 The linked queue of messages between the receiver and one worker: the queue as it has to be, and the one
 in the source, with the exact runs on which that one loses nothing.
 */
module WorkQueues {
  import opened Basics

  // ---------------------------------------------------------------------------
  // The repaired queue
  // ---------------------------------------------------------------------------

  class Message {
    const fd: int
    const frame: seq<Byte>
    var next: Message?

    constructor (fd: int, frame: seq<Byte>)
      ensures this.fd == fd && this.frame == frame && next == null
    {
      this.fd, this.frame, next := fd, frame, null;
    }
  }

  /** `linked` is what can be reached from `nextIncoming`; `added` and `pulled` are the history. */
  class WorkQueue {
    var nextIncoming: Message?
    var lastIncoming: Message?
    ghost var linked: seq<Message>
    ghost var added: seq<Message>
    ghost var pulled: seq<Message>

    /** The links spell out `linked`, the tail pointer is exact, and nothing added is lost, repeated or
        out of order. */
    ghost predicate Valid()
      reads this, linked
    {
      && nextIncoming == (if linked == [] then null else linked[0])
      && lastIncoming == (if linked == [] then null else linked[|linked| - 1])
      && (linked != [] ==> linked[|linked| - 1].next == null)
      && (forall k :: 0 <= k < |linked| - 1 ==> linked[k].next == linked[k + 1])
      && (forall j, k :: 0 <= j < k < |linked| ==> linked[j] != linked[k])
      && added == pulled + linked
    }

    constructor ()
      ensures Valid() && added == [] && pulled == []
    {
      nextIncoming, lastIncoming, linked, added, pulled := null, null, [], [], [];
    }

    method Add(msg: Message)
      requires Valid() && msg.next == null && msg !in linked
      modifies this, linked
      ensures Valid() && added == old(added) + [msg] && pulled == old(pulled)
    {
      if lastIncoming != null {
        lastIncoming.next := msg;
        lastIncoming := msg;
      } else {
        nextIncoming, lastIncoming := msg, msg;
      }
      linked, added := linked + [msg], added + [msg];
    }

    /** The part of a pull after the wait: the oldest message not pulled yet, or none if all were. */
    method Pull() returns (msg: Message?)
      requires Valid()
      modifies this, linked
      ensures Valid() && added == old(added)
      ensures pulled == old(pulled) + if msg == null then [] else [msg]
      ensures msg == null <==> old(pulled) == added
      ensures msg != null ==> linked == old(linked)[1..]
      ensures msg != null ==> msg.next == null && msg !in linked
    {
      msg := nextIncoming;
      if msg != null {
        nextIncoming := msg.next;
        msg.next := null;
        if nextIncoming == null {
          lastIncoming := null;
        }
        pulled, linked := pulled + [msg], linked[1..];
      }
    }

    /** Frees whatever was never pulled. */
    method Drain() returns (ghost freed: seq<Message>)
      requires Valid()
      modifies this, linked
      ensures Valid() && linked == [] && added == old(added) && added == old(pulled) + freed
    {
      freed := [];
      while nextIncoming != null
        invariant Valid() && added == old(added) && pulled == old(pulled) + freed
        invariant |freed| <= |old(linked)| && linked == old(linked)[|freed|..]
        decreases |linked|
      {
        assert forall k :: 0 <= k < |linked| ==> linked[k] == old(linked)[|freed| + k];
        var msg := Pull();
        freed := freed + [msg];
      }
    }
  }

  // ---------------------------------------------------------------------------
  // The queue as written
  // ---------------------------------------------------------------------------

  /** A message is added at the address its memory was given; the worker frees a message it has pulled. */
  datatype Act = Add(at: nat) | Pull | Free(at: nat)

  /** Memory by address: the link of the message there and which message it is, the `i`-th added being
      message `i`. `live` are the addresses in use, `given` those of them that the worker has. `pulled` are
      the messages given to the worker, in order. `lost` counts the additions that found a message waiting,
      `strays` those that wrote the link of a message already given away. */
  datatype Links = Links(
    next: map<nat, Option<nat>>,
    number: map<nat, nat>,
    first: Option<nat>,
    last: Option<nat>,
    live: set<nat>,
    given: set<nat>,
    added: nat,
    pulled: seq<nat>,
    lost: nat,
    strays: nat)

  const NO_LINKS: Links := Links(map[], map[], None, None, {}, {}, 0, [], 0, 0)

  function LinkAt(q: Links, at: nat): Option<nat> {
    if at in q.next then q.next[at] else None
  }

  function NumberAt(q: Links, at: nat): nat {
    if at in q.number then q.number[at] else 0
  }

  /** The new message always becomes the first one, and the last one, whoever has it by now, is linked to
      it. */
  function AddAsWritten(q: Links, at: nat): Links {
    var made := q.next[at := None];
    q.(next := if q.last.Some? then made[q.last.value := Some(at)] else made,
       number := q.number[at := q.added],
       first := Some(at),
       last := Some(at),
       live := q.live + {at},
       added := q.added + 1,
       lost := q.lost + (if q.first.Some? then 1 else 0),
       strays := q.strays + (if q.first.None? && q.last.Some? then 1 else 0))
  }

  /** The last message stays last even when it has been pulled. */
  function PullAsWritten(q: Links): Links {
    if q.first.None? then q
    else
      var at := q.first.value;
      q.(next := q.next[at := None],
         first := LinkAt(q, at),
         given := if at in q.live then q.given + {at} else q.given,
         pulled := q.pulled + [NumberAt(q, at)])
  }

  /** Memory is given out only when it is not in use, and the worker frees only what it has. */
  predicate Legal(q: Links, act: Act) {
    match act
    case Add(at) => at !in q.live
    case Pull => true
    case Free(at) => at in q.given
  }

  function Do(q: Links, act: Act): Links {
    match act
    case Add(at) => AddAsWritten(q, at)
    case Pull => PullAsWritten(q)
    case Free(at) => q.(live := q.live - {at}, given := q.given - {at})
  }

  predicate LegalActs(acts: seq<Act>) {
    acts != [] ==>
      var n := |acts| - 1;
      LegalActs(acts[..n]) && Legal(RunAsWritten(acts[..n]), acts[n])
  }

  function RunAsWritten(acts: seq<Act>): Links {
    if acts == [] then NO_LINKS else Do(RunAsWritten(acts[..|acts| - 1]), acts[|acts| - 1])
  }

  /** The messages that the next `n` pulls give, if nothing else happens. */
  function Rest(q: Links, n: nat): seq<nat>
    decreases n
  {
    if n == 0 || q.first.None? then []
    else [NumberAt(q, q.first.value)] + Rest(PullAsWritten(q), n - 1)
  }

  function Numbers(n: nat): seq<nat> {
    seq(n, i => i)
  }

  /** The messages pulled and those that further pulls give are the messages added, each once and in order. */
  ghost predicate Intact(q: Links) {
    forall n: nat :: n >= 2 ==> q.pulled + Rest(q, n) == Numbers(q.added)
  }

  /** An addition does no harm when it finds no message waiting, and its memory is not that of the message
      added before it. */
  predicate Harmless(q: Links, act: Act) {
    act.Add? ==> q.first.None? && q.last != Some(act.at)
  }

  /** What the queue looks like as long as no addition has done harm. */
  ghost predicate Shape(q: Links) {
    && (q.last.None? <==> q.added == 0) && q.given <= q.live
    && (q.first.None? ==> q.pulled == Numbers(q.added))
    && (q.first.Some? ==>
          && q.first == q.last && LinkAt(q, q.last.value) == None && NumberAt(q, q.last.value) == q.added - 1
          && q.last.value in q.live && q.last.value !in q.given
          && q.pulled == Numbers(q.added - 1))
  }

  lemma NumbersOn(n: nat)
    ensures Numbers(n) + [n] == Numbers(n + 1)
  {
  }

  /** One message waiting. */
  lemma RestOfOne(q: Links, n: nat)
    requires q.first.Some? && LinkAt(q, q.first.value) == None && n >= 1
    ensures Rest(q, n) == [NumberAt(q, q.first.value)]
  {
    assert Rest(PullAsWritten(q), n - 1) == [];
  }

  /** A message linked to itself is given twice. */
  lemma RestOfSelfLinked(q: Links)
    requires q.first.Some? && LinkAt(q, q.first.value) == q.first
    ensures var x := NumberAt(q, q.first.value); Rest(q, 2) == [x, x]
  {
    var x, q' := NumberAt(q, q.first.value), PullAsWritten(q);
    RestOfOne(q', 1);
    assert NumberAt(q', q.first.value) == x;
    assert Rest(q, 2) == [x] + Rest(q', 1);
  }

  lemma ShapeIntact(q: Links)
    requires Shape(q)
    ensures Intact(q)
  {
    forall n: nat | n >= 2
      ensures q.pulled + Rest(q, n) == Numbers(q.added)
    {
      if q.first.Some? {
        RestOfOne(q, n);
        NumbersOn(q.added - 1);
      } else {
        assert q.pulled + [] == q.pulled;
      }
    }
  }

  /** An addition that finds a message waiting loses it. */
  lemma AddOverWaiting(q: Links, at: nat)
    requires Shape(q) && at !in q.live && q.first.Some?
    ensures !Intact(AddAsWritten(q, at))
  {
    var r := AddAsWritten(q, at);
    RestOfOne(r, 2);
    assert |r.pulled + Rest(r, 2)| == q.added && |Numbers(r.added)| == q.added + 1;
  }

  /** An addition at the address of the message before it links the new message to itself. */
  lemma AddOverLast(q: Links, at: nat)
    requires Shape(q) && q.first.None? && q.last == Some(at)
    ensures !Intact(AddAsWritten(q, at))
  {
    var r := AddAsWritten(q, at);
    RestOfSelfLinked(r);
    assert |r.pulled + Rest(r, 2)| == q.added + 2 && |Numbers(r.added)| == q.added + 1;
  }

  lemma DoExactly(q: Links, act: Act)
    requires Shape(q) && Legal(q, act)
    ensures Harmless(q, act) ==> Shape(Do(q, act))
    ensures Intact(Do(q, act)) <==> Harmless(q, act)
  {
    if act.Pull? && q.first.Some? {
      NumbersOn(q.added - 1);
    }
    if Harmless(q, act) {
      ShapeIntact(Do(q, act));
    } else if q.first.Some? {
      AddOverWaiting(q, act.at);
    } else {
      AddOverLast(q, act.at);
    }
  }

  /** After no act has a message been lost, repeated or put out of order. */
  ghost predicate AlwaysIntact(acts: seq<Act>) {
    Intact(RunAsWritten(acts)) && (acts != [] ==> AlwaysIntact(acts[..|acts| - 1]))
  }

  predicate AddsHarmless(acts: seq<Act>) {
    acts != [] ==>
      var n := |acts| - 1;
      AddsHarmless(acts[..n]) && Harmless(RunAsWritten(acts[..n]), acts[n])
  }

  lemma {:induction false} RunExactly(acts: seq<Act>)
    requires LegalActs(acts)
    ensures AlwaysIntact(acts) <==> AddsHarmless(acts)
    ensures AddsHarmless(acts) ==> Shape(RunAsWritten(acts))
  {
    if acts == [] {
      ShapeIntact(NO_LINKS);
    } else {
      var n := |acts| - 1;
      RunExactly(acts[..n]);
      if AddsHarmless(acts[..n]) {
        DoExactly(RunAsWritten(acts[..n]), acts[n]);
      }
    }
  }

  lemma {:induction false} LostOrStray(acts: seq<Act>)
    ensures
      var q := RunAsWritten(acts);
      && (q.last.None? <==> q.added == 0) && (q.first.Some? ==> q.added > 0)
      && q.lost + q.strays == (if q.added == 0 then 0 else q.added - 1)
  {
    if acts != [] {
      LostOrStray(acts[..|acts| - 1]);
    }
  }

  /** Whatever addresses memory is given at: over every run, the messages pulled and still to be pulled are at
      all times the messages added, in order, if and only if every addition found no message waiting and was
      not at the address of the message added before it. And every addition but the first overwrites the link
      to a waiting message or writes into one that the worker was given, so that a run is free of both if and
      only if it adds at most one message. */
  lemma AsWrittenExactly(acts: seq<Act>)
    requires LegalActs(acts)
    ensures AlwaysIntact(acts) <==> AddsHarmless(acts)
    ensures
      var q := RunAsWritten(acts);
      && (q.added > 0 ==> q.lost + q.strays == q.added - 1)
      && (q.lost == 0 && q.strays == 0 <==> q.added <= 1)
  {
    RunExactly(acts);
    LostOrStray(acts);
  }

  lemma RunOn(acts: seq<Act>, act: Act)
    requires LegalActs(acts) && Legal(RunAsWritten(acts), act)
    ensures LegalActs(acts + [act]) && RunAsWritten(acts + [act]) == Do(RunAsWritten(acts), act)
  {
    assert (acts + [act])[..|acts|] == acts;
  }

  /** Two additions in a row: the first message can never be pulled. */
  lemma FirstIsLost() returns (acts: seq<Act>)
    ensures LegalActs(acts) && RunAsWritten(acts).added == 2 && RunAsWritten(acts).pulled == []
    ensures forall n: nat :: n >= 1 ==> Rest(RunAsWritten(acts), n) == [1]
  {
    acts := [];
    RunOn(acts, Add(10));
    acts := acts + [Add(10)];
    RunOn(acts, Add(20));
    acts := acts + [Add(20)];
    forall n: nat | n >= 1
      ensures Rest(RunAsWritten(acts), n) == [1]
    {
      RestOfOne(RunAsWritten(acts), n);
    }
  }

  /** A message is added, pulled and freed, and the next one gets its memory: it is pulled twice. */
  lemma SecondIsPulledTwice() returns (acts: seq<Act>)
    ensures LegalActs(acts) && RunAsWritten(acts).added == 2 && RunAsWritten(acts).pulled == [0, 1, 1]
  {
    acts := [];
    RunOn(acts, Add(10));
    acts := acts + [Add(10)];
    RunOn(acts, Pull);
    acts := acts + [Pull];
    RunOn(acts, Free(10));
    acts := acts + [Free(10)];
    RunOn(acts, Add(10));
    acts := acts + [Add(10)];
    RunOn(acts, Pull);
    acts := acts + [Pull];
    RunOn(acts, Pull);
    acts := acts + [Pull];
  }
}
