/**
 The lock protocol over whole runs: who can take a lock away, where hand-offs go, and exactly when
 an unlocked file can be left with waiters.
 */
module Locks {
  import opened Basics
  import opened Files
  import opened Tables
  import opened Refinement
  import opened TableRuns

  /** The record stored under a path, as the bucket search finds it. */
  function Record(cfg: Config, t: Table, key: string): Option<File>
    requires |t.chains| == cfg.buckets
  {
    Lookup(t.chains[Slot(cfg, key)], key)
  }

  predicate EvictedIn(r: Response, key: string) {
    key in PathsOf(r.evicted)
  }

  /** One path's record through a request: untouched unless the request names the path, in which
      case the request decides on it; and then it may be evicted. */
  function PathStep(cur: Option<File>, key: string, op: Op, r: Response): Option<File> {
    if EvictedIn(r, key) then None
    else if op.key == key then Decide(op, cur).next
    else cur
  }

  /** One path's record through a run, starting from `cur`. */
  function PathRun(cur: Option<File>, calls: seq<Call>, responses: seq<Response>, key: string): Option<File>
    requires |calls| == |responses|
  {
    if calls == [] then cur
    else
      var n := |calls| - 1;
      PathStep(PathRun(cur, calls[..n], responses[..n], key), key, calls[n].op, responses[n])
  }

  lemma {:induction false} PathRunConcat(cur: Option<File>, c1: seq<Call>, r1: seq<Response>, c2: seq<Call>,
                                         r2: seq<Response>, key: string)
    requires |c1| == |r1| && |c2| == |r2|
    ensures PathRun(cur, c1 + c2, r1 + r2, key) == PathRun(PathRun(cur, c1, r1, key), c2, r2, key)
  {
    if c2 == [] {
      assert c1 + c2 == c1 && r1 + r2 == r1;
    } else {
      var n := |c2| - 1;
      assert (c1 + c2)[..|c1| + n] == c1 + c2[..n];
      assert (r1 + r2)[..|r1| + n] == r1 + r2[..n];
      PathRunConcat(cur, c1, r1, c2[..n], r2[..n], key);
    }
  }

  lemma ShelfPathStep(cfg: Config, s: Shelf, call: Call, key: string)
    requires Distinct(s.files) && LegalShelfCall(cfg, s, call)
    ensures
      var r := ShelfStep(cfg, s, call);
      Lookup(r.state.files, key) == PathStep(Lookup(s.files, key), key, call.op, r.response)
  {
    var cur := Lookup(s.files, call.op.key);
    var next := Decide(call.op, cur).next;
    DecideKeepsKey(call.op, cur);
    ShelveDistinct(s.files, call.op.key, next);
    LookupShelved(s.files, call.op.key, next, key);
    if ShelfSettles(s.files, call.op) {
      LookupEvicted(cfg, ShelfTouch(s.files, call.op), call.picks, key);
    }
  }

  lemma RecordOnShelf(cfg: Config, calls: seq<Call>, key: string)
    requires LegalRun(cfg, calls)
    ensures LegalShelfRun(cfg, calls) && Distinct(ShelfRun(cfg, calls).state.files)
    ensures Record(cfg, Run(cfg, calls).state, key) == Lookup(ShelfRun(cfg, calls).state.files, key)
  {
    RunAgrees(cfg, calls);
    NewestFinds(cfg, ShelfRun(cfg, calls).state.files, key);
  }

  /** The last call of a run answers from the record it finds under its own path, and does to any
      path what `PathStep` says. */
  lemma LastCall(cfg: Config, calls: seq<Call>, key: string)
    requires LegalRun(cfg, calls) && calls != []
    ensures
      var n := |calls| - 1;
      var op := calls[n].op;
      var before := Run(cfg, calls[..n]);
      var r := Run(cfg, calls).responses[n];
      var d := Decide(op, Record(cfg, before.state, op.key));
      && Run(cfg, calls).responses[..n] == before.responses
      && r.answer == d.answer && r.woken == d.woken
      && (!IsWrite(op) ==> r.evicted == [])
      && Record(cfg, Run(cfg, calls).state, key) == PathStep(Record(cfg, before.state, key), key, op, r)
  {
    var n := |calls| - 1;
    RecordOnShelf(cfg, calls[..n], key);
    RecordOnShelf(cfg, calls[..n], calls[n].op.key);
    RecordOnShelf(cfg, calls, key);
    RunAgrees(cfg, calls);
    ShelfPathStep(cfg, ShelfRun(cfg, calls[..n]).state, calls[n], key);
  }

  /** The record the bucket search finds is the path's own history. */
  lemma {:induction false} RecordIsPathRun(cfg: Config, calls: seq<Call>, key: string)
    requires LegalRun(cfg, calls)
    ensures Record(cfg, Run(cfg, calls).state, key) == PathRun(None, calls, Run(cfg, calls).responses, key)
    decreases |calls|
  {
    if calls != [] {
      LastCall(cfg, calls, key);
      RecordIsPathRun(cfg, calls[..|calls| - 1], key);
    }
  }

  // ---------------------------------------------------------------------------
  // Holding a lock
  // ---------------------------------------------------------------------------

  /** The requests by which holder `a` itself gives the lock up, plus the server's own removal. */
  predicate Yields(op: Op, key: string, a: int) {
    && op.key == key
    && ((op.Unlock? && op.fd == a) || (op.Open? && op.fd == a) || (op.Remove? && (op.fd == a || op.fd == -1)))
  }

  predicate HeldBy(f: Option<File>, a: int) {
    f.Some? && f.value.isLocked && f.value.owner == a
  }

  lemma HolderDecision(op: Op, f: File, a: int)
    requires HeldBy(Some(f), a) && !Yields(op, op.key, a)
    ensures HeldBy(Decide(op, Some(f)).next, a)
    ensures !(op.Close? && op.fd == a) ==> Decide(op, Some(f)).next.value.isOpen == f.isOpen
  {
  }

  /** Nothing in these calls lets the lock of `a` on `key` go. */
  ghost predicate Undisturbed(calls: seq<Call>, responses: seq<Response>, key: string, a: int)
    requires |calls| == |responses|
  {
    forall i :: 0 <= i < |calls| ==> !Yields(calls[i].op, key, a) && !EvictedIn(responses[i], key)
  }

  lemma {:induction false} HolderPath(f: File, calls: seq<Call>, responses: seq<Response>, key: string, a: int)
    requires |calls| == |responses| && HeldBy(Some(f), a) && Undisturbed(calls, responses, key, a)
    ensures HeldBy(PathRun(Some(f), calls, responses, key), a)
    ensures (forall i :: 0 <= i < |calls| ==> calls[i].op != Close(key, a)) ==>
      PathRun(Some(f), calls, responses, key).value.isOpen == f.isOpen
  {
    if calls != [] {
      var n := |calls| - 1;
      HolderPath(f, calls[..n], responses[..n], key, a);
      if calls[n].op.key == key {
        HolderDecision(calls[n].op, PathRun(Some(f), calls[..n], responses[..n], key).value, a);
      }
    }
  }

  /** While a client holds a file's lock, no run of requests by others moves the lock, changes the
      open flag or removes the file: the lock leaves its holder only by the holder's own unlock, open
      or remove, by the server's removal, or by eviction. */
  lemma HolderKeepsLock(cfg: Config, past: seq<Call>, calls: seq<Call>, key: string, a: int)
    requires LegalRun(cfg, past + calls) && LegalRun(cfg, past)
    ensures
      var before, after := Record(cfg, Run(cfg, past).state, key), Record(cfg, Run(cfg, past + calls).state, key);
      HeldBy(before, a) && Undisturbed(calls, Run(cfg, past + calls).responses[|past|..], key, a) ==>
        && HeldBy(after, a)
        && ((forall i :: 0 <= i < |calls| ==> calls[i].op != Close(key, a)) ==>
              after.value.isOpen == before.value.isOpen)
  {
    var responses := Run(cfg, past + calls).responses;
    RecordGoesOn(cfg, past, calls, key);
    var before := Record(cfg, Run(cfg, past).state, key);
    if HeldBy(before, a) && Undisturbed(calls, responses[|past|..], key, a) {
      HolderPath(before.value, calls, responses[|past|..], key, a);
    }
  }

  /** The record after a continuation is the record before it, moved on by the continuation. */
  lemma RecordGoesOn(cfg: Config, past: seq<Call>, calls: seq<Call>, key: string)
    requires LegalRun(cfg, past + calls) && LegalRun(cfg, past)
    ensures
      var before, after := Record(cfg, Run(cfg, past).state, key), Record(cfg, Run(cfg, past + calls).state, key);
      after == PathRun(before, calls, Run(cfg, past + calls).responses[|past|..], key)
  {
    var responses, early := Run(cfg, past + calls).responses, Run(cfg, past).responses;
    RunPrefix(cfg, past, calls);
    SplitResponses(responses, early, |past|);
    PathRunConcat(None, past, early, calls, responses[|past|..], key);
    RecordIsPathRun(cfg, past, key);
    RecordIsPathRun(cfg, past + calls, key);
  }

  lemma SplitResponses(responses: seq<Response>, early: seq<Response>, n: nat)
    requires n <= |responses| && responses[..n] == early
    ensures responses == early + responses[n..]
  {
  }

  lemma {:induction false} RunPrefix(cfg: Config, past: seq<Call>, calls: seq<Call>)
    requires LegalRun(cfg, past + calls) && LegalRun(cfg, past)
    ensures Run(cfg, past + calls).responses[..|past|] == Run(cfg, past).responses
    decreases |calls|
  {
    if calls == [] {
      assert past + calls == past;
    } else {
      var m := |calls| - 1;
      var all := past + calls;
      assert all[..|all| - 1] == past + calls[..m];
      RunInit(cfg, all);
      RunPrefix(cfg, past, calls[..m]);
    }
  }

  /** A run without its last call. */
  lemma RunInit(cfg: Config, calls: seq<Call>)
    requires LegalRun(cfg, calls) && calls != []
    ensures LegalRun(cfg, calls[..|calls| - 1])
    ensures Run(cfg, calls).responses[..|calls| - 1] == Run(cfg, calls[..|calls| - 1]).responses
  {
  }

  // ---------------------------------------------------------------------------
  // Waiting for a lock
  // ---------------------------------------------------------------------------

  /** A request named the path and was answered `r`: how it moves the list of lock requests told to
      wait, ... */
  function MoreWaits(before: seq<int>, op: Op, r: Response): seq<int> {
    if op.Create? && r.answer.Ok? then []
    else if op.Lock? && r.answer.OkWait? then before + [op.fd]
    else before
  }

  /** ... the list of hand-offs announced, ... */
  function MoreHandOffs(before: seq<int>, op: Op, r: Response): seq<int> {
    if op.Create? && r.answer.Ok? then []
    else if r.woken.Some? then before + [r.woken.value]
    else before
  }

  /** ... and the waiters not yet served if every hand-off goes to the most recent one. */
  function MoreOutstanding(before: seq<int>, op: Op, r: Response): seq<int> {
    if op.Create? && r.answer.Ok? then []
    else if op.Lock? && r.answer.OkWait? then [op.fd] + before
    else if r.woken.Some? && before != [] then before[1..]
    else before
  }

  /** Such a list read off the answers of a run, for the current lifetime of one path. */
  function Reading(step: (seq<int>, Op, Response) -> seq<int>, calls: seq<Call>, responses: seq<Response>,
                   key: string): seq<int>
    requires |calls| == |responses|
  {
    if calls == [] then []
    else
      var n := |calls| - 1;
      var before := Reading(step, calls[..n], responses[..n], key);
      if calls[n].op.key == key then step(before, calls[n].op, responses[n]) else before
  }

  function Waits(calls: seq<Call>, responses: seq<Response>, key: string): seq<int>
    requires |calls| == |responses|
  {
    Reading(MoreWaits, calls, responses, key)
  }

  function HandOffs(calls: seq<Call>, responses: seq<Response>, key: string): seq<int>
    requires |calls| == |responses|
  {
    Reading(MoreHandOffs, calls, responses, key)
  }

  function Outstanding(calls: seq<Call>, responses: seq<Response>, key: string): seq<int>
    requires |calls| == |responses|
  {
    Reading(MoreOutstanding, calls, responses, key)
  }

  ghost predicate WaitersServed(calls: seq<Call>, responses: seq<Response>, key: string, f: File)
    requires |calls| == |responses|
  {
    && f.subs == Outstanding(calls, responses, key)
    && multiset(Waits(calls, responses, key)) == multiset(HandOffs(calls, responses, key)) + multiset(f.subs)
  }

  lemma OneMore(s: seq<int>, x: int)
    ensures multiset(s + [x]) == multiset(s) + multiset{x}
    ensures multiset([x] + s) == multiset(s) + multiset{x}
  {
  }

  /** A hand-off decision, seen from the waiters. */
  lemma WakingDecision(op: Op, f: File)
    requires Decide(op, Some(f)).woken.Some?
    ensures op.Unlock? && f.isLocked && f.subs != []
    ensures Decide(op, Some(f)).woken.value == f.subs[0]
    ensures Decide(op, Some(f)).next == Some(f.(owner := f.subs[0], subs := f.subs[1..]))
  {
  }

  /** One request keeps the waiters accounted for. */
  lemma DecisionServes(op: Op, f: File, r: Response, waits: seq<int>, handOffs: seq<int>)
    requires
      var d := Decide(op, Some(f));
      d.next.Some? && r.answer == d.answer && r.woken == d.woken
    requires multiset(waits) == multiset(handOffs) + multiset(f.subs)
    ensures
      var subs := Decide(op, Some(f)).next.value.subs;
      && subs == MoreOutstanding(f.subs, op, r)
      && multiset(MoreWaits(waits, op, r)) == multiset(MoreHandOffs(handOffs, op, r)) + multiset(subs)
  {
    if op.Lock? && f.isLocked {
      OneMore(waits, op.fd);
      OneMore(f.subs, op.fd);
    } else if r.woken.Some? {
      WakingDecision(op, f);
      var w, rest := f.subs[0], f.subs[1..];
      OneMore(handOffs, w);
      OneMore(rest, w);
      assert f.subs == [w] + rest;
    } else {
      QuietDecision(op, f);
    }
  }

  /** Any other decision leaves the waiters alone. */
  lemma QuietDecision(op: Op, f: File)
    requires !(op.Lock? && f.isLocked) && Decide(op, Some(f)).woken.None? && Decide(op, Some(f)).next.Some?
    ensures Decide(op, Some(f)).next.value.subs == f.subs
    ensures !(op.Lock? && Decide(op, Some(f)).answer.OkWait?)
    ensures !(op.Create? && Decide(op, Some(f)).answer.Ok?)
  {
  }

  /** In every run and for every live file, the lock requests of its lifetime that were told to wait
      are, as a multiset, the hand-offs made plus the waiters still queued, and the queue is what
      most-recent-first service leaves. */
  lemma {:induction false} WaitsAreServed(cfg: Config, calls: seq<Call>, key: string)
    requires LegalRun(cfg, calls)
    requires Record(cfg, Run(cfg, calls).state, key).Some?
    ensures WaitersServed(calls, Run(cfg, calls).responses, key, Record(cfg, Run(cfg, calls).state, key).value)
    decreases |calls|
  {
    if calls != [] {
      var n := |calls| - 1;
      LastCall(cfg, calls, key);
      LastCall(cfg, calls, calls[n].op.key);
      var before := Record(cfg, Run(cfg, calls[..n]).state, key);
      if before.Some? {
        WaitsAreServed(cfg, calls[..n], key);
        if calls[n].op.key == key {
          var past := Run(cfg, calls[..n]).responses;
          DecisionServes(calls[n].op, before.value, Run(cfg, calls).responses[n],
                         Waits(calls[..n], past, key), HandOffs(calls[..n], past, key));
        }
      }
    }
  }

  /** Every hand-off goes to the most recent waiter still outstanding, who becomes the holder. */
  lemma HandOffIsLatest(cfg: Config, calls: seq<Call>)
    requires LegalRun(cfg, calls) && calls != []
    requires Run(cfg, calls).responses[|calls| - 1].woken.Some?
    ensures
      var n := |calls| - 1;
      var key := calls[n].op.key;
      var w := Run(cfg, calls).responses[n].woken.value;
      var queue := Outstanding(calls[..n], Run(cfg, calls[..n]).responses, key);
      queue != [] && w == queue[0] && HeldBy(Record(cfg, Run(cfg, calls).state, key), w)
  {
    var n := |calls| - 1;
    var op := calls[n].op;
    LastCall(cfg, calls, op.key);
    WaitsAreServed(cfg, calls[..n], op.key);
    WakingDecision(op, Record(cfg, Run(cfg, calls[..n]).state, op.key).value);
  }

  // ---------------------------------------------------------------------------
  // Unlocked files and waiters
  // ---------------------------------------------------------------------------

  /** No file is unlocked while clients wait for it; this is what the lock request asserts. */
  ghost predicate Tidy(cfg: Config, t: Table)
    requires |t.chains| == cfg.buckets
  {
    forall key :: TidyFile(Record(cfg, t, key))
  }

  predicate TidyFile(f: Option<File>) {
    f.Some? && !f.value.isLocked ==> f.value.subs == []
  }

  /** The holder re-opens its closed file without the lock flag although clients wait for it. */
  predicate ReopensOnWaiters(op: Op, cur: Option<File>) {
    && op.Open? && !op.lock
    && cur.Some? && !cur.value.isOpen && HeldBy(cur, op.fd) && cur.value.subs != []
  }

  /** From a tidy record, a decision leaves stray waiters exactly when it is such a re-opening. */
  lemma StrayWaitersExactly(op: Op, cur: Option<File>)
    requires TidyFile(cur)
    ensures TidyFile(Decide(op, cur).next) <==> !ReopensOnWaiters(op, cur)
    ensures Decide(op, cur).answer != Aborted
  {
  }

  lemma TidyStep(cfg: Config, calls: seq<Call>)
    requires LegalRun(cfg, calls) && calls != []
    requires Tidy(cfg, Run(cfg, calls[..|calls| - 1]).state)
    ensures
      var n := |calls| - 1;
      var op := calls[n].op;
      && Run(cfg, calls).responses[n].answer != Aborted
      && (Tidy(cfg, Run(cfg, calls).state) <==>
            !ReopensOnWaiters(op, Record(cfg, Run(cfg, calls[..n]).state, op.key)))
  {
    var n := |calls| - 1;
    var op := calls[n].op;
    var before := Run(cfg, calls[..n]).state;
    var cur := Record(cfg, before, op.key);
    LastCall(cfg, calls, op.key);
    assert TidyFile(cur);
    StrayWaitersExactly(op, cur);
    if ReopensOnWaiters(op, cur) {
      assert !TidyFile(Record(cfg, Run(cfg, calls).state, op.key));
    } else {
      forall key
        ensures TidyFile(Record(cfg, Run(cfg, calls).state, key))
      {
        assert TidyFile(Record(cfg, before, key));
        TidyAfter(cfg, calls, key);
      }
    }
  }

  /** One path after the last call. */
  lemma TidyAfter(cfg: Config, calls: seq<Call>, key: string)
    requires LegalRun(cfg, calls) && calls != []
    requires TidyFile(Record(cfg, Run(cfg, calls[..|calls| - 1]).state, key))
    requires
      var n := |calls| - 1;
      TidyFile(Decide(calls[n].op, Record(cfg, Run(cfg, calls[..n]).state, calls[n].op.key)).next)
    ensures TidyFile(Record(cfg, Run(cfg, calls).state, key))
  {
    LastCall(cfg, calls, key);
  }

  /** No prefix of the run leaves a file unlocked with waiters. */
  ghost predicate AlwaysTidy(cfg: Config, calls: seq<Call>)
    requires LegalRun(cfg, calls)
    decreases |calls|
  {
    Tidy(cfg, Run(cfg, calls).state) && (calls != [] ==> AlwaysTidy(cfg, calls[..|calls| - 1]))
  }

  /** No call of the run re-opens a file on its waiters. */
  predicate NeverReopens(cfg: Config, calls: seq<Call>)
    requires LegalRun(cfg, calls)
    decreases |calls|
  {
    calls != [] ==>
      var n := |calls| - 1;
      && NeverReopens(cfg, calls[..n])
      && !ReopensOnWaiters(calls[n].op, Record(cfg, Run(cfg, calls[..n]).state, calls[n].op.key))
  }

  /** Over every run, no file is ever unlocked with waiters if and only if no holder ever re-opens its
      closed file without the lock flag while clients wait; in such runs the waiter assertion of the
      lock request never fails. */
  lemma {:induction false} TidyExactly(cfg: Config, calls: seq<Call>)
    requires LegalRun(cfg, calls)
    ensures AlwaysTidy(cfg, calls) <==> NeverReopens(cfg, calls)
    ensures NeverReopens(cfg, calls) ==> forall r :: r in Run(cfg, calls).responses ==> r.answer != Aborted
    decreases |calls|
  {
    if calls != [] {
      var init := calls[..|calls| - 1];
      TidyExactly(cfg, init);
      if Tidy(cfg, Run(cfg, init).state) {
        TidyStep(cfg, calls);
      }
    }
  }

  /** The calls are a run at whose end the path has this record and the last answer was this one. */
  ghost predicate Leads(cfg: Config, calls: seq<Call>, key: string, f: Option<File>, a: Answer) {
    && LegalRun(cfg, calls) && Record(cfg, Run(cfg, calls).state, key) == f
    && (calls != [] ==> Run(cfg, calls).responses[|calls| - 1].answer == a)
  }

  /** One more request that is not a write. */
  lemma QuietOn(cfg: Config, calls: seq<Call>, op: Op, cur: Option<File>, a: Answer) returns (more: seq<Call>)
    requires !IsWrite(op) && Leads(cfg, calls, op.key, cur, a)
    ensures more != [] && Leads(cfg, more, op.key, Decide(op, cur).next, Decide(op, cur).answer)
  {
    more := calls + [Call(op, [])];
    QuietIsLegal(cfg, calls, op);
    LastCall(cfg, more, op.key);
  }

  lemma QuietIsLegal(cfg: Config, calls: seq<Call>, op: Op)
    requires LegalRun(cfg, calls) && !IsWrite(op)
    ensures (calls + [Call(op, [])])[..|calls|] == calls && LegalRun(cfg, calls + [Call(op, [])])
  {
    assert (calls + [Call(op, [])])[..|calls|] == calls;
  }

  lemma HoldAndWait(cfg: Config, key: string) returns (calls: seq<Call>)
    ensures Leads(cfg, calls, key, Some(Fresh(key, 1, true).(subs := [2])), OkWait)
  {
    calls := [];
    calls := QuietOn(cfg, calls, Create(key, 1, true), None, Ok);
    calls := QuietOn(cfg, calls, Lock(key, 2), Some(Fresh(key, 1, true)), Ok);
    assert [2] + [] == [2];
  }

  /** The re-opening does occur: a holds a lock, b waits, a closes and re-opens without the flag, and
      the next lock request stops the process. */
  lemma StrayWaiterExample(cfg: Config, key: string) returns (calls: seq<Call>)
    ensures LegalRun(cfg, calls) && calls != [] && Run(cfg, calls).responses[|calls| - 1].answer == Aborted
  {
    var f1 := Fresh(key, 1, true).(subs := [2]);
    var f2 := f1.(isOpen := false);
    var f3 := f2.(isOpen := true, isLocked := false);
    calls := HoldAndWait(cfg, key);
    calls := QuietOn(cfg, calls, Close(key, 1), Some(f1), OkWait);
    calls := QuietOn(cfg, calls, Open(key, 1, false), Some(f2), Ok);
    calls := QuietOn(cfg, calls, Lock(key, 3), Some(f3), Ok);
  }
}
