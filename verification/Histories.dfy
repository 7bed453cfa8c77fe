/**
 What a client can tell from outside: the state of a path read off the requests made and the answers
 given, without looking at any record, and the answers to expect from it. Over every run the reading is
 the record the table holds, and the answers are the ones expected.
 */
module Histories {
  import opened Basics
  import opened Files
  import opened Tables
  import opened Refinement
  import opened TableRuns
  import opened Locks

  /** A path as seen from outside. `waiters` are the clients told to wait and not yet served, latest first. */
  datatype Seen = Gone | There(contents: seq<Byte>, isOpen: bool, holder: Option<int>, waiters: seq<int>)

  /** A client other than `fd` holds the lock. */
  predicate HeldByOther(s: Seen, fd: int) {
    s.There? && s.holder.Some? && s.holder.value != fd
  }

  /** What a request on the path and its answer say about the path, before evictions. Removal answers `Ok`
      whether it removed the file or not, so that one has to know who holds the lock. */
  function Noted(s: Seen, op: Op, r: Response): Seen {
    if s.Gone? then
      if op.Create? && r.answer.Ok? then There([], true, if op.lock then Some(op.fd) else None, []) else Gone
    else
      match op
      case Create(_, _, _) => s
      case Open(_, fd, lock) =>
        if r.answer.Ok? then s.(isOpen := true, holder := if lock then Some(fd) else None) else s
      case Close(_, _) => if r.answer.Ok? then s.(isOpen := false) else s
      case Lock(_, fd) =>
        if r.answer.Ok? then s.(holder := Some(fd))
        else if r.answer.OkWait? then s.(waiters := [fd] + s.waiters)
        else s
      case Unlock(_, _) =>
        if r.answer.Ok? then
          s.(holder := r.woken, waiters := if r.woken.Some? && s.waiters != [] then s.waiters[1..] else s.waiters)
        else s
      case Remove(_, fd) => if r.answer.Ok? && (fd == -1 || !HeldByOther(s, fd)) then Gone else s
      case Replace(_, data) => if r.answer.Ok? then s.(contents := data) else s
      case Append(_, data) => if r.answer.Ok? then s.(contents := s.contents + data) else s
  }

  /** A path after a request that may name it, before evictions. */
  function Touched(s: Seen, key: string, op: Op, r: Response): Seen {
    if op.key == key then Noted(s, op, r) else s
  }

  /** The reading of a whole run for one path: evicted files are gone. */
  function Watch(calls: seq<Call>, responses: seq<Response>, key: string): Seen
    requires |calls| == |responses|
  {
    if calls == [] then Gone
    else
      var n := |calls| - 1;
      var s := Touched(Watch(calls[..n], responses[..n], key), key, calls[n].op, responses[n]);
      if key in PathsOf(responses[n].evicted) then Gone else s
  }

  /** The answer to expect. */
  function Expected(s: Seen, op: Op): Answer {
    match op
    case Create(_, _, _) => if s.Gone? then Ok else AlreadyCreated
    case Open(_, fd, _) =>
      if s.Gone? then NotFound else if s.isOpen then AlreadyOpen else if HeldByOther(s, fd) then CantOpen else Ok
    case Close(_, fd) =>
      if s.Gone? then NotFound else if !s.isOpen then AlreadyClosed else if HeldByOther(s, fd) then CantClose else Ok
    case Lock(_, _) =>
      if s.Gone? then NotFound else if s.holder.Some? then OkWait else if s.waiters != [] then Aborted else Ok
    case Unlock(_, fd) =>
      if s.Gone? then NotFound
      else if s.holder.None? then AlreadyUnlocked
      else if s.holder.value != fd then OkWait
      else Ok
    case _ => if s.Gone? then NotFound else Ok
  }

  /** The client to be told that it now holds the lock. */
  function ExpectedWoken(s: Seen, op: Op): Option<int> {
    if op.Unlock? && Expected(s, op).Ok? && s.waiters != [] then Some(s.waiters[0]) else None
  }

  /** The record is what was seen. */
  predicate Shows(f: Option<File>, s: Seen) {
    match f
    case None => s.Gone?
    case Some(f) =>
      && s.There? && f.contents == s.contents && f.isOpen == s.isOpen && f.subs == s.waiters
      && (f.isLocked <==> s.holder.Some?) && (s.holder.Some? ==> f.owner == s.holder.value)
  }

  // ---------------------------------------------------------------------------
  // The reading is right
  // ---------------------------------------------------------------------------

  lemma DecisionShows(op: Op, f: Option<File>, s: Seen, r: Response)
    requires Shows(f, s) && r.answer == Decide(op, f).answer && r.woken == Decide(op, f).woken
    ensures Shows(Decide(op, f).next, Noted(s, op, r))
    ensures r.answer == Expected(s, op) && r.woken == ExpectedWoken(s, op)
  {
  }

  /** Over every run, and for every path: the record the table holds has the contents, the open flag, the lock
      holder and the waiters that the requests and their answers tell, and there is none exactly when they
      tell that the path is gone. */
  lemma {:induction false} RecordIsAsSeen(cfg: Config, calls: seq<Call>, key: string)
    requires LegalRun(cfg, calls)
    ensures Shows(Record(cfg, Run(cfg, calls).state, key), Watch(calls, Run(cfg, calls).responses, key))
    decreases |calls|
  {
    if calls != [] {
      var n := |calls| - 1;
      LastCall(cfg, calls, key);
      LastCall(cfg, calls, calls[n].op.key);
      RecordIsAsSeen(cfg, calls[..n], key);
      if calls[n].op.key == key {
        var before := Run(cfg, calls[..n]);
        DecisionShows(calls[n].op, Record(cfg, before.state, key), Watch(calls[..n], before.responses, key),
                      Run(cfg, calls).responses[n]);
      }
    }
  }

  /** Every answer of every run is the one to expect from what was seen of the path before, and so is the
      client told that the lock is now its own. */
  lemma AnswersAsExpected(cfg: Config, calls: seq<Call>)
    requires LegalRun(cfg, calls) && calls != []
    ensures
      var n := |calls| - 1;
      var seen := Watch(calls[..n], Run(cfg, calls[..n]).responses, calls[n].op.key);
      var r := Run(cfg, calls).responses[n];
      r.answer == Expected(seen, calls[n].op) && r.woken == ExpectedWoken(seen, calls[n].op)
  {
    var n := |calls| - 1;
    LastCall(cfg, calls, calls[n].op.key);
    RecordIsAsSeen(cfg, calls[..n], calls[n].op.key);
    var before := Run(cfg, calls[..n]);
    DecisionShows(calls[n].op, Record(cfg, before.state, calls[n].op.key),
                  Watch(calls[..n], before.responses, calls[n].op.key), Run(cfg, calls).responses[n]);
  }

  // ---------------------------------------------------------------------------
  // Evicted files
  // ---------------------------------------------------------------------------

  lemma EvictedWasThere(cfg: Config, s: Shelf, call: Call, f: File)
    requires Distinct(s.files) && LegalShelfCall(cfg, s, call) && f in ShelfStep(cfg, s, call).response.evicted
    ensures Lookup(ShelfTouch(s.files, call.op), f.key) == Some(f)
  {
    var touched := ShelfTouch(s.files, call.op);
    DecideKeepsKey(call.op, Lookup(s.files, call.op.key));
    ShelveDistinct(s.files, call.op.key, Decide(call.op, Lookup(s.files, call.op.key)).next);
    EvictionConserves(cfg, touched, call.picks);
    PartOf(ShelfEvictAll(cfg, touched, call.picks).state, ShelfEvictAll(cfg, touched, call.picks).files, touched, f);
    LookupMember(touched, f);
  }

  lemma PartOf<T>(rest: seq<T>, part: seq<T>, whole: seq<T>, x: T)
    requires multiset(rest) + multiset(part) == multiset(whole) && x in part
    ensures x in whole
  {
    assert x in multiset(part);
    assert x in multiset(whole);
  }

  lemma LookupMember(s: seq<File>, f: File)
    requires Distinct(s) && f in s
    ensures Lookup(s, f.key) == Some(f)
  {
    var i :| 0 <= i < |s| && s[i] == f;
    PositionOf(s, i);
  }

  lemma TouchedShows(cfg: Config, s: Shelf, call: Call, key: string, seen: Seen, r: Response)
    requires Distinct(s.files) && LegalShelfCall(cfg, s, call) && Shows(Lookup(s.files, key), seen)
    requires
      var d := Decide(call.op, Lookup(s.files, call.op.key));
      r.answer == d.answer && r.woken == d.woken
    ensures Shows(Lookup(ShelfTouch(s.files, call.op), key), Touched(seen, key, call.op, r))
  {
    var cur := Lookup(s.files, call.op.key);
    DecideKeepsKey(call.op, cur);
    LookupShelved(s.files, call.op.key, Decide(call.op, cur).next, key);
    if key == call.op.key {
      DecisionShows(call.op, cur, seen, r);
    }
  }

  /** Every file handed back as evicted carries the contents, and everything else, that was seen of its path,
      the write that evicted it included. */
  lemma EvictedAsSeen(cfg: Config, calls: seq<Call>, f: File)
    requires LegalRun(cfg, calls) && calls != []
    ensures
      var n := |calls| - 1;
      var r := Run(cfg, calls).responses[n];
      var seen := Watch(calls[..n], Run(cfg, calls[..n]).responses, f.key);
      f in r.evicted ==> Shows(Some(f), Touched(seen, f.key, calls[n].op, r))
  {
    var n := |calls| - 1;
    var r := Run(cfg, calls).responses[n];
    if f in r.evicted {
      RunAgrees(cfg, calls);
      RunAgrees(cfg, calls[..n]);
      var s := ShelfRun(cfg, calls[..n]).state;
      var seen := Watch(calls[..n], Run(cfg, calls[..n]).responses, f.key);
      RecordOnShelf(cfg, calls[..n], f.key);
      RecordIsAsSeen(cfg, calls[..n], f.key);
      EvictedWasThere(cfg, s, calls[n], f);
      TouchedShows(cfg, s, calls[n], f.key, seen, r);
    }
  }

  // ---------------------------------------------------------------------------
  // Locks
  // ---------------------------------------------------------------------------

  /** A client holds the lock of a path if and only if the requests and answers name it as the holder. */
  lemma HolderAsSeen(cfg: Config, calls: seq<Call>, key: string, a: int)
    requires LegalRun(cfg, calls)
    ensures
      var s := Watch(calls, Run(cfg, calls).responses, key);
      HeldBy(Record(cfg, Run(cfg, calls).state, key), a) <==> s.There? && s.holder == Some(a)
  {
    RecordIsAsSeen(cfg, calls, key);
  }

  /** After an unlock that succeeded and woke nobody, whoever asks for the lock next gets it. */
  lemma UnlockReleases(cfg: Config, calls: seq<Call>, fd: int)
    requires LegalRun(cfg, calls) && calls != [] && calls[|calls| - 1].op.Unlock?
    requires
      var r := Run(cfg, calls).responses[|calls| - 1];
      r.answer.Ok? && r.woken.None?
    ensures
      var key := calls[|calls| - 1].op.key;
      var more := calls + [Call(Lock(key, fd), [])];
      && LegalRun(cfg, more) && Run(cfg, more).responses[|calls|].answer == Ok
      && HeldBy(Record(cfg, Run(cfg, more).state, key), fd)
  {
    var n := |calls| - 1;
    var key := calls[n].op.key;
    var more := calls + [Call(Lock(key, fd), [])];
    AnswersAsExpected(cfg, calls);
    LastCall(cfg, calls, key);
    QuietIsLegal(cfg, calls, Lock(key, fd));
    AnswersAsExpected(cfg, more);
    LastCall(cfg, more, key);
    HolderAsSeen(cfg, more, key, fd);
  }
}
