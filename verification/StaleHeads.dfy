/**
 Creation as written: between its search and its link it reads the head of the bucket without the guard,
 and links its file in front of the head it read. Everything else is as in module Guards. Items are told
 apart by their addresses; the address of an item that is gone may be given to a new one.
 */
module StaleHeads {
  import opened Basics
  import opened Files
  import opened Tables
  import opened Guards

  /** A creation between its read and its link: the item it has allocated and the item it found at the head,
      or none for an empty chain. */
  datatype Reading = Reading(item: nat, head: Option<nat>)

  /** `ids` are the addresses of the items, chain by chain. `kept` says that every link so far left the chain
      as it was behind the new item. */
  datatype Written = Written(s: State, ids: seq<seq<nat>>, readings: seq<Option<Reading>>, kept: bool)

  /** A move of module Guards, or the allocation of an item and the unguarded read. */
  datatype Step = Act(m: Move) | ReadHead(item: nat)

  ghost predicate Sized(cfg: Config, w: Written) {
    && |w.s.chains| == |w.s.bucketGuards| == |w.ids| == cfg.buckets && |w.readings| == |w.s.threads|
    && forall b :: 0 <= b < cfg.buckets ==> |w.ids[b]| == |w.s.chains[b]|
  }

  function HeadOf(ids: seq<nat>): Option<nat> {
    if ids == [] then None else Some(ids[0])
  }

  /** Index of an item in a chain, or the length if it is gone. */
  function Find(ids: seq<nat>, id: nat): (p: nat)
    ensures p <= |ids| && (p < |ids| ==> ids[p] == id)
    ensures forall k :: 0 <= k < p ==> ids[k] != id
  {
    if ids == [] || ids[0] == id then 0 else 1 + Find(ids[1..], id)
  }

  /** Where a walk from the new item goes on in the old chain: its end if the head read was none, the item
      read if it is still there. `None` if it is not: its memory is freed or holds an item of another chain. */
  function GoesOnAt(ids: seq<nat>, read: Option<nat>): (p: Option<nat>)
    ensures p.Some? ==> p.value <= |ids|
  {
    if read.None? then Some(|ids|)
    else if Find(ids, read.value) < |ids| then Some(Find(ids, read.value))
    else None
  }

  predicate AtLink(pc: Pc) {
    pc.InBucket? && pc.stage.Link? && pc.op.Create?
  }

  /** The identities after a step that is not a link. */
  function IdsAfter(cfg: Config, w: Written, i: nat, m: Move): seq<seq<nat>>
    requires |w.s.chains| == |w.ids| == cfg.buckets && i < |w.s.threads|
  {
    match w.s.threads[i]
    case InBucket(op, _) =>
      var b := Slot(cfg, op.key);
      var p := Position(w.s.chains[b], op.key);
      if op.Remove? && p < |w.ids[b]| && Decide(op, Lookup(w.s.chains[b], op.key)).next.None?
      then w.ids[b := RemoveAt(w.ids[b], p)]
      else w.ids
    case InVictim(b) =>
      if m.Take? && b < cfg.buckets && m.index < |w.ids[b]| then w.ids[b := RemoveAt(w.ids[b], m.index)] else w.ids
    case _ => w.ids
  }

  /** The address belongs to an item that is linked or about to be. */
  predicate InUse(w: Written, item: nat) {
    || (exists b :: 0 <= b < |w.ids| && item in w.ids[b])
    || (exists i :: 0 <= i < |w.readings| && w.readings[i].Some? && w.readings[i].value.item == item)
  }

  /** The link section: the new item is followed by what followed the item read. */
  function LinkAsWritten(cfg: Config, w: Written, i: nat, r: Reading): Option<Written>
    requires Sized(cfg, w) && i < |w.s.threads| && AtLink(w.s.threads[i])
  {
    var op := w.s.threads[i].op;
    var b := Slot(cfg, op.key);
    var s := BucketSection(cfg, w.s, i, op, Link);
    var f, c := Fresh(op.key, op.fd, op.lock), w.s.chains[b];
    var p := GoesOnAt(w.ids[b], r.head);
    var chain := if p.Some? then [f] + c[p.value..] else [f];
    Some(Written(s.(chains := s.chains[b := chain]),
                 w.ids[b := [r.item] + if p.Some? then w.ids[b][p.value..] else []],
                 w.readings[i := None],
                 w.kept && p.Some? && chain == [f] + c))
  }

  /** One step of thread `i`, or `None` where it cannot make it. */
  function Advance(cfg: Config, w: Written, i: nat, step: Step): Option<Written>
    requires Sized(cfg, w)
  {
    if i >= |w.s.threads| then None
    else
      var pc := w.s.threads[i];
      var waiting := pc.WantBucket? && pc.stage.Link? && pc.op.Create?;
      if step.ReadHead? then
        if waiting && w.readings[i].None? && !InUse(w, step.item)
        then
          var r := Reading(step.item, HeadOf(w.ids[Slot(cfg, pc.op.key)]));
          Some(w.(readings := w.readings[i := Some(r)]))
        else None
      else if waiting && w.readings[i].None? then None
      else if AtLink(pc) then
        if step.m.Go? && w.readings[i].Some? then LinkAsWritten(cfg, w, i, w.readings[i].value) else None
      else
        var s := Fire(cfg, w.s, i, step.m);
        if s.Some? then Some(w.(s := s.value, ids := IdsAfter(cfg, w, i, step.m))) else None
  }

  lemma AdvanceSized(cfg: Config, w: Written, i: nat, step: Step)
    requires Sized(cfg, w) && Advance(cfg, w, i, step).Some?
    ensures Sized(cfg, Advance(cfg, w, i, step).value)
  {
    var w' := Advance(cfg, w, i, step).value;
    if step.Act? && !AtLink(w.s.threads[i]) {
      FireSizes(cfg, w, i, step.m);
    }
  }

  /** A step other than a link takes an item out of a chain exactly where it takes its identity out. */
  lemma FireSizes(cfg: Config, w: Written, i: nat, m: Move)
    requires Sized(cfg, w) && i < |w.s.threads| && !AtLink(w.s.threads[i]) && Fire(cfg, w.s, i, m).Some?
    ensures
      var s, ids := Fire(cfg, w.s, i, m).value, IdsAfter(cfg, w, i, m);
      |ids| == cfg.buckets && forall b :: 0 <= b < cfg.buckets ==> |ids[b]| == |s.chains[b]|
  {
    match w.s.threads[i]
    case InBucket(op, stage) =>
      if !op.Create? {
        PlaceLength(op, w.s.chains[Slot(cfg, op.key)]);
      }
    case _ =>
  }

  lemma PlaceLength(op: Op, c: seq<File>)
    requires !op.Create?
    ensures
      var cur := Lookup(c, op.key);
      var next := Decide(op, cur).next;
      && |Place(c, op.key, next)| == |c| - (if cur.Some? && next.None? then 1 else 0)
      && (cur.Some? && next.None? ==> op.Remove?)
  {
  }

  /** A scheduled run of the code as written. */
  ghost function WrittenRun(cfg: Config, threads: nat, steps: seq<(nat, Step)>): (r: Option<Written>)
    ensures r.Some? ==> Sized(cfg, r.value)
  {
    if steps == [] then
      Some(Written(Initial(cfg, threads), seq(cfg.buckets, _ => []), seq(threads, _ => None), true))
    else
      var n := |steps| - 1;
      var before := WrittenRun(cfg, threads, steps[..n]);
      if before.None? then None
      else
        var after := Advance(cfg, before.value, steps[n].0, steps[n].1);
        if after.Some? then AdvanceSized(cfg, before.value, steps[n].0, steps[n].1); after else None
  }

  // ---------------------------------------------------------------------------
  // When nothing is lost
  // ---------------------------------------------------------------------------

  /** The thread is about to link and the head of its bucket is not the item it read. */
  predicate HeadMoved(cfg: Config, w: Written, i: nat)
    requires |w.ids| == cfg.buckets && |w.readings| == |w.s.threads|
  {
    && i < |w.s.threads| && AtLink(w.s.threads[i])
    && w.readings[i].Some? && w.readings[i].value.head != HeadOf(w.ids[Slot(cfg, w.s.threads[i].op.key)])
  }

  ghost predicate NoHeadMoved(cfg: Config, threads: nat, steps: seq<(nat, Step)>)
    requires WrittenRun(cfg, threads, steps).Some?
    decreases |steps|
  {
    steps != [] ==>
      var n := |steps| - 1;
      && NoHeadMoved(cfg, threads, steps[..n])
      && !(steps[n].1.Act? && HeadMoved(cfg, WrittenRun(cfg, threads, steps[..n]).value, steps[n].0))
  }

  ghost predicate Unrepeated(ids: seq<nat>) {
    forall j, k :: 0 <= j < k < |ids| ==> ids[j] != ids[k]
  }

  /** Linking in front of the item read leaves the chain as it was exactly when that item is the head. */
  lemma LinkKeepsExactly<T>(ids: seq<nat>, c: seq<T>, x: T, read: Option<nat>)
    requires |ids| == |c| && Unrepeated(ids)
    ensures
      var p := GoesOnAt(ids, read);
      (p.Some? && [x] + c[p.value..] == [x] + c) <==> read == HeadOf(ids)
  {
    var p := GoesOnAt(ids, read);
    if p.Some? {
      if p.value == 0 {
        assert c[0..] == c;
      } else {
        assert |[x] + c[p.value..]| < |[x] + c|;
      }
    }
  }

  /** No address occurs twice in a chain, and the items about to be linked are in no chain and apart. */
  ghost predicate Identified(w: Written) {
    && (forall b :: 0 <= b < |w.ids| ==> Unrepeated(w.ids[b]))
    && (forall b, i :: 0 <= b < |w.ids| && 0 <= i < |w.readings| && w.readings[i].Some? ==>
          w.readings[i].value.item !in w.ids[b])
    && (forall i, j :: 0 <= i < j < |w.readings| && w.readings[i].Some? && w.readings[j].Some? ==>
          w.readings[i].value.item != w.readings[j].value.item)
  }

  /** The addresses `ids'` come from a chain with the addresses `ids`, but for possibly a new one. */
  ghost predicate TakenFrom(ids': seq<nat>, ids: seq<nat>, item: Option<nat>) {
    Unrepeated(ids') && forall x :: x in ids' ==> x in ids || item == Some(x)
  }

  lemma RemoveTakes(ids: seq<nat>, p: nat)
    requires Unrepeated(ids) && p < |ids|
    ensures TakenFrom(RemoveAt(ids, p), ids, None)
  {
  }

  lemma LinkTakes(ids: seq<nat>, p: Option<nat>, item: nat)
    requires Unrepeated(ids) && item !in ids && (p.Some? ==> p.value <= |ids|)
    ensures TakenFrom([item] + if p.Some? then ids[p.value..] else [], ids, Some(item))
  {
  }

  lemma IdsAfterTake(cfg: Config, w: Written, i: nat, m: Move, b: nat)
    requires |w.s.chains| == |w.ids| == cfg.buckets && i < |w.s.threads| && b < cfg.buckets && Unrepeated(w.ids[b])
    ensures TakenFrom(IdsAfter(cfg, w, i, m)[b], w.ids[b], None)
  {
    if IdsAfter(cfg, w, i, m)[b] != w.ids[b] {
      RemoveTakes(w.ids[b],
                  if w.s.threads[i].InVictim? then m.index else Position(w.s.chains[b], w.s.threads[i].op.key));
    }
  }

  lemma AdvanceIdentified(cfg: Config, w: Written, i: nat, step: Step)
    requires Sized(cfg, w) && Identified(w) && Advance(cfg, w, i, step).Some?
    ensures Identified(Advance(cfg, w, i, step).value)
  {
    if step.Act? {
      var w' := Advance(cfg, w, i, step).value;
      var item := if AtLink(w.s.threads[i]) then Some(w.readings[i].value.item) else None;
      forall b | 0 <= b < |w.ids|
        ensures TakenFrom(w'.ids[b], w.ids[b], item)
      {
        if AtLink(w.s.threads[i]) {
          LinkTakes(w.ids[b], GoesOnAt(w.ids[b], w.readings[i].value.head), item.value);
        } else {
          IdsAfterTake(cfg, w, i, step.m, b);
        }
      }
    }
  }

  lemma {:induction false} RunIdentified(cfg: Config, threads: nat, steps: seq<(nat, Step)>)
    requires WrittenRun(cfg, threads, steps).Some?
    ensures Identified(WrittenRun(cfg, threads, steps).value)
    decreases |steps|
  {
    if steps != [] {
      var n := |steps| - 1;
      RunIdentified(cfg, threads, steps[..n]);
      AdvanceIdentified(cfg, WrittenRun(cfg, threads, steps[..n]).value, steps[n].0, steps[n].1);
    }
  }

  /** The moves of a run, without the unguarded reads. */
  function Acts(steps: seq<(nat, Step)>): seq<(nat, Move)> {
    if steps == [] then []
    else
      var n := |steps| - 1;
      Acts(steps[..n]) + if steps[n].1.Act? then [(steps[n].0, steps[n].1.m)] else []
  }

  /** One step: it keeps everything exactly when it is not a link with a moved head, and then it does what
      it does with the head read inside the guard. */
  lemma AdvanceKeepsExactly(cfg: Config, w: Written, i: nat, step: Step)
    requires Sized(cfg, w) && Identified(w) && Advance(cfg, w, i, step).Some? && w.kept
    ensures Advance(cfg, w, i, step).value.kept <==> !(step.Act? && HeadMoved(cfg, w, i))
    ensures Advance(cfg, w, i, step).value.kept ==>
      (if step.Act? then Fire(cfg, w.s, i, step.m) else Some(w.s)) == Some(Advance(cfg, w, i, step).value.s)
  {
    if step.Act? && AtLink(w.s.threads[i]) {
      var op := w.s.threads[i].op;
      var b := Slot(cfg, op.key);
      var f := Fresh(op.key, op.fd, op.lock);
      LinkKeepsExactly(w.ids[b], w.s.chains[b], f, w.readings[i].value.head);
      var s := BucketSection(cfg, w.s, i, op, Link);
      assert s.chains[b := [f] + w.s.chains[b]] == s.chains;
    }
  }

  lemma ActsOn(cfg: Config, threads: nat, steps: seq<(nat, Step)>)
    requires steps != []
    ensures
      var n := |steps| - 1;
      var before := Schedule(cfg, threads, Acts(steps[..n]));
      Schedule(cfg, threads, Acts(steps)) ==
        if steps[n].1.ReadHead? || before.None? then before
        else Fire(cfg, before.value, steps[n].0, steps[n].1.m)
  {
    var n := |steps| - 1;
    if steps[n].1.Act? {
      assert Acts(steps)[..|Acts(steps)| - 1] == Acts(steps[..n]);
    } else {
      assert Acts(steps) == Acts(steps[..n]);
    }
  }

  /** In every interleaving of the code as written, no link ever loses an item or leaves a dangling pointer
      if and only if at every link the head of the bucket is the item the thread had read; and then the run
      is one of module Guards, where the head is read inside the guard. */
  lemma {:induction false} KeptExactly(cfg: Config, threads: nat, steps: seq<(nat, Step)>)
    requires WrittenRun(cfg, threads, steps).Some?
    ensures WrittenRun(cfg, threads, steps).value.kept <==> NoHeadMoved(cfg, threads, steps)
    ensures WrittenRun(cfg, threads, steps).value.kept ==>
      Schedule(cfg, threads, Acts(steps)) == Some(WrittenRun(cfg, threads, steps).value.s)
    decreases |steps|
  {
    if steps != [] {
      var n := |steps| - 1;
      KeptExactly(cfg, threads, steps[..n]);
      RunIdentified(cfg, threads, steps[..n]);
      ActsOn(cfg, threads, steps);
      var w := WrittenRun(cfg, threads, steps[..n]).value;
      if w.kept {
        AdvanceKeepsExactly(cfg, w, steps[n].0, steps[n].1);
      } else {
        NeverKeptAgain(cfg, w, steps[n].0, steps[n].1);
      }
    }
  }

  lemma NeverKeptAgain(cfg: Config, w: Written, i: nat, step: Step)
    requires Sized(cfg, w) && Advance(cfg, w, i, step).Some? && !w.kept
    ensures !Advance(cfg, w, i, step).value.kept
  {
  }

  // ---------------------------------------------------------------------------
  // A file that is lost
  // ---------------------------------------------------------------------------

  lemma Extended(cfg: Config, n: nat, steps: seq<(nat, Step)>, w: Written, i: nat, step: Step)
    returns (more: seq<(nat, Step)>)
    requires WrittenRun(cfg, n, steps) == Some(w) && Sized(cfg, w) && Advance(cfg, w, i, step).Some?
    ensures WrittenRun(cfg, n, more) == Advance(cfg, w, i, step) && Sized(cfg, WrittenRun(cfg, n, more).value)
  {
    more := steps + [(i, step)];
    assert more[..|steps|] == steps;
  }

  /** A creation up to and including its read of the head. */
  lemma SearchAndRead(cfg: Config, n: nat, steps: seq<(nat, Step)>, w: Written, i: nat, op: Op, item: nat)
    returns (more: seq<(nat, Step)>)
    requires WrittenRun(cfg, n, steps) == Some(w) && Sized(cfg, w) && op.Create?
    requires i < |w.s.threads| && w.s.threads[i].Idle? && w.readings[i].None? && !InUse(w, item)
    requires w.s.bucketGuards[Slot(cfg, op.key)].None? && Lookup(w.s.chains[Slot(cfg, op.key)], op.key).None?
    ensures WrittenRun(cfg, n, more) ==
      Some(w.(s := w.s.(threads := w.s.threads[i := WantBucket(op, Link)]),
              readings := w.readings[i := Some(Reading(item, HeadOf(w.ids[Slot(cfg, op.key)])))]))
  {
    var b := Slot(cfg, op.key);
    more := Extended(cfg, n, steps, w, i, Act(Begin(op)));
    more := Extended(cfg, n, more, WrittenRun(cfg, n, more).value, i, Act(Go));
    more := Extended(cfg, n, more, WrittenRun(cfg, n, more).value, i, Act(Go));
    assert w.s.bucketGuards[b := Some(i)][b := None] == w.s.bucketGuards;
    assert w.s.threads[i := WantBucket(op, Search)][i := InBucket(op, Search)][i := WantBucket(op, Link)]
        == w.s.threads[i := WantBucket(op, Link)];
    more := Extended(cfg, n, more, WrittenRun(cfg, n, more).value, i, ReadHead(item));
  }

  function Entered(cfg: Config, w: Written, i: nat, op: Op): Written
    requires |w.s.bucketGuards| == cfg.buckets && i < |w.s.threads|
  {
    w.(s := w.s.(bucketGuards := w.s.bucketGuards[Slot(cfg, op.key) := Some(i)],
                 threads := w.s.threads[i := InBucket(op, Link)]))
  }

  lemma EnterLink(cfg: Config, n: nat, steps: seq<(nat, Step)>, w: Written, i: nat, op: Op)
    returns (more: seq<(nat, Step)>)
    requires WrittenRun(cfg, n, steps) == Some(w) && Sized(cfg, w) && op.Create?
    requires i < |w.s.threads| && w.s.threads[i] == WantBucket(op, Link) && w.readings[i].Some?
    requires w.s.bucketGuards[Slot(cfg, op.key)].None?
    ensures WrittenRun(cfg, n, more) == Some(Entered(cfg, w, i, op)) && Sized(cfg, Entered(cfg, w, i, op))
  {
    more := Extended(cfg, n, steps, w, i, Act(Go));
  }

  /** The state after a link whose thread had found the chain empty: only the new item is left. */
  function Overlaid(cfg: Config, w: Written, i: nat, op: Op): Written
    requires |w.s.chains| == |w.ids| == cfg.buckets && |w.readings| == |w.s.threads| && i < |w.s.threads| && op.Create?
    requires w.readings[i].Some?
  {
    var b := Slot(cfg, op.key);
    Written(w.s.(chains := w.s.chains[b := [Fresh(op.key, op.fd, op.lock)]],
                 threads := w.s.threads[i := WantStats(Delta(1, 0, 1), false)]),
            w.ids[b := [w.readings[i].value.item]], w.readings[i := None], w.kept && w.s.chains[b] == [])
  }

  lemma LinkAfterNone(cfg: Config, w: Written, i: nat, op: Op)
    requires Sized(cfg, w) && op.Create? && i < |w.s.threads|
    requires w.readings[i].Some? && w.readings[i].value.head == None
    requires w.s.bucketGuards[Slot(cfg, op.key)].None?
    ensures Sized(cfg, Entered(cfg, w, i, op))
    ensures LinkAsWritten(cfg, Entered(cfg, w, i, op), i, w.readings[i].value) == Some(Overlaid(cfg, w, i, op))
  {
    var b := Slot(cfg, op.key);
    var f, c := Fresh(op.key, op.fd, op.lock), w.s.chains[b];
    assert w.s.bucketGuards[b := Some(i)][b := None] == w.s.bucketGuards;
    assert w.s.threads[i := InBucket(op, Link)][i := WantStats(Delta(1, 0, 1), false)]
        == w.s.threads[i := WantStats(Delta(1, 0, 1), false)];
    var item := w.readings[i].value.item;
    assert [f] + c[|c|..] == [f] && [item] + w.ids[b][|c|..] == [item];
    assert w.s.chains[b := [f] + c][b := [f]] == w.s.chains[b := [f]];
    if c == [] {
      assert [f] + c == [f];
    } else {
      assert |[f] + c| > |[f]|;
    }
  }

  lemma AdvanceLinks(cfg: Config, w: Written, i: nat)
    requires Sized(cfg, w) && i < |w.s.threads| && AtLink(w.s.threads[i]) && w.readings[i].Some?
    ensures Advance(cfg, w, i, Act(Go)) == LinkAsWritten(cfg, w, i, w.readings[i].value)
  {
  }

  /** The rest of the creation, when the chain was empty at the read: what is there by now is lost. */
  lemma LinkOverAll(cfg: Config, n: nat, steps: seq<(nat, Step)>, w: Written, i: nat, op: Op)
    returns (more: seq<(nat, Step)>)
    requires WrittenRun(cfg, n, steps) == Some(w) && Sized(cfg, w) && op.Create?
    requires i < |w.s.threads| && w.s.threads[i] == WantBucket(op, Link)
    requires w.readings[i].Some? && w.readings[i].value.head == None
    requires w.s.bucketGuards[Slot(cfg, op.key)].None?
    ensures WrittenRun(cfg, n, more) == Some(Overlaid(cfg, w, i, op))
  {
    var inside := Entered(cfg, w, i, op);
    more := EnterLink(cfg, n, steps, w, i, op);
    LinkAfterNone(cfg, w, i, op);
    AdvanceLinks(cfg, inside, i);
    more := Extended(cfg, n, more, inside, i, Act(Go));
  }

  /** Two creations in an empty bucket, both reading its head before either links: both are granted, and
      only the second file can be found. */
  lemma FileLost(cfg: Config, key1: string, key2: string) returns (steps: seq<(nat, Step)>)
    requires key1 != key2 && Slot(cfg, key1) == Slot(cfg, key2)
    ensures WrittenRun(cfg, 2, steps).Some?
    ensures
      var w := WrittenRun(cfg, 2, steps).value;
      var granted := WantStats(Delta(1, 0, 1), false);
      && w.s.threads == [granted, granted]
      && w.s.chains[Slot(cfg, key1)] == [Fresh(key2, 2, false)]
      && Lookup(w.s.chains[Slot(cfg, key1)], key1) == None
      && !w.kept
  {
    var op1, op2 := Create(key1, 1, false), Create(key2, 2, false);
    var w := WrittenRun(cfg, 2, []).value;
    steps := SearchAndRead(cfg, 2, [], w, 0, op1, 10);
    w := WrittenRun(cfg, 2, steps).value;
    steps := SearchAndRead(cfg, 2, steps, w, 1, op2, 20);
    w := WrittenRun(cfg, 2, steps).value;
    steps := LinkOverAll(cfg, 2, steps, w, 0, op1);
    w := WrittenRun(cfg, 2, steps).value;
    steps := LinkOverAll(cfg, 2, steps, w, 1, op2);
  }
}
