/**
 The storage table as bucket chains plus statistics, and the shelf it stands for.

 A table keeps one newest-first chain of files per bucket. The shelf is the plain meaning:
 the live files in creation order, each path at most once, with a ledger of what happened.
 `RunAgrees` in module TableRuns shows that a table and its shelf answer every run of requests alike.
 */
module Tables {
  import opened Basics
  import opened Files

  datatype Policy = Fifo | SegmentedFifo

  /** `hash` is the path hash; nothing is assumed about it. */
  datatype RawConfig = Config(maxItems: nat, maxSpace: nat, policy: Policy, buckets: nat, hash: string -> nat)

  type Config = c: RawConfig | c.buckets > 0 witness Config(0, 0, Fifo, 1, _ => 0)

  datatype Stats = Stats(items: int, space: int, open: int, maxItems: int, maxSpace: int, evictions: int)

  /** `fifo` lists the keys oldest first; it is kept only under the FIFO policy. */
  datatype Table = Table(chains: seq<seq<File>>, stats: Stats, fifo: seq<string>)

  /** What the caller of a request gets back. */
  datatype Response = Response(answer: Answer, woken: Option<int>, evicted: seq<File>)

  datatype Outcome<+S> = Outcome(state: S, response: Response)

  datatype Evicted<+S> = Evicted(state: S, files: seq<File>)

  /** A request with the bucket numbers its segmented evictions drew. */
  datatype Call = Call(op: Op, picks: seq<nat>)

  function Slot(cfg: Config, key: string): (b: nat)
    ensures b < cfg.buckets
  {
    cfg.hash(key) % cfg.buckets
  }

  /** Index of the first file with this key, or the length if there is none. */
  function Position(s: seq<File>, key: string): (p: nat)
    ensures p <= |s|
    ensures p < |s| ==> s[p].key == key
    ensures forall i :: 0 <= i < p ==> s[i].key != key
  {
    if s == [] || s[0].key == key then 0 else 1 + Position(s[1..], key)
  }

  function Lookup(s: seq<File>, key: string): Option<File> {
    var p := Position(s, key);
    if p < |s| then Some(s[p]) else None
  }

  /** The list with `key`'s record replaced or dropped; a new record goes to the front. */
  function Place(s: seq<File>, key: string, next: Option<File>): seq<File> {
    var p := Position(s, key);
    if p < |s| then
      if next.Some? then s[p := next.value] else RemoveAt(s, p)
    else
      if next.Some? then [next.value] + s else s
  }

  /** The same on the shelf, where a new record goes to the end. */
  function Shelve(s: seq<File>, key: string, next: Option<File>): seq<File> {
    if Position(s, key) == |s| && next.Some? then s + [next.value] else Place(s, key, next)
  }

  // ---------------------------------------------------------------------------
  // The table
  // ---------------------------------------------------------------------------

  function EmptyTable(cfg: Config): Table {
    Table(seq(cfg.buckets, _ => []), Stats(0, 0, 0, 0, 0, 0), [])
  }

  /** The statistics section each request runs after releasing its bucket. */
  function Account(s: Stats, op: Op, cur: Option<File>, d: Decision): Stats {
    match op
    case Create(_, _, _) =>
      if cur.Some? then s
      else s.(items := s.items + 1, open := s.open + 1, maxItems := Max(s.maxItems, s.items + 1))
    case Open(_, _, _) => if d.answer.Ok? then s.(open := s.open + 1) else s
    case Close(_, _) => if d.answer.Ok? then s.(open := s.open - 1) else s
    case Remove(_, _) =>
      if cur.Some? && d.next.None?
      then s.(items := s.items - 1, open := s.open - 1, space := s.space - Size(cur.value))
      else s
    case Replace(_, data) => if cur.Some? then Grow(s, |data| - Size(cur.value)) else s
    case Append(_, data) => if cur.Some? then Grow(s, |data|) else s
    case _ => s
  }

  function Grow(s: Stats, delta: int): Stats {
    s.(space := s.space + delta, maxSpace := Max(s.maxSpace, s.space + delta))
  }

  function QueueAfter(cfg: Config, fifo: seq<string>, key: string, cur: Option<File>, next: Option<File>): seq<string> {
    if cfg.policy.SegmentedFifo? then fifo
    else if cur.None? && next.Some? then fifo + [key]
    else if cur.Some? && next.None? then Without(fifo, key)
    else fifo
  }

  function Without(q: seq<string>, key: string): seq<string> {
    if q == [] then [] else if q[0] == key then q[1..] else [q[0]] + Without(q[1..], key)
  }

  /** Taking out the first occurrence. */
  lemma {:induction false} WithoutAt(q: seq<string>, key: string, k: nat)
    requires k <= |q| && key !in q[..k] && (k < |q| ==> q[k] == key)
    ensures Without(q, key) == if k < |q| then RemoveAt(q, k) else q
  {
    if k > 0 {
      assert q[0] != key by { assert q[0] in q[..k]; }
      assert q[1..][..k - 1] == q[..k][1..];
      WithoutAt(q[1..], key, k - 1);
    }
  }

  /** Everything a request does before any eviction. */
  function Touch(cfg: Config, t: Table, op: Op): (t': Table)
    requires |t.chains| == cfg.buckets
    ensures |t'.chains| == cfg.buckets
  {
    var b := Slot(cfg, op.key);
    var cur := Lookup(t.chains[b], op.key);
    var d := Decide(op, cur);
    Table(t.chains[b := Place(t.chains[b], op.key, d.next)],
          Account(t.stats, op, cur, d),
          QueueAfter(cfg, t.fifo, op.key, cur, d.next))
  }

  predicate Over(cfg: Config, stats: Stats) {
    stats.items > cfg.maxItems || stats.space > cfg.maxSpace
  }

  /** The bucket the next victim is taken from: the one drawn, or that of the oldest queued key. */
  function VictimSlot(cfg: Config, t: Table, pick: nat): nat {
    if cfg.policy.Fifo? && t.fifo != [] then Slot(cfg, t.fifo[0]) else pick
  }

  /** The victim's index in its chain: the last, or the position of the oldest queued key. */
  function VictimPosition(cfg: Config, t: Table, pick: nat): nat
    requires |t.chains| == cfg.buckets && VictimSlot(cfg, t, pick) < cfg.buckets
  {
    var c := t.chains[VictimSlot(cfg, t, pick)];
    if cfg.policy.Fifo? && t.fifo != [] then Position(c, t.fifo[0])
    else if c == [] then 0 else |c| - 1
  }

  predicate HasVictim(cfg: Config, t: Table, pick: nat) {
    && |t.chains| == cfg.buckets
    && VictimSlot(cfg, t, pick) < cfg.buckets
    && VictimPosition(cfg, t, pick) < |t.chains[VictimSlot(cfg, t, pick)]|
    && (cfg.policy.Fifo? ==> t.fifo != [])
  }

  function EvictOne(cfg: Config, t: Table, pick: nat): (r: Evicted<Table>)
    requires HasVictim(cfg, t, pick)
    ensures |r.state.chains| == cfg.buckets && |r.files| == 1
  {
    var b := VictimSlot(cfg, t, pick);
    var p := VictimPosition(cfg, t, pick);
    var f := t.chains[b][p];
    var s := t.stats;
    Evicted(
      Table(t.chains[b := RemoveAt(t.chains[b], p)],
            s.(items := s.items - 1,
               space := s.space - Size(f),
               open := s.open - Opened(f),
               evictions := s.evictions + 1),
            if cfg.policy.Fifo? then t.fifo[1..] else t.fifo),
      [f])
  }

  /** The draws are those of one eviction run: it goes on exactly while a limit is exceeded. */
  predicate LegalPicks(cfg: Config, t: Table, picks: seq<nat>)
    decreases |picks|
  {
    if picks == [] then !Over(cfg, t.stats)
    else
      && Over(cfg, t.stats)
      && HasVictim(cfg, t, picks[0])
      && LegalPicks(cfg, EvictOne(cfg, t, picks[0]).state, picks[1..])
  }

  function EvictAll(cfg: Config, t: Table, picks: seq<nat>): (r: Evicted<Table>)
    requires LegalPicks(cfg, t, picks)
    ensures |t.chains| == cfg.buckets ==> |r.state.chains| == cfg.buckets
    ensures |r.files| == |picks|
    decreases |picks|
  {
    if picks == [] then Evicted(t, [])
    else
      var first := EvictOne(cfg, t, picks[0]);
      var rest := EvictAll(cfg, first.state, picks[1..]);
      Evicted(rest.state, first.files + rest.files)
  }

  /** Does the request reach the eviction loop? */
  predicate Settles(cfg: Config, t: Table, op: Op)
    requires |t.chains| == cfg.buckets
  {
    IsWrite(op) && Lookup(t.chains[Slot(cfg, op.key)], op.key).Some?
  }

  predicate LegalCall(cfg: Config, t: Table, call: Call)
    requires |t.chains| == cfg.buckets
  {
    if Settles(cfg, t, call.op) then LegalPicks(cfg, Touch(cfg, t, call.op), call.picks) else call.picks == []
  }

  function Step(cfg: Config, t: Table, call: Call): (r: Outcome<Table>)
    requires |t.chains| == cfg.buckets && LegalCall(cfg, t, call)
    ensures |r.state.chains| == cfg.buckets
  {
    var d := Decide(call.op, Lookup(t.chains[Slot(cfg, call.op.key)], call.op.key));
    var touched := Touch(cfg, t, call.op);
    if Settles(cfg, t, call.op) then
      var e := EvictAll(cfg, touched, call.picks);
      Outcome(e.state, Response(d.answer, d.woken, e.files))
    else
      Outcome(touched, Response(d.answer, d.woken, []))
  }

  // ---------------------------------------------------------------------------
  // The shelf
  // ---------------------------------------------------------------------------

  /** What has happened so far, counted from outside the table. `unsettled` counts the creations
      since the last write that reached the eviction loop. */
  datatype Ledger = Ledger(
    creates: nat,
    removals: nat,
    closedRemovals: nat,
    evictions: nat,
    peakItems: int,
    peakSpace: int,
    unsettled: nat
  )

  datatype Shelf = Shelf(files: seq<File>, ledger: Ledger)

  const EMPTY_SHELF := Shelf([], Ledger(0, 0, 0, 0, 0, 0, 0))

  predicate ShelfOver(cfg: Config, files: seq<File>) {
    |files| > cfg.maxItems || Total(files, Size) > cfg.maxSpace
  }

  /** The oldest file of bucket `b`, or the length if the bucket is empty. */
  function OldestIn(cfg: Config, files: seq<File>, b: nat): (i: nat)
    ensures i <= |files|
    ensures i < |files| ==> Slot(cfg, files[i].key) == b
    ensures forall j :: 0 <= j < i ==> Slot(cfg, files[j].key) != b
  {
    if files == [] || Slot(cfg, files[0].key) == b then 0 else 1 + OldestIn(cfg, files[1..], b)
  }

  /** FIFO evicts the oldest file of all; segmented FIFO the oldest of the bucket drawn. */
  function ShelfVictim(cfg: Config, files: seq<File>, pick: nat): nat {
    if cfg.policy.Fifo? then 0 else OldestIn(cfg, files, pick)
  }

  predicate LegalShelfPicks(cfg: Config, files: seq<File>, picks: seq<nat>)
    decreases |picks|
  {
    if picks == [] then !ShelfOver(cfg, files)
    else
      var i := ShelfVictim(cfg, files, picks[0]);
      ShelfOver(cfg, files) && i < |files| && LegalShelfPicks(cfg, RemoveAt(files, i), picks[1..])
  }

  function ShelfEvictAll(cfg: Config, files: seq<File>, picks: seq<nat>): (r: Evicted<seq<File>>)
    requires LegalShelfPicks(cfg, files, picks)
    decreases |picks|
  {
    if picks == [] then Evicted(files, [])
    else
      var i := ShelfVictim(cfg, files, picks[0]);
      var rest := ShelfEvictAll(cfg, RemoveAt(files, i), picks[1..]);
      Evicted(rest.state, [files[i]] + rest.files)
  }

  predicate ShelfSettles(files: seq<File>, op: Op) {
    IsWrite(op) && Lookup(files, op.key).Some?
  }

  function ShelfTouch(files: seq<File>, op: Op): seq<File> {
    Shelve(files, op.key, Decide(op, Lookup(files, op.key)).next)
  }

  predicate LegalShelfCall(cfg: Config, s: Shelf, call: Call) {
    if ShelfSettles(s.files, call.op) then LegalShelfPicks(cfg, ShelfTouch(s.files, call.op), call.picks)
    else call.picks == []
  }

  /** The ledger entry for a request that met `cur`, left `next`, filled the shelf to `touched`
      and then evicted `evicted` files. */
  function Enter(l: Ledger, cur: Option<File>, next: Option<File>, touched: seq<File>, settles: bool,
                 evicted: nat): Ledger {
    var created := if cur.None? && next.Some? then 1 else 0;
    var removed := if cur.Some? && next.None? then 1 else 0;
    Ledger(
      l.creates + created,
      l.removals + removed,
      l.closedRemovals + (if removed == 1 && !cur.value.isOpen then 1 else 0),
      l.evictions + evicted,
      Max(l.peakItems, |touched|),
      Max(l.peakSpace, Total(touched, Size)),
      if settles then 0 else l.unsettled + created)
  }

  function ShelfStep(cfg: Config, s: Shelf, call: Call): Outcome<Shelf>
    requires LegalShelfCall(cfg, s, call)
  {
    var cur := Lookup(s.files, call.op.key);
    var d := Decide(call.op, cur);
    var touched := ShelfTouch(s.files, call.op);
    if ShelfSettles(s.files, call.op) then
      var e := ShelfEvictAll(cfg, touched, call.picks);
      Outcome(Shelf(e.state, Enter(s.ledger, cur, d.next, touched, true, |e.files|)),
              Response(d.answer, d.woken, e.files))
    else
      Outcome(Shelf(touched, Enter(s.ledger, cur, d.next, touched, false, 0)),
              Response(d.answer, d.woken, []))
  }
}
