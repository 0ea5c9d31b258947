/** Whole runs of the database against a plain map: the log-structured engine answers
    every read as the map does (db/db_impl.cc). */
module Refinement {
  import opened Dbformat
  import opened Version
  import opened InputSelection
  import opened CompactionMeaning
  import opened CompactionScene
  import opened CompactionTheorem
  import opened DbSteps
  import opened DbImpl

  type Model = map<UserKey, Value>

  function Lookup(m: Model, k: UserKey): Option<Value> {
    if k in m then Some(m[k]) else None
  }

  function Applied(m: Model, ops: seq<Op>): Model {
    if ops == [] then m
    else
      var front, op := Applied(m, ops[..|ops| - 1]), ops[|ops| - 1];
      match op
      case OpPut(k, value) => front[k := value]
      case OpDelete(k) => front - {k}
  }

  lemma {:induction false} AppliedIsLastOp(m: Model, ops: seq<Op>, k: UserKey)
    ensures Lookup(Applied(m, ops), k)
         == if LastOp(ops, k).Some? then Written(LastOp(ops, k).value) else Lookup(m, k)
  {
    if ops != [] { AppliedIsLastOp(m, ops[..|ops| - 1], k); }
  }

  /** Reads at `s` answer as the map does. */
  ghost predicate Represents(es: set<Entry>, s: SeqNo, m: Model) {
    forall k :: Read(es, k, s) == Lookup(m, k)
  }

  lemma WriteRefines(es: set<Entry>, ops: seq<Op>, last: SeqNo, m: Model)
    requires last + |ops| <= MAX_SEQUENCE && UniqueSeqs(es) && UpTo(es, last) && Represents(es, last, m)
    ensures Represents(es + BatchEntries(ops, last), last + |ops|, Applied(m, ops))
  {
    forall k ensures Read(es + BatchEntries(ops, last), k, last + |ops|) == Lookup(Applied(m, ops), k) {
      BatchIsRead(es, ops, last, k);
      AppliedIsLastOp(m, ops, k);
    }
  }

  lemma SnapshotRefines(es: set<Entry>, ops: seq<Op>, last: SeqNo, s: SeqNo, m: Model)
    requires last + |ops| <= MAX_SEQUENCE && UniqueSeqs(es) && UpTo(es, last) && s <= last && Represents(es, s, m)
    ensures Represents(es + BatchEntries(ops, last), s, m)
  {
    forall k ensures Read(es + BatchEntries(ops, last), k, s) == Lookup(m, k) {
      SnapshotIgnoresBatch(es, ops, last, k, s);
    }
  }

  // ---- what the commands do to the map --------------------------------------------

  datatype Command =
    | DoWrite(ops: seq<Op>)
    | DoSwitch
    | DoFlush(size: nat)
    | DoCompact(why: Trigger, stopBefore: nat -> bool, full: nat -> bool, sizes: nat -> nat)
    | DoCompactRange(level: nat, begin: Bound, end: Bound, stopBefore: nat -> bool, full: nat -> bool, sizes: nat -> nat)
    | DoSnapshot
    | DoRelease(index: nat)

  /** The map now, the maps that the live snapshots hold, and how many operations were applied. */
  datatype Reference = Reference(now: Model, held: seq<Model>, last: SeqNo)

  function After1(r: Reference, c: Command): Reference {
    match c
    case DoWrite(ops) =>
      if r.last + |ops| <= MAX_SEQUENCE then r.(now := Applied(r.now, ops), last := r.last + |ops|) else r
    case DoSnapshot => r.(held := r.held + [r.now])
    case DoRelease(i) => if i < |r.held| then r.(held := r.held[..i] + r.held[i + 1..]) else r
    case _ => r
  }

  function ReferenceAfter(commands: seq<Command>): Reference {
    if commands == [] then Reference(map[], [], 0)
    else After1(ReferenceAfter(commands[..|commands| - 1]), commands[|commands| - 1])
  }

  // ---- what they do to the database ------------------------------------------------

  /** What the database object holds. */
  datatype View = View(mem: seq<Entry>, imm: Option<seq<Entry>>, current: Version, last: SeqNo, snapshots: seq<SeqNo>) {
    ghost function Upper(): set<Entry> { Elements(mem) + ImmEntries(imm) }

    ghost function Contents(): set<Entry> { Upper() + VersionEntries(current) }

    function Smallest(): SeqNo { if snapshots == [] then last else snapshots[0] }

    ghost predicate Ok() { Ordered(mem, imm, current, last) && OldestFirst(snapshots, last) }
  }

  const EMPTY_VIEW := View([], None, [[], [], [], [], [], [], []], 0, [])

  /** A compaction: its inputs, and whether it moved a file rather than merge. */
  datatype Compacted = Compacted(level: nat, inputs0: seq<File>, inputs1: seq<File>, moved: bool)

  ghost predicate Moved(s: View, s': View, m: Compacted) {
    s'.Contents() == s.Contents() && MovedDown(s.current, m.level, m.inputs0, s'.current)
  }

  ghost predicate Merged(s: View, s': View, m: Compacted) {
    && |s.current| == NUM_LEVELS && m.level + 1 < NUM_LEVELS && Selected(s.current, m.level, m.inputs0, m.inputs1)
    && s'.Contents() == After(SceneOf(s.Upper(), s.current, m.level, m.inputs0, m.inputs1), s.Smallest())
    && MergedDown(s.current, m.level, m.inputs0, m.inputs1, s.Smallest(), s'.current)
  }

  /** Something is picked for this trigger. */
  predicate Ripe(s: View, why: Trigger) {
    why.level + 1 < NUM_LEVELS && why.level < |s.current| && s.current[why.level] != []
    && (why.Seeks? ==> why.file in s.current[why.level])
  }

  /** One command, and the compaction it led to. */
  ghost predicate Stepped(maxFileSize: nat, c: Command, s: View, s': View, met: Option<Compacted>) {
    match c
    case DoWrite(ops) =>
      met.None? && s' == if s.last + |ops| <= MAX_SEQUENCE then s.(mem := MemAfter(s.mem, ops, s.last), last := s.last + |ops|) else s
    case DoSwitch => met.None? && s' == if s.imm.None? then s.(mem := [], imm := Some(s.mem)) else s
    case DoFlush(_) =>
      && met.None? && s' == s.(imm := None, current := s'.current)
      && (s.imm.None? ==> s' == s)
      && VersionEntries(s'.current) == VersionEntries(s.current) + ImmEntries(s.imm)
    case DoCompact(why, _, _, _) =>
      && s' == s.(current := s'.current)
      && if !Ripe(s, why) then met.None? && s' == s
         else met.Some? && met.value.level == why.level && Automatic(maxFileSize, why, s, s', met.value)
    case DoCompactRange(level, begin, end, _, _, _) =>
      && s' == s.(current := s'.current)
      && if level + 1 >= NUM_LEVELS || |s.current| != NUM_LEVELS then met.None? && s' == s
         else Manual(maxFileSize, level, begin, end, s, s', met)
    case DoSnapshot => met.None? && s' == s.(snapshots := s.snapshots + [s.last])
    case DoRelease(i) =>
      met.None? && s' == if i < |s.snapshots| then s.(snapshots := s.snapshots[..i] + s.snapshots[i + 1..]) else s
  }

  /** The trigger is served, by a move exactly when that is trivial and else by a merge. */
  ghost predicate Automatic(maxFileSize: nat, why: Trigger, s: View, s': View, m: Compacted) {
    && |s.current| == NUM_LEVELS && why.level < NUM_LEVELS && Serves(s.current, why, m.inputs0)
    && (m.moved <==> Trivial(s.current, m.level, m.inputs0, m.inputs1, maxFileSize))
    && if m.moved then Moved(s, s', m) else Merged(s, s', m)
  }

  /** The range is merged, or nothing is in it. */
  ghost predicate Manual(maxFileSize: nat, level: nat, begin: Bound, end: Bound, s: View, s': View, met: Option<Compacted>)
    requires |s.current| == NUM_LEVELS && level + 1 < NUM_LEVELS
  {
    if met.Some? then
      && met.value.level == level && !met.value.moved && Merged(s, s', met.value)
      && Covers(s.current[level], level, maxFileSize, begin, end, met.value.inputs0)
    else s' == s && forall f :: f in s.current[level] ==> !Overlaps(f, begin, end)
  }

  /** The states that the commands lead through from an empty database. */
  ghost predicate IsRun(maxFileSize: nat, commands: seq<Command>, states: seq<View>, mets: seq<Option<Compacted>>) {
    && |states| == |commands| + 1 && |mets| == |commands| && states[0] == EMPTY_VIEW
    && (forall i :: 0 <= i < |states| ==> states[i].Ok())
    && forall i :: 0 <= i < |commands| ==> Stepped(maxFileSize, commands[i], states[i], states[i + 1], mets[i])
  }

  // ---- refinement ------------------------------------------------------------------

  ghost predicate Refines(s: View, r: Reference) {
    && r.last == s.last && Represents(s.Contents(), s.last, r.now)
    && |r.held| == |s.snapshots|
    && forall i :: 0 <= i < |s.snapshots| ==> Represents(s.Contents(), s.snapshots[i], r.held[i])
  }

  ghost predicate Loses(s: View, met: Option<Compacted>) {
    met.Some? && !met.value.moved && |s.current| == NUM_LEVELS && met.value.level + 1 < NUM_LEVELS
    && LosesData(s.Upper(), s.current, met.value.level, met.value.inputs0, met.value.inputs1, s.Smallest())
  }

  lemma OkSays(s: View)
    requires s.Ok()
    ensures UniqueSeqs(s.Contents()) && UpTo(s.Contents(), s.last) && WellOrdered(s.Upper(), s.current)
  {}

  lemma SameContentsRefine(s: View, s': View, r: Reference)
    requires Refines(s, r) && s'.Contents() == s.Contents() && s'.last == s.last && s'.snapshots == s.snapshots
    ensures Refines(s', r)
  {}

  lemma WriteKeeps(s: View, s': View, ops: seq<Op>, r: Reference)
    requires s.Ok() && Refines(s, r) && s.last + |ops| <= MAX_SEQUENCE
    requires s' == s.(mem := MemAfter(s.mem, ops, s.last), last := s.last + |ops|)
    ensures Refines(s', r.(now := Applied(r.now, ops), last := s.last + |ops|))
  {
    hide Ordered, MemAfter, Represents, UniqueSeqs, UpTo, WellOrdered;
    OkSays(s);
    var es := s.Contents();
    MemAfterIsOrdered(s.mem, s.imm, s.current, s.last, ops);
    assert s'.Contents() == es + BatchEntries(ops, s.last);
    WriteRefines(es, ops, s.last, r.now);
    forall i | 0 <= i < |s.snapshots| ensures Represents(s'.Contents(), s.snapshots[i], r.held[i]) {
      SnapshotRefines(es, ops, s.last, s.snapshots[i], r.held[i]);
    }
  }

  lemma SnapshotKeeps(s: View, r: Reference)
    requires Refines(s, r)
    ensures Refines(s.(snapshots := s.snapshots + [s.last]), After1(r, DoSnapshot))
  {
    hide Represents;
    assert s.(snapshots := s.snapshots + [s.last]).Contents() == s.Contents();
  }

  lemma ReleaseKeeps(s: View, i: nat, r: Reference)
    requires Refines(s, r) && i < |s.snapshots|
    ensures Refines(s.(snapshots := s.snapshots[..i] + s.snapshots[i + 1..]), After1(r, DoRelease(i)))
  {
    hide Represents;
    var s' := s.(snapshots := s.snapshots[..i] + s.snapshots[i + 1..]);
    var r' := After1(r, DoRelease(i));
    assert s'.Contents() == s.Contents();
    forall j | 0 <= j < |s'.snapshots| ensures Represents(s'.Contents(), s'.snapshots[j], r'.held[j]) {
      var k := if j < i then j else j + 1;
      assert s'.snapshots[j] == s.snapshots[k] && r'.held[j] == r.held[k];
    }
  }

  /** A merge that loses data changes a read at the smallest snapshot. */
  lemma LossShows(upper: set<Entry>, v: Version, level: nat, inputs0: seq<File>, inputs1: seq<File>, snapshot: SeqNo)
    returns (k: UserKey)
    requires WellOrdered(upper, v) && Selected(v, level, inputs0, inputs1)
    requires LosesData(upper, v, level, inputs0, inputs1, snapshot)
    ensures Read(After(SceneOf(upper, v, level, inputs0, inputs1), snapshot), k, snapshot)
         != Read(upper + VersionEntries(v), k, snapshot)
  {
    hide BoundaryTombstone, After, SceneOf;
    var c := SceneOf(upper, v, level, inputs0, inputs1);
    SceneIsValid(upper, v, level, inputs0, inputs1);
    if snapshot < MAX_SEQUENCE {
      var g, t :| BoundaryTombstone(upper, v, level, inputs0, inputs1, snapshot, g, t);
      BoundaryTombstoneShows(upper, v, level, inputs0, inputs1, snapshot, g, t);
      k := g.smallest.ukey;
    } else {
      var t :| Exposed(c, t);
      k := t.key.ukey;
      AllDroppedIff(c, k);
    }
  }

  /** The reference's maps are what the reads give: so a read that changes shows. */
  lemma MergeRefinesIff(s: View, s': View, m: Compacted, r: Reference)
    requires s.Ok() && Refines(s, r) && Merged(s, s', m) && !m.moved && s' == s.(current := s'.current)
    ensures Refines(s', r) <==> !Loses(s, Some(m))
  {
    hide After, SceneOf, LosesData, Selected, Ordered, WellOrdered, UniqueSeqs, UpTo, MergedDown;
    OkSays(s);
    var snapshot := s.Smallest();
    var after := After(SceneOf(s.Upper(), s.current, m.level, m.inputs0, m.inputs1), snapshot);
    if Loses(s, Some(m)) {
      var k := LossShows(s.Upper(), s.current, m.level, m.inputs0, m.inputs1, snapshot);
      var held := if s.snapshots == [] then r.now else r.held[0];
      assert Represents(s.Contents(), snapshot, held);
      assert Refines(s', r) ==> Represents(after, snapshot, held);
    } else {
      CompactionPreservesReadsIff(s.Upper(), s.current, m.level, m.inputs0, m.inputs1, snapshot);
      assert Represents(after, s.last, r.now);
      forall i | 0 <= i < |s.snapshots| ensures Represents(after, s.snapshots[i], r.held[i]) {
        assert snapshot <= s.snapshots[i];
      }
    }
  }

  /** One command keeps the refinement exactly when it does not lose data. */
  lemma StepRefinesIff(maxFileSize: nat, c: Command, s: View, s': View, met: Option<Compacted>, r: Reference)
    requires s.Ok() && Refines(s, r) && Stepped(maxFileSize, c, s, s', met)
    ensures Refines(s', After1(r, c)) <==> !Loses(s, met)
  {
    hide Ordered, MemAfter, Represents, Merged, After, SceneOf, LosesData, VersionEntries, WellOrdered, UniqueSeqs, MovedDown, Trivial,
         Serves, Covers;
    match c {
      case DoWrite(ops) => if s.last + |ops| <= MAX_SEQUENCE { WriteKeeps(s, s', ops, r); }
      case DoSwitch =>
        assert Elements([]) == {};
        assert s'.Contents() == s.Contents();
        SameContentsRefine(s, s', r);
      case DoFlush(_) =>
        assert s'.Contents() == s.Contents();
        SameContentsRefine(s, s', r);
      case DoCompact(why, _, _, _) =>
        if met.Some? && !met.value.moved { MergeRefinesIff(s, s', met.value, r); } else { SameContentsRefine(s, s', r); }
      case DoCompactRange(_, _, _, _, _, _) =>
        if met.Some? { MergeRefinesIff(s, s', met.value, r); }
      case DoSnapshot => SnapshotKeeps(s, r);
      case DoRelease(i) => if i < |s.snapshots| { ReleaseKeeps(s, i, r); }
    }
  }

  ghost predicate NoLoss(states: seq<View>, mets: seq<Option<Compacted>>, n: nat)
    requires n <= |mets| <= |states|
  {
    forall i :: 0 <= i < n ==> !Loses(states[i], mets[i])
  }

  ghost predicate RefinesUpTo(commands: seq<Command>, states: seq<View>, n: nat)
    requires n <= |commands| < |states|
  {
    forall i :: 0 <= i <= n ==> Refines(states[i], ReferenceAfter(commands[..i]))
  }

  lemma EmptyRefines()
    ensures Refines(EMPTY_VIEW, ReferenceAfter([]))
  {
    var es := EMPTY_VIEW.Contents();
    assert es == {} by {
      EmptyVersion(EMPTY_VIEW.current);
      assert Elements([]) == {};
    }
    forall k ensures Read(es, k, 0) == None { VisibleSpec(es, k, 0); }
  }

  /** Any run: the database answers every read, now and at every live snapshot, as the map
      does, at every moment, if and only if no merge lost data. */
  lemma {:induction false} RunRefinesIff(maxFileSize: nat, commands: seq<Command>, states: seq<View>, mets: seq<Option<Compacted>>, n: nat)
    requires IsRun(maxFileSize, commands, states, mets) && n <= |commands|
    ensures RefinesUpTo(commands, states, n) <==> NoLoss(states, mets, n)
    decreases n
  {
    hide Refines, Stepped, Loses, Ordered;
    if n == 0 {
      EmptyRefines();
      assert commands[..0] == [];
    } else {
      RunRefinesIff(maxFileSize, commands, states, mets, n - 1);
      assert commands[..n][..n - 1] == commands[..n - 1] && commands[..n][n - 1] == commands[n - 1];
      var r := ReferenceAfter(commands[..n - 1]);
      assert ReferenceAfter(commands[..n]) == After1(r, commands[n - 1]);
      if Refines(states[n - 1], r) {
        StepRefinesIff(maxFileSize, commands[n - 1], states[n - 1], states[n], mets[n - 1], r);
      }
      UpToOneMore(commands, states, mets, n);
    }
  }

  lemma UpToOneMore(commands: seq<Command>, states: seq<View>, mets: seq<Option<Compacted>>, n: nat)
    requires 0 < n <= |commands| && |states| == |commands| + 1 && |mets| == |commands|
    ensures RefinesUpTo(commands, states, n)
       <==> RefinesUpTo(commands, states, n - 1) && Refines(states[n], ReferenceAfter(commands[..n]))
    ensures NoLoss(states, mets, n) <==> NoLoss(states, mets, n - 1) && !Loses(states[n - 1], mets[n - 1])
    ensures RefinesUpTo(commands, states, n - 1) ==> Refines(states[n - 1], ReferenceAfter(commands[..n - 1]))
  {
    hide Refines, Loses, ReferenceAfter;
  }

  // ---- running the database ----------------------------------------------------------

  ghost function ViewOf(db: DBImpl): View
    reads db
  {
    View(db.mem, db.imm, db.current, db.lastSequence, db.snapshots)
  }

  /** One command, if its moment has come. */
  method Step(db: DBImpl, c: Command) returns (ghost met: Option<Compacted>)
    requires db.Valid()
    modifies db
    ensures db.Valid() && Stepped(db.maxFileSize, c, old(ViewOf(db)), ViewOf(db), met)
  {
    hide Ordered, MemAfter, After, SceneOf, Selected, VersionEntries, MovedDown, MergedDown, Trivial, Serves, Covers;
    met := None;
    match c {
      case DoWrite(ops) => if db.lastSequence + |ops| <= MAX_SEQUENCE { db.Write(ops); }
      case DoSwitch => if db.imm.None? { db.SwitchMemTable(); }
      case DoFlush(size) => if db.imm.Some? { db.CompactMemTable(size); }
      case DoCompact(why, stopBefore, full, sizes) =>
        SevenLevels(db);
        if why.level + 1 < NUM_LEVELS && db.current[why.level] != [] && (why.Seeks? ==> why.file in db.current[why.level]) {
          var moved, inputs0, inputs1 := db.BackgroundCompaction(why, stopBefore, full, sizes);
          met := Some(Compacted(why.level, inputs0, inputs1, moved));
        }
      case DoCompactRange(level, begin, end, stopBefore, full, sizes) =>
        SevenLevels(db);
        if level + 1 < NUM_LEVELS {
          var inputs0, inputs1 := db.ManualCompaction(level, begin, end, stopBefore, full, sizes);
          if inputs0 != [] { met := Some(Compacted(level, inputs0, inputs1, false)); }
        }
      case DoSnapshot => var _ := db.GetSnapshot();
      case DoRelease(index) => if index < |db.snapshots| { db.ReleaseSnapshot(index); }
    }
  }

  lemma SevenLevels(db: DBImpl)
    requires db.Valid()
    ensures |db.current| == NUM_LEVELS
  {}

  lemma ValidIsOk(db: DBImpl)
    requires db.Valid()
    ensures ViewOf(db).Ok()
  {}

  /** Executes a run, then reads: the states are those of a run of these commands, the
      database is in the last one, and unless a merge lost data the answer is the map's. */
  method Run(commands: seq<Command>, maxFileSize: nat, k: UserKey)
    returns (db: DBImpl, answer: Option<Value>, ghost states: seq<View>, ghost mets: seq<Option<Compacted>>)
    ensures db.Valid() && IsRun(maxFileSize, commands, states, mets) && states[|commands|] == ViewOf(db)
    ensures answer == Read(db.Contents(), k, db.lastSequence)
    ensures NoLoss(states, mets, |commands|) ==> answer == Lookup(ReferenceAfter(commands).now, k)
  {
    hide Stepped, Loses, Ordered, Refines, ReferenceAfter;
    db := new DBImpl(maxFileSize);
    states, mets := [ViewOf(db)], [];
    ValidIsOk(db);
    for i := 0 to |commands|
      invariant db.Valid() && fresh(db) && db.maxFileSize == maxFileSize && |states| == i + 1 && |mets| == i && states[0] == EMPTY_VIEW && states[i] == ViewOf(db)
      invariant forall j :: 0 <= j <= i ==> states[j].Ok()
      invariant forall j :: 0 <= j < i ==> Stepped(maxFileSize, commands[j], states[j], states[j + 1], mets[j])
    {
      ghost var met := Step(db, commands[i]);
      ValidIsOk(db);
      states, mets := states + [ViewOf(db)], mets + [met];
    }
    answer := db.Get(k, None);
    RunRefinesIff(maxFileSize, commands, states, mets, |commands|);
    if NoLoss(states, mets, |commands|) {
      LastRefines(commands, states);
      RefinesReads(ViewOf(db), ReferenceAfter(commands), k);
    }
  }

  lemma LastRefines(commands: seq<Command>, states: seq<View>)
    requires |states| == |commands| + 1 && RefinesUpTo(commands, states, |commands|)
    ensures Refines(states[|commands|], ReferenceAfter(commands))
  {
    hide Refines, ReferenceAfter;
    assert commands[..|commands|] == commands;
  }

  lemma RefinesReads(s: View, r: Reference, k: UserKey)
    requires Refines(s, r)
    ensures Read(s.Contents(), k, s.last) == Lookup(r.now, k)
  {}
}
