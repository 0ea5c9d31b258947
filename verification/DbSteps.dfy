/** What the steps of the database object need: batches, the order of the memtables,
    the input run of a compaction and its output files (db/db_impl.cc, db/write_batch.cc). */
module DbSteps {
  import opened Dbformat
  import opened Version
  import opened InputSelection
  import opened CompactionMeaning
  import opened CompactionWork
  import opened CompactionScene
  import opened CompactionTheorem
  import opened VersionBuilder
  import opened LevelSteps
  import opened Flush
  import opened Runs
  import opened Install

  // ---- write batches -----------------------------------------------------------

  datatype Op = OpPut(key: UserKey, value: Value) | OpDelete(key: UserKey)

  function EntryOf(op: Op, s: SeqNo): Entry {
    match op
    case OpPut(k, value) => Entry(IKey(k, s, Put), value)
    case OpDelete(k) => Entry(IKey(k, s, Deletion), [])
  }

  function Written(op: Op): Option<Value> {
    if op.OpPut? then Some(op.value) else None
  }

  /** MemTableInserter numbers the operations of a batch in order. */
  ghost function BatchEntries(ops: seq<Op>, last: nat): set<Entry>
    requires last + |ops| <= MAX_SEQUENCE
  {
    if ops == [] then {}
    else BatchEntries(ops[..|ops| - 1], last) + {EntryOf(ops[|ops| - 1], last + |ops|)}
  }

  /** What the batch says about a key: its last operation wins. */
  function LastOp(ops: seq<Op>, k: UserKey): Option<Op> {
    if ops == [] then None
    else if ops[|ops| - 1].key == k then Some(ops[|ops| - 1])
    else LastOp(ops[..|ops| - 1], k)
  }

  ghost predicate UpTo(es: set<Entry>, last: nat) {
    forall e :: e in es ==> e.key.seqno <= last
  }

  lemma {:induction false} BatchEntriesAreNew(ops: seq<Op>, last: nat)
    requires last + |ops| <= MAX_SEQUENCE
    ensures forall e :: e in BatchEntries(ops, last) ==> last < e.key.seqno <= last + |ops|
    ensures forall x, y | x in BatchEntries(ops, last) && y in BatchEntries(ops, last) ::
              x.key.seqno == y.key.seqno ==> x == y
  {
    if ops != [] { BatchEntriesAreNew(ops[..|ops| - 1], last); }
  }

  /** Older snapshots do not see a write. */
  lemma SnapshotIgnoresBatch(es: set<Entry>, ops: seq<Op>, last: nat, k: UserKey, s: SeqNo)
    requires last + |ops| <= MAX_SEQUENCE && UniqueSeqs(es) && UpTo(es, last) && s <= last
    ensures Read(es + BatchEntries(ops, last), k, s) == Read(es, k, s)
  {
    BatchEntriesAreNew(ops, last);
    ReadDepends(es + BatchEntries(ops, last), es, k, s, s);
  }

  lemma BatchKeepsUnique(es: set<Entry>, ops: seq<Op>, last: nat)
    requires last + |ops| <= MAX_SEQUENCE && UniqueSeqs(es) && UpTo(es, last)
    ensures UniqueSeqs(es + BatchEntries(ops, last)) && UpTo(es + BatchEntries(ops, last), last + |ops|)
  {
    BatchEntriesAreNew(ops, last);
  }

  lemma OneMoreEntry(es: set<Entry>, es': set<Entry>, op: Op, last: SeqNo, s: SeqNo, k: UserKey)
    requires es' == es + {EntryOf(op, s)} && s == last + 1 && UniqueSeqs(es) && UpTo(es, last)
    ensures Read(es', k, s) == if op.key == k then Written(op) else Read(es, k, last)
  {
    var e := EntryOf(op, s);
    if op.key == k {
      assert Newest(es', k, s, e);
      VisibleIs(es', k, s, e);
    } else {
      ReadDepends(es', es, k, s, last);
    }
  }

  /** The newest snapshot sees the last operation on each key, and nothing else changed. */
  lemma {:induction false} BatchIsRead(es: set<Entry>, ops: seq<Op>, last: nat, k: UserKey)
    requires last + |ops| <= MAX_SEQUENCE && UniqueSeqs(es) && UpTo(es, last)
    ensures Read(es + BatchEntries(ops, last), k, last + |ops|)
         == if LastOp(ops, k).Some? then Written(LastOp(ops, k).value) else Read(es, k, last)
  {
    if ops == [] {
      assert es + BatchEntries(ops, last) == es;
    } else {
      var n := |ops| - 1;
      BatchKeepsUnique(es, ops[..n], last);
      BatchAppend(es, ops, last);
      OneMoreEntry(es + BatchEntries(ops[..n], last), es + BatchEntries(ops, last), ops[n], last + n, last + |ops|, k);
      BatchIsRead(es, ops[..n], last, k);
    }
  }

  lemma BatchAppend(es: set<Entry>, ops: seq<Op>, last: nat)
    requires last + |ops| <= MAX_SEQUENCE && ops != []
    ensures es + BatchEntries(ops, last)
         == es + BatchEntries(ops[..|ops| - 1], last) + {EntryOf(ops[|ops| - 1], last + |ops|)}
  {}

  // ---- the order of memtables and version --------------------------------------

  ghost function ImmEntries(imm: Option<seq<Entry>>): set<Entry> {
    if imm.Some? then Elements(imm.value) else {}
  }

  ghost predicate Ordered(mem: seq<Entry>, imm: Option<seq<Entry>>, v: Version, last: nat) {
    && Sorted(mem) && (imm.Some? ==> Sorted(imm.value))
    && Newer(Elements(mem), ImmEntries(imm))
    && WellOrdered(Elements(mem) + ImmEntries(imm), v)
    && UpTo(Elements(mem) + ImmEntries(imm) + VersionEntries(v), last)
  }

  lemma NewestEntryFits(es: set<Entry>, last: nat, e: Entry)
    requires UniqueSeqs(es) && UpTo(es, last) && e.key.seqno == last + 1
    ensures UniqueSeqs(es + {e}) && Newer({e}, es) && UpTo(es + {e}, last + 1)
  {}

  /** MemTable::Add with the next sequence number. */
  lemma AddKeepsOrder(mem: seq<Entry>, imm: Option<seq<Entry>>, v: Version, last: nat, e: Entry)
    requires Ordered(mem, imm, v, last) && e.key.seqno == last + 1
    ensures Ordered(MergeRuns(mem, [e]), imm, v, last + 1)
    ensures Elements(MergeRuns(mem, [e])) == Elements(mem) + {e}
  {
    var below := ImmEntries(imm);
    var all := Elements(mem) + below + VersionEntries(v);
    NewestEntryFits(all, last, e);
    forall x | x in mem ensures x.key != e.key { assert x in all; }
    MergeSorted(mem, [e]);
    MergeIsUnion(mem, [e]);
    assert Elements([e]) == {e};
    assert Elements(MergeRuns(mem, [e])) + below + VersionEntries(v) == all + {e};
  }

  /** What a write does to every read. */
  lemma WriteIsRead(es: set<Entry>, es': set<Entry>, ops: seq<Op>, last: SeqNo)
    requires last + |ops| <= MAX_SEQUENCE && UniqueSeqs(es) && UpTo(es, last)
    requires es' == es + BatchEntries(ops, last)
    ensures forall k :: Read(es', k, last + |ops|)
              == if LastOp(ops, k).Some? then Written(LastOp(ops, k).value) else Read(es, k, last)
    ensures forall k, s: SeqNo :: s <= last ==> Read(es', k, s) == Read(es, k, s)
  {
    forall k ensures Read(es', k, last + |ops|)
              == if LastOp(ops, k).Some? then Written(LastOp(ops, k).value) else Read(es, k, last)
    {
      BatchIsRead(es, ops, last, k);
    }
    forall k, s: SeqNo | s <= last ensures Read(es', k, s) == Read(es, k, s) {
      SnapshotIgnoresBatch(es, ops, last, k, s);
    }
  }

  /** The memtable after MemTableInserter has added a batch. */
  function MemAfter(mem: seq<Entry>, ops: seq<Op>, last: nat): seq<Entry>
    requires last + |ops| <= MAX_SEQUENCE
  {
    if ops == [] then mem
    else MergeRuns(MemAfter(mem, ops[..|ops| - 1], last), [EntryOf(ops[|ops| - 1], last + |ops|)])
  }

  lemma {:induction false} MemAfterIsOrdered(mem: seq<Entry>, imm: Option<seq<Entry>>, v: Version, last: nat, ops: seq<Op>)
    requires Ordered(mem, imm, v, last) && last + |ops| <= MAX_SEQUENCE
    ensures Ordered(MemAfter(mem, ops, last), imm, v, last + |ops|)
    ensures Elements(MemAfter(mem, ops, last)) == Elements(mem) + BatchEntries(ops, last)
  {
    if ops != [] {
      var n := |ops| - 1;
      MemAfterIsOrdered(mem, imm, v, last, ops[..n]);
      AddKeepsOrder(MemAfter(mem, ops[..n], last), imm, v, last + n, EntryOf(ops[n], last + |ops|));
    }
  }

  // ---- the snapshot list (db/snapshot.h) ----------------------------------------

  ghost predicate OldestFirst(snapshots: seq<SeqNo>, last: SeqNo) {
    && (forall i, j :: 0 <= i < j < |snapshots| ==> snapshots[i] <= snapshots[j])
    && (forall i :: 0 <= i < |snapshots| ==> snapshots[i] <= last)
  }

  lemma SnapshotsStayOld(snapshots: seq<SeqNo>, last: SeqNo, last': SeqNo)
    requires OldestFirst(snapshots, last) && last <= last'
    ensures OldestFirst(snapshots, last')
  {}

  lemma NewestSnapshotLast(snapshots: seq<SeqNo>, last: SeqNo)
    requires OldestFirst(snapshots, last)
    ensures OldestFirst(snapshots + [last], last)
  {}

  lemma SnapshotRemoved(snapshots: seq<SeqNo>, last: SeqNo, n: nat)
    requires OldestFirst(snapshots, last) && n < |snapshots|
    ensures OldestFirst(snapshots[..n] + snapshots[n + 1..], last)
  {
    var rest := snapshots[..n] + snapshots[n + 1..];
    assert forall i :: 0 <= i < |rest| ==> rest[i] == snapshots[if i < n then i else i + 1];
  }

  // ---- the inputs of a compaction as one sorted run -----------------------------

  ghost predicate FilesKeysDiffer(files: seq<File>) {
    forall i, j :: 0 <= i < j < |files| ==> KeysDiffer(files[i].entries, files[j].entries)
  }

  lemma DifferentFilesKeysDiffer(level: nat, files: seq<File>, f: File, g: File)
    requires LevelOk(level, files) && SavedLevel(files) && f in files && g in files && f != g
    ensures KeysDiffer(f.entries, g.entries)
  {
    assert Intact(f) && Intact(g);
    if level == 0 {
      Install.SameNumberSameFile(files, f, g);
      forall x, y | x in f.entries && y in g.entries ensures x.key != y.key {
        assert x in Elements(f.entries) && y in Elements(g.entries);
        assert Newer(Elements(f.entries), Elements(g.entries)) || Newer(Elements(g.entries), Elements(f.entries));
      }
    } else {
      FilesApart(files, f, g);
    }
  }

  lemma LevelsKeysDiffer(here: seq<File>, next: seq<File>, f: File, g: File)
    requires FilesNewer(here, next) && f in here && g in next
    ensures KeysDiffer(f.entries, g.entries)
  {
    forall x, y | x in f.entries && y in g.entries ensures x.key != y.key {
      assert x in FilesEntries(here) && y in FilesEntries(next);
    }
  }

  lemma SliceHasNoDuplicates(files: seq<File>, a: nat, b: nat)
    requires SortedDisjoint(files) && a <= b <= |files|
    ensures NoDuplicates(files[a..b])
  {
    forall i, j | 0 <= i < j < b - a ensures files[a..b][i] != files[a..b][j] {
      LargestIncreases(files, a + i, a + j);
    }
  }

  lemma InputsHaveNoDuplicates(v: Version, level: nat, inputs0: seq<File>, inputs1: seq<File>)
    requires LevelsOrdered(v) && Selected(v, level, inputs0, inputs1)
    ensures NoDuplicates(inputs0) && NoDuplicates(inputs1)
  {
    assert LevelOk(level, v[level]) && LevelOk(level + 1, v[level + 1]);
    if level > 0 {
      var a, b :| a < b && IsSlice(inputs0, v[level], a, b);
      SliceHasNoDuplicates(v[level], a, b);
    }
    var a, b := OverlapIsSlice(v[level + 1], Some(SmallestKey(inputs0).ukey), Some(LargestKey(inputs0).ukey));
    SliceHasNoDuplicates(v[level + 1], a, b);
  }

  lemma InputKeysDiffer(v: Version, level: nat, inputs0: seq<File>, inputs1: seq<File>)
    requires Saved(v) && Selected(v, level, inputs0, inputs1)
    ensures FilesKeysDiffer(inputs0 + inputs1)
  {
    var all := inputs0 + inputs1;
    InputsHaveNoDuplicates(v, level, inputs0, inputs1);
    PickedAreFiles(level, v[level], inputs0);
    assert LevelOk(level, v[level]) && LevelOk(level + 1, v[level + 1]) && LevelNewer(v, level, level + 1);
    forall i, j | 0 <= i < j < |all| ensures KeysDiffer(all[i].entries, all[j].entries) {
      if j < |inputs0| {
        assert all[i] == inputs0[i] && all[j] == inputs0[j];
        DifferentFilesKeysDiffer(level, v[level], all[i], all[j]);
      } else if i >= |inputs0| {
        assert all[i] == inputs1[i - |inputs0|] && all[j] == inputs1[j - |inputs0|];
        assert all[i] in inputs1 && all[j] in inputs1;
        DifferentFilesKeysDiffer(level + 1, v[level + 1], all[i], all[j]);
      } else {
        assert all[i] == inputs0[i] && all[j] == inputs1[j - |inputs0|];
        assert all[j] in inputs1;
        LevelsKeysDiffer(v[level], v[level + 1], all[i], all[j]);
      }
    }
  }

  lemma FilesEntriesAppend(files: seq<File>, f: File)
    ensures FilesEntries(files + [f]) == FilesEntries(files) + Elements(f.entries)
  {
    assert forall g :: g in files + [f] <==> g in files || g == f;
  }

  /** VersionSet::MakeInputIterator, as the sorted run that the merging iterator yields. */
  method MakeInput(files: seq<File>) returns (input: seq<Entry>)
    requires AllIntact(files) && FilesKeysDiffer(files)
    ensures Sorted(input) && Elements(input) == FilesEntries(files)
  {
    input := [];
    for i := 0 to |files|
      invariant Sorted(input) && Elements(input) == FilesEntries(files[..i])
    {
      var f := files[i];
      assert Intact(f);
      forall x, y | x in input && y in f.entries ensures x.key != y.key {
        assert x in FilesEntries(files[..i]);
        var g :| g in files[..i] && x in g.entries;
        var j :| 0 <= j < i && files[j] == g;
        assert KeysDiffer(files[j].entries, files[i].entries);
      }
      MergeSorted(input, f.entries);
      MergeIsUnion(input, f.entries);
      FilesEntriesAppend(files[..i], f);
      assert files[..i + 1] == files[..i] + [f];
      input := MergeRuns(input, f.entries);
    }
    assert files[..|files|] == files;
  }

  // ---- the outputs of a compaction as files -------------------------------------

  ghost predicate PiecesOk(outputs: seq<seq<Entry>>) {
    && (forall i :: 0 <= i < |outputs| ==> outputs[i] != [] && Sorted(outputs[i]))
    && forall i, j, x, y :: 0 <= i < j < |outputs| && x in outputs[i] && y in outputs[j] ==> Less(x.key, y.key)
  }

  function OutputFile(outputs: seq<seq<Entry>>, first: nat, sizes: nat -> nat, i: nat): (f: File)
    requires PiecesOk(outputs) && i < |outputs|
    ensures f.number == first + i && f.entries == outputs[i] && Intact(f)
  {
    MakeFile(first + i, sizes(i), outputs[i])
  }

  /** FinishCompactionOutputFile, with consecutive numbers from NewFileNumber. */
  function OutputFiles(outputs: seq<seq<Entry>>, first: nat, sizes: nat -> nat): (files: seq<File>)
    requires PiecesOk(outputs)
  {
    seq<File>(|outputs|, i requires 0 <= i < |outputs| => OutputFile(outputs, first, sizes, i))
  }

  lemma OutputIndex(outputs: seq<seq<Entry>>, first: nat, sizes: nat -> nat, f: File) returns (i: nat)
    requires PiecesOk(outputs) && f in OutputFiles(outputs, first, sizes)
    ensures i < |outputs| && f == OutputFile(outputs, first, sizes, i)
  {
    i :| 0 <= i < |outputs| && OutputFiles(outputs, first, sizes)[i] == f;
  }

  lemma OutputFilesApart(outputs: seq<seq<Entry>>, first: nat, sizes: nat -> nat, i: nat, j: nat)
    requires PiecesOk(outputs) && i < j < |outputs|
    ensures Less(OutputFile(outputs, first, sizes, i).largest, OutputFile(outputs, first, sizes, j).smallest)
  {
    assert outputs[i][|outputs[i]| - 1] in outputs[i] && outputs[j][0] in outputs[j];
  }

  lemma OutputFilesEntries(outputs: seq<seq<Entry>>, first: nat, sizes: nat -> nat)
    requires PiecesOk(outputs)
    ensures forall e :: e in FilesEntries(OutputFiles(outputs, first, sizes)) <==>
              exists i :: 0 <= i < |outputs| && e in outputs[i]
  {
    var files := OutputFiles(outputs, first, sizes);
    forall i, e | 0 <= i < |outputs| && e in outputs[i] ensures e in FilesEntries(files) {
      assert files[i] in files && e in files[i].entries;
    }
    forall e | e in FilesEntries(files) ensures exists i :: 0 <= i < |outputs| && e in outputs[i] {
      var f :| f in files && e in f.entries;
      var i := OutputIndex(outputs, first, sizes, f);
      assert e in outputs[i];
    }
  }

  lemma OutputFilesAreOutputs(outputs: seq<seq<Entry>>, first: nat, sizes: nat -> nat, kept: set<Entry>, inputs: set<Entry>)
    requires PiecesOk(outputs) && kept <= inputs
    requires forall e :: e in kept <==> exists i :: 0 <= i < |outputs| && e in outputs[i]
    ensures var files := OutputFiles(outputs, first, sizes);
      && OutputsOf(files, inputs) && FilesEntries(files) == kept && NumbersDiffer(files)
      && NumbersBelow(files, first + |outputs|) && forall f :: f in files ==> first <= f.number
  {
    var files := OutputFiles(outputs, first, sizes);
    OutputFilesEntries(outputs, first, sizes);
    forall f | f in files ensures Intact(f) && first <= f.number < first + |outputs| {
      var i := OutputIndex(outputs, first, sizes, f);
    }
    forall f, g | f in files && g in files && f != g ensures Less(f.largest, g.smallest) || Less(g.largest, f.smallest) {
      var i := OutputIndex(outputs, first, sizes, f);
      var j := OutputIndex(outputs, first, sizes, g);
      if i < j { OutputFilesApart(outputs, first, sizes, i, j); } else { OutputFilesApart(outputs, first, sizes, j, i); }
    }
  }

  /** What the compaction loop leaves is the meaning of the compaction, in files that
      fit the next level. */
  lemma LoopOutputs(input: seq<Entry>, outputs: seq<seq<Entry>>, base: iset<UserKey>, snapshot: SeqNo)
    requires Sorted(input) && [] !in outputs
    requires Flatten(outputs) == KeptSeq(input, |input|, base, snapshot)
    ensures PiecesOk(outputs)
    ensures forall e :: e in Kept(Elements(input), base, snapshot) <==> exists i :: 0 <= i < |outputs| && e in outputs[i]
  {
    KeptSeqSorted(input, |input|, base, snapshot);
    PiecesInOrder(outputs);
    assert forall i :: 0 <= i < |outputs| ==> outputs[i] in outputs;
    LoopKeeps(input, base, snapshot);
  }

  lemma LoopKeeps(input: seq<Entry>, base: iset<UserKey>, snapshot: SeqNo)
    ensures forall e :: e in KeptSeq(input, |input|, base, snapshot) <==> e in Kept(Elements(input), base, snapshot)
  {
    KeptSeqElements(input, |input|, base, snapshot);
    assert input[..|input|] == input;
  }

  lemma FilesEntriesConcat(a: seq<File>, b: seq<File>)
    ensures FilesEntries(a + b) == FilesEntries(a) + FilesEntries(b)
  {
    assert forall f :: f in a + b <==> f in a || f in b;
  }

  lemma InputsAreIntact(v: Version, level: nat, inputs0: seq<File>, inputs1: seq<File>)
    requires LevelsOrdered(v) && Selected(v, level, inputs0, inputs1)
    ensures AllIntact(inputs0 + inputs1) && FilesEntries(inputs0 + inputs1) <= VersionEntries(v)
  {
    PickedAreFiles(level, v[level], inputs0);
    assert LevelOk(level, v[level]) && LevelOk(level + 1, v[level + 1]);
    InVersionEntries(v, level);
    InVersionEntries(v, level + 1);
    FilesEntriesConcat(inputs0, inputs1);
    assert FilesEntries(inputs0) <= FilesEntries(v[level]) && FilesEntries(inputs1) <= FilesEntries(v[level + 1]);
  }

  /** One file, nothing to merge it with, and little enough two levels down. */
  predicate Trivial(v: Version, level: nat, inputs0: seq<File>, inputs1: seq<File>, maxFileSize: nat)
    requires |v| == NUM_LEVELS
  {
    && |inputs0| == 1 && inputs1 == []
    && (level + 2 < NUM_LEVELS ==>
          TotalFileSize(OverlapFilter(v[level + 2], Some(inputs0[0].smallest.ukey), Some(inputs0[0].largest.ukey))) <= 10 * maxFileSize)
  }

  /** What Compaction::IsTrivialMove answers. */
  method IsTrivialMove(v: Version, level: nat, inputs0: seq<File>, inputs1: seq<File>, maxFileSize: nat)
    returns (trivial: bool)
    requires LevelsOrdered(v) && Selected(v, level, inputs0, inputs1)
    ensures trivial <==> Trivial(v, level, inputs0, inputs1, maxFileSize)
  {
    if |inputs0| != 1 || inputs1 != [] { return false; }
    if level + 2 >= NUM_LEVELS { return true; }
    assert inputs0 + inputs1 == [inputs0[0]];
    var start, limit := GetRange(inputs0 + inputs1);
    var grandparents, _, _ := GetOverlappingInputs(level + 2, v[level + 2], Some(start.ukey), Some(limit.ukey));
    return TotalFileSize(grandparents) <= 10 * maxFileSize;
  }

  /** Where the files stand afterwards: no input is left, the outputs are at the next level,
      and nothing else has changed. */
  ghost predicate Stands(v: Version, level: nat, inputs0: seq<File>, inputs1: seq<File>, outputs: seq<File>, v': Version) {
    && |v| == |v'| == NUM_LEVELS && level + 1 < NUM_LEVELS
    && (forall l :: 0 <= l < NUM_LEVELS && l != level && l != level + 1 ==> v'[l] == v[l])
    && (forall f :: f in v'[level] <==> f in v[level] && f !in inputs0)
    && (forall f :: f in v'[level + 1] <==> (f in v[level + 1] && f !in inputs1) || f in outputs)
  }

  /** A trivial move: the file has sunk by one level. */
  ghost predicate MovedDown(v: Version, level: nat, inputs0: seq<File>, v': Version) {
    |inputs0| == 1 && Stands(v, level, inputs0, [], inputs0, v') && inputs0[0] in v[level]
  }

  /** A merge: new files at the next level hold what the drop rules keep of the inputs. */
  ghost predicate MergedDown(v: Version, level: nat, inputs0: seq<File>, inputs1: seq<File>, snapshot: SeqNo, v': Version) {
    exists outputs :: MergedAs(v, level, inputs0, inputs1, snapshot, outputs, v')
  }

  ghost predicate MergedAs(v: Version, level: nat, inputs0: seq<File>, inputs1: seq<File>, snapshot: SeqNo,
                             outputs: seq<File>, v': Version)
  {
    && Stands(v, level, inputs0, inputs1, outputs, v')
    && FilesEntries(outputs) == Kept(FilesEntries(inputs0) + FilesEntries(inputs1), BaseKeys(v, level), snapshot)
    && forall f, g :: f in outputs && (g in v[level] || g in v[level + 1]) ==> f.number != g.number
  }

  lemma ReplacedStands(v: Version, level: nat, inputs0: seq<File>, inputs1: seq<File>, outputs: seq<File>, v': Version)
    requires |v| == |v'| == NUM_LEVELS && level + 1 < NUM_LEVELS && Replaced(v, level, inputs0, inputs1, outputs, v')
    ensures Stands(v, level, inputs0, inputs1, outputs, v')
  {
    var here, next := LeftOver(v[level], inputs0), LeftOver(v[level + 1], inputs1);
    assert SameFiles(v'[level], here);
    forall f: File ensures f in v'[level + 1] <==> f in next || f in outputs {
      assert f in v'[level + 1] ==> f in next || f in outputs;
      assert f in outputs ==> f in v'[level + 1];
      assert f in next ==> f in v'[level + 1];
    }
    assert forall l :: 0 <= l < NUM_LEVELS && l != level && l != level + 1 ==> v'[l] == v[l];
  }

  lemma NewNumbers(v: Version, level: nat, outputs: seq<File>, next: nat)
    requires Numbered(v, next) && level + 1 < NUM_LEVELS && forall f :: f in outputs ==> next <= f.number
    ensures forall f, g :: f in outputs && (g in v[level] || g in v[level + 1]) ==> f.number != g.number
  {
    assert NumbersBelow(v[level], next) && NumbersBelow(v[level + 1], next);
  }

  ghost predicate NumbersFit(v: Version, level: nat, inputs0: seq<File>, outputs: seq<File>, next: nat, next': nat)
    requires level + 1 < |v|
  {
    && next <= next' && NumbersDiffer(outputs) && NumbersBelow(outputs, next')
    && NoCommonNumber(v[level + 1], outputs)
    && (|| (forall f :: f in outputs ==> next <= f.number)
        || (NumbersDiffer(v[level]) && forall f :: f in outputs ==> f in v[level] && f in inputs0))
  }

  /** The version that a compaction or a trivial move installs. */
  lemma ReplacementInstalls(upper: set<Entry>, v: Version, level: nat, inputs0: seq<File>, inputs1: seq<File>,
                            outputs: seq<File>, v': Version, next: nat, next': nat)
    requires WellOrdered(upper, v) && Saved(v) && Numbered(v, next) && Selected(v, level, inputs0, inputs1)
    requires NumbersFit(v, level, inputs0, outputs, next, next')
    requires OutputsOf(outputs, FilesEntries(inputs0) + FilesEntries(inputs1))
    requires v' == NextVersion(v, CompactionEdit(level, inputs0, inputs1, outputs))
    ensures Saved(v') && Numbered(v', next') && VersionEntries(v') <= VersionEntries(v)
    ensures upper + VersionEntries(v') == SceneOf(upper, v, level, inputs0, inputs1).Rest() + FilesEntries(outputs)
    ensures Stands(v, level, inputs0, inputs1, outputs, v')
  {
    InputsAreIntact(v, level, inputs0, inputs1);
    FilesEntriesConcat(inputs0, inputs1);
    CompactionReplaces(v, level, inputs0, inputs1, outputs);
    ReplacementKeepsLevels(upper, v, level, inputs0, inputs1, outputs, v');
    ReplacementNumbered(v, level, inputs0, inputs1, outputs, v', next, next');
    ReplacementEntries(upper, v, level, inputs0, inputs1, outputs, v');
    ReplacedStands(v, level, inputs0, inputs1, outputs, v');
  }

  lemma NewNumbersFit(v: Version, level: nat, inputs0: seq<File>, outputs: seq<File>, next: nat, next': nat)
    requires Numbered(v, next) && level + 1 < NUM_LEVELS
    requires next <= next' && NumbersDiffer(outputs) && NumbersBelow(outputs, next')
    requires forall f :: f in outputs ==> next <= f.number
    ensures NumbersFit(v, level, inputs0, outputs, next, next')
  {
    assert NumbersBelow(v[level + 1], next);
  }

  lemma MovedFileFits(v: Version, level: nat, f: File, next: nat)
    requires Saved(v) && Numbered(v, next) && level + 1 < NUM_LEVELS && f in v[level]
    ensures NumbersFit(v, level, [f], [f], next, next) && OutputsOf([f], FilesEntries([f]) + FilesEntries([]))
  {
    assert LevelsShareNoNumber(v, level, level + 1) && NumbersBelow(v[level], next);
    assert SavedLevel(v[level]) && LevelOk(level, v[level]);
  }

  /** A trivial move keeps all entries. */
  lemma MoveInstalls(upper: set<Entry>, v: Version, level: nat, f: File, v': Version, next: nat)
    requires WellOrdered(upper, v) && Saved(v) && Numbered(v, next) && Selected(v, level, [f], [])
    requires v' == NextVersion(v, CompactionEdit(level, [f], [], [f]))
    ensures Saved(v') && Numbered(v', next) && upper + VersionEntries(v') == upper + VersionEntries(v)
    ensures VersionEntries(v') <= VersionEntries(v) && MovedDown(v, level, [f], v')
  {
    hide Replaced, Numbered, Saved;
    PickedAreFiles(level, v[level], [f]);
    assert f in [f];
    MovedFileFits(v, level, f, next);
    ReplacementInstalls(upper, v, level, [f], [], [f], v', next, next);
    SceneIsValid(upper, v, level, [f], []);
    MovedInputs(SceneOf(upper, v, level, [f], []), f);
  }

  lemma MovedInputs(c: Scene, f: File)
    requires c.in0 == FilesEntries([f]) && c.in1 == FilesEntries([])
    ensures c.Before() == c.Rest() + FilesEntries([f])
  {}

  lemma SmallerVersionFits(mem: seq<Entry>, imm: Option<seq<Entry>>, v: Version, v': Version, last: nat)
    requires Ordered(mem, imm, v, last) && LevelsOrdered(v') && VersionEntries(v') <= VersionEntries(v)
    ensures Ordered(mem, imm, v', last)
  {}

  lemma EmptyVersion(v: Version)
    requires |v| == NUM_LEVELS && forall l :: 0 <= l < NUM_LEVELS ==> v[l] == []
    ensures Saved(v) && Numbered(v, 2) && VersionEntries(v) == {}
  {
    forall l | 0 <= l < NUM_LEVELS ensures LevelOk(l, v[l]) && SavedLevel(v[l]) && NumbersBelow(v[l], 2) {}
    forall i, j | 0 <= i < NUM_LEVELS && 0 <= j < NUM_LEVELS && i != j
      ensures LevelsShareNoNumber(v, i, j) && LevelNewer(v, i, j)
    {}
  }

  lemma NumberedLater(v: Version, next: nat)
    requires Numbered(v, next)
    ensures Numbered(v, next + 1)
  {
    forall l | 0 <= l < NUM_LEVELS ensures NumbersBelow(v[l], next + 1) {
      assert NumbersBelow(v[l], next);
    }
  }

  /** The version that a flush installs. */
  lemma FlushInstalls(mem: seq<Entry>, entries: seq<Entry>, v: Version, level: nat, f: File, v': Version, next: nat, last: nat)
    requires Ordered(mem, Some(entries), v, last) && Saved(v) && Numbered(v, next) && level < NUM_LEVELS
    requires entries != [] && f.entries == entries && f.number == next && Intact(f)
    requires level > 0 ==> forall l :: 0 <= l <= level ==>
               !SomeOverlaps(v[l], Some(f.smallest.ukey), Some(f.largest.ukey))
    requires v' == NextVersion(v, VersionEdit({}, [(level, f)]))
    ensures Ordered(mem, None, v', last) && Saved(v') && Numbered(v', next + 1)
    ensures VersionEntries(v') == VersionEntries(v) + Elements(entries)
  {
    assert NumbersBelow(v[level], next) && NumbersBelow(v[0], next);
    TableIsAdded(v, level, f);
    assert MayAdd(v, level, f);
    FlushKeepsLevels(v, level, f, v');
    AddedNumbered(v, level, f, v', next);
    FlushedIsOrdered(mem, entries, v, v', last);
  }

  lemma FlushedIsOrdered(mem: seq<Entry>, entries: seq<Entry>, v: Version, v': Version, last: nat)
    requires Ordered(mem, Some(entries), v, last) && LevelsOrdered(v')
    requires VersionEntries(v') == VersionEntries(v) + Elements(entries)
    ensures Ordered(mem, None, v', last)
  {
    assert Elements(mem) + {} + VersionEntries(v') == Elements(mem) + Elements(entries) + VersionEntries(v);
  }

  /** The first layer with a match decides the read. */
  lemma FirstHitIsVisible(mem: seq<Entry>, imm: Option<seq<Entry>>, v: Version, last: nat, k: UserKey, s: SeqNo, e: Option<Entry>)
    requires Ordered(mem, imm, v, last)
    requires var m, i := PointGet(mem, k, s), if imm.Some? then PointGet(imm.value, k, s) else None;
      if m.Some? then e == m else if i.Some? then e == i else
        && (e.Some? ==> Newest(VersionEntries(v), k, s, e.value))
        && (e.None? ==> forall x :: x in VersionEntries(v) ==> !Matches(x, k, s))
    ensures Content(e) == Read(Elements(mem) + ImmEntries(imm) + VersionEntries(v), k, s)
  {
    var all := Elements(mem) + ImmEntries(imm) + VersionEntries(v);
    PointGetIsVisible(mem, k, s);
    if imm.Some? { PointGetIsVisible(imm.value, k, s); }
    if e.Some? {
      assert Newest(all, k, s, e.value);
      VisibleIs(all, k, s, e.value);
    } else {
      VisibleSpec(all, k, s);
    }
  }

  lemma EditLevelsInRange(level: nat, inputs0: seq<File>, inputs1: seq<File>, outputs: seq<File>)
    requires level + 1 < NUM_LEVELS
    ensures CompactionEdit(level, inputs0, inputs1, outputs).LevelsInRange()
  {}

  // ---- one compaction -----------------------------------------------------------

  /** DoCompactionWork and InstallCompactionResults: the new version and the number of
      the next file.  `stopBefore`, `full` and `sizes` stand for ShouldStopBefore and the
      file sizes, which only decide where the outputs are cut. */
  method CompactedVersion(ghost upper: set<Entry>, v: Version, next: nat, maxFileSize: nat, snapshot: SeqNo,
                          level: nat, inputs0: seq<File>, inputs1: seq<File>,
                          stopBefore: nat -> bool, full: nat -> bool, sizes: nat -> nat)
    returns (v': Version, next': nat)
    requires WellOrdered(upper, v) && Saved(v) && Numbered(v, next)
    requires Selected(v, level, inputs0, inputs1)
    ensures Saved(v') && Numbered(v', next') && VersionEntries(v') <= VersionEntries(v)
    ensures upper + VersionEntries(v') == After(SceneOf(upper, v, level, inputs0, inputs1), snapshot)
    ensures MergedDown(v, level, inputs0, inputs1, snapshot, v')
  {
    InputKeysDiffer(v, level, inputs0, inputs1);
    InputsAreIntact(v, level, inputs0, inputs1);
    var input := MakeInput(inputs0 + inputs1);
    FilesEntriesConcat(inputs0, inputs1);
    UniqueParts(Elements(input), upper + VersionEntries(v));
    var c := new Compaction(v, level, maxFileSize, inputs0);
    var outputs := DoCompactionWork(c, input, snapshot, seq(|input|, stopBefore), seq(|input|, full));
    LoopOutputs(input, outputs, BaseKeys(v, level), snapshot);
    ghost var inputs := FilesEntries(inputs0) + FilesEntries(inputs1);
    OutputFilesAreOutputs(outputs, next, sizes, Kept(inputs, BaseKeys(v, level), snapshot), inputs);
    var files := OutputFiles(outputs, next, sizes);
    next' := next + |outputs|;
    EditLevelsInRange(level, inputs0, inputs1, files);
    v' := InstallEdit(v, CompactionEdit(level, inputs0, inputs1, files));
    NewNumbersFit(v, level, inputs0, files, next, next');
    ReplacementInstalls(upper, v, level, inputs0, inputs1, files, v', next, next');
    NewNumbers(v, level, files, next);
    assert MergedAs(v, level, inputs0, inputs1, snapshot, files, v');
  }

  /** BackgroundCompaction once the inputs are chosen: a trivial move or the loop. */
  method MovedOrCompacted(ghost upper: set<Entry>, v: Version, next: nat, maxFileSize: nat, snapshot: SeqNo,
                          level: nat, inputs0: seq<File>, inputs1: seq<File>, manual: bool,
                          stopBefore: nat -> bool, full: nat -> bool, sizes: nat -> nat)
    returns (moved: bool, v': Version, next': nat)
    requires WellOrdered(upper, v) && Saved(v) && Numbered(v, next)
    requires Selected(v, level, inputs0, inputs1)
    ensures Saved(v') && Numbered(v', next') && VersionEntries(v') <= VersionEntries(v)
    ensures moved <==> !manual && Trivial(v, level, inputs0, inputs1, maxFileSize)
    ensures moved ==> upper + VersionEntries(v') == upper + VersionEntries(v) && MovedDown(v, level, inputs0, v')
    ensures !moved ==> MergedDown(v, level, inputs0, inputs1, snapshot, v')
    ensures !moved ==> upper + VersionEntries(v') == After(SceneOf(upper, v, level, inputs0, inputs1), snapshot)
  {
    moved := false;
    if !manual { moved := IsTrivialMove(v, level, inputs0, inputs1, maxFileSize); }
    if moved {
      EditLevelsInRange(level, inputs0, [], inputs0);
      v' := InstallEdit(v, CompactionEdit(level, inputs0, [], inputs0));
      next' := next;
      assert inputs0 == [inputs0[0]];
      MoveInstalls(upper, v, level, inputs0[0], v', next);
    } else {
      v', next' := CompactedVersion(upper, v, next, maxFileSize, snapshot, level, inputs0, inputs1, stopBefore, full, sizes);
    }
  }

  /** A manual compaction of a key range, on the version alone. */
  method CompactedRange(ghost upper: set<Entry>, v: Version, next: nat, maxFileSize: nat, snapshot: SeqNo,
                        level: nat, begin: Bound, end: Bound,
                        stopBefore: nat -> bool, full: nat -> bool, sizes: nat -> nat)
    returns (inputs0: seq<File>, inputs1: seq<File>, v': Version, next': nat)
    requires WellOrdered(upper, v) && Saved(v) && Numbered(v, next) && level + 1 < NUM_LEVELS
    ensures Saved(v') && Numbered(v', next') && VersionEntries(v') <= VersionEntries(v)
    ensures inputs0 == [] ==> v' == v && forall f :: f in v[level] ==> !Overlaps(f, begin, end)
    ensures inputs0 != [] ==>
              && Selected(v, level, inputs0, inputs1)
              && upper + VersionEntries(v') == After(SceneOf(upper, v, level, inputs0, inputs1), snapshot)
              && MergedDown(v, level, inputs0, inputs1, snapshot, v')
    ensures Covers(v[level], level, maxFileSize, begin, end, inputs0)
  {
    hide Covers, MergedDown;
    inputs0, inputs1 := CompactRange(v, maxFileSize, level, begin, end);
    v', next' := v, next;
    if inputs0 != [] {
      v', next' := CompactedVersion(upper, v, next, maxFileSize, snapshot, level, inputs0, inputs1, stopBefore, full, sizes);
    }
  }

  /** WriteLevel0Table with a base version, and the installation of its edit; an empty
      memtable writes no table. */
  method FlushedVersion(ghost mem: seq<Entry>, entries: seq<Entry>, v: Version, next: nat, ghost last: nat,
                        maxFileSize: nat, size: nat)
    returns (v': Version, next': nat)
    requires Ordered(mem, Some(entries), v, last) && Saved(v) && Numbered(v, next)
    ensures Ordered(mem, None, v', last) && Saved(v') && Numbered(v', next')
    ensures VersionEntries(v') == VersionEntries(v) + Elements(entries)
  {
    next' := next + 1;
    if entries == [] {
      NumberedLater(v, next);
      v' := v;
    } else {
      var f := MakeFile(next, size, entries);
      var level := PickLevelForMemTableOutput(v, f.smallest.ukey, f.largest.ukey, maxFileSize);
      v' := InstallEdit(v, VersionEdit({}, [(level, f)]));
      FlushInstalls(mem, entries, v, level, f, v', next, last);
    }
  }
}
