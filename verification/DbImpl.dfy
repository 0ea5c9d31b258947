/** The database object: writes, memtable switch, flush, compaction, snapshots and
    reads (db/db_impl.cc).  Every method keeps the invariants and says what it does to
    the set of entries that reads are answered from. */
module DbImpl {
  import opened Dbformat
  import opened Version
  import opened InputSelection
  import opened CompactionMeaning
  import opened CompactionWork
  import opened CompactionScene
  import opened CompactionTheorem
  import opened VersionBuilder
  import opened LevelSteps
  import opened Flush
  import opened Runs
  import opened Install
  import opened DbSteps

  class DBImpl {
    const maxFileSize: nat
    var mem: seq<Entry>
    var imm: Option<seq<Entry>>
    var current: Version
    var lastSequence: SeqNo
    var nextFileNumber: nat
    var snapshots: seq<SeqNo>  // oldest first

    ghost predicate Valid()
      reads this
    {
      && Ordered(mem, imm, current, lastSequence)
      && Saved(current) && Numbered(current, nextFileNumber)
      && OldestFirst(snapshots, lastSequence)
    }

    ghost function Upper(): set<Entry>
      reads this
    {
      Elements(mem) + ImmEntries(imm)
    }

    ghost function Contents(): set<Entry>
      reads this
    {
      Upper() + VersionEntries(current)
    }

    /** The bound DoCompactionWork computes: no reader asks for anything older. */
    function SmallestSnapshot(): SeqNo
      reads this
    {
      if snapshots == [] then lastSequence else snapshots[0]
    }

    constructor (maxFileSize: nat)
      ensures Valid() && Contents() == {} && lastSequence == 0 && snapshots == []
      ensures mem == [] && imm == None && current == [[], [], [], [], [], [], []] && this.maxFileSize == maxFileSize
    {
      this.maxFileSize := maxFileSize;
      mem, imm, lastSequence, nextFileNumber, snapshots := [], None, 0, 2, [];
      current := [[], [], [], [], [], [], []];
      new;
      EmptyVersion(current);
    }

    /** WriteBatchInternal::InsertInto. */
    method InsertInto(ops: seq<Op>)
      requires lastSequence + |ops| <= MAX_SEQUENCE
      modifies this`mem
      ensures mem == MemAfter(old(mem), ops, lastSequence)
    {
      for i := 0 to |ops|
        invariant mem == MemAfter(old(mem), ops[..i], lastSequence)
      {
        assert ops[..i + 1][..i] == ops[..i];
        mem := MergeRuns(mem, [EntryOf(ops[i], lastSequence + i + 1)]);
      }
      assert ops[..|ops|] == ops;
    }

    /** DBImpl::Write: the operations get the next sequence numbers, in order.  What that
        does to reads is lemma WriteIsRead. */
    method Write(ops: seq<Op>)
      requires Valid() && lastSequence + |ops| <= MAX_SEQUENCE
      modifies this`mem, this`lastSequence
      ensures Valid() && lastSequence == old(lastSequence) + |ops|
      ensures Contents() == old(Contents()) + BatchEntries(ops, old(lastSequence))
      ensures mem == MemAfter(old(mem), ops, old(lastSequence))
    {
      InsertInto(ops);
      lastSequence := lastSequence + |ops|;
      SnapshotsStayOld(snapshots, old(lastSequence), lastSequence);
      MemAfterIsOrdered(old(mem), imm, current, old(lastSequence), ops);
      assert Contents() == old(Contents()) + BatchEntries(ops, old(lastSequence));
    }

    /** MakeRoomForWrite: the memtable becomes immutable. */
    method SwitchMemTable()
      requires Valid() && imm.None?
      modifies this`mem, this`imm
      ensures Valid() && Contents() == old(Contents())
      ensures mem == [] && imm == Some(old(mem))
    {
      imm, mem := Some(mem), [];
    }

    /** CompactMemTable: the immutable memtable becomes a table.  Reads of any age are
        unchanged, because the set of entries is. */
    method CompactMemTable(size: nat)
      requires Valid() && imm.Some?
      modifies this`imm, this`current, this`nextFileNumber
      ensures Valid() && Contents() == old(Contents()) && imm.None?
      ensures VersionEntries(current) == VersionEntries(old(current)) + Elements(old(imm).value)
    {
      var v, next := FlushedVersion(mem, imm.value, current, nextFileNumber, lastSequence, maxFileSize, size);
      current, nextFileNumber, imm := v, next, None;
    }

    /** LogAndApply's last step: the new version becomes current. */
    method InstallVersion(v: Version, next: nat)
      requires Valid() && Saved(v) && Numbered(v, next) && VersionEntries(v) <= VersionEntries(current)
      modifies this`current, this`nextFileNumber
      ensures Valid() && current == v && nextFileNumber == next
      ensures Contents() == old(Upper()) + VersionEntries(v)
    {
      SmallerVersionFits(mem, imm, current, v, lastSequence);
      current, nextFileNumber := v, next;
    }

    /** BackgroundCompaction, automatic: pick, then move or compact.  What that does to
        reads is lemma CompactionPreservesReadsIff. */
    method BackgroundCompaction(why: Trigger, stopBefore: nat -> bool, full: nat -> bool, sizes: nat -> nat)
      returns (moved: bool, inputs0: seq<File>, inputs1: seq<File>)
      requires Valid()
      requires why.level + 1 < NUM_LEVELS && current[why.level] != []
      requires why.Seeks? ==> why.file in current[why.level]
      modifies this`current, this`nextFileNumber
      ensures Valid() && Selected(old(current), why.level, inputs0, inputs1) && Serves(old(current), why, inputs0)
      ensures moved <==> Trivial(old(current), why.level, inputs0, inputs1, maxFileSize)
      ensures moved ==> Contents() == old(Contents()) && MovedDown(old(current), why.level, inputs0, current)
      ensures !moved ==> MergedDown(old(current), why.level, inputs0, inputs1, old(SmallestSnapshot()), current)
      ensures !moved ==>
                Contents() == After(SceneOf(old(Upper()), old(current), why.level, inputs0, inputs1), old(SmallestSnapshot()))
    {
      inputs0, inputs1 := PickCompaction(current, maxFileSize, why);
      var v, next;
      moved, v, next := MovedOrCompacted(Upper(), current, nextFileNumber, maxFileSize, SmallestSnapshot(),
                                         why.level, inputs0, inputs1, false, stopBefore, full, sizes);
      InstallVersion(v, next);
    }

    /** A manual compaction of a key range; nothing happens when no file is in it. */
    method ManualCompaction(level: nat, begin: Bound, end: Bound, stopBefore: nat -> bool, full: nat -> bool, sizes: nat -> nat)
      returns (inputs0: seq<File>, inputs1: seq<File>)
      requires Valid() && level + 1 < NUM_LEVELS
      modifies this`current, this`nextFileNumber
      ensures Valid()
      ensures inputs0 == [] ==> current == old(current) && forall f :: f in current[level] ==> !Overlaps(f, begin, end)
      ensures inputs0 != [] ==>
                && Selected(old(current), level, inputs0, inputs1)
                && Contents() == After(SceneOf(old(Upper()), old(current), level, inputs0, inputs1), old(SmallestSnapshot()))
                && MergedDown(old(current), level, inputs0, inputs1, old(SmallestSnapshot()), current)
      ensures |old(current)| == NUM_LEVELS && Covers(old(current)[level], level, maxFileSize, begin, end, inputs0)
    {
      hide Covers, MergedDown;
      ghost var upper := Upper();
      var v, next;
      inputs0, inputs1, v, next := CompactedRange(upper, current, nextFileNumber, maxFileSize, SmallestSnapshot(),
                                                  level, begin, end, stopBefore, full, sizes);
      InstallVersion(v, next);
    }

    method GetSnapshot() returns (s: SeqNo)
      requires Valid()
      modifies this`snapshots
      ensures Valid() && s == lastSequence && snapshots == old(snapshots) + [s]
    {
      s := lastSequence;
      NewestSnapshotLast(snapshots, s);
      snapshots := snapshots + [s];
    }

    method ReleaseSnapshot(i: nat)
      requires Valid() && i < |snapshots|
      modifies this`snapshots
      ensures Valid() && snapshots == old(snapshots)[..i] + old(snapshots)[i + 1..]
    {
      SnapshotRemoved(snapshots, lastSequence, i);
      snapshots := snapshots[..i] + snapshots[i + 1..];
    }

    /** DBImpl::Get: memtable, immutable memtable, then the levels. */
    method Get(k: UserKey, snapshot: Option<SeqNo>) returns (r: Option<Value>)
      requires Valid()
      ensures r == Read(Contents(), k, if snapshot.Some? then snapshot.value else lastSequence)
    {
      var s := if snapshot.Some? then snapshot.value else lastSequence;
      var e := PointGet(mem, k, s);
      PointGetIsVisible(mem, k, s);
      if e.None? && imm.Some? {
        e := PointGet(imm.value, k, s);
        PointGetIsVisible(imm.value, k, s);
      }
      if e.None? {
        e := GetEntry(current, k, s);
      }
      FirstHitIsVisible(mem, imm, current, lastSequence, k, s, e);
      return Content(e);
    }
  }
}
