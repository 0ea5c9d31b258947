/** The steps of the open database keep the invariant of Recovery.dfy. */
module RunningSteps {
  import opened Dbformat
  import opened Runs
  import opened Version
  import opened VersionBuilder
  import opened LevelSteps
  import opened Flush
  import opened Install
  import opened InputSelection
  import opened CompactionMeaning
  import opened CompactionWork
  import opened CompactionScene
  import opened DbSteps
  import opened Manifest
  import opened Replay
  import opened Recovery
  import opened RecoverySteps

  // ---- the logs ------------------------------------------------------------------------

  lemma CutLogs(logs: seq<LogFile>, from: nat)
    requires logs != [] && logs[|logs| - 1].number >= from
    ensures Backlog(logs, from) == OldRecords(logs, from) + NewRecords(logs)
  {}

  ghost predicate Written(p: Memory) { p.job.Committing? && p.job.written }

  /** The committed backlog is the memory's, or, between the two halves of a flush
      commit, its newer part. */
  lemma CommittedBacklog(d: Disk, start: SeqNo, p: Memory)
    requires RunningOk(d, start, p) && NumbersIncrease(d.logs)
    ensures Backlog(d.logs, CommitOf(d).logNumber)
         == if Written(p) && p.job.flush then NewRecords(d.logs) else OldRecords(d.logs, p.logNumber) + NewRecords(d.logs)
    ensures EndOf(Backlog(d.logs, CommitOf(d).logNumber), start)
         == EndOf(OldRecords(d.logs, p.logNumber) + NewRecords(d.logs), p.from)
  {
    hide InPlace, Chain, Replayed, NewTables, FilesHold, Edits, Replayable, VersionOf, NextVersion;
    CutLogs(d.logs, p.logNumber);
    OthersAreBelow(d.logs, p.logFile);
    ChainJoin(OldRecords(d.logs, p.logNumber), NewRecords(d.logs), p.from);
  }

  lemma AddRecordParts(logs: seq<LogFile>, r: LogRecord, from: nat)
    requires logs != []
    ensures AddRecord(logs, r) != [] && OldRecords(AddRecord(logs, r), from) == OldRecords(logs, from)
    ensures NewRecords(AddRecord(logs, r)) == NewRecords(logs) + [r]
    ensures Inserted(AddRecord(logs, r), true) == NewRecords(logs)
    ensures AddRecord(logs, r)[|logs| - 1].number == logs[|logs| - 1].number && |AddRecord(logs, r)| == |logs|
    ensures NumbersIncrease(logs) ==> NumbersIncrease(AddRecord(logs, r))
  {
    var n := |logs| - 1;
    assert AddRecord(logs, r)[..n] == logs[..n];
    assert (NewRecords(logs) + [r])[..|NewRecords(logs)|] == NewRecords(logs);
    assert forall i :: 0 <= i < |logs| ==> AddRecord(logs, r)[i].number == logs[i].number;
  }

  lemma AppendMemory(logs: seq<LogFile>, p: Memory, r: LogRecord)
    requires MemoryOk(logs, p) && !p.inflight && r.sequence == p.lastSequence + 1
    ensures MemoryOk(AddRecord(logs, r), p.(inflight := true))
  {
    hide Chain, EndOf, Replayed, AddRecord;
    AddRecordParts(logs, r, p.logNumber);
    var a, b := OldRecords(logs, p.logNumber), NewRecords(logs);
    assert a + (b + [r]) == (a + b) + [r];
    OneMore(a + b, r, p.from, []);
  }

  /** The job does not depend on the logs being written. */
  lemma JobIgnoresNewRecords(d: Disk, d': Disk, p: Memory, p': Memory)
    requires d.logs != [] && d'.logs != [] && |p.current| == NUM_LEVELS && JobOk(d, p)
    requires d'.tables == d.tables && Records(d') == Records(d)
    requires OldRecords(d'.logs, p.logNumber) == OldRecords(d.logs, p.logNumber) || (p.job.Committing? ==> !p.job.flush)
    requires p'.job == p.job && p'.current == p.current && p'.from == p.from && p'.logNumber == p.logNumber
    requires p'.nextFile >= p.nextFile && p'.lastSequence >= p.lastSequence
    requires p.job.Committing? && p.job.flush ==> p'.imm == p.imm && p'.logFile == p.logFile
    requires p'.oldest == p.oldest
    ensures JobOk(d', p')
  {
    hide InPlace, NextVersion, Replayable, UpTo, MergedInto;
    SameCommit(d, d');
  }

  // ---- Write -----------------------------------------------------------------------------

  lemma AppendDisk(d: Disk, start: SeqNo, r: LogRecord, from: nat, last: SeqNo)
    requires DiskOk(d, start) && d.logs != [] && from == CommitOf(d).logNumber && d.logs[|d.logs| - 1].number >= from
    requires EndOf(Backlog(d.logs, from), start) <= last < r.sequence
    ensures var d' := d.(logs := AddRecord(d.logs, r));
      && DiskOk(d', start) && CommitOf(d') == CommitOf(d) && Records(d') == Records(d)
      && Durable(d') == Durable(d) + r.Entries()
  {
    hide InPlace, ManifestOk, VersionOf, Chain, EndOf, AddRecord;
    var d' := d.(logs := AddRecord(d.logs, r));
    SameCommit(d, d');
    AddRecordParts(d.logs, r, from);
    AddRecordBacklog(d.logs, r, from);
    OneMore(Backlog(d.logs, from), r, start, []);
  }

  lemma AppendKeeps(s: State, p: Memory, r: LogRecord)
    requires Inv(s) && s.phase == Running(p) && RunningEnabled(s.disk, p, Append(r))
    ensures Inv(RunningStep(s, p, Append(r)))
    ensures Durable(RunningStep(s, p, Append(r)).disk) == Durable(s.disk) + r.Entries()
    ensures CommitOf(RunningStep(s, p, Append(r)).disk) == CommitOf(s.disk)
  {
    hide InPlace, MemoryOk, JobOk, ManifestOk, Durable, AddRecord, UpTo, Chain, Inserted;
    var d, from := s.disk, CommitOf(s.disk).logNumber;
    var d', p' := d.(logs := AddRecord(d.logs, r)), p.(inflight := true);
    LastSequenceCovers(d, s.start, p);
    AppendDisk(d, s.start, r, from, p.lastSequence);
    AppendMemory(d.logs, p, r);
    AddRecordParts(d.logs, r, p.logNumber);
    JobIgnoresNewRecords(d, d', p, p');
    SameMark(d.logs, d'.logs, p, p');
  }

  lemma SameMark(logs: seq<LogFile>, logs': seq<LogFile>, p: Memory, p': Memory)
    requires logs != [] && logs' != [] && p'.job == p.job && p'.from == p.from && p'.logNumber == p.logNumber
    requires OldRecords(logs', p.logNumber) == OldRecords(logs, p.logNumber) || (p.job.Committing? ==> !p.job.flush)
    ensures Mark(logs', p') == Mark(logs, p)
  {}

  /** The last sequence number covers everything logged and inserted. */
  lemma LastSequenceCovers(d: Disk, start: SeqNo, p: Memory)
    requires DiskOk(d, start) && RunningOk(d, start, p)
    ensures !p.inflight ==> EndOf(Backlog(d.logs, CommitOf(d).logNumber), start) <= p.lastSequence
    ensures p.inflight ==> EndOf(Backlog(d.logs, CommitOf(d).logNumber), start) == NewRecords(d.logs)[|NewRecords(d.logs)| - 1].Last()
    ensures CommitOf(d).logNumber <= p.logFile && LastLogIs(d.logs, p.logFile)
  {
    hide InPlace, Chain, ManifestOk, NewTables, FilesHold, Edits, Replayable, VersionOf, NextVersion, Backlog, Replayed;
    CommittedBacklog(d, start, p);
    LastOf(OldRecords(d.logs, p.logNumber), NewRecords(d.logs), p.from);
  }

  lemma LastOf(a: seq<LogRecord>, b: seq<LogRecord>, start: SeqNo)
    ensures b != [] ==> EndOf(a + b, start) == b[|b| - 1].Last()
  {}

  lemma InsertMemory(logs: seq<LogFile>, p: Memory, r: LogRecord)
    requires MemoryOk(logs, p) && p.inflight && r == NewRecords(logs)[|NewRecords(logs)| - 1]
    ensures MemoryOk(logs, p.(mem := MemAfter(p.mem, r.ops, r.sequence - 1), lastSequence := r.Last(), inflight := false))
    ensures p.lastSequence <= r.Last()
  {
    hide Chain, Backlog, MemAfter;
    var records := NewRecords(logs);
    assert records == Inserted(logs, true) + [r];
    OneMore(Inserted(logs, true), r, p.from, []);
    LastOf(OldRecords(logs, p.logNumber), records, p.from);
  }

  lemma InsertKeeps(s: State, p: Memory)
    requires Inv(s) && s.phase == Running(p) && RunningEnabled(s.disk, p, Insert)
    ensures Inv(RunningStep(s, p, Insert))
  {
    hide InPlace, MemoryOk, JobOk, DiskOk, UpTo, Chain, MemAfter, Inserted;
    var d := s.disk;
    var r := NewRecords(d.logs)[|NewRecords(d.logs)| - 1];
    InsertMemory(d.logs, p, r);
    var p' := p.(mem := MemAfter(p.mem, r.ops, r.sequence - 1), lastSequence := r.Last(), inflight := false);
    JobIgnoresNewRecords(d, d, p, p');
    SameMark(d.logs, d.logs, p, p');
  }

  // ---- MakeRoomForWrite ------------------------------------------------------------------

  lemma NewLogParts(logs: seq<LogFile>, number: nat, from: nat)
    requires logs != [] && logs[|logs| - 1].number >= from
    ensures OldRecords(logs + [LogFile(number, [])], from) == OldRecords(logs, from) + NewRecords(logs)
    ensures NewRecords(logs + [LogFile(number, [])]) == []
    ensures Backlog(logs + [LogFile(number, [])], from) == Backlog(logs, from)
  {
    assert (logs + [LogFile(number, [])])[..|logs|] == logs;
    CutLogs(logs, from);
    BacklogAppend(logs, LogFile(number, []), from);
  }

  lemma SwitchMemory(logs: seq<LogFile>, p: Memory)
    requires MemoryOk(logs, p) && !p.inflight && p.imm.None? && NumbersIncrease(logs)
    ensures MemoryOk(logs + [LogFile(p.nextFile, [])],
                     p.(imm := Some(p.mem), mem := [], logFile := p.nextFile, nextFile := p.nextFile + 1))
  {
    hide Chain, Backlog;
    NewLogParts(logs, p.nextFile, p.logNumber);
    OthersAreBelow(logs, p.logFile);
    assert OldRecords(logs, p.logNumber) == [];
    assert NewRecords(logs) + [] == NewRecords(logs) && [] + NewRecords(logs) == NewRecords(logs);
  }

  lemma LastIsHighest(logs: seq<LogFile>, number: nat)
    requires NumbersIncrease(logs) && LastLogIs(logs, number)
    ensures forall f :: f in logs ==> f.number <= number
  {}

  lemma SwitchKeeps(s: State, p: Memory)
    requires Inv(s) && s.phase == Running(p) && RunningEnabled(s.disk, p, Switch)
    ensures Inv(RunningStep(s, p, Switch))
    ensures Durable(RunningStep(s, p, Switch).disk) == Durable(s.disk)
    ensures CommitOf(RunningStep(s, p, Switch).disk) == CommitOf(s.disk)
  {
    hide InPlace, JobOk, ManifestOk, UpTo, Chain, Backlog, EndOf, Replayed, VersionOf, LatestNumbers;
    var d, c := s.disk, CommitOf(s.disk);
    var d' := d.(logs := d.logs + [LogFile(p.nextFile, [])]);
    var p' := p.(imm := Some(p.mem), mem := [], logFile := p.nextFile, nextFile := p.nextFile + 1);
    LastSequenceCovers(d, s.start, p);
    SameCommit(d, d');
    NewLogParts(d.logs, p.nextFile, c.logNumber);
    SwitchMemory(d.logs, p);
    LastIsHighest(d.logs, p.logFile);
    LogAppended(d.logs, LogFile(p.nextFile, []));
    NoFlushWithoutImm(d, p);
    JobIgnoresNewRecords(d, d', p, p');
    SameMark(d.logs, d'.logs, p, p');
    InPlaceLater(p.current, p.nextFile, p.nextFile + 1, d.tables);
  }

  lemma NoFlushWithoutImm(d: Disk, p: Memory)
    requires d.logs != [] && |p.current| == NUM_LEVELS && JobOk(d, p) && p.imm.None?
    ensures p.job.Committing? ==> !p.job.flush
  {
    hide InPlace, NewTables, FilesHold, NextVersion, UpTo;
  }

  // ---- the background thread ------------------------------------------------------------------

  lemma DiskOkAfterWrite(d: Disk, start: SeqNo, n: nat, entries: seq<Entry>)
    requires DiskOk(d, start) && CommitOf(d).nextFile <= n
    ensures var d' := d.(tables := d.tables[n := entries]);
      DiskOk(d', start) && CommitOf(d') == CommitOf(d) && Durable(d') == Durable(d)
  {
    hide InPlace, ManifestOk, Chain, Backlog, VersionOf, LatestNumbers;
    var c, d' := CommitOf(d), d.(tables := d.tables[n := entries]);
    SameCommit(d, d');
    InPlaceAfterWrite(c.version, c.nextFile, d.tables, n, entries);
  }

  lemma OutputAdded(files: seq<File>, low: nat, n: nat, f: File, tables: map<nat, seq<Entry>>)
    requires NewTables(files, low, n) && FilesHold(files, tables) && low <= n && f.number == n
    ensures NewTables(files + [f], low, n + 1) && FilesHold(files + [f], tables[n := f.entries])
  {
    NewTableFits(files, low, n, f);
  }

  lemma WriteTableKeeps(s: State, p: Memory, entries: seq<Entry>, bytes: nat)
    requires Inv(s) && s.phase == Running(p) && RunningEnabled(s.disk, p, WriteTable(entries, bytes))
    ensures Inv(RunningStep(s, p, WriteTable(entries, bytes)))
    ensures Durable(RunningStep(s, p, WriteTable(entries, bytes)).disk) == Durable(s.disk)
    ensures CommitOf(RunningStep(s, p, WriteTable(entries, bytes)).disk) == CommitOf(s.disk)
  {
    hide InPlace, DiskOk, UpTo, Chain, Backlog, EndOf, Replayed, CommitOf, NewTables, FilesHold, Durable;
    var d, n := s.disk, p.nextFile;
    DiskOkAfterWrite(d, s.start, n, entries);
    InPlaceAfterWrite(p.current, n, d.tables, n, entries);
    InPlaceLater(p.current, n, n + 1, d.tables[n := entries]);
    var files := if p.job.Outputs? then p.job.files else [];
    assert NewTables([], CommitOf(d).nextFile, n) && FilesHold([], d.tables) by { NothingWritten(CommitOf(d).nextFile, n, d.tables); }
    OutputAdded(files, CommitOf(d).nextFile, n, TableOf(n, bytes, entries), d.tables);
  }

  lemma NothingWritten(low: nat, high: nat, tables: map<nat, seq<Entry>>)
    ensures NewTables([], low, high) && FilesHold([], tables)
  {}

  // ---- CompactMemTable ---------------------------------------------------------------------------

  /** The memtables and the version stand in the order that a flush needs. */
  lemma MemoryIsOrdered(logs: seq<LogFile>, p: Memory)
    requires MemoryOk(logs, p) && Saved(p.current) && UniqueSeqs(VersionEntries(p.current))
    requires UpTo(VersionEntries(p.current), p.from) && NumbersIncrease(logs)
    ensures var mid := EndOf(OldRecords(logs, p.logNumber), p.from);
      && mid <= p.lastSequence
      && (p.imm.Some? ==> Ordered([], p.imm, p.current, mid) && Elements(p.imm.value) == RecordsEntries(OldRecords(logs, p.logNumber)))
      && (p.imm.None? ==> OldRecords(logs, p.logNumber) == [])
    ensures Ordered(p.mem, p.imm, p.current, p.lastSequence)
    ensures Elements(p.mem) == RecordsEntries(Inserted(logs, p.inflight))
  {
    hide Saved, UniqueSeqs, Ordered, Chain, EndOf, Backlog, Replayed, UpTo, NumbersIncrease;
    var a, b := OldRecords(logs, p.logNumber), Inserted(logs, p.inflight);
    EmptyMemoryIsOrdered(p.current, p.from);
    InsertedChain(logs, p);
    ChainGrows(b, EndOf(a, p.from));
    ReplayedIsOrdered([], None, p.current, p.from, a);
    assert Elements([]) == {};
    if p.imm.Some? {
      SwitchedIsOrdered(p.imm.value, p.current, EndOf(a, p.from));
      ReplayedIsOrdered([], p.imm, p.current, EndOf(a, p.from), b);
      LaterIsOrdered(p.mem, p.imm, p.current, EndOf(a + b, p.from), p.lastSequence);
    } else {
      OthersAreBelow(logs, p.logFile);
      EmptyEnd(p.from);
      ReplayedIsOrdered([], None, p.current, p.from, b);
      LaterIsOrdered(p.mem, p.imm, p.current, EndOf(a + b, p.from), p.lastSequence);
    }
  }

  lemma EmptyEnd(start: SeqNo)
    ensures EndOf([], start) == start
  {}

  lemma InsertedChain(logs: seq<LogFile>, p: Memory)
    requires MemoryOk(logs, p)
    ensures var a, b := OldRecords(logs, p.logNumber), Inserted(logs, p.inflight);
      && Chain(a, p.from) && Chain(b, EndOf(a, p.from)) && EndOf(a + b, p.from) == EndOf(b, EndOf(a, p.from))
      && Chain(NewRecords(logs), EndOf(a, p.from))
  {
    hide EndOf, Backlog, Replayed;
    var a, b, all := OldRecords(logs, p.logNumber), Inserted(logs, p.inflight), NewRecords(logs);
    ChainJoin(a, all, p.from);
    ChainJoin(a, b, p.from);
    if p.inflight {
      assert all == b + [all[|all| - 1]];
      OneMore(b, all[|all| - 1], EndOf(a, p.from), []);
    }
  }

  // The version with the flushed table.
  lemma FlushedVersionFits(imm: seq<Entry>, v: Version, level: nat, f: File, low: nat, next: nat, mid: SeqNo,
                           tables: map<nat, seq<Entry>>)
    requires Ordered([], Some(imm), v, mid) && InPlace(v, low, tables) && imm != []
    requires f.entries == imm && Intact(f) && low <= f.number < next && level < NUM_LEVELS
    requires f.number in tables && tables[f.number] == imm
    requires level > 0 ==> forall l :: 0 <= l <= level ==> !SomeOverlaps(v[l], Some(f.smallest.ukey), Some(f.largest.ukey))
    ensures var edit := VersionEdit({}, [(level, f)]);
      var v' := NextVersion(v, edit);
      && InPlace(v', next, tables) && UpTo(VersionEntries(v'), mid)
      && VersionEntries(v') == VersionEntries(v) + Elements(imm)
      && AddsAt(edit, level, v, low) && forall l :: 0 <= l < NUM_LEVELS ==> ComesFrom(v, edit, v', l)
  {
    hide LevelsOrdered, SavedLevel, NextVersion, Ordered, UniqueSeqs, SomeOverlaps, TableAdded;
    var edit := VersionEdit({}, [(level, f)]);
    var v' := NextVersion(v, edit);
    NumberedUpTo(v, low, f.number);
    FlushInstalls([], imm, v, level, f, v', f.number, mid);
    NumberedUpTo(v', f.number + 1, next);
    OrderedBounds([], None, v', mid);
    OneTableAdded(v, level, f, f.number, tables);
    OneFileEdit(v, level, f, low);
  }

  lemma OneTableAdded(v: Version, level: nat, f: File, next: nat, tables: map<nat, seq<Entry>>)
    requires InPlace(v, next, tables) && level < NUM_LEVELS && f.number >= next && FilesHold([f], tables)
    ensures var edit := VersionEdit({}, [(level, f)]);
      && TablesHold(NextVersion(v, edit), tables)
      && forall l :: 0 <= l < NUM_LEVELS ==> ComesFrom(v, edit, NextVersion(v, edit), l)
  {
    hide Saved, NextVersion, UniqueSeqs;
    var v' := NextVersion(v, VersionEdit({}, [(level, f)]));
    assert NumbersBelow(v[level], next);
    TableIsAdded(v, level, f);
    assert Additions(level, [f]) == [(level, f)];
    forall l | 0 <= l < |v'| ensures FilesHold(v'[l], tables) && ComesFrom(v, VersionEdit({}, [(level, f)]), v', l) {
      assert FilesHold(v[l], tables) && f in [f];
      AdditionsAt(level, [f], l);
    }
  }

  lemma OneFileEdit(v: Version, level: nat, f: File, low: nat)
    requires |v| == NUM_LEVELS && low <= f.number && level < NUM_LEVELS
    ensures AddsAt(VersionEdit({}, [(level, f)]), level, v, low) && VersionEdit({}, [(level, f)]).LevelsInRange()
  {
    assert Additions(level, [f]) == [(level, f)];
    forall l: nat ensures NewAt([(level, f)], l) == if l == level then [f] else [] {
      AdditionsAt(level, [f], l);
    }
  }

  lemma EmptyEditFits(v: Version, low: nat, next: nat, tables: map<nat, seq<Entry>>)
    requires InPlace(v, low, tables) && low <= next
    ensures NextVersion(v, VersionEdit({}, [])) == v && InPlace(v, next, tables)
    ensures AddsAt(VersionEdit({}, []), 0, v, low)
    ensures forall l :: 0 <= l < NUM_LEVELS ==> ComesFrom(v, VersionEdit({}, []), v, l)
  {
    hide Saved, NextVersion, TablesHold, UniqueSeqs;
    assert Additions(0, []) == [];
    NoNewTables(v);
    InPlaceLater(v, low, next, tables);
  }

  /** What BeginFlush decides. */
  lemma FlushPlan(d: Disk, start: SeqNo, p: Memory, level: nat)
    requires DiskOk(d, start) && RunningOk(d, start, p) && GoodFlush(p, level)
    ensures var edit := VersionEdit({}, if p.imm.value == [] then [] else [(level, p.job.files[0])]);
      var v' := NextVersion(p.current, edit);
      && InPlace(v', p.nextFile, d.tables) && UpTo(VersionEntries(v'), EndOf(OldRecords(d.logs, p.logNumber), p.from))
      && VersionEntries(v') == VersionEntries(p.current) + Elements(p.imm.value)
      && edit.LevelsInRange() && Replayable(Edits(Records(d)) + [edit], v', p.nextFile)
  {
    hide Saved, Numbered, TablesHold, NextVersion, Ordered, UniqueSeqs, SomeOverlaps, MemoryOk, Replayable, EndOf, AddsAt, Intact;
    var c := CommitOf(d);
    var mid := EndOf(OldRecords(d.logs, p.logNumber), p.from);
    MemoryIsOrdered(d.logs, p);
    OrderedBounds([], p.imm, p.current, mid);
    if p.imm.value == [] {
      EmptyEditFits(p.current, c.nextFile, p.nextFile, d.tables);
      assert VersionEntries(p.current) + Elements([]) == VersionEntries(p.current);
      StaysReplayable(Edits(Records(d)), p.current, c.nextFile, VersionEdit({}, []), 0, p.current, p.nextFile);
    } else {
      var f := p.job.files[0];
      assert f in p.job.files;
      FlushedVersionFits(p.imm.value, p.current, level, f, c.nextFile, p.nextFile, mid, d.tables);
      OneFileEdit(p.current, level, f, c.nextFile);
      var edit := VersionEdit({}, [(level, f)]);
      StaysReplayable(Edits(Records(d)), p.current, c.nextFile, edit, level, NextVersion(p.current, edit), p.nextFile);
    }
  }

  lemma MemoryIgnoresJob(logs: seq<LogFile>, p: Memory, job: Job, oldest: SeqNo)
    requires MemoryOk(logs, p)
    ensures MemoryOk(logs, p.(job := job, oldest := oldest))
  {
    hide Chain, Backlog, Replayed, EndOf;
  }

  lemma BeginFlushKeeps(s: State, p: Memory, level: nat)
    requires Inv(s) && s.phase == Running(p) && RunningEnabled(s.disk, p, BeginFlush(level))
    ensures Inv(RunningStep(s, p, BeginFlush(level)))
  {
    hide InPlace, UpTo, Chain, Backlog, Replayed, EndOf, NextVersion, Replayable, NewTables, FilesHold, ManifestOk, MemoryOk;
    FlushPlan(s.disk, s.start, p, level);
    BeginOk(s.disk, s.start, p);
    MemoryIgnoresJob(s.disk.logs, p, RunningStep(s, p, BeginFlush(level)).phase.m.job, p.oldest);
  }

  // The numbers that a commit begun now would record.
  lemma BeginOk(d: Disk, start: SeqNo, p: Memory)
    requires DiskOk(d, start) && RunningOk(d, start, p) && !p.job.Committing?
    ensures EndOf(OldRecords(d.logs, p.logNumber), p.from) <= p.lastSequence && p.from <= p.lastSequence
    ensures p.logFile < p.nextFile && p.logNumber < p.nextFile
    ensures MemoryOk(d.logs, p)
  {
    hide InPlace, UpTo, Chain, Backlog, Replayed, EndOf, ManifestOk, VersionOf, LatestNumbers;
    InsertedChain(d.logs, p);
    ChainGrows(Inserted(d.logs, p.inflight), EndOf(OldRecords(d.logs, p.logNumber), p.from));
    ChainGrows(OldRecords(d.logs, p.logNumber), p.from);
  }

  // ---- compaction ---------------------------------------------------------------------------------

  lemma GoodEditHolds(v: Version, edit: VersionEdit, to: nat, written: seq<File>, tables: map<nat, seq<Entry>>)
    requires |v| == NUM_LEVELS && TablesHold(v, tables) && FilesHold(written, tables)
    requires forall l :: 0 <= l < NUM_LEVELS ==> ComesFrom(v, edit, NextVersion(v, edit), l)
    requires forall l: nat :: l != to ==> NewAt(edit.newFiles, l) == []
    requires forall f: File :: f in NewAt(edit.newFiles, to) ==> f in written || exists l :: 0 <= l < NUM_LEVELS && f in v[l]
    ensures TablesHold(NextVersion(v, edit), tables)
  {
    hide NextVersion;
    var v' := NextVersion(v, edit);
    forall l | 0 <= l < |v'| ensures FilesHold(v'[l], tables) {
      assert ComesFrom(v, edit, v', l) && FilesHold(v[l], tables);
      forall f: File | f in v'[l] ensures f.number in tables && tables[f.number] == f.entries {
        if f !in v[l] && f !in written {
          var m :| 0 <= m < NUM_LEVELS && f in v[m];
          assert FilesHold(v[m], tables);
        }
      }
    }
  }

  lemma FewerEntries(es: set<Entry>, es': set<Entry>, last: SeqNo)
    requires es' <= es
    ensures UniqueSeqs(es) ==> UniqueSeqs(es')
    ensures UpTo(es, last) ==> UpTo(es', last)
  {}

  /** An edit that a compaction or a trivial move may install. */
  ghost predicate GoodEdit(v: Version, next: nat, next': nat, written: seq<File>, edit: VersionEdit, to: nat)
    requires |v| == NUM_LEVELS
  {
    var v' := NextVersion(v, edit);
    && to < NUM_LEVELS && edit.LevelsInRange()
    && Saved(v') && Numbered(v', next') && VersionEntries(v') <= VersionEntries(v)
    && (forall l :: 0 <= l < NUM_LEVELS ==> ComesFrom(v, edit, v', l))
    && AddsAt(edit, to, v, next)
    && forall f :: f in NewAt(edit.newFiles, to) ==> f in written || exists l :: 0 <= l < NUM_LEVELS && f in v[l]
  }

  lemma EditComesFrom(v: Version, level: nat, inputs0: seq<File>, inputs1: seq<File>, outputs: seq<File>)
    requires |v| == NUM_LEVELS && level + 1 < NUM_LEVELS
    requires Replaced(v, level, inputs0, inputs1, outputs, NextVersion(v, CompactionEdit(level, inputs0, inputs1, outputs)))
    ensures var edit := CompactionEdit(level, inputs0, inputs1, outputs);
      && (forall l :: 0 <= l < NUM_LEVELS ==> ComesFrom(v, edit, NextVersion(v, edit), l))
      && forall l: nat :: NewAt(edit.newFiles, l) == if l == level + 1 then outputs else []
  {
    hide NextVersion, SavedLevel;
    var edit := CompactionEdit(level, inputs0, inputs1, outputs);
    forall l: nat ensures NewAt(edit.newFiles, l) == if l == level + 1 then outputs else [] {
      AdditionsAt(level + 1, outputs, l);
    }
  }

  lemma VersionAloneIsOrdered(v: Version)
    requires Saved(v) && UniqueSeqs(VersionEntries(v))
    ensures WellOrdered({}, v) && |v| == NUM_LEVELS
  {
    hide VersionEntries;
    assert {} + VersionEntries(v) == VersionEntries(v);
  }

  /** The edit of a compaction: the new version holds what the compaction keeps. */
  lemma CompactionIsGood(v: Version, m: Merging, outputs: seq<File>, low: nat, next: nat)
    requires |v| == NUM_LEVELS && m.level + 1 < NUM_LEVELS && Saved(v) && UniqueSeqs(VersionEntries(v))
    requires Numbered(v, low) && Selected(v, m.level, m.inputs0, m.inputs1) && NewTables(outputs, low, next) && low <= next
    requires OutputsOf(outputs, FilesEntries(m.inputs0) + FilesEntries(m.inputs1))
    requires FilesEntries(outputs) == Kept(FilesEntries(m.inputs0) + FilesEntries(m.inputs1), BaseKeys(v, m.level), m.snapshot)
    ensures var edit := CompactionEdit(m.level, m.inputs0, m.inputs1, outputs);
      GoodEdit(v, low, next, outputs, edit, m.level + 1) && MergedInto(v, NextVersion(v, edit), m)
  {
    hide WellOrdered, Saved, Numbered, OutputsOf, NextVersion, Replaced, Selected, Kept, BaseKeys, UniqueSeqs, VersionEntries,
         SceneOf, MergedInto, ComesFrom, NumbersFit;
    VersionAloneIsOrdered(v);
    NewNumbersFit(v, m.level, m.inputs0, outputs, low, next);
    EditLevelsInRange(m.level, m.inputs0, m.inputs1, outputs);
    var v' := NextVersion(v, CompactionEdit(m.level, m.inputs0, m.inputs1, outputs));
    ReplacementInstalls({}, v, m.level, m.inputs0, m.inputs1, outputs, v', low, next);
    KeptIsMergedInto(v, v', m, outputs);
    CompactionReplaces(v, m.level, m.inputs0, m.inputs1, outputs);
    EditComesFrom(v, m.level, m.inputs0, m.inputs1, outputs);
  }

  lemma KeptIsMergedInto(v: Version, v': Version, m: Merging, outputs: seq<File>)
    requires |v| == NUM_LEVELS && m.level + 1 < NUM_LEVELS && Selected(v, m.level, m.inputs0, m.inputs1)
    requires {} + VersionEntries(v') == SceneOf({}, v, m.level, m.inputs0, m.inputs1).Rest() + FilesEntries(outputs)
    requires FilesEntries(outputs) == Kept(FilesEntries(m.inputs0) + FilesEntries(m.inputs1), BaseKeys(v, m.level), m.snapshot)
    ensures MergedInto(v, v', m)
  {
    hide VersionEntries, Selected, Kept, BaseKeys, FilesEntries, EntriesOf;
    assert {} + VersionEntries(v') == VersionEntries(v');
  }

  /** The edit of a trivial move: the new version holds the same entries. */
  lemma MoveIsGood(v: Version, level: nat, f: File, low: nat, next: nat)
    requires |v| == NUM_LEVELS && level + 1 < NUM_LEVELS && Saved(v) && UniqueSeqs(VersionEntries(v))
    requires Numbered(v, low) && Selected(v, level, [f], []) && low <= next
    ensures var edit := CompactionEdit(level, [f], [], [f]);
      GoodEdit(v, low, next, [], edit, level + 1) && VersionEntries(NextVersion(v, edit)) == VersionEntries(v)
  {
    hide WellOrdered, Saved, Numbered, NextVersion, Replaced, Selected, VersionEntries, UniqueSeqs;
    VersionAloneIsOrdered(v);
    MovedFileIsThere(v, level, f);
    var v' := NextVersion(v, CompactionEdit(level, [f], [], [f]));
    MovedFileFits(v, level, f, low);
    MoveInstalls({}, v, level, f, v', low);
    assert {} + VersionEntries(v') == VersionEntries(v') && {} + VersionEntries(v) == VersionEntries(v);
    NumberedUpTo(v', low, next);
    EditLevelsInRange(level, [f], [], [f]);
    CompactionReplaces(v, level, [f], [], [f]);
    EditComesFrom(v, level, [f], [], [f]);
    assert f in v[level];
  }

  lemma MovedFileIsThere(v: Version, level: nat, f: File)
    requires WellOrdered({}, v) && Selected(v, level, [f], [])
    ensures |v| == NUM_LEVELS && level + 1 < NUM_LEVELS && f in v[level]
  {
    PickedAreFiles(level, v[level], [f]);
    assert f in [f];
  }

  // The version that the job will install.
  lemma BeginEditKeeps(s: State, p: Memory, edit: VersionEdit, to: nat, merging: Option<Merging>, p': Memory)
    requires Inv(s) && s.phase == Running(p) && !p.job.Committing? && |p.current| == NUM_LEVELS
    requires GoodEdit(p.current, CommitOf(s.disk).nextFile, p.nextFile, WrittenFiles(p), edit, to)
    requires p'.oldest <= p.lastSequence && p' == EditBegun(p.(oldest := p'.oldest), edit, merging)
    requires if merging.Some? then MergedInto(p.current, NextVersion(p.current, edit), merging.value) && merging.value.snapshot == p'.oldest
             else VersionEntries(NextVersion(p.current, edit)) == VersionEntries(p.current)
    ensures Inv(s.(phase := Running(p')))
  {
    hide Saved, Numbered, TablesHold, UpTo, UniqueSeqs, Chain, Backlog, Replayed, EndOf, NextVersion, Replayable, NewTables,
         FilesHold, MemoryOk, ComesFrom, VersionEntries, MergedInto;
    var d, c, v' := s.disk, CommitOf(s.disk), NextVersion(p.current, edit);
    NothingWritten(c.nextFile, p.nextFile, d.tables);
    GoodEditHolds(p.current, edit, to, WrittenFiles(p), d.tables);
    FewerEntries(VersionEntries(p.current), VersionEntries(v'), p.from);
    StaysReplayable(Edits(Records(d)), p.current, c.nextFile, edit, to, v', p.nextFile);
    BeginOk(d, s.start, p);
    MemoryIgnoresJob(d.logs, p, p'.job, p'.oldest);
  }

  lemma CurrentParts(d: Disk, start: SeqNo, p: Memory)
    requires DiskOk(d, start) && RunningOk(d, start, p) && !p.job.Committing?
    ensures Saved(p.current) && UniqueSeqs(VersionEntries(p.current)) && |p.current| == NUM_LEVELS
    ensures Numbered(p.current, CommitOf(d).nextFile) && CommitOf(d).nextFile <= p.nextFile
    ensures NewTables(WrittenFiles(p), CommitOf(d).nextFile, p.nextFile)
  {
    hide Saved, Numbered, TablesHold, UniqueSeqs, MemoryOk, ManifestOk, Chain, Backlog, FilesHold, UpTo;
    NothingWritten(CommitOf(d).nextFile, p.nextFile, d.tables);
  }

  lemma BeginMergeKeeps(s: State, p: Memory, m: Merging)
    requires Inv(s) && s.phase == Running(p) && RunningEnabled(s.disk, p, BeginMerge(m))
    ensures Inv(RunningStep(s, p, BeginMerge(m)))
  {
    hide DiskOk, RunningOk, Saved, Numbered, UniqueSeqs, NewTables, OutputsOf, Kept, Selected, NextVersion, MergedInto, GoodEdit,
         VersionEntries;
    CurrentParts(s.disk, s.start, p);
    CompactionIsGood(p.current, m, WrittenFiles(p), CommitOf(s.disk).nextFile, p.nextFile);
    BeginEditKeeps(s, p, CompactionEdit(m.level, m.inputs0, m.inputs1, WrittenFiles(p)), m.level + 1, Some(m),
                   RunningStep(s, p, BeginMerge(m)).phase.m);
  }

  lemma BeginMoveKeeps(s: State, p: Memory, level: nat, f: File)
    requires Inv(s) && s.phase == Running(p) && RunningEnabled(s.disk, p, BeginMove(level, f))
    ensures Inv(RunningStep(s, p, BeginMove(level, f)))
  {
    hide DiskOk, Saved, Numbered, UniqueSeqs, NewTables, Selected, NextVersion, GoodEdit, VersionEntries, InPlace, MemoryOk, JobOk;
    CurrentParts(s.disk, s.start, p);
    MoveIsGood(p.current, level, f, CommitOf(s.disk).nextFile, p.nextFile);
    BeginEditKeeps(s, p, CompactionEdit(level, [f], [], [f]), level + 1, None, RunningStep(s, p, BeginMove(level, f)).phase.m);
  }

  // ---- LogAndApply: the manifest record ---------------------------------------------------------------

  /** The entries a commit drops from the tables: none for a flush. */
  ghost function DroppedEntries(p: Memory): set<Entry> {
    if p.job.Committing? && !p.job.flush then VersionEntries(p.current) - VersionEntries(p.job.version) else {}
  }

  lemma {:induction false} ChainAbove(records: seq<LogRecord>, start: SeqNo)
    requires Chain(records, start)
    ensures forall e :: e in RecordsEntries(records) ==> start < e.key.seqno
  {
    if records != [] {
      var n := |records| - 1;
      ChainAbove(records[..n], start);
      ChainGrows(records[..n], start);
      BatchEntriesAreNew(records[n].ops, records[n].sequence - 1);
    }
  }

  lemma CommitAppended(d: Disk, r: ManifestRecord, v': Version)
    requires ManifestOk(Records(d), CommitOf(d)) && d.current in d.manifests
    requires r.logNumber.Some? && r.nextFile.Some? && r.lastSequence.Some? && r.edit.LevelsInRange()
    requires v' == NextVersion(CommitOf(d).version, r.edit)
    requires Replayable(Edits(Records(d)) + [r.edit], v', r.nextFile.value)
    ensures var d' := d.(manifests := d.manifests[d.current := d.manifests[d.current] + [r]]);
      && Records(d') == Records(d) + [r]
      && CommitOf(d') == Commit(v', r.logNumber.value, r.nextFile.value, r.lastSequence.value)
      && ManifestOk(Records(d'), CommitOf(d'))
  {
    hide NextVersion, Edits, VersionOf, LatestNumbers, Replayable;
    Appended(Records(d), r);
  }

  lemma AppendManifestDisk(d: Disk, start: SeqNo, p: Memory, d': Disk)
    requires DiskOk(d, start) && RunningOk(d, start, p) && RunningEnabled(d, p, AppendManifest)
    requires d' == d.(manifests := d.manifests[d.current := d.manifests[d.current] + [p.job.record]])
    ensures DiskOk(d', Mark(d.logs, p))
    ensures CommitOf(d') == Commit(p.job.version, p.job.record.logNumber.value, p.job.record.nextFile.value, p.job.record.lastSequence.value)
    ensures Records(d') == Records(d) + [p.job.record]
  {
    hide InPlace, ManifestOk, UpTo, Chain, Backlog, Replayed, EndOf, NextVersion, Replayable, VersionOf, LatestNumbers;
    CommitAppended(d, p.job.record, p.job.version);
    CutLogs(d.logs, p.logNumber);
    OthersAreBelow(d.logs, p.logFile);
    InsertedChain(d.logs, p);
    assert d.current in d.manifests;
  }

  /** A flush commit changes nothing of what the disk stands for; a compaction commit
      takes away exactly what the compaction dropped. */
  lemma AppendManifestDurable(d: Disk, start: SeqNo, p: Memory, d': Disk)
    requires DiskOk(d, start) && RunningOk(d, start, p) && p.job.Committing? && !p.job.written && d'.logs == d.logs
    requires CommitOf(d') == Commit(p.job.version, p.job.record.logNumber.value, p.job.record.nextFile.value, p.job.record.lastSequence.value)
    ensures Durable(d') == Durable(d) - DroppedEntries(p)
  {
    hide ManifestOk, Chain, Backlog, Replayed, EndOf, NextVersion, Replayable, VersionOf, LatestNumbers, VersionEntries,
         RecordsEntries, CommitOf, Saved, Numbered, TablesHold, UniqueSeqs;
    var all := Backlog(d.logs, p.logNumber);
    CutLogs(d.logs, p.logNumber);
    OthersAreBelow(d.logs, p.logFile);
    ChainJoin(OldRecords(d.logs, p.logNumber), NewRecords(d.logs), p.from);
    if p.job.flush {
      FlushedElements(d.logs, p);
    } else {
      ChainAbove(all, p.from);
    }
  }

  lemma FlushedElements(logs: seq<LogFile>, p: Memory)
    requires MemoryOk(logs, p) && p.imm.Some? && NumbersIncrease(logs)
    requires Saved(p.current) && UniqueSeqs(VersionEntries(p.current)) && UpTo(VersionEntries(p.current), p.from)
    ensures Elements(p.imm.value) == RecordsEntries(OldRecords(logs, p.logNumber))
  {
    hide *;
    MemoryIsOrdered(logs, p);
  }

  lemma DroppedAreOld(p: Memory, last: SeqNo)
    requires UpTo(VersionEntries(p.current), p.from) && (p.job.Committing? && !p.job.flush ==> p.from <= last)
    ensures UpTo(DroppedEntries(p), last)
  {}

  lemma AppendManifestKeeps(s: State, p: Memory)
    requires Inv(s) && s.phase == Running(p) && RunningEnabled(s.disk, p, AppendManifest)
    ensures Inv(RunningStep(s, p, AppendManifest))
    ensures Durable(RunningStep(s, p, AppendManifest).disk) == Durable(s.disk) - DroppedEntries(p)
    ensures CommitOf(s.disk).lastSequence <= CommitOf(RunningStep(s, p, AppendManifest).disk).lastSequence
    ensures UpTo(DroppedEntries(p), CommitOf(RunningStep(s, p, AppendManifest).disk).lastSequence)
  {
    hide InPlace, ManifestOk, UpTo, Chain, Backlog, Replayed, EndOf, NextVersion, Replayable, VersionOf, LatestNumbers, MemoryOk,
         DiskOk, Durable, CommitOf, Records;
    var d := s.disk;
    var d' := d.(manifests := d.manifests[d.current := d.manifests[d.current] + [p.job.record]]);
    AppendManifestDisk(d, s.start, p, d');
    AppendManifestDurable(d, s.start, p, d');
    MemoryIgnoresJob(d.logs, p, RunningStep(s, p, AppendManifest).phase.m.job, p.oldest);
    DroppedAreOld(p, p.job.record.lastSequence.value);
  }

  // ---- LogAndApply: the new version ---------------------------------------------------------------------

  lemma InstallMemory(logs: seq<LogFile>, p: Memory, p': Memory)
    requires MemoryOk(logs, p) && NumbersIncrease(logs)
    requires p' == p.(current := p'.current, from := EndOf(OldRecords(logs, p.logNumber), p.from), logNumber := p.logFile,
                      imm := None, job := Idle)
    ensures MemoryOk(logs, p')
  {
    hide Chain, Backlog, Replayed, EndOf;
    InsertedChain(logs, p);
    OthersAreBelow(logs, p.logFile);
    var b, all := Inserted(logs, p.inflight), NewRecords(logs);
    assert [] + b == b && [] + all == all;
  }

  lemma InstallKeeps(s: State, p: Memory)
    requires Inv(s) && s.phase == Running(p) && RunningEnabled(s.disk, p, Install)
    ensures Inv(RunningStep(s, p, Install))
  {
    hide Saved, Numbered, TablesHold, UniqueSeqs, ManifestOk, UpTo, Chain, Backlog, Replayed, EndOf, NextVersion, Replayable,
         VersionOf, LatestNumbers, MemoryOk, DiskOk, CommitOf, Records;
    var d := s.disk;
    var p' := RunningStep(s, p, Install).phase.m;
    InPlaceLater(p.job.version, p.job.record.nextFile.value, p.nextFile, d.tables);
    DiskLogs(d, s.start);
    SevenLevels(p.job.version, p.nextFile, d.tables);
    if p.job.flush {
      InstallMemory(d.logs, p, p');
    } else {
      MemoryIgnoresVersion(d.logs, p, p.job.version);
      assert p' == p.(current := p.job.version, job := Idle);
    }
  }

  lemma SevenLevels(v: Version, next: nat, tables: map<nat, seq<Entry>>)
    requires InPlace(v, next, tables)
    ensures |v| == NUM_LEVELS
  {
    hide Saved, TablesHold, UniqueSeqs;
  }

  lemma DiskLogs(d: Disk, start: SeqNo)
    requires DiskOk(d, start)
    ensures NumbersIncrease(d.logs)
  {
    hide InPlace, ManifestOk, Chain;
  }

  lemma MemoryIgnoresVersion(logs: seq<LogFile>, p: Memory, v: Version)
    requires MemoryOk(logs, p)
    ensures MemoryOk(logs, p.(current := v, job := Idle))
  {
    hide Chain, Backlog, Replayed, EndOf;
  }

  // ---- DeleteObsoleteFiles ------------------------------------------------------------------------------

  lemma DeleteMemory(logs: seq<LogFile>, p: Memory, gone: set<nat>)
    requires MemoryOk(logs, p) && forall n :: n in gone ==> n < p.logNumber
    ensures MemoryOk(Deleted(logs, gone), p)
  {
    hide Chain, Backlog, Replayed, EndOf;
    var n := |logs| - 1;
    assert Deleted(logs, gone) == Deleted(logs[..n], gone) + [logs[n]];
    assert Deleted(logs, gone)[..|Deleted(logs, gone)| - 1] == Deleted(logs[..n], gone);
    DeletedBacklog(logs[..n], gone, p.logNumber);
  }

  lemma DeleteDisk(d: Disk, start: SeqNo, logs: set<nat>, tables: set<nat>, manifests: set<nat>)
    requires DiskOk(d, start) && (forall n :: n in logs ==> n < CommitOf(d).logNumber)
    requires tables !! Live(CommitOf(d).version) && d.current !in manifests
    ensures var d' := d.(logs := Deleted(d.logs, logs), tables := d.tables - tables, manifests := d.manifests - manifests);
      DiskOk(d', start) && CommitOf(d') == CommitOf(d) && Durable(d') == Durable(d)
  {
    hide InPlace, ManifestOk, Chain, Backlog, VersionOf, LatestNumbers, Live;
    var c := CommitOf(d);
    var d' := d.(logs := Deleted(d.logs, logs), tables := d.tables - tables, manifests := d.manifests - manifests);
    SameCommit(d, d');
    DeletedBacklog(d.logs, logs, c.logNumber);
    DeletedKeeps(d.logs, logs);
    InPlaceAfterDelete(c.version, c.nextFile, d.tables, tables);
  }

  lemma DeleteKeeps(s: State, p: Memory, logs: set<nat>, tables: set<nat>, manifests: set<nat>)
    requires Inv(s) && s.phase == Running(p) && RunningEnabled(s.disk, p, DeleteObsolete(logs, tables, manifests))
    ensures Inv(RunningStep(s, p, DeleteObsolete(logs, tables, manifests)))
    ensures Durable(RunningStep(s, p, DeleteObsolete(logs, tables, manifests)).disk) == Durable(s.disk)
    ensures CommitOf(RunningStep(s, p, DeleteObsolete(logs, tables, manifests)).disk) == CommitOf(s.disk)
  {
    hide InPlace, UpTo, MemoryOk, DiskOk, CommitOf, Durable, Live;
    DeleteDisk(s.disk, s.start, logs, tables, manifests);
    DeleteMemory(s.disk.logs, p, logs);
    InPlaceAfterDelete(p.current, p.nextFile, s.disk.tables, tables);
    MemoryHasLog(Deleted(s.disk.logs, logs), p);
  }

  lemma MemoryHasLog(logs: seq<LogFile>, p: Memory)
    requires MemoryOk(logs, p)
    ensures logs != []
  {}
}
