/** Every step keeps the invariant of Recovery.dfy and loses nothing that was logged. */
module RecoverySteps {
  import opened Dbformat
  import opened Runs
  import opened Version
  import opened VersionBuilder
  import opened LevelSteps
  import opened Flush
  import opened Install
  import opened InputSelection
  import opened CompactionScene
  import opened DbSteps
  import opened Manifest
  import opened Replay
  import opened Recovery

  // ---- files in place -----------------------------------------------------------------

  lemma NumberedUpTo(v: Version, next: nat, next': nat)
    requires Numbered(v, next) && next <= next'
    ensures Numbered(v, next')
  {
    forall l | 0 <= l < NUM_LEVELS ensures NumbersBelow(v[l], next') {
      assert NumbersBelow(v[l], next);
    }
  }

  lemma InPlaceLater(v: Version, next: nat, next': nat, tables: map<nat, seq<Entry>>)
    requires InPlace(v, next, tables) && next <= next'
    ensures InPlace(v, next', tables)
  {
    hide Saved, TablesHold, UniqueSeqs;
    NumberedUpTo(v, next, next');
  }

  /** A new table has a number that no file in place has. */
  lemma InPlaceAfterWrite(v: Version, next: nat, tables: map<nat, seq<Entry>>, n: nat, entries: seq<Entry>)
    requires InPlace(v, next, tables) && next <= n
    ensures InPlace(v, next, tables[n := entries])
  {
    hide Saved, UniqueSeqs;
    forall l | 0 <= l < |v| ensures FilesHold(v[l], tables[n := entries]) {
      assert NumbersBelow(v[l], next) && FilesHold(v[l], tables);
    }
  }

  lemma InPlaceAfterDelete(v: Version, next: nat, tables: map<nat, seq<Entry>>, gone: set<nat>)
    requires InPlace(v, next, tables) && gone !! Live(v)
    ensures InPlace(v, next, tables - gone)
  {
    hide Saved, UniqueSeqs;
    forall l | 0 <= l < |v| ensures FilesHold(v[l], tables - gone) {
      assert FilesHold(v[l], tables);
      forall f | f in v[l] ensures f.number in Live(v) {}
    }
  }

  lemma EmptyMemoryIsOrdered(v: Version, last: SeqNo)
    requires Saved(v) && UniqueSeqs(VersionEntries(v)) && UpTo(VersionEntries(v), last)
    ensures Ordered([], None, v, last)
  {
    hide LevelsOrdered;
    assert Elements([]) + ImmEntries(None) + VersionEntries(v) == VersionEntries(v);
  }

  lemma SwitchedIsOrdered(mem: seq<Entry>, v: Version, last: nat)
    requires Ordered(mem, None, v, last)
    ensures Ordered([], Some(mem), v, last)
  {
    hide LevelsOrdered;
    assert Elements([]) + ImmEntries(Some(mem)) == Elements(mem) + ImmEntries(None);
  }

  lemma OrderedBounds(mem: seq<Entry>, imm: Option<seq<Entry>>, v: Version, last: nat)
    requires Ordered(mem, imm, v, last)
    ensures UpTo(VersionEntries(v), last) && UniqueSeqs(VersionEntries(v)) && Sorted(mem)
    ensures UpTo(Elements(mem), last) && (imm.Some? ==> Sorted(imm.value) && UpTo(Elements(imm.value), last))
  {
    hide LevelsOrdered, Newer;
  }

  lemma SameCommit(d: Disk, d': Disk)
    requires Records(d') == Records(d)
    ensures CommitOf(d') == CommitOf(d)
  {}

  // ---- the edit of a recovery ------------------------------------------------------------

  lemma RecoveryEditAt(news: seq<File>, l: nat)
    ensures NewAt(RecoveryEdit(news).newFiles, l) == if l == 0 then news else []
    ensures DeletedAt(RecoveryEdit(news).deletedFiles, l) == {}
  {
    AdditionsAt(0, news, l);
  }

  lemma RecoveredLevels(v: Version, news: seq<File>)
    requires |v| == NUM_LEVELS && Saved(v) && NumbersDiffer(news) && NoCommonNumber(v[0], news)
    ensures SavedLevel(NextVersion(v, RecoveryEdit(news))[0])
    ensures forall f :: f in NextVersion(v, RecoveryEdit(news))[0] <==> f in v[0] || f in news
    ensures forall l :: 0 < l < NUM_LEVELS ==> NextVersion(v, RecoveryEdit(news))[l] == v[l]
  {
    hide LevelsOrdered, SavedLevel, NextVersion;
    assert Numbers([]) == {};
    assert SavedLevel(v[0]);
    RecoveryEditAt(news, 0);
    InstalledLevel(v, RecoveryEdit(news), 0, [], news);
    NothingToPick(v[0]);
    forall l | 0 < l < NUM_LEVELS ensures NextVersion(v, RecoveryEdit(news))[l] == v[l] {
      assert SavedLevel(v[l]);
      RecoveryEditAt(news, l);
      UntouchedLevel(v, RecoveryEdit(news), l);
    }
  }

  lemma OneMoreNumber(news: seq<File>, f: File)
    requires NumbersDiffer(news) && forall g :: g in news ==> g.number != f.number
    ensures NumbersDiffer(news + [f])
  {
    NumbersDifferJoin(news, [f]);
  }

  /** Adding recovered tables one at a time or all in one edit is the same. */
  lemma OneMoreTable(v: Version, news: seq<File>, f: File)
    requires |v| == NUM_LEVELS && Saved(v) && NumbersDiffer(news + [f]) && NoCommonNumber(v[0], news + [f])
    requires Saved(NextVersion(v, RecoveryEdit(news)))
    ensures NextVersion(v, RecoveryEdit(news + [f]))
         == NextVersion(NextVersion(v, RecoveryEdit(news)), VersionEdit({}, [(0, f)]))
  {
    hide LevelsOrdered, NextVersion;
    var w := NextVersion(v, RecoveryEdit(news));
    assert Additions(0, [f]) == [(0, f)];
    NumbersDifferSplit(news, [f]);
    RecoveredLevels(v, news);
    RecoveredLevels(v, news + [f]);
    RecoveredLevels(w, [f]);
    InOrderIsUnique(NextVersion(v, RecoveryEdit(news + [f]))[0], NextVersion(w, RecoveryEdit([f]))[0]);
  }

  lemma NoNewTables(v: Version)
    requires |v| == NUM_LEVELS && Saved(v)
    ensures NextVersion(v, RecoveryEdit([])) == v
  {
    hide LevelsOrdered, NextVersion;
    RecoveredLevels(v, []);
    assert SavedLevel(v[0]);
    InOrderIsUnique(NextVersion(v, RecoveryEdit([]))[0], v[0]);
  }

  // ---- opening: VersionSet::Recover -----------------------------------------------------------

  /** No live table is missing, and the version is the committed one. */
  lemma LoadGivesCommitted(v: Version, tables: map<nat, seq<Entry>>)
    requires TablesHold(v, tables)
    ensures LoadVersion(v, tables) == v
    ensures Live(v) <= tables.Keys
  {
    forall l | 0 <= l < |v| ensures LoadVersion(v, tables)[l] == v[l] {
      assert FilesHold(v[l], tables);
      forall i | 0 <= i < |v[l]| ensures Load1(v[l][i], tables) == v[l][i] {
        assert v[l][i] in v[l];
      }
    }
    forall n | n in Live(v) ensures n in tables {
      var l, f :| 0 <= l < |v| && f in v[l] && f.number == n;
      assert FilesHold(v[l], tables);
    }
  }

  lemma NothingRead(logs: seq<LogFile>, from: nat)
    ensures ReadSoFar(logs, from, 0, 0) == []
  {}

  lemma LoadKeeps(s: State)
    requires Inv(s) && s.phase.Down?
    ensures Inv(LoadStep(s))
  {
    hide Saved, UniqueSeqs, Ordered, ManifestOk, Numbered, NextVersion, TablesHold, Chain, Backlog, ReadSoFar, VersionOf, Records;
    var d, c := s.disk, CommitOf(s.disk);
    LoadGivesCommitted(c.version, d.tables);
    NoNewTables(c.version);
    EmptyMemoryIsOrdered(c.version, s.start);
    InPlaceLater(c.version, c.nextFile, c.nextFile + 1, d.tables);
    NothingRead(d.logs, c.logNumber);
    assert Elements([]) == {};
  }

  // ---- opening: RecoverLogFile ---------------------------------------------------------------

  lemma ReadSplit(logs: seq<LogFile>, from: nat, index: nat, pos: nat)
    requires index < |logs| && pos <= |logs[index].records| && logs[index].number >= from
    ensures Backlog(logs, from) == ReadSoFar(logs, from, index, pos) + (logs[index].records[pos..] + Backlog(logs[index + 1..], from))
  {
    var f := logs[index];
    assert logs == (logs[..index] + [f]) + logs[index + 1..];
    BacklogJoin(logs[..index] + [f], logs[index + 1..], from);
    BacklogAppend(logs[..index], f, from);
    assert f.records == f.records[..pos] + f.records[pos..];
  }

  lemma NextRecordFollows(logs: seq<LogFile>, from: nat, index: nat, pos: nat, start: SeqNo)
    requires index < |logs| && pos < |logs[index].records| && logs[index].number >= from
    requires Chain(Backlog(logs, from), start)
    ensures ReadSoFar(logs, from, index, pos + 1) == ReadSoFar(logs, from, index, pos) + [logs[index].records[pos]]
    ensures EndOf(ReadSoFar(logs, from, index, pos), start) < logs[index].records[pos].sequence
    ensures start <= EndOf(ReadSoFar(logs, from, index, pos), start)
  {
    hide Chain, Backlog, EndOf;
    var records := logs[index].records;
    assert records[..pos + 1] == records[..pos] + [records[pos]];
    ReadSplit(logs, from, index, pos + 1);
    var done := ReadSoFar(logs, from, index, pos);
    assert ReadSoFar(logs, from, index, pos + 1) == done + [records[pos]];
    NextFollows(done, records[pos], records[pos + 1..] + Backlog(logs[index + 1..], from), start);
  }

  lemma NextFollows(done: seq<LogRecord>, r: LogRecord, rest: seq<LogRecord>, start: SeqNo)
    requires Chain((done + [r]) + rest, start)
    ensures EndOf(done, start) < r.sequence && start <= EndOf(done, start)
  {
    ChainJoin(done + [r], rest, start);
    OneMore(done, r, start, []);
    ChainGrows(done, start);
  }
  lemma ReplayRecordKeeps(s: State, p: Replaying)
    requires Inv(s) && s.phase == Opening(p) && OpeningEnabled(s.disk, p, ReplayRecord)
    ensures Inv(OpeningStep(s, p, ReplayRecord))
  {
    hide InPlace, Ordered, ManifestOk, NextVersion, MemAfter, Chain, NewTables, ReadSoFar;
    var d, c := s.disk, CommitOf(s.disk);
    var done, r := ReadSoFar(d.logs, c.logNumber, p.index, p.pos), d.logs[p.index].records[p.pos];
    NextRecordFollows(d.logs, c.logNumber, p.index, p.pos, s.start);
    ReplayStep(p.mem, None, p.version, EndOf(done, s.start), r);
    OneMore(done, r, s.start, []);
    OneMore(done, r, 0, []);
  }

  lemma NewTableFits(news: seq<File>, low: nat, n: nat, f: File)
    requires NewTables(news, low, n) && low <= n && f.number == n
    ensures NewTables(news + [f], low, n + 1)
  {
    OneMoreNumber(news, f);
  }

  lemma OldNumbersDiffer(v: Version, low: nat, news: seq<File>, high: nat)
    requires Numbered(v, low) && NewTables(news, low, high)
    ensures forall l :: 0 <= l < NUM_LEVELS ==> NoCommonNumber(v[l], news)
  {
    forall l | 0 <= l < NUM_LEVELS ensures NoCommonNumber(v[l], news) {
      assert NumbersBelow(v[l], low);
    }
  }

  /** WriteLevel0Table of a recovered memtable: always at level 0. */
  lemma SpillInstalls(mem: seq<Entry>, v: Version, f: File, next: nat, last: SeqNo, tables: map<nat, seq<Entry>>)
    requires Ordered(mem, None, v, last) && InPlace(v, next, tables)
    requires mem != [] && f.entries == mem && f.number == next && Intact(f)
    ensures var v' := NextVersion(v, VersionEdit({}, [(0, f)]));
      && Ordered([], None, v', last) && InPlace(v', next + 1, tables[next := mem])
      && VersionEntries(v') == VersionEntries(v) + Elements(mem)
  {
    hide Saved, NextVersion, LevelsOrdered, TablesHold, UniqueSeqs, Ordered;
    var v' := NextVersion(v, VersionEdit({}, [(0, f)]));
    SwitchedIsOrdered(mem, v, last);
    FlushInstalls([], mem, v, 0, f, v', next, last);
    OrderedBounds([], None, v', last);
    SpilledTablesHold(v, f, next, tables, v');
  }

  lemma SpilledTablesHold(v: Version, f: File, next: nat, tables: map<nat, seq<Entry>>, v': Version)
    requires InPlace(v, next, tables) && f.number == next && |v'| == NUM_LEVELS
    requires v' == NextVersion(v, VersionEdit({}, [(0, f)]))
    ensures TablesHold(v', tables[next := f.entries])
  {
    hide Saved, NextVersion, UniqueSeqs;
    InPlaceAfterWrite(v, next, tables, next, f.entries);
    assert NumbersBelow(v[0], next);
    TableIsAdded(v, 0, f);
    forall l | 0 <= l < |v'| ensures FilesHold(v'[l], tables[next := f.entries]) {
      assert FilesHold(v[l], tables[next := f.entries]);
    }
  }

  lemma SpillKeeps(s: State, p: Replaying, size: nat)
    requires Inv(s) && s.phase == Opening(p) && OpeningEnabled(s.disk, p, Spill(size))
    ensures Inv(OpeningStep(s, p, Spill(size)))
    ensures Durable(OpeningStep(s, p, Spill(size)).disk) == Durable(s.disk)
  {
    hide Saved, UniqueSeqs, Ordered, ManifestOk, Numbered, NextVersion, Chain, ReadSoFar, NewTables, TablesHold;
    var d, c, s' := s.disk, CommitOf(s.disk), OpeningStep(s, p, Spill(size));
    SameCommit(d, s'.disk);
    if p.mem == [] {
      InPlaceLater(p.version, p.nextFile, p.nextFile + 1, d.tables);
      NewTablesLater(p.news, c.nextFile, p.nextFile, p.nextFile + 1);
    } else {
      var f := TableOf(p.nextFile, size, p.mem);
      var done := ReadSoFar(d.logs, c.logNumber, p.index, p.pos);
      SpillInstalls(p.mem, p.version, f, p.nextFile, EndOf(done, s.start), d.tables);
      InPlaceAfterWrite(c.version, c.nextFile, d.tables, p.nextFile, p.mem);
      NewTableFits(p.news, c.nextFile, p.nextFile, f);
      SpilledVersion(p.base, p.news, f, c.nextFile, p.nextFile);
      assert Elements([]) == {};
    }
  }

  lemma SpilledVersion(base: Version, news: seq<File>, f: File, low: nat, next: nat)
    requires Saved(base) && Numbered(base, low) && NewTables(news + [f], low, next + 1)
    requires Saved(NextVersion(base, RecoveryEdit(news)))
    ensures NextVersion(base, RecoveryEdit(news + [f]))
         == NextVersion(NextVersion(base, RecoveryEdit(news)), VersionEdit({}, [(0, f)]))
  {
    hide Saved, NextVersion;
    OldNumbersDiffer(base, low, news + [f], next + 1);
    OneMoreTable(base, news, f);
  }

  lemma NewTablesLater(news: seq<File>, low: nat, high: nat, high': nat)
    requires NewTables(news, low, high) && high <= high'
    ensures NewTables(news, low, high')
  {}

  lemma NextLogReadsOn(logs: seq<LogFile>, from: nat, index: nat, pos: nat)
    requires index < |logs| && pos <= |logs[index].records|
    requires if logs[index].number < from then pos == 0 else pos == |logs[index].records|
    ensures ReadSoFar(logs, from, index + 1, 0) == ReadSoFar(logs, from, index, pos)
  {
    assert logs[..index + 1] == logs[..index] + [logs[index]];
    BacklogAppend(logs[..index], logs[index], from);
  }

  lemma NextLogKeeps(s: State, p: Replaying)
    requires Inv(s) && s.phase == Opening(p) && OpeningEnabled(s.disk, p, NextLog)
    ensures Inv(OpeningStep(s, p, NextLog))
  {
    hide InPlace, Ordered, ManifestOk, NextVersion, Chain, ReadSoFar, NewTables;
    var d, c, n := s.disk, CommitOf(s.disk), s.disk.logs[p.index].number;
    var next := if n >= c.logNumber && p.nextFile <= n then n + 1 else p.nextFile;
    NextLogReadsOn(d.logs, c.logNumber, p.index, p.pos);
    InPlaceLater(p.version, p.nextFile, next, d.tables);
    NewTablesLater(p.news, c.nextFile, p.nextFile, next);
    assert d.logs[..p.index + 1] == d.logs[..p.index] + [d.logs[p.index]];
  }

  lemma WholeBacklogRead(logs: seq<LogFile>, from: nat)
    ensures ReadSoFar(logs, from, |logs|, 0) == Backlog(logs, from)
  {
    assert logs[..|logs|] == logs;
  }

  lemma EndOfGrows(records: seq<LogRecord>, start: SeqNo, last: SeqNo)
    requires start <= last
    ensures EndOf(records, start) <= if last < EndOf(records, 0) then EndOf(records, 0) else last
  {}

  lemma NewLogKeeps(s: State, p: Replaying)
    requires Inv(s) && s.phase == Opening(p) && OpeningEnabled(s.disk, p, NewLog)
    ensures Inv(OpeningStep(s, p, NewLog))
    ensures Durable(OpeningStep(s, p, NewLog).disk) == Durable(s.disk)
  {
    hide Saved, UniqueSeqs, Ordered, ManifestOk, Numbered, NextVersion, Chain, ReadSoFar, NewTables, TablesHold, EndOf, Backlog;
    var d, c, s' := s.disk, CommitOf(s.disk), OpeningStep(s, p, NewLog);
    SameCommit(d, s'.disk);
    WholeBacklogRead(d.logs, c.logNumber);
    BacklogAppend(d.logs, LogFile(p.nextFile, []), c.logNumber);
    assert Backlog(s'.disk.logs, c.logNumber) == Backlog(d.logs, c.logNumber);
    assert d.logs[..|d.logs|] == d.logs;
    LogAppended(d.logs, LogFile(p.nextFile, []));
    EndOfGrows(Backlog(d.logs, c.logNumber), s.start, c.lastSequence);
    OrderedBounds(p.mem, None, p.version, EndOf(Backlog(d.logs, c.logNumber), s.start));
    InPlaceLater(p.version, p.nextFile, p.nextFile + 1, d.tables);
    NewTablesLater(p.news, c.nextFile, p.nextFile, p.nextFile + 1);
    assert Elements([]) == {};
  }

  // ---- opening: the new manifest ------------------------------------------------------------

  lemma {:induction false} BacklogBelow(logs: seq<LogFile>, from: nat)
    requires forall f :: f in logs ==> f.number < from
    ensures Backlog(logs, from) == []
  {
    if logs != [] {
      var n := |logs| - 1;
      assert logs[n] in logs;
      BacklogBelow(logs[..n], from);
    }
  }

  lemma OthersAreBelow(logs: seq<LogFile>, number: nat)
    requires NumbersIncrease(logs) && LastLogIs(logs, number)
    ensures Backlog(logs[..|logs| - 1], number) == []
    ensures Backlog(logs, number) == logs[|logs| - 1].records
  {
    BacklogBelow(logs[..|logs| - 1], number);
  }

  lemma RecoveryAdds(base: Version, news: seq<File>, low: nat, high: nat)
    requires Saved(base) && Numbered(base, low) && NewTables(news, low, high)
    ensures AddsAt(RecoveryEdit(news), 0, base, low)
    ensures forall l :: 0 <= l < NUM_LEVELS ==> ComesFrom(base, RecoveryEdit(news), NextVersion(base, RecoveryEdit(news)), l)
  {
    hide LevelsOrdered, NextVersion, SavedLevel;
    OldNumbersDiffer(base, low, news, high);
    forall l: nat ensures NewAt(RecoveryEdit(news).newFiles, l) == if l == 0 then news else [] {
      RecoveryEditAt(news, l);
    }
    RecoveredLevels(base, news);
  }

  lemma RecoveryManifestStandsFor(base: Version, news: seq<File>, low: nat, logFile: nat, next: nat, last: SeqNo)
    requires |base| == NUM_LEVELS && Saved(base) && Numbered(base, low) && NewTables(news, low, next) && low <= next
    requires Numbered(NextVersion(base, RecoveryEdit(news)), next)
    ensures ManifestOk(RecoveryManifest(base, news, logFile, next, last),
                       Commit(NextVersion(base, RecoveryEdit(news)), logFile, next, last))
  {
    hide Saved, Numbered, NextVersion, Replayable, Edits, VersionOf, NewTables;
    var v := NextVersion(base, RecoveryEdit(news));
    var snapshot := ManifestRecord(SnapshotEdit(base), None, None, None);
    var r := ManifestRecord(RecoveryEdit(news), Some(logFile), Some(next), Some(last));
    var records := RecoveryManifest(base, news, logFile, next, last);
    assert records == [snapshot] + [r];
    SnapshotStandsFor(base, low);
    Appended([snapshot], r);
    RecoveryAdds(base, news, low, next);
    StaysReplayable(Edits([snapshot]), base, low, r.edit, 0, v, next);
    SnapshotInRange(base);
  }

  lemma SnapshotInRange(v: Version)
    requires |v| == NUM_LEVELS
    ensures SnapshotEdit(v).LevelsInRange()
  {
    LevelsBelowInRange(v, |v|);
  }

  lemma {:induction false} LevelsBelowInRange(v: Version, n: nat)
    requires n <= |v|
    ensures forall x :: x in LevelsBelow(v, n) ==> x.0 < n
  {
    if n > 0 { LevelsBelowInRange(v, n - 1); }
  }

  lemma EmptyLogFits(logs: seq<LogFile>, p: Memory)
    requires LastLogIs(logs, p.logFile) && NumbersIncrease(logs) && logs[|logs| - 1].records == []
    requires p.mem == [] && p.imm.None? && p.logNumber == p.logFile < p.nextFile && p.from == p.lastSequence && !p.inflight
    ensures MemoryOk(logs, p)
  {
    OthersAreBelow(logs, p.logFile);
  }

  lemma ReadyKeeps(s: State, p: Prepared)
    requires Inv(s) && s.phase == Ready(p)
    ensures Inv(ReadyStep(s, p))
    ensures Durable(ReadyStep(s, p).disk) == Durable(s.disk)
    ensures CommitOf(s.disk).lastSequence <= CommitOf(ReadyStep(s, p).disk).lastSequence
  {
    hide Saved, UniqueSeqs, ManifestOk, Numbered, NextVersion, NewTables, TablesHold, RecoveryManifest, MemoryOk;
    var d, c, s' := s.disk, CommitOf(s.disk), ReadyStep(s, p);
    if p.written {
      RecoveryManifestStandsFor(p.base, p.news, c.nextFile, p.logFile, p.nextFile, p.lastSequence);
      CommitIs(s'.disk, RecoveryManifest(p.base, p.news, p.logFile, p.nextFile, p.lastSequence),
               Commit(p.version, p.logFile, p.nextFile, p.lastSequence));
      OthersAreBelow(d.logs, p.logFile);
      EmptyLogFits(d.logs, s'.phase.m);
    } else {
      SameCommit(d, s'.disk);
    }
  }

  lemma CommitIs(d: Disk, records: seq<ManifestRecord>, c: Commit)
    requires Records(d) == records && ManifestOk(records, c)
    ensures CommitOf(d) == c
  {}
}
