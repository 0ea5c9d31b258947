/** Process-crash safety over whole runs: what the disk stands for is, at every moment,
    exactly what was logged less what compactions dropped, and opening the database
    brings all of it back. */
module CrashSafety {
  import opened Dbformat
  import opened Version
  import opened VersionBuilder
  import opened LevelSteps
  import opened Install
  import opened InputSelection
  import opened CompactionMeaning
  import opened CompactionScene
  import opened DbSteps
  import opened Manifest
  import opened Replay
  import opened Recovery
  import opened RecoverySteps
  import opened RunningSteps

  /** The entries that an action logs. */
  ghost function Logged(a: Action): set<Entry> {
    if a.Append? then a.record.Entries() else {}
  }

  /** The entries that an action drops: only the manifest record of a compaction does. */
  ghost function Lost(s: State, a: Action): set<Entry> {
    if s.phase.Running? && a.AppendManifest? then DroppedEntries(s.phase.m) else {}
  }

  lemma OpeningKeeps(s: State, p: Replaying, a: Action)
    requires Inv(s) && s.phase == Opening(p) && OpeningEnabled(s.disk, p, a)
    ensures Inv(OpeningStep(s, p, a)) && Durable(OpeningStep(s, p, a).disk) == Durable(s.disk)
  {
    hide Inv, Durable;
    match a
    case ReplayRecord => ReplayRecordKeeps(s, p);
    case Spill(size) => SpillKeeps(s, p, size);
    case NextLog => NextLogKeeps(s, p);
    case NewLog => NewLogKeeps(s, p);
  }

  lemma RunningKeeps(s: State, p: Memory, a: Action)
    requires Inv(s) && s.phase == Running(p) && RunningEnabled(s.disk, p, a)
    ensures Inv(RunningStep(s, p, a))
    ensures Durable(RunningStep(s, p, a).disk) == Durable(s.disk) + Logged(a) - Lost(s, a)
  {
    hide Inv, Durable, GoodMerge, GoodFlush, Live, DroppedEntries;
    match a
    case Append(r) => AppendKeeps(s, p, r);
    case Insert => InsertKeeps(s, p);
    case Switch => SwitchKeeps(s, p);
    case WriteTable(entries, bytes) => WriteTableKeeps(s, p, entries, bytes);
    case BeginFlush(level) => BeginFlushKeeps(s, p, level);
    case BeginMove(level, file) => BeginMoveKeeps(s, p, level, file);
    case BeginMerge(m) => BeginMergeKeeps(s, p, m);
    case AppendManifest => AppendManifestKeeps(s, p);
    case Install => InstallKeeps(s, p);
    case DeleteObsolete(logs, tables, manifests) => DeleteKeeps(s, p, logs, tables, manifests);
  }

  /** Every step keeps the invariant.  Logging adds its batch to what the disk stands for,
      the commit of a compaction takes away what it dropped, and no other step, crash and
      recovery included, changes it. */
  lemma StepKeeps(s: State, a: Action)
    requires Inv(s) && Enabled(s, a)
    ensures Inv(Do(s, a)) && Durable(Do(s, a).disk) == Durable(s.disk) + Logged(a) - Lost(s, a)
  {
    hide Durable, OpeningEnabled, RunningEnabled, DiskOk, OpeningOk, ReadyOk, RunningOk, OpeningStep, RunningStep, ReadyStep;
    if a.Crash? { return; }
    match s.phase
    case Down => LoadKeeps(s);
    case Opening(p) => OpeningKeeps(s, p, a); OpeningLogsNothing(s.disk, p, a);
    case Ready(p) => ReadyKeeps(s, p);
    case Running(p) => RunningKeeps(s, p, a);
  }

  lemma OpeningLogsNothing(d: Disk, p: Replaying, a: Action)
    requires OpeningEnabled(d, p, a)
    ensures !a.Append?
  {}

  // ---- the open database --------------------------------------------------------------------

  ghost function InFlight(s: State): set<Entry>
    requires s.phase.Running? && s.disk.logs != []
  {
    var p, records := s.phase.m, NewRecords(s.disk.logs);
    if p.inflight && records != [] then records[|records| - 1].Entries() else {}
  }

  ghost function Tables(s: State): set<Entry>
    requires s.phase.Running?
  {
    VersionEntries(CommitOf(s.disk).version)
  }

  /** While the database is open, the disk stands for the committed tables, the memtables
      and at most the one batch that is logged but not yet inserted. */
  lemma DiskIsMemory(s: State)
    requires Inv(s) && s.phase.Running?
    ensures var p := s.phase.m;
      && s.disk.logs != []
      && Durable(s.disk) == Tables(s) + Elements(p.mem) + ImmEntries(p.imm) + InFlight(s)
      && (!(p.job.Committing? && p.job.written) ==> Tables(s) == VersionEntries(p.current))
      && Ordered(p.mem, p.imm, p.current, p.lastSequence)
  {
    hide InPlace, ManifestOk, UpTo, Chain, Replayed, EndOf, NextVersion, Replayable, VersionOf, LatestNumbers, MemoryOk, Ordered,
         RecordsEntries, Backlog, VersionEntries, CommitOf;
    var p, d := s.phase.m, s.disk;
    RunningParts(d, s.start, p);
    CommittedBacklog(d, s.start, p);
    MemoryIsOrdered(d.logs, p);
    InsertedElements(d.logs, p);
    NoRecords();
    ChainJoin(OldRecords(d.logs, p.logNumber), NewRecords(d.logs), 0);
  }

  lemma NoRecords()
    ensures RecordsEntries([]) == {}
  {}

  lemma RunningParts(d: Disk, start: SeqNo, p: Memory)
    requires RunningOk(d, start, p)
    ensures Saved(p.current) && UniqueSeqs(VersionEntries(p.current)) && MemoryOk(d.logs, p)
  {
    hide MemoryOk, Saved, Numbered, TablesHold, UniqueSeqs, JobOk;
  }

  lemma InsertedElements(logs: seq<LogFile>, p: Memory)
    requires MemoryOk(logs, p)
    ensures RecordsEntries(NewRecords(logs)) == RecordsEntries(Inserted(logs, p.inflight)) +
              if p.inflight && NewRecords(logs) != [] then NewRecords(logs)[|NewRecords(logs)| - 1].Entries() else {}
    ensures p.imm.None? ==> p.logNumber == p.logFile
  {
    hide Chain, Backlog, Replayed, EndOf;
  }

  /** An opened database holds exactly what the disk stood for, in tables that are in
      order, and its last sequence number is no smaller than any of it: every read of it is
      a read of those entries. */
  lemma OpenedHoldsAll(s: State)
    requires Inv(s) && Enabled(s, SetCurrent) && s.phase.Ready?
    ensures var s' := Do(s, SetCurrent);
      && s'.phase.Running? && s'.phase.m.mem == [] && s'.phase.m.imm.None?
      && VersionEntries(s'.phase.m.current) == Durable(s.disk)
      && UpTo(Durable(s.disk), s'.phase.m.lastSequence)
      && Ordered([], None, s'.phase.m.current, s'.phase.m.lastSequence)
  {
    hide DiskOk, Saved, Numbered, TablesHold, UniqueSeqs, UpTo, Ordered, Durable, NextVersion;
    var p := s.phase.n;
    EmptyMemoryIsOrdered(p.version, p.lastSequence);
  }

  // ---- whole runs ---------------------------------------------------------------------------------

  ghost predicate Runnable(s: State, actions: seq<Action>)
    decreases |actions|, 0
  {
    actions != [] ==>
      && Runnable(s, actions[..|actions| - 1])
      && Enabled(RunFrom(s, actions[..|actions| - 1]), actions[|actions| - 1])
  }

  ghost function RunFrom(s: State, actions: seq<Action>): State
    requires Runnable(s, actions)
    decreases |actions|, 1
  {
    if actions == [] then s else Do(RunFrom(s, actions[..|actions| - 1]), actions[|actions| - 1])
  }

  ghost function AllLogged(actions: seq<Action>): set<Entry> {
    if actions == [] then {} else AllLogged(actions[..|actions| - 1]) + Logged(actions[|actions| - 1])
  }

  ghost function AllLost(s: State, actions: seq<Action>): set<Entry>
    requires Runnable(s, actions)
  {
    if actions == [] then {}
    else
      var front, a := actions[..|actions| - 1], actions[|actions| - 1];
      AllLost(s, front) + Lost(RunFrom(s, front), a)
  }

  lemma CommitGrows(s: State, a: Action)
    requires Inv(s) && Enabled(s, a)
    ensures CommitOf(s.disk).lastSequence <= CommitOf(Do(s, a).disk).lastSequence
    ensures UpTo(Lost(s, a), CommitOf(Do(s, a).disk).lastSequence)
  {
    hide DiskOk, OpeningOk, ReadyOk, RunningOk, CommitOf, GoodMerge, GoodFlush, Live, DroppedEntries, Mark, UpTo;
    assert UpTo({}, CommitOf(Do(s, a).disk).lastSequence) by { NothingUpTo(CommitOf(Do(s, a).disk).lastSequence); }
    if s.phase.Ready? && !a.Crash? {
      ReadyKeeps(s, s.phase.n);
    } else if s.phase.Running? && a.AppendManifest? {
      AppendManifestKeeps(s, s.phase.m);
    } else {
      assert Records(Do(s, a).disk) == Records(s.disk);
      SameCommit(s.disk, Do(s, a).disk);
    }
  }

  lemma NothingUpTo(last: SeqNo)
    ensures UpTo({}, last)
  {}

  const FIRST_RECORD := ManifestRecord(VersionEdit({}, []), Some(0), Some(2), Some(0))

  /** What NewDB writes. */
  const NEW_DB := State(Disk([], map[], map[1 := [FIRST_RECORD]], 1), 0, Down)

  lemma NewDBIsOk()
    ensures Inv(NEW_DB) && Durable(NEW_DB.disk) == {}
  {
    hide Replayable, VersionOf, LatestNumbers, NextVersion;
    NewDBStandsFor(FIRST_RECORD);
    EmptyVersion(EMPTY);
    FirstNumbers();
  }

  lemma FirstNumbers()
    ensures LatestNumbers([FIRST_RECORD]) == Numbers3(Some(0), Some(2), Some(0))
  {
    Appended([], FIRST_RECORD);
    assert [] + [FIRST_RECORD] == [FIRST_RECORD];
  }

  lemma NewBatchWasNotLost(s: State, a: Action, lost: set<Entry>)
    requires Inv(s) && Enabled(s, a) && UpTo(lost, CommitOf(s.disk).lastSequence)
    ensures Logged(a) !! lost
  {
    hide DiskOk, OpeningOk, ReadyOk, CommitOf, GoodMerge, GoodFlush, Live, MemoryOk, InPlace, JobOk;
    if a.Append? {
      assert s.phase.Running? by { OnlyRunningAppends(s, a); }
      BatchEntriesAreNew(a.record.ops, a.record.sequence - 1);
    }
  }

  lemma OnlyRunningAppends(s: State, a: Action)
    requires Enabled(s, a) && a.Append?
    ensures s.phase.Running?
  {
    hide RunningEnabled;
  }

  /** After any run from a new database, through any number of crashes and unfinished
      recoveries, the disk stands for exactly what was logged less what compactions
      dropped. */
  lemma {:induction false} RunsAreDurable(actions: seq<Action>)
    requires Runnable(NEW_DB, actions)
    ensures Inv(RunFrom(NEW_DB, actions))
    ensures Durable(RunFrom(NEW_DB, actions).disk) == AllLogged(actions) - AllLost(NEW_DB, actions)
    ensures UpTo(AllLost(NEW_DB, actions), CommitOf(RunFrom(NEW_DB, actions).disk).lastSequence)
    decreases |actions|
  {
    hide Inv, Durable, Enabled, Do, CommitOf, Lost, Logged;
    if actions == [] {
      NewDBIsOk();
    } else {
      var front, a := actions[..|actions| - 1], actions[|actions| - 1];
      var s := RunFrom(NEW_DB, front);
      RunsAreDurable(front);
      StepKeeps(s, a);
      CommitGrows(s, a);
      NewBatchWasNotLost(s, a, AllLost(NEW_DB, front));
    }
  }

  /** Without merges: exactly what was logged. */
  lemma {:induction false} NothingLostWithoutMerge(actions: seq<Action>)
    requires Runnable(NEW_DB, actions) && forall a :: a in actions ==> !a.BeginMerge?
    ensures Durable(RunFrom(NEW_DB, actions).disk) == AllLogged(actions)
    ensures AllLost(NEW_DB, actions) == {}
    ensures NoMerge(RunFrom(NEW_DB, actions))
    decreases |actions|
  {
    hide Inv, Durable, CommitOf, Do, Enabled, Lost;
    RunsAreDurable(actions);
    if actions != [] {
      var front, a := actions[..|actions| - 1], actions[|actions| - 1];
      NothingLostWithoutMerge(front);
      RunsAreDurable(front);
      StaysNoMerge(RunFrom(NEW_DB, front), a);
    }
  }

  ghost predicate NoMerge(s: State) {
    s.phase.Running? && s.phase.m.job.Committing? ==> s.phase.m.job.merging.None?
  }

  lemma StaysNoMerge(s: State, a: Action)
    requires Inv(s) && Enabled(s, a) && NoMerge(s) && !a.BeginMerge?
    ensures NoMerge(Do(s, a)) && Lost(s, a) == {}
  {
    hide GoodMerge, GoodFlush, Live, CommitOf, DiskOk, OpeningOk, ReadyOk, InPlace, MemoryOk, UpTo, NextVersion, Replayable;
    if s.phase.Running? && a.AppendManifest? { assert Lost(s, a) == {}; }
  }

  // ---- DB::Open ---------------------------------------------------------------------------------------

  lemma OpeningFacts(s: State)
    requires Inv(s) && s.phase.Opening?
    ensures var p := s.phase.o;
      && Sorted(p.mem) && |p.version| == NUM_LEVELS && p.index <= |s.disk.logs|
      && (p.index < |s.disk.logs| ==> p.pos <= |s.disk.logs[p.index].records|)
      && (p.pos > 0 ==> s.disk.logs[p.index].number >= CommitOf(s.disk).logNumber)
  {
    hide DiskOk, Saved, TablesHold, Numbered, NextVersion, ReadSoFar, Backlog, UniqueSeqs;
  }

  /** RecoverLogFile: insert the records, write a table whenever the memtable is full and
      once more at the end.  `full` stands for the memory used. */
  method RecoverLogFile(s: State, full: nat -> bool, size: nat) returns (s': State)
    requires Inv(s) && s.phase.Opening? && s.phase.o.index < |s.disk.logs| && s.phase.o.pos == 0
    requires s.disk.logs[s.phase.o.index].number >= CommitOf(s.disk).logNumber
    ensures Inv(s') && s'.phase.Opening? && Durable(s'.disk) == Durable(s.disk) && s'.disk.logs == s.disk.logs
    ensures s'.phase.o.index == s.phase.o.index + 1 && s'.phase.o.pos == 0
  {
    hide Inv, Durable, CommitOf, MemAfter;
    s' := s;
    ghost var from := CommitOf(s.disk).logNumber;
    var n := |s.disk.logs[s.phase.o.index].records|;
    for i := 0 to n
      invariant Inv(s') && s'.phase.Opening? && Durable(s'.disk) == Durable(s.disk) && s'.disk.logs == s.disk.logs
      invariant s'.phase.o.index == s.phase.o.index && s'.phase.o.pos == i && CommitOf(s'.disk) == CommitOf(s.disk)
    {
      OpeningKeeps(s', s'.phase.o, ReplayRecord);
      s' := OpeningStep(s', s'.phase.o, ReplayRecord);
      if full(i) {
        s' := SpillNow(s', size);
      }
    }
    if s'.phase.o.mem != [] {
      s' := SpillNow(s', size);
    }
    OpeningKeeps(s', s'.phase.o, NextLog);
    s' := OpeningStep(s', s'.phase.o, NextLog);
  }

  method SpillNow(s: State, size: nat) returns (s': State)
    requires Inv(s) && s.phase.Opening?
    ensures Inv(s') && s'.phase.Opening? && Durable(s'.disk) == Durable(s.disk) && s'.disk.logs == s.disk.logs
    ensures s'.phase.o.index == s.phase.o.index && s'.phase.o.pos == s.phase.o.pos && s'.phase.o.mem == []
    ensures CommitOf(s'.disk) == CommitOf(s.disk)
  {
    hide Inv, Durable, CommitOf;
    OpeningFacts(s);
    OpeningKeeps(s, s.phase.o, Spill(size));
    s' := OpeningStep(s, s.phase.o, Spill(size));
    SameCommit(s.disk, s'.disk);
  }

  /** DB::Open after a crash, when no other crash comes in between: the manifest, then the
      logs in order, then a new log and a new manifest.  It never meets a missing table,
      always finishes, and holds in its tables exactly what the disk stood for. */
  method Open(s: State, full: nat -> bool, size: nat) returns (s': State)
    requires Inv(s) && s.phase.Down?
    ensures Inv(s') && s'.phase.Running? && Durable(s'.disk) == Durable(s.disk)
    ensures s'.phase.m.mem == [] && s'.phase.m.imm.None?
    ensures VersionEntries(s'.phase.m.current) == Durable(s.disk) && UpTo(Durable(s.disk), s'.phase.m.lastSequence)
    ensures Ordered([], None, s'.phase.m.current, s'.phase.m.lastSequence)
  {
    hide Inv, Durable, CommitOf, Ordered, UpTo;
    LoadKeeps(s);
    s' := LoadStep(s);
    for i := 0 to |s.disk.logs|
      invariant Inv(s') && s'.phase.Opening? && Durable(s'.disk) == Durable(s.disk) && s'.disk.logs == s.disk.logs
      invariant s'.phase.o.index == i && s'.phase.o.pos == 0
    {
      if s'.disk.logs[i].number >= CommitOf(s'.disk).logNumber {
        s' := RecoverLogFile(s', full, size);
      } else {
        OpeningKeeps(s', s'.phase.o, NextLog);
        s' := OpeningStep(s', s'.phase.o, NextLog);
      }
    }
    OpeningKeeps(s', s'.phase.o, NewLog);
    s' := OpeningStep(s', s'.phase.o, NewLog);
    ReadyKeeps(s', s'.phase.n);
    s' := ReadyStep(s', s'.phase.n);
    OpenedHoldsAll(s');
    ReadyKeeps(s', s'.phase.n);
    s' := ReadyStep(s', s'.phase.n);
  }
}
