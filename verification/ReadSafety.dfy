/** What a reader finds after any run with crashes: every read at or after the smallest
    snapshot is answered from all that was ever logged, exactly as long as no compaction
    loses data (db/db_impl.cc, db/version_set.cc). */
module ReadSafety {
  import opened Dbformat
  import opened Version
  import opened InputSelection
  import opened CompactionMeaning
  import opened CompactionWork
  import opened CompactionScene
  import opened CompactionTheorem
  import opened VersionBuilder
  import opened LevelSteps
  import opened Install
  import opened DbSteps
  import opened Manifest
  import opened Replay
  import opened Recovery
  import opened RecoverySteps
  import opened RunningSteps
  import opened CrashSafety

  /** What only the logs hold. */
  ghost function Upstream(d: Disk): set<Entry> { RecordsEntries(Backlog(d.logs, CommitOf(d).logNumber)) }

  /** The action commits a compaction that merged its inputs. */
  ghost predicate Merges(s: State, a: Action) {
    s.phase.Running? && a.AppendManifest? && s.phase.m.job.Committing? && s.phase.m.job.merging.Some?
  }

  ghost predicate CommitLoses(s: State, a: Action) {
    && Merges(s, a)
    && var p, m := s.phase.m, s.phase.m.job.merging.value;
      && |p.current| == NUM_LEVELS && m.level + 1 < NUM_LEVELS
      && LosesData(Upstream(s.disk), p.current, m.level, m.inputs0, m.inputs1, m.snapshot)
  }

  // ---- the commit of a merge ----------------------------------------------------------------

  lemma UpstreamIsNewer(d: Disk, start: SeqNo, v: Version)
    requires DiskOk(d, start) && CommitOf(d).version == v
    ensures WellOrdered(Upstream(d), v) && Upstream(d) !! VersionEntries(v)
    ensures UpTo(Upstream(d), EndOf(Backlog(d.logs, CommitOf(d).logNumber), start))
    ensures Durable(d) == Upstream(d) + VersionEntries(v) && UniqueSeqs(Durable(d))
  {
    hide ManifestOk, TablesHold, Numbered, Backlog, EndOf, Chain, RecordsEntries, Replayed, CommitOf, UniqueSeqs, LevelsOrdered,
         VersionEntries;
    var all := Backlog(d.logs, CommitOf(d).logNumber);
    EmptyMemoryIsOrdered(v, start);
    ReplayedIsOrdered([], None, v, start, all);
    assert Elements([]) == {};
    assert Elements(Replayed([], all)) + ImmEntries(None) == Upstream(d);
    ChainAbove(all, start);
  }

  /** The parts of a running state that a commit looks at. */
  lemma CommittingParts(d: Disk, start: SeqNo, p: Memory)
    requires RunningOk(d, start, p) && p.job.Committing? && !p.job.written && p.job.merging.Some?
    ensures CommitOf(d).version == p.current && |p.current| == NUM_LEVELS && !p.job.flush
    ensures MergedInto(p.current, p.job.version, p.job.merging.value)
    ensures p.job.merging.value.snapshot == p.oldest && p.job.record.lastSequence.Some?
    ensures p.oldest <= p.job.record.lastSequence.value
  {
    hide MemoryOk, InPlace, MergedInto, UpTo, NextVersion, Replayable, Mark, CommitOf;
  }

  lemma SceneUnder(upper: set<Entry>, v: Version, m: Merging)
    requires |v| == NUM_LEVELS && m.level + 1 < NUM_LEVELS
    ensures After(SceneOf(upper, v, m.level, m.inputs0, m.inputs1), m.snapshot)
         == upper + After(SceneOf({}, v, m.level, m.inputs0, m.inputs1), m.snapshot)
  {
    hide FilesEntries, EntriesOf, BaseKeys, Kept;
  }

  /** The commit of a compaction does to what the disk stands for what the compaction means. */
  lemma MergeCommit(s: State)
    requires Inv(s) && Enabled(s, AppendManifest) && Merges(s, AppendManifest)
    ensures var p, m := s.phase.m, s.phase.m.job.merging.value;
      && |p.current| == NUM_LEVELS && WellOrdered(Upstream(s.disk), p.current)
      && m.level + 1 < NUM_LEVELS && Selected(p.current, m.level, m.inputs0, m.inputs1)
      && Durable(s.disk) == Upstream(s.disk) + VersionEntries(p.current)
      && Durable(Do(s, AppendManifest).disk)
           == After(SceneOf(Upstream(s.disk), p.current, m.level, m.inputs0, m.inputs1), m.snapshot)
      && m.snapshot == p.oldest <= CommitOf(Do(s, AppendManifest).disk).lastSequence
  {
    hide DiskOk, RunningOk, Selected, WellOrdered, VersionEntries, After, SceneOf, Upstream, Durable, CommitOf, UniqueSeqs, UpTo;
    var d, p, m := s.disk, s.phase.m, s.phase.m.job.merging.value;
    CommittingParts(d, s.start, p);
    UpstreamIsNewer(d, s.start, p.current);
    AppendManifestKeeps(s, p);
    AppendManifestDisk(d, s.start, p, Do(s, AppendManifest).disk);
    SceneUnder(Upstream(d), p.current, m);
    OrderedAlone(Upstream(d), p.current);
    SubsetOfVersion(p.current, p.job.version, m);
    Remainder(Upstream(d), VersionEntries(p.current), VersionEntries(p.job.version));
  }

  lemma OrderedAlone(upper: set<Entry>, v: Version)
    requires WellOrdered(upper, v)
    ensures WellOrdered({}, v)
  {
    hide VersionEntries, LevelsOrdered;
  }

  lemma SubsetOfVersion(v: Version, v': Version, m: Merging)
    requires |v| == NUM_LEVELS && MergedInto(v, v', m) && WellOrdered({}, v)
    ensures VersionEntries(v') <= VersionEntries(v)
  {
    hide VersionEntries, Selected, WellOrdered, SceneOf;
    SceneIsValid({}, v, m.level, m.inputs0, m.inputs1);
  }

  lemma Remainder(u: set<Entry>, v: set<Entry>, v': set<Entry>)
    requires u !! v && v' <= v
    ensures (u + v) - (v - v') == u + v'
  {}

  // ---- reads through the other steps ---------------------------------------------------------

  /** A new batch is read the same above two sets that are read the same. */
  lemma ReadWithNewer(a: set<Entry>, l: set<Entry>, batch: set<Entry>, k: UserKey, s: SeqNo)
    requires a <= l && UniqueSeqs(l + batch) && Read(a, k, s) == Read(l, k, s)
    requires forall e, b :: e in l && b in batch ==> e.key.seqno < b.key.seqno
    ensures Read(a + batch, k, s) == Read(l + batch, k, s)
  {
    VisibleSpec(batch, k, s);
    UniqueParts(a + batch, l + batch);
    UniqueParts(a, l + batch);
    UniqueParts(l, l + batch);
    if Visible(batch, k, s).Some? {
      var b := Visible(batch, k, s).value;
      assert Newest(a + batch, k, s, b) && Newest(l + batch, k, s, b);
      VisibleIs(a + batch, k, s, b);
      VisibleIs(l + batch, k, s, b);
    } else {
      ReadDepends(a + batch, a, k, s, s);
      ReadDepends(l + batch, l, k, s, s);
    }
  }

  /** The snapshot of the last merge that was committed. */
  ghost function Horizon(actions: seq<Action>): SeqNo
    requires Runnable(NEW_DB, actions)
  {
    if actions == [] then 0
    else
      var front, a := actions[..|actions| - 1], actions[|actions| - 1];
      if Merges(RunFrom(NEW_DB, front), a) then RunFrom(NEW_DB, front).phase.m.job.merging.value.snapshot else Horizon(front)
  }

  ghost predicate ReadFrom(stands: set<Entry>, logged: set<Entry>, horizon: SeqNo) {
    forall k, s: SeqNo :: horizon <= s ==> Read(stands, k, s) == Read(logged, k, s)
  }

  /** Every read not older than the last merge's snapshot is answered from all that was logged. */
  ghost predicate ReadsAreWhole(actions: seq<Action>)
    requires Runnable(NEW_DB, actions)
  {
    ReadFrom(Durable(RunFrom(NEW_DB, actions).disk), AllLogged(actions), Horizon(actions))
  }

  ghost predicate AlwaysWhole(actions: seq<Action>)
    requires Runnable(NEW_DB, actions)
  {
    ReadsAreWhole(actions) && (actions != [] ==> AlwaysWhole(actions[..|actions| - 1]))
  }

  ghost predicate NeverLoses(actions: seq<Action>)
    requires Runnable(NEW_DB, actions)
  {
    actions != [] ==>
      var front, a := actions[..|actions| - 1], actions[|actions| - 1];
      NeverLoses(front) && !CommitLoses(RunFrom(NEW_DB, front), a)
  }

  /** Readers never ask for anything older than the last merge's snapshot. */
  ghost predicate HorizonOk(s: State, horizon: SeqNo) {
    && horizon <= CommitOf(s.disk).lastSequence
    && (s.phase.Running? ==> horizon <= s.phase.m.oldest)
  }

  lemma RunningLast(d: Disk, start: SeqNo, p: Memory)
    requires RunningOk(d, start, p)
    ensures CommitOf(d).lastSequence <= p.lastSequence
  {
    hide MemoryOk, InPlace, JobOk, UpTo, CommitOf;
  }

  lemma ReadyLast(d: Disk, start: SeqNo, p: Prepared)
    requires ReadyOk(d, start, p)
    ensures CommitOf(d).lastSequence <= p.lastSequence
  {
    hide InPlace, UpTo, CommitOf, Durable, NextVersion;
  }

  lemma HorizonStays(s: State, a: Action, horizon: SeqNo)
    requires Inv(s) && Enabled(s, a) && HorizonOk(s, horizon)
    ensures HorizonOk(Do(s, a), if Merges(s, a) then s.phase.m.job.merging.value.snapshot else horizon)
    ensures Merges(s, a) ==> horizon <= s.phase.m.job.merging.value.snapshot
  {
    hide DiskOk, OpeningOk, ReadyOk, RunningOk, CommitOf, Live, GoodFlush, Selected, OutputsOf, WellOrdered, VersionEntries, After,
         SceneOf, Durable, Upstream;
    CommitGrows(s, a);
    if Merges(s, a) {
      MergeCommit(s);
    } else if s.phase.Ready? {
      ReadyLast(s.disk, s.start, s.phase.n);
    }
  }

  /** What is logged next comes after everything logged before. */
  lemma LoggedIsBefore(s: State, p: Memory, r: LogRecord, lost: set<Entry>)
    requires Inv(s) && s.phase == Running(p) && RunningEnabled(s.disk, p, Append(r))
    requires UpTo(lost, CommitOf(s.disk).lastSequence)
    ensures UpTo(Durable(s.disk) + lost, p.lastSequence) && r.sequence == p.lastSequence + 1
  {
    hide RunningOk, CommitOf, ManifestOk, InPlace, Chain, Backlog, EndOf, RecordsEntries, VersionEntries;
    var d := s.disk;
    LastSequenceCovers(d, s.start, p);
    RunningLast(d, s.start, p);
    var all := Backlog(d.logs, CommitOf(d).logNumber);
    ChainBounds(all, s.start);
  }

  lemma AppendIsWhole(s: State, p: Memory, r: LogRecord, logged: set<Entry>, lost: set<Entry>, horizon: SeqNo)
    requires Inv(s) && s.phase == Running(p) && RunningEnabled(s.disk, p, Append(r))
    requires UpTo(lost, CommitOf(s.disk).lastSequence) && Durable(s.disk) == logged - lost && UniqueSeqs(logged)
    ensures UniqueSeqs(logged + r.Entries())
    ensures ReadFrom(Durable(s.disk), logged, horizon) ==> ReadFrom(Durable(s.disk) + r.Entries(), logged + r.Entries(), horizon)
  {
    hide Inv, RunningEnabled, Durable, CommitOf, BatchEntries;
    LoggedIsBefore(s, p, r, lost);
    assert UpTo(logged, p.lastSequence) by { assert logged <= Durable(s.disk) + lost; }
    BatchKeepsUnique(logged, r.ops, p.lastSequence);
    BatchEntriesAreNew(r.ops, p.lastSequence);
    if ReadFrom(Durable(s.disk), logged, horizon) {
      forall k, q: SeqNo | horizon <= q
        ensures Read(Durable(s.disk) + r.Entries(), k, q) == Read(logged + r.Entries(), k, q)
      {
        ReadWithNewer(Durable(s.disk), logged, r.Entries(), k, q);
      }
    }
  }

  /** A commit that is not a merge drops nothing. */
  lemma NothingDropped(s: State, a: Action)
    requires Inv(s) && Enabled(s, a) && !Merges(s, a)
    ensures Lost(s, a) == {}
  {
    hide DiskOk, OpeningOk, ReadyOk, CommitOf, InPlace, MemoryOk, UpTo, NextVersion, Replayable, GoodFlush, GoodMerge, Live, VersionEntries,
         MergedInto, OpeningEnabled;
  }

  /** One step: a merge that loses data changes a read, and no other step does. */
  lemma StepIsWholeIff(s: State, a: Action, logged: set<Entry>, lost: set<Entry>, horizon: SeqNo)
    requires Inv(s) && Enabled(s, a) && HorizonOk(s, horizon)
    requires UpTo(lost, CommitOf(s.disk).lastSequence) && Durable(s.disk) == logged - lost && UniqueSeqs(logged)
    ensures UniqueSeqs(logged + Logged(a))
    ensures ReadFrom(Durable(s.disk), logged, horizon) ==>
      var horizon' := if Merges(s, a) then s.phase.m.job.merging.value.snapshot else horizon;
      (ReadFrom(Durable(Do(s, a).disk), logged + Logged(a), horizon') <==> !CommitLoses(s, a))
  {
    hide Inv, Durable, CommitOf, Upstream, WellOrdered, Selected, VersionEntries, After, SceneOf, LosesData, RunningEnabled,
         OpeningEnabled, RunningStep, OpeningStep, ReadyStep, HorizonOk;
    StepKeeps(s, a);
    if a.Append? {
      OnlyRunningAppends(s, a);
      AppendIsRunning(s, a);
      AppendKeeps(s, s.phase.m, a.record);
      AppendIsWhole(s, s.phase.m, a.record, logged, lost, horizon);
    } else if Merges(s, a) {
      MergeCommit(s);
      HorizonStays(s, a, horizon);
      assert a == AppendManifest && logged + Logged(a) == logged;
      if ReadFrom(Durable(s.disk), logged, horizon) { MergeIsWholeIff(s, logged, horizon); }
    } else {
      NothingDropped(s, a);
      assert Durable(Do(s, a).disk) == Durable(s.disk) && logged + Logged(a) == logged;
    }
  }

  lemma AppendIsRunning(s: State, a: Action)
    requires Enabled(s, a) && a.Append? && s.phase.Running?
    ensures RunningEnabled(s.disk, s.phase.m, Append(a.record)) && Do(s, a) == RunningStep(s, s.phase.m, Append(a.record))
  {
    hide RunningEnabled, RunningStep;
  }

  lemma MergeIsWholeIff(s: State, logged: set<Entry>, horizon: SeqNo)
    requires Inv(s) && Enabled(s, AppendManifest) && Merges(s, AppendManifest)
    requires ReadFrom(Durable(s.disk), logged, horizon) && horizon <= s.phase.m.job.merging.value.snapshot
    ensures ReadFrom(Durable(Do(s, AppendManifest).disk), logged, s.phase.m.job.merging.value.snapshot)
       <==> !CommitLoses(s, AppendManifest)
  {
    hide Inv, Enabled, Do, Durable, CommitOf, Upstream, WellOrdered, Selected, VersionEntries, After, SceneOf, LosesData;
    MergeCommit(s);
    var p, m := s.phase.m, s.phase.m.job.merging.value;
    CompactionPreservesReadsIff(Upstream(s.disk), p.current, m.level, m.inputs0, m.inputs1, m.snapshot);
    var before, after := Durable(s.disk), Durable(Do(s, AppendManifest).disk);
    assert forall k, q: SeqNo :: m.snapshot <= q ==> Read(before, k, q) == Read(logged, k, q);
  }

  // ---- whole runs ------------------------------------------------------------------------------

  lemma FirstHorizon()
    ensures HorizonOk(NEW_DB, 0)
  {
    hide CommitOf;
  }

  lemma EmptyIsWhole()
    ensures ReadFrom({}, {}, 0) && UniqueSeqs({})
  {}

  /** Any run from a new database, through any number of crashes and unfinished recoveries:
      at every moment every read at or after the smallest snapshot is answered from all that
      was logged, if and only if no committed compaction lost data. */
  lemma {:induction false} RunsKeepReadsIff(actions: seq<Action>)
    requires Runnable(NEW_DB, actions)
    ensures AlwaysWhole(actions) <==> NeverLoses(actions)
    ensures HorizonOk(RunFrom(NEW_DB, actions), Horizon(actions)) && UniqueSeqs(AllLogged(actions))
    decreases |actions|
  {
    hide Inv, Durable, Enabled, Do, CommitOf, Lost, Logged, Merges, CommitLoses, HorizonOk, ReadFrom, UniqueSeqs;
    if actions == [] {
      NewDBIsOk();
      FirstHorizon();
      EmptyIsWhole();
    } else {
      var front, a := actions[..|actions| - 1], actions[|actions| - 1];
      var s := RunFrom(NEW_DB, front);
      RunsKeepReadsIff(front);
      RunsAreDurable(front);
      HorizonStays(s, a, Horizon(front));
      StepIsWholeIff(s, a, AllLogged(front), AllLost(NEW_DB, front), Horizon(front));
    }
  }

  /** In particular for a recovered database: reads now are reads of all that was logged. */
  lemma RecoveredReads(actions: seq<Action>, k: UserKey)
    requires Runnable(NEW_DB, actions) && NeverLoses(actions)
    requires var s := RunFrom(NEW_DB, actions); s.phase.Ready? && Enabled(s, SetCurrent)
    ensures var s' := Do(RunFrom(NEW_DB, actions), SetCurrent);
      && s'.phase.Running?
      && Read(VersionEntries(s'.phase.m.current), k, s'.phase.m.lastSequence) == Read(AllLogged(actions), k, s'.phase.m.lastSequence)
  {
    hide Inv, Durable, CommitOf, VersionEntries, NeverLoses, Horizon, AllLogged, Ordered;
    RunsKeepReadsIff(actions);
    RunsAreDurable(actions);
    var s := RunFrom(NEW_DB, actions);
    OpenedHoldsAll(s);
    HorizonStays(s, SetCurrent, Horizon(actions));
    HorizonIsPast(s, SetCurrent, Horizon(actions));
  }

  lemma HorizonIsPast(s: State, a: Action, horizon: SeqNo)
    requires Inv(s) && Enabled(s, a) && HorizonOk(Do(s, a), horizon) && Do(s, a).phase.Running?
    ensures horizon <= Do(s, a).phase.m.lastSequence
  {
    hide DiskOk, RunningOk, OpeningOk, ReadyOk, CommitOf, Do, Enabled;
    StepKeeps(s, a);
    RunningLast(Do(s, a).disk, Do(s, a).start, Do(s, a).phase.m);
  }
}
