/** What a process crash leaves behind, and what opening the database makes of it
    (db/db_impl.cc: Write, MakeRoomForWrite, CompactMemTable, DeleteObsoleteFiles, Recover,
    RecoverLogFile, DB::Open; db/version_set.cc: LogAndApply, Recover).

    One step is one write to the disk or one change under the mutex.  A crash may come
    between any two steps, also while the database is being opened; it keeps every byte
    that was written and loses the memory. */
module Recovery {
  import opened Dbformat
  import opened Runs
  import opened Version
  import opened VersionBuilder
  import opened LevelSteps
  import opened Flush
  import opened Install
  import opened InputSelection
  import opened CompactionMeaning
  import opened CompactionWork
  import opened CompactionScene
  import opened DbSteps
  import opened Manifest
  import opened Replay

  datatype Disk = Disk(logs: seq<LogFile>, tables: map<nat, seq<Entry>>,
                       manifests: map<nat, seq<ManifestRecord>>, current: nat)

  /** What the manifest that CURRENT names says. */
  datatype Commit = Commit(version: Version, logNumber: nat, nextFile: nat, lastSequence: SeqNo)

  function OrZero(n: Option<nat>): nat { if n.Some? then n.value else 0 }

  function Records(d: Disk): seq<ManifestRecord> {
    if d.current in d.manifests then d.manifests[d.current] else []
  }

  function CommitOf(d: Disk): Commit {
    var n := LatestNumbers(Records(d));
    Commit(VersionOf(Records(d)), OrZero(n.logNumber), OrZero(n.nextFile),
           if n.lastSequence.Some? then n.lastSequence.value else 0)
  }

  /** The entries that the disk stands for: the committed tables and the logs not older
      than the committed log number. */
  ghost function Durable(d: Disk): set<Entry> {
    var c := CommitOf(d);
    VersionEntries(c.version) + RecordsEntries(Backlog(d.logs, c.logNumber))
  }

  ghost predicate FilesHold(files: seq<File>, tables: map<nat, seq<Entry>>) {
    forall f :: f in files ==> f.number in tables && tables[f.number] == f.entries
  }

  /** Every table of the version is on the disk under its number. */
  ghost predicate TablesHold(v: Version, tables: map<nat, seq<Entry>>) {
    forall l :: 0 <= l < |v| ==> FilesHold(v[l], tables)
  }

  ghost predicate InPlace(v: Version, next: nat, tables: map<nat, seq<Entry>>) {
    Saved(v) && Numbered(v, next) && TablesHold(v, tables) && UniqueSeqs(VersionEntries(v))
  }

  ghost predicate ManifestOk(records: seq<ManifestRecord>, c: Commit) {
    && Replayable(Edits(records), VersionOf(records), c.nextFile)
    && (forall r :: r in records ==> r.edit.LevelsInRange())
    && VersionOf(records) == c.version
    && LatestNumbers(records) == Numbers3(Some(c.logNumber), Some(c.nextFile), Some(c.lastSequence))
  }

  /** `start` separates the tables from the logs: table entries are no newer, records of
      the backlog come after it, one after the other. */
  ghost predicate DiskOk(d: Disk, start: SeqNo) {
    var c := CommitOf(d);
    && ManifestOk(Records(d), c) && InPlace(c.version, c.nextFile, d.tables)
    && d.current < c.nextFile && c.logNumber < c.nextFile
    && NumbersIncrease(d.logs) && Chain(Backlog(d.logs, c.logNumber), start)
    && UpTo(VersionEntries(c.version), start) && start <= c.lastSequence
  }

  // ---- the memory ------------------------------------------------------------------

  /** The background thread: idle, writing tables, or installing an edit.  LogAndApply
      fixes the record before it lets go of the mutex to write it. */
  datatype Job =
    | Idle
    | Outputs(files: seq<File>)
    | Committing(record: ManifestRecord, version: Version, flush: bool, written: bool, merging: Option<Merging>)

  /** The inputs of a compaction that is not a trivial move, and the smallest snapshot it went by. */
  datatype Merging = Merging(level: nat, inputs0: seq<File>, inputs1: seq<File>, snapshot: SeqNo)

  /** RecoverLogFile has read `pos` records of the log at `index`. */
  datatype Replaying = Replaying(base: Version, news: seq<File>, version: Version, mem: seq<Entry>, index: nat, pos: nat,
                                 maxSequence: SeqNo, nextFile: nat)

  /** The new log exists; its manifest is not current yet. */
  datatype Prepared = Prepared(base: Version, news: seq<File>, version: Version, lastSequence: SeqNo, nextFile: nat,
                               logFile: nat, written: bool)

  /** `from` bounds the entries of `current`; in flight means logged, not yet inserted; no
      reader asks for anything older than `oldest`. */
  datatype Memory = Memory(mem: seq<Entry>, imm: Option<seq<Entry>>, current: Version, from: SeqNo, lastSequence: SeqNo,
                           nextFile: nat, logNumber: nat, logFile: nat, inflight: bool, job: Job, oldest: SeqNo)

  datatype Phase = Down | Opening(o: Replaying) | Ready(n: Prepared) | Running(m: Memory)

  datatype State = State(disk: Disk, start: SeqNo, phase: Phase)

  // ---- opening ----------------------------------------------------------------------

  function RecoveryEdit(news: seq<File>): VersionEdit { VersionEdit({}, Additions(0, news)) }

  function ReadSoFar(logs: seq<LogFile>, logNumber: nat, index: nat, pos: nat): seq<LogRecord>
    requires index <= |logs| && (index < |logs| ==> pos <= |logs[index].records|)
  {
    Backlog(logs[..index], logNumber) + if index < |logs| then logs[index].records[..pos] else []
  }

  ghost predicate NewTables(news: seq<File>, low: nat, high: nat) {
    NumbersDiffer(news) && forall f :: f in news ==> low <= f.number < high
  }

  ghost predicate LogsBelow(logs: seq<LogFile>, next: nat) { forall f :: f in logs ==> f.number < next }

  ghost predicate OpeningOk(d: Disk, start: SeqNo, p: Replaying)
  {
    var c := CommitOf(d);
    && p.base == c.version && c.nextFile < p.nextFile
    && p.index <= |d.logs| && (if p.index < |d.logs| then p.pos <= |d.logs[p.index].records| else p.pos == 0)
    && (if p.pos > 0 then d.logs[p.index].number >= c.logNumber else p.mem == [])
    && LogsBelow(d.logs[..p.index], p.nextFile)
    && NewTables(p.news, c.nextFile, p.nextFile)
    && p.version == NextVersion(p.base, RecoveryEdit(p.news)) && InPlace(p.version, p.nextFile, d.tables)
    && var done := ReadSoFar(d.logs, c.logNumber, p.index, p.pos);
    && Ordered(p.mem, None, p.version, EndOf(done, start))
    && VersionEntries(p.version) + Elements(p.mem) == VersionEntries(p.base) + RecordsEntries(done)
    && p.maxSequence == EndOf(done, 0)
  }

  function RecoveryManifest(base: Version, news: seq<File>, logFile: nat, nextFile: nat, lastSequence: SeqNo): seq<ManifestRecord> {
    [ManifestRecord(SnapshotEdit(base), None, None, None),
     ManifestRecord(RecoveryEdit(news), Some(logFile), Some(nextFile), Some(lastSequence))]
  }

  ghost predicate ReadyOk(d: Disk, start: SeqNo, p: Prepared)
  {
    var c := CommitOf(d);
    && p.base == c.version && c.nextFile < p.nextFile && p.logFile < p.nextFile && c.nextFile < p.logFile
    && NewTables(p.news, c.nextFile, p.nextFile)
    && p.version == NextVersion(p.base, RecoveryEdit(p.news)) && InPlace(p.version, p.nextFile, d.tables)
    && VersionEntries(p.version) == Durable(d)
    && UpTo(VersionEntries(p.version), p.lastSequence)
    && c.lastSequence <= p.lastSequence
    && LastLogIs(d.logs, p.logFile) && d.logs[|d.logs| - 1].records == []
    && (p.written ==>
          && c.nextFile in d.manifests
          && d.manifests[c.nextFile] == RecoveryManifest(p.base, p.news, p.logFile, p.nextFile, p.lastSequence))
  }

  // ---- running -----------------------------------------------------------------------

  ghost predicate LastLogIs(logs: seq<LogFile>, number: nat) {
    logs != [] && logs[|logs| - 1].number == number
  }

  /** The records behind the immutable memtable. */
  function OldRecords(logs: seq<LogFile>, logNumber: nat): seq<LogRecord>
    requires logs != []
  {
    Backlog(logs[..|logs| - 1], logNumber)
  }

  /** The records of the log being written, and those of them already inserted. */
  function NewRecords(logs: seq<LogFile>): seq<LogRecord>
    requires logs != []
  {
    logs[|logs| - 1].records
  }

  function Inserted(logs: seq<LogFile>, inflight: bool): seq<LogRecord>
    requires logs != []
  {
    var records := NewRecords(logs);
    if inflight && records != [] then records[..|records| - 1] else records
  }

  /** The memtables are what replaying the logs gives. */
  ghost predicate MemoryOk(logs: seq<LogFile>, p: Memory)
  {
    && LastLogIs(logs, p.logFile) && p.logNumber <= p.logFile < p.nextFile
    && (p.imm.None? ==> p.logNumber == p.logFile)
    && (p.imm.Some? ==> p.imm.value == Replayed([], OldRecords(logs, p.logNumber)))
    && p.mem == Replayed([], Inserted(logs, p.inflight))
    && Chain(OldRecords(logs, p.logNumber) + NewRecords(logs), p.from)
    && EndOf(OldRecords(logs, p.logNumber) + Inserted(logs, p.inflight), p.from) <= p.lastSequence
    && (p.inflight ==> NewRecords(logs) != [] && NewRecords(logs)[|NewRecords(logs)| - 1].sequence == p.lastSequence + 1)
  }

  /** What bounds the entries of the tables once the job is installed. */
  function Mark(logs: seq<LogFile>, p: Memory): SeqNo
    requires logs != []
  {
    if p.job.Committing? && p.job.flush then EndOf(OldRecords(logs, p.logNumber), p.from) else p.from
  }

  /** What the compaction loop makes of the version, seen without the memtables. */
  ghost predicate MergedInto(v: Version, v': Version, m: Merging)
    requires |v| == NUM_LEVELS
  {
    && m.level + 1 < NUM_LEVELS && Selected(v, m.level, m.inputs0, m.inputs1)
    && VersionEntries(v') == After(SceneOf({}, v, m.level, m.inputs0, m.inputs1), m.snapshot)
  }

  ghost predicate JobOk(d: Disk, p: Memory)
    requires d.logs != [] && |p.current| == NUM_LEVELS
  {
    var c := CommitOf(d);
    match p.job
    case Idle => true
    case Outputs(files) => NewTables(files, c.nextFile, p.nextFile) && FilesHold(files, d.tables)
    case Committing(r, version, flush, written, merging) =>
      && r.nextFile.Some? && r.lastSequence.Some? && r.logNumber == Some(if flush then p.logFile else p.logNumber)
      && c.nextFile <= r.nextFile.value <= p.nextFile && r.logNumber.value < r.nextFile.value
      && Mark(d.logs, p) <= r.lastSequence.value <= p.lastSequence && c.lastSequence <= r.lastSequence.value
      && InPlace(version, r.nextFile.value, d.tables) && UpTo(VersionEntries(version), Mark(d.logs, p))
      && (flush ==> p.imm.Some? && VersionEntries(version) == VersionEntries(p.current) + Elements(p.imm.value))
      && (!flush ==> VersionEntries(version) <= VersionEntries(p.current))
      && (merging.None? && !flush ==> VersionEntries(version) == VersionEntries(p.current))
      && (merging.Some? ==>
            && !flush && MergedInto(p.current, version, merging.value)
            && merging.value.snapshot == p.oldest <= r.lastSequence.value)
      && (!written ==>
            && version == NextVersion(p.current, r.edit) && r.edit.LevelsInRange()
            && Replayable(Edits(Records(d)) + [r.edit], version, r.nextFile.value))
  }

  ghost predicate RunningOk(d: Disk, start: SeqNo, p: Memory)
  {
    var c := CommitOf(d);
    && d.logs != [] && |p.current| == NUM_LEVELS
    && MemoryOk(d.logs, p) && InPlace(p.current, p.nextFile, d.tables) && JobOk(d, p)
    && UpTo(VersionEntries(p.current), p.from)
    && c.lastSequence <= p.lastSequence && c.nextFile <= p.nextFile && p.oldest <= p.lastSequence
    && if p.job.Committing? && p.job.written then
         && c == Commit(p.job.version, p.job.record.logNumber.value, p.job.record.nextFile.value, p.job.record.lastSequence.value)
         && start == Mark(d.logs, p)
       else
         c.version == p.current && c.logNumber == p.logNumber && start == p.from
  }

  ghost predicate Inv(s: State) {
    && DiskOk(s.disk, s.start)
    && match s.phase
       case Down => true
       case Opening(p) => OpeningOk(s.disk, s.start, p)
       case Ready(p) => ReadyOk(s.disk, s.start, p)
       case Running(p) => RunningOk(s.disk, s.start, p)
  }

  // ---- the steps ----------------------------------------------------------------------

  datatype Action =
    | Crash
    | Load                                           // VersionSet::Recover
    | ReplayRecord
    | Spill(size: nat)                               // WriteLevel0Table while recovering
    | NextLog
    | NewLog
    | WriteManifest
    | SetCurrent
    | Append(record: LogRecord)                      // Write: AddRecord
    | Insert                                         // Write: InsertInto and SetLastSequence
    | Switch                                         // MakeRoomForWrite
    | WriteTable(entries: seq<Entry>, bytes: nat)    // BuildTable, FinishCompactionOutputFile
    | BeginFlush(level: nat)
    | BeginMove(level: nat, file: File)              // BackgroundCompaction: a trivial move
    | BeginMerge(merging: Merging)                   // InstallCompactionResults
    | AppendManifest
    | Install
    | DeleteObsolete(logs: set<nat>, tables: set<nat>, manifests: set<nat>)

  /** What FileMetaData read from the manifest stands for: the entries are on the disk. */
  function Load1(f: File, tables: map<nat, seq<Entry>>): File {
    if f.number in tables then f.(entries := tables[f.number]) else f
  }

  function LoadVersion(v: Version, tables: map<nat, seq<Entry>>): Version {
    seq(|v|, l requires 0 <= l < |v| => seq(|v[l]|, i requires 0 <= i < |v[l]| => Load1(v[l][i], tables)))
  }

  function Live(v: Version): set<nat> {
    set l, f | 0 <= l < |v| && f in v[l] :: f.number
  }

  function WrittenFiles(p: Memory): seq<File> { if p.job.Outputs? then p.job.files else [] }

  /** The inputs are chosen as PickCompaction chooses them, and the files written hold what
      the compaction loop keeps of them. */
  ghost predicate GoodMerge(p: Memory, m: Merging) {
    && |p.current| == NUM_LEVELS && m.level + 1 < NUM_LEVELS && Selected(p.current, m.level, m.inputs0, m.inputs1)
    && p.oldest <= m.snapshot <= p.lastSequence
    && var inputs := FilesEntries(m.inputs0) + FilesEntries(m.inputs1);
      && OutputsOf(WrittenFiles(p), inputs)
      && FilesEntries(WrittenFiles(p)) == Kept(inputs, BaseKeys(p.current, m.level), m.snapshot)
  }

  ghost predicate GoodFlush(p: Memory, level: nat)
  {
    && p.imm.Some? && level < NUM_LEVELS && |p.current| == NUM_LEVELS
    && if p.imm.value == [] then
         p.job.Idle? && level == 0
       else
         && p.job.Outputs? && |p.job.files| == 1 && p.job.files[0].entries == p.imm.value && Intact(p.job.files[0])
         && var f := p.job.files[0];
            level > 0 ==> forall l :: 0 <= l <= level ==> !SomeOverlaps(p.current[l], Some(f.smallest.ukey), Some(f.largest.ukey))
  }

  ghost predicate OpeningEnabled(d: Disk, p: Replaying, a: Action) {
    var c := CommitOf(d);
    match a
    case ReplayRecord =>
      p.index < |d.logs| && d.logs[p.index].number >= c.logNumber && p.pos < |d.logs[p.index].records|
    case Spill(_) => Sorted(p.mem) && |p.version| == NUM_LEVELS
    case NextLog =>
      && p.index < |d.logs|
      && (d.logs[p.index].number < c.logNumber || (p.pos == |d.logs[p.index].records| && p.mem == []))
    case NewLog => p.index == |d.logs|
    case _ => false
  }

  ghost predicate RunningEnabled(d: Disk, p: Memory, a: Action) {
    var c := CommitOf(d);
    match a
    case Append(r) => !p.inflight && r.sequence == p.lastSequence + 1 && d.logs != []
    case Insert => p.inflight && d.logs != [] && NewRecords(d.logs) != []
    case Switch => !p.inflight && p.imm.None?
    case WriteTable(entries, _) => !p.job.Committing? && entries != [] && Sorted(entries)
    case BeginFlush(level) => GoodFlush(p, level)
    case BeginMove(level, file) =>
      p.job.Idle? && |p.current| == NUM_LEVELS && level + 1 < NUM_LEVELS && Selected(p.current, level, [file], [])
    case BeginMerge(merging) => !p.job.Committing? && GoodMerge(p, merging)
    case AppendManifest => p.job.Committing? && !p.job.written && d.current in d.manifests && d.logs != []
    case Install => p.job.Committing? && p.job.written && p.job.record.logNumber.Some? && d.logs != []
    case DeleteObsolete(logs, tables, manifests) =>
      && p.job.Idle?
      && (forall n :: n in logs ==> n < p.logNumber)
      && tables !! Live(p.current)
      && forall n :: n in manifests ==> n < d.current
    case _ => false
  }

  ghost predicate Enabled(s: State, a: Action) {
    || a.Crash?
    || match s.phase
       case Down => a.Load?
       case Opening(p) => OpeningEnabled(s.disk, p, a)
       case Ready(p) => if p.written then a.SetCurrent? else a.WriteManifest?
       case Running(p) => RunningEnabled(s.disk, p, a)
  }

  function TableOf(number: nat, size: nat, entries: seq<Entry>): (f: File)
    requires entries != [] && Sorted(entries)
    ensures f.number == number && f.entries == entries && Intact(f)
  {
    MakeFile(number, size, entries)
  }

  function LoadStep(s: State): State {
    var c := CommitOf(s.disk);
    var v := LoadVersion(c.version, s.disk.tables);
    s.(phase := Opening(Replaying(v, [], v, [], 0, 0, 0, c.nextFile + 1)))
  }

  function OpeningStep(s: State, p: Replaying, a: Action): State
    requires OpeningEnabled(s.disk, p, a)
  {
    var d, c := s.disk, CommitOf(s.disk);
    match a
    case ReplayRecord =>
      var r := d.logs[p.index].records[p.pos];
      s.(phase := Opening(p.(mem := MemAfter(p.mem, r.ops, r.sequence - 1), pos := p.pos + 1,
                             maxSequence := if r.Last() > p.maxSequence then r.Last() else p.maxSequence)))
    case Spill(size) =>
      if p.mem == [] then s.(phase := Opening(p.(nextFile := p.nextFile + 1)))
      else
        var f := TableOf(p.nextFile, size, p.mem);
        State(d.(tables := d.tables[p.nextFile := p.mem]), s.start,
              Opening(p.(news := p.news + [f], version := NextVersion(p.version, VersionEdit({}, [(0, f)])), mem := [],
                         nextFile := p.nextFile + 1)))
    case NextLog =>
      var n := d.logs[p.index].number;
      s.(phase := Opening(p.(index := p.index + 1, pos := 0,
                             nextFile := if n >= c.logNumber && p.nextFile <= n then n + 1 else p.nextFile)))
    case NewLog =>
      State(d.(logs := d.logs + [LogFile(p.nextFile, [])]), s.start,
            Ready(Prepared(p.base, p.news, p.version,
                           if c.lastSequence < p.maxSequence then p.maxSequence else c.lastSequence,
                           p.nextFile + 1, p.nextFile, false)))
  }

  function ReadyStep(s: State, p: Prepared): State {
    var d, c := s.disk, CommitOf(s.disk);
    if !p.written then
      State(d.(manifests := d.manifests[c.nextFile :=
                 RecoveryManifest(p.base, p.news, p.logFile, p.nextFile, p.lastSequence)]), s.start, Ready(p.(written := true)))
    else
      State(d.(current := c.nextFile), p.lastSequence,
            Running(Memory([], None, p.version, p.lastSequence, p.lastSequence, p.nextFile, p.logFile, p.logFile, false, Idle, p.lastSequence)))
  }

  /** LogAndApply fixes the record of a compaction. */
  function EditBegun(p: Memory, edit: VersionEdit, merging: Option<Merging>): Memory
    requires |p.current| == NUM_LEVELS
  {
    p.(job := Committing(ManifestRecord(edit, Some(p.logNumber), Some(p.nextFile), Some(p.lastSequence)),
                         NextVersion(p.current, edit), false, false, merging))
  }

  ghost function RunningStep(s: State, p: Memory, a: Action): State
    requires RunningEnabled(s.disk, p, a)
  {
    var d := s.disk;
    match a
    case Append(r) =>
      State(d.(logs := AddRecord(d.logs, r)), s.start, Running(p.(inflight := true)))
    case Insert =>
      var r := NewRecords(d.logs)[|NewRecords(d.logs)| - 1];
      s.(phase := Running(p.(mem := MemAfter(p.mem, r.ops, r.sequence - 1), lastSequence := r.Last(), inflight := false)))
    case Switch =>
      State(d.(logs := d.logs + [LogFile(p.nextFile, [])]), s.start,
            Running(p.(imm := Some(p.mem), mem := [], logFile := p.nextFile, nextFile := p.nextFile + 1)))
    case WriteTable(entries, bytes) =>
      State(d.(tables := d.tables[p.nextFile := entries]), s.start,
            Running(p.(nextFile := p.nextFile + 1,
                       job := Outputs((if p.job.Outputs? then p.job.files else []) + [TableOf(p.nextFile, bytes, entries)]))))
    case BeginFlush(level) =>
      var edit := VersionEdit({}, if p.imm.value == [] then [] else [(level, p.job.files[0])]);
      s.(phase := Running(p.(job := Committing(ManifestRecord(edit, Some(p.logFile), Some(p.nextFile), Some(p.lastSequence)),
                                               NextVersion(p.current, edit), true, false, None))))
    case BeginMove(level, file) =>
      s.(phase := Running(EditBegun(p, CompactionEdit(level, [file], [], [file]), None)))
    case BeginMerge(m) =>
      s.(phase := Running(EditBegun(p.(oldest := m.snapshot), CompactionEdit(m.level, m.inputs0, m.inputs1, WrittenFiles(p)), Some(m))))
    case AppendManifest =>
      State(d.(manifests := d.manifests[d.current := d.manifests[d.current] + [p.job.record]]), Mark(d.logs, p),
            Running(p.(job := Committing(p.job.record, p.job.version, p.job.flush, true, p.job.merging))))
    case Install =>
      s.(phase := Running(p.(current := p.job.version, from := Mark(d.logs, p), logNumber := p.job.record.logNumber.value,
                             imm := if p.job.flush then None else p.imm, job := Idle)))
    case DeleteObsolete(logs, tables, manifests) =>
      s.(disk := d.(logs := Deleted(d.logs, logs), tables := d.tables - tables, manifests := d.manifests - manifests))
  }

  ghost function Do(s: State, a: Action): State
    requires Enabled(s, a)
  {
    if a.Crash? then s.(phase := Down)
    else
      match s.phase
      case Down => LoadStep(s)
      case Opening(p) => OpeningStep(s, p, a)
      case Ready(p) => ReadyStep(s, p)
      case Running(p) => RunningStep(s, p, a)
  }
}
