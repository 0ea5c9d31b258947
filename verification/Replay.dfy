/** The write-ahead logs as records, and what replaying them puts into a memtable
    (db/db_impl.cc: Write, RecoverLogFile).  LogFormat.dfy proves that the bytes of a
    log file give back its records. */
module Replay {
  import opened Dbformat
  import opened Runs
  import opened Version
  import opened DbSteps

  /** A write batch as it stands in the log: its first sequence number and operations. */
  datatype Batch = Batch(sequence: nat, ops: seq<Op>) {
    predicate Fits() { 1 <= sequence && sequence - 1 + |ops| <= MAX_SEQUENCE }

    // RecoverLogFile's last_seq.
    function Last(): SeqNo
      requires Fits()
    {
      sequence - 1 + |ops|
    }

    ghost function Entries(): set<Entry>
      requires Fits()
    {
      BatchEntries(ops, sequence - 1)
    }
  }

  type LogRecord = b: Batch | b.Fits() witness Batch(1, [])

  datatype LogFile = LogFile(number: nat, records: seq<LogRecord>)

  ghost function RecordsEntries(records: seq<LogRecord>): set<Entry> {
    if records == [] then {} else RecordsEntries(records[..|records| - 1]) + records[|records| - 1].Entries()
  }

  /** The sequence number reached after the records. */
  function EndOf(records: seq<LogRecord>, start: SeqNo): SeqNo {
    if records == [] then start else records[|records| - 1].Last()
  }

  /** Every record starts after the one before it ended, and the first after `start`. */
  ghost predicate Chain(records: seq<LogRecord>, start: SeqNo) {
    records != [] ==>
      && Chain(records[..|records| - 1], start)
      && EndOf(records[..|records| - 1], start) < records[|records| - 1].sequence
  }

  /** The memtable after inserting the records in turn. */
  function Replayed(mem: seq<Entry>, records: seq<LogRecord>): seq<Entry> {
    if records == [] then mem
    else
      var r := records[|records| - 1];
      MemAfter(Replayed(mem, records[..|records| - 1]), r.ops, r.sequence - 1)
  }

  lemma OneMore(records: seq<LogRecord>, r: LogRecord, start: SeqNo, mem: seq<Entry>)
    ensures RecordsEntries(records + [r]) == RecordsEntries(records) + r.Entries()
    ensures EndOf(records + [r], start) == r.Last()
    ensures Chain(records + [r], start) <==> Chain(records, start) && EndOf(records, start) < r.sequence
    ensures Replayed(mem, records + [r]) == MemAfter(Replayed(mem, records), r.ops, r.sequence - 1)
  {
    assert (records + [r])[..|records|] == records;
  }

  lemma {:induction false} ChainGrows(records: seq<LogRecord>, start: SeqNo)
    requires Chain(records, start)
    ensures start <= EndOf(records, start)
  {
    if records != [] { ChainGrows(records[..|records| - 1], start); }
  }

  /** Two chains end to end. */
  lemma {:induction false} ChainJoin(a: seq<LogRecord>, b: seq<LogRecord>, start: SeqNo)
    ensures Chain(a + b, start) <==> Chain(a, start) && Chain(b, EndOf(a, start))
    ensures EndOf(a + b, start) == EndOf(b, EndOf(a, start))
    ensures RecordsEntries(a + b) == RecordsEntries(a) + RecordsEntries(b)
  {
    if b == [] {
      assert a + b == a;
    } else {
      var n := |b| - 1;
      assert a + b == (a + b[..n]) + [b[n]] && b == b[..n] + [b[n]];
      ChainJoin(a, b[..n], start);
      OneMore(a + b[..n], b[n], start, []);
      OneMore(b[..n], b[n], EndOf(a, start), []);
    }
  }

  lemma {:induction false} ChainBounds(records: seq<LogRecord>, start: SeqNo)
    requires Chain(records, start)
    ensures UpTo(RecordsEntries(records), EndOf(records, start))
  {
    if records != [] {
      var n := |records| - 1;
      ChainBounds(records[..n], start);
      ChainGrows(records, start);
      BatchEntriesAreNew(records[n].ops, records[n].sequence - 1);
    }
  }

  lemma LaterIsOrdered(mem: seq<Entry>, imm: Option<seq<Entry>>, v: Version, last: nat, last': nat)
    requires Ordered(mem, imm, v, last) && last <= last'
    ensures Ordered(mem, imm, v, last')
  {}

  lemma ReplayStep(mem: seq<Entry>, imm: Option<seq<Entry>>, v: Version, last: SeqNo, r: LogRecord)
    requires Ordered(mem, imm, v, last) && last < r.sequence
    ensures Ordered(MemAfter(mem, r.ops, r.sequence - 1), imm, v, r.Last())
    ensures Elements(MemAfter(mem, r.ops, r.sequence - 1)) == Elements(mem) + r.Entries()
  {
    hide MemAfter;
    LaterIsOrdered(mem, imm, v, last, r.sequence - 1);
    MemAfterIsOrdered(mem, imm, v, r.sequence - 1, r.ops);
  }

  /** Replaying a chain keeps the memtable in order and adds exactly its entries. */
  lemma {:induction false} ReplayedIsOrdered(mem: seq<Entry>, imm: Option<seq<Entry>>, v: Version, start: SeqNo,
                                             records: seq<LogRecord>)
    requires Ordered(mem, imm, v, start) && Chain(records, start)
    ensures Ordered(Replayed(mem, records), imm, v, EndOf(records, start))
    ensures Elements(Replayed(mem, records)) == Elements(mem) + RecordsEntries(records)
  {
    hide Ordered, MemAfter;
    if records == [] {
      assert RecordsEntries(records) == {};
    } else {
      var n := |records| - 1;
      ReplayedIsOrdered(mem, imm, v, start, records[..n]);
      ReplayStep(Replayed(mem, records[..n]), imm, v, EndOf(records[..n], start), records[n]);
      assert RecordsEntries(records) == RecordsEntries(records[..n]) + records[n].Entries();
    }
  }

  // ---- the log files ----------------------------------------------------------------

  /** The directory listing, sorted by number. */
  ghost predicate NumbersIncrease(logs: seq<LogFile>) {
    forall i, j :: 0 <= i < j < |logs| ==> logs[i].number < logs[j].number
  }

  /** The records of the logs numbered `from` or higher, in order. */
  function Backlog(logs: seq<LogFile>, from: nat): seq<LogRecord> {
    if logs == [] then []
    else
      var n := |logs| - 1;
      Backlog(logs[..n], from) + if logs[n].number >= from then logs[n].records else []
  }

  lemma BacklogAppend(logs: seq<LogFile>, f: LogFile, from: nat)
    ensures Backlog(logs + [f], from) == Backlog(logs, from) + if f.number >= from then f.records else []
  {
    assert (logs + [f])[..|logs|] == logs;
  }

  /** AddRecord on the last log. */
  function AddRecord(logs: seq<LogFile>, r: LogRecord): seq<LogFile>
    requires logs != []
  {
    var n := |logs| - 1;
    logs[..n] + [LogFile(logs[n].number, logs[n].records + [r])]
  }

  lemma AddRecordBacklog(logs: seq<LogFile>, r: LogRecord, from: nat)
    requires logs != [] && logs[|logs| - 1].number >= from
    ensures Backlog(AddRecord(logs, r), from) == Backlog(logs, from) + [r]
  {
    var n := |logs| - 1;
    BacklogAppend(logs[..n], AddRecord(logs, r)[n], from);
  }

  /** Logs below `from` do not matter: deleting some of them changes nothing. */
  function Deleted(logs: seq<LogFile>, gone: set<nat>): seq<LogFile> {
    if logs == [] then []
    else
      var n := |logs| - 1;
      Deleted(logs[..n], gone) + if logs[n].number in gone then [] else [logs[n]]
  }

  lemma {:induction false} DeletedBacklog(logs: seq<LogFile>, gone: set<nat>, from: nat)
    requires forall n :: n in gone ==> n < from
    ensures Backlog(Deleted(logs, gone), from) == Backlog(logs, from)
  {
    if logs != [] {
      var n := |logs| - 1;
      DeletedBacklog(logs[..n], gone, from);
      if logs[n].number !in gone { BacklogAppend(Deleted(logs[..n], gone), logs[n], from); }
      else { assert Deleted(logs, gone) == Deleted(logs[..n], gone); }
    }
  }

  lemma {:induction false} DeletedKeeps(logs: seq<LogFile>, gone: set<nat>)
    requires NumbersIncrease(logs)
    ensures NumbersIncrease(Deleted(logs, gone))
    ensures forall f :: f in Deleted(logs, gone) <==> f in logs && f.number !in gone
  {
    if logs != [] {
      var n := |logs| - 1;
      DeletedKeeps(logs[..n], gone);
      assert logs == logs[..n] + [logs[n]];
      LogAppended(Deleted(logs[..n], gone), logs[n]);
    }
  }

  lemma LogAppended(logs: seq<LogFile>, f: LogFile)
    requires NumbersIncrease(logs) && forall g :: g in logs ==> g.number < f.number
    ensures NumbersIncrease(logs + [f])
  {
    assert forall i :: 0 <= i < |logs| ==> logs[i] in logs;
  }

  /** Cutting the listing cuts the backlog. */
  lemma {:induction false} BacklogJoin(a: seq<LogFile>, b: seq<LogFile>, from: nat)
    ensures Backlog(a + b, from) == Backlog(a, from) + Backlog(b, from)
  {
    if b == [] {
      assert a + b == a;
    } else {
      var n := |b| - 1;
      assert a + b == (a + b[..n]) + [b[n]] && b == b[..n] + [b[n]];
      BacklogJoin(a, b[..n], from);
      BacklogAppend(a + b[..n], b[n], from);
      BacklogAppend(b[..n], b[n], from);
    }
  }
}
