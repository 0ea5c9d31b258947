/** Concurrent writers and group commit (db/db_impl.cc: Write, BuildBatchGroup).

    Each method below is one stretch of DBImpl::Write under the mutex, or the one part
    outside it that only the writer at the front executes.  Any sequence of calls whose
    preconditions hold is an interleaving of writers. */
module GroupCommit {
  import opened Dbformat
  import opened DbSteps
  import opened Replay

  /** A caller of Write: its batch (none for a forced memtable switch), the sync option,
      and the byte size of the batch. */
  datatype Writer = Writer(batch: Option<seq<Op>>, sync: bool, size: nat)

  datatype Status = Ok | Failed(code: nat)

  /** What happened outside the mutex. */
  datatype Outcome = Fine | LogError(code: nat) | SyncError(code: nat)

  function StatusOf(o: Outcome): Status {
    match o
    case Fine => Ok
    case LogError(c) => Failed(c)
    case SyncError(c) => Failed(c)
  }

  function Ops(w: Writer): seq<Op> { if w.batch.Some? then w.batch.value else [] }

  /** The operations of some writers, one batch after the other. */
  function Joined(ws: seq<Writer>): seq<Op> {
    if ws == [] then [] else Joined(ws[..|ws| - 1]) + Ops(ws[|ws| - 1])
  }

  lemma JoinedOneMore(ws: seq<Writer>, w: Writer)
    ensures Joined(ws + [w]) == Joined(ws) + Ops(w)
  {
    assert (ws + [w])[..|ws|] == ws;
  }

  function Batches(ws: seq<Writer>): nat {
    if ws == [] then 0 else Batches(ws[..|ws| - 1]) + if ws[|ws| - 1].batch.Some? then 1 else 0
  }

  function Bytes(ws: seq<Writer>): nat {
    if ws == [] then 0 else Bytes(ws[..|ws| - 1]) + if ws[|ws| - 1].batch.Some? then ws[|ws| - 1].size else 0
  }

  lemma CountsOneMore(ws: seq<Writer>, w: Writer)
    ensures Batches(ws + [w]) == Batches(ws) + if w.batch.Some? then 1 else 0
    ensures Bytes(ws + [w]) == Bytes(ws) + if w.batch.Some? then w.size else 0
  {
    assert (ws + [w])[..|ws|] == ws;
  }

  // A small first write keeps its group small.
  function MaxBytes(first: nat): nat { if first <= 0x2_0000 then first + 0x2_0000 else 0x10_0000 }

  /** A writer that must stay out of the group of those before it. */
  predicate StaysOut(group: seq<Writer>, w: Writer)
    requires group != []
  {
    || (w.sync && !group[0].sync)
    || (w.batch.Some? && Bytes(group) + w.size > MaxBytes(group[0].size))
  }

  /** The group of the writer at the front: as many as may join, in queue order. */
  ghost predicate IsGroup(queue: seq<Writer>, n: nat)
  {
    && 0 < n <= |queue|
    && (forall i :: 0 < i < n ==> !StaysOut(queue[..i], queue[i]))
    && (n < |queue| ==> StaysOut(queue[..n], queue[n]))
  }

  lemma FirstAlone(queue: seq<Writer>)
    requires queue != [] && queue[0].batch.Some?
    ensures Joined(queue[..1]) == queue[0].batch.value && Batches(queue[..1]) == 1 && Bytes(queue[..1]) == queue[0].size
  {
    assert queue[..1] == [] + [queue[0]];
    JoinedOneMore([], queue[0]);
    CountsOneMore([], queue[0]);
  }

  /** BuildBatchGroup: the temporary batch is used as soon as a second batch joins. */
  method BuildBatchGroup(queue: seq<Writer>, tmpBatch: seq<Op>) returns (n: nat, result: seq<Op>, tmp: seq<Op>, usesTmp: bool)
    requires queue != [] && queue[0].batch.Some? && tmpBatch == []
    ensures IsGroup(queue, n)
    ensures forall i :: 0 < i < n && queue[i].sync ==> queue[0].sync
    ensures Batches(queue[..n]) > 1 ==>
              Bytes(queue[..n]) <= if queue[0].size <= 0x2_0000 then queue[0].size + 0x2_0000 else 0x10_0000
    ensures result == Joined(queue[..n])
    ensures usesTmp <==> Batches(queue[..n]) > 1
    ensures tmp == if usesTmp then result else []
  {
    hide Joined, Batches, Bytes;
    var first := queue[0];
    var size := first.size;
    var maxSize := 0x10_0000;
    if size <= 0x2_0000 { maxSize := size + 0x2_0000; }
    result, tmp, usesTmp := first.batch.value, tmpBatch, false;
    n := 1;
    FirstAlone(queue);
    while n < |queue|
      invariant 0 < n <= |queue|
      invariant size == Bytes(queue[..n]) && result == Joined(queue[..n])
      invariant usesTmp <==> Batches(queue[..n]) > 1
      invariant Batches(queue[..n]) >= 1
      invariant tmp == if usesTmp then result else []
      invariant usesTmp ==> size <= maxSize
      invariant forall i :: 0 < i < n ==> !StaysOut(queue[..i], queue[i])
    {
      var w := queue[n];
      assert queue[..n + 1] == queue[..n] + [w];
      JoinedOneMore(queue[..n], w);
      CountsOneMore(queue[..n], w);
      if w.sync && !first.sync { break; }
      if w.batch.Some? {
        size := size + w.size;
        if size > maxSize { break; }
        if !usesTmp {
          assert tmp == [];
          tmp := tmp + first.batch.value;
          usesTmp := true;
          OneBatch(queue, n);
        }
        tmp := tmp + w.batch.value;
        result := tmp;
      }
      n := n + 1;
    }
  }

  lemma {:induction false} OneBatch(queue: seq<Writer>, n: nat)
    requires 0 < n <= |queue| && queue[0].batch.Some? && Batches(queue[..n]) <= 1
    ensures Joined(queue[..n]) == queue[0].batch.value && Batches(queue[..n]) == 1
  {
    assert queue[..n] == queue[..n - 1] + [queue[n - 1]];
    JoinedOneMore(queue[..n - 1], queue[n - 1]);
    CountsOneMore(queue[..n - 1], queue[n - 1]);
    if n > 1 {
      HeadCounts(queue, n - 1);
      OneBatch(queue, n - 1);
    }
  }

  lemma {:induction false} HeadCounts(queue: seq<Writer>, n: nat)
    requires 0 < n <= |queue| && queue[0].batch.Some?
    ensures Batches(queue[..n]) >= 1
  {
    assert queue[..n] == queue[..n - 1] + [queue[n - 1]];
    CountsOneMore(queue[..n - 1], queue[n - 1]);
    if n > 1 { HeadCounts(queue, n - 1); }
  }

  // ---- groups -----------------------------------------------------------------------------

  /** The writers `first` to `end` (in order of arrival), served together.  A group that
      did not start was turned away by MakeRoomForWrite or led by a writer without a batch. */
  datatype Group = Group(first: nat, end: nat, sequence: nat, started: bool, logged: bool, synced: bool, inserted: bool,
                         status: Status)

  predicate Spans(g: Group, n: nat) { g.first < g.end <= n }

  function GroupOps(arrivals: seq<Writer>, g: Group): seq<Op>
    requires Spans(g, |arrivals|)
  {
    if g.started then Joined(arrivals[g.first..g.end]) else []
  }

  ghost predicate GroupOk(arrivals: seq<Writer>, g: Group) {
    && Spans(g, |arrivals|)
    && (forall i :: g.first <= i < g.end && arrivals[i].sync ==> arrivals[g.first].sync)
    && (if g.started then
          && arrivals[g.first].batch.Some?
          && (g.inserted ==> g.logged)
          && (g.status.Ok? ==> g.logged && g.inserted && (arrivals[g.first].sync ==> g.synced))
        else
          && g.end == g.first + 1 && !g.logged && !g.inserted
          && (g.status.Ok? ==> arrivals[g.first].batch.None?))
  }

  /** The groups cover the first `n` arrivals, in order, and are numbered one after the
      other; the numbers of a group that failed stay unused. */
  ghost predicate Covers(arrivals: seq<Writer>, groups: seq<Group>, n: nat) {
    if groups == [] then n == 0
    else
      var g := groups[|groups| - 1];
      && GroupOk(arrivals, g) && g.end == n
      && Covers(arrivals, groups[..|groups| - 1], g.first)
      && g.sequence == Numbers(arrivals, groups[..|groups| - 1]) + 1
  }

  /** How many sequence numbers the groups have used. */
  function Numbers(arrivals: seq<Writer>, groups: seq<Group>): nat {
    if groups == [] then 0
    else
      var g := groups[|groups| - 1];
      Numbers(arrivals, groups[..|groups| - 1]) + if Spans(g, |arrivals|) then |GroupOps(arrivals, g)| else 0
  }

  function RecordOf(arrivals: seq<Writer>, g: Group): Batch
    requires Spans(g, |arrivals|)
  {
    Batch(g.sequence, GroupOps(arrivals, g))
  }

  /** The log and the memtable insertions of the groups, in order. */
  ghost function Logged(arrivals: seq<Writer>, groups: seq<Group>): seq<Batch> {
    if groups == [] then []
    else
      var g, front := groups[|groups| - 1], Logged(arrivals, groups[..|groups| - 1]);
      if g.logged && Spans(g, |arrivals|) then front + [RecordOf(arrivals, g)] else front
  }

  ghost function Inserted(arrivals: seq<Writer>, groups: seq<Group>): seq<Batch> {
    if groups == [] then []
    else
      var g, front := groups[|groups| - 1], Inserted(arrivals, groups[..|groups| - 1]);
      if g.inserted && Spans(g, |arrivals|) then front + [RecordOf(arrivals, g)] else front
  }

  lemma GroupAppended(arrivals: seq<Writer>, groups: seq<Group>, g: Group)
    requires Spans(g, |arrivals|)
    ensures Covers(arrivals, groups + [g], g.end) <==>
              GroupOk(arrivals, g) && Covers(arrivals, groups, g.first) && g.sequence == Numbers(arrivals, groups) + 1
    ensures Numbers(arrivals, groups + [g]) == Numbers(arrivals, groups) + |GroupOps(arrivals, g)|
    ensures Logged(arrivals, groups + [g]) == Logged(arrivals, groups) + if g.logged then [RecordOf(arrivals, g)] else []
    ensures Inserted(arrivals, groups + [g]) == Inserted(arrivals, groups) + if g.inserted then [RecordOf(arrivals, g)] else []
  {
    assert (groups + [g])[..|groups|] == groups;
  }

  /** A new arrival changes nothing for those before it. */
  lemma {:induction false} ArrivalKeeps(arrivals: seq<Writer>, w: Writer, groups: seq<Group>, n: nat)
    requires Covers(arrivals, groups, n)
    ensures Covers(arrivals + [w], groups, n) && Numbers(arrivals + [w], groups) == Numbers(arrivals, groups)
    ensures Logged(arrivals + [w], groups) == Logged(arrivals, groups)
    ensures Inserted(arrivals + [w], groups) == Inserted(arrivals, groups)
  {
    if groups != [] {
      var front, g := groups[..|groups| - 1], groups[|groups| - 1];
      ArrivalKeeps(arrivals, w, front, g.first);
      assert groups == front + [g];
      GroupArrival(arrivals, w, g);
      GroupAppended(arrivals, front, g);
      GroupAppended(arrivals + [w], front, g);
    }
  }

  lemma GroupArrival(arrivals: seq<Writer>, w: Writer, g: Group)
    requires GroupOk(arrivals, g)
    ensures GroupOk(arrivals + [w], g) && GroupOps(arrivals + [w], g) == GroupOps(arrivals, g)
  {
    assert (arrivals + [w])[g.first..g.end] == arrivals[g.first..g.end];
  }

  // ---- the queue ------------------------------------------------------------------------------

  ghost predicate InOrder(writers: seq<nat>, head: nat, n: nat) {
    head + |writers| == n && forall i :: 0 <= i < |writers| ==> writers[i] == head + i
  }

  /** Everyone before `head` was told the status of their group. */
  ghost predicate Told(done: map<nat, Status>, groups: seq<Group>, head: nat) {
    && (forall i: nat :: i in done <==> i < head)
    && forall g, i: nat :: g in groups && g.first <= i < g.end && i in done ==> done[i] == g.status
  }

  function Tell(done: map<nat, Status>, first: nat, end: nat, status: Status): map<nat, Status> {
    if end <= first then done else Tell(done, first, end - 1, status)[end - 1 := status]
  }

  lemma {:induction false} TellSpec(done: map<nat, Status>, first: nat, end: nat, status: Status)
    ensures forall i: nat :: i in Tell(done, first, end, status) <==> i in done || first <= i < end
    ensures forall i: nat :: i in Tell(done, first, end, status) ==>
              Tell(done, first, end, status)[i] == if first <= i < end then status else done[i]
  {
    if first < end { TellSpec(done, first, end - 1, status); }
  }

  ghost predicate EndBy(groups: seq<Group>, head: nat) { forall g :: g in groups ==> g.end <= head }

  lemma {:induction false} CoveredEnd(arrivals: seq<Writer>, groups: seq<Group>, n: nat)
    requires Covers(arrivals, groups, n)
    ensures EndBy(groups, n)
  {
    if groups != [] {
      var front, g := groups[..|groups| - 1], groups[|groups| - 1];
      CoveredEnd(arrivals, front, g.first);
      assert groups == front + [g];
    }
  }

  lemma ToldOneMore(done: map<nat, Status>, groups: seq<Group>, g: Group)
    requires Told(done, groups, g.first) && EndBy(groups, g.first) && g.first < g.end
    ensures Told(Tell(done, g.first, g.end, g.status), groups + [g], g.end)
  {
    TellSpec(done, g.first, g.end, g.status);
    forall h | h in groups + [g] ensures h in groups || h == g {}
  }

  // The status of a group before anything has been written; no writer is ever told it.
  const UNWRITTEN := Failed(0)

  /** The record is in the log but the sync failed. */
  predicate SyncFailed(g: Group) { g.logged && !g.status.Ok? }

  ghost predicate NoSyncError(groups: seq<Group>) { forall g :: g in groups ==> !SyncFailed(g) }

  /** After a failed sync, when the log's state is unknown, no group is ever started. */
  ghost predicate Sealed(groups: seq<Group>, bgError: Option<nat>) {
    && (bgError.None? ==> NoSyncError(groups))
    && forall j, k :: 0 <= j < k < |groups| && SyncFailed(groups[j]) ==> !groups[k].started
  }

  lemma SealedOneMore(groups: seq<Group>, g: Group, bgError: Option<nat>, bgError': Option<nat>)
    requires Sealed(groups, bgError) && (g.started ==> NoSyncError(groups))
    requires (bgError.Some? || SyncFailed(g)) ==> bgError'.Some?
    ensures Sealed(groups + [g], bgError')
  {
    var all := groups + [g];
    forall h | h in all ensures h in groups || h == g {}
    forall j, k | 0 <= j < k < |all| && SyncFailed(all[j]) ensures !all[k].started {
      assert all[j] in groups;
    }
  }

  class WriteQueue {
    var arrivals: seq<Writer>
    var writers: seq<nat>
    var done: map<nat, Status>
    var tmpBatch: seq<Op>
    var lastSequence: nat
    var log: seq<Batch>
    var inserted: seq<Batch>
    var bgError: Option<nat>
    // The group being written outside the mutex, its operations, whether they stand in the
    // temporary batch, and what has come of it.
    var leading: Option<Group>
    var updates: seq<Op>
    var usesTmp: bool
    var outcome: Option<Outcome>
    ghost var groups: seq<Group>

    ghost predicate Valid()
      reads this
    {
      var head := |arrivals| - |writers|;
      && 0 <= head && InOrder(writers, head, |arrivals|)
      && Covers(arrivals, groups, head) && Told(done, groups, head)
      && lastSequence == Numbers(arrivals, groups) && Sealed(groups, bgError)
      && (leading.None? ==> tmpBatch == [] && outcome.None? && log == Logged(arrivals, groups) && inserted == Inserted(arrivals, groups))
      && (leading.Some? ==> LeadingOk(head))
    }

    ghost predicate LeadingOk(head: nat)
      requires leading.Some?
      reads this
    {
      var g := leading.value;
      && g.first == head && GroupOk(arrivals, g) && g.started && g.sequence == lastSequence + 1
      && updates == GroupOps(arrivals, g) && tmpBatch == (if usesTmp then updates else []) && NoSyncError(groups)
      && log == Logged(arrivals, groups + [g]) && inserted == Inserted(arrivals, groups + [g])
      && (if outcome.Some? then g.status == StatusOf(outcome.value) && (g.logged <==> !outcome.value.LogError?) else !g.logged && !g.synced && !g.inserted && g.status == UNWRITTEN)
    }

    constructor ()
      ensures Valid() && arrivals == [] && lastSequence == 0
    {
      arrivals, writers, done, tmpBatch, lastSequence, log, inserted := [], [], map[], [], 0, [], [];
      bgError, leading, updates, usesTmp, outcome, groups := None, None, [], false, None, [];
      new;
      assert InOrder(writers, 0, 0) && Covers(arrivals, groups, 0) && Told(done, groups, 0);
    }

    /** A writer arrives; it waits until it is told a status or is at the front. */
    method Enqueue(w: Writer) returns (id: nat)
      requires Valid()
      modifies this`arrivals, this`writers
      ensures Valid() && id == |old(arrivals)| && arrivals == old(arrivals) + [w] && writers == old(writers) + [id]
    {
      hide Joined, Covers, Numbers, Logged, Inserted, Told, NoSyncError, Sealed;
      ArrivalKeeps(arrivals, w, groups, |arrivals| - |writers|);
      if leading.Some? {
        GroupArrival(arrivals, w, leading.value);
        GroupAppended(arrivals, groups, leading.value);
        GroupAppended(arrivals + [w], groups, leading.value);
      }
      id := |arrivals|;
      arrivals := arrivals + [w];
      writers := writers + [id];
    }

    /** The loop at the end of Write: everyone up to the last writer of the group leaves the
        queue with the group's status. */
    method Pop(g: Group)
      requires InOrder(writers, g.first, |arrivals|) && Spans(g, |arrivals|)
      modifies this`writers, this`done
      ensures InOrder(writers, g.end, |arrivals|)
      ensures done == Tell(old(done), g.first, g.end, g.status) && |writers| < |old(writers)|
    {
      ghost var dones := done;
      var ready := g.first;
      while ready < g.end
        invariant g.first <= ready <= g.end && InOrder(writers, ready, |arrivals|)
        invariant done == Tell(dones, g.first, ready, g.status)
      {
        assert writers[0] == ready;
        done := done[ready := g.status];
        writers := writers[1..];
        ready := ready + 1;
      }
    }

    /** Background work may fail at any time; the first error stays. */
    method RecordBackgroundError(code: nat)
      requires Valid()
      modifies this`bgError
      ensures Valid() && bgError == if old(bgError).Some? then old(bgError) else Some(code)
    {
      if bgError.None? { bgError := Some(code); }
    }

    /** The writer at the front comes back from MakeRoomForWrite, which fails when there is a
        background error or, with `room`, for a reason of its own.  It builds its group, or
        leaves at once. */
    method Lead(room: Option<nat>)
      requires Valid() && writers != [] && leading.None?
      modifies this
      ensures Valid() && arrivals == old(arrivals) && bgError == old(bgError)
      ensures log == old(log) && inserted == old(inserted) && lastSequence == old(lastSequence)
      ensures var first := old(writers)[0];
        var fails := bgError.Some? || room.Some?;
        if fails || arrivals[first].batch.None? then
          && leading.None? && |writers| == |old(writers)| - 1
          && done == Tell(old(done), first, first + 1, if bgError.Some? then Failed(bgError.value) else if room.Some? then Failed(room.value) else Ok)
        else
          && leading.Some? && writers == old(writers) && done == old(done)
          && leading.value.first == first && IsGroup(arrivals[first..], leading.value.end - first)
    {
      hide Joined, Batches, Bytes, IsGroup, Covers, Numbers, Logged, Inserted, Told, Tell, GroupOk, NoSyncError;
      var first := writers[0];
      var status := if bgError.Some? then Failed(bgError.value) else if room.Some? then Failed(room.value) else Ok;
      var w := arrivals[first];
      if status.Ok? && w.batch.Some? {
        var queue := arrivals[first..];
        var n, result, tmp, uses := BuildBatchGroup(queue, tmpBatch);
        updates, tmpBatch, usesTmp := result, tmp, uses;
        var g := Group(first, first + n, lastSequence + 1, true, false, false, false, UNWRITTEN);
        GroupIsOk(arrivals, first, n, g);
        GroupAppended(arrivals, groups, g);
        leading := Some(g);
      } else {
        var g := Group(first, first + 1, lastSequence + 1, false, false, false, false, status);
        TurnedAway(arrivals, g);
        GroupAppended(arrivals, groups, g);
        CoveredEnd(arrivals, groups, first);
        ToldOneMore(done, groups, g);
        SealedOneMore(groups, g, bgError, bgError);
        Pop(g);
        groups := groups + [g];
      }
    }

    /** The part without the mutex: AddRecord, Sync when the leader asks for it, InsertInto. */
    method WriteGroup(o: Outcome)
      requires Valid() && leading.Some? && outcome.None?
      requires o.SyncError? ==> arrivals[leading.value.first].sync
      modifies this`log, this`inserted, this`leading, this`outcome
      ensures Valid() && outcome == Some(o) && leading.Some?
      ensures leading.value.first == old(leading).value.first && leading.value.end == old(leading).value.end
      ensures leading.value.sequence == old(leading).value.sequence
      ensures log == if o.LogError? then old(log) else old(log) + [Batch(leading.value.sequence, updates)]
      ensures inserted == if o.Fine? then old(inserted) + [Batch(leading.value.sequence, updates)] else old(inserted)
    {
      hide Joined, Covers, Numbers, Logged, Inserted, Told, NoSyncError, Sealed;
      var g := leading.value;
      var record := Batch(g.sequence, updates);
      var g' := g.(logged := !o.LogError?, synced := o.Fine? && arrivals[g.first].sync, inserted := o.Fine?, status := StatusOf(o));
      GroupAppended(arrivals, groups, g);
      GroupAppended(arrivals, groups, g');
      if !o.LogError? { log := log + [record]; }
      if o.Fine? { inserted := inserted + [record]; }
      leading, outcome := Some(g'), Some(o);
    }

    /** Back under the mutex: the sequence numbers count as used, even when the write failed,
        and the group leaves the queue. */
    method Complete()
      requires Valid() && leading.Some? && outcome.Some?
      modifies this
      ensures Valid() && leading.None? && arrivals == old(arrivals) && log == old(log) && inserted == old(inserted)
      ensures tmpBatch == [] && lastSequence == old(lastSequence) + |old(updates)|
      ensures done == Tell(old(done), old(leading).value.first, old(leading).value.end, StatusOf(old(outcome).value))
      ensures bgError == if old(outcome).value.SyncError? && old(bgError).None? then Some(old(outcome).value.code) else old(bgError)
      ensures |writers| < |old(writers)|
    {
      hide Joined, Covers, Numbers, Logged, Inserted, Told, Tell, NoSyncError, InOrder, EndBy, Sealed, GroupOps, GroupOk;
      var g := leading.value;
      OkSpans(arrivals, g);
      if outcome.value.SyncError? && bgError.None? { bgError := Some(outcome.value.code); }
      if usesTmp { tmpBatch := []; }
      lastSequence := lastSequence + |updates|;
      GroupAppended(arrivals, groups, g);
      CoveredEnd(arrivals, groups, g.first);
      ToldOneMore(done, groups, g);
      SealedOneMore(groups, g, old(bgError), bgError);
      Pop(g);
      groups := groups + [g];
      leading, outcome := None, None;
    }
  }

  lemma OkSpans(arrivals: seq<Writer>, g: Group)
    requires GroupOk(arrivals, g)
    ensures Spans(g, |arrivals|)
  {}

  lemma TurnedAway(arrivals: seq<Writer>, g: Group)
    requires Spans(g, |arrivals|) && g.end == g.first + 1 && !g.started && !g.logged && !g.inserted
    requires g.status.Ok? ==> arrivals[g.first].batch.None?
    ensures GroupOk(arrivals, g) && GroupOps(arrivals, g) == []
  {}

  lemma GroupIsOk(arrivals: seq<Writer>, first: nat, n: nat, g: Group)
    requires first < |arrivals| && IsGroup(arrivals[first..], n) && arrivals[first].batch.Some?
    requires g.first == first && g.end == first + n && g.started && !g.inserted && !g.status.Ok?
    ensures GroupOk(arrivals, g) && GroupOps(arrivals, g) == Joined(arrivals[first..][..n])
  {
    var queue := arrivals[first..];
    assert arrivals[first..g.end] == queue[..n];
    forall i | g.first <= i < g.end && arrivals[i].sync ensures arrivals[first].sync {
      if i > first { assert !StaysOut(queue[..i - first], queue[i - first]); }
    }
  }

  // ---- what a writer may rely on ----------------------------------------------------------------

  /** The group that served a writer. */
  ghost predicate Served(groups: seq<Group>, k: nat, i: nat) {
    k < |groups| && groups[k].first <= i < groups[k].end
  }

  /** Every served writer was served by exactly one group. */
  lemma {:induction false} ServedOnce(arrivals: seq<Writer>, groups: seq<Group>, n: nat, i: nat) returns (k: nat)
    requires Covers(arrivals, groups, n) && i < n
    ensures Served(groups, k, i) && forall j: nat :: Served(groups, j, i) ==> j == k
  {
    var front, g := groups[..|groups| - 1], groups[|groups| - 1];
    CoveredEnd(arrivals, front, g.first);
    if i < g.first {
      k := ServedOnce(arrivals, front, g.first, i);
      forall j: nat | Served(groups, j, i) ensures j == k { assert j < |front| ==> Served(front, j, i); }
    } else {
      k := |front|;
      forall j: nat | j < |front| ensures !Served(groups, j, i) { assert front[j] in front; }
    }
  }

  lemma {:induction false} NumbersGrow(arrivals: seq<Writer>, groups: seq<Group>, n: nat, k: nat)
    requires Covers(arrivals, groups, n) && k < |groups|
    ensures GroupOk(arrivals, groups[k]) && groups[k].sequence == Numbers(arrivals, groups[..k]) + 1
    ensures groups[k].sequence + |GroupOps(arrivals, groups[k])| <= Numbers(arrivals, groups) + 1
    ensures groups[k].end <= n
    decreases |groups|
  {
    var front, g := groups[..|groups| - 1], groups[|groups| - 1];
    if k < |front| {
      NumbersGrow(arrivals, front, g.first, k);
      assert front[..k] == groups[..k];
    } else {
      assert front == groups[..k];
    }
  }

  /** Earlier groups hold earlier writers and smaller sequence numbers: the ranges of two
      groups never meet, and a group starts right after what the earlier ones used. */
  lemma {:induction false} GroupsAreApart(arrivals: seq<Writer>, groups: seq<Group>, n: nat, j: nat, k: nat)
    requires Covers(arrivals, groups, n) && j < k < |groups|
    ensures groups[j].end <= groups[k].first
    ensures Spans(groups[j], |arrivals|) && groups[j].sequence + |GroupOps(arrivals, groups[j])| <= groups[k].sequence
    decreases |groups|
  {
    hide GroupOps, Numbers;
    var front, g := groups[..|groups| - 1], groups[|groups| - 1];
    if k < |front| {
      GroupsAreApart(arrivals, front, g.first, j, k);
    } else {
      NumbersGrow(arrivals, front, g.first, j);
    }
  }

  /** Within its group a batch stands whole, after the batches of those before it. */
  lemma {:induction false} BatchStandsWhole(ws: seq<Writer>, i: nat)
    requires i < |ws|
    ensures |Joined(ws[..i])| + |Ops(ws[i])| <= |Joined(ws)|
    ensures Joined(ws)[|Joined(ws[..i])|..][..|Ops(ws[i])|] == Ops(ws[i])
  {
    var n := |ws| - 1;
    if i < n {
      BatchStandsWhole(ws[..n], i);
      assert ws[..n][..i] == ws[..i];
      PrefixSlice(Joined(ws[..n]), Ops(ws[n]), |Joined(ws[..i])|, |Ops(ws[i])|);
    }
  }

  lemma PrefixSlice(a: seq<Op>, b: seq<Op>, from: nat, len: nat)
    requires from + len <= |a|
    ensures (a + b)[from..][..len] == a[from..][..len]
  {}

  lemma {:induction false} RecordIsThere(arrivals: seq<Writer>, groups: seq<Group>, n: nat, k: nat)
    requires Covers(arrivals, groups, n) && k < |groups| && Spans(groups[k], |arrivals|)
    ensures groups[k].logged ==> RecordOf(arrivals, groups[k]) in Logged(arrivals, groups)
    ensures groups[k].inserted ==> RecordOf(arrivals, groups[k]) in Inserted(arrivals, groups)
    decreases |groups|
  {
    var front, g := groups[..|groups| - 1], groups[|groups| - 1];
    if k < |front| { RecordIsThere(arrivals, front, g.first, k); }
  }

  /** Records follow one another without overlap, in the log and in the memtable. */
  ghost predicate Increasing(records: seq<Batch>, last: nat) {
    if records == [] then true
    else
      var r := records[|records| - 1];
      1 <= r.sequence && r.sequence + |r.ops| <= last + 1 && Increasing(records[..|records| - 1], r.sequence - 1)
  }

  lemma IncreasingLater(records: seq<Batch>, last: nat, last': nat)
    requires Increasing(records, last) && last <= last'
    ensures Increasing(records, last')
  {}

  lemma {:induction false} RecordsIncrease(arrivals: seq<Writer>, groups: seq<Group>, n: nat)
    requires Covers(arrivals, groups, n)
    ensures Increasing(Logged(arrivals, groups), Numbers(arrivals, groups))
    ensures Increasing(Inserted(arrivals, groups), Numbers(arrivals, groups))
  {
    hide Increasing, GroupOps, Joined;
    if groups == [] {
      NothingIncreases();
    } else {
      var front, g := groups[..|groups| - 1], groups[|groups| - 1];
      RecordsIncrease(arrivals, front, g.first);
      RecordAppended(Logged(arrivals, front), RecordOf(arrivals, g), g.logged, Numbers(arrivals, front));
      RecordAppended(Inserted(arrivals, front), RecordOf(arrivals, g), g.inserted, Numbers(arrivals, front));
    }
  }

  lemma NothingIncreases()
    ensures Increasing([], 0)
  {}

  lemma RecordAppended(records: seq<Batch>, r: Batch, appended: bool, last: nat)
    requires Increasing(records, last) && r.sequence == last + 1
    ensures Increasing(if appended then records + [r] else records, last + |r.ops|)
    ensures Increasing(records + if appended then [r] else [], last + |r.ops|)
  {
    assert records + [] == records;
    IncreasingLater(records, last, last + |r.ops|);
    assert (records + [r])[..|records|] == records;
  }

  lemma SyncGoesAlong(arrivals: seq<Writer>, g: Group, i: nat)
    requires GroupOk(arrivals, g) && g.first <= i < g.end && g.status.Ok? && arrivals[i].batch.Some?
    ensures g.started && g.logged && g.inserted && (arrivals[i].sync ==> g.synced)
  {}

  lemma OkWriter(arrivals: seq<Writer>, g: Group, i: nat)
    requires GroupOk(arrivals, g) && g.first <= i < g.end && g.status.Ok? && arrivals[i].batch.Some?
    ensures var start := |Joined(arrivals[g.first..i])|;
      && g.logged && g.inserted && (arrivals[i].sync ==> g.synced)
      && start + |Ops(arrivals[i])| <= |GroupOps(arrivals, g)|
      && GroupOps(arrivals, g)[start..][..|Ops(arrivals[i])|] == arrivals[i].batch.value
  {
    hide Joined;
    var ws := arrivals[g.first..g.end];
    assert ws[i - g.first] == arrivals[i];
    SyncGoesAlong(arrivals, g, i);
    BatchStandsWhole(ws, i - g.first);
    assert ws[..i - g.first] == arrivals[g.first..i];
  }

  lemma LogHolds(q: WriteQueue)
    requires q.Valid()
    ensures forall r :: r in Logged(q.arrivals, q.groups) ==> r in q.log
    ensures forall r :: r in Inserted(q.arrivals, q.groups) ==> r in q.inserted
    ensures Increasing(q.inserted, q.lastSequence + |q.updates|) && Increasing(q.log, q.lastSequence + |q.updates|)
  {
    hide Joined, Numbers, Logged, Inserted, Increasing, Covers, Told, NoSyncError, Sealed;
    RecordsIncrease(q.arrivals, q.groups, |q.arrivals| - |q.writers|);
    if q.leading.Some? {
      var g := q.leading.value;
      GroupAppended(q.arrivals, q.groups, g);
      RecordAppended(Inserted(q.arrivals, q.groups), RecordOf(q.arrivals, g), g.inserted, q.lastSequence);
      RecordAppended(Logged(q.arrivals, q.groups), RecordOf(q.arrivals, g), g.logged, q.lastSequence);
    } else {
      IncreasingLater(q.inserted, q.lastSequence, q.lastSequence + |q.updates|);
      IncreasingLater(q.log, q.lastSequence, q.lastSequence + |q.updates|);
    }
  }

  lemma ToldStatus(done: map<nat, Status>, groups: seq<Group>, head: nat, k: nat, i: nat)
    requires Told(done, groups, head) && Served(groups, k, i) && i in done
    ensures done[i] == groups[k].status
  {
    assert groups[k] in groups;
  }

  /** The main result for one writer, in any reachable state.  A writer that was told Ok
      and had a batch has its whole batch, at its place in the queue, in exactly one group,
      logged and inserted; if it asked for a sync, the log was synced before.  The log and
      the memtable hold the groups' records in order, without overlap. */
  lemma ToldWriter(q: WriteQueue, i: nat) returns (k: nat)
    requires q.Valid() && i in q.done
    ensures Served(q.groups, k, i) && forall j: nat :: Served(q.groups, j, i) ==> j == k
    ensures GroupOk(q.arrivals, q.groups[k]) && q.done[i] == q.groups[k].status
    ensures q.done[i].Ok? && q.arrivals[i].batch.Some? ==>
              var g, start := q.groups[k], |Joined(q.arrivals[q.groups[k].first..i])|;
              && RecordOf(q.arrivals, g) in q.log && RecordOf(q.arrivals, g) in q.inserted
              && start + |Ops(q.arrivals[i])| <= |GroupOps(q.arrivals, g)|
              && GroupOps(q.arrivals, g)[start..][..|Ops(q.arrivals[i])|] == q.arrivals[i].batch.value
              && (q.arrivals[i].sync ==> g.synced)
  {
    hide Joined, Numbers, Logged, Inserted, GroupOk, Covers, Told, NoSyncError, Sealed, GroupOps, Ops;
    var head := |q.arrivals| - |q.writers|;
    HeadOfQueue(q, i);
    k := ServedOnce(q.arrivals, q.groups, head, i);
    ToldStatus(q.done, q.groups, head, k, i);
    NumbersGrow(q.arrivals, q.groups, head, k);
    RecordIsThere(q.arrivals, q.groups, head, k);
    LogHolds(q);
    if q.done[i].Ok? && q.arrivals[i].batch.Some? { OkWriter(q.arrivals, q.groups[k], i); }
  }

  lemma HeadOfQueue(q: WriteQueue, i: nat)
    requires q.Valid() && i in q.done
    ensures 0 <= |q.arrivals| - |q.writers| && i < |q.arrivals| - |q.writers|
  {
    hide Joined, Numbers, Logged, Inserted, GroupOk, Covers, NoSyncError, Sealed;
  }

  // ---- interleavings ------------------------------------------------------------------------------

  datatype Event =
    | Arrive(w: Writer)
    | Front(room: Option<nat>)
    | Write(o: Outcome)
    | Finish
    | BackgroundError(code: nat)

  function Arrivals(events: seq<Event>): seq<Writer> {
    if events == [] then []
    else
      var front, last := Arrivals(events[..|events| - 1]), events[|events| - 1];
      if last.Arrive? then front + [last.w] else front
  }

  /** Any interleaving, an event whose moment has not come being skipped, and then the rest of
      the queue served: no writer is left waiting. */
  method Run(events: seq<Event>, room: nat -> Option<nat>, fate: nat -> Outcome) returns (q: WriteQueue)
    ensures q.Valid() && q.arrivals == Arrivals(events)
    ensures q.writers == [] && q.leading.None? && q.tmpBatch == []
    ensures forall i: nat :: i < |q.arrivals| ==> i in q.done
  {
    hide Covers, Numbers, Logged, Inserted, Sealed, Told, NoSyncError, Joined, InOrder, GroupOps, GroupOk, Tell, IsGroup;
    q := new WriteQueue();
    for n := 0 to |events|
      invariant q.Valid() && fresh(q) && q.arrivals == Arrivals(events[..n])
    {
      assert events[..n + 1][..n] == events[..n];
      match events[n] {
        case Arrive(w) => var _ := q.Enqueue(w);
        case Front(fails) => if q.writers != [] && q.leading.None? { q.Lead(fails); }
        case Write(o) =>
          if q.leading.Some? { LeaderIsThere(q); }
          if q.leading.Some? && q.outcome.None? && (o.SyncError? ==> q.arrivals[q.leading.value.first].sync) { q.WriteGroup(o); }
        case Finish => if q.leading.Some? && q.outcome.Some? { q.Complete(); }
        case BackgroundError(code) => q.RecordBackgroundError(code);
      }
    }
    assert events[..|events|] == events;
    Drain(q, room, fate);
    AllTold(q);
  }

  lemma AllTold(q: WriteQueue)
    requires q.Valid() && q.writers == []
    ensures forall i: nat :: i < |q.arrivals| ==> i in q.done
  {
    hide Covers, Numbers, Logged, Inserted, Sealed;
  }

  lemma LeaderIsThere(q: WriteQueue)
    requires q.Valid() && q.leading.Some?
    ensures q.leading.value.first < |q.arrivals|
  {
    hide Covers, Numbers, Logged, Inserted, Sealed, Told, NoSyncError, Joined;
  }

  /** The front of the queue leads, writes and completes, until no one waits. */
  method Drain(q: WriteQueue, room: nat -> Option<nat>, fate: nat -> Outcome)
    requires q.Valid()
    modifies q
    ensures q.Valid() && q.writers == [] && q.leading.None? && q.tmpBatch == [] && q.arrivals == old(q.arrivals)
  {
    hide Covers, Numbers, Logged, Inserted, Sealed, Told, IsGroup, Tell, GroupOps, GroupOk, Joined;
    while q.writers != [] || q.leading.Some?
      invariant q.Valid() && q.arrivals == old(q.arrivals)
      decreases |q.writers|, q.leading.None?, q.outcome.None?
    {
      if q.leading.None? {
        q.Lead(room(|q.writers|));
      } else if q.outcome.None? {
        LeaderIsThere(q);
        var o := fate(|q.writers|);
        if o.SyncError? && !q.arrivals[q.leading.value.first].sync { o := Fine; }
        q.WriteGroup(o);
      } else {
        q.Complete();
      }
    }
  }
}
