/** The user's iterator: a cursor over the map visible at one sequence number
    (db/db_iter.cc).  The internal iterator it moves is a cursor over one sorted run of
    entries; MergingIterator.dfy proves that of the iterator it is given. */
module DbIter {
  import opened Dbformat
  import opened Runs

  predicate InView(e: Entry, s: SeqNo) { e.key.seqno <= s }

  /** The entry at `i` is what a read of its user key at `s` returns. */
  ghost predicate Shown(run: seq<Entry>, s: SeqNo, i: nat) {
    && i < |run| && InView(run[i], s) && run[i].key.kind.Put?
    && forall j :: 0 <= j < i && run[j].key.ukey == run[i].key.ukey ==> !InView(run[j], s)
  }

  ghost predicate NoneShown(run: seq<Entry>, s: SeqNo, from: int, to: int) {
    forall j: nat :: from <= j < to ==> !Shown(run, s, j)
  }

  ghost predicate NoneInView(run: seq<Entry>, s: SeqNo, from: int, to: int) {
    forall j :: 0 <= j < |run| && from <= j < to ==> !InView(run[j], s)
  }

  /** The first shown entry at or after `from`, and the last one before `to`. */
  ghost predicate FirstShown(run: seq<Entry>, s: SeqNo, from: int, r: Option<nat>) {
    if r.Some? then r.value >= from && Shown(run, s, r.value) && NoneShown(run, s, from, r.value)
    else NoneShown(run, s, from, |run|)
  }

  ghost predicate LastShown(run: seq<Entry>, s: SeqNo, to: int, r: Option<nat>) {
    if r.Some? then r.value < to && Shown(run, s, r.value) && NoneShown(run, s, r.value + 1, to)
    else NoneShown(run, s, 0, to)
  }

  lemma KeysIncrease(run: seq<Entry>, i: nat, j: nat)
    requires Sorted(run) && i <= j < |run|
    ensures run[i].key.ukey <= run[j].key.ukey
  {}

  // ---- FindNextUserEntry ---------------------------------------------------------------

  datatype Skip = Skip(on: bool, key: UserKey) {
    predicate Hides(k: UserKey) { on && k <= key }
  }

  /** Everything that an entry before `p` in view decides is covered by the skip key. */
  ghost predicate Clean(run: seq<Entry>, s: SeqNo, p: nat, skip: Skip) {
    && (forall i, j :: 0 <= i < p <= j < |run| && InView(run[i], s) && run[i].key.ukey == run[j].key.ukey ==>
          skip.Hides(run[j].key.ukey))
    && (skip.on ==> forall j :: p <= j < |run| && InView(run[j], s) ==> skip.key <= run[j].key.ukey)
  }

  /** A shown entry that the scan must not pass. */
  ghost predicate Wanted(run: seq<Entry>, s: SeqNo, skip: Skip, j: nat) {
    Shown(run, s, j) && !skip.Hides(run[j].key.ukey)
  }

  lemma PassTombstone(run: seq<Entry>, s: SeqNo, p: nat, skip: Skip)
    requires Sorted(run) && p < |run| && Clean(run, s, p, skip) && InView(run[p], s)
    ensures Clean(run, s, p + 1, Skip(true, run[p].key.ukey))
    ensures forall j :: p < j && Wanted(run, s, skip, j) ==> Wanted(run, s, Skip(true, run[p].key.ukey), j)
  {
    forall j | p <= j < |run| ensures run[p].key.ukey <= run[j].key.ukey { KeysIncrease(run, p, j); }
    forall i | 0 <= i <= p ensures run[i].key.ukey <= run[p].key.ukey { KeysIncrease(run, i, p); }
  }

  /** The scan from `p`: returns where it stops. */
  method FindNextUserEntry(run: seq<Entry>, s: SeqNo, start: nat, skip0: Skip) returns (r: Option<nat>)
    requires Sorted(run) && start < |run| && Clean(run, s, start, skip0)
    ensures r.Some? ==> start <= r.value < |run| && Wanted(run, s, skip0, r.value)
    ensures forall j: nat :: start <= j < (if r.Some? then r.value else |run|) ==> !Wanted(run, s, skip0, j)
  {
    var p, skip := start, skip0;
    while p < |run|
      invariant start <= p <= |run| && Clean(run, s, p, skip)
      invariant forall j: nat :: start <= j < p ==> !Wanted(run, s, skip0, j)
      invariant forall j: nat :: p <= j < |run| && Wanted(run, s, skip0, j) ==> Wanted(run, s, skip, j)
      invariant skip0.on ==> skip.on && skip0.key <= skip.key
    {
      var e := run[p];
      if InView(e, s) {
        match e.key.kind
        case Deletion =>
          PassTombstone(run, s, p, skip);
          skip := Skip(true, e.key.ukey);
        case Put =>
          if skip.Hides(e.key.ukey) {
          } else {
            return Some(p);
          }
      }
      p := p + 1;
    }
    return None;
  }

  // ---- FindPrevUserEntry ---------------------------------------------------------------

  /** What the backward scan has kept: the last entry in view it saw, if that is a value. */
  ghost predicate Candidate(run: seq<Entry>, s: SeqNo, p: int, end: int, c: nat) {
    && p < c < end <= |run| && InView(run[c], s) && run[c].key.kind.Put?
    && NoneInView(run, s, p + 1, c) && NoneShown(run, s, c + 1, end)
  }

  lemma CandidateIsShown(run: seq<Entry>, s: SeqNo, p: int, end: int, c: nat)
    requires Sorted(run) && Candidate(run, s, p, end, c) && -1 <= p
    requires p >= 0 ==> run[p].key.ukey < run[c].key.ukey
    ensures Shown(run, s, c)
  {
    forall j | 0 <= j < c && run[j].key.ukey == run[c].key.ukey ensures !InView(run[j], s) {
      if j <= p { KeysIncrease(run, j, p); }
    }
  }

  /** The scan backwards from `start`: where it stops, and the key and value saved. */
  method FindPrevUserEntry(run: seq<Entry>, s: SeqNo, start: Option<nat>)
    returns (p: Option<nat>, savedKey: Option<UserKey>, savedValue: Option<Value>, ghost c: Option<nat>)
    requires Sorted(run) && (start.Some? ==> start.value < |run|)
    ensures p.Some? ==> p.value < |run|
    ensures LastShown(run, s, if start.Some? then start.value + 1 else 0, c)
    ensures if c.Some? then
              && savedKey == Some(run[c.value].key.ukey) && savedValue == Some(run[c.value].value)
              && (p.Some? ==> p.value < c.value)
              && NoneInView(run, s, if p.Some? then p.value + 1 else 0, c.value)
            else savedKey == None && savedValue == None
  {
    ghost var end: int := if start.Some? then start.value + 1 else 0;
    var q: int := if start.Some? then start.value else -1;
    var valueType := Deletion;
    savedKey, savedValue, c := None, None, None;
    while q >= 0
      invariant -1 <= q < end <= |run| || (q == -1 && end == 0)
      invariant valueType.Put? ==> c.Some? && Candidate(run, s, q, end, c.value)
      invariant valueType.Put? ==> savedKey == Some(run[c.value].key.ukey) && savedValue == Some(run[c.value].value)
      invariant valueType.Deletion? ==> c.None? && savedKey.None? && savedValue.None? && NoneShown(run, s, q + 1, end)
    {
      var e := run[q];
      if InView(e, s) {
        if valueType.Put? && e.key.ukey < savedKey.value {
          CandidateIsShown(run, s, q, end, c.value);
          return Some(q), savedKey, savedValue, c;
        }
        SameKeyHides(run, s, q, end, c);
        valueType := e.key.kind;
        if valueType.Deletion? {
          savedKey, savedValue, c := None, None, None;
        } else {
          savedKey, savedValue, c := Some(e.key.ukey), Some(e.value), Some(q);
        }
      }
      q := q - 1;
    }
    if c.Some? { CandidateIsShown(run, s, -1, end, c.value); }
    p := None;
  }

  /** A newer entry of the candidate's own key hides the candidate. */
  lemma SameKeyHides(run: seq<Entry>, s: SeqNo, q: nat, end: int, c: Option<nat>)
    requires Sorted(run) && q < end <= |run| && InView(run[q], s)
    requires c.Some? ==> Candidate(run, s, q, end, c.value) && run[c.value].key.ukey <= run[q].key.ukey
    requires c.None? ==> NoneShown(run, s, q + 1, end)
    ensures NoneShown(run, s, q + 1, end)
  {
    if c.Some? {
      KeysIncrease(run, q, c.value);
      forall j: nat | q + 1 <= j < end ensures !Shown(run, s, j) {}
    }
  }

  // ---- the visible map --------------------------------------------------------------------

  ghost function Mapped(run: seq<Entry>, s: SeqNo, k: UserKey): Option<Value> { Read(Elements(run), k, s) }

  /** A shown entry is what its user key maps to. */
  lemma ShownIsMapped(run: seq<Entry>, s: SeqNo, i: nat)
    requires Sorted(run) && UniqueSeqs(Elements(run)) && Shown(run, s, i)
    ensures Mapped(run, s, run[i].key.ukey) == Some(run[i].value)
  {
    var e, k := run[i], run[i].key.ukey;
    forall x | x in Elements(run) && Matches(x, k, s) ensures x.key.seqno <= e.key.seqno {
      var j :| 0 <= j < |run| && run[j] == x;
      if i < j { OrderIsNewestFirst(e, x); }
    }
    assert e in Elements(run);
    assert Newest(Elements(run), k, s, e);
    VisibleIs(Elements(run), k, s, e);
  }

  /** Every mapped key is shown, once. */
  lemma MappedIsShown(run: seq<Entry>, s: SeqNo, k: UserKey) returns (i: nat)
    requires Sorted(run) && UniqueSeqs(Elements(run)) && Mapped(run, s, k).Some?
    ensures Shown(run, s, i) && run[i].key.ukey == k
  {
    VisibleSpec(Elements(run), k, s);
    var e := Visible(Elements(run), k, s).value;
    i :| 0 <= i < |run| && run[i] == e;
    forall j | 0 <= j < i && run[j].key.ukey == k ensures !InView(run[j], s) {
      OrderIsNewestFirst(run[j], e);
      assert run[j] in Elements(run);
      assert Less(run[j].key, e.key) && run[j].key.seqno > e.key.seqno;
    }
  }

  lemma ShownKeysIncrease(run: seq<Entry>, s: SeqNo, i: nat, j: nat)
    requires Sorted(run) && Shown(run, s, i) && Shown(run, s, j)
    ensures i < j <==> run[i].key.ukey < run[j].key.ukey
  {
    if i < j { KeysIncrease(run, i, j); } else { KeysIncrease(run, j, i); }
  }

  /** The entry of the map at a cursor. */
  ghost function EntryAt(run: seq<Entry>, r: Option<nat>): Option<(UserKey, Value)>
    requires r.Some? ==> r.value < |run|
  {
    if r.Some? then Some((run[r.value].key.ukey, run[r.value].value)) else None
  }

  /** The least entry of the map whose key the bound lets through. */
  ghost predicate LeastEntry(run: seq<Entry>, s: SeqNo, low: UserKey -> bool, r: Option<(UserKey, Value)>) {
    && (r.Some? ==> low(r.value.0) && Mapped(run, s, r.value.0) == Some(r.value.1))
    && forall k :: low(k) && Mapped(run, s, k).Some? ==> r.Some? && r.value.0 <= k
  }

  ghost predicate GreatestEntry(run: seq<Entry>, s: SeqNo, high: UserKey -> bool, r: Option<(UserKey, Value)>) {
    && (r.Some? ==> high(r.value.0) && Mapped(run, s, r.value.0) == Some(r.value.1))
    && forall k :: high(k) && Mapped(run, s, k).Some? ==> r.Some? && k <= r.value.0
  }

  lemma FirstShownIsLeast(run: seq<Entry>, s: SeqNo, from: int, r: Option<nat>, low: UserKey -> bool)
    requires Sorted(run) && UniqueSeqs(Elements(run)) && FirstShown(run, s, from, r)
    requires forall j: nat :: Shown(run, s, j) ==> (j >= from <==> low(run[j].key.ukey))
    ensures LeastEntry(run, s, low, EntryAt(run, r))
  {
    if r.Some? { ShownIsMapped(run, s, r.value); }
    forall k | low(k) && Mapped(run, s, k).Some? ensures r.Some? && run[r.value].key.ukey <= k {
      var j := MappedIsShown(run, s, k);
      assert j >= from;
      if r.Some? { ShownKeysIncrease(run, s, j, r.value); }
    }
  }

  lemma LastShownIsGreatest(run: seq<Entry>, s: SeqNo, to: int, r: Option<nat>, high: UserKey -> bool)
    requires Sorted(run) && UniqueSeqs(Elements(run)) && LastShown(run, s, to, r) && to <= |run|
    requires forall j: nat :: Shown(run, s, j) ==> (j < to <==> high(run[j].key.ukey))
    ensures GreatestEntry(run, s, high, EntryAt(run, r))
  {
    if r.Some? { ShownIsMapped(run, s, r.value); }
    forall k | high(k) && Mapped(run, s, k).Some? ensures r.Some? && k <= run[r.value].key.ukey {
      var j := MappedIsShown(run, s, k);
      assert j < to;
      if r.Some? { ShownKeysIncrease(run, s, r.value, j); }
    }
  }

  // ---- the iterator -------------------------------------------------------------------------

  class DBIter {
    const run: seq<Entry>
    const sequence: SeqNo
    var iter: Option<nat>   // where the internal iterator stands
    var forward: bool
    var valid: bool
    var savedKey: Option<UserKey>
    var savedValue: Option<Value>
    ghost var at: Option<nat>

    ghost predicate Valid()
      reads this
    {
      && Sorted(run) && UniqueSeqs(Elements(run)) && (iter.Some? ==> iter.value < |run|)
      && (valid <==> at.Some?)
      && (at.Some? ==>
            && Shown(run, sequence, at.value)
            && if forward then iter == at else
                 && savedKey == Some(run[at.value].key.ukey) && savedValue == Some(run[at.value].value)
                 && (iter.Some? ==> iter.value < at.value)
                 && NoneInView(run, sequence, if iter.Some? then iter.value + 1 else 0, at.value))
    }

    /** The entry of the map that the iterator stands on. */
    ghost function Current(): Option<(UserKey, Value)>
      requires Valid()
      reads this
    {
      EntryAt(run, at)
    }

    function Key(): (k: UserKey)
      requires Valid() && valid
      reads this
      ensures Current() == Some((k, Value()))
    {
      if forward then run[iter.value].key.ukey else savedKey.value
    }

    function Value(): Value
      requires Valid() && valid
      reads this
    {
      if forward then run[iter.value].value else savedValue.value
    }

    constructor (run: seq<Entry>, sequence: SeqNo)
      requires Sorted(run) && UniqueSeqs(Elements(run))
      ensures Valid() && !valid && this.run == run && this.sequence == sequence
    {
      this.run, this.sequence := run, sequence;
      iter, forward, valid, savedKey, savedValue, at := None, true, false, None, None, None;
    }

    method ScanForward(start: Option<nat>, skip: Skip)
      requires Sorted(run) && UniqueSeqs(Elements(run)) && (start.Some? ==> start.value < |run| && Clean(run, sequence, start.value, skip))
      modifies this
      ensures Valid() && forward
      ensures at.Some? ==> start.Some? && start.value <= at.value && Wanted(run, sequence, skip, at.value)
      ensures start.Some? ==> forall j: nat :: start.value <= j < (if at.Some? then at.value else |run|) ==>
                !Wanted(run, sequence, skip, j)
    {
      forward, iter := true, None;
      if start.Some? { iter := FindNextUserEntry(run, sequence, start.value, skip); }
      savedKey := None;
      at, valid := iter, iter.Some?;
    }

    method Seek(target: UserKey)
      requires Valid()
      modifies this
      ensures Valid() && LeastEntry(run, sequence, k => k >= target, Current())
    {
      var i := LowerBound(run, SeekKey(target, sequence));
      SeekIsClean(run, sequence, target);
      ScanForward(SeekPos(run, SeekKey(target, sequence)), Skip(false, target));
      ScanIsFirst(run, sequence, i, Skip(false, target), at);
      FirstShownIsLeast(run, sequence, i, at, k => k >= target);
    }

    method SeekToFirst()
      requires Valid()
      modifies this
      ensures Valid() && LeastEntry(run, sequence, k => true, Current())
    {
      ScanForward(if run != [] then Some(0) else None, Skip(false, 0.0));
      ScanIsFirst(run, sequence, 0, Skip(false, 0.0), at);
      FirstShownIsLeast(run, sequence, 0, at, k => true);
    }

    method Next()
      requires Valid() && valid
      modifies this
      ensures Valid()
      ensures var key := old(Key()); LeastEntry(run, sequence, k => k > key, Current())
    {
      var key := Key();
      ghost var i := at.value;
      var start;
      if forward {
        start := iter;
      } else {
        start := if iter.None? then Some(0) else NextPos(run, iter.value);
      }
      NextIsClean(run, sequence, start, i);
      ScanForward(start, Skip(true, key));
      NextIsFirst(run, sequence, start, i, at);
      FirstShownIsLeast(run, sequence, i + 1, at, k => k > key);
    }

    method ScanBackward(start: Option<nat>)
      requires Sorted(run) && UniqueSeqs(Elements(run)) && (start.Some? ==> start.value < |run|)
      modifies this
      ensures Valid()
      ensures LastShown(run, sequence, if start.Some? then start.value + 1 else 0, at)
    {
      forward := false;
      iter, savedKey, savedValue, at := FindPrevUserEntry(run, sequence, start);
      valid := savedKey.Some?;
      if !valid { forward := true; }
    }

    method SeekToLast()
      requires Valid()
      modifies this
      ensures Valid() && GreatestEntry(run, sequence, k => true, Current())
    {
      ScanBackward(if run != [] then Some(|run| - 1) else None);
      LastShownIsGreatest(run, sequence, |run|, at, k => true);
    }

    method Prev()
      requires Valid() && valid
      modifies this
      ensures Valid()
      ensures var key := old(Key()); GreatestEntry(run, sequence, k => k < key, Current())
    {
      var key := Key();
      ghost var i := at.value;
      if forward {
        var p: int := iter.value - 1;
        while p >= 0 && run[p].key.ukey >= key
          invariant -1 <= p < i
          invariant forall j :: p < j < i ==> run[j].key.ukey == key
        {
          KeysIncrease(run, p, i);
          p := p - 1;
        }
        if p < 0 {
          iter, valid, savedKey, savedValue, at := None, false, None, None, None;
          LastShownIsGreatest(run, sequence, i, at, k => k < key);
          return;
        }
        iter := Some(p);
      }
      ghost var end := if iter.Some? then iter.value + 1 else 0;
      assert NoneShown(run, sequence, end, i);
      ScanBackward(iter);
      assert LastShown(run, sequence, i, at);
      LastShownIsGreatest(run, sequence, i, at, k => k < key);
    }
  }

  lemma SeekIsClean(run: seq<Entry>, s: SeqNo, target: UserKey)
    requires Sorted(run)
    ensures Clean(run, s, LowerBound(run, SeekKey(target, s)), Skip(false, target))
    ensures forall j: nat :: Shown(run, s, j) ==> (j >= LowerBound(run, SeekKey(target, s)) <==> run[j].key.ukey >= target)
  {
    var p := LowerBound(run, SeekKey(target, s));
    LowerBoundSplits(run, SeekKey(target, s));
    forall i, j | 0 <= i < p <= j < |run| && InView(run[i], s) ensures run[i].key.ukey != run[j].key.ukey {
      SeekKeySplits(run[i], target, s);
      SeekKeySplits(run[j], target, s);
    }
    forall j: nat | Shown(run, s, j) ensures j >= p <==> run[j].key.ukey >= target {
      SeekKeySplits(run[j], target, s);
    }
  }

  lemma ScanIsFirst(run: seq<Entry>, s: SeqNo, from: nat, skip: Skip, r: Option<nat>)
    requires !skip.on && (r.Some? ==> from <= r.value && Wanted(run, s, skip, r.value))
    requires forall j: nat :: from <= j < (if r.Some? then r.value else |run|) ==> !Wanted(run, s, skip, j)
    ensures FirstShown(run, s, from, r)
  {
    forall j: nat | from <= j && Shown(run, s, j) ensures Wanted(run, s, skip, j) {}
  }

  /** Where Next starts its scan, in either direction. */
  ghost predicate NextStart(run: seq<Entry>, s: SeqNo, start: Option<nat>, i: nat) {
    start.Some? && start.value <= i && NoneInView(run, s, start.value, i)
  }

  lemma NextIsClean(run: seq<Entry>, s: SeqNo, start: Option<nat>, i: nat)
    requires Sorted(run) && Shown(run, s, i) && NextStart(run, s, start, i)
    ensures Clean(run, s, start.value, Skip(true, run[i].key.ukey))
  {
    forall j | i <= j < |run| ensures run[i].key.ukey <= run[j].key.ukey { KeysIncrease(run, i, j); }
    forall a | 0 <= a <= i ensures run[a].key.ukey <= run[i].key.ukey { KeysIncrease(run, a, i); }
  }

  lemma NextIsFirst(run: seq<Entry>, s: SeqNo, start: Option<nat>, i: nat, r: Option<nat>)
    requires Sorted(run) && Shown(run, s, i) && NextStart(run, s, start, i)
    requires r.Some? ==> start.value <= r.value && Wanted(run, s, Skip(true, run[i].key.ukey), r.value)
    requires forall j: nat :: start.value <= j < (if r.Some? then r.value else |run|) ==> !Wanted(run, s, Skip(true, run[i].key.ukey), j)
    ensures FirstShown(run, s, i + 1, r)
    ensures forall j: nat :: Shown(run, s, j) ==> (j >= i + 1 <==> run[j].key.ukey > run[i].key.ukey)
  {
    forall j: nat | Shown(run, s, j) ensures j >= i + 1 <==> run[j].key.ukey > run[i].key.ukey {
      ShownKeysIncrease(run, s, i, j);
    }
    forall j: nat | i + 1 <= j && Shown(run, s, j) ensures Wanted(run, s, Skip(true, run[i].key.ukey), j) {}
    if r.Some? { ShownKeysIncrease(run, s, i, r.value); }
  }
}
