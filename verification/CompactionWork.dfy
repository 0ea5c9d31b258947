/** The compaction loop (db/db_impl.cc, DBImpl::DoCompactionWork). */
module CompactionWork {
  import opened Dbformat
  import opened Version
  import opened InputSelection
  import opened CompactionMeaning

  /** The output files one after the other. */
  function Flatten<T>(outputs: seq<seq<T>>): seq<T> {
    if outputs == [] then [] else Flatten(outputs[..|outputs| - 1]) + outputs[|outputs| - 1]
  }

  lemma FlattenAppend<T>(outputs: seq<seq<T>>, o: seq<T>)
    ensures Flatten(outputs + [o]) == Flatten(outputs) + o
  {
    assert (outputs + [o])[..|outputs|] == outputs;
  }

  /** The entries among the first `n` that the rules keep. */
  ghost function KeptSeq(input: seq<Entry>, n: nat, base: iset<UserKey>, snapshot: SeqNo): seq<Entry>
    requires n <= |input|
  {
    if n == 0 then []
    else KeptSeq(input, n - 1, base, snapshot)
         + if Dropped(Elements(input), base, snapshot, input[n - 1]) then [] else [input[n - 1]]
  }

  /** last_sequence_for_key when the loop reaches entry `i`. */
  function LastSequenceForKey(input: seq<Entry>, i: nat): SeqNo
    requires i < |input|
  {
    if i > 0 && input[i - 1].key.ukey == input[i].key.ukey then input[i - 1].key.seqno else MAX_SEQUENCE
  }

  /** Looking at the entry just before is enough to decide rule (A). */
  lemma LastSequenceDecidesHidden(input: seq<Entry>, i: nat, snapshot: SeqNo)
    requires Sorted(input) && UniqueSeqs(Elements(input)) && i < |input| && snapshot < MAX_SEQUENCE
    ensures LastSequenceForKey(input, i) <= snapshot <==> Hidden(Elements(input), snapshot, input[i])
  {
    var e := input[i];
    if LastSequenceForKey(input, i) <= snapshot {
      var d := input[i - 1];
      assert d in Elements(input) && e in Elements(input) && Less(d.key, e.key);
      assert Hidden(Elements(input), snapshot, e);
    }
    if Hidden(Elements(input), snapshot, e) {
      var x :| x in Elements(input) && x.key.ukey == e.key.ukey && e.key.seqno < x.key.seqno <= snapshot;
      var j :| 0 <= j < |input| && input[j] == x;
      assert j < i;
      assert j < i - 1 ==> Less(x.key, input[i - 1].key);
      assert Less(input[i - 1].key, e.key);
    }
  }

  ghost function BaseKeys(v: Version, level: nat): iset<UserKey> {
    iset k | BaseLevelFor(v, level, k)
  }

  lemma KeptStep(input: seq<Entry>, i: nat, base: iset<UserKey>, snapshot: SeqNo)
    requires i < |input|
    ensures KeptSeq(input, i + 1, base, snapshot) == KeptSeq(input, i, base, snapshot)
      + if Dropped(Elements(input), base, snapshot, input[i]) then [] else [input[i]]
  {}

  lemma FlattenNone<T>()
    ensures Flatten<T>([]) == []
  {}

  lemma KeptNone(input: seq<Entry>, base: iset<UserKey>, snapshot: SeqNo)
    ensures KeptSeq(input, 0, base, snapshot) == []
  {}

  lemma NeighboursInOrder(input: seq<Entry>, i: nat)
    requires Sorted(input) && 0 < i < |input|
    ensures Less(input[i - 1].key, input[i].key)
  {}

  /** What a reader no older than `snapshot` could do without is gone: of the entries for a
      user key at most the last is old, and it is no tombstone over empty deeper levels. */
  ghost predicate NothingNeedless(out: seq<Entry>, v: Version, level: nat, snapshot: SeqNo) {
    && (forall i, j :: 0 <= i < j < |out| && out[i].key.ukey == out[j].key.ukey ==> out[i].key.seqno > snapshot)
    && forall e :: e in out && e.key.kind.Deletion? && e.key.seqno <= snapshot ==> !BaseLevelFor(v, level, e.key.ukey)
  }

  /** What is gone was covered by a newer entry of the same user key that is old itself, or was
      an old tombstone over empty deeper levels. */
  ghost predicate NothingMissing(input: seq<Entry>, out: seq<Entry>, v: Version, level: nat, snapshot: SeqNo) {
    && (forall e :: e in out ==> e in input)
    && forall e :: e in input && e !in out ==>
        || (exists x :: x in input && x.key.ukey == e.key.ukey && e.key.seqno < x.key.seqno <= snapshot)
        || (e.key.kind.Deletion? && e.key.seqno <= snapshot && BaseLevelFor(v, level, e.key.ukey))
  }

  /** The loop over the merged inputs.  `stopBefore` and `full` are the answers of
      ShouldStopBefore and of the size test, which only decide where files are cut. */
  method DoCompactionWork(c: Compaction, input: seq<Entry>, snapshot: SeqNo, stopBefore: seq<bool>, full: seq<bool>)
    returns (outputs: seq<seq<Entry>>)
    requires c.Valid() && c.lastQuery == None
    requires Sorted(input) && UniqueSeqs(Elements(input))
    requires |stopBefore| == |full| == |input|
    modifies c`levelPtrs, c`lastQuery
    ensures [] !in outputs
    ensures Flatten(outputs) == KeptSeq(input, |input|, BaseKeys(c.inputVersion, c.level), snapshot)
    ensures Sorted(Flatten(outputs))
    ensures snapshot == MAX_SEQUENCE ==> Flatten(outputs) == []
    ensures snapshot < MAX_SEQUENCE ==>
              && NothingNeedless(Flatten(outputs), c.inputVersion, c.level, snapshot)
              && NothingMissing(input, Flatten(outputs), c.inputVersion, c.level, snapshot)
  {
    hide UniqueSeqs, Hidden, Sorted, KeptSeq, Flatten, NothingNeedless, NothingMissing;
    FlattenNone<Entry>();
    KeptNone(input, BaseKeys(c.inputVersion, c.level), snapshot);
    ghost var base := BaseKeys(c.inputVersion, c.level);
    outputs := [];
    var builder: seq<Entry> := [];
    var currentUserKey: Option<UserKey> := None;
    var lastSequenceForKey: SeqNo := MAX_SEQUENCE;
    for i := 0 to |input|
      invariant c.Valid() && (c.lastQuery.Some? ==> i > 0 && c.lastQuery.value <= input[i - 1].key.ukey)
      invariant if i == 0 then currentUserKey.None? else
                  currentUserKey == Some(input[i - 1].key.ukey) && lastSequenceForKey == input[i - 1].key.seqno
      invariant [] !in outputs
      invariant Flatten(outputs) + builder == KeptSeq(input, i, base, snapshot)
    {
      var e := input[i];
      if stopBefore[i] && builder != [] {
        FlattenAppend(outputs, builder);
        outputs, builder := outputs + [builder], [];
      }
      var drop := false;
      if currentUserKey != Some(e.key.ukey) {
        currentUserKey := Some(e.key.ukey);
        lastSequenceForKey := MAX_SEQUENCE;
      }
      assert lastSequenceForKey == LastSequenceForKey(input, i);
      if i > 0 { NeighboursInOrder(input, i); }
      if snapshot < MAX_SEQUENCE { LastSequenceDecidesHidden(input, i, snapshot); }
      if lastSequenceForKey <= snapshot {
        drop := true;
      } else if e.key.kind.Deletion? && e.key.seqno <= snapshot {
        drop := c.IsBaseLevelForKey(e.key.ukey);
      }
      lastSequenceForKey := e.key.seqno;
      KeptStep(input, i, base, snapshot);
      assert drop == Dropped(Elements(input), base, snapshot, e);
      assert Flatten(outputs) + (builder + [e]) == Flatten(outputs) + builder + [e];
      if !drop {
        builder := builder + [e];
        if full[i] {
          FlattenAppend(outputs, builder);
          outputs, builder := outputs + [builder], [];
        }
      }
    }
    if builder != [] {
      FlattenAppend(outputs, builder);
      outputs := outputs + [builder];
    }
    KeptSeqSorted(input, |input|, base, snapshot);
    KeptIsTight(input, c.inputVersion, c.level, snapshot);
  }

  // ---- the outputs as a set and as files --------------------------------------

  /** The loop keeps exactly the entries that the meaning of a compaction keeps. */
  lemma {:induction false} KeptSeqElements(input: seq<Entry>, n: nat, base: iset<UserKey>, snapshot: SeqNo)
    requires n <= |input|
    ensures forall e :: e in KeptSeq(input, n, base, snapshot) <==>
              e in input[..n] && !Dropped(Elements(input), base, snapshot, e)
  {
    if n > 0 {
      KeptSeqElements(input, n - 1, base, snapshot);
      assert input[..n] == input[..n - 1] + [input[n - 1]];
    }
  }

  lemma {:induction false} KeptSeqSorted(input: seq<Entry>, n: nat, base: iset<UserKey>, snapshot: SeqNo)
    requires n <= |input| && Sorted(input)
    ensures Sorted(KeptSeq(input, n, base, snapshot))
  {
    if n > 0 {
      KeptSeqSorted(input, n - 1, base, snapshot);
      KeptSeqElements(input, n - 1, base, snapshot);
      var k := KeptSeq(input, n - 1, base, snapshot);
      forall i | 0 <= i < |k| ensures Less(k[i].key, input[n - 1].key) {
        assert k[i] in k;
        var j :| 0 <= j < n - 1 && input[..n - 1][j] == k[i];
      }
    }
  }

  lemma NoneIn<T>(s: seq<T>)
    ensures (forall x :: x !in s) ==> s == []
  {
    if s != [] { assert s[0] in s; }
  }

  lemma KeptIsTight(input: seq<Entry>, v: Version, level: nat, snapshot: SeqNo)
    requires Sorted(input) && UniqueSeqs(Elements(input))
    ensures var out := KeptSeq(input, |input|, BaseKeys(v, level), snapshot);
      && (snapshot == MAX_SEQUENCE ==> out == [])
      && (snapshot < MAX_SEQUENCE ==> NothingNeedless(out, v, level, snapshot) && NothingMissing(input, out, v, level, snapshot))
  {
    hide KeptSeq, BaseLevelFor;
    var out := KeptSeq(input, |input|, BaseKeys(v, level), snapshot);
    KeptSeqElements(input, |input|, BaseKeys(v, level), snapshot);
    KeptSeqSorted(input, |input|, BaseKeys(v, level), snapshot);
    assert input[..|input|] == input;
    if snapshot == MAX_SEQUENCE {
      NoneIn(out);
    } else {
      forall i, j | 0 <= i < j < |out| && out[i].key.ukey == out[j].key.ukey ensures out[i].key.seqno > snapshot {
        var x, y := out[i], out[j];
        assert Less(x.key, y.key) && x in out && y in out;
        assert x in Elements(input) && y in Elements(input) && x.key.seqno > y.key.seqno;
        assert !Hidden(Elements(input), snapshot, y);
      }
    }
  }

  /** Cutting a sorted sequence gives sorted pieces in order. */
  lemma {:induction false} PiecesInOrder(outputs: seq<seq<Entry>>)
    requires Sorted(Flatten(outputs))
    ensures forall i :: 0 <= i < |outputs| ==> Sorted(outputs[i])
    ensures forall i, j, x, y :: 0 <= i < j < |outputs| && x in outputs[i] && y in outputs[j] ==> Less(x.key, y.key)
    ensures forall e :: e in Flatten(outputs) <==> exists i :: 0 <= i < |outputs| && e in outputs[i]
  {
    if outputs != [] {
      hide Sorted, Flatten;
      var n := |outputs| - 1;
      FlattenLast(outputs);
      SortedParts(Flatten(outputs[..n]), outputs[n]);
      PiecesInOrder(outputs[..n]);
    } else {
      assert Flatten(outputs) == [];
    }
  }

  lemma FlattenLast<T>(outputs: seq<seq<T>>)
    requires outputs != []
    ensures Flatten(outputs) == Flatten(outputs[..|outputs| - 1]) + outputs[|outputs| - 1]
  {}

  lemma SortedParts(a: seq<Entry>, b: seq<Entry>)
    requires Sorted(a + b)
    ensures Sorted(a) && Sorted(b) && forall x, y :: x in a && y in b ==> Less(x.key, y.key)
  {
    var all := a + b;
    assert forall i :: 0 <= i < |a| ==> a[i] == all[i];
    assert forall i :: 0 <= i < |b| ==> b[i] == all[|a| + i];
    forall x, y | x in a && y in b ensures Less(x.key, y.key) {
      var i :| 0 <= i < |a| && a[i] == x;
      var j :| 0 <= j < |b| && b[j] == y;
      assert all[i] == x && all[|a| + j] == y;
    }
  }
}
