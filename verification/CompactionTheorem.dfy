/** Exactly when a compaction preserves meaning, in terms of a check on the files
    (db/db_impl.cc, db/version_set.cc).

    SetupOtherInputs adds boundary files at `level` but not at `level + 1`.  A user key
    on which the inputs of level+1 stop and the next file goes on can therefore lose
    its tombstone and get back an older value. */
module CompactionTheorem {
  import opened Dbformat
  import opened Version
  import opened InputSelection
  import opened CompactionMeaning
  import opened CompactionWork
  import opened CompactionScene

  /** The check a caller could make: `g` goes on with the last user key of the inputs of
      level+1 and starts with a value for it, while the newest entry for that key at the
      smallest snapshot is an input tombstone with nothing in deeper levels. */
  ghost predicate BoundaryTombstone(upper: set<Entry>, v: Version, level: nat, inputs0: seq<File>, inputs1: seq<File>,
                                    snapshot: SeqNo, g: File, t: Entry)
    requires |v| == NUM_LEVELS && level + 1 < NUM_LEVELS
  {
    && inputs1 != [] && IsSmallestBoundary(v[level + 1], LargestKey(inputs1), g)
    && g.smallest.kind.Put?
    && Newest(upper + VersionEntries(v), g.smallest.ukey, snapshot, t)
    && t in FilesEntries(inputs0) + FilesEntries(inputs1) && t.key.kind.Deletion?
    && BaseLevelFor(v, level, g.smallest.ukey)
  }

  lemma NextFileIsBoundary(files: seq<File>, b: nat)
    requires SortedDisjoint(files) && 0 < b < |files| && files[b].smallest.ukey == files[b - 1].largest.ukey
    ensures IsSmallestBoundary(files, files[b - 1].largest, files[b])
  {
    forall f | f in files && IsBoundary(f, files[b - 1].largest) ensures !Less(f.smallest, files[b].smallest) {
      var j :| 0 <= j < |files| && files[j] == f;
      assert b < j ==> Less(files[b].smallest, f.smallest);
    }
  }

  // A key that goes on behind position b goes on in file b itself.
  lemma KeyGoesOnNext(files: seq<File>, b: nat, i: nat, j: nat, t: Entry, y: Entry)
    requires SortedDisjoint(files) && j < b <= i < |files| && Intact(files[i]) && Intact(files[j])
    requires t in files[j].entries && y in files[i].entries && t.key.ukey == y.key.ukey
    ensures files[b - 1].largest.ukey == t.key.ukey == files[b].smallest.ukey
    ensures !Less(y.key, files[b].smallest)
  {
    assert j < b - 1 ==> Less(files[j].largest, files[b - 1].smallest);
    assert b < i ==> Less(files[b].largest, files[i].smallest);
    assert Less(files[b - 1].largest, files[b].smallest);
  }

  lemma EarlierEntryEarlierFile(files: seq<File>, i: nat, j: nat, t: Entry, y: Entry)
    requires SortedDisjoint(files) && i < |files| && j < |files| && Intact(files[i]) && Intact(files[j])
    requires t in files[j].entries && y in files[i].entries
    ensures Less(t.key, y.key) ==> j <= i
  {
    if i < j { assert Less(files[i].largest, files[j].smallest); }
  }

  /** Older data left at the next level for a key of its inputs starts with the boundary
      file of the inputs. */
  lemma OlderLeftOverIsBoundary(next: seq<File>, inputs1: seq<File>, begin: Bound, end: Bound, t: Entry, y: Entry)
    returns (g: File)
    requires SortedDisjoint(next) && AllIntact(next)
    requires inputs1 == OverlapFilter(next, begin, end)
    requires t in FilesEntries(inputs1) && y in FilesEntries(LeftOver(next, inputs1))
    requires t.key.ukey == y.key.ukey && Less(t.key, y.key)
    ensures inputs1 != [] && IsSmallestBoundary(next, LargestKey(inputs1), g)
    ensures g.smallest.ukey == t.key.ukey && !Less(y.key, g.smallest)
  {
    var h :| h in inputs1 && t in h.entries;
    var f :| f in LeftOver(next, inputs1) && y in f.entries;
    assert Intact(h) && Intact(f);
    var a, b := OverlapIsSlice(next, begin, end);
    var i, j := SliceIndices(next, a, b, f, h);
    EarlierEntryEarlierFile(next, i, j, t, y);
    KeyGoesOnNext(next, b, i, j, t, y);
    NextFileIsBoundary(next, b);
    SliceKeys(next, a, b);
    g := next[b];
  }

  lemma SmallestBoundaryIsUnique(files: seq<File>, largest: IKey, f: File, g: File)
    requires IsSmallestBoundary(files, largest, f) && IsSmallestBoundary(files, largest, g)
    ensures f.smallest == g.smallest
  {
    CompareIsOrder(f.smallest, g.smallest, f.smallest);
  }

  lemma OlderComesLater(es: set<Entry>, x: Entry, y: Entry)
    requires UniqueSeqs(es) && x in es && y in es && x != y && x.key.ukey == y.key.ukey
    ensures Less(x.key, y.key) <==> y.key.seqno < x.key.seqno
  {}

  // A boundary file is no input, and its first entry stands behind all inputs.
  lemma BoundaryIsBehind(next: seq<File>, inputs1: seq<File>, g: File) returns (w: Entry)
    requires AllIntact(next) && inputs1 != [] && AllIntact(inputs1)
    requires g in next && IsBoundary(g, LargestKey(inputs1))
    ensures w in FilesEntries(LeftOver(next, inputs1)) && w.key == g.smallest
    ensures forall t :: t in FilesEntries(inputs1) ==> Less(t.key, w.key)
  {
    assert Intact(g);
    w :| w in g.entries && w.key == g.smallest;
    KeysAreRange(inputs1);
    assert g in LeftOver(next, inputs1);
    forall t | t in FilesEntries(inputs1) ensures Less(t.key, w.key) {
      var h :| h in inputs1 && t in h.entries;
      assert Intact(h);
    }
  }

  /** What is left of a tombstone's key starts with the first key of the boundary file. */
  lemma LeftOverStartsAtBoundary(before: set<Entry>, next: seq<File>, inputs1: seq<File>, begin: Bound, end: Bound,
                                 k: UserKey, snapshot: SeqNo, t: Entry, z: Entry) returns (g: File)
    requires SortedDisjoint(next) && AllIntact(next) && inputs1 == OverlapFilter(next, begin, end)
    requires UniqueSeqs(before) && FilesEntries(LeftOver(next, inputs1)) <= before
    requires Newest(before, k, snapshot, t) && t in FilesEntries(inputs1)
    requires Newest(FilesEntries(LeftOver(next, inputs1)), k, snapshot, z) && z != t
    ensures inputs1 != [] && IsSmallestBoundary(next, LargestKey(inputs1), g)
    ensures g.smallest == z.key
  {
    OlderComesLater(before, t, z);
    g := OlderLeftOverIsBoundary(next, inputs1, begin, end, t, z);
    var w := BoundaryIsBehind(next, inputs1, g);
    assert Less(t.key, w.key) && w in before;
    assert Matches(w, k, snapshot);
    assert w.key.seqno <= z.key.seqno && z in before;
    assert w == z;
  }

  lemma LeftSideOfScene(upper: set<Entry>, v: Version, level: nat, inputs0: seq<File>, inputs1: seq<File>)
    requires WellOrdered(upper, v) && Selected(v, level, inputs0, inputs1)
    ensures var c := SceneOf(upper, v, level, inputs0, inputs1);
      && c.Valid() && c.Before() == upper + VersionEntries(v) && UniqueSeqs(c.Before())
      && c.left1 <= c.Before() && c.Inputs() <= c.Before() && c.left1 !! c.Inputs()
      && forall x, y :: x in c.Inputs() && y in c.left1 && x.key.ukey == y.key.ukey ==> x in c.in1
    ensures SortedDisjoint(v[level + 1]) && AllIntact(v[level + 1]) && AllIntact(inputs1)
  {
    SceneIsValid(upper, v, level, inputs0, inputs1);
    assert LevelOk(level + 1, v[level + 1]);
  }

  /** A resurrection comes from a boundary tombstone ... */
  lemma ResurrectionIsAtBoundary(upper: set<Entry>, v: Version, level: nat, inputs0: seq<File>, inputs1: seq<File>,
                                 snapshot: SeqNo, k: UserKey, t: Entry) returns (g: File)
    requires WellOrdered(upper, v) && Selected(v, level, inputs0, inputs1)
    requires Resurrects(SceneOf(upper, v, level, inputs0, inputs1), snapshot, k, t)
    ensures BoundaryTombstone(upper, v, level, inputs0, inputs1, snapshot, g, t)
  {
    var c := SceneOf(upper, v, level, inputs0, inputs1);
    LeftSideOfScene(upper, v, level, inputs0, inputs1);
    VisibleSpec(c.left1, k, snapshot);
    var z := Visible(c.left1, k, snapshot).value;
    g := LeftOverStartsAtBoundary(c.Before(), v[level + 1], inputs1, Some(SmallestKey(inputs0).ukey),
                                  Some(LargestKey(inputs0).ukey), k, snapshot, t, z);
  }

  /** ... and every boundary tombstone is one. */
  lemma BoundaryTombstoneResurrects(upper: set<Entry>, v: Version, level: nat, inputs0: seq<File>, inputs1: seq<File>,
                                    snapshot: SeqNo, g: File, t: Entry)
    requires WellOrdered(upper, v) && Selected(v, level, inputs0, inputs1)
    requires BoundaryTombstone(upper, v, level, inputs0, inputs1, snapshot, g, t)
    ensures Resurrects(SceneOf(upper, v, level, inputs0, inputs1), snapshot, g.smallest.ukey, t)
  {
    var c := SceneOf(upper, v, level, inputs0, inputs1);
    LeftSideOfScene(upper, v, level, inputs0, inputs1);
    var k := g.smallest.ukey;
    var w := BoundaryIsBehind(v[level + 1], inputs1, g);
    assert t in c.in1 && Less(t.key, w.key);
    VisibleSpec(c.left1, k, snapshot);
    assert Matches(w, k, snapshot) by { OlderComesLater(c.Before(), t, w); }
    var z := Visible(c.left1, k, snapshot).value;
    var g' := LeftOverStartsAtBoundary(c.Before(), v[level + 1], inputs1, Some(SmallestKey(inputs0).ukey),
                                       Some(LargestKey(inputs0).ukey), k, snapshot, t, z);
    SmallestBoundaryIsUnique(v[level + 1], LargestKey(inputs1), g, g');
  }

  /** What a boundary tombstone does: a key that read as absent reads as present. */
  lemma BoundaryTombstoneShows(upper: set<Entry>, v: Version, level: nat, inputs0: seq<File>, inputs1: seq<File>,
                               snapshot: SeqNo, g: File, t: Entry)
    requires WellOrdered(upper, v) && Selected(v, level, inputs0, inputs1)
    requires BoundaryTombstone(upper, v, level, inputs0, inputs1, snapshot, g, t) && snapshot < MAX_SEQUENCE
    ensures Read(upper + VersionEntries(v), g.smallest.ukey, snapshot).None?
    ensures Read(After(SceneOf(upper, v, level, inputs0, inputs1), snapshot), g.smallest.ukey, snapshot).Some?
  {
    BoundaryTombstoneResurrects(upper, v, level, inputs0, inputs1, snapshot, g, t);
    SceneIsValid(upper, v, level, inputs0, inputs1);
    ResurrectionShows(SceneOf(upper, v, level, inputs0, inputs1), snapshot, g.smallest.ukey, t);
  }

  /** When a compaction loses something: it meets a boundary tombstone at level+1, or the
      smallest snapshot is the largest sequence number and an input is exposed. */
  ghost predicate LosesData(upper: set<Entry>, v: Version, level: nat, inputs0: seq<File>, inputs1: seq<File>, snapshot: SeqNo)
    requires |v| == NUM_LEVELS && level + 1 < NUM_LEVELS
  {
    if snapshot < MAX_SEQUENCE then exists g, t :: BoundaryTombstone(upper, v, level, inputs0, inputs1, snapshot, g, t)
    else exists t :: Exposed(SceneOf(upper, v, level, inputs0, inputs1), t)
  }

  lemma ForgetsIsLosesData(upper: set<Entry>, v: Version, level: nat, inputs0: seq<File>, inputs1: seq<File>, snapshot: SeqNo)
    requires WellOrdered(upper, v) && Selected(v, level, inputs0, inputs1)
    ensures Forgets(SceneOf(upper, v, level, inputs0, inputs1), snapshot)
       <==> LosesData(upper, v, level, inputs0, inputs1, snapshot)
  {
    var c := SceneOf(upper, v, level, inputs0, inputs1);
    if snapshot < MAX_SEQUENCE {
      if k, t :| Resurrects(c, snapshot, k, t) {
        var g := ResurrectionIsAtBoundary(upper, v, level, inputs0, inputs1, snapshot, k, t);
      }
      forall g, t | BoundaryTombstone(upper, v, level, inputs0, inputs1, snapshot, g, t)
        ensures Resurrects(c, snapshot, g.smallest.ukey, t)
      {
        BoundaryTombstoneResurrects(upper, v, level, inputs0, inputs1, snapshot, g, t);
      }
    }
  }

  /** The compaction of any selected inputs keeps every read at or after the smallest
      snapshot if and only if it does not lose data in one of those two ways. */
  lemma CompactionPreservesReadsIff(upper: set<Entry>, v: Version, level: nat, inputs0: seq<File>, inputs1: seq<File>,
                                    snapshot: SeqNo)
    requires WellOrdered(upper, v) && Selected(v, level, inputs0, inputs1)
    ensures (forall k, s :: snapshot <= s ==>
               Read(After(SceneOf(upper, v, level, inputs0, inputs1), snapshot), k, s)
               == Read(upper + VersionEntries(v), k, s))
       <==> !LosesData(upper, v, level, inputs0, inputs1, snapshot)
  {
    hide LosesData, Forgets, After;
    SceneIsValid(upper, v, level, inputs0, inputs1);
    MeaningKeptIff(SceneOf(upper, v, level, inputs0, inputs1), snapshot);
    ForgetsIsLosesData(upper, v, level, inputs0, inputs1, snapshot);
  }

  /** In particular, when no file of level+1 goes on with the last user key of the
      inputs, every read at or after the smallest snapshot is kept. */
  lemma CompactionPreservesReads(upper: set<Entry>, v: Version, level: nat, inputs0: seq<File>, inputs1: seq<File>,
                                 snapshot: SeqNo, k: UserKey, s: SeqNo)
    requires WellOrdered(upper, v) && Selected(v, level, inputs0, inputs1) && snapshot <= s && snapshot < MAX_SEQUENCE
    requires inputs1 != [] ==> NoBoundary(v[level + 1], LargestKey(inputs1))
    ensures Read(After(SceneOf(upper, v, level, inputs0, inputs1), snapshot), k, s)
         == Read(upper + VersionEntries(v), k, s)
  {
    CompactionPreservesReadsIff(upper, v, level, inputs0, inputs1, snapshot);
  }
}
