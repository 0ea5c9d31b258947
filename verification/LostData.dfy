/** Two states of the database in which a compaction changes a read
    (db/db_impl.cc, DoCompactionWork; db/version_set.cc, SetupOtherInputs). */
module LostData {
  import opened Dbformat
  import opened Version
  import opened InputSelection
  import opened CompactionMeaning
  import opened CompactionWork
  import opened CompactionScene
  import opened CompactionTheorem
  import opened VersionBuilder
  import opened LevelSteps
  import opened Install
  import opened DbSteps

  const NEW_VALUE := Entry(IKey(0.0, 20, Put), [1])
  const OLD_VALUE := Entry(IKey(0.0, 3, Put), [2])
  const TOMBSTONE := Entry(IKey(1.0, 9, Deletion), [])
  const DELETED_VALUE := Entry(IKey(1.0, 5, Put), [7])

  // Key 1.0 was split over two files of level 2, its tombstone ending the first one.
  function Upstairs(): File { FileMetaData(3, 10, NEW_VALUE.key, NEW_VALUE.key, [NEW_VALUE]) }
  function Inside(): File { FileMetaData(2, 10, OLD_VALUE.key, TOMBSTONE.key, [OLD_VALUE, TOMBSTONE]) }
  function Beside(): File { FileMetaData(1, 10, DELETED_VALUE.key, DELETED_VALUE.key, [DELETED_VALUE]) }
  function SplitKeyVersion(): Version { [[], [Upstairs()], [Inside(), Beside()], [], [], [], []] }

  lemma SplitKeyVersionHolds(v: Version)
    requires v == SplitKeyVersion()
    ensures forall e :: e in VersionEntries(v) <==> e in {NEW_VALUE, OLD_VALUE, TOMBSTONE, DELETED_VALUE}
    ensures FilesEntries(v[1]) == {NEW_VALUE} && FilesEntries(v[2]) == {OLD_VALUE, TOMBSTONE, DELETED_VALUE}
    ensures forall l :: 0 <= l < 7 && l != 1 && l != 2 ==> FilesEntries(v[l]) == {}
  {
    assert Upstairs() in v[1] && Inside() in v[2] && Beside() in v[2];
    assert NEW_VALUE in Upstairs().entries && OLD_VALUE in Inside().entries;
    assert TOMBSTONE in Inside().entries && DELETED_VALUE in Beside().entries;
    InVersion(v, 1, Upstairs(), NEW_VALUE);
    InVersion(v, 2, Inside(), OLD_VALUE);
    InVersion(v, 2, Inside(), TOMBSTONE);
    InVersion(v, 2, Beside(), DELETED_VALUE);
  }

  lemma InVersion(v: Version, l: nat, f: File, e: Entry)
    requires l < |v| && f in v[l] && e in f.entries
    ensures e in VersionEntries(v)
  {
    assert e in FilesEntries(v[l]);
  }

  lemma SplitFilesAreIntact()
    ensures Intact(Upstairs()) && Intact(Inside()) && Intact(Beside())
  {
    assert NEW_VALUE in Upstairs().entries;
    assert OLD_VALUE in Inside().entries && TOMBSTONE in Inside().entries;
    assert DELETED_VALUE in Beside().entries;
  }

  lemma SplitLevelsAreOk(v: Version)
    requires v == SplitKeyVersion()
    ensures forall l :: 0 <= l < NUM_LEVELS ==> LevelOk(l, v[l])
  {
    SplitFilesAreIntact();
    assert LevelOk(1, [Upstairs()]);
    assert LevelOk(2, [Inside(), Beside()]);
    assert LevelOk(0, []);
    forall l | 3 <= l < NUM_LEVELS ensures LevelOk(l, v[l]) {
      assert LevelOk(l, []);
    }
  }

  lemma SplitLevelsAreNewer(v: Version)
    requires |v| == NUM_LEVELS && FilesEntries(v[1]) == {NEW_VALUE}
    requires FilesEntries(v[2]) == {OLD_VALUE, TOMBSTONE, DELETED_VALUE}
    requires forall l :: 0 <= l < 7 && l != 1 && l != 2 ==> FilesEntries(v[l]) == {}
    ensures forall i, j :: 0 <= i < j < NUM_LEVELS ==> LevelNewer(v, i, j)
  {}

  lemma SplitEntriesAreUnique(es: set<Entry>)
    requires es == {NEW_VALUE, OLD_VALUE, TOMBSTONE, DELETED_VALUE}
    ensures UniqueSeqs(es)
  {}

  lemma OrderedParts(v: Version)
    requires |v| == NUM_LEVELS && forall l :: 0 <= l < NUM_LEVELS ==> LevelOk(l, v[l])
    requires forall i, j :: 0 <= i < j < NUM_LEVELS ==> LevelNewer(v, i, j)
    requires UniqueSeqs(VersionEntries(v))
    ensures WellOrdered({}, v)
  {
    assert {} + VersionEntries(v) == VersionEntries(v);
  }

  lemma SplitKeyVersionIsOrdered(v: Version)
    requires v == SplitKeyVersion()
    ensures WellOrdered({}, v)
  {
    SplitLevelsAreOk(v);
    SplitKeyVersionHolds(v);
    SplitLevelsAreNewer(v);
    SplitEntriesAreUnique(VersionEntries(v));
    OrderedParts(v);
  }

  lemma SplitIsSelected(v: Version)
    requires v == SplitKeyVersion()
    ensures Selected(v, 1, [Upstairs()], [Inside()])
  {
    assert IsSlice([Upstairs()], v[1], 0, 1);
    assert v[2][1..] == [Beside()] && [Beside()][1..] == [];
    assert OverlapFilter([Beside()], Some(0.0), Some(0.0)) == [];
    assert OverlapFilter(v[2], Some(0.0), Some(0.0)) == [Inside()];
  }

  lemma SplitHasBoundaryTombstone(v: Version)
    requires v == SplitKeyVersion()
    ensures BoundaryTombstone({}, v, 1, [Upstairs()], [Inside()], 20, Beside(), TOMBSTONE)
  {
    SplitKeyVersionHolds(v);
    assert Newest({} + VersionEntries(v), 1.0, 20, TOMBSTONE);
    assert TOMBSTONE in Inside().entries && Inside() in [Inside()];
    assert TOMBSTONE in FilesEntries([Inside()]);
    assert Beside() in v[2] && IsSmallestBoundary(v[2], TOMBSTONE.key, Beside());
    assert forall l :: 3 <= l < 7 ==> v[l] == [];
  }

  lemma BoundaryTombstoneExists() returns (v: Version, inputs0: seq<File>, inputs1: seq<File>, g: File, t: Entry)
    ensures WellOrdered({}, v) && Selected(v, 1, inputs0, inputs1)
    ensures BoundaryTombstone({}, v, 1, inputs0, inputs1, 20, g, t) && v == SplitKeyVersion()
  {
    v, inputs0, inputs1, g, t := SplitKeyVersion(), [Upstairs()], [Inside()], Beside(), TOMBSTONE;
    SplitKeyVersionIsOrdered(v);
    SplitIsSelected(v);
    SplitHasBoundaryTombstone(v);
  }

  lemma SplitKeyVersionIsSaved(v: Version)
    requires v == SplitKeyVersion()
    ensures Saved(v) && Numbered(v, 4)
  {
    hide LevelsOrdered, VersionEntries;
    SplitKeyVersionIsOrdered(v);
    assert LevelsOrdered(v) by { hide *; OrderedLevels(v); }
    assert v[0] == [] && v[1] == [Upstairs()] && v[2] == [Inside(), Beside()] && v[3] == v[4] == v[5] == v[6] == [];
    OneOrTwoSaved(v[1], v[2]);
    forall l | 0 <= l < NUM_LEVELS ensures SavedLevel(v[l]) && NumbersBelow(v[l], 4) {
      if l != 1 && l != 2 { assert v[l] == []; }
    }
    forall l, m | 0 <= l < NUM_LEVELS && 0 <= m < NUM_LEVELS && l != m ensures LevelsShareNoNumber(v, l, m) {
      if l != 1 && l != 2 { assert v[l] == []; }
      if m != 1 && m != 2 { assert v[m] == []; }
    }
  }

  lemma OrderedLevels(v: Version)
    requires WellOrdered({}, v)
    ensures LevelsOrdered(v)
  {}

  lemma OneOrTwoSaved(one: seq<File>, two: seq<File>)
    requires one == [Upstairs()] && two == [Inside(), Beside()]
    ensures SavedLevel(one) && SavedLevel(two) && NumbersBelow(one, 4) && NumbersBelow(two, 4)
    ensures NoCommonNumber(one, two) && NoCommonNumber(two, one)
  {}

  /** The database object's invariant holds of this version, with empty memtables and any
      last sequence number that covers it. */
  lemma SplitKeyDatabase(v: Version, last: SeqNo)
    requires v == SplitKeyVersion() && last >= 20
    ensures Ordered([], None, v, last) && Saved(v) && Numbered(v, 4)
  {
    hide VersionEntries, SplitKeyVersion, WellOrdered, Saved, Numbered;
    SplitKeyVersionIsOrdered(v);
    SplitKeyVersionHolds(v);
    SplitKeyVersionIsSaved(v);
    assert Elements([]) + ImmEntries(None) == {};
  }

  /** The code does lose deletions: in this state of the database, with the inputs that
      SetupOtherInputs selects, a read of a deleted key returns a value afterwards. */
  lemma DeletionCanBeLost() returns (v: Version, inputs0: seq<File>, inputs1: seq<File>, k: UserKey)
    ensures Ordered([], None, v, 20) && Saved(v) && Numbered(v, 4) && Selected(v, 1, inputs0, inputs1)
    ensures Read({} + VersionEntries(v), k, 20).None?
    ensures Read(After(SceneOf({}, v, 1, inputs0, inputs1), 20), k, 20).Some?
  {
    var g, t;
    v, inputs0, inputs1, g, t := BoundaryTombstoneExists();
    k := g.smallest.ukey;
    BoundaryTombstoneShows({}, v, 1, inputs0, inputs1, 20, g, t);
    SplitKeyDatabase(v, 20);
  }

  /** With the largest sequence number as last and so as smallest snapshot, a compaction
      drops everything it reads: the same inputs lose a live value. */
  lemma LargestSnapshotLosesData() returns (v: Version, inputs0: seq<File>, inputs1: seq<File>, k: UserKey)
    ensures Ordered([], None, v, MAX_SEQUENCE) && Saved(v) && Numbered(v, 4) && Selected(v, 1, inputs0, inputs1)
    ensures Read({} + VersionEntries(v), k, MAX_SEQUENCE).Some?
    ensures Read(After(SceneOf({}, v, 1, inputs0, inputs1), MAX_SEQUENCE), k, MAX_SEQUENCE).None?
  {
    assert MAX_SEQUENCE >= 20;
    hide *;
    v, inputs0, inputs1, k := SplitKeyVersion(), [Upstairs()], [Inside()], 0.0;
    SplitKeyDatabase(v, MAX_SEQUENCE);
    SplitIsSelected(v);
    SplitIsRead(v);
    SplitKeyVersionIsOrdered(v);
    SceneIsValid({}, v, 1, inputs0, inputs1);
    var c := SceneOf({}, v, 1, inputs0, inputs1);
    AllDroppedIff(c, k);
    SplitInputs(c, v);
    AbsentIsNone(c.Rest(), k, MAX_SEQUENCE);
  }

  lemma SplitIsRead(v: Version)
    requires v == SplitKeyVersion()
    ensures |v| == NUM_LEVELS && Read({} + VersionEntries(v), 0.0, MAX_SEQUENCE).Some?
  {
    hide VersionEntries, SplitKeyVersion;
    SplitKeyVersionHolds(v);
    SplitKeyVersionIsOrdered(v);
    assert Newest({} + VersionEntries(v), 0.0, MAX_SEQUENCE, NEW_VALUE);
    VisibleIs({} + VersionEntries(v), 0.0, MAX_SEQUENCE, NEW_VALUE);
  }

  lemma AbsentIsNone(es: set<Entry>, k: UserKey, s: SeqNo)
    requires forall x :: x in es ==> x.key.ukey != k
    ensures Read(es, k, s).None?
  {
    VisibleSpec(es, k, s);
  }

  // Both entries of key 0.0 are inputs.
  lemma SplitInputs(c: Scene, v: Version)
    requires v == SplitKeyVersion() && c.Valid() && c == SceneOf({}, v, 1, [Upstairs()], [Inside()])
    requires c.Before() == {} + VersionEntries(v)
    ensures forall x :: x in c.Rest() ==> x.key.ukey != 0.0
  {
    hide VersionEntries, SplitKeyVersion, EntriesOf, BaseKeys, LeftOver;
    SplitKeyVersionHolds(v);
    assert NEW_VALUE in Upstairs().entries && OLD_VALUE in Inside().entries;
    assert Upstairs() in [Upstairs()] && Inside() in [Inside()];
    assert NEW_VALUE in FilesEntries([Upstairs()]) && OLD_VALUE in FilesEntries([Inside()]);
    RestSharesNoInput(c, NEW_VALUE);
    RestSharesNoInput(c, OLD_VALUE);
    forall x | x in c.Rest() ensures x.key.ukey != 0.0 {
      assert x in c.Before();
    }
  }
}
