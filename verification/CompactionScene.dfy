/** Cutting a version into the scene of a compaction, and what the selection of the
    input files guarantees about the files left behind (db/version_set.cc). */
module CompactionScene {
  import opened Dbformat
  import opened Version
  import opened InputSelection
  import opened CompactionMeaning
  import opened CompactionWork

  /** The files of a level that stay behind. */
  function LeftOver(files: seq<File>, picked: seq<File>): (r: seq<File>)
    ensures forall f :: f in r <==> f in files && f !in picked
  {
    if files == [] then []
    else
      var rest := LeftOver(files[1..], picked);
      if files[0] in picked then rest else [files[0]] + rest
  }

  ghost function EntriesOf(v: Version, from: nat, to: nat): set<Entry>
    requires to <= |v|
  {
    set l, e | from <= l < to && e in FilesEntries(v[l]) :: e
  }

  /** The user keys of the memtables and all levels stand newest first. */
  ghost predicate WellOrdered(upper: set<Entry>, v: Version) {
    && LevelsOrdered(v)
    && Newer(upper, VersionEntries(v))
    && UniqueSeqs(upper + VersionEntries(v))
  }

  ghost function SceneOf(upper: set<Entry>, v: Version, level: nat, inputs0: seq<File>, inputs1: seq<File>): Scene
    requires |v| == NUM_LEVELS && level + 1 < NUM_LEVELS
  {
    Scene(upper + EntriesOf(v, 0, level),
          FilesEntries(LeftOver(v[level], inputs0)), FilesEntries(inputs0),
          FilesEntries(LeftOver(v[level + 1], inputs1)), FilesEntries(inputs1),
          EntriesOf(v, level + 2, NUM_LEVELS),
          BaseKeys(v, level))
  }

  // ---- within one level --------------------------------------------------------

  lemma SplitLevel(files: seq<File>, picked: seq<File>)
    requires forall f :: f in picked ==> f in files
    ensures FilesEntries(files) == FilesEntries(LeftOver(files, picked)) + FilesEntries(picked)
  {
    forall e | e in FilesEntries(files) ensures e in FilesEntries(LeftOver(files, picked)) + FilesEntries(picked) {
      var f :| f in files && e in f.entries;
      assert f in picked || f in LeftOver(files, picked);
    }
  }

  lemma FilesApart(files: seq<File>, f: File, g: File)
    requires SortedDisjoint(files) && f in files && g in files && f != g
    ensures Less(f.largest, g.smallest) || Less(g.largest, f.smallest)
  {
    var i :| 0 <= i < |files| && files[i] == f;
    var j :| 0 <= j < |files| && files[j] == g;
  }

  lemma SliceIndices(files: seq<File>, a: nat, b: nat, f: File, g: File) returns (i: nat, j: nat)
    requires a < b <= |files| && f in files && f !in files[a..b] && g in files[a..b]
    ensures i < |files| && files[i] == f && (i < a || b <= i)
    ensures a <= j < b && files[j] == g
  {
    forall n | a <= n < b ensures files[n] in files[a..b] {
      assert files[a..b][n - a] == files[n];
    }
    i :| 0 <= i < |files| && files[i] == f;
    var k :| 0 <= k < b - a && files[a..b][k] == g;
    j := a + k;
  }

  /** No file left behind has anything older than an input has for the same user key:
      the boundary files were added for this. */
  lemma LeftOverStandsBefore(files: seq<File>, a: nat, b: nat, f: File, g: File, x: Entry, y: Entry)
    requires SortedDisjoint(files) && a < b <= |files|
    requires NoBoundary(files, files[b - 1].largest)
    requires f in files && f !in files[a..b] && g in files[a..b] && Intact(f) && Intact(g)
    requires x in f.entries && y in g.entries
    ensures x.key.ukey == y.key.ukey ==> Less(x.key, y.key)
  {
    var i, j := SliceIndices(files, a, b, f, g);
    if i < a {
      assert Less(f.largest, g.smallest);
    } else {
      LaterFileHasLaterKeys(files, b, i, j, x, y);
    }
  }

  // Behind the inputs only the next file could carry on a user key, and it does not.
  lemma LaterFileHasLaterKeys(files: seq<File>, b: nat, i: nat, j: nat, x: Entry, y: Entry)
    requires SortedDisjoint(files) && j < b <= i < |files|
    requires NoBoundary(files, files[b - 1].largest)
    requires Intact(files[i]) && Intact(files[j]) && x in files[i].entries && y in files[j].entries
    ensures y.key.ukey < x.key.ukey
  {
    assert files[b] in files && Less(files[b - 1].largest, files[b].smallest);
    assert b < i ==> Less(files[b].largest, files[i].smallest);
    assert j < b - 1 ==> Less(files[j].largest, files[b - 1].smallest);
    assert files[b - 1].largest.ukey < files[b].smallest.ukey;
  }

  /** Together with unique sequence numbers: what stays at the level is newer. */
  lemma LeftOverIsNewer(level: nat, files: seq<File>, inputs: seq<File>)
    requires LevelOk(level, files) && UniqueSeqs(FilesEntries(files)) && PickedWhole(level, files, inputs)
    ensures Newer(FilesEntries(LeftOver(files, inputs)), FilesEntries(inputs))
  {
    PickedAreFiles(level, files, inputs);
    forall x, y | x in FilesEntries(LeftOver(files, inputs)) && y in FilesEntries(inputs)
      ensures x.key.ukey == y.key.ukey ==> x.key.seqno > y.key.seqno
    {
      var f :| f in LeftOver(files, inputs) && x in f.entries;
      var g :| g in inputs && y in g.entries;
      assert Intact(f) && Intact(g);
      LeftOverEntryIsNewer(level, files, inputs, f, g, x, y);
    }
  }

  lemma LeftOverEntryIsNewer(level: nat, files: seq<File>, inputs: seq<File>, f: File, g: File, x: Entry, y: Entry)
    requires level > 0 ==> SortedDisjoint(files)
    requires UniqueSeqs(FilesEntries(files)) && PickedWhole(level, files, inputs)
    requires f in files && f !in inputs && g in inputs && g in files && Intact(f) && Intact(g)
    requires x in f.entries && y in g.entries
    ensures x.key.ukey == y.key.ukey ==> x.key.seqno > y.key.seqno
  {
    if level == 0 {
      KeysAreRange(inputs);
      assert !OverlapsInputs(f, inputs);
    } else {
      var a, b :| a < b && IsSlice(inputs, files, a, b);
      SliceKeys(files, a, b);
      LeftOverStandsBefore(files, a, b, f, g, x, y);
      assert x in FilesEntries(files) && y in FilesEntries(files);
    }
  }

  // ---- across the two levels ---------------------------------------------------

  /** A file left at the next level overlaps no user key of the inputs above it. */
  lemma LeftOverMissesInputs(next: seq<File>, inputs0: seq<File>, inputs1: seq<File>, f: File, g: File, x: Entry)
    requires inputs0 != []
    requires inputs1 == OverlapFilter(next, Some(SmallestKey(inputs0).ukey), Some(LargestKey(inputs0).ukey))
    requires f in inputs0 && Intact(f) && x in f.entries
    requires g in next && g !in inputs1
    ensures x.key.ukey < g.smallest.ukey || g.largest.ukey < x.key.ukey
    ensures g.largest.ukey < SmallestKey(inputs0).ukey ==> g.largest.ukey < x.key.ukey
    ensures g.largest.ukey >= SmallestKey(inputs0).ukey ==> x.key.ukey < g.smallest.ukey
  {
    KeysAreRange(inputs0);
  }

  /** A file left at the next level stands wholly before or wholly after all inputs. */
  lemma LeftOverIsApart(next: seq<File>, inputs0: seq<File>, inputs1: seq<File>, g: File, x: Entry)
    requires SortedDisjoint(next) && AllIntact(next) && inputs0 != [] && AllIntact(inputs0)
    requires inputs1 == OverlapFilter(next, Some(SmallestKey(inputs0).ukey), Some(LargestKey(inputs0).ukey))
    requires g in next && g !in inputs1
    requires x in FilesEntries(inputs0) + FilesEntries(inputs1)
    ensures g.largest.ukey < SmallestKey(inputs0).ukey ==> Less(g.largest, x.key)
    ensures g.largest.ukey >= SmallestKey(inputs0).ukey ==> Less(x.key, g.smallest)
  {
    if x in FilesEntries(inputs0) {
      var f :| f in inputs0 && x in f.entries;
      assert Intact(f);
      LeftOverMissesInputs(next, inputs0, inputs1, f, g, x);
    } else {
      var f :| f in inputs1 && x in f.entries;
      assert Intact(f);
      FilesApart(next, f, g);
    }
  }

  lemma LeftOverSharesNothing(next: seq<File>, inputs1: seq<File>)
    requires SortedDisjoint(next) && AllIntact(next) && forall f :: f in inputs1 ==> f in next
    ensures FilesEntries(LeftOver(next, inputs1)) !! FilesEntries(inputs1)
  {
    forall f, g, e | f in LeftOver(next, inputs1) && g in inputs1 && e in f.entries
      ensures e !in g.entries
    {
      FilesShareNoEntry(next, f, g, e);
    }
  }

  lemma FilesShareNoEntry(files: seq<File>, f: File, g: File, e: Entry)
    requires SortedDisjoint(files) && AllIntact(files) && f in files && g in files && f != g && e in f.entries
    ensures e !in g.entries
  {
    assert Intact(f) && Intact(g);
    FilesApart(files, f, g);
  }

  // ---- across all levels -------------------------------------------------------

  lemma ShallowIsNewer(v: Version, from: nat, to: nat, from': nat, to': nat)
    requires LevelsOrdered(v) && to <= from' && to' <= NUM_LEVELS && to <= NUM_LEVELS
    ensures Newer(EntriesOf(v, from, to), EntriesOf(v, from', to'))
  {
    forall x, y | x in EntriesOf(v, from, to) && y in EntriesOf(v, from', to') && x.key.ukey == y.key.ukey
      ensures x.key.seqno > y.key.seqno
    {
      var i :| from <= i < to && x in FilesEntries(v[i]);
      var j :| from' <= j < to' && y in FilesEntries(v[j]);
      assert LevelNewer(v, i, j);
    }
  }

  lemma CutLevels(v: Version, from: nat, mid: nat, to: nat)
    requires from <= mid <= to <= |v|
    ensures EntriesOf(v, from, to) == EntriesOf(v, from, mid) + EntriesOf(v, mid, to)
  {}

  lemma OneLevel(v: Version, l: nat)
    requires l < |v|
    ensures EntriesOf(v, l, l + 1) == FilesEntries(v[l])
  {}

  lemma CutVersion(v: Version, level: nat)
    requires |v| == NUM_LEVELS && level + 1 < NUM_LEVELS
    ensures EntriesOf(v, level, level + 2) == FilesEntries(v[level]) + FilesEntries(v[level + 1])
    ensures EntriesOf(v, level, NUM_LEVELS) == EntriesOf(v, level, level + 2) + EntriesOf(v, level + 2, NUM_LEVELS)
    ensures VersionEntries(v) == EntriesOf(v, 0, level) + EntriesOf(v, level, NUM_LEVELS)
  {
    CutLevels(v, 0, level, NUM_LEVELS);
    CutLevels(v, level, level + 2, NUM_LEVELS);
    CutLevels(v, level, level + 1, level + 2);
    OneLevel(v, level);
    OneLevel(v, level + 1);
    assert VersionEntries(v) == EntriesOf(v, 0, NUM_LEVELS);
  }

  lemma BelowHasNoBaseKey(v: Version, level: nat, y: Entry)
    requires LevelsOrdered(v) && level + 1 < NUM_LEVELS && y in EntriesOf(v, level + 2, NUM_LEVELS)
    ensures y.key.ukey !in BaseKeys(v, level)
  {
    var l :| level + 2 <= l < NUM_LEVELS && y in FilesEntries(v[l]);
    var f :| f in v[l] && y in f.entries;
    assert LevelOk(l, v[l]) && Intact(f);
    assert InUserRange(f, y.key.ukey);
  }

  lemma SceneNewer(upper: set<Entry>, v: Version, level: nat)
    requires LevelsOrdered(v) && Newer(upper, VersionEntries(v)) && level + 1 < NUM_LEVELS
    ensures Newer(upper + EntriesOf(v, 0, level), EntriesOf(v, level, NUM_LEVELS))
    ensures Newer(FilesEntries(v[level]), FilesEntries(v[level + 1]))
    ensures Newer(EntriesOf(v, level, level + 2), EntriesOf(v, level + 2, NUM_LEVELS))
  {
    CutVersion(v, level);
    ShallowIsNewer(v, 0, level, level, NUM_LEVELS);
    ShallowIsNewer(v, level, level + 2, level + 2, NUM_LEVELS);
    assert LevelNewer(v, level, level + 1);
  }

  lemma UniqueParts(a: set<Entry>, b: set<Entry>)
    requires UniqueSeqs(b) && a <= b
    ensures UniqueSeqs(a)
  {}

  lemma AssembleScene(c: Scene, upper: set<Entry>, shallow: set<Entry>, here: set<Entry>, next: set<Entry>)
    requires c.above == upper + shallow && here == c.left0 + c.in0 && next == c.left1 + c.in1
    requires UniqueSeqs(upper + (shallow + (here + next + c.below)))
    requires Newer(upper + shallow, here + next + c.below) && Newer(here, next) && Newer(here + next, c.below)
    requires Newer(c.left0, c.in0) && c.left1 !! c.in1
    requires forall x, y :: x in c.in0 && y in c.left1 ==> x.key.ukey != y.key.ukey
    requires forall y :: y in c.below ==> y.key.ukey !in c.base
    ensures c.Valid() && c.Before() == upper + (shallow + (here + next + c.below))
  {
    assert c.Before() == upper + (shallow + (here + next + c.below));
    assert here + next == c.left0 + c.in0 + c.left1 + c.in1;
  }

  /** The scene of every selected compaction is valid and shows the whole database. */
  lemma SceneIsValid(upper: set<Entry>, v: Version, level: nat, inputs0: seq<File>, inputs1: seq<File>)
    requires WellOrdered(upper, v) && Selected(v, level, inputs0, inputs1)
    ensures SceneOf(upper, v, level, inputs0, inputs1).Valid()
    ensures SceneOf(upper, v, level, inputs0, inputs1).Before() == upper + VersionEntries(v)
  {
    var c := SceneOf(upper, v, level, inputs0, inputs1);
    var here, next := v[level], v[level + 1];
    assert LevelOk(level, here) && LevelOk(level + 1, next);
    PickedAreFiles(level, here, inputs0);
    CutVersion(v, level);
    SceneNewer(upper, v, level);
    UniqueParts(FilesEntries(here), upper + VersionEntries(v));
    SplitLevel(here, inputs0);
    SplitLevel(next, inputs1);
    LeftOverIsNewer(level, here, inputs0);
    LeftOverSharesNothing(next, inputs1);
    InputsMissLeftOver(level, here, next, inputs0, inputs1);
    forall y | y in c.below ensures y.key.ukey !in c.base {
      BelowHasNoBaseKey(v, level, y);
    }
    AssembleScene(c, upper, EntriesOf(v, 0, level), FilesEntries(here), FilesEntries(next));
  }

  lemma InputsMissLeftOver(level: nat, here: seq<File>, next: seq<File>, inputs0: seq<File>, inputs1: seq<File>)
    requires AllIntact(here) && AllIntact(next) && Picked(level, here, inputs0)
    requires inputs1 == OverlapFilter(next, Some(SmallestKey(inputs0).ukey), Some(LargestKey(inputs0).ukey))
    ensures forall x, y :: x in FilesEntries(inputs0) && y in FilesEntries(LeftOver(next, inputs1)) ==>
              x.key.ukey != y.key.ukey
  {
    forall x, y | x in FilesEntries(inputs0) && y in FilesEntries(LeftOver(next, inputs1))
      ensures x.key.ukey != y.key.ukey
    {
      InputMissesLeftOver(level, here, next, inputs0, inputs1, x, y);
    }
  }

  lemma InputMissesLeftOver(level: nat, here: seq<File>, next: seq<File>, inputs0: seq<File>, inputs1: seq<File>, x: Entry, y: Entry)
    requires AllIntact(here) && AllIntact(next) && Picked(level, here, inputs0)
    requires inputs1 == OverlapFilter(next, Some(SmallestKey(inputs0).ukey), Some(LargestKey(inputs0).ukey))
    requires x in FilesEntries(inputs0) && y in FilesEntries(LeftOver(next, inputs1))
    ensures x.key.ukey != y.key.ukey
  {
    PickedAreFiles(level, here, inputs0);
    var f :| f in inputs0 && x in f.entries;
    var g :| g in LeftOver(next, inputs1) && y in g.entries;
    assert Intact(f) && Intact(g);
    LeftOverMissesInputs(next, inputs0, inputs1, f, g, x);
  }
}
