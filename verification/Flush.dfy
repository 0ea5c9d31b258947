/** Where a flushed memtable goes (db/version_set.cc, db/db_impl.cc). */
module Flush {
  import opened Dbformat
  import opened Version
  import opened InputSelection
  import opened CompactionScene
  import opened VersionBuilder
  import opened LevelSteps

  // Below this level a flushed table is never pushed.
  const MAX_MEM_COMPACT_LEVEL := 2

  ghost predicate SomeOverlaps(files: seq<File>, smallest: Bound, largest: Bound) {
    exists f :: f in files && Overlaps(f, smallest, largest)
  }

  /** SomeFileOverlapsRange: a scan, or one binary search when the files are sorted. */
  method SomeFileOverlapsRange(disjointSorted: bool, files: seq<File>, smallest: Bound, largest: Bound)
    returns (overlaps: bool)
    requires disjointSorted ==> SortedDisjoint(files)
    ensures overlaps <==> SomeOverlaps(files, smallest, largest)
  {
    if !disjointSorted {
      for i := 0 to |files|
        invariant forall j :: 0 <= j < i ==> !Overlaps(files[j], smallest, largest)
      {
        if Overlaps(files[i], smallest, largest) { return true; }
      }
      return false;
    }
    var index := 0;
    if smallest.Some? {
      index := FindFile(files, SeekKey(smallest.value, MAX_SEQUENCE));
    }
    OneFileDecidesOverlap(files, index, smallest, largest);
    return index < |files| && !(largest.Some? && largest.value < files[index].smallest.ukey);
  }

  lemma OneFileDecidesOverlap(files: seq<File>, index: nat, smallest: Bound, largest: Bound)
    requires SortedDisjoint(files) && index <= |files|
    requires if smallest.None? then index == 0 else
               && (forall i :: 0 <= i < index ==> Less(files[i].largest, SeekKey(smallest.value, MAX_SEQUENCE)))
               && (forall i :: index <= i < |files| ==> !Less(files[i].largest, SeekKey(smallest.value, MAX_SEQUENCE)))
    ensures SomeOverlaps(files, smallest, largest) <==>
              index < |files| && !(largest.Some? && largest.value < files[index].smallest.ukey)
  {
    if index < |files| {
      assert files[index] in files;
      forall f | f in files && Overlaps(f, smallest, largest)
        ensures !(largest.Some? && largest.value < files[index].smallest.ukey)
      {
        var i :| 0 <= i < |files| && files[i] == f;
        assert index < i ==> Less(files[index].smallest, files[i].smallest);
      }
    }
  }

  /** Too many bytes overlap two levels further down. */
  predicate CrowdedBelow(v: Version, level: nat, smallest: UserKey, largest: UserKey, maxFileSize: nat)
    requires level + 2 < |v|
  {
    TotalFileSize(OverlapFilter(v[level + 2], Some(smallest), Some(largest))) > 10 * maxFileSize
  }

  /** Version::PickLevelForMemTableOutput: as deep as level 2 while nothing on the way,
      that level included, overlaps the new table. */
  method PickLevelForMemTableOutput(v: Version, smallest: UserKey, largest: UserKey, maxFileSize: nat)
    returns (level: nat)
    requires LevelsOrdered(v)
    ensures level <= MAX_MEM_COMPACT_LEVEL
    ensures level > 0 ==> forall l :: 0 <= l <= level ==> !SomeOverlaps(v[l], Some(smallest), Some(largest))
    ensures forall l :: 0 <= l < level ==> !CrowdedBelow(v, l, smallest, largest, maxFileSize)
    ensures level < MAX_MEM_COMPACT_LEVEL ==>
              || (level == 0 && SomeOverlaps(v[0], Some(smallest), Some(largest)))
              || SomeOverlaps(v[level + 1], Some(smallest), Some(largest))
              || CrowdedBelow(v, level, smallest, largest, maxFileSize)
  {
    level := 0;
    var overlaps := SomeFileOverlapsRange(false, v[0], Some(smallest), Some(largest));
    if overlaps { return; }
    while level < MAX_MEM_COMPACT_LEVEL
      invariant level <= MAX_MEM_COMPACT_LEVEL
      invariant forall l :: 0 <= l <= level ==> !SomeOverlaps(v[l], Some(smallest), Some(largest))
      invariant forall l :: 0 <= l < level ==> !CrowdedBelow(v, l, smallest, largest, maxFileSize)
    {
      assert LevelOk(level + 1, v[level + 1]);
      overlaps := SomeFileOverlapsRange(true, v[level + 1], Some(smallest), Some(largest));
      if overlaps { break; }
      if level + 2 < NUM_LEVELS {
        var grandparents, _, _ := GetOverlappingInputs(level + 2, v[level + 2], Some(smallest), Some(largest));
        if TotalFileSize(grandparents) > 10 * maxFileSize { break; }
      }
      level := level + 1;
    }
  }

  // ---- the version with one more table ------------------------------------------

  /** The new table is in place at `level`. */
  ghost predicate TableAdded(v: Version, level: nat, f: File, v': Version)
    requires |v| == |v'| == NUM_LEVELS && level < NUM_LEVELS
  {
    && (forall l :: 0 <= l < NUM_LEVELS && l != level ==> v'[l] == v[l])
    && SavedLevel(v'[level])
    && forall g :: g in v'[level] <==> g in v[level] || g == f
  }

  /** What the flush knows about the new table. */
  ghost predicate MayAdd(v: Version, level: nat, f: File)
    requires |v| == NUM_LEVELS && level < NUM_LEVELS
  {
    && Intact(f)
    && Newer(Elements(f.entries), VersionEntries(v))
    && (forall g :: g in v[0] ==> g.number < f.number)
    && (level > 0 ==> forall l :: 0 <= l <= level ==>
          !SomeOverlaps(v[l], Some(f.smallest.ukey), Some(f.largest.ukey)))
  }

  lemma AddedLevelEntries(v: Version, level: nat, f: File, v': Version, l: nat)
    requires |v| == |v'| == NUM_LEVELS && level < NUM_LEVELS && TableAdded(v, level, f, v') && l < NUM_LEVELS
    ensures FilesEntries(v'[l]) == FilesEntries(v[l]) + if l == level then Elements(f.entries) else {}
  {
    if l == level {
      forall e | e in FilesEntries(v[l]) + Elements(f.entries) ensures e in FilesEntries(v'[l]) {
        if e in Elements(f.entries) {
          assert f in v'[l];
        }
      }
    }
  }

  lemma InVersionEntries(v: Version, l: nat)
    requires l < |v|
    ensures FilesEntries(v[l]) <= VersionEntries(v)
  {}

  lemma NoSharedKey(files: seq<File>, f: File, x: Entry, y: Entry)
    requires AllIntact(files) && Intact(f) && !SomeOverlaps(files, Some(f.smallest.ukey), Some(f.largest.ukey))
    requires x in FilesEntries(files) && y in Elements(f.entries)
    ensures x.key.ukey != y.key.ukey
  {
    var g :| g in files && x in g.entries;
    assert Intact(g) && !Overlaps(g, Some(f.smallest.ukey), Some(f.largest.ukey));
  }

  lemma AddedPairIsNewer(v: Version, level: nat, f: File, v': Version, i: nat, j: nat)
    requires LevelsOrdered(v) && |v'| == NUM_LEVELS && level < NUM_LEVELS
    requires MayAdd(v, level, f) && TableAdded(v, level, f, v') && i < j < NUM_LEVELS
    ensures LevelNewer(v', i, j)
  {
    AddedLevelEntries(v, level, f, v', i);
    AddedLevelEntries(v, level, f, v', j);
    assert LevelNewer(v, i, j) && LevelOk(i, v[i]);
    InVersionEntries(v, j);
    forall x, y | x in FilesEntries(v'[i]) && y in FilesEntries(v'[j]) && x.key.ukey == y.key.ukey
      ensures x.key.seqno > y.key.seqno
    {
      if y in FilesEntries(v[j]) {
        if x in Elements(f.entries) { assert y in VersionEntries(v); }
      } else {
        NoSharedKey(v[i], f, x, y);
      }
    }
  }

  lemma AddedLevelIsOk(v: Version, level: nat, f: File, v': Version)
    requires LevelsOrdered(v) && |v'| == NUM_LEVELS && level < NUM_LEVELS
    requires MayAdd(v, level, f) && TableAdded(v, level, f, v')
    ensures LevelOk(level, v'[level])
  {
    var files, files' := v[level], v'[level];
    assert LevelOk(level, files);
    forall g | g in files' ensures Intact(g) {}
    if level > 0 {
      forall g, h | g in files' && h in files' && g != h
        ensures Less(g.largest, h.smallest) || Less(h.largest, g.smallest)
      {
        AddedPairIsApart(files, f, g, h);
      }
      InOrderIsDisjoint(files');
    } else {
      forall g, h | g in files' && h in files' && g.number > h.number
        ensures Newer(Elements(g.entries), Elements(h.entries))
      {
        if g !in files && h in files { NewTableIsNewer(v, f, h); }
      }
    }
  }

  lemma NewTableIsNewer(v: Version, f: File, h: File)
    requires |v| == NUM_LEVELS && Newer(Elements(f.entries), VersionEntries(v)) && h in v[0]
    ensures Newer(Elements(f.entries), Elements(h.entries))
  {
    InVersionEntries(v, 0);
    assert Elements(h.entries) <= FilesEntries(v[0]);
  }

  lemma AddedPairIsApart(files: seq<File>, f: File, g: File, h: File)
    requires SortedDisjoint(files) && !SomeOverlaps(files, Some(f.smallest.ukey), Some(f.largest.ukey))
    requires (g in files || g == f) && (h in files || h == f) && g != h
    ensures Less(g.largest, h.smallest) || Less(h.largest, g.smallest)
  {
    if g != f && h != f {
      FilesApart(files, g, h);
    } else {
      assert !Overlaps(if g == f then h else g, Some(f.smallest.ukey), Some(f.largest.ukey));
    }
  }

  /** A flush keeps every level in order and every shallower level newer, and adds
      exactly the entries of the new table. */
  lemma FlushKeepsLevels(v: Version, level: nat, f: File, v': Version)
    requires Saved(v) && |v'| == NUM_LEVELS && level < NUM_LEVELS
    requires MayAdd(v, level, f) && TableAdded(v, level, f, v')
    ensures Saved(v') && VersionEntries(v') == VersionEntries(v) + Elements(f.entries)
  {
    AddedLevelIsOk(v, level, f, v');
    forall l | 0 <= l < NUM_LEVELS ensures LevelOk(l, v'[l]) && SavedLevel(v'[l]) {
      assert LevelOk(l, v[l]) && SavedLevel(v[l]);
    }
    forall i, j | 0 <= i < j < NUM_LEVELS ensures LevelNewer(v', i, j) {
      AddedPairIsNewer(v, level, f, v', i, j);
    }
    FlushEntries(v, level, f, v');
  }

  lemma FlushEntries(v: Version, level: nat, f: File, v': Version)
    requires |v| == |v'| == NUM_LEVELS && level < NUM_LEVELS && TableAdded(v, level, f, v')
    ensures VersionEntries(v') == VersionEntries(v) + Elements(f.entries)
  {
    forall l | 0 <= l < NUM_LEVELS
      ensures FilesEntries(v'[l]) == FilesEntries(v[l]) + if l == level then Elements(f.entries) else {}
    {
      AddedLevelEntries(v, level, f, v', l);
    }
    InVersionEntries(v', level);
  }
}
