/** Every change of the file set keeps the level invariants (db/db_impl.cc,
    db/version_set.cc): compaction and trivial move here, flush in Flush.dfy. */
module LevelSteps {
  import opened Dbformat
  import opened Version
  import opened InputSelection
  import opened CompactionMeaning
  import opened CompactionWork
  import opened CompactionScene
  import opened VersionBuilder

  ghost predicate SameFiles(a: seq<File>, b: seq<File>) {
    forall f :: f in a <==> f in b
  }

  lemma SameFilesSameEntries(a: seq<File>, b: seq<File>)
    requires SameFiles(a, b)
    ensures FilesEntries(a) == FilesEntries(b)
  {}

  /** A version in order, as Builder leaves it. */
  ghost predicate Saved(v: Version) {
    && LevelsOrdered(v)
    && forall l :: 0 <= l < NUM_LEVELS ==> SavedLevel(v[l])
  }

  ghost predicate SavedLevel(files: seq<File>) { InOrder(files) && NumbersDiffer(files) }

  /** Replacing the inputs by outputs made of their entries. */
  ghost predicate Replaced(v: Version, level: nat, inputs0: seq<File>, inputs1: seq<File>, outputs: seq<File>, v': Version)
    requires |v| == |v'| == NUM_LEVELS && level + 1 < NUM_LEVELS
  {
    && (forall l :: 0 <= l < NUM_LEVELS && l != level && l != level + 1 ==> v'[l] == v[l])
    && SavedLevel(v'[level]) && SameFiles(v'[level], LeftOver(v[level], inputs0))
    && SavedLevel(v'[level + 1])
    && forall f :: f in v'[level + 1] <==> f in LeftOver(v[level + 1], inputs1) || f in outputs
  }

  ghost predicate OutputsOf(outputs: seq<File>, inputs: set<Entry>) {
    && AllIntact(outputs) && FilesEntries(outputs) <= inputs
    && forall f, g :: f in outputs && g in outputs && f != g ==>
         Less(f.largest, g.smallest) || Less(g.largest, f.smallest)
  }

  // ---- the compacted level -----------------------------------------------------

  lemma ShrunkLevelIsOk(level: nat, files: seq<File>, files': seq<File>)
    requires LevelOk(level, files) && SavedLevel(files') && forall f :: f in files' ==> f in files
    ensures LevelOk(level, files')
  {
    assert AllIntact(files');
    if level > 0 {
      forall f, g | f in files' && g in files' && f != g
        ensures Less(f.largest, g.smallest) || Less(g.largest, f.smallest)
      {
        FilesApart(files, f, g);
      }
      InOrderIsDisjoint(files');
    }
  }

  // ---- the next level ----------------------------------------------------------

  lemma OutputStandsApart(next: seq<File>, inputs0: seq<File>, inputs1: seq<File>, g: File, f: File)
    requires SortedDisjoint(next) && AllIntact(next) && inputs0 != [] && AllIntact(inputs0)
    requires inputs1 == OverlapFilter(next, Some(SmallestKey(inputs0).ukey), Some(LargestKey(inputs0).ukey))
    requires g in next && g !in inputs1
    requires Intact(f) && Elements(f.entries) <= FilesEntries(inputs0) + FilesEntries(inputs1)
    ensures Less(f.largest, g.smallest) || Less(g.largest, f.smallest)
  {
    var x :| x in f.entries && x.key == f.smallest;
    var y :| y in f.entries && y.key == f.largest;
    assert x in Elements(f.entries) && y in Elements(f.entries);
    LeftOverIsApart(next, inputs0, inputs1, g, x);
    LeftOverIsApart(next, inputs0, inputs1, g, y);
  }

  lemma FileEntriesAmong(files: seq<File>, f: File, es: set<Entry>)
    requires f in files && FilesEntries(files) <= es
    ensures Elements(f.entries) <= es
  {
    forall e | e in Elements(f.entries) ensures e in FilesEntries(files) {}
  }

  lemma GrownLevelIsOk(level: nat, next: seq<File>, inputs0: seq<File>, inputs1: seq<File>, outputs: seq<File>, next': seq<File>)
    requires level > 0 && LevelOk(level, next) && inputs0 != [] && AllIntact(inputs0)
    requires inputs1 == OverlapFilter(next, Some(SmallestKey(inputs0).ukey), Some(LargestKey(inputs0).ukey))
    requires OutputsOf(outputs, FilesEntries(inputs0) + FilesEntries(inputs1))
    requires SavedLevel(next') && forall f :: f in next' <==> f in LeftOver(next, inputs1) || f in outputs
    ensures LevelOk(level, next')
  {
    forall f | f in next' ensures Intact(f) {}
    forall f, g | f in next' && g in next' && f != g
      ensures Less(f.largest, g.smallest) || Less(g.largest, f.smallest)
    {
      PairStandsApart(next, inputs0, inputs1, outputs, f, g);
    }
    InOrderIsDisjoint(next');
  }

  lemma PairStandsApart(next: seq<File>, inputs0: seq<File>, inputs1: seq<File>, outputs: seq<File>, f: File, g: File)
    requires SortedDisjoint(next) && AllIntact(next) && inputs0 != [] && AllIntact(inputs0)
    requires inputs1 == OverlapFilter(next, Some(SmallestKey(inputs0).ukey), Some(LargestKey(inputs0).ukey))
    requires OutputsOf(outputs, FilesEntries(inputs0) + FilesEntries(inputs1))
    requires f in LeftOver(next, inputs1) || f in outputs
    requires g in LeftOver(next, inputs1) || g in outputs
    requires f != g
    ensures Less(f.largest, g.smallest) || Less(g.largest, f.smallest)
  {
    var es := FilesEntries(inputs0) + FilesEntries(inputs1);
    if f in outputs && g in outputs {
    } else if f in outputs {
      FileEntriesAmong(outputs, f, es);
      OutputStandsApart(next, inputs0, inputs1, g, f);
    } else if g in outputs {
      FileEntriesAmong(outputs, g, es);
      OutputStandsApart(next, inputs0, inputs1, f, g);
    } else {
      FilesApart(next, f, g);
    }
  }

  // ---- recency across levels ---------------------------------------------------

  lemma NewerParts(a: set<Entry>, b: set<Entry>, a': set<Entry>, b': set<Entry>)
    requires Newer(a, b) && a' <= a && b' <= b
    ensures Newer(a', b')
  {}

  // The entries of a level after the replacement come from known places.
  lemma ReplacedEntries(v: Version, level: nat, inputs0: seq<File>, inputs1: seq<File>, outputs: seq<File>, v': Version, l: nat)
    requires |v| == |v'| == NUM_LEVELS && level + 1 < NUM_LEVELS && l < NUM_LEVELS
    requires Replaced(v, level, inputs0, inputs1, outputs, v')
    ensures l == level ==> FilesEntries(v'[l]) == FilesEntries(LeftOver(v[level], inputs0))
    ensures l == level + 1 ==> FilesEntries(v'[l]) == FilesEntries(LeftOver(v[level + 1], inputs1)) + FilesEntries(outputs)
    ensures l != level && l != level + 1 ==> FilesEntries(v'[l]) == FilesEntries(v[l])
  {
    if l == level {
      SameFilesSameEntries(v'[l], LeftOver(v[level], inputs0));
    } else if l == level + 1 {
      SameFilesSameEntries(v'[l], LeftOver(v[level + 1], inputs1) + outputs);
      var a, b := LeftOver(v[level + 1], inputs1), outputs;
      forall e | e in FilesEntries(a) + FilesEntries(b) ensures e in FilesEntries(a + b) {
        var f :| (f in a || f in b) && e in f.entries;
        assert f in a + b;
      }
    }
  }

  lemma LevelAmong(v: Version, from: nat, to: nat, l: nat)
    requires from <= l < to <= |v|
    ensures FilesEntries(v[l]) <= EntriesOf(v, from, to)
  {}

  /** The recency of two levels after the replacement, one pair at a time. */
  lemma ReplacedPairIsNewer(upper: set<Entry>, v: Version, level: nat, inputs0: seq<File>, inputs1: seq<File>,
                            outputs: seq<File>, v': Version, i: nat, j: nat)
    requires WellOrdered(upper, v) && Selected(v, level, inputs0, inputs1) && |v'| == NUM_LEVELS
    requires OutputsOf(outputs, FilesEntries(inputs0) + FilesEntries(inputs1))
    requires Replaced(v, level, inputs0, inputs1, outputs, v')
    requires i < j < NUM_LEVELS
    ensures LevelNewer(v', i, j)
  {
    var c := SceneOf(upper, v, level, inputs0, inputs1);
    SceneIsValid(upper, v, level, inputs0, inputs1);
    ReplacedEntries(v, level, inputs0, inputs1, outputs, v', i);
    ReplacedEntries(v, level, inputs0, inputs1, outputs, v', j);
    var all := c.left0 + c.in0 + c.left1 + c.in1 + c.below;
    if i < level {
      LevelAmong(v, 0, level, i);
      if j < level {
        assert LevelNewer(v, i, j);
      } else {
        if j > level + 1 { LevelAmong(v, level + 2, NUM_LEVELS, j); }
        NewerParts(c.above, all, FilesEntries(v'[i]), FilesEntries(v'[j]));
      }
    } else if i == level && j == level + 1 {
      assert Newer(c.left0, c.left1 + c.in0 + c.in1);
      NewerParts(c.left0, c.left1 + c.in0 + c.in1, FilesEntries(v'[i]), FilesEntries(v'[j]));
    } else if i <= level + 1 {
      LevelAmong(v, level + 2, NUM_LEVELS, j);
      NewerParts(c.left0 + c.in0 + c.left1 + c.in1, c.below, FilesEntries(v'[i]), FilesEntries(v'[j]));
    } else {
      assert LevelNewer(v, i, j);
    }
  }

  lemma ReplacedLevelIsOk(v: Version, level: nat, inputs0: seq<File>, inputs1: seq<File>, outputs: seq<File>, v': Version, l: nat)
    requires Saved(v) && Selected(v, level, inputs0, inputs1) && |v'| == NUM_LEVELS && l < NUM_LEVELS
    requires OutputsOf(outputs, FilesEntries(inputs0) + FilesEntries(inputs1))
    requires Replaced(v, level, inputs0, inputs1, outputs, v')
    ensures LevelOk(l, v'[l]) && SavedLevel(v'[l])
  {
    assert LevelOk(l, v[l]) && SavedLevel(v[l]);
    if l == level {
      ShrunkLevelIsOk(level, v[level], v'[level]);
    } else if l == level + 1 {
      assert LevelOk(level, v[level]);
      PickedAreFiles(level, v[level], inputs0);
      GrownLevelIsOk(l, v[l], inputs0, inputs1, outputs, v'[l]);
    }
  }

  /** Compaction and trivial move keep every level in order and every shallower level
      newer, with no assumption about boundary files at level+1. */
  lemma ReplacementKeepsLevels(upper: set<Entry>, v: Version, level: nat, inputs0: seq<File>, inputs1: seq<File>,
                               outputs: seq<File>, v': Version)
    requires WellOrdered(upper, v) && Saved(v) && Selected(v, level, inputs0, inputs1) && |v'| == NUM_LEVELS
    requires OutputsOf(outputs, FilesEntries(inputs0) + FilesEntries(inputs1))
    requires Replaced(v, level, inputs0, inputs1, outputs, v')
    ensures Saved(v')
  {
    forall l | 0 <= l < NUM_LEVELS ensures LevelOk(l, v'[l]) && SavedLevel(v'[l]) {
      ReplacedLevelIsOk(v, level, inputs0, inputs1, outputs, v', l);
    }
    forall i, j | 0 <= i < j < NUM_LEVELS ensures LevelNewer(v', i, j) {
      ReplacedPairIsNewer(upper, v, level, inputs0, inputs1, outputs, v', i, j);
    }
  }

  lemma ReplacedCut(v: Version, level: nat, inputs0: seq<File>, inputs1: seq<File>, outputs: seq<File>, v': Version)
    requires |v| == |v'| == NUM_LEVELS && level + 1 < NUM_LEVELS
    requires Replaced(v, level, inputs0, inputs1, outputs, v')
    ensures VersionEntries(v') == EntriesOf(v, 0, level) + FilesEntries(LeftOver(v[level], inputs0))
                                  + FilesEntries(LeftOver(v[level + 1], inputs1)) + FilesEntries(outputs)
                                  + EntriesOf(v, level + 2, NUM_LEVELS)
  {
    CutVersion(v', level);
    ReplacedEntries(v, level, inputs0, inputs1, outputs, v', level);
    ReplacedEntries(v, level, inputs0, inputs1, outputs, v', level + 1);
    assert EntriesOf(v', 0, level) == EntriesOf(v, 0, level);
    assert EntriesOf(v', level + 2, NUM_LEVELS) == EntriesOf(v, level + 2, NUM_LEVELS);
  }

  lemma PartsOfVersion(v: Version, level: nat, inputs0: seq<File>, inputs1: seq<File>)
    requires |v| == NUM_LEVELS && level + 1 < NUM_LEVELS
    ensures EntriesOf(v, 0, level) <= VersionEntries(v) && EntriesOf(v, level + 2, NUM_LEVELS) <= VersionEntries(v)
    ensures FilesEntries(LeftOver(v[level], inputs0)) <= VersionEntries(v)
    ensures FilesEntries(LeftOver(v[level + 1], inputs1)) <= VersionEntries(v)
  {
    assert FilesEntries(LeftOver(v[level], inputs0)) <= FilesEntries(v[level]);
    assert FilesEntries(LeftOver(v[level + 1], inputs1)) <= FilesEntries(v[level + 1]);
  }

  /** The entries of the version afterwards. */
  lemma ReplacementEntries(upper: set<Entry>, v: Version, level: nat, inputs0: seq<File>, inputs1: seq<File>,
                           outputs: seq<File>, v': Version)
    requires |v| == |v'| == NUM_LEVELS && level + 1 < NUM_LEVELS
    requires Replaced(v, level, inputs0, inputs1, outputs, v')
    ensures upper + VersionEntries(v')
         == SceneOf(upper, v, level, inputs0, inputs1).Rest() + FilesEntries(outputs)
    ensures VersionEntries(v') <= VersionEntries(v) + FilesEntries(outputs)
  {
    ReplacedCut(v, level, inputs0, inputs1, outputs, v');
    PartsOfVersion(v, level, inputs0, inputs1);
  }
}
