/** The versions that the edits of a flush, a trivial move and a compaction install
    (db/db_impl.cc, db/version_set.cc). */
module Install {
  import opened Dbformat
  import opened Version
  import opened InputSelection
  import opened CompactionScene
  import opened VersionBuilder
  import opened LevelSteps
  import opened Flush

  ghost predicate NoCommonNumber(a: seq<File>, b: seq<File>) {
    forall f, g :: f in a && g in b ==> f.number != g.number
  }

  ghost predicate LevelsShareNoNumber(v: Version, l: nat, m: nat)
    requires l < |v| && m < |v|
  {
    NoCommonNumber(v[l], v[m])
  }

  ghost predicate NumbersBelow(files: seq<File>, next: nat) {
    forall f :: f in files ==> f.number < next
  }

  /** Every file number was handed out by NewFileNumber and stands at one level. */
  ghost predicate Numbered(v: Version, next: nat) {
    && |v| == NUM_LEVELS
    && (forall l, m :: 0 <= l < NUM_LEVELS && 0 <= m < NUM_LEVELS && l != m ==> LevelsShareNoNumber(v, l, m))
    && (forall l :: 0 <= l < NUM_LEVELS ==> NumbersBelow(v[l], next))
  }

  lemma SameNumberSameFile(files: seq<File>, f: File, g: File)
    requires NumbersDiffer(files) && f in files && g in files
    ensures f.number == g.number ==> f == g
  {
    var i :| 0 <= i < |files| && files[i] == f;
    var j :| 0 <= j < |files| && files[j] == g;
  }

  /** Files with distinct numbers stay so when a level is saved. */
  lemma SavedNumbersDiffer(files: seq<File>)
    requires InOrder(files)
    requires forall f, g :: f in files && g in files && f.number == g.number ==> f == g
    ensures NumbersDiffer(files)
  {
    forall i, j | 0 <= i < j < |files| ensures files[i].number != files[j].number {
      assert BySmallest(files[i], files[j]);
      assert files[i] in files && files[j] in files;
    }
  }

  /** A level that the edit adds to or deletes from. */
  lemma InstalledLevel(v: Version, edit: VersionEdit, level: nat, picked: seq<File>, outputs: seq<File>)
    requires |v| == NUM_LEVELS && level < NUM_LEVELS && SavedLevel(v[level])
    requires DeletedAt(edit.deletedFiles, level) == Numbers(picked) && forall f :: f in picked ==> f in v[level]
    requires NewAt(edit.newFiles, level) == outputs && NumbersDiffer(outputs) && NoCommonNumber(v[level], outputs)
    ensures var files := NextVersion(v, edit)[level];
      && SavedLevel(files)
      && forall f :: f in files <==> f in LeftOver(v[level], picked) || f in outputs
  {
    InstallLevel(v[level], edit, level);
    var files := NextVersion(v, edit)[level];
    forall f | f in v[level] ensures f.number in Numbers(picked) <==> f in picked {
      if f.number in Numbers(picked) {
        var g :| g in picked && g.number == f.number;
        SameNumberSameFile(v[level], f, g);
      }
    }
    forall f, g | f in files && g in files && f.number == g.number ensures f == g {
      if f in v[level] && g in v[level] {
        SameNumberSameFile(v[level], f, g);
      } else if f in outputs && g in outputs {
        SameNumberSameFile(outputs, f, g);
      }
    }
    SavedNumbersDiffer(files);
  }

  /** A level that the edit does not mention. */
  lemma UntouchedLevel(v: Version, edit: VersionEdit, level: nat)
    requires |v| == NUM_LEVELS && level < NUM_LEVELS && SavedLevel(v[level])
    requires DeletedAt(edit.deletedFiles, level) == {} && NewAt(edit.newFiles, level) == []
    ensures NextVersion(v, edit)[level] == v[level]
  {
    InstallLevel(v[level], edit, level);
    InOrderIsUnique(NextVersion(v, edit)[level], v[level]);
  }

  // ---- the edit of a compaction --------------------------------------------------

  function Deletions(level: nat, files: seq<File>): set<(nat, nat)> {
    set f | f in files :: (level, f.number)
  }

  function Additions(level: nat, files: seq<File>): seq<(nat, File)> {
    seq(|files|, i requires 0 <= i < |files| => (level, files[i]))
  }

  lemma {:induction false} AdditionsAt(level: nat, files: seq<File>, l: nat)
    ensures NewAt(Additions(level, files), l) == if l == level then files else []
    decreases |files|
  {
    if files != [] {
      var n := |files| - 1;
      assert Additions(level, files)[..n] == Additions(level, files[..n]);
      AdditionsAt(level, files[..n], l);
      assert files == files[..n] + [files[n]];
    }
  }

  lemma DeletionsAt(level: nat, files: seq<File>, level': nat, files': seq<File>, l: nat)
    requires level != level'
    ensures DeletedAt(Deletions(level, files) + Deletions(level', files'), l)
         == if l == level then Numbers(files) else if l == level' then Numbers(files') else {}
  {
    var d := Deletions(level, files) + Deletions(level', files');
    forall n | n in Numbers(files) ensures n in DeletedAt(d, level) {
      assert (level, n) in d;
    }
    forall n | n in Numbers(files') ensures n in DeletedAt(d, level') {
      assert (level', n) in d;
    }
  }

  /** AddInputDeletions and InstallCompactionResults. */
  function CompactionEdit(level: nat, inputs0: seq<File>, inputs1: seq<File>, outputs: seq<File>): VersionEdit {
    VersionEdit(Deletions(level, inputs0) + Deletions(level + 1, inputs1), Additions(level + 1, outputs))
  }

  lemma NothingToPick(files: seq<File>)
    ensures SameFiles(LeftOver(files, []), files)
  {}

  lemma CompactionReplaces(v: Version, level: nat, inputs0: seq<File>, inputs1: seq<File>, outputs: seq<File>)
    requires Saved(v) && Selected(v, level, inputs0, inputs1)
    requires NumbersDiffer(outputs) && NoCommonNumber(v[level + 1], outputs)
    ensures Replaced(v, level, inputs0, inputs1, outputs, NextVersion(v, CompactionEdit(level, inputs0, inputs1, outputs)))
  {
    var edit := CompactionEdit(level, inputs0, inputs1, outputs);
    PickedAreFiles(level, v[level], inputs0);
    forall l | 0 <= l < NUM_LEVELS
      ensures SavedLevel(v[l])
      ensures NewAt(edit.newFiles, l) == if l == level + 1 then outputs else []
      ensures DeletedAt(edit.deletedFiles, l)
           == if l == level then Numbers(inputs0) else if l == level + 1 then Numbers(inputs1) else {}
    {
      AdditionsAt(level + 1, outputs, l);
      DeletionsAt(level, inputs0, level + 1, inputs1, l);
    }
    InstalledLevel(v, edit, level, inputs0, []);
    InstalledLevel(v, edit, level + 1, inputs1, outputs);
    forall l | 0 <= l < NUM_LEVELS && l != level && l != level + 1 ensures NextVersion(v, edit)[l] == v[l] {
      UntouchedLevel(v, edit, l);
    }
  }

  lemma TableIsAdded(v: Version, level: nat, f: File)
    requires Saved(v) && level < NUM_LEVELS && NoCommonNumber(v[level], [f])
    ensures TableAdded(v, level, f, NextVersion(v, VersionEdit({}, [(level, f)])))
  {
    var edit := VersionEdit({}, [(level, f)]);
    assert Additions(level, [f]) == [(level, f)];
    forall l | 0 <= l < NUM_LEVELS
      ensures SavedLevel(v[l])
      ensures NewAt(edit.newFiles, l) == if l == level then [f] else []
      ensures DeletedAt(edit.deletedFiles, l) == {}
    {
      AdditionsAt(level, [f], l);
    }
    assert Numbers([]) == {};
    InstalledLevel(v, edit, level, [], [f]);
    NothingToPick(v[level]);
    forall l | 0 <= l < NUM_LEVELS && l != level ensures NextVersion(v, edit)[l] == v[l] {
      UntouchedLevel(v, edit, l);
    }
  }

  // ---- file numbers -----------------------------------------------------------

  lemma ReplacementNumbered(v: Version, level: nat, inputs0: seq<File>, inputs1: seq<File>, outputs: seq<File>,
                            v': Version, next: nat, next': nat)
    requires Numbered(v, next) && |v'| == NUM_LEVELS && level + 1 < NUM_LEVELS && next <= next'
    requires Replaced(v, level, inputs0, inputs1, outputs, v') && NumbersBelow(outputs, next')
    requires || (forall f :: f in outputs ==> next <= f.number)
             || (NumbersDiffer(v[level]) && forall f :: f in outputs ==> f in v[level] && f in inputs0)
    ensures Numbered(v', next')
  {
    forall l | 0 <= l < NUM_LEVELS ensures NumbersBelow(v'[l], next') {
      assert NumbersBelow(v[l], next);
    }
    forall l, m | 0 <= l < NUM_LEVELS && 0 <= m < NUM_LEVELS && l != m
      ensures LevelsShareNoNumber(v', l, m)
    {
      forall f, g | f in v'[l] && g in v'[m] ensures f.number != g.number {
        ReplacedNumbersDiffer(v, level, inputs0, inputs1, outputs, v', next, l, m, f, g);
      }
    }
  }

  lemma ReplacedNumbersDiffer(v: Version, level: nat, inputs0: seq<File>, inputs1: seq<File>, outputs: seq<File>,
                              v': Version, next: nat, l: nat, m: nat, f: File, g: File)
    requires Numbered(v, next) && |v'| == NUM_LEVELS && level + 1 < NUM_LEVELS
    requires Replaced(v, level, inputs0, inputs1, outputs, v')
    requires || (forall h :: h in outputs ==> next <= h.number)
             || (NumbersDiffer(v[level]) && forall h :: h in outputs ==> h in v[level] && h in inputs0)
    requires l < NUM_LEVELS && m < NUM_LEVELS && l != m && f in v'[l] && g in v'[m]
    ensures f.number != g.number
  {
    assert LevelsShareNoNumber(v, l, m) && NumbersBelow(v[l], next) && NumbersBelow(v[m], next);
    if l == level + 1 && f in outputs && f !in v[l] {
      OutputNumberIsNew(v, level, inputs0, inputs1, outputs, v', next, m, f, g);
    } else if m == level + 1 && g in outputs && g !in v[m] {
      OutputNumberIsNew(v, level, inputs0, inputs1, outputs, v', next, l, g, f);
    }
  }

  lemma OutputNumberIsNew(v: Version, level: nat, inputs0: seq<File>, inputs1: seq<File>, outputs: seq<File>,
                          v': Version, next: nat, m: nat, f: File, g: File)
    requires Numbered(v, next) && |v'| == NUM_LEVELS && level + 1 < NUM_LEVELS
    requires Replaced(v, level, inputs0, inputs1, outputs, v')
    requires || (forall h :: h in outputs ==> next <= h.number)
             || (NumbersDiffer(v[level]) && forall h :: h in outputs ==> h in v[level] && h in inputs0)
    requires f in outputs && m < NUM_LEVELS && m != level + 1 && g in v'[m]
    ensures f.number != g.number
  {
    assert NumbersBelow(v[m], next) && g in v[m];
    if f.number < next {
      if m == level {
        SameNumberSameFile(v[level], f, g);
      } else {
        assert LevelsShareNoNumber(v, level, m);
      }
    }
  }

  lemma AddedNumbered(v: Version, level: nat, f: File, v': Version, next: nat)
    requires Numbered(v, next) && |v'| == NUM_LEVELS && level < NUM_LEVELS
    requires TableAdded(v, level, f, v') && f.number == next
    ensures Numbered(v', next + 1)
  {
    forall l | 0 <= l < NUM_LEVELS ensures NumbersBelow(v'[l], next + 1) {
      assert NumbersBelow(v[l], next);
    }
    forall l, m | 0 <= l < NUM_LEVELS && 0 <= m < NUM_LEVELS && l != m
      ensures LevelsShareNoNumber(v', l, m)
    {
      assert LevelsShareNoNumber(v, l, m) && NumbersBelow(v[l], next) && NumbersBelow(v[m], next);
    }
  }
}
