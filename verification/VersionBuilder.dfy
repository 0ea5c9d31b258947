/** Applying edits to a version (db/version_set.cc, VersionSet::Builder). */
module VersionBuilder {
  import opened Dbformat
  import opened Version

  datatype VersionEdit = VersionEdit(deletedFiles: set<(nat, nat)>, newFiles: seq<(nat, File)>) {
    // DecodeFrom accepts only these levels.
    predicate LevelsInRange() {
      && (forall d :: d in deletedFiles ==> d.0 < NUM_LEVELS)
      && (forall n :: n in newFiles ==> n.0 < NUM_LEVELS)
    }
  }

  predicate BySmallest(f: File, g: File) {
    Less(f.smallest, g.smallest) || (f.smallest == g.smallest && f.number < g.number)
  }

  ghost predicate InOrder(files: seq<File>) {
    forall i, j :: 0 <= i < j < |files| ==> BySmallest(files[i], files[j])
  }

  // ---- the files an edit names at one level ------------------------------------

  function DeletedAt(deletedFiles: set<(nat, nat)>, level: nat): set<nat> {
    set d | d in deletedFiles && d.0 == level :: d.1
  }

  lemma DeletedAtRemove(deletedFiles: set<(nat, nat)>, d: (nat, nat), level: nat)
    requires d in deletedFiles
    ensures DeletedAt(deletedFiles, level)
         == DeletedAt(deletedFiles - {d}, level) + if d.0 == level then {d.1} else {}
  {
    forall n | n in DeletedAt(deletedFiles, level)
      ensures n in DeletedAt(deletedFiles - {d}, level) + if d.0 == level then {d.1} else {}
    {
      var x :| x in deletedFiles && x.0 == level && x.1 == n;
    }
  }

  function NewAt(newFiles: seq<(nat, File)>, level: nat): seq<File> {
    if newFiles == [] then []
    else
      var n := |newFiles| - 1;
      if newFiles[n].0 == level then NewAt(newFiles[..n], level) + [newFiles[n].1] else NewAt(newFiles[..n], level)
  }

  function Numbers(files: seq<File>): set<nat> { set f | f in files :: f.number }

  lemma NewAtAppend(newFiles: seq<(nat, File)>, x: (nat, File), level: nat)
    ensures NewAt(newFiles + [x], level)
         == if x.0 == level then NewAt(newFiles, level) + [x.1] else NewAt(newFiles, level)
  {
    assert (newFiles + [x])[..|newFiles|] == newFiles;
  }

  // ---- std::set ordered by BySmallest ------------------------------------------

  /** Inserting an element equivalent to one in the set changes nothing. */
  function Insert(files: seq<File>, f: File): seq<File> {
    if files == [] then [f]
    else if BySmallest(f, files[0]) then [f] + files
    else if BySmallest(files[0], f) then [files[0]] + Insert(files[1..], f)
    else files
  }

  // ---- one level of SaveTo -----------------------------------------------------

  function Survivors(files: seq<File>, deleted: set<nat>): seq<File> {
    if files == [] then []
    else (if files[0].number in deleted then [] else [files[0]]) + Survivors(files[1..], deleted)
  }

  /** Added files go in before the first base file that sorts after them. */
  function MergeFiles(base: seq<File>, added: seq<File>): seq<File>
    decreases |base| + |added|
  {
    if added == [] then base
    else if base == [] || BySmallest(added[0], base[0]) then [added[0]] + MergeFiles(base, added[1..])
    else [base[0]] + MergeFiles(base[1..], added)
  }

  function SaveLevel(base: seq<File>, added: seq<File>, deleted: set<nat>): seq<File> {
    Survivors(MergeFiles(base, added), deleted)
  }

  datatype LevelState = LevelState(deleted: set<nat>, added: seq<File>) {
    function Delete(numbers: set<nat>): LevelState { this.(deleted := deleted + numbers) }

    function Add(f: File): LevelState { LevelState(deleted - {f.number}, Insert(added, f)) }

    function AddAll(news: seq<File>): LevelState {
      if news == [] then this else AddAll(news[..|news| - 1]).Add(news[|news| - 1])
    }

    /** Deletions first, then additions; adding a file takes back its deletion. */
    function Applied(edit: VersionEdit, level: nat): LevelState {
      Delete(DeletedAt(edit.deletedFiles, level)).AddAll(NewAt(edit.newFiles, level))
    }
  }

  lemma AddAllAppend(st: LevelState, news: seq<File>, f: File)
    ensures st.AddAll(news + [f]) == st.AddAll(news).Add(f)
  {
    assert (news + [f])[..|news|] == news;
  }

  class Builder {
    const base: Version
    var levels: seq<LevelState>

    ghost predicate Valid()
      reads this
    {
      |base| == |levels| == NUM_LEVELS
    }

    constructor (v: Version)
      requires |v| == NUM_LEVELS
      ensures Valid() && base == v
      ensures forall l :: 0 <= l < NUM_LEVELS ==> levels[l] == LevelState({}, [])
    {
      base := v;
      var e := LevelState({}, []);
      levels := [e, e, e, e, e, e, e];
    }

    method MarkDeleted(deletedFiles: set<(nat, nat)>)
      requires Valid() && forall d :: d in deletedFiles ==> d.0 < NUM_LEVELS
      modifies this
      ensures Valid()
      ensures forall l :: 0 <= l < NUM_LEVELS ==> levels[l] == old(levels[l]).Delete(DeletedAt(deletedFiles, l))
    {
      var todo := deletedFiles;
      while todo != {}
        invariant Valid() && todo <= deletedFiles
        invariant forall l :: 0 <= l < NUM_LEVELS ==>
                    levels[l].Delete(DeletedAt(todo, l)) == old(levels[l]).Delete(DeletedAt(deletedFiles, l))
        decreases todo
      {
        var d :| d in todo;
        forall l: nat ensures DeletedAt(todo, l) == DeletedAt(todo - {d}, l) + if d.0 == l then {d.1} else {} {
          DeletedAtRemove(todo, d, l);
        }
        levels := levels[d.0 := levels[d.0].Delete({d.1})];
        todo := todo - {d};
      }
      assert forall l :: 0 <= l < NUM_LEVELS ==> levels[l].Delete(DeletedAt({}, l)) == levels[l];
    }

    method AddFiles(newFiles: seq<(nat, File)>)
      requires Valid() && forall n :: n in newFiles ==> n.0 < NUM_LEVELS
      modifies this
      ensures Valid()
      ensures forall l :: 0 <= l < NUM_LEVELS ==> levels[l] == old(levels[l]).AddAll(NewAt(newFiles, l))
    {
      for i := 0 to |newFiles|
        invariant Valid()
        invariant forall l :: 0 <= l < NUM_LEVELS ==> levels[l] == old(levels[l]).AddAll(NewAt(newFiles[..i], l))
      {
        var (level, f) := newFiles[i];
        assert newFiles[i] in newFiles;
        assert newFiles[..i + 1] == newFiles[..i] + [newFiles[i]];
        forall l | 0 <= l < NUM_LEVELS
          ensures old(levels[l]).AddAll(NewAt(newFiles[..i + 1], l))
               == if l == level then levels[l].Add(f) else levels[l]
        {
          NewAtAppend(newFiles[..i], newFiles[i], l);
          AddAllAppend(old(levels[l]), NewAt(newFiles[..i], l), f);
        }
        levels := levels[level := levels[level].Add(f)];
      }
      assert newFiles[..|newFiles|] == newFiles;
    }

    method Apply(edit: VersionEdit)
      requires Valid() && edit.LevelsInRange()
      modifies this
      ensures Valid()
      ensures forall l :: 0 <= l < NUM_LEVELS ==> levels[l] == old(levels[l]).Applied(edit, l)
    {
      MarkDeleted(edit.deletedFiles);
      AddFiles(edit.newFiles);
    }

    method SaveTo() returns (v: Version)
      requires Valid()
      ensures |v| == NUM_LEVELS
      ensures forall l :: 0 <= l < NUM_LEVELS ==> v[l] == SaveLevel(base[l], levels[l].added, levels[l].deleted)
    {
      v := [];
      for level := 0 to NUM_LEVELS
        invariant |v| == level
        invariant forall l :: 0 <= l < level ==> v[l] == SaveLevel(base[l], levels[l].added, levels[l].deleted)
      {
        var files := MergeSurvivors(base[level], levels[level].added, levels[level].deleted);
        v := v + [files];
      }
    }
  }

  // MaybeAddFile: a deleted file is left out.
  function MaybeAdd(files: seq<File>, f: File, deleted: set<nat>): seq<File> {
    if f.number in deleted then files else files + [f]
  }

  lemma SaveStep(files: seq<File>, base: seq<File>, added: seq<File>, deleted: set<nat>, b: nat, a: nat)
    requires b <= |base| && a <= |added|
    ensures b < |base| && (a < |added| ==> !BySmallest(added[a], base[b])) ==>
              files + SaveLevel(base[b..], added[a..], deleted)
              == MaybeAdd(files, base[b], deleted) + SaveLevel(base[b + 1..], added[a..], deleted)
    ensures a < |added| && (b == |base| || BySmallest(added[a], base[b])) ==>
              files + SaveLevel(base[b..], added[a..], deleted)
              == MaybeAdd(files, added[a], deleted) + SaveLevel(base[b..], added[a + 1..], deleted)
  {
    if a < |added| { assert added[a..][1..] == added[a + 1..]; }
    if b < |base| { assert base[b..][1..] == base[b + 1..]; }
  }

  method MergeSurvivors(base: seq<File>, added: seq<File>, deleted: set<nat>) returns (files: seq<File>)
    ensures files == SaveLevel(base, added, deleted)
  {
    files := [];
    var b := 0;
    for a := 0 to |added|
      invariant b <= |base|
      invariant SaveLevel(base, added, deleted) == files + SaveLevel(base[b..], added[a..], deleted)
    {
      while b < |base| && !BySmallest(added[a], base[b])
        invariant b <= |base|
        invariant SaveLevel(base, added, deleted) == files + SaveLevel(base[b..], added[a..], deleted)
      {
        SaveStep(files, base, added, deleted, b, a);
        files, b := MaybeAdd(files, base[b], deleted), b + 1;
      }
      SaveStep(files, base, added, deleted, b, a);
      files := MaybeAdd(files, added[a], deleted);
    }
    while b < |base|
      invariant b <= |base|
      invariant SaveLevel(base, added, deleted) == files + SaveLevel(base[b..], added[|added|..], deleted)
    {
      SaveStep(files, base, added, deleted, b, |added|);
      files, b := MaybeAdd(files, base[b], deleted), b + 1;
    }
    assert files + SaveLevel([], [], deleted) == files;
  }

  // ---- what a saved level holds -------------------------------------------------

  lemma {:induction false} SurvivorsMembers(files: seq<File>, deleted: set<nat>)
    ensures forall f :: f in Survivors(files, deleted) <==> f in files && f.number !in deleted
  {
    if files != [] { SurvivorsMembers(files[1..], deleted); }
  }

  lemma {:induction false} SurvivorsInOrder(files: seq<File>, deleted: set<nat>)
    requires InOrder(files)
    ensures InOrder(Survivors(files, deleted))
  {
    if files != [] {
      SurvivorsInOrder(files[1..], deleted);
      SurvivorsMembers(files[1..], deleted);
      assert forall f :: f in files[1..] ==> BySmallest(files[0], f);
      var rest := Survivors(files[1..], deleted);
      assert forall i :: 0 <= i < |rest| ==> rest[i] in rest;
    }
  }

  lemma {:induction false} MergeMembers(base: seq<File>, added: seq<File>)
    ensures forall f :: f in MergeFiles(base, added) <==> f in base || f in added
    decreases |base| + |added|
  {
    if added != [] {
      if base == [] || BySmallest(added[0], base[0]) {
        MergeMembers(base, added[1..]);
      } else {
        MergeMembers(base[1..], added);
      }
    }
  }

  ghost predicate Distinct(base: seq<File>, added: seq<File>) {
    forall f, g :: f in base && g in added ==> BySmallest(f, g) || BySmallest(g, f)
  }

  lemma BySmallestOrder(f: File, g: File, h: File)
    ensures BySmallest(f, g) && BySmallest(g, h) ==> BySmallest(f, h)
    ensures BySmallest(f, g) ==> !BySmallest(g, f)
  {}

  lemma HeadFirst(f: File, files: seq<File>)
    requires InOrder(files) && forall g :: g in files ==> BySmallest(f, g)
    ensures InOrder([f] + files)
  {
    assert forall i :: 0 <= i < |files| ==> files[i] in files;
  }

  lemma {:induction false} MergeInOrder(base: seq<File>, added: seq<File>)
    requires InOrder(base) && InOrder(added) && Distinct(base, added)
    ensures InOrder(MergeFiles(base, added))
    decreases |base| + |added|
  {
    if added == [] { return; }
    if base == [] || BySmallest(added[0], base[0]) {
      MergeInOrder(base, added[1..]);
      MergeMembers(base, added[1..]);
      forall g | g in MergeFiles(base, added[1..]) ensures BySmallest(added[0], g) {
        if g in base { BySmallestOrder(added[0], base[0], g); }
      }
      HeadFirst(added[0], MergeFiles(base, added[1..]));
    } else {
      MergeInOrder(base[1..], added);
      MergeMembers(base[1..], added);
      assert base[0] in base && added[0] in added;
      forall g | g in MergeFiles(base[1..], added) ensures BySmallest(base[0], g) {
        if g in added { BySmallestOrder(base[0], added[0], g); }
      }
      HeadFirst(base[0], MergeFiles(base[1..], added));
    }
  }

  /** SaveTo keeps base and added files except the deleted ones, in BySmallest order. */
  lemma SaveLevelIsSet(base: seq<File>, added: seq<File>, deleted: set<nat>)
    requires InOrder(base) && InOrder(added) && Distinct(base, added)
    ensures InOrder(SaveLevel(base, added, deleted))
    ensures forall f :: f in SaveLevel(base, added, deleted) <==> (f in base || f in added) && f.number !in deleted
  {
    MergeInOrder(base, added);
    MergeMembers(base, added);
    SurvivorsInOrder(MergeFiles(base, added), deleted);
    SurvivorsMembers(MergeFiles(base, added), deleted);
  }

  lemma {:induction false} InsertKeepsOrder(files: seq<File>, f: File)
    requires InOrder(files)
    ensures InOrder(Insert(files, f))
    ensures forall g :: g in Insert(files, f) ==> g in files || g == f
    ensures forall g :: g in files ==> g in Insert(files, f)
    ensures (forall g :: g in files ==> g.number != f.number) ==> f in Insert(files, f)
  {
    if files == [] {
    } else if BySmallest(f, files[0]) {
      forall g | g in files ensures BySmallest(f, g) { BySmallestOrder(f, files[0], g); }
      HeadFirst(f, files);
    } else if BySmallest(files[0], f) {
      InsertKeepsOrder(files[1..], f);
      HeadFirst(files[0], Insert(files[1..], f));
    } else {
      CompareIsOrder(f.smallest, files[0].smallest, f.smallest);
      assert files[0] in files;
    }
  }

  /** An ordered list of files with pairwise separate ranges is a sorted level. */
  lemma InOrderIsDisjoint(files: seq<File>)
    requires InOrder(files)
    requires forall f, g :: f in files && g in files && f != g ==>
               Less(f.largest, g.smallest) || Less(g.largest, f.smallest)
    ensures SortedDisjoint(files)
  {
    forall i, j | 0 <= i < j < |files| ensures Less(files[i].largest, files[j].smallest) {
      assert BySmallest(files[i], files[j]) && files[i] != files[j];
    }
  }

  lemma HeadIsOnlyFirst(files: seq<File>)
    requires InOrder(files) && files != []
    ensures forall f :: f in files[1..] <==> f in files && f != files[0]
  {
    forall f | f in files[1..] ensures f != files[0] { BySmallestOrder(files[0], f, f); }
  }

  lemma {:induction false} InOrderIsUnique(a: seq<File>, b: seq<File>)
    requires InOrder(a) && InOrder(b) && forall f :: f in a <==> f in b
    ensures a == b
  {
    assert b != [] ==> b[0] in a;
    if a != [] {
      assert a[0] in b;
      var i :| 0 <= i < |b| && b[i] == a[0];
      var j :| 0 <= j < |a| && a[j] == b[0];
      BySmallestOrder(a[0], b[0], a[0]);
      assert i == 0;
      HeadIsOnlyFirst(a);
      HeadIsOnlyFirst(b);
      InOrderIsUnique(a[1..], b[1..]);
    }
  }

  // ---- replaying the manifest ---------------------------------------------------

  /** VersionSet::LogAndApply: one builder per edit. */
  function NextVersion(v: Version, edit: VersionEdit): (v': Version)
    requires |v| == NUM_LEVELS
    ensures |v'| == NUM_LEVELS
  {
    seq(NUM_LEVELS, l requires 0 <= l < NUM_LEVELS =>
      var st := LevelState({}, []).Applied(edit, l);
      SaveLevel(v[l], st.added, st.deleted))
  }

  function Installed(v: Version, edits: seq<VersionEdit>): (v': Version)
    requires |v| == NUM_LEVELS
    ensures |v'| == NUM_LEVELS
  {
    if edits == [] then v else NextVersion(Installed(v, edits[..|edits| - 1]), edits[|edits| - 1])
  }

  /** VersionSet::Recover: one builder for all edits of the manifest. */
  function Accumulated(edits: seq<VersionEdit>, level: nat): LevelState {
    if edits == [] then LevelState({}, [])
    else Accumulated(edits[..|edits| - 1], level).Applied(edits[|edits| - 1], level)
  }

  // All files that were ever at the level.
  function EverAt(base: seq<File>, edits: seq<VersionEdit>, level: nat): seq<File> {
    if edits == [] then base
    else EverAt(base, edits[..|edits| - 1], level) + NewAt(edits[|edits| - 1].newFiles, level)
  }

  /** Every file number is added at most once per level. */
  ghost predicate NumbersDiffer(files: seq<File>) {
    forall i, j :: 0 <= i < j < |files| ==> files[i].number != files[j].number
  }

  lemma {:induction false} AddAllFresh(st: LevelState, news: seq<File>)
    requires InOrder(st.added) && NumbersDiffer(news)
    requires forall f, g :: f in st.added && g in news ==> f.number != g.number
    ensures InOrder(st.AddAll(news).added)
    ensures forall f :: f in st.AddAll(news).added <==> f in st.added || f in news
    ensures st.AddAll(news).deleted == st.deleted - Numbers(news)
  {
    if news != [] {
      var n := |news| - 1;
      var front, f := news[..n], news[n];
      assert news == front + [f];
      AddAllFresh(st, front);
      InsertKeepsOrder(st.AddAll(front).added, f);
      NumbersAppend(front, f);
    }
  }

  lemma NumbersAppend(files: seq<File>, f: File)
    ensures Numbers(files + [f]) == Numbers(files) + {f.number}
  {
    assert forall g :: g in files + [f] <==> g in files || g == f;
  }

  lemma NumbersDifferSplit(a: seq<File>, b: seq<File>)
    requires NumbersDiffer(a + b)
    ensures NumbersDiffer(a) && NumbersDiffer(b)
    ensures forall f, g :: f in a && g in b ==> f.number != g.number
  {
    var c := a + b;
    assert forall i :: 0 <= i < |a| ==> c[i] == a[i];
    assert forall i :: 0 <= i < |b| ==> c[|a| + i] == b[i];
  }

  lemma DifferentNumbersCompare(f: File, g: File)
    requires f.number != g.number
    ensures BySmallest(f, g) || BySmallest(g, f)
  {
    CompareIsOrder(f.smallest, g.smallest, f.smallest);
  }

  /** Installing one more edit: the files ever added, less those deleted and not added
      again by the same edit. */
  lemma InstallLevel(files: seq<File>, edit: VersionEdit, level: nat)
    requires InOrder(files) && NumbersDiffer(NewAt(edit.newFiles, level))
    requires forall f, g :: f in files && g in NewAt(edit.newFiles, level) ==> f.number != g.number
    ensures var st := LevelState({}, []).Applied(edit, level);
      && InOrder(SaveLevel(files, st.added, st.deleted))
      && forall f :: f in SaveLevel(files, st.added, st.deleted) <==>
           || f in NewAt(edit.newFiles, level)
           || (f in files && f.number !in DeletedAt(edit.deletedFiles, level))
  {
    var news, dels := NewAt(edit.newFiles, level), DeletedAt(edit.deletedFiles, level);
    var st := LevelState({}, []).Applied(edit, level);
    AddAllFresh(LevelState(dels, []), news);
    assert LevelState({}, []).Delete(dels) == LevelState(dels, []);
    forall f, g | f in files && g in st.added ensures BySmallest(f, g) || BySmallest(g, f) {
      DifferentNumbersCompare(f, g);
    }
    SaveLevelIsSet(files, st.added, st.deleted);
  }

  /** Both ways of applying the edits keep exactly the files ever at the level that the
      accumulated deletions do not name. */
  lemma {:induction false} ReplayLevel(v: Version, edits: seq<VersionEdit>, level: nat)
    requires |v| == NUM_LEVELS && level < NUM_LEVELS && InOrder(v[level])
    requires NumbersDiffer(EverAt(v[level], edits, level))
    ensures var st := Accumulated(edits, level);
      && InOrder(st.added) && (forall f :: f in EverAt(v[level], edits, level) <==> f in v[level] || f in st.added)
      && (forall f, g :: f in v[level] && g in st.added ==> f.number != g.number)
      && InOrder(Installed(v, edits)[level])
      && forall f :: f in Installed(v, edits)[level] <==>
           f in EverAt(v[level], edits, level) && f.number !in st.deleted
  {
    if edits != [] {
      var front, edit := edits[..|edits| - 1], edits[|edits| - 1];
      var ever, news := EverAt(v[level], front, level), NewAt(edit.newFiles, level);
      var dels := DeletedAt(edit.deletedFiles, level);
      NumbersDifferSplit(ever, news);
      ReplayLevel(v, front, level);
      InstallLevel(Installed(v, front)[level], edit, level);
      AddAllFresh(Accumulated(front, level).Delete(dels), news);
      forall f | f in ever ensures f.number !in Numbers(news) {}
    }
  }

  /** Replaying the manifest with one builder gives the version that installing its edits
      one at a time had reached, file by file and in the same order. */
  lemma ReplayIsInstallation(v: Version, edits: seq<VersionEdit>, level: nat)
    requires |v| == NUM_LEVELS && level < NUM_LEVELS && InOrder(v[level])
    requires NumbersDiffer(EverAt(v[level], edits, level))
    ensures SaveLevel(v[level], Accumulated(edits, level).added, Accumulated(edits, level).deleted)
         == Installed(v, edits)[level]
  {
    var st := Accumulated(edits, level);
    ReplayLevel(v, edits, level);
    forall f, g | f in v[level] && g in st.added ensures BySmallest(f, g) || BySmallest(g, f) {
      DifferentNumbersCompare(f, g);
    }
    SaveLevelIsSet(v[level], st.added, st.deleted);
    InOrderIsUnique(SaveLevel(v[level], st.added, st.deleted), Installed(v, edits)[level]);
  }

  /** LogAndApply on the version alone. */
  method InstallEdit(v: Version, edit: VersionEdit) returns (v': Version)
    requires |v| == NUM_LEVELS && edit.LevelsInRange()
    ensures v' == NextVersion(v, edit)
  {
    var builder := new Builder(v);
    builder.Apply(edit);
    v' := builder.SaveTo();
  }

  /** VersionSet::Recover on the version alone: one builder reads the whole manifest, and
      the version it saves is the one that was current when the manifest was written. */
  method ReplayManifest(v: Version, edits: seq<VersionEdit>) returns (v': Version)
    requires |v| == NUM_LEVELS && forall e :: e in edits ==> e.LevelsInRange()
    requires forall l :: 0 <= l < NUM_LEVELS ==> InOrder(v[l]) && NumbersDiffer(EverAt(v[l], edits, l))
    ensures v' == Installed(v, edits)
  {
    var builder := new Builder(v);
    for i := 0 to |edits|
      invariant builder.Valid() && builder.base == v
      invariant forall l :: 0 <= l < NUM_LEVELS ==> builder.levels[l] == Accumulated(edits[..i], l)
    {
      assert edits[..i + 1][..i] == edits[..i];
      builder.Apply(edits[i]);
    }
    assert edits[..|edits|] == edits;
    v' := builder.SaveTo();
    forall l | 0 <= l < NUM_LEVELS ensures v'[l] == Installed(v, edits)[l] {
      ReplayIsInstallation(v, edits, l);
    }
  }

  /** The premise is needed: a number added again at its level, with other bounds, is
      saved twice by the replay. */
  lemma ReAddedNumberIsSavedTwice(f: File, g: File)
    requires f.number == g.number && Less(f.smallest, g.smallest)
    ensures var edits := [VersionEdit({}, [(1, f)]), VersionEdit({(1, f.number)}, []), VersionEdit({}, [(1, g)])];
      var v: Version := [[], [], [], [], [], [], []];
      && Installed(v, edits)[1] == [g]
      && SaveLevel([], Accumulated(edits, 1).added, Accumulated(edits, 1).deleted) == [f, g]
  {
    var e0, e1, e2 := VersionEdit({}, [(1, f)]), VersionEdit({(1, f.number)}, []), VersionEdit({}, [(1, g)]);
    var v: Version := [[], [], [], [], [], [], []];
    AppliedAdd(LevelState({}, []), f);
    AppliedDelete(LevelState({}, []), f.number);
    AppliedAdd(LevelState({}, []), g);
    AppliedDelete(LevelState({}, [f]), f.number);
    AppliedAdd(LevelState({f.number}, [f]), g);
    assert [e0, e1, e2][..2] == [e0, e1] && [e0, e1][..1] == [e0] && [e0][..0] == [];
    TakeBack(f, g);
    SaveSmallLevels(f, g);
    assert Accumulated([e0], 1) == LevelState({}, [f]);
    assert Accumulated([e0, e1], 1) == LevelState({f.number}, [f]);
    assert Accumulated([e0, e1, e2], 1) == LevelState({}, [f, g]);
    assert Installed(v, [e0])[1] == [f];
    assert Installed(v, [e0, e1])[1] == [];
  }

  lemma TakeBack(f: File, g: File)
    requires f.number == g.number && Less(f.smallest, g.smallest)
    ensures LevelState({f.number}, [f]).Add(g) == LevelState({}, [f, g])
    ensures LevelState({}, []).Add(f) == LevelState({}, [f]) && LevelState({}, []).Add(g) == LevelState({}, [g])
    ensures LevelState({}, []).Delete({f.number}) == LevelState({f.number}, [])
    ensures LevelState({}, [f]).Delete({f.number}) == LevelState({f.number}, [f])
  {
    assert [f][1..] == [] && !BySmallest(g, f);
    assert Insert([], g) == [g] && Insert([f], g) == [f] + [g];
  }

  lemma SaveSmallLevels(f: File, g: File)
    ensures SaveLevel([], [f], {}) == [f] && SaveLevel([], [g], {}) == [g] && SaveLevel([], [f, g], {}) == [f, g]
    ensures SaveLevel([f], [], {f.number}) == []
  {
    assert [f, g][1..] == [g] && [g][1..] == [] && [f][1..] == [];
    assert MergeFiles([], []) == [] && MergeFiles([], [g]) == [g] + [] && MergeFiles([], [f]) == [f] + [];
    assert MergeFiles([], [f, g]) == [f] + [g];
    assert Survivors([], {}) == [] && Survivors([g], {}) == [g] && Survivors([f], {}) == [f];
    assert Survivors([f, g], {}) == [f] + [g];
    assert MergeFiles([f], []) == [f] && Survivors([f], {f.number}) == [];
  }

  lemma AppliedAdd(st: LevelState, f: File)
    ensures st.Applied(VersionEdit({}, [(1, f)]), 1) == st.Add(f)
  {
    assert [(1, f)][..0] == [] && NewAt([], 1) == [];
    assert DeletedAt({}, 1) == {} && NewAt([(1, f)], 1) == [] + [f] == [f];
    AddOne(st, f);
  }

  lemma AddOne(st: LevelState, f: File)
    ensures st.Delete({}) == st && st.AddAll([f]) == st.Add(f)
  {
    assert [f][..0] == [] && st.AddAll([]) == st;
  }

  lemma AppliedDelete(st: LevelState, n: nat)
    ensures st.Applied(VersionEdit({(1, n)}, []), 1) == st.Delete({n})
  {
    assert (1, n) in {(1, n)};
    assert DeletedAt({(1, n)}, 1) == {n};
  }
}
