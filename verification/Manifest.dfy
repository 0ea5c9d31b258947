/** The manifest: a log of version edits, and the version it stands for
    (db/version_set.cc: LogAndApply, WriteSnapshot, Recover). */
module Manifest {
  import opened Dbformat
  import opened Version
  import opened VersionBuilder
  import opened LevelSteps
  import opened Install

  const EMPTY: Version := [[], [], [], [], [], [], []]

  datatype ManifestRecord = ManifestRecord(edit: VersionEdit, logNumber: Option<nat>, nextFile: Option<nat>,
                                           lastSequence: Option<SeqNo>)

  function Edits(records: seq<ManifestRecord>): (edits: seq<VersionEdit>)
    ensures |edits| == |records|
  {
    if records == [] then [] else Edits(records[..|records| - 1]) + [records[|records| - 1].edit]
  }

  /** The version that was current when the last record was written. */
  function VersionOf(records: seq<ManifestRecord>): (v: Version)
    ensures |v| == NUM_LEVELS
  {
    Installed(EMPTY, Edits(records))
  }

  // Recover keeps the last value it sees of each number.
  function Latest<T>(a: Option<T>, b: Option<T>): Option<T> { if b.Some? then b else a }

  datatype Numbers3 = Numbers3(logNumber: Option<nat>, nextFile: Option<nat>, lastSequence: Option<SeqNo>)

  function LatestNumbers(records: seq<ManifestRecord>): Numbers3 {
    if records == [] then Numbers3(None, None, None)
    else
      var n, r := LatestNumbers(records[..|records| - 1]), records[|records| - 1];
      Numbers3(Latest(n.logNumber, r.logNumber), Latest(n.nextFile, r.nextFile), Latest(n.lastSequence, r.lastSequence))
  }

  lemma Appended(records: seq<ManifestRecord>, r: ManifestRecord)
    ensures Edits(records + [r]) == Edits(records) + [r.edit]
    ensures VersionOf(records + [r]) == NextVersion(VersionOf(records), r.edit)
    ensures LatestNumbers(records + [r])
         == var n := LatestNumbers(records);
            Numbers3(Latest(n.logNumber, r.logNumber), Latest(n.nextFile, r.nextFile), Latest(n.lastSequence, r.lastSequence))
  {
    assert (records + [r])[..|records|] == records;
    assert (Edits(records) + [r.edit])[..|records|] == Edits(records);
  }

  // ---- no number is added twice at a level ------------------------------------------

  ghost predicate EverBelow(edits: seq<VersionEdit>, l: nat, next: nat) {
    forall f :: f in EverAt([], edits, l) ==> f.number < next
  }

  ghost predicate EverDiffer(edits: seq<VersionEdit>, l: nat) { NumbersDiffer(EverAt([], edits, l)) }

  /** A file that was ever at level `l` and is now at level `m` has only sunk. */
  ghost predicate OnlySank(edits: seq<VersionEdit>, v: Version, l: nat, m: nat)
    requires m < |v|
  {
    forall f, g :: f in EverAt([], edits, l) && g in v[m] && f.number == g.number ==> l <= m
  }

  /** What makes a replay with one builder reach the version itself. */
  ghost predicate Replayable(edits: seq<VersionEdit>, v: Version, next: nat) {
    && |v| == NUM_LEVELS
    && (forall l :: 0 <= l < NUM_LEVELS ==> EverBelow(edits, l, next) && EverDiffer(edits, l))
    && (forall l, m :: 0 <= l < NUM_LEVELS && 0 <= m < NUM_LEVELS ==> OnlySank(edits, v, l, m))
  }

  /** Where the added files come from: new numbers, or a file that sinks by this edit. */
  ghost predicate NewOrSinking(v: Version, next: nat, level: nat, f: File)
    requires |v| == NUM_LEVELS
  {
    next <= f.number || exists m :: 0 <= m < level && m < NUM_LEVELS && f in v[m]
  }

  /** An edit that adds files at one level only. */
  ghost predicate AddsAt(edit: VersionEdit, level: nat, v: Version, next: nat)
    requires |v| == NUM_LEVELS
  {
    && (forall l: nat :: l != level ==> NewAt(edit.newFiles, l) == [])
    && NumbersDiffer(NewAt(edit.newFiles, level))
    && forall f :: f in NewAt(edit.newFiles, level) ==> NewOrSinking(v, next, level, f)
  }

  /** The levels after the edit. */
  ghost predicate ComesFrom(v: Version, edit: VersionEdit, v': Version, m: nat)
    requires m < |v| && m < |v'|
  {
    && (forall f :: f in v'[m] ==> f in v[m] || f in NewAt(edit.newFiles, m))
    && forall f :: f in NewAt(edit.newFiles, m) ==> f in v'[m]
  }

  lemma EverAppend(edits: seq<VersionEdit>, edit: VersionEdit, l: nat)
    ensures EverAt([], edits + [edit], l) == EverAt([], edits, l) + NewAt(edit.newFiles, l)
  {
    assert (edits + [edit])[..|edits|] == edits;
  }

  lemma NumbersDifferJoin(a: seq<File>, b: seq<File>)
    requires NumbersDiffer(a) && NumbersDiffer(b)
    requires forall f, g :: f in a && g in b ==> f.number != g.number
    ensures NumbersDiffer(a + b)
  {
    var c := a + b;
    forall i, j | 0 <= i < j < |c| ensures c[i].number != c[j].number {
      if i < |a| <= j { assert a[i] in a && b[j - |a|] in b; }
    }
  }

  lemma AddedIsNotEver(edits: seq<VersionEdit>, v: Version, next: nat, level: nat, f: File, g: File)
    requires Replayable(edits, v, next) && level < NUM_LEVELS
    requires f in EverAt([], edits, level) && NewOrSinking(v, next, level, g)
    ensures f.number != g.number
  {
    assert EverBelow(edits, level, next);
    if g.number < next {
      var m :| 0 <= m < level && m < NUM_LEVELS && g in v[m];
      assert OnlySank(edits, v, level, m);
    }
  }

  lemma OneLevelPerNumber(v: Version, next: nat, l: nat, m: nat, f: File, g: File)
    requires Numbered(v, next) && l < NUM_LEVELS && m < NUM_LEVELS && f in v[l] && g in v[m]
    ensures l != m ==> f.number != g.number
  {
    assert l != m ==> LevelsShareNoNumber(v, l, m);
  }

  lemma StillOnlySinks(edits: seq<VersionEdit>, v: Version, next: nat, edit: VersionEdit, level: nat, v': Version, next': nat,
                       l: nat, m: nat, f: File, g: File)
    requires Replayable(edits, v, next) && AddsAt(edit, level, v, next) && Numbered(v', next')
    requires level < NUM_LEVELS && l < NUM_LEVELS && m < NUM_LEVELS
    requires ComesFrom(v, edit, v', l) && ComesFrom(v, edit, v', m)
    requires f in EverAt([], edits, l) || f in NewAt(edit.newFiles, l)
    requires g in v'[m] && f.number == g.number
    ensures l <= m
  {
    if f in EverAt([], edits, l) {
      assert EverBelow(edits, l, next);
      if g in v[m] {
        assert OnlySank(edits, v, l, m);
      } else {
        assert m == level && NewOrSinking(v, next, level, g);
        var k :| 0 <= k < level && k < NUM_LEVELS && g in v[k];
        assert OnlySank(edits, v, l, k);
      }
    } else {
      OneLevelPerNumber(v', next', l, m, f, g);
    }
  }

  /** One more edit keeps the manifest replayable. */
  lemma StaysReplayable(edits: seq<VersionEdit>, v: Version, next: nat, edit: VersionEdit, level: nat, v': Version, next': nat)
    requires Replayable(edits, v, next) && level < NUM_LEVELS && AddsAt(edit, level, v, next)
    requires Numbered(v', next') && next <= next' && forall m :: 0 <= m < NUM_LEVELS ==> ComesFrom(v, edit, v', m)
    ensures Replayable(edits + [edit], v', next')
  {
    forall l | 0 <= l < NUM_LEVELS
      ensures EverBelow(edits + [edit], l, next') && EverDiffer(edits + [edit], l)
    {
      EverAppend(edits, edit, l);
      assert EverBelow(edits, l, next) && EverDiffer(edits, l) && NumbersBelow(v'[l], next') && ComesFrom(v, edit, v', l);
      forall f, g | f in EverAt([], edits, l) && g in NewAt(edit.newFiles, l) ensures f.number != g.number {
        AddedIsNotEver(edits, v, next, l, f, g);
      }
      NumbersDifferJoin(EverAt([], edits, l), NewAt(edit.newFiles, l));
    }
    forall l, m | 0 <= l < NUM_LEVELS && 0 <= m < NUM_LEVELS ensures OnlySank(edits + [edit], v', l, m) {
      EverAppend(edits, edit, l);
      assert ComesFrom(v, edit, v', l) && ComesFrom(v, edit, v', m);
      forall f, g | f in EverAt([], edits + [edit], l) && g in v'[m] && f.number == g.number ensures l <= m {
        StillOnlySinks(edits, v, next, edit, level, v', next', l, m, f, g);
      }
    }
  }

  // ---- WriteSnapshot ------------------------------------------------------------------

  function LevelsBelow(v: Version, n: nat): seq<(nat, File)>
    requires n <= |v|
  {
    if n == 0 then [] else LevelsBelow(v, n - 1) + Additions(n - 1, v[n - 1])
  }

  /** The edit that a new manifest starts with: every file, level by level. */
  function SnapshotEdit(v: Version): VersionEdit { VersionEdit({}, LevelsBelow(v, |v|)) }

  lemma {:induction false} NewAtConcat(a: seq<(nat, File)>, b: seq<(nat, File)>, l: nat)
    ensures NewAt(a + b, l) == NewAt(a, l) + NewAt(b, l)
  {
    if b == [] {
      assert a + b == a;
    } else {
      var n := |b| - 1;
      assert b == b[..n] + [b[n]] && (a + b) == (a + b[..n]) + [b[n]];
      NewAtConcat(a, b[..n], l);
      NewAtAppend(a + b[..n], b[n], l);
      NewAtAppend(b[..n], b[n], l);
    }
  }

  lemma {:induction false} LevelsBelowAt(v: Version, n: nat, l: nat)
    requires n <= |v|
    ensures NewAt(LevelsBelow(v, n), l) == if l < n then v[l] else []
  {
    if n > 0 {
      LevelsBelowAt(v, n - 1, l);
      NewAtConcat(LevelsBelow(v, n - 1), Additions(n - 1, v[n - 1]), l);
      AdditionsAt(n - 1, v[n - 1], l);
    }
  }

  lemma SnapshotLevel(v: Version, l: nat)
    requires |v| == NUM_LEVELS && l < NUM_LEVELS && SavedLevel(v[l])
    ensures NextVersion(EMPTY, SnapshotEdit(v))[l] == v[l]
    ensures NewAt(SnapshotEdit(v).newFiles, l) == v[l]
  {
    LevelsBelowAt(v, |v|, l);
    InstallLevel([], SnapshotEdit(v), l);
    InOrderIsUnique(NextVersion(EMPTY, SnapshotEdit(v))[l], v[l]);
  }

  /** A manifest that starts with a snapshot stands for the version it was taken of. */
  lemma SnapshotStandsFor(v: Version, next: nat)
    requires Saved(v) && Numbered(v, next)
    ensures VersionOf([ManifestRecord(SnapshotEdit(v), None, None, None)]) == v
    ensures LatestNumbers([ManifestRecord(SnapshotEdit(v), None, None, None)]) == Numbers3(None, None, None)
    ensures Replayable(Edits([ManifestRecord(SnapshotEdit(v), None, None, None)]), v, next)
  {
    var r := ManifestRecord(SnapshotEdit(v), None, None, None);
    Appended([], r);
    assert [] + [r] == [r] && Edits([r]) == [r.edit] && Installed(EMPTY, []) == EMPTY;
    forall l | 0 <= l < NUM_LEVELS
      ensures NextVersion(EMPTY, r.edit)[l] == v[l] && EverAt([], [r.edit], l) == v[l]
      ensures EverBelow([r.edit], l, next) && EverDiffer([r.edit], l)
    {
      assert SavedLevel(v[l]) && NumbersBelow(v[l], next);
      SnapshotLevel(v, l);
      EverAppend([], r.edit, l);
      assert [] + [r.edit] == [r.edit];
    }
    forall l, m | 0 <= l < NUM_LEVELS && 0 <= m < NUM_LEVELS ensures OnlySank([r.edit], v, l, m) {
      assert l != m ==> LevelsShareNoNumber(v, l, m);
    }
  }

  /** The first manifest (NewDB). */
  lemma NewDBStandsFor(r: ManifestRecord)
    requires r.edit == VersionEdit({}, [])
    ensures VersionOf([r]) == EMPTY && Replayable(Edits([r]), EMPTY, 2)
  {
    Appended([], r);
    assert [] + [r] == [r] && Edits([r]) == [r.edit] && Installed(EMPTY, []) == EMPTY;
    forall l | 0 <= l < NUM_LEVELS
      ensures NextVersion(EMPTY, r.edit)[l] == EMPTY[l] && EverAt([], [r.edit], l) == []
    {
      UntouchedLevel(EMPTY, r.edit, l);
      EverAppend([], r.edit, l);
      assert [] + [r.edit] == [r.edit];
    }
    assert forall l :: 0 <= l < NUM_LEVELS ==> EverBelow([r.edit], l, 2) && EverDiffer([r.edit], l);
    assert forall l, m :: 0 <= l < NUM_LEVELS && 0 <= m < NUM_LEVELS ==> OnlySank([r.edit], EMPTY, l, m);
  }

  // ---- VersionSet::Recover ---------------------------------------------------------

  /** One pass over the manifest: one builder for all edits, the last of each number. */
  method ReadManifest(records: seq<ManifestRecord>, ghost next: nat) returns (v: Version, numbers: Numbers3)
    requires Replayable(Edits(records), VersionOf(records), next)
    requires forall r :: r in records ==> r.edit.LevelsInRange()
    ensures v == VersionOf(records) && numbers == LatestNumbers(records)
  {
    numbers := Numbers3(None, None, None);
    var edits: seq<VersionEdit> := [];
    for i := 0 to |records|
      invariant edits == Edits(records[..i]) && numbers == LatestNumbers(records[..i])
      invariant forall e :: e in edits ==> e.LevelsInRange()
    {
      var r := records[i];
      assert records[..i + 1] == records[..i] + [r];
      Appended(records[..i], r);
      edits := edits + [r.edit];
      numbers := Numbers3(Latest(numbers.logNumber, r.logNumber), Latest(numbers.nextFile, r.nextFile),
                          Latest(numbers.lastSequence, r.lastSequence));
    }
    assert records[..|records|] == records;
    forall l | 0 <= l < NUM_LEVELS ensures InOrder(EMPTY[l]) && NumbersDiffer(EverAt(EMPTY[l], edits, l)) {
      assert EverDiffer(edits, l);
    }
    v := ReplayManifest(EMPTY, edits);
  }
}
