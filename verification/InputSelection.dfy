/** Choosing the input files of a compaction (db/version_set.cc). */
module InputSelection {
  import opened Dbformat
  import opened Version

  // ---- overlap of user-key ranges --------------------------------------------

  // A missing bound is the null pointer of the source: unbounded on that side.
  type Bound = Option<UserKey>

  predicate Overlaps(f: File, begin: Bound, end: Bound) {
    && !(begin.Some? && f.largest.ukey < begin.value)
    && !(end.Some? && f.smallest.ukey > end.value)
  }

  predicate InRange(p: UserKey, begin: Bound, end: Bound) {
    (begin.Some? ==> begin.value <= p) && (end.Some? ==> p <= end.value)
  }

  function OverlapFilter(files: seq<File>, begin: Bound, end: Bound): (r: seq<File>)
    ensures forall f :: f in r <==> f in files && Overlaps(f, begin, end)
    ensures |r| <= |files|
  {
    if files == [] then []
    else
      var rest := OverlapFilter(files[1..], begin, end);
      if Overlaps(files[0], begin, end) then [files[0]] + rest else rest
  }

  lemma {:induction false} OverlapFilterAppend(files: seq<File>, f: File, begin: Bound, end: Bound)
    ensures OverlapFilter(files + [f], begin, end)
         == OverlapFilter(files, begin, end) + (if Overlaps(f, begin, end) then [f] else [])
  {
    if files == [] {
      assert files + [f] == [f];
    } else {
      assert (files + [f])[1..] == files[1..] + [f];
      OverlapFilterAppend(files[1..], f, begin, end);
    }
  }

  predicate NoDuplicates(files: seq<File>) {
    forall i, j :: 0 <= i < j < |files| ==> files[i] != files[j]
  }

  lemma {:induction false} OverlapFilterNoDuplicates(files: seq<File>, begin: Bound, end: Bound)
    requires NoDuplicates(files)
    ensures NoDuplicates(OverlapFilter(files, begin, end))
  {
    if files != [] {
      OverlapFilterNoDuplicates(files[1..], begin, end);
      var rest := OverlapFilter(files[1..], begin, end);
      assert forall i :: 0 <= i < |rest| ==> rest[i] in rest;
    }
  }

  predicate UserRangesMeet(f: File, g: File) {
    f.smallest.ukey <= g.largest.ukey && g.smallest.ukey <= f.largest.ukey
  }

  /** `s` holds every file that meets the requested range or meets a file of `s`. */
  ghost predicate OverlapClosed(s: set<File>, files: seq<File>, begin: Bound, end: Bound) {
    && (forall f :: f in files && Overlaps(f, begin, end) ==> f in s)
    && (forall f, g :: f in files && g in s && UserRangesMeet(f, g) ==> f in s)
  }

  // Every point of the widened range lies in the requested one or in a file of `s`.
  ghost predicate RangeWithin(lo: Bound, hi: Bound, begin: Bound, end: Bound, s: set<File>) {
    && (forall p :: InRange(p, lo, hi) ==>
          InRange(p, begin, end) || exists g: File :: g in s && g.smallest.ukey <= p <= g.largest.ukey)
    && ((lo == begin && hi == end) || (lo.Some? && hi.Some? ==> lo.value <= hi.value))
  }

  ghost predicate RangeForced(files: seq<File>, lo: Bound, hi: Bound, begin: Bound, end: Bound) {
    forall s :: OverlapClosed(s, files, begin, end) ==> RangeWithin(lo, hi, begin, end, s)
  }

  ghost predicate AllInside(inputs: seq<File>, lo: Bound, hi: Bound) {
    forall f :: f in inputs ==> InRange(f.smallest.ukey, lo, hi) && InRange(f.largest.ukey, lo, hi)
  }

  // A file that meets the widened range belongs to every closed set.
  lemma WidenedStaysWithin(f: File, files: seq<File>, lo: Bound, hi: Bound, begin: Bound, end: Bound, s: set<File>)
    requires OverlapClosed(s, files, begin, end) && RangeWithin(lo, hi, begin, end, s)
    requires f in files && Overlaps(f, lo, hi)
    ensures f in s
  {
    if lo != begin || hi != end {
      var p := if lo.Some? && f.smallest.ukey < lo.value then lo.value else f.smallest.ukey;
      assert InRange(p, lo, hi);
      if !InRange(p, begin, end) {
        var g :| g in s && g.smallest.ukey <= p <= g.largest.ukey;
        assert UserRangesMeet(f, g);
      }
    }
  }

  // Files that still stick out of the range; every restart leaves fewer of them.
  ghost function Outside(files: seq<File>, lo: Bound, hi: Bound): nat {
    if files == [] then 0
    else
      (if lo.Some? && files[0].smallest.ukey < lo.value then 1 else 0)
      + (if hi.Some? && files[0].largest.ukey > hi.value then 1 else 0)
      + Outside(files[1..], lo, hi)
  }

  predicate Widens(lo: Bound, hi: Bound, lo': Bound, hi': Bound) {
    && lo.Some? == lo'.Some? && hi.Some? == hi'.Some?
    && (lo.Some? ==> lo'.value <= lo.value)
    && (hi.Some? ==> hi.value <= hi'.value)
  }

  lemma {:induction false} WideningShrinksOutside(files: seq<File>, f: File, lo: Bound, hi: Bound, lo': Bound, hi': Bound)
    requires Widens(lo, hi, lo', hi')
    ensures Outside(files, lo', hi') <= Outside(files, lo, hi)
    ensures f in files && lo.Some? && lo' == Some(f.smallest.ukey) && lo'.value < lo.value ==>
              Outside(files, lo', hi') < Outside(files, lo, hi)
    ensures f in files && hi.Some? && hi' == Some(f.largest.ukey) && hi.value < hi'.value ==>
              Outside(files, lo', hi') < Outside(files, lo, hi)
  {
    if files != [] {
      WideningShrinksOutside(files[1..], f, lo, hi, lo', hi');
    }
  }

  /** Version::GetOverlappingInputs.  Below level 0 it is the plain filter; at level 0
      the search restarts with a wider range until no picked file sticks out, which
      gives the least overlap-closed set of files. */
  method GetOverlappingInputs(level: nat, files: seq<File>, begin: Bound, end: Bound)
    returns (inputs: seq<File>, ghost lo: Bound, ghost hi: Bound)
    ensures inputs == OverlapFilter(files, lo, hi)
    ensures level > 0 ==> lo == begin && hi == end
    ensures Widens(begin, end, lo, hi)
    ensures level == 0 ==> AllInside(inputs, lo, hi) && OverlapClosed((set f | f in inputs), files, begin, end)
    ensures level == 0 ==> forall s :: OverlapClosed(s, files, begin, end) ==> forall f :: f in inputs ==> f in s
  {
    hide OverlapClosed, RangeForced, RangeWithin, OverlapFilter, Outside;
    FirstRange(files, begin, end);
    inputs := [];
    var userBegin, userEnd := begin, end;
    var i := 0;
    while i < |files|
      invariant i <= |files|
      invariant inputs == OverlapFilter(files[..i], userBegin, userEnd)
      invariant Widens(begin, end, userBegin, userEnd)
      invariant level > 0 ==> userBegin == begin && userEnd == end
      invariant level == 0 ==> AllInside(inputs, userBegin, userEnd)
      invariant RangeForced(files, userBegin, userEnd, begin, end)
      decreases Outside(files, userBegin, userEnd), |files| - i
    {
      var f := files[i];
      i := i + 1;
      assert files[..i] == files[..i - 1] + [f];
      OverlapFilterAppend(files[..i - 1], f, userBegin, userEnd);
      if userBegin.Some? && f.largest.ukey < userBegin.value {
        // "f" is before the range
      } else if userEnd.Some? && f.smallest.ukey > userEnd.value {
        // "f" is after the range
      } else {
        inputs := inputs + [f];
        if level == 0 {
          if userBegin.Some? && f.smallest.ukey < userBegin.value {
            WidenRange(files, f, userBegin, userEnd, Some(f.smallest.ukey), userEnd, begin, end);
            userBegin := Some(f.smallest.ukey);
            inputs := [];
            i := 0;
          } else if userEnd.Some? && f.largest.ukey > userEnd.value {
            WidenRange(files, f, userBegin, userEnd, userBegin, Some(f.largest.ukey), begin, end);
            userEnd := Some(f.largest.ukey);
            inputs := [];
            i := 0;
          }
        }
      }
    }
    assert files[..|files|] == files;
    lo, hi := userBegin, userEnd;
    ForcedFilesAreClosed(files, lo, hi, begin, end);
    if level == 0 { Level0ResultIsClosed(files, begin, end, lo, hi, inputs); }
  }

  lemma FirstRange(files: seq<File>, begin: Bound, end: Bound)
    ensures RangeForced(files, begin, end, begin, end)
    ensures forall lo, hi :: OverlapFilter([], lo, hi) == []
  {}

  lemma ForcedFilesAreClosed(files: seq<File>, lo: Bound, hi: Bound, begin: Bound, end: Bound)
    requires RangeForced(files, lo, hi, begin, end)
    ensures forall s :: OverlapClosed(s, files, begin, end) ==> forall f :: f in OverlapFilter(files, lo, hi) ==> f in s
  {
    forall s | OverlapClosed(s, files, begin, end) ensures forall f :: f in OverlapFilter(files, lo, hi) ==> f in s {
      forall f | f in OverlapFilter(files, lo, hi) ensures f in s {
        WidenedStaysWithin(f, files, lo, hi, begin, end, s);
      }
    }
  }

  lemma WidenRange(files: seq<File>, f: File, lo: Bound, hi: Bound, lo': Bound, hi': Bound, begin: Bound, end: Bound)
    requires f in files && Overlaps(f, lo, hi)
    requires RangeForced(files, lo, hi, begin, end)
    requires || (lo.Some? && lo' == Some(f.smallest.ukey) && lo'.value < lo.value && hi' == hi)
             || (hi.Some? && hi' == Some(f.largest.ukey) && hi.value < hi'.value && lo' == lo)
    ensures Outside(files, lo', hi') < Outside(files, lo, hi)
    ensures RangeForced(files, lo', hi', begin, end)
  {
    WideningShrinksOutside(files, f, lo, hi, lo', hi');
    forall s | OverlapClosed(s, files, begin, end) ensures RangeWithin(lo', hi', begin, end, s) {
      WidenedStaysWithin(f, files, lo, hi, begin, end, s);
      forall p | InRange(p, lo', hi')
        ensures InRange(p, begin, end) || exists g: File :: g in s && g.smallest.ukey <= p <= g.largest.ukey
      {
        if !InRange(p, lo, hi) {
          assert f in s && f.smallest.ukey <= p <= f.largest.ukey;
        }
      }
    }
  }

  /** A filter from which no picked file sticks out is closed. */
  lemma Level0ResultIsClosed(files: seq<File>, begin: Bound, end: Bound, lo: Bound, hi: Bound, inputs: seq<File>)
    requires inputs == OverlapFilter(files, lo, hi) && Widens(begin, end, lo, hi)
    requires AllInside(inputs, lo, hi)
    ensures OverlapClosed((set f | f in inputs), files, begin, end)
  {
    forall f, g | f in files && g in inputs && UserRangesMeet(f, g) ensures f in inputs {
      assert InRange(g.smallest.ukey, lo, hi) && InRange(g.largest.ukey, lo, hi);
    }
  }

  // ---- boundary files --------------------------------------------------------

  function SmallestKey(inputs: seq<File>): IKey
    requires inputs != []
  {
    var n, f := |inputs| - 1, inputs[|inputs| - 1];
    if n == 0 || Less(f.smallest, SmallestKey(inputs[..n])) then f.smallest else SmallestKey(inputs[..n])
  }

  function LargestKey(inputs: seq<File>): IKey
    requires inputs != []
  {
    var n, f := |inputs| - 1, inputs[|inputs| - 1];
    if n == 0 || Less(LargestKey(inputs[..n]), f.largest) then f.largest else LargestKey(inputs[..n])
  }

  ghost predicate IsRange(inputs: seq<File>, smallest: IKey, largest: IKey) {
    && (exists f :: f in inputs && f.smallest == smallest)
    && (exists f :: f in inputs && f.largest == largest)
    && (forall f :: f in inputs ==> !Less(f.smallest, smallest) && !Less(largest, f.largest))
  }

  lemma RangeExtends(inputs: seq<File>, f: File, lo: IKey, hi: IKey)
    requires IsRange(inputs, lo, hi)
    ensures IsRange(inputs + [f], if Less(f.smallest, lo) then f.smallest else lo,
                                  if Less(hi, f.largest) then f.largest else hi)
  {
    assert f in inputs + [f];
    assert forall g :: g in inputs + [f] <==> g in inputs || g == f;
  }

  /** The keys found by the scans are the least smallest and the greatest largest. */
  lemma {:induction false} KeysAreRange(inputs: seq<File>)
    requires inputs != []
    ensures IsRange(inputs, SmallestKey(inputs), LargestKey(inputs))
  {
    var n := |inputs| - 1;
    if n > 0 {
      KeysAreRange(inputs[..n]);
      assert inputs == inputs[..n] + [inputs[n]];
      RangeExtends(inputs[..n], inputs[n], SmallestKey(inputs[..n]), LargestKey(inputs[..n]));
    }
  }

  lemma RangeIsKeys(inputs: seq<File>, lo: IKey, hi: IKey)
    requires inputs != [] && IsRange(inputs, lo, hi)
    ensures lo == SmallestKey(inputs) && hi == LargestKey(inputs)
  {
    KeysAreRange(inputs);
    CompareIsOrder(lo, SmallestKey(inputs), lo);
    CompareIsOrder(hi, LargestKey(inputs), hi);
  }

  /** VersionSet::GetRange. */
  method GetRange(inputs: seq<File>) returns (smallest: IKey, largest: IKey)
    requires inputs != []
    ensures smallest == SmallestKey(inputs) && largest == LargestKey(inputs)
  {
    smallest, largest := inputs[0].smallest, inputs[0].largest;
    for i := 1 to |inputs|
      invariant smallest == SmallestKey(inputs[..i]) && largest == LargestKey(inputs[..i])
    {
      var f := inputs[i];
      assert inputs[..i + 1][..i] == inputs[..i];
      if Less(f.smallest, smallest) { smallest := f.smallest; }
      if Less(largest, f.largest) { largest := f.largest; }
    }
    assert inputs[..|inputs|] == inputs;
  }

  // A file that goes on with the user key `largest` stops at.
  predicate IsBoundary(f: File, largest: IKey) {
    Less(largest, f.smallest) && f.smallest.ukey == largest.ukey
  }

  ghost predicate IsSmallestBoundary(files: seq<File>, largest: IKey, b: File) {
    && b in files && IsBoundary(b, largest)
    && forall f :: f in files && IsBoundary(f, largest) ==> !Less(f.smallest, b.smallest)
  }

  ghost predicate NoBoundary(files: seq<File>, largest: IKey) {
    forall f :: f in files ==> !IsBoundary(f, largest)
  }

  method FindSmallestBoundaryFile(files: seq<File>, largest: IKey) returns (b: Option<File>)
    ensures b.None? ==> NoBoundary(files, largest)
    ensures b.Some? ==> IsSmallestBoundary(files, largest, b.value)
  {
    b := None;
    for i := 0 to |files|
      invariant b.None? ==> NoBoundary(files[..i], largest)
      invariant b.Some? ==> IsSmallestBoundary(files[..i], largest, b.value)
    {
      assert files[..i + 1] == files[..i] + [files[i]];
      if IsBoundary(files[i], largest) {
        if b.None? || Less(files[i].smallest, b.value.smallest) { b := Some(files[i]); }
      }
    }
    assert files[..|files|] == files;
  }

  /** Each file of the chain is the smallest boundary file after the one before it. */
  ghost predicate BoundaryChain(files: seq<File>, from: IKey, chain: seq<File>, to: IKey)
    decreases |chain|
  {
    if chain == [] then from == to
    else IsSmallestBoundary(files, from, chain[0]) && BoundaryChain(files, chain[0].largest, chain[1..], to)
  }

  lemma {:induction false} BoundaryChainAppend(files: seq<File>, from: IKey, chain: seq<File>, to: IKey, b: File)
    requires BoundaryChain(files, from, chain, to) && IsSmallestBoundary(files, to, b)
    ensures BoundaryChain(files, from, chain + [b], b.largest)
    decreases |chain|
  {
    if chain == [] {
      assert chain + [b] == [b];
    } else {
      BoundaryChainAppend(files, chain[0].largest, chain[1..], to, b);
      assert (chain + [b])[1..] == chain[1..] + [b];
    }
  }

  ghost function StartingAfter(files: seq<File>, key: IKey): nat {
    if files == [] then 0
    else (if Less(key, files[0].smallest) then 1 else 0) + StartingAfter(files[1..], key)
  }

  lemma {:induction false} StartingAfterDecreases(files: seq<File>, key: IKey, b: File)
    requires Less(key, b.smallest)
    ensures StartingAfter(files, b.largest) <= StartingAfter(files, key)
    ensures b in files ==> StartingAfter(files, b.largest) < StartingAfter(files, key)
  {
    CompareIsOrder(key, b.smallest, b.largest);
    if files != [] {
      CompareIsOrder(key, b.largest, files[0].smallest);
      StartingAfterDecreases(files[1..], key, b);
    }
  }

  /** AddBoundaryInputs: extend the inputs until no file of the level starts just past
      their largest key with its user key. */
  method AddBoundaryInputs(files: seq<File>, compactionFiles: seq<File>)
    returns (inputs: seq<File>, ghost chain: seq<File>, ghost to: IKey)
    ensures inputs == compactionFiles + chain
    ensures compactionFiles == [] ==> inputs == []
    ensures compactionFiles != [] ==>
              BoundaryChain(files, LargestKey(compactionFiles), chain, to) && NoBoundary(files, to)
  {
    inputs := compactionFiles;
    if compactionFiles == [] {
      chain, to := [], SeekKey(0.0, 0);
      return;
    }
    var _, largest := GetRange(compactionFiles);
    chain := [];
    while true
      invariant inputs == compactionFiles + chain
      invariant BoundaryChain(files, LargestKey(compactionFiles), chain, largest)
      decreases StartingAfter(files, largest)
    {
      var b := FindSmallestBoundaryFile(files, largest);
      if b.None? { break; }
      BoundaryChainAppend(files, LargestKey(compactionFiles), chain, largest, b.value);
      StartingAfterDecreases(files, largest, b.value);
      inputs, chain := inputs + [b.value], chain + [b.value];
      largest := b.value.largest;
    }
    to := largest;
  }

  /** In a sorted level the chain is the run of files right after the inputs. */
  lemma {:induction false} ChainIsNextFiles(files: seq<File>, b: nat, chain: seq<File>, to: IKey)
    requires SortedDisjoint(files) && 0 < b <= |files|
    requires BoundaryChain(files, files[b - 1].largest, chain, to)
    ensures b + |chain| <= |files| && chain == files[b..b + |chain|]
    ensures to == files[b + |chain| - 1].largest
    decreases |chain|
  {
    if chain != [] {
      BoundaryIsNextFile(files, b, chain[0]);
      ChainIsNextFiles(files, b + 1, chain[1..], to);
    }
  }

  lemma BoundaryIsNextFile(files: seq<File>, b: nat, next: File)
    requires SortedDisjoint(files) && 0 < b <= |files|
    requires IsSmallestBoundary(files, files[b - 1].largest, next)
    ensures b < |files| && next == files[b]
  {
    var j :| 0 <= j < |files| && files[j] == next;
    assert b <= j;
    assert j > b ==> IsBoundary(files[b], files[b - 1].largest) && Less(files[b].smallest, next.smallest);
  }

  // ---- what a compaction may take from a level --------------------------------

  /** Level 0: the inputs include every file that overlaps their user-key range.
      Deeper: the inputs are consecutive files. */
  ghost predicate Picked(level: nat, files: seq<File>, inputs: seq<File>) {
    && inputs != []
    && if level == 0 then
         && NoDuplicates(inputs) && (forall f :: f in inputs ==> f in files)
         && (forall f :: f in files && OverlapsInputs(f, inputs) ==> f in inputs)
       else
         exists a, b :: a < b && IsSlice(inputs, files, a, b)
  }

  predicate IsSlice(inputs: seq<File>, files: seq<File>, a: int, b: int) {
    0 <= a <= b <= |files| && inputs == files[a..b]
  }

  predicate OverlapsInputs(f: File, inputs: seq<File>)
    requires inputs != []
  {
    Overlaps(f, Some(SmallestKey(inputs).ukey), Some(LargestKey(inputs).ukey))
  }

  /** ... and no user key of the inputs goes on in the next file. */
  ghost predicate PickedWhole(level: nat, files: seq<File>, inputs: seq<File>) {
    Picked(level, files, inputs) && NoBoundary(files, LargestKey(inputs))
  }

  lemma SliceKeys(files: seq<File>, a: nat, b: nat)
    requires SortedDisjoint(files) && a < b <= |files|
    ensures SmallestKey(files[a..b]) == files[a].smallest && LargestKey(files[a..b]) == files[b - 1].largest
  {
    var s := files[a..b];
    assert s[0] == files[a] && s[|s| - 1] == files[b - 1];
    forall f | f in s ensures !Less(f.smallest, files[a].smallest) && !Less(files[b - 1].largest, f.largest) {
      var i :| 0 <= i < |s| && s[i] == f;
      if i > 0 { LargestIncreases(files, a, a + i); }
      if a + i < b - 1 { LargestIncreases(files, a + i, b - 1); }
    }
    RangeIsKeys(s, files[a].smallest, files[b - 1].largest);
  }

  /** A level-0 pick already has every file that could carry on a user key. */
  lemma Level0HasNoBoundary(files: seq<File>, inputs: seq<File>)
    requires Picked(0, files, inputs)
    ensures NoBoundary(files, LargestKey(inputs))
  {
    KeysAreRange(inputs);
    var first :| first in inputs && first.smallest == SmallestKey(inputs);
    forall f | f in files ensures !IsBoundary(f, LargestKey(inputs)) {
      assert f.smallest.ukey == LargestKey(inputs).ukey ==> OverlapsInputs(f, inputs);
    }
  }

  lemma SliceWithChain(files: seq<File>, a: nat, b: nat, chain: seq<File>, to: IKey)
    requires SortedDisjoint(files) && a < b <= |files|
    requires BoundaryChain(files, files[b - 1].largest, chain, to)
    ensures IsSlice(files[a..b] + chain, files, a, b + |chain|)
    ensures to == files[b + |chain| - 1].largest
  {
    ChainIsNextFiles(files, b, chain, to);
    assert files[a..b] + files[b..b + |chain|] == files[a..b + |chain|];
  }

  lemma SliceIsWhole(level: nat, files: seq<File>, a: nat, b: nat, inputs: seq<File>)
    requires level > 0 && SortedDisjoint(files) && a < b && IsSlice(inputs, files, a, b)
    requires NoBoundary(files, files[b - 1].largest)
    ensures PickedWhole(level, files, inputs)
  {
    SliceKeys(files, a, b);
  }

  lemma GrownSliceIsWhole(level: nat, files: seq<File>, a: nat, b: nat, chain: seq<File>, to: IKey)
    requires level > 0 && SortedDisjoint(files) && a < b <= |files|
    requires BoundaryChain(files, LargestKey(files[a..b]), chain, to) && NoBoundary(files, to)
    ensures PickedWhole(level, files, files[a..b] + chain)
  {
    SliceKeys(files, a, b);
    SliceWithChain(files, a, b, chain, to);
    SliceIsWhole(level, files, a, b + |chain|, files[a..b] + chain);
  }

  /** Adding the boundary files to picked inputs makes them whole. */
  lemma BoundaryMakesWhole(level: nat, files: seq<File>, inputs: seq<File>, chain: seq<File>, to: IKey)
    requires level > 0 ==> SortedDisjoint(files)
    requires Picked(level, files, inputs)
    requires BoundaryChain(files, LargestKey(inputs), chain, to) && NoBoundary(files, to)
    ensures PickedWhole(level, files, inputs + chain)
  {
    if level == 0 {
      Level0HasNoBoundary(files, inputs);
      assert chain == [] && inputs + chain == inputs;
    } else {
      var a, b :| a < b && IsSlice(inputs, files, a, b);
      GrownSliceIsWhole(level, files, a, b, chain, to);
    }
  }

  lemma BetweenOverlaps(files: seq<File>, i: nat, j: nat, k: nat, begin: Bound, end: Bound)
    requires SortedDisjoint(files) && i < j <= k < |files|
    requires Overlaps(files[i], begin, end) && Overlaps(files[k], begin, end)
    ensures Overlaps(files[j], begin, end)
  {
    assert Less(files[i].largest, files[j].smallest) && (j < k ==> Less(files[j].largest, files[k].smallest));
  }

  lemma SliceStartsAtFront(rest: seq<File>, a: nat, b: nat)
    requires SortedDisjoint(rest) && a < b <= |rest| && rest[0] in rest[a..b]
    ensures a == 0
  {
    var i :| 0 <= i < |rest[a..b]| && rest[a..b][i] == rest[0];
    if a + i > 0 { LargestIncreases(rest, 0, a + i); }
  }

  // In a sorted level nothing is skipped between two files that overlap the range.
  lemma OverlapHasNoGap(files: seq<File>, begin: Bound, end: Bound, a: nat, b: nat)
    requires SortedDisjoint(files) && files != [] && Overlaps(files[0], begin, end)
    requires a < b && IsSlice(OverlapFilter(files[1..], begin, end), files[1..], a, b)
    ensures a == 0
  {
    var rest := files[1..];
    assert rest[a] in rest[a..b] && files[a + 1] == rest[a] && files[1] == rest[0];
    BetweenOverlaps(files, 0, 1, a + 1, begin, end);
    SliceStartsAtFront(rest, a, b);
  }

  lemma TailSlice<T>(s: seq<T>, a: nat, b: nat)
    requires a <= b < |s|
    ensures s[1..][a..b] == s[a + 1..b + 1]
    ensures [s[0]] + s[1..][0..b] == s[0..b + 1]
  {}

  /** The files of a sorted level that overlap a range are consecutive. */
  lemma {:induction false} OverlapIsSlice(files: seq<File>, begin: Bound, end: Bound) returns (a: nat, b: nat)
    requires SortedDisjoint(files)
    ensures IsSlice(OverlapFilter(files, begin, end), files, a, b)
  {
    if files == [] { return 0, 0; }
    a, b := OverlapIsSlice(files[1..], begin, end);
    if !Overlaps(files[0], begin, end) {
      TailSlice(files, a, b);
      return a + 1, b + 1;
    }
    if a == b {
      return 0, 1;
    }
    OverlapHasNoGap(files, begin, end, a, b);
    TailSlice(files, 0, b);
    return 0, b + 1;
  }

  // ---- compactions -----------------------------------------------------------

  /** What SetupOtherInputs settles: whole inputs at `level`, and exactly the files of
      `level + 1` whose user keys overlap theirs. */
  ghost predicate Selected(v: Version, level: nat, inputs0: seq<File>, inputs1: seq<File>)
    requires |v| == NUM_LEVELS
  {
    && level + 1 < NUM_LEVELS
    && PickedWhole(level, v[level], inputs0)
    && inputs1 == OverlapFilter(v[level + 1], Some(SmallestKey(inputs0).ukey), Some(LargestKey(inputs0).ukey))
  }

  /** No file of the levels below level+1 can hold `k`. */
  ghost predicate BaseLevelFor(v: Version, level: nat, k: UserKey) {
    forall l, f :: level + 2 <= l < |v| && f in v[l] ==> !InUserRange(f, k)
  }

  function TotalFileSize(files: seq<File>): nat {
    if files == [] then 0 else files[0].size + TotalFileSize(files[1..])
  }

  /** The files that a range calls for: at level 0 the least closed set, below it those that overlap. */
  ghost predicate CalledFor(level: nat, files: seq<File>, begin: Bound, end: Bound, inputs: seq<File>) {
    && (exists lo, hi :: inputs == OverlapFilter(files, lo, hi))
    && if level > 0 then inputs == OverlapFilter(files, begin, end)
       else
         && OverlapClosed((set f | f in inputs), files, begin, end)
         && forall s :: OverlapClosed(s, files, begin, end) ==> forall f :: f in inputs ==> f in s
  }

  /** `picked` and its boundary files, as long as there are any. */
  ghost predicate WithBoundary(files: seq<File>, picked: seq<File>, inputs: seq<File>) {
    picked != [] && exists chain, to ::
      inputs == picked + chain && BoundaryChain(files, LargestKey(picked), chain, to) && NoBoundary(files, to)
  }

  /** What the inputs of `level` would grow to: all that the range of both levels' inputs calls for. */
  ghost predicate Wide(level: nat, files: seq<File>, all: seq<File>, wide: seq<File>) {
    all != [] && exists x ::
      CalledFor(level, files, Some(SmallestKey(all).ukey), Some(LargestKey(all).ukey), x) && WithBoundary(files, x, wide)
  }

  function AtNext(next: seq<File>, inputs: seq<File>): seq<File>
    requires inputs != []
  {
    OverlapFilter(next, Some(SmallestKey(inputs).ukey), Some(LargestKey(inputs).ukey))
  }

  /** They grow when that brings in more files, none of them at `level + 1`, and few enough bytes. */
  predicate Grows(next: seq<File>, maxFileSize: nat, inputs0: seq<File>, inputs1: seq<File>, wide: seq<File>) {
    && |wide| > |inputs0| && TotalFileSize(inputs1) + TotalFileSize(wide) < 25 * maxFileSize
    && |AtNext(next, wide)| == |inputs1|
  }

  ghost predicate Settled(v: Version, level: nat, maxFileSize: nat, picked: seq<File>, inputs0: seq<File>)
    requires level + 1 < |v|
  {
    exists first :: WithBoundary(v[level], picked, first) && SettledFrom(v, level, maxFileSize, first, inputs0)
  }

  ghost predicate SettledFrom(v: Version, level: nat, maxFileSize: nat, first: seq<File>, inputs0: seq<File>)
    requires level + 1 < |v|
  {
    first != [] &&
    var next := AtNext(v[level + 1], first);
    if next == [] then inputs0 == first
    else exists wide :: Wide(level, v[level], first + next, wide)
                        && inputs0 == if Grows(v[level + 1], maxFileSize, first, next, wide) then wide else first
  }

  /** The files of `level` that overlap the range of all inputs, with their boundary
      files: the candidates for growing the inputs. */
  method ExpandedInputs(v: Version, level: nat, inputs0: seq<File>, inputs1: seq<File>)
    returns (expanded0: seq<File>)
    requires LevelsOrdered(v) && Selected(v, level, inputs0, inputs1)
    ensures PickedWhole(level, v[level], expanded0)
    ensures forall f :: f in inputs0 ==> f in expanded0
    ensures Wide(level, v[level], inputs0 + inputs1, expanded0)
  {
    assert LevelOk(level, v[level]);
    var all := inputs0 + inputs1;
    var allStart, allLimit := GetRange(all);
    var expanded, lo, hi := GetOverlappingInputs(level, v[level], Some(allStart.ukey), Some(allLimit.ukey));
    PickedAreFiles(level, v[level], inputs0);
    WiderRangeKeepsInputs(v[level], inputs0, all, lo, hi);
    assert inputs0[0] in expanded;
    assert CalledFor(level, v[level], Some(allStart.ukey), Some(allLimit.ukey), expanded);
    OverlapsArePicked(level, v[level], lo, hi, expanded);
    ghost var chain, to;
    expanded0, chain, to := AddBoundaryInputs(v[level], expanded);
    BoundaryMakesWhole(level, v[level], expanded, chain, to);
    assert WithBoundary(v[level], expanded, expanded0);
  }

  /** VersionSet::SetupOtherInputs.  The inputs may grow, never shrink; they grow when
      that changes no choice at `level + 1` and stays under 25 target file sizes. */
  method ChooseInputs(v: Version, level: nat, maxFileSize: nat, picked: seq<File>)
    returns (inputs0: seq<File>, inputs1: seq<File>)
    requires LevelsOrdered(v) && level + 1 < NUM_LEVELS && Picked(level, v[level], picked)
    ensures Selected(v, level, inputs0, inputs1)
    ensures forall f :: f in picked ==> f in inputs0
    ensures Settled(v, level, maxFileSize, picked, inputs0)
  {
    hide Wide, CalledFor, NoBoundary, BoundaryChain, LevelNewer, OverlapFilter, SmallestKey, LargestKey, TotalFileSize;
    assert LevelOk(level, v[level]);
    ghost var chain, to, lo, hi;
    inputs0, chain, to := AddBoundaryInputs(v[level], picked);
    BoundaryMakesWhole(level, v[level], picked, chain, to);
    ghost var first := inputs0;
    assert WithBoundary(v[level], picked, first);
    var smallest, largest := GetRange(inputs0);
    inputs1, lo, hi := GetOverlappingInputs(level + 1, v[level + 1], Some(smallest.ukey), Some(largest.ukey));
    if inputs1 != [] {
      var expanded0 := ExpandedInputs(v, level, inputs0, inputs1);
      if |expanded0| > |inputs0| && TotalFileSize(inputs1) + TotalFileSize(expanded0) < 25 * maxFileSize {
        var newStart, newLimit := GetRange(expanded0);
        var expanded1;
        expanded1, lo, hi :=
          GetOverlappingInputs(level + 1, v[level + 1], Some(newStart.ukey), Some(newLimit.ukey));
        if |expanded1| == |inputs1| {
          inputs0, inputs1 := expanded0, expanded1;
        }
      }
      assert Wide(level, v[level], first + AtNext(v[level + 1], first), expanded0);
    }
    assert SettledFrom(v, level, maxFileSize, first, inputs0);
  }

  // Why PickCompaction starts: a level is too big, or a file was sought too often.
  datatype Trigger =
    | Size(level: nat, compactPointer: Option<IKey>)
    | Seeks(level: nat, file: File)

  predicate PastPointer(pointer: Option<IKey>, f: File) { pointer.None? || Less(pointer.value, f.largest) }

  /** Whose turn it is: the first file past the compaction pointer, or the first of the level. */
  ghost predicate NextInLine(files: seq<File>, pointer: Option<IKey>, f: File) {
    || (exists i :: 0 <= i < |files| && files[i] == f && PastPointer(pointer, f) && forall j :: 0 <= j < i ==> !PastPointer(pointer, files[j]))
    || (files != [] && f == files[0] && forall g :: g in files ==> !PastPointer(pointer, g))
  }

  method FirstAfterPointer(files: seq<File>, pointer: Option<IKey>) returns (f: File)
    requires files != []
    ensures f in files && NextInLine(files, pointer, f)
  {
    for i := 0 to |files|
      invariant forall j :: 0 <= j < i ==> !PastPointer(pointer, files[j])
    {
      if pointer.None? || Less(pointer.value, files[i].largest) { return files[i]; }
    }
    return files[0];
  }

  /** The file that made the compaction due is among its inputs. */
  ghost predicate Serves(v: Version, why: Trigger, inputs0: seq<File>)
    requires why.level < |v|
  {
    match why
    case Size(level, pointer) => exists f :: f in inputs0 && NextInLine(v[level], pointer, f)
    case Seeks(_, file) => file in inputs0
  }

  /** VersionSet::PickCompaction. */
  method PickCompaction(v: Version, maxFileSize: nat, why: Trigger)
    returns (inputs0: seq<File>, inputs1: seq<File>)
    requires LevelsOrdered(v) && why.level + 1 < NUM_LEVELS && v[why.level] != []
    requires why.Seeks? ==> why.file in v[why.level]
    ensures Selected(v, why.level, inputs0, inputs1)
    ensures Serves(v, why, inputs0)
  {
    var level, f := why.level, v[why.level][0];
    assert LevelOk(level, v[level]);
    match why {
      case Size(_, pointer) => f := FirstAfterPointer(v[level], pointer);
      case Seeks(_, file) => f := file;
    }
    var picked := [f];
    if level == 0 {
      var smallest, largest := GetRange(picked);
      ghost var lo, hi;
      picked, lo, hi := GetOverlappingInputs(0, v[0], Some(smallest.ukey), Some(largest.ukey));
      assert f in picked;
      OverlapsArePicked(0, v[0], lo, hi, picked);
    } else {
      OneFileIsPicked(level, v[level], f);
    }
    inputs0, inputs1 := ChooseInputs(v, level, maxFileSize, picked);
  }

  /** At level 0 every file that must go with the range; below it the first overlapping files,
      fewer than all of them only once their size reaches the limit and no sooner. */
  ghost predicate InRangeUpTo(level: nat, files: seq<File>, maxFileSize: nat, begin: Bound, end: Bound, picked: seq<File>) {
    if level == 0 then
      && OverlapClosed((set f | f in picked), files, begin, end)
      && forall s :: OverlapClosed(s, files, begin, end) ==> forall f :: f in picked ==> f in s
    else
      var all := OverlapFilter(files, begin, end);
      && picked <= all && (|picked| < |all| ==> maxFileSize <= TotalFileSize(picked))
      && (|picked| > 1 ==> TotalFileSize(picked[..|picked| - 1]) < maxFileSize)
  }

  ghost predicate Covers(files: seq<File>, level: nat, maxFileSize: nat, begin: Bound, end: Bound, inputs: seq<File>) {
    exists picked :: InRangeUpTo(level, files, maxFileSize, begin, end, picked) && forall f :: f in picked ==> f in inputs
  }

  /** The files of a level in a range, cut short by size below level 0. */
  method PickRange(level: nat, files: seq<File>, maxFileSize: nat, begin: Bound, end: Bound)
    returns (picked: seq<File>)
    requires if level == 0 then NoDuplicates(files) else SortedDisjoint(files)
    ensures picked == [] <==> forall f :: f in files ==> !Overlaps(f, begin, end)
    ensures picked != [] ==> Picked(level, files, picked)
    ensures InRangeUpTo(level, files, maxFileSize, begin, end, picked)
  {
    hide OverlapClosed, AllInside, Widens, Picked, Overlaps, TotalFileSize, SortedDisjoint, NoDuplicates;
    ghost var lo, hi;
    picked, lo, hi := GetOverlappingInputs(level, files, begin, end);
    EmptyWhenNoneOverlap(level, files, begin, end, lo, hi, picked);
    if picked != [] {
      OverlapsArePicked(level, files, lo, hi, picked);
      if level > 0 {
        var n := FilesUpToSize(picked, maxFileSize);
        assert n > 1 ==> picked[..n][..n - 1] == picked[..n - 1];
        PrefixIsPicked(level, files, picked, n);
        picked := picked[..n];
      }
    }
  }

  lemma EmptyWhenNoneOverlap(level: nat, files: seq<File>, begin: Bound, end: Bound, lo: Bound, hi: Bound, inputs: seq<File>)
    requires inputs == OverlapFilter(files, lo, hi) && Widens(begin, end, lo, hi)
    requires level > 0 ==> lo == begin && hi == end
    requires level == 0 ==> forall s :: OverlapClosed(s, files, begin, end) ==> forall f :: f in inputs ==> f in s
    ensures inputs == [] <==> forall f :: f in files ==> !Overlaps(f, begin, end)
  {
    assert inputs != [] ==> inputs[0] in inputs;
    assert (forall f :: f in files ==> !Overlaps(f, begin, end)) ==> OverlapClosed({}, files, begin, end);
  }

  /** VersionSet::CompactRange. */
  method CompactRange(v: Version, maxFileSize: nat, level: nat, begin: Bound, end: Bound)
    returns (inputs0: seq<File>, inputs1: seq<File>)
    requires LevelsOrdered(v) && level + 1 < NUM_LEVELS
    ensures inputs0 == [] <==> forall f :: f in v[level] ==> !Overlaps(f, begin, end)
    ensures inputs0 != [] ==> Selected(v, level, inputs0, inputs1)
    ensures Covers(v[level], level, maxFileSize, begin, end, inputs0)
  {
    hide InRangeUpTo;
    assert LevelOk(level, v[level]);
    var picked := PickRange(level, v[level], maxFileSize, begin, end);
    if picked == [] { return [], []; }
    inputs0, inputs1 := ChooseInputs(v, level, maxFileSize, picked);
  }

  method FilesUpToSize(inputs: seq<File>, limit: nat) returns (n: nat)
    requires inputs != []
    ensures 0 < n <= |inputs|
    ensures n < |inputs| ==> limit <= TotalFileSize(inputs[..n])
    ensures n > 1 ==> TotalFileSize(inputs[..n - 1]) < limit
  {
    var total := 0;
    for i := 0 to |inputs|
      invariant total == TotalFileSize(inputs[..i])
      invariant i > 0 ==> total < limit
    {
      total := total + inputs[i].size;
      assert inputs[..i + 1] == inputs[..i] + [inputs[i]];
      TotalAppend(inputs[..i], inputs[i]);
      if total >= limit { return i + 1; }
    }
    if |inputs| > 1 { TotalPrefix(inputs, |inputs| - 1); }
    assert inputs[..|inputs|] == inputs;
    return |inputs|;
  }

  lemma {:induction false} TotalAppend(files: seq<File>, f: File)
    ensures TotalFileSize(files + [f]) == TotalFileSize(files) + f.size
  {
    if files == [] {
      assert files + [f] == [f];
    } else {
      assert (files + [f])[1..] == files[1..] + [f];
      TotalAppend(files[1..], f);
    }
  }

  lemma TotalPrefix(files: seq<File>, n: nat)
    requires n < |files|
    ensures TotalFileSize(files[..n]) <= TotalFileSize(files[..n + 1])
  {
    assert files[..n + 1] == files[..n] + [files[n]];
    TotalAppend(files[..n], files[n]);
  }

  lemma OneFileIsPicked(level: nat, files: seq<File>, f: File)
    requires level > 0 && f in files
    ensures Picked(level, files, [f])
  {
    var i :| 0 <= i < |files| && files[i] == f;
    assert IsSlice([f], files, i, i + 1);
  }

  lemma PrefixIsPicked(level: nat, files: seq<File>, inputs: seq<File>, n: nat)
    requires level > 0 && Picked(level, files, inputs) && 0 < n <= |inputs|
    ensures Picked(level, files, inputs[..n])
  {
    var a, b :| a < b && IsSlice(inputs, files, a, b);
    assert files[a..b][..n] == files[a..a + n];
    assert IsSlice(inputs[..n], files, a, a + n);
  }

  // The level pointer has moved past files that end before every key still to come.
  ghost predicate PassedOver(files: seq<File>, ptr: nat, asked: Bound) {
    forall i :: 0 <= i < ptr ==> i < |files| && asked.Some? && files[i].largest.ukey < asked.value
  }

  class Compaction {
    const level: nat
    const inputVersion: Version
    const maxFileSize: nat
    var inputs0: seq<File>
    var inputs1: seq<File>
    var levelPtrs: seq<nat>
    ghost var lastQuery: Bound

    ghost predicate Valid()
      reads this
    {
      && LevelsOrdered(inputVersion) && level + 1 < NUM_LEVELS
      && |levelPtrs| == NUM_LEVELS
      && forall l :: 0 <= l < NUM_LEVELS ==> PassedOver(inputVersion[l], levelPtrs[l], lastQuery)
    }

    constructor (v: Version, level: nat, maxFileSize: nat, picked: seq<File>)
      requires LevelsOrdered(v) && level + 1 < NUM_LEVELS
      ensures Valid() && this.inputVersion == v && this.level == level && lastQuery == None
      ensures inputs0 == picked && inputs1 == []
    {
      this.inputVersion, this.level, this.maxFileSize := v, level, maxFileSize;
      inputs0, inputs1, lastQuery := picked, [], None;
      levelPtrs := [0, 0, 0, 0, 0, 0, 0];
    }

    method SetupOtherInputs()
      requires Valid() && Picked(level, inputVersion[level], inputs0)
      modifies this`inputs0, this`inputs1
      ensures Selected(inputVersion, level, inputs0, inputs1)
      ensures forall f :: f in old(inputs0) ==> f in inputs0
      ensures Settled(inputVersion, level, maxFileSize, old(inputs0), inputs0)
    {
      inputs0, inputs1 := ChooseInputs(inputVersion, level, maxFileSize, inputs0);
    }

    /** Compaction::IsBaseLevelForKey: the level pointers only move forward, yet for
        keys asked in increasing order the answer is that of a full scan. */
    method IsBaseLevelForKey(k: UserKey) returns (base: bool)
      requires Valid() && (lastQuery.Some? ==> lastQuery.value <= k)
      modifies this`levelPtrs, this`lastQuery
      ensures Valid() && lastQuery == Some(k)
      ensures base <==> BaseLevelFor(inputVersion, level, k)
    {
      lastQuery := Some(k);
      forall l | 0 <= l < NUM_LEVELS ensures PassedOver(inputVersion[l], levelPtrs[l], Some(k)) {
        assert PassedOver(inputVersion[l], levelPtrs[l], old(lastQuery));
      }
      for lvl := level + 2 to NUM_LEVELS
        invariant Valid() && lastQuery == Some(k)
        invariant forall l, f :: level + 2 <= l < lvl && f in inputVersion[l] ==> !InUserRange(f, k)
      {
        var files := inputVersion[lvl];
        while levelPtrs[lvl] < |files|
          invariant Valid() && lastQuery == Some(k)
          decreases |files| - levelPtrs[lvl]
        {
          var f := files[levelPtrs[lvl]];
          if k <= f.largest.ukey {
            if k >= f.smallest.ukey {
              assert InUserRange(f, k) && f in inputVersion[lvl];
              return false;
            }
            break;
          }
          levelPtrs := levelPtrs[lvl := levelPtrs[lvl] + 1];
        }
        assert LevelOk(lvl, files);
        PointerDecides(files, levelPtrs[lvl], k);
      }
      return true;
    }
  }

  lemma PointerDecides(files: seq<File>, ptr: nat, k: UserKey)
    requires SortedDisjoint(files)
    requires forall i :: 0 <= i < ptr && i < |files| ==> files[i].largest.ukey < k
    requires ptr < |files| ==> k < files[ptr].smallest.ukey
    ensures forall f :: f in files ==> !InUserRange(f, k)
  {
    forall f | f in files ensures !InUserRange(f, k) {
      var i :| 0 <= i < |files| && files[i] == f;
      if ptr < i {
        assert Less(files[ptr].largest, f.smallest);
      }
    }
  }

  lemma PickedAreFiles(level: nat, files: seq<File>, inputs: seq<File>)
    requires Picked(level, files, inputs)
    ensures forall f :: f in inputs ==> f in files
  {}

  // The range of all inputs covers the inputs of the level, so they are picked again.
  lemma WiderRangeKeepsInputs(files: seq<File>, inputs: seq<File>, all: seq<File>, lo: Bound, hi: Bound)
    requires all != [] && forall f :: f in inputs ==> f in files && f in all
    requires Widens(Some(SmallestKey(all).ukey), Some(LargestKey(all).ukey), lo, hi)
    ensures forall f :: f in inputs ==> f in OverlapFilter(files, lo, hi)
  {
    KeysAreRange(all);
  }

  /** Any non-empty answer of GetOverlappingInputs is a pick. */
  lemma OverlapsArePicked(level: nat, files: seq<File>, lo: Bound, hi: Bound, inputs: seq<File>)
    requires if level == 0 then NoDuplicates(files) else SortedDisjoint(files)
    requires inputs == OverlapFilter(files, lo, hi) && inputs != []
    requires level == 0 ==> AllInside(inputs, lo, hi)
    ensures Picked(level, files, inputs)
  {
    if level == 0 {
      OverlapFilterNoDuplicates(files, lo, hi);
      KeysAreRange(inputs);
      forall f | f in files && OverlapsInputs(f, inputs) ensures f in inputs {
        assert Overlaps(f, lo, hi);
      }
    } else {
      var a, b := OverlapIsSlice(files, lo, hi);
    }
  }
}
