/** The merging iterator (table/merger.cc): a cursor over the sorted merge of its
    children, which are cursors over sorted runs with no key in common. */
module MergingIterator {
  import opened Dbformat
  import opened Runs

  /** `run` is the sorted merge of the children's runs. */
  ghost predicate Merges(lists: seq<seq<Entry>>, run: seq<Entry>) {
    && Sorted(run)
    && (forall i :: 0 <= i < |lists| ==> Sorted(lists[i]))
    && (forall i, j :: 0 <= i < j < |lists| ==> KeysDiffer(lists[i], lists[j]))
    && (forall i, e :: 0 <= i < |lists| && e in lists[i] ==> e in run)
    && forall e :: e in run ==> exists i :: 0 <= i < |lists| && e in lists[i]
  }

  ghost predicate InRange(lists: seq<seq<Entry>>, children: seq<Option<nat>>) {
    |children| == |lists| && forall i :: 0 <= i < |lists| && children[i].Some? ==> children[i].value < |lists[i]|
  }

  function KeyAt(lists: seq<seq<Entry>>, children: seq<Option<nat>>, i: nat): IKey
    requires InRange(lists, children) && i < |lists| && children[i].Some?
  {
    lists[i][children[i].value].key
  }

  // ---- a place in the merge ---------------------------------------------------------------

  /** A place before or after a key, or at either end. */
  datatype Place = Place(key: IKey, after: bool) | Start | End {
    predicate Covers(k: IKey) {
      match this
      case Place(key, after) => Less(k, key) || (after && k == key)
      case Start => false
      case End => true
    }
  }

  /** The first `i` entries, and no others, come before the place. */
  ghost predicate IsCut(es: seq<Entry>, p: Place, i: nat) {
    && i <= |es|
    && (forall j :: 0 <= j < i ==> p.Covers(es[j].key))
    && forall j :: i <= j < |es| ==> !p.Covers(es[j].key)
  }

  function Right(es: seq<Entry>, i: nat): Option<nat> { if i < |es| then Some(i) else None }

  function Left(i: nat): Option<nat> { if i > 0 then Some(i - 1) else None }

  ghost predicate StandsRight(es: seq<Entry>, p: Place, at: Option<nat>) {
    exists n: nat :: IsCut(es, p, n) && at == Right(es, n)
  }

  ghost predicate StandsLeft(es: seq<Entry>, p: Place, at: Option<nat>) {
    exists n: nat :: IsCut(es, p, n) && at == Left(n)
  }

  /** Every child stands on its first entry after the place. */
  ghost predicate AllRight(lists: seq<seq<Entry>>, children: seq<Option<nat>>, p: Place) {
    |children| == |lists| &&
    forall i :: 0 <= i < |lists| ==> StandsRight(lists[i], p, children[i])
  }

  ghost predicate AllLeft(lists: seq<seq<Entry>>, children: seq<Option<nat>>, p: Place) {
    |children| == |lists| &&
    forall i :: 0 <= i < |lists| ==> StandsLeft(lists[i], p, children[i])
  }

  ghost predicate IsSmallest(lists: seq<seq<Entry>>, children: seq<Option<nat>>, c: Option<nat>)
    requires InRange(lists, children)
  {
    && (c.Some? ==> c.value < |lists| && children[c.value].Some?)
    && forall i :: 0 <= i < |lists| && children[i].Some? ==>
         c.Some? && !Less(KeyAt(lists, children, i), KeyAt(lists, children, c.value))
  }

  ghost predicate IsLargest(lists: seq<seq<Entry>>, children: seq<Option<nat>>, c: Option<nat>)
    requires InRange(lists, children)
  {
    && (c.Some? ==> c.value < |lists| && children[c.value].Some?)
    && forall i :: 0 <= i < |lists| && children[i].Some? ==>
         c.Some? && !Less(KeyAt(lists, children, c.value), KeyAt(lists, children, i))
  }

  lemma Trichotomy(a: IKey, b: IKey)
    ensures Less(a, b) || Less(b, a) || a == b
    ensures !(Less(a, b) && Less(b, a)) && !Less(a, a)
  {}

  lemma LessIsTransitive(a: IKey, b: IKey, c: IKey)
    ensures Less(a, b) && Less(b, c) ==> Less(a, c)
    ensures !Less(b, a) && Less(b, c) ==> Less(a, c)
    ensures Less(a, b) && !Less(c, b) ==> Less(a, c)
    ensures !Less(b, a) && !Less(c, b) ==> !Less(c, a)
  {}

  method FindSmallest(lists: seq<seq<Entry>>, children: seq<Option<nat>>) returns (smallest: Option<nat>)
    requires InRange(lists, children)
    ensures IsSmallest(lists, children, smallest)
  {
    smallest := None;
    for i := 0 to |lists|
      invariant smallest.Some? ==> smallest.value < i && children[smallest.value].Some?
      invariant forall j :: 0 <= j < i && children[j].Some? ==>
                  smallest.Some? && !Less(KeyAt(lists, children, j), KeyAt(lists, children, smallest.value))
    {
      if children[i].Some? {
        if smallest.None? {
          smallest := Some(i);
        } else if Compare(KeyAt(lists, children, i), KeyAt(lists, children, smallest.value)) < 0 {
          SmallerStill(lists, children, i, smallest.value, i);
          smallest := Some(i);
        }
      }
    }
  }

  lemma SmallerStill(lists: seq<seq<Entry>>, children: seq<Option<nat>>, n: nat, old_: nat, new_: nat)
    requires InRange(lists, children) && n <= |lists| && old_ < |lists| && new_ < |lists|
    requires children[old_].Some? && children[new_].Some?
    requires Less(KeyAt(lists, children, new_), KeyAt(lists, children, old_))
    ensures forall j :: 0 <= j < n && children[j].Some? && !Less(KeyAt(lists, children, j), KeyAt(lists, children, old_)) ==>
              !Less(KeyAt(lists, children, j), KeyAt(lists, children, new_))
  {}

  method FindLargest(lists: seq<seq<Entry>>, children: seq<Option<nat>>) returns (largest: Option<nat>)
    requires InRange(lists, children)
    ensures IsLargest(lists, children, largest)
  {
    largest := None;
    for i := |lists| downto 0
      invariant largest.Some? ==> i <= largest.value < |lists| && children[largest.value].Some?
      invariant forall j :: i <= j < |lists| && children[j].Some? ==>
                  largest.Some? && !Less(KeyAt(lists, children, largest.value), KeyAt(lists, children, j))
    {
      if children[i].Some? {
        if largest.None? {
          largest := Some(i);
        } else if Compare(KeyAt(lists, children, i), KeyAt(lists, children, largest.value)) > 0 {
          forall j | i <= j < |lists| && children[j].Some? ensures !Less(KeyAt(lists, children, i), KeyAt(lists, children, j)) {
            LessIsTransitive(KeyAt(lists, children, j), KeyAt(lists, children, largest.value), KeyAt(lists, children, i));
            Trichotomy(KeyAt(lists, children, i), KeyAt(lists, children, j));
          }
          largest := Some(i);
        }
      }
    }
  }

  // ---- the smallest child is the next entry of the merge ------------------------------------

  lemma SameKeySameEntry(run: seq<Entry>, i: nat, j: nat)
    requires Sorted(run) && i < |run| && j < |run|
    requires !Less(run[i].key, run[j].key) && !Less(run[j].key, run[i].key)
    ensures i == j
  {}

  lemma SortedIndex(run: seq<Entry>, i: nat, j: nat)
    requires Sorted(run) && i <= j < |run|
    ensures !Less(run[j].key, run[i].key)
  {
    Trichotomy(run[i].key, run[j].key);
  }

  lemma SmallestIsRight(lists: seq<seq<Entry>>, run: seq<Entry>, children: seq<Option<nat>>, p: Place, m: nat, c: Option<nat>)
    requires Merges(lists, run) && InRange(lists, children) && AllRight(lists, children, p) && IsCut(run, p, m)
    requires IsSmallest(lists, children, c)
    ensures c.Some? <==> m < |run|
    ensures c.Some? ==> lists[c.value][children[c.value].value] == run[m]
  {
    if c.Some? {
      var e := lists[c.value][children[c.value].value];
      var n: nat :| IsCut(lists[c.value], p, n) && children[c.value] == Right(lists[c.value], n);
      assert e in lists[c.value] && e in run;
      var k :| 0 <= k < |run| && run[k] == e;
      assert m <= k;
      SortedIndex(run, m, k);
      var i := ChildAtCut(lists, run, children, p, m);
      LessIsTransitive(e.key, KeyAt(lists, children, i), run[m].key);
      SameKeySameEntry(run, m, k);
    } else if m < |run| {
      var i := ChildAtCut(lists, run, children, p, m);
    }
  }

  // The entry after the place stands in a child, at or after where the child stands.
  lemma ChildAtCut(lists: seq<seq<Entry>>, run: seq<Entry>, children: seq<Option<nat>>, p: Place, m: nat) returns (i: nat)
    requires Merges(lists, run) && InRange(lists, children) && AllRight(lists, children, p) && IsCut(run, p, m) && m < |run|
    ensures i < |lists| && children[i].Some? && !Less(run[m].key, KeyAt(lists, children, i))
  {
    assert run[m] in run;
    i :| 0 <= i < |lists| && run[m] in lists[i];
    var j :| 0 <= j < |lists[i]| && lists[i][j] == run[m];
    var n: nat :| IsCut(lists[i], p, n) && children[i] == Right(lists[i], n);
    assert n <= j;
    SortedIndex(lists[i], n, j);
  }

  lemma LargestIsLeft(lists: seq<seq<Entry>>, run: seq<Entry>, children: seq<Option<nat>>, p: Place, m: nat, c: Option<nat>)
    requires Merges(lists, run) && InRange(lists, children) && AllLeft(lists, children, p) && IsCut(run, p, m)
    requires IsLargest(lists, children, c)
    ensures c.Some? <==> m > 0
    ensures c.Some? ==> lists[c.value][children[c.value].value] == run[m - 1]
  {
    if c.Some? {
      var e := lists[c.value][children[c.value].value];
      var n: nat :| IsCut(lists[c.value], p, n) && children[c.value] == Left(n);
      assert e in lists[c.value] && e in run;
      var k :| 0 <= k < |run| && run[k] == e;
      assert k < m;
      SortedIndex(run, k, m - 1);
      var i := ChildBeforeCut(lists, run, children, p, m);
      LessIsTransitive(run[m - 1].key, KeyAt(lists, children, i), e.key);
      SameKeySameEntry(run, m - 1, k);
    } else if m > 0 {
      var i := ChildBeforeCut(lists, run, children, p, m);
    }
  }

  lemma ChildBeforeCut(lists: seq<seq<Entry>>, run: seq<Entry>, children: seq<Option<nat>>, p: Place, m: nat) returns (i: nat)
    requires Merges(lists, run) && InRange(lists, children) && AllLeft(lists, children, p) && IsCut(run, p, m) && m > 0
    ensures i < |lists| && children[i].Some? && !Less(KeyAt(lists, children, i), run[m - 1].key)
  {
    assert run[m - 1] in run;
    i :| 0 <= i < |lists| && run[m - 1] in lists[i];
    var j :| 0 <= j < |lists[i]| && lists[i][j] == run[m - 1];
    var n: nat :| IsCut(lists[i], p, n) && children[i] == Left(n);
    assert j < n;
    SortedIndex(lists[i], j, n - 1);
  }

  // ---- neighbouring places ----------------------------------------------------------------------

  lemma PlacesInRun(run: seq<Entry>, a: nat)
    requires Sorted(run) && a < |run|
    ensures IsCut(run, Place(run[a].key, false), a) && IsCut(run, Place(run[a].key, true), a + 1)
  {
    forall j | a <= j < |run| ensures !Less(run[j].key, run[a].key) { SortedIndex(run, a, j); }
    forall j | a < j < |run| ensures run[j].key != run[a].key { Trichotomy(run[a].key, run[j].key); }
  }

  /** Two places with no entry of the merge between them. */
  ghost predicate SamePlace(run: seq<Entry>, p: Place, q: Place) {
    forall e :: e in run ==> (p.Covers(e.key) <==> q.Covers(e.key))
  }

  lemma SameCutSamePlace(run: seq<Entry>, p: Place, q: Place, m: nat)
    requires IsCut(run, p, m) && IsCut(run, q, m)
    ensures SamePlace(run, p, q)
  {
    forall e | e in run ensures p.Covers(e.key) <==> q.Covers(e.key) {
      var j :| 0 <= j < |run| && run[j] == e;
    }
  }

  lemma AllRightMoves(lists: seq<seq<Entry>>, run: seq<Entry>, children: seq<Option<nat>>, p: Place, q: Place)
    requires Merges(lists, run) && AllRight(lists, children, p) && SamePlace(run, p, q)
    ensures AllRight(lists, children, q)
  {
    forall i | 0 <= i < |lists| ensures StandsRight(lists[i], q, children[i]) {
      var n: nat :| IsCut(lists[i], p, n) && children[i] == Right(lists[i], n);
      assert forall j :: 0 <= j < |lists[i]| ==> lists[i][j] in lists[i];
      assert IsCut(lists[i], q, n);
    }
  }

  lemma AllLeftMoves(lists: seq<seq<Entry>>, run: seq<Entry>, children: seq<Option<nat>>, p: Place, q: Place)
    requires Merges(lists, run) && AllLeft(lists, children, p) && SamePlace(run, p, q)
    ensures AllLeft(lists, children, q)
  {
    forall i | 0 <= i < |lists| ensures StandsLeft(lists[i], q, children[i]) {
      var n: nat :| IsCut(lists[i], p, n) && children[i] == Left(n);
      assert forall j :: 0 <= j < |lists[i]| ==> lists[i][j] in lists[i];
      assert IsCut(lists[i], q, n);
    }
  }

  // ---- moving one child ---------------------------------------------------------------------------

  lemma SeekCuts(es: seq<Entry>, k: IKey)
    requires Sorted(es)
    ensures IsCut(es, Place(k, false), LowerBound(es, k))
    ensures SeekPos(es, k) == Right(es, LowerBound(es, k))
  {
    LowerBoundSplits(es, k);
  }

  /** The current child holds the key; every other child has the same cut before and after it. */
  lemma OtherChild(lists: seq<seq<Entry>>, run: seq<Entry>, c: nat, x: Entry, i: nat, n: nat)
    requires Merges(lists, run) && c < |lists| && i < |lists| && i != c && x in lists[c]
    ensures IsCut(lists[i], Place(x.key, false), n) <==> IsCut(lists[i], Place(x.key, true), n)
  {
    assert if i < c then KeysDiffer(lists[i], lists[c]) else KeysDiffer(lists[c], lists[i]);
    forall j | 0 <= j < |lists[i]| ensures lists[i][j].key != x.key { assert lists[i][j] in lists[i]; }
  }

  lemma CurrentChild(es: seq<Entry>, j: nat)
    requires Sorted(es) && j < |es|
    ensures IsCut(es, Place(es[j].key, false), j) && IsCut(es, Place(es[j].key, true), j + 1)
    ensures NextPos(es, j) == Right(es, j + 1) && PrevPos(j) == Left(j)
  {
    PlacesInRun(es, j);
  }

  class MergingIterator {
    const lists: seq<seq<Entry>>
    ghost const run: seq<Entry>
    var children: seq<Option<nat>>
    var current: Option<nat>
    var forward: bool
    ghost var at: Option<nat>

    ghost predicate Valid()
      reads this
    {
      && Merges(lists, run) && InRange(lists, children) && (current.Some? <==> at.Some?)
      && (at.Some? ==>
            && at.value < |run| && current.value < |lists|
            && children[current.value].Some? && lists[current.value][children[current.value].value] == run[at.value]
            && if forward then AllRight(lists, children, Place(run[at.value].key, false))
               else AllLeft(lists, children, Place(run[at.value].key, true)))
    }

    /** key() and value(): those of the merge at the cursor. */
    function Current(): (e: Entry)
      requires Valid() && current.Some?
      reads this
      ensures e == run[at.value]
    {
      lists[current.value][children[current.value].value]
    }

    constructor (lists: seq<seq<Entry>>, ghost run: seq<Entry>)
      requires Merges(lists, run)
      ensures Valid() && this.lists == lists && this.run == run && at.None?
    {
      this.lists, this.run := lists, run;
      children := seq(|lists|, _ => None);
      current, forward, at := None, true, None;
    }

    /** After FindSmallest from a place: the cursor is at the first entry after it. */
    method Smallest(ghost p: Place, ghost m: nat)
      requires Merges(lists, run) && InRange(lists, children) && AllRight(lists, children, p) && IsCut(run, p, m)
      modifies this`current, this`forward, this`at
      ensures Valid() && at == Right(run, m)
    {
      current := FindSmallest(lists, children);
      forward := true;
      SmallestIsRight(lists, run, children, p, m, current);
      at := Right(run, m);
      if at.Some? {
        PlacesInRun(run, m);
        SameCutSamePlace(run, p, Place(run[m].key, false), m);
        AllRightMoves(lists, run, children, p, Place(run[m].key, false));
      }
    }

    method Largest(ghost p: Place, ghost m: nat)
      requires Merges(lists, run) && InRange(lists, children) && AllLeft(lists, children, p) && IsCut(run, p, m)
      modifies this`current, this`forward, this`at
      ensures Valid() && at == Left(m)
    {
      current := FindLargest(lists, children);
      forward := false;
      LargestIsLeft(lists, run, children, p, m, current);
      at := Left(m);
      if at.Some? {
        PlacesInRun(run, m - 1);
        SameCutSamePlace(run, p, Place(run[m - 1].key, true), m);
        AllLeftMoves(lists, run, children, p, Place(run[m - 1].key, true));
      }
    }

    method Seek(target: IKey)
      requires Valid()
      modifies this
      ensures Valid() && at == SeekPos(run, target)
    {
      var i := 0;
      while i < |lists|
        invariant i <= |lists| && InRange(lists, children)
        invariant forall j :: 0 <= j < i ==> children[j] == SeekPos(lists[j], target)
      {
        children := children[i := SeekPos(lists[i], target)];
        i := i + 1;
      }
      ghost var p := Place(target, false);
      forall j | 0 <= j < |lists| ensures StandsRight(lists[j], p, children[j]) {
        SeekCuts(lists[j], target);
      }
      SeekCuts(run, target);
      Smallest(p, LowerBound(run, target));
    }

    method SeekToFirst()
      requires Valid()
      modifies this
      ensures Valid() && at == Right(run, 0)
    {
      children := seq(|lists|, i requires 0 <= i < |lists| => Right(lists[i], 0));
      forall j | 0 <= j < |lists| ensures StandsRight(lists[j], Start, children[j]) {
        assert IsCut(lists[j], Start, 0);
      }
      Smallest(Start, 0);
    }

    method SeekToLast()
      requires Valid()
      modifies this
      ensures Valid() && at == Left(|run|)
    {
      children := seq(|lists|, i requires 0 <= i < |lists| => Left(|lists[i]|));
      forall j | 0 <= j < |lists| ensures StandsLeft(lists[j], End, children[j]) {
        assert IsCut(lists[j], End, |lists[j]|);
      }
      Largest(End, |run|);
    }

    /** Switching to forward: every child but the current one goes past the key. */
    method MoveOthersForward(c: nat, key: IKey)
      requires InRange(lists, children) && c < |lists| && forall i :: 0 <= i < |lists| ==> Sorted(lists[i])
      modifies this`children
      ensures InRange(lists, children) && children[c] == old(children[c])
      ensures forall i :: 0 <= i < |lists| && i != c ==> StandsRight(lists[i], Place(key, true), children[i])
    {
      for i := 0 to |lists|
        invariant InRange(lists, children) && children[c] == old(children[c])
        invariant forall j :: 0 <= j < i && j != c ==> StandsRight(lists[j], Place(key, true), children[j])
      {
        if i != c {
          var p := SeekPos(lists[i], key);
          SeekCuts(lists[i], key);
          var n := LowerBound(lists[i], key);
          if p.Some? && Compare(key, lists[i][p.value].key) == 0 {
            p := NextPos(lists[i], p.value);
            CurrentChild(lists[i], n);
            assert IsCut(lists[i], Place(key, true), n + 1) && p == Right(lists[i], n + 1);
          } else {
            NotEqualSameCut(lists[i], key, n);
            assert IsCut(lists[i], Place(key, true), n) && p == Right(lists[i], n);
          }
          children := children[i := p];
        }
      }
    }

    method Next()
      requires Valid() && current.Some?
      modifies this
      ensures Valid() && at == NextPos(run, old(at).value)
    {
      ghost var a := at.value;
      var c, key := current.value, Current().key;
      ghost var x := run[a];
      assert x in lists[c];
      if !forward {
        MoveOthersForward(c, key);
      } else {
        OthersStandAfter(lists, run, children, c, x);
      }
      CurrentChild(lists[c], children[c].value);
      children := children[c := NextPos(lists[c], children[c].value)];
      assert AllRight(lists, children, Place(key, true));
      PlacesInRun(run, a);
      Smallest(Place(key, true), a + 1);
    }

    /** Switching to reverse: every child but the current one goes before the key. */
    method MoveOthersBackward(c: nat, key: IKey)
      requires InRange(lists, children) && c < |lists| && forall i :: 0 <= i < |lists| ==> Sorted(lists[i])
      modifies this`children
      ensures InRange(lists, children) && children[c] == old(children[c])
      ensures forall i :: 0 <= i < |lists| && i != c ==> StandsLeft(lists[i], Place(key, false), children[i])
    {
      for i := 0 to |lists|
        invariant InRange(lists, children) && children[c] == old(children[c])
        invariant forall j :: 0 <= j < i && j != c ==> StandsLeft(lists[j], Place(key, false), children[j])
      {
        if i != c {
          var p := SeekPos(lists[i], key);
          SeekCuts(lists[i], key);
          if p.Some? {
            p := PrevPos(p.value);
          } else {
            p := Left(|lists[i]|);
          }
          assert IsCut(lists[i], Place(key, false), LowerBound(lists[i], key)) && p == Left(LowerBound(lists[i], key));
          children := children[i := p];
        }
      }
    }

    method Prev()
      requires Valid() && current.Some?
      modifies this
      ensures Valid() && at == PrevPos(old(at).value)
    {
      ghost var a := at.value;
      var c, key := current.value, Current().key;
      ghost var x := run[a];
      assert x in lists[c];
      if forward {
        MoveOthersBackward(c, key);
      } else {
        OthersStandBefore(lists, run, children, c, x);
      }
      CurrentChild(lists[c], children[c].value);
      children := children[c := PrevPos(children[c].value)];
      assert AllLeft(lists, children, Place(key, false));
      PlacesInRun(run, a);
      Largest(Place(key, false), a);
    }
  }

  lemma NotEqualSameCut(es: seq<Entry>, key: IKey, n: nat)
    requires Sorted(es) && IsCut(es, Place(key, false), n) && (n < |es| ==> Compare(key, es[n].key) != 0)
    ensures IsCut(es, Place(key, true), n)
  {
    if n < |es| {
      CompareIsOrder(key, es[n].key, key);
      Trichotomy(key, es[n].key);
      forall j | n <= j < |es| ensures es[j].key != key {
        if n < j { LessIsTransitive(key, es[n].key, es[j].key); Trichotomy(key, es[j].key); }
      }
    }
  }

  lemma OthersStandAfter(lists: seq<seq<Entry>>, run: seq<Entry>, children: seq<Option<nat>>, c: nat, x: Entry)
    requires Merges(lists, run) && c < |lists| && x in lists[c] && AllRight(lists, children, Place(x.key, false))
    ensures forall i :: 0 <= i < |lists| && i != c ==> StandsRight(lists[i], Place(x.key, true), children[i])
  {
    forall i | 0 <= i < |lists| && i != c ensures StandsRight(lists[i], Place(x.key, true), children[i]) {
      var n: nat :| IsCut(lists[i], Place(x.key, false), n) && children[i] == Right(lists[i], n);
      OtherChild(lists, run, c, x, i, n);
    }
  }

  lemma OthersStandBefore(lists: seq<seq<Entry>>, run: seq<Entry>, children: seq<Option<nat>>, c: nat, x: Entry)
    requires Merges(lists, run) && c < |lists| && x in lists[c] && AllLeft(lists, children, Place(x.key, true))
    ensures forall i :: 0 <= i < |lists| && i != c ==> StandsLeft(lists[i], Place(x.key, false), children[i])
  {
    forall i | 0 <= i < |lists| && i != c ensures StandsLeft(lists[i], Place(x.key, false), children[i]) {
      var n: nat :| IsCut(lists[i], Place(x.key, true), n) && children[i] == Left(n);
      OtherChild(lists, run, c, x, i, n);
    }
  }
}
