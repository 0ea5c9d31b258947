/** Sorted runs of entries: searching and merging. */
module Runs {
  import opened Dbformat

  /** The index of the first entry at or after `target`. */
  function LowerBound(es: seq<Entry>, target: IKey): (i: nat)
    ensures i <= |es|
  {
    if es == [] || !Less(es[0].key, target) then 0 else 1 + LowerBound(es[1..], target)
  }

  lemma {:induction false} LowerBoundSplits(es: seq<Entry>, target: IKey)
    requires Sorted(es)
    ensures forall j :: 0 <= j < LowerBound(es, target) ==> Less(es[j].key, target)
    ensures forall j :: LowerBound(es, target) <= j < |es| ==> !Less(es[j].key, target)
  {
    if es != [] && Less(es[0].key, target) {
      var rest := es[1..];
      LowerBoundSplits(rest, target);
      forall j | 0 <= j < |es| && j > 0 ensures es[j] == rest[j - 1] {}
    }
  }

  function MergeRuns(a: seq<Entry>, b: seq<Entry>): seq<Entry>
    decreases |a| + |b|
  {
    if a == [] then b
    else if b == [] then a
    else if Less(b[0].key, a[0].key) then [b[0]] + MergeRuns(a, b[1..])
    else [a[0]] + MergeRuns(a[1..], b)
  }

  ghost predicate KeysDiffer(a: seq<Entry>, b: seq<Entry>) {
    forall x, y :: x in a && y in b ==> x.key != y.key
  }

  lemma {:induction false} MergeElements(a: seq<Entry>, b: seq<Entry>)
    ensures forall e :: e in MergeRuns(a, b) <==> e in a || e in b
    decreases |a| + |b|
  {
    if a != [] && b != [] {
      if Less(b[0].key, a[0].key) { MergeElements(a, b[1..]); } else { MergeElements(a[1..], b); }
    }
  }

  lemma HeadBefore(x: Entry, es: seq<Entry>)
    requires Sorted(es) && forall e :: e in es ==> Less(x.key, e.key)
    ensures Sorted([x] + es)
  {
    assert forall i :: 0 <= i < |es| ==> es[i] in es;
  }

  lemma SortedHead(es: seq<Entry>)
    requires Sorted(es) && es != []
    ensures forall e :: e in es[1..] ==> Less(es[0].key, e.key)
    ensures forall e :: e in es ==> e == es[0] || Less(es[0].key, e.key)
  {}

  /** Sorted runs without a common key merge into a sorted run. */
  lemma {:induction false} MergeSorted(a: seq<Entry>, b: seq<Entry>)
    requires Sorted(a) && Sorted(b) && KeysDiffer(a, b)
    ensures Sorted(MergeRuns(a, b))
    decreases |a| + |b|
  {
    if a == [] || b == [] { return; }
    SortedHead(a);
    SortedHead(b);
    assert a[0] in a && b[0] in b;
    CompareIsOrder(a[0].key, b[0].key, a[0].key);
    if Less(b[0].key, a[0].key) {
      MergeSorted(a, b[1..]);
      MergeElements(a, b[1..]);
      forall e | e in MergeRuns(a, b[1..]) ensures Less(b[0].key, e.key) {
        CompareIsOrder(b[0].key, a[0].key, e.key);
      }
      HeadBefore(b[0], MergeRuns(a, b[1..]));
    } else {
      MergeSorted(a[1..], b);
      MergeElements(a[1..], b);
      forall e | e in MergeRuns(a[1..], b) ensures Less(a[0].key, e.key) {
        CompareIsOrder(a[0].key, b[0].key, e.key);
      }
      HeadBefore(a[0], MergeRuns(a[1..], b));
    }
  }

  /** The elements of a sorted run and of a sum of runs. */
  lemma MergeIsUnion(a: seq<Entry>, b: seq<Entry>)
    ensures Elements(MergeRuns(a, b)) == Elements(a) + Elements(b)
  {
    MergeElements(a, b);
  }

  // ---- positions in a run ----------------------------------------------------------

  /** Where Seek leaves a cursor on a run. */
  function SeekPos(es: seq<Entry>, target: IKey): (p: Option<nat>)
    ensures p.Some? ==> p.value < |es|
  {
    var i := LowerBound(es, target);
    if i < |es| then Some(i) else None
  }

  function NextPos(es: seq<Entry>, p: nat): Option<nat> { if p + 1 < |es| then Some(p + 1) else None }

  function PrevPos(p: nat): Option<nat> { if p > 0 then Some(p - 1) else None }
}
