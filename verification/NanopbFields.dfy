/** The circular walk over a descriptor (nanopb/pb_common.c). */
module NanopbFields {
  import opened Dbformat
  import opened Nanopb

  /** The field after the `pos`th, the first one after the last. */
  function Following(d: Desc, pos: nat): nat { if pos + 1 < |d.fields| then pos + 1 else 0 }

  /** The first of `left` fields from the `pos`th on that has the tag. */
  function Search(d: Desc, pos: nat, tag: nat, left: nat): (r: Option<nat>)
    ensures r.Some? ==> r.value < |d.fields| && d.fields[r.value].tag == tag
    decreases left
  {
    if left == 0 || pos >= |d.fields| then None
    else if d.fields[pos].tag == tag then Some(pos)
    else Search(d, Following(d, pos), tag, left - 1)
  }

  /** Going all the way round misses no field, wherever the walk begins. */
  lemma {:induction false} SearchFinds(d: Desc, pos: nat, i: nat, left: nat)
    requires pos < |d.fields| && i < |d.fields| && left <= |d.fields|
    requires if pos <= i then i - pos < left else i + |d.fields| - pos < left
    ensures Search(d, pos, d.fields[i].tag, left).Some?
    decreases left
  {
    if pos != i { SearchFinds(d, Following(d, pos), i, left - 1); }
  }

  lemma TagIsEnough(d: Desc, pos: nat, i: nat)
    requires pos < |d.fields| && i < |d.fields|
    requires forall j, k :: 0 <= j < k < |d.fields| ==> d.fields[j].tag != d.fields[k].tag
    ensures Search(d, pos, d.fields[i].tag, |d.fields|) == Some(i)
  {
    SearchFinds(d, pos, i, |d.fields|);
  }

  /** pb_field_iter_t; `slot` stands for pData. */
  class FieldIter {
    const desc: Desc
    var pos: nat
    var slot: int
    var requiredIndex: nat

    ghost predicate Valid()
      reads this
    {
      if desc.fields == [] then pos == 0
      else pos < |desc.fields| && slot == SlotOf(desc, pos) && requiredIndex == RequiredBefore(desc, pos)
    }

    /** pb_field_iter_begin. */
    constructor (desc: Desc)
      ensures Valid() && pos == 0 && this.desc == desc
    {
      this.desc := desc;
      pos, slot, requiredIndex := 0, 0, 0;
    }

    /** pb_field_iter_next: a step around the fields, false when it comes back to the first. */
    method Next() returns (r: bool)
      requires Valid()
      modifies this
      ensures Valid()
      ensures r <==> old(pos) + 1 < |desc.fields|
      ensures pos == if r then old(pos) + 1 else 0
    {
      if desc.fields == [] { return false; }
      var prev := desc.fields[pos];
      pos := pos + 1;
      if pos == |desc.fields| {
        pos, slot, requiredIndex := 0, 0, 0;
        return false;
      }
      if prev.htype.OneOf? && desc.fields[pos].htype.OneOf? && desc.fields[pos].htype.joins {
        return true;
      }
      if prev.htype.Required? { requiredIndex := requiredIndex + 1; }
      slot := slot + 1;
      return true;
    }
  
    /** pb_field_iter_find: around the fields from the current one, back to it when none has the tag. */
    method Find(tag: nat) returns (r: bool)
      requires Valid()
      modifies this
      ensures Valid()
      ensures var s := Search(desc, old(pos), tag, |desc.fields|);
              r == s.Some? && pos == if s.Some? then s.value else old(pos)
    {
      if desc.fields == [] { return false; }
      var start := pos;
      ghost var left := |desc.fields|;
      while true
        invariant Valid() && 0 < left <= |desc.fields|
        invariant pos == (start + (|desc.fields| - left)) || pos == (start + (|desc.fields| - left)) - |desc.fields|
        invariant Search(desc, start, tag, |desc.fields|) == Search(desc, pos, tag, left)
        decreases left
      {
        if desc.fields[pos].tag == tag { return true; }
        var _ := Next();
        left := left - 1;
        if pos == start { break; }
      }
      return false;
    }
  }
}
