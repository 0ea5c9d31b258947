/** Descriptor-driven messages: their types, and what the encoder writes for them
    (nanopb/pb.h, nanopb/pb_encode.c).  Fields are statically allocated. */
module Nanopb {
  import opened Dbformat
  import opened Coding

  // ---- descriptors and C structs -----------------------------------------------------------

  /** PB_LTYPE.  `width` and `length` are the field's data_size; `room` is how many bytes of
      content the field can hold, counting the terminating NUL of a text. */
  datatype LType =
    | Bool
    | VarInt(width: nat)
    | UVarInt(width: nat)
    | SVarInt(width: nat)
    | Fix32
    | Fix64
    | Bytes(room: nat)
    | Text(room: nat)
    | Sub(desc: Desc)
    | FixedBytes(length: nat)

  /** PB_HTYPE.  Singular is an optional field without a has_ member; `joins` marks a member of
      a union other than its first. */
  datatype HType = Required | Optional | Singular | Repeated(most: nat) | OneOf(joins: bool)

  datatype Field = Field(tag: nat, htype: HType, ltype: LType, dflt: Data)

  datatype Desc = Desc(fields: seq<Field>)

  /** What a C object holds: a number, some bytes (for a text, those before its NUL), or a struct. */
  datatype Data = Num(n: int) | Blob(s: seq<byte>) | Message(slots: seq<Slot>)

  /** A member of a struct with its has_, count or which_ companion. */
  datatype Slot =
    | One(v: Data)
    | Maybe(has: bool, v: Data)
    | Many(vs: seq<Data>)
    | Which(tag: nat, v: Data)

  // Readings of memory that are meant for objects of the right type.
  function NumOf(v: Data): int { if v.Num? then v.n else 0 }

  function BlobOf(v: Data): seq<byte> { if v.Blob? then v.s else [] }

  function SlotsOf(v: Data): seq<Slot> { if v.Message? then v.slots else [] }

  function ValueOf(s: Slot): Data { if s.Many? then Num(0) else s.v }

  function ItemsOf(s: Slot): seq<Data> { if s.Many? then s.vs else [] }

  // ---- where the fields live ------------------------------------------------------------------

  /** A later member of a union shares its struct member with the one before it. */
  predicate Joins(d: Desc, i: nat)
    requires i < |d.fields|
  {
    i > 0 && d.fields[i - 1].htype.OneOf? && d.fields[i].htype.OneOf? && d.fields[i].htype.joins
  }

  function Opened(d: Desc, i: nat): (n: nat)
    requires i <= |d.fields|
    ensures n <= i && (i > 0 ==> n > 0)
  {
    if i == 0 then 0 else Opened(d, i - 1) + if Joins(d, i - 1) then 0 else 1
  }

  function SlotCount(d: Desc): nat { Opened(d, |d.fields|) }

  function SlotOf(d: Desc, i: nat): nat
    requires i < |d.fields|
  {
    Opened(d, i + 1) - 1
  }

  lemma {:induction false} OpenedGrows(d: Desc, i: nat, j: nat)
    requires i <= j <= |d.fields|
    ensures Opened(d, i) <= Opened(d, j)
    decreases j
  {
    if i < j { OpenedGrows(d, i, j - 1); }
  }

  lemma SlotIn(d: Desc, i: nat)
    requires i < |d.fields|
    ensures SlotOf(d, i) < SlotCount(d)
  {
    OpenedGrows(d, i + 1, |d.fields|);
  }

  /** Two fields share a struct member only inside a union. */
  lemma {:induction false} OnlyUnionsShare(d: Desc, i: nat, j: nat)
    requires i < j < |d.fields| && SlotOf(d, i) == SlotOf(d, j)
    ensures d.fields[i].htype.OneOf? && d.fields[j].htype.OneOf?
    decreases j
  {
    OpenedGrows(d, i + 1, j);
    if i < j - 1 { OnlyUnionsShare(d, i, j - 1); }
  }

  function At(d: Desc, slots: seq<Slot>, i: nat): Slot
    requires i < |d.fields|
  {
    var k := SlotOf(d, i);
    if k < |slots| then slots[k] else One(Num(0))
  }

  /** The number of required fields among the first `i`. */
  function RequiredBefore(d: Desc, i: nat): nat
    requires i <= |d.fields|
  {
    if i == 0 then 0 else RequiredBefore(d, i - 1) + if d.fields[i - 1].htype.Required? then 1 else 0
  }

  // ---- numbers on the wire ----------------------------------------------------------------------

  predicate Width(w: nat) { w == 1 || w == 2 || w == 4 || w == 8 }

  function Half(w: nat): nat {
    if w == 1 then 0x80 else if w == 2 then 0x8000 else if w == 4 then 0x8000_0000 else 0x8000_0000_0000_0000
  }

  /** The low bits of `n` as a signed integer of `w` bytes. */
  function Signed(n: int, w: nat): int {
    var m := n % (2 * Half(w));
    if m < Half(w) then m else m - 2 * Half(w)
  }

  function ZigZag(n: int): nat { if n < 0 then -2 * n - 1 else 2 * n }

  function UnZigZag(z: nat): int { if z % 2 == 1 then -(z / 2) - 1 else z / 2 }

  // ---- the encoding -------------------------------------------------------------------------------

  predicate Packable(l: LType) {
    l.Bool? || l.VarInt? || l.UVarInt? || l.SVarInt? || l.Fix32? || l.Fix64?
  }

  function WireOf(l: LType): (w: nat)
    ensures w < 8
  {
    match l
    case Fix64 => 1
    case Fix32 => 5
    case Bytes(_) => 2
    case Text(_) => 2
    case Sub(_) => 2
    case FixedBytes(_) => 2
    case _ => 0
  }

  function Key(tag: nat, wire: nat): seq<byte> { Varint(8 * tag + wire) }

  /** What stands for a value after its key. */
  function Body(l: LType, v: Data): (s: seq<byte>)
    decreases l, 0, 0
  {
    match l
    case Bool => Varint(if NumOf(v) != 0 then 1 else 0)
    case VarInt(_) => Varint(NumOf(v) % TWO64)
    case UVarInt(_) => Varint(NumOf(v) % TWO64)
    case SVarInt(_) => Varint(ZigZag(NumOf(v)) % TWO64)
    case Fix32 => LittleEndian(NumOf(v) % TWO32, 4)
    case Fix64 => LittleEndian(NumOf(v) % TWO64, 8)
    case Bytes(_) => Prefixed(BlobOf(v))
    case Text(_) => Prefixed(BlobOf(v))
    case FixedBytes(_) => Prefixed(BlobOf(v))
    case Sub(d) => Prefixed(MessageBytes(d, SlotsOf(v), 0))
  }

  /** A packed array, without its prefix. */
  function PackedBytes(l: LType, vs: seq<Data>): seq<byte>
    decreases l, 1, |vs|
  {
    if vs == [] then [] else Body(l, vs[0]) + PackedBytes(l, vs[1..])
  }

  /** An array whose entries each have a key. */
  function UnpackedBytes(f: Field, vs: seq<Data>): seq<byte>
    decreases f, 0, |vs|
  {
    if vs == [] then [] else Key(f.tag, WireOf(f.ltype)) + Body(f.ltype, vs[0]) + UnpackedBytes(f, vs[1..])
  }

  function FieldBytes(f: Field, s: Slot): seq<byte>
    decreases f, 1, 0
  {
    var whole := Key(f.tag, WireOf(f.ltype)) + Body(f.ltype, ValueOf(s));
    match f.htype
    case Required => whole
    case Optional => if s.Maybe? && s.has then whole else []
    case Singular => if IsZero(f, s) then [] else whole
    case OneOf(_) => if s.Which? && s.tag == f.tag then whole else []
    case Repeated(_) =>
      if ItemsOf(s) == [] then []
      else if Packable(f.ltype) then Key(f.tag, 2) + Prefixed(PackedBytes(f.ltype, ItemsOf(s)))
      else UnpackedBytes(f, ItemsOf(s))
  }

  /** The fields from the `i`th on. */
  function MessageBytes(d: Desc, slots: seq<Slot>, i: nat): seq<byte>
    decreases d, 0, |d.fields| - i
  {
    if i >= |d.fields| then [] else FieldBytes(d.fields[i], At(d, slots, i)) + MessageBytes(d, slots, i + 1)
  }

  /** pb_check_proto3_default_value. */
  predicate IsZero(f: Field, s: Slot)
    decreases f, 0, 0
  {
    match f.htype
    case Required => false
    case Repeated(_) => ItemsOf(s) == []
    case OneOf(_) => s.Which? && s.tag == 0
    case Optional => !(s.Maybe? && s.has)
    case Singular =>
      match f.ltype
      case Bytes(_) => BlobOf(ValueOf(s)) == []
      case Text(_) => BlobOf(ValueOf(s)) == []
      case FixedBytes(n) => n == 0
      case Sub(d) => forall i | 0 <= i < |d.fields| :: IsZero(d.fields[i], At(d, SlotsOf(ValueOf(s)), i))
      case _ => NumOf(ValueOf(s)) == 0
  }

  /** No encoder reports an error of its own. */
  predicate CanEncode(l: LType, v: Data)
    decreases l, 0
  {
    match l
    case VarInt(w) => Width(w)
    case UVarInt(w) => Width(w)
    case SVarInt(w) => Width(w)
    case Bytes(room) => |BlobOf(v)| <= room
    case Sub(d) => CanEncodeMessage(d, SlotsOf(v))
    case _ => true
  }

  predicate CanEncodeField(f: Field, s: Slot)
    decreases f, 1
  {
    match f.htype
    case Required => CanEncode(f.ltype, ValueOf(s))
    case Optional => s.Maybe? && s.has ==> CanEncode(f.ltype, ValueOf(s))
    case Singular => IsZero(f, s) || CanEncode(f.ltype, ValueOf(s))
    case OneOf(_) => s.Which? && s.tag == f.tag ==> CanEncode(f.ltype, ValueOf(s))
    case Repeated(most) => |ItemsOf(s)| <= most && forall v | v in ItemsOf(s) :: CanEncode(f.ltype, v)
  }

  predicate CanEncodeMessage(d: Desc, slots: seq<Slot>)
    decreases d, 1
  {
    forall i | 0 <= i < |d.fields| :: CanEncodeField(d.fields[i], At(d, slots, i))
  }
}
