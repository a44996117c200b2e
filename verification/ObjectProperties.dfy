/**
  The layout ReadProperty-Request, ReadProperty-ACK and WriteProperty-Request share: context tag 0
  holds an object identifier (Clause 20.2.14), context tag 1 a property identifier and an optional
  context tag 2 an array index (both Unsigned, Clause 20.2.4).
 */
module ObjectProperties {
  import opened Wrappers
  import opened Bytes
  import opened TagHeaders

  datatype ObjectProperty = ObjectProperty(
    objectType: nat,
    objectInstance: nat,
    propertyId: nat,
    arrayIndex: Option<nat>)
  {
    predicate Valid() {
      && objectType < 0x400
      && objectInstance < 0x40_0000
      && propertyId < 0x1_0000_0000
      && (arrayIndex.Some? ==> arrayIndex.value < 0x1_0000_0000)
    }

    /** Clause 20.2.14: ten bits of type above twenty-two bits of instance. */
    function Word(): (w: nat)
      requires Valid()
      ensures w < Pow256(4)
    {
      assert Pow256(4) == 256 * Pow256(3) == 0x1_0000_0000;
      objectType * 0x40_0000 + objectInstance
    }
  }

  // ---- The grammar ------------------------------------------------------------------------------

  /** One context-tagged unsigned: any valid header for `length` octets, then the value on them. */
  datatype Unsigned = Unsigned(shape: Shape, value: nat) {
    predicate Valid(tagNumber: byte) {
      && shape.Valid() && shape.contextSpecific && shape.tagNumber == tagNumber
      && 1 <= shape.length <= 4
      && value < Pow256(shape.length)
    }

    function Encode(): seq<byte>
      requires shape.Valid() && value < Pow256(shape.length)
    {
      shape.Encode() + ToBe(value, shape.length)
    }
  }

  /** One way of writing an object/property reference. */
  datatype Writing = Writing(obj: Unsigned, prop: Unsigned, index: Option<Unsigned>) {
    predicate Valid() {
      && obj.Valid(0) && obj.shape.length == 4
      && prop.Valid(1)
      && (index.Some? ==> index.value.Valid(2))
    }

    function Head(): seq<byte>
      requires Valid()
    {
      obj.Encode() + prop.Encode()
    }

    function Encode(): seq<byte>
      requires Valid()
    {
      Head() + (if index.Some? then index.value.Encode() else [])
    }

    function Meaning(): (op: ObjectProperty)
      requires Valid()
      ensures op.Valid()
      ensures op.Word() == obj.value
    {
      assert Pow256(4) == 256 * Pow256(3) == 0x1_0000_0000;
      ValueFitsWord(prop);
      if index.Some? then
        ValueFitsWord(index.value);
        ObjectProperty(obj.value / 0x40_0000, obj.value % 0x40_0000, prop.value, Some(index.value.value))
      else ObjectProperty(obj.value / 0x40_0000, obj.value % 0x40_0000, prop.value, None)
    }
  }

  lemma ValueFitsWord(u: Unsigned)
    requires 1 <= u.shape.length <= 4 && u.value < Pow256(u.shape.length)
    ensures u.value < 0x1_0000_0000
  {
    assert Pow256(1) == 256 && Pow256(2) == 0x1_0000 && Pow256(3) == 0x100_0000;
    assert Pow256(4) == 256 * Pow256(3);
  }

  // ---- The reader -------------------------------------------------------------------------------

  /** Specification of one step of the source's decoder: a context tag of this number, length 1..4. */
  function ReadUnsigned(s: seq<byte>, offset: nat, tagNumber: byte): (r: Option<Unsigned>)
    ensures r.Some? ==> r.value.Valid(tagNumber) && offset + |r.value.Encode()| <= |s|
  {
    match ReadShape(s, offset)
    case None => None
    case Some(shape) =>
      var at := offset + |shape.Encode()|;
      if !shape.contextSpecific || shape.tagNumber != tagNumber || !(1 <= shape.length <= 4) || at + shape.length > |s|
      then None
      else Some(Unsigned(shape, BeAt(s, at, shape.length)))
  }

  /** The writing found at `offset`: the specification of `DecodeObjectAndProperty`. */
  function ReadWriting(s: seq<byte>, offset: nat): (r: Option<Writing>)
    ensures r.Some? ==> r.value.Valid()
  {
    match ReadUnsigned(s, offset, 0)
    case None => None
    case Some(obj) =>
      if obj.shape.length != 4 then None
      else
        var pos := offset + |obj.Encode()|;
        match ReadUnsigned(s, pos, 1)
        case None => None
        case Some(prop) =>
          Some(Writing(obj, prop, ReadUnsigned(s, pos + |prop.Encode()|, 2)))
  }

  /** A tagged unsigned is reported exactly when it is written there. */
  lemma ReadUnsignedExact(s: seq<byte>, offset: nat, tagNumber: byte, u: Unsigned)
    requires u.Valid(tagNumber)
    ensures ReadUnsigned(s, offset, tagNumber) == Some(u) <==> At(s, offset, u.Encode())
  {
    ReadShapeExact(s, offset, u.shape);
    AtConcat(s, offset, u.shape.Encode(), ToBe(u.value, u.shape.length));
    var at := offset + |u.shape.Encode()|;
    if at + u.shape.length <= |s| {
      BeAtIffWritten(s, at, u.shape.length, u.value);
    }
  }

  /**
    Main result, soundness and completeness: the decoder reports a reference exactly when the octets
    at its cursor are one of the ways of writing it, and it drops the array index only when no
    context tag 2 of length 1..4 follows.
   */
  lemma ReadWritingExact(s: seq<byte>, offset: nat, w: Writing)
    requires w.Valid()
    ensures ReadWriting(s, offset) == Some(w)
       <==> && At(s, offset, w.Encode())
            && (w.index == None ==> NoIndexAt(s, offset + |w.Head()|))
  {
    hide ReadUnsigned;
    hide NoIndexAt;
    hide Unsigned.Encode;
    var pos := offset + |w.obj.Encode()|;
    var end := pos + |w.prop.Encode()|;
    assert end == offset + |w.Head()|;
    ReadUnsignedExact(s, offset, 0, w.obj);
    ReadUnsignedExact(s, pos, 1, w.prop);
    AtConcat(s, offset, w.obj.Encode(), w.prop.Encode());
    if w.index.Some? {
      ReadUnsignedExact(s, end, 2, w.index.value);
      AtConcat(s, offset, w.Head(), w.index.value.Encode());
    } else {
      assert w.Encode() == w.Head();
      NoIndexMeans(s, end);
    }
  }

  /** No way of writing a context tag 2 with one to four octets is present. */
  ghost predicate NoIndexAt(s: seq<byte>, offset: nat) {
    forall u: Unsigned :: u.Valid(2) ==> !At(s, offset, u.Encode())
  }

  lemma NoIndexMeans(s: seq<byte>, offset: nat)
    ensures NoIndexAt(s, offset) <==> ReadUnsigned(s, offset, 2) == None
  {
    forall u: Unsigned | u.Valid(2)
      ensures ReadUnsigned(s, offset, 2) == Some(u) <==> At(s, offset, u.Encode())
    {
      ReadUnsignedExact(s, offset, 2, u);
    }
  }

  /** The flag is set iff the grammar of the mandatory part matches at the cursor. */
  lemma ReadWritingIffGrammar(s: seq<byte>, offset: nat)
    ensures ReadWriting(s, offset).Some?
       <==> exists w: Writing :: w.Valid() && At(s, offset, w.Head())
  {
    hide ReadUnsigned;
    hide ToBe;
    hide TagHeaders.Shape.Encode;
    if ReadWriting(s, offset).Some? {
      var w := ReadWriting(s, offset).value;
      ReadUnsignedExact(s, offset, 0, w.obj);
      ReadUnsignedExact(s, offset + |w.obj.Encode()|, 1, w.prop);
      AtConcat(s, offset, w.obj.Encode(), w.prop.Encode());
      assert At(s, offset, w.Head());
    }
    forall w: Writing | w.Valid() && At(s, offset, w.Head())
      ensures ReadWriting(s, offset).Some?
    {
      AtConcat(s, offset, w.obj.Encode(), w.prop.Encode());
      ReadUnsignedExact(s, offset, 0, w.obj);
      ReadUnsignedExact(s, offset + |w.obj.Encode()|, 1, w.prop);
    }
  }

  lemma ReadUnsignedExtends(s: seq<byte>, t: seq<byte>, offset: nat, tagNumber: byte)
    requires s <= t && ReadUnsigned(s, offset, tagNumber).Some?
    ensures ReadUnsigned(t, offset, tagNumber) == ReadUnsigned(s, offset, tagNumber)
  {
    var u := ReadUnsigned(s, offset, tagNumber).value;
    ReadUnsignedExact(s, offset, tagNumber, u);
    AtExtends(s, t, offset, u.Encode());
    ReadUnsignedExact(t, offset, tagNumber, u);
  }

  /** Every field reported on a prefix is reported with the same value on the longer buffer. */
  predicate Extends(a: Option<ObjectProperty>, b: Option<ObjectProperty>) {
    a.Some? ==>
      b.Some? && a.value == b.value.(arrayIndex := if a.value.arrayIndex.Some? then b.value.arrayIndex else None)
  }

  function Read(s: seq<byte>, offset: nat): (r: Option<ObjectProperty>)
    ensures r.Some? ==> r.value.Valid()
  {
    match ReadWriting(s, offset)
    case None => None
    case Some(w) => Some(w.Meaning())
  }

  lemma ReadSome(s: seq<byte>, offset: nat)
    ensures Read(s, offset).Some? == ReadWriting(s, offset).Some?
  {
  }

  lemma ReadExtends(s: seq<byte>, t: seq<byte>, offset: nat)
    requires s <= t
    ensures Extends(Read(s, offset), Read(t, offset))
  {
    hide ReadUnsigned;
    hide ToBe;
    hide TagHeaders.Shape.Encode;
    if ReadWriting(s, offset).Some? {
      var w := ReadWriting(s, offset).value;
      ReadUnsignedExtends(s, t, offset, 0);
      ReadUnsignedExtends(s, t, offset + |w.obj.Encode()|, 1);
      if w.index.Some? {
        ReadUnsignedExtends(s, t, offset + |w.Head()|, 2);
      }
    }
  }

  lemma ReadUnsignedSuffix(s: seq<byte>, offset: nat, k: nat, tagNumber: byte)
    requires offset <= |s|
    ensures ReadUnsigned(s[offset..], k, tagNumber) == ReadUnsigned(s, offset + k, tagNumber)
  {
    hide ReadUnsigned;
    hide ToBe;
    hide TagHeaders.Shape.Encode;
    forall u: Unsigned | u.Valid(tagNumber)
      ensures ReadUnsigned(s[offset..], k, tagNumber) == Some(u) <==> ReadUnsigned(s, offset + k, tagNumber) == Some(u)
    {
      ReadUnsignedExact(s[offset..], k, tagNumber, u);
      ReadUnsignedExact(s, offset + k, tagNumber, u);
    }
    var a, b := ReadUnsigned(s[offset..], k, tagNumber), ReadUnsigned(s, offset + k, tagNumber);
    assert a.Some? ==> a.value.Valid(tagNumber);
    assert b.Some? ==> b.value.Valid(tagNumber);
  }

  /** The reader looks at nothing before its cursor. */
  lemma ReadSuffix(s: seq<byte>, offset: nat)
    requires offset <= |s|
    ensures Read(s, offset) == Read(s[offset..], 0)
  {
    hide ReadUnsigned;
    hide ToBe;
    hide TagHeaders.Shape.Encode;
    ReadUnsignedSuffix(s, offset, 0, 0);
    if ReadUnsigned(s, offset, 0).Some? {
      var k := |ReadUnsigned(s, offset, 0).value.Encode()|;
      ReadUnsignedSuffix(s, offset, k, 1);
      if ReadUnsigned(s, offset + k, 1).Some? {
        ReadUnsignedSuffix(s, offset, k + |ReadUnsigned(s, offset + k, 1).value.Encode()|, 2);
      }
    }
  }

  // ---- The encoder ------------------------------------------------------------------------------

  /** Clause 20.2.4: an unsigned takes as few octets as hold it, at least one. */
  function Size(v: nat): (n: nat)
    requires v < 0x1_0000_0000
    ensures 1 <= n <= 4 && v < Pow256(n) && (n > 1 ==> v >= Pow256(n - 1))
  {
    assert Pow256(1) == 256 && Pow256(2) == 0x1_0000 && Pow256(3) == 0x100_0000;
    assert Pow256(4) == 256 * Pow256(3);
    if v < 0x100 then 1 else if v < 0x1_0000 then 2 else if v < 0x100_0000 then 3 else 4
  }

  function Shortest(tagNumber: byte, v: nat): (u: Unsigned)
    requires v < 0x1_0000_0000
    ensures u.Valid(tagNumber) && u.value == v
  {
    assert Pow256(4) == 256 * Pow256(3) && Pow256(3) == 0x100_0000;
    Unsigned(Minimal(tagNumber, true, Size(v)), v)
  }

  /** The octets the standard prescribes for a reference. */
  function Prescribed(op: ObjectProperty): (w: Writing)
    requires op.Valid()
    ensures w.Valid() && w.Meaning() == op
  {
    assert Pow256(4) == 256 * Pow256(3) && Pow256(3) == 0x100_0000;
    Writing(Unsigned(Minimal(0, true, 4), op.Word()),
            Shortest(1, op.propertyId),
            if op.arrayIndex.Some? then Some(Shortest(2, op.arrayIndex.value)) else None)
  }

  /** The first octet of opening tag 3, under which a property value is carried. */
  const OPENING_TAG_3: byte := 0x3E

  /** Round trip: whatever value follows under opening tag 3, the reference is recovered. */
  lemma PrescribedRoundTrip(s: seq<byte>, offset: nat, op: ObjectProperty, value: seq<byte>)
    requires op.Valid() && offset <= |s|
    requires s[offset..] == Prescribed(op).Encode() + value
    requires value == [] || value[0] == OPENING_TAG_3
    ensures Read(s, offset) == Some(op)
  {
    var w := Prescribed(op);
    var head := w.Encode();
    assert s[offset..offset + |head|] == s[offset..][..|head|] == head;
    if w.index == None {
      var end := offset + |head|;
      assert s[end..] == s[offset..][|head|..] == value;
      assert head == w.Head();
      assert ReadShape(s, end).Some? ==> ReadShape(s, end).value.tagNumber == 3 by {
        if value != [] { assert s[end] == value[0]; }
      }
      NoIndexMeans(s, end);
    }
    ReadWritingExact(s, offset, w);
  }
}
