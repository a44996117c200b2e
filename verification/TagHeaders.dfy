/**
  Generic tag headers, Clause 20.2.1 of ANSI/ASHRAE 135. A `Shape` is one way of writing a
  header; the standard's grammar is the set of octet strings `Encode(shape)` for valid shapes,
  and the decoder is proved to accept exactly these.
 */
module TagHeaders {
  import opened Wrappers
  import opened Bytes

  /** What the decoder reports (common/CASExampleHelper.cpp, struct TagHeader). */
  datatype TagHeader = TagHeader(
    tagNumber: byte,
    contextSpecific: bool,
    isOpeningTag: bool,
    isClosingTag: bool,
    length: nat,
    headerLength: nat)

  /** Where the length/value/type information is carried. */
  datatype LengthForm = InFirstByte | OneByte | TwoBytes | FourBytes | Opening | Closing

  datatype Shape = Shape(tagNumber: byte, contextSpecific: bool, extendedNumber: bool, form: LengthForm, length: nat) {
    /** The combinations an encoder may use; non-minimal ones are included. */
    predicate Valid() {
      && (extendedNumber || tagNumber < 15)
      && match form
         case InFirstByte => length <= 4
         case OneByte => length < 254
         case TwoBytes => length < Pow256(2)
         case FourBytes => length < Pow256(4)
         case Opening => contextSpecific && length == 0
         case Closing => contextSpecific && length == 0
    }

    function Lvt(): (lvt: nat)
      requires Valid()
      ensures lvt < 8
    {
      match form
      case InFirstByte => length
      case Opening => 6
      case Closing => 7
      case _ => 5
    }

    function FirstByte(): byte
      requires Valid()
    {
      (if extendedNumber then 15 else tagNumber) * 16 + (if contextSpecific then 8 else 0) + Lvt()
    }

    function NumberOctets(): seq<byte> {
      if extendedNumber then [tagNumber] else []
    }

    function LengthOctets(): seq<byte>
      requires Valid()
    {
      match form
      case OneByte => [length]
      case TwoBytes => [254] + ToBe(length, 2)
      case FourBytes => [255] + ToBe(length, 4)
      case _ => []
    }

    function Encode(): (e: seq<byte>)
      requires Valid()
      ensures |e| == 1 + (if extendedNumber then 1 else 0)
                     + match form { case OneByte => 1 case TwoBytes => 3 case FourBytes => 5 case _ => 0 }
    {
      [FirstByte()] + NumberOctets() + LengthOctets()
    }

    /** The header a reader must report for this shape. */
    function Header(): TagHeader
      requires Valid()
    {
      TagHeader(tagNumber, contextSpecific, form == Opening, form == Closing, length, |Encode()|)
    }
  }

  /** The first octet and the tag number: a shape still without length, and where its length octets start. */
  function ReadNumber(s: seq<byte>, offset: nat): (r: Option<(Shape, nat)>)
    ensures r.Some? ==> r.value.0.extendedNumber || r.value.0.tagNumber < 15
    ensures r.Some? ==> r.value.1 == offset + (if r.value.0.extendedNumber then 2 else 1) <= |s|
  {
    if offset >= |s| then None
    else
      var b0 := s[offset];
      var extended := b0 / 16 == 15;
      if extended && offset + 1 >= |s| then None
      else
        var number := if extended then s[offset + 1] else b0 / 16;
        Some((Shape(number, b0 / 8 % 2 == 1, extended, InFirstByte, 0), offset + (if extended then 2 else 1)))
  }

  /** The shape written at `offset`, if any: the specification of `DecodeTagHeader`. */
  function ReadShape(s: seq<byte>, offset: nat): (r: Option<Shape>)
    ensures r.Some? ==> r.value.Valid()
  {
    match ReadNumber(s, offset)
    case None => None
    case Some((start, pos)) => ReadLength(s, pos, start, s[offset] % 8)
  }

  function ReadLength(s: seq<byte>, pos: nat, shape: Shape, lvt: nat): (r: Option<Shape>)
    requires pos <= |s| && lvt < 8 && (shape.extendedNumber || shape.tagNumber < 15)
    ensures r.Some? ==> r.value.Valid()
  {
    if lvt == 6 || lvt == 7 then
      if shape.contextSpecific then Some(shape.(form := if lvt == 6 then Opening else Closing, length := 0)) else None
    else if lvt < 5 then Some(shape.(form := InFirstByte, length := lvt))
    else if pos >= |s| then None
    else if s[pos] < 254 then Some(shape.(form := OneByte, length := s[pos]))
    else if s[pos] == 254 then
      if pos + 3 > |s| then None else Some(shape.(form := TwoBytes, length := BeAt(s, pos + 1, 2)))
    else
      if pos + 5 > |s| then None else Some(shape.(form := FourBytes, length := BeAt(s, pos + 1, 4)))
  }

  /** The three pieces of an encoded header, each written where the previous one ends. */
  lemma EncodeAt(s: seq<byte>, offset: nat, shape: Shape)
    requires shape.Valid()
    ensures At(s, offset, shape.Encode())
       <==> && At(s, offset, [shape.FirstByte()])
            && At(s, offset + 1, shape.NumberOctets())
            && At(s, offset + 1 + |shape.NumberOctets()|, shape.LengthOctets())
  {
    AtConcat(s, offset, [shape.FirstByte()] + shape.NumberOctets(), shape.LengthOctets());
    AtConcat(s, offset, [shape.FirstByte()], shape.NumberOctets());
  }

  lemma SingleAt(s: seq<byte>, at: nat, b: byte)
    ensures At(s, at, [b]) <==> at < |s| && s[at] == b
  {
    if at < |s| {
      assert s[at..at + 1] == [s[at]];
    }
  }

  lemma LengthAt(s: seq<byte>, pos: nat, lead: byte, n: nat, v: nat)
    requires v < Pow256(n)
    ensures At(s, pos, [lead] + ToBe(v, n))
       <==> pos + 1 + n <= |s| && s[pos] == lead && BeAt(s, pos + 1, n) == v
  {
    AtConcat(s, pos, [lead], ToBe(v, n));
    SingleAt(s, pos, lead);
    if pos + 1 + n <= |s| {
      BeAtIffWritten(s, pos + 1, n, v);
    }
  }

  /** The length part of the reader, against the length octets of a shape. */
  lemma ReadLengthExact(s: seq<byte>, pos: nat, start: Shape, lvt: nat, shape: Shape)
    requires pos <= |s| && lvt < 8 && (start.extendedNumber || start.tagNumber < 15)
    requires shape.Valid()
    ensures ReadLength(s, pos, start, lvt) == Some(shape)
       <==> && shape == start.(form := shape.form, length := shape.length)
            && lvt == shape.Lvt()
            && At(s, pos, shape.LengthOctets())
  {
    match shape.form
    case OneByte => SingleAt(s, pos, shape.length);
    case TwoBytes => LengthAt(s, pos, 254, 2, shape.length);
    case FourBytes => LengthAt(s, pos, 255, 4, shape.length);
    case _ =>
  }

  /** The first octet and the extension octet carry exactly class, tag number and the three length bits. */
  lemma ReadNumberExact(s: seq<byte>, offset: nat, shape: Shape)
    requires shape.Valid()
    ensures ReadNumber(s, offset).Some?
            && ReadNumber(s, offset).value.0 == shape.(form := InFirstByte, length := 0)
            && s[offset] % 8 == shape.Lvt()
       <==> At(s, offset, [shape.FirstByte()]) && At(s, offset + 1, shape.NumberOctets())
  {
    SingleAt(s, offset, shape.FirstByte());
    if offset < |s| {
      var b0 := s[offset];
      assert b0 == b0 / 16 * 16 + b0 / 8 % 2 * 8 + b0 % 8;
      if shape.extendedNumber {
        SingleAt(s, offset + 1, shape.tagNumber);
      }
    }
  }

  /**
    Main result: at any offset of any buffer the reader reports a shape exactly when that shape's
    octets are written there. It is therefore sound and complete for Clause 20.2.1, reads nothing
    but the header octets, and no two shapes can be written at one place.
   */
  lemma ReadShapeExact(s: seq<byte>, offset: nat, shape: Shape)
    requires shape.Valid()
    ensures ReadShape(s, offset) == Some(shape) <==> At(s, offset, shape.Encode())
  {
    EncodeAt(s, offset, shape);
    ReadNumberExact(s, offset, shape);
    if ReadNumber(s, offset).Some? {
      var (start, pos) := ReadNumber(s, offset).value;
      ReadLengthExact(s, pos, start, s[offset] % 8, shape);
    }
    hide ReadNumber;
    hide ReadLength;
    hide At;
    hide Shape.Encode;
    hide Shape.FirstByte;
    hide Shape.LengthOctets;
  }

  /** The octets Clause 20.2.1 prescribes for a primitive tag: the shortest form. */
  function Minimal(tagNumber: byte, contextSpecific: bool, length: nat): (shape: Shape)
    requires length < Pow256(4)
    ensures shape.Valid()
  {
    assert Pow256(2) == 0x1_0000;
    var form := if length <= 4 then InFirstByte
                else if length < 254 then OneByte
                else if length < 0x1_0000 then TwoBytes
                else FourBytes;
    Shape(tagNumber, contextSpecific, tagNumber >= 15, form, length)
  }

  /** Round trip: the prescribed header is read back at any offset of any buffer. */
  lemma MinimalRoundTrip(before: seq<byte>, tagNumber: byte, contextSpecific: bool, length: nat, after: seq<byte>)
    requires length < Pow256(4)
    ensures var shape := Minimal(tagNumber, contextSpecific, length);
            var s := before + shape.Encode() + after;
            && ReadShape(s, |before|) == Some(shape)
            && shape.Header() == TagHeader(tagNumber, contextSpecific, false, false, length, |shape.Encode()|)
            && forall other: Shape :: other.Valid() && other.tagNumber == tagNumber && other.length == length
                 && other.contextSpecific == contextSpecific && !other.form.Opening? && !other.form.Closing?
                 ==> |shape.Encode()| <= |other.Encode()|
  {
    var shape := Minimal(tagNumber, contextSpecific, length);
    var s := before + shape.Encode() + after;
    assert s[|before|..|before| + |shape.Encode()|] == shape.Encode();
    ReadShapeExact(s, |before|, shape);
  }

  /** A header read from a prefix is read from every extension. */
  lemma ReadShapeExtends(s: seq<byte>, t: seq<byte>, offset: nat)
    requires s <= t && ReadShape(s, offset).Some?
    ensures ReadShape(t, offset) == ReadShape(s, offset)
    ensures At(s, offset, ReadShape(s, offset).value.Encode())
  {
    var shape := ReadShape(s, offset).value;
    ReadShapeExact(s, offset, shape);
    AtExtends(s, t, offset, shape.Encode());
    ReadShapeExact(t, offset, shape);
  }

  /** A longer form of the same header is accepted too, so the decoder is not injective. */
  lemma NonMinimalAccepted(tagNumber: byte, contextSpecific: bool, length: nat)
    requires tagNumber < 15 && length <= 4
    ensures var long := Shape(tagNumber, contextSpecific, true, FourBytes, length);
            && Pow256(4) > length
            && long.Encode() != Minimal(tagNumber, contextSpecific, length).Encode()
            && ReadShape(long.Encode(), 0) == Some(long)
            && long.Header() == Minimal(tagNumber, contextSpecific, length).Header().(headerLength := 7)
  {
    var long := Shape(tagNumber, contextSpecific, true, FourBytes, length);
    assert Pow256(4) == 256 * Pow256(3) && Pow256(3) >= 1;
    ReadShapeExact(long.Encode(), 0, long);
  }

  /**
    The bracket tags of Clause 20.2.1.3.2: opening and closing are told apart by the low four bits of
    the first octet, and neither has a length or contents.
   */
  lemma BracketTags(s: seq<byte>, offset: nat)
    requires ReadShape(s, offset).Some?
    ensures var h := ReadShape(s, offset).value.Header();
            && (h.isOpeningTag <==> s[offset] % 16 == 14)
            && (h.isClosingTag <==> s[offset] % 16 == 15)
            && (h.contextSpecific <==> s[offset] / 8 % 2 == 1)
            && (h.isOpeningTag || h.isClosingTag ==>
                  h.length == 0 && h.headerLength == if s[offset] >= 0xF0 then 2 else 1)
  {
    hide BeAt;
  }

  /**
    Clause 20.2.3 puts the value of an application-tagged Boolean in the length bits and gives it no
    content octets; the decoder reports that value as a length.
   */
  lemma BooleanValueReadAsLength(s: seq<byte>, offset: nat, value: bool)
    requires offset < |s| && s[offset] == 0x10 + (if value then 1 else 0)
    ensures ReadShape(s, offset) == Some(Shape(1, false, false, InFirstByte, if value then 1 else 0))
  {
  }

  /**
    The decoder itself. `uint32` makes the verifier prove that no offset wraps for a frame of at
    most 65535 octets, the length its callers pass.
   */
  method DecodeTagHeader(frame: seq<byte>, offset: uint32) returns (r: Option<TagHeader>)
    requires |frame| <= 0xFFFF
    ensures ReadShape(frame, offset as int).None? ==> r == None
    ensures ReadShape(frame, offset as int).Some? ==> r == Some(ReadShape(frame, offset as int).value.Header())
  {
    hide ReadNumber;
    hide ReadLength;
    var found, tagNumber, contextSpecific, lvt, pos := DecodeTagNumber(frame, offset);
    if !found {
      return None;
    }
    ghost var start := ReadNumber(frame, offset as int).value.0;
    var form, length, after := DecodeTagLength(frame, pos, contextSpecific, lvt, start);
    if form == None {
      return None;
    }
    return Some(TagHeader(tagNumber, contextSpecific, form == Some(Opening), form == Some(Closing),
                          length as int, (after - offset) as int));
  }

  /** The first half of the decoder: class and length bits, and the tag number with its extension octet. */
  method DecodeTagNumber(frame: seq<byte>, offset: uint32)
    returns (found: bool, tagNumber: byte, contextSpecific: bool, lvt: byte, pos: uint32)
    requires |frame| <= 0xFFFF
    ensures found == ReadNumber(frame, offset as int).Some?
    ensures found ==>
              var (start, end) := ReadNumber(frame, offset as int).value;
              && tagNumber == start.tagNumber && contextSpecific == start.contextSpecific
              && lvt == frame[offset] % 8 && pos as int == end
  {
    var frameLength := |frame| as uint32;
    found, tagNumber, contextSpecific, lvt, pos := false, 0, false, 0, offset;
    if offset >= frameLength {
      return;
    }
    var b0 := frame[offset];
    tagNumber := b0 / 16;
    contextSpecific := b0 / 8 % 2 == 1;
    lvt := b0 % 8;
    pos := offset + 1;
    if tagNumber == 0x0F {
      if pos >= frameLength {
        return;
      }
      tagNumber := frame[pos];
      pos := pos + 1;
    }
    found := true;
  }

  /** The second half of the decoder: the length/value/type bits and the extended length. */
  method DecodeTagLength(frame: seq<byte>, at: uint32, contextSpecific: bool, lvt: byte, ghost start: Shape)
    returns (form: Option<LengthForm>, length: uint32, pos: uint32)
    requires |frame| <= 0xFFFF && at as int <= |frame| && lvt < 8
    requires start.contextSpecific == contextSpecific && (start.extendedNumber || start.tagNumber < 15)
    ensures ReadLength(frame, at as int, start, lvt).None? ==> form == None
    ensures ReadLength(frame, at as int, start, lvt).Some? ==>
              var shape := ReadLength(frame, at as int, start, lvt).value;
              && shape == start.(form := shape.form, length := shape.length)
              && form == Some(shape.form) && length as int == shape.length
              && pos as int == at as int + |shape.LengthOctets()|
  {
    var frameLength := |frame| as uint32;
    pos := at;
    length := 0;
    if contextSpecific && lvt == 6 {
      return Some(Opening), 0, pos;
    } else if contextSpecific && lvt == 7 {
      return Some(Closing), 0, pos;
    } else if lvt <= 4 {
      return Some(InFirstByte), lvt as uint32, pos;
    } else if lvt == 5 {
      if pos >= frameLength {
        return None, 0, pos;
      }
      var lenByte := frame[pos];
      pos := pos + 1;
      if lenByte < 254 {
        return Some(OneByte), lenByte as uint32, pos;
      } else if lenByte == 254 {
        if pos + 2 > frameLength {
          return None, 0, pos;
        }
        BeAtUnrolled(frame, pos as int);
        length := frame[pos] as uint32 * 0x100 + frame[pos + 1] as uint32;
        return Some(TwoBytes), length, pos + 2;
      } else {
        if pos + 4 > frameLength {
          return None, 0, pos;
        }
        BeAtUnrolled(frame, pos as int);
        length := frame[pos] as uint32 * 0x100_0000 + frame[pos + 1] as uint32 * 0x1_0000
                  + frame[pos + 2] as uint32 * 0x100 + frame[pos + 3] as uint32;
        return Some(FourBytes), length, pos + 4;
      }
    }
    return None, 0, pos;
  }
}
