/**
  The one-line summary: the text a frame ought to be shown as, and the method that writes it into
  bounded buffers. The written text is proved to be a prefix of that ideal text, cut only where the
  buffer ends or, inside the DADR digits, between two octets.
 */
module Summary {
  import opened Wrappers
  import opened Bytes
  import opened TagHeaders
  import opened ObjectProperties
  import opened FrameDecoder
  import opened Texts
  import opened CStrings
  import opened NameLookup
  import opened NameTables

  // ---- The ideal text ---------------------------------------------------------------------------

  /** "label", "label: name" or "label: kind=code". */
  function Labelled(caption: string, kind: string, code: Option<byte>, name: Option<string>): string {
    if code.None? then caption
    else if name.Some? then caption + ": " + name.value
    else caption + ": " + kind + "=" + Decimal(code.value)
  }

  /** The name a table has for an optional code. */
  function NameOf(names: seq<string>, code: Option<byte>): Option<string> {
    if code.Some? then NameAt(names, code.value) else None
  }

  function ApduText(names: Names, a: Apdu): string {
    match a.pduType
    case 0 => Labelled("ConfirmedRequest", "service", a.serviceChoice, NameOf(names.confirmed, a.serviceChoice))
    case 1 => Labelled("Unconfirmed", "service", a.serviceChoice, NameOf(names.unconfirmed, a.serviceChoice))
    case 2 => Labelled("SimpleACK", "service", a.serviceChoice, NameOf(names.confirmed, a.serviceChoice))
    case 3 => Labelled("ComplexACK", "service", a.serviceChoice, NameOf(names.confirmed, a.serviceChoice))
    case 4 => "SegmentACK"
    case 5 => Labelled("Error", "service", a.serviceChoice, NameOf(names.confirmed, a.serviceChoice))
    case 6 => Labelled("Reject", "reason", a.reason, NameOf(names.reject, a.reason))
    case 7 => Labelled("Abort", "reason", a.reason, NameOf(names.abort, a.reason))
    case _ => "?"
  }

  /** The named form is used exactly when both ids are in their tables. */
  function ReferenceText(typeName: Option<string>, propertyName: Option<string>, op: ObjectProperty): string {
    (if typeName.Some? && propertyName.Some? then
       " " + typeName.value + " " + Decimal(op.objectInstance) + "." + propertyName.value
     else
       " object-type=" + Decimal(op.objectType) + " " + Decimal(op.objectInstance)
       + ".property=" + Decimal(op.propertyId))
    + (if op.arrayIndex.Some? then "[" + Decimal(op.arrayIndex.value) + "]" else "")
  }

  function BodyText(names: Names, a: Apdu): string {
    ApduText(names, a)
    + (if a.reference.Some? then
         ReferenceText(Scan(names.objectTypes, a.reference.value.objectType),
                       Scan(names.properties, a.reference.value.propertyId), a.reference.value)
       else "")
  }

  /** The route suffix up to the station address digits. */
  function RouteText(n: Npdu): string {
    if !n.HasDest() then ""
    else " DNET=" + Decimal(n.dnet) + (if n.dadr != [] then " DADR=" else "")
  }

  function NetworkText(names: Names, n: Npdu): string {
    Labelled("Network-Layer-Message", "type", Some(n.MessageType()), NetworkMessageName(names, n.MessageType()))
  }

  /** Everything but the DADR digits. */
  function HeadText(names: Names, f: Frame): string {
    match f
    case NotBacnetIp => "?"
    case Bvlc(bvlcFunction, None) => "BVLC function=0x" + HexOctet(bvlcFunction)
    case Bvlc(_, Some(n)) =>
      if n.IsNetworkMessage() then NetworkText(names, n) + RouteText(n)
      else if !n.payload.Application? then "?"
      else BodyText(names, n.payload.apdu) + RouteText(n)
  }

  /** The octets whose digits end the text. */
  function RouteOctets(f: Frame): seq<byte> {
    if f.Bvlc? && f.npdu.Some? && f.npdu.value.HasDest()
       && (f.npdu.value.IsNetworkMessage() || f.npdu.value.payload.Application?)
    then f.npdu.value.dadr
    else []
  }

  function IdealText(names: Names, f: Frame): string {
    HeadText(names, f) + Hex(RouteOctets(f))
  }

  // ---- What a buffer keeps of it ------------------------------------------------------------------

  /** Whole octets only: two characters and the NUL must still fit. */
  function HexThatFits(used: nat, capacity: nat, octets: seq<byte>): seq<byte>
    requires used < capacity
  {
    octets[..Min(|octets|, (capacity - 1 - used) / 2)]
  }

  function BoundedText(names: Names, f: Frame, capacity: nat): string
    requires capacity > 0
  {
    var head := Clip(HeadText(names, f), capacity);
    head + Hex(HexThatFits(|head|, capacity, RouteOctets(f)))
  }

  /** Main result: what fits is a prefix of the ideal text, cut nowhere but at the end of the buffer. */
  lemma BoundedIsPrefix(names: Names, f: Frame, capacity: nat)
    requires capacity > 0
    ensures BoundedText(names, f, capacity) <= IdealText(names, f)
    ensures |BoundedText(names, f, capacity)| < capacity
    ensures |IdealText(names, f)| < capacity ==> BoundedText(names, f, capacity) == IdealText(names, f)
    ensures BoundedText(names, f, capacity) != IdealText(names, f) ==>
              |BoundedText(names, f, capacity)| >= capacity - 2
  {
    hide HeadText;
    hide RouteOctets;
    var octets := RouteOctets(f);
    var head := Clip(HeadText(names, f), capacity);
    HexOfPrefix(octets, Min(|octets|, (capacity - 1 - |head|) / 2));
    assert octets[..|octets|] == octets;
  }

  // ---- Size of the text ---------------------------------------------------------------------------

  /**
    Bounds every decoded frame meets; a reference comes with service 12 or 15 of a request, or with
    service 12 of an acknowledgement.
   */
  predicate WellRanged(f: Frame) {
    f.Bvlc? && f.npdu.Some? ==>
      && f.npdu.value.dnet < 0x1_0000
      && (f.npdu.value.payload.Application? ==> WellRangedApdu(f.npdu.value.payload.apdu))
  }

  predicate WellRangedApdu(a: Apdu) {
    a.reference.Some? ==>
      && a.reference.value.Valid()
      && ((a.pduType == 0 && a.serviceChoice == Some(15)) || (a.pduType in {0, 3} && a.serviceChoice == Some(12)))
  }

  lemma DecodedWellRanged(s: seq<byte>)
    ensures WellRanged(Decode(s))
  {
    hide Read;
    assert Pow256(2) == 0x1_0000;
  }

  lemma LabelledSize(caption: string, kind: string, code: Option<byte>, name: Option<string>, n: nat)
    requires name.Some? ==> |name.value| <= n
    requires |kind| + 4 <= n
    ensures |Labelled(caption, kind, code, name)| <= |caption| + 2 + n
  {
    if code.Some? {
      assert Pow10(3) == 10 * Pow10(2) == 1000;
      DecimalLength(code.value, 3);
    }
  }

  lemma ApduTextSize(names: Names, a: Apdu)
    requires names.Valid()
    ensures |ApduText(names, a)| <= 50
    ensures a.pduType in {0, 3} && a.serviceChoice in {Some(12), Some(15)} ==> |ApduText(names, a)| <= 31
  {
    hide Labelled;
    hide Plain;
    LabelledSize("ConfirmedRequest", "service", a.serviceChoice, NameOf(names.confirmed, a.serviceChoice), 32);
    LabelledSize("Unconfirmed", "service", a.serviceChoice, NameOf(names.unconfirmed, a.serviceChoice), 34);
    LabelledSize("SimpleACK", "service", a.serviceChoice, NameOf(names.confirmed, a.serviceChoice), 32);
    LabelledSize("ComplexACK", "service", a.serviceChoice, NameOf(names.confirmed, a.serviceChoice), 32);
    LabelledSize("Error", "service", a.serviceChoice, NameOf(names.confirmed, a.serviceChoice), 32);
    LabelledSize("Reject", "reason", a.reason, NameOf(names.reject, a.reason), 27);
    LabelledSize("Abort", "reason", a.reason, NameOf(names.abort, a.reason), 33);
    if a.serviceChoice in {Some(12), Some(15)} {
      LabelledSize("ConfirmedRequest", "service", a.serviceChoice, NameOf(names.confirmed, a.serviceChoice), 13);
      LabelledSize("ComplexACK", "service", a.serviceChoice, NameOf(names.confirmed, a.serviceChoice), 13);
    }
  }

  lemma ReferenceTextSize(typeName: Option<string>, propertyName: Option<string>, op: ObjectProperty)
    requires op.Valid()
    requires typeName.Some? ==> |typeName.value| <= 22
    requires propertyName.Some? ==> |propertyName.value| <= 35
    ensures |ReferenceText(typeName, propertyName, op)| <= 79
  {
    assert Pow10(4) == 10000 && Pow10(6) == 100 * Pow10(4) && Pow10(8) == 100 * Pow10(6) && Pow10(10) == 100 * Pow10(8);
    assert Pow10(7) == 10 * Pow10(6);
    DecimalLength(op.objectType, 4);
    DecimalLength(op.objectInstance, 7);
    DecimalLength(op.propertyId, 10);
    if op.arrayIndex.Some? {
      DecimalLength(op.arrayIndex.value, 10);
    }
  }

  lemma ScanSize(table: seq<IdName>, id: nat, n: nat)
    requires BoundedRows(table, n)
    ensures Scan(table, id).Some? ==> |Scan(table, id).value| <= n && Plain(Scan(table, id).value)
  {
    hide Plain;
    if table != [] && table[0].id != id {
      ScanSize(table[1..], id, n);
    }
  }

  /** The numeric form is recognised by its first twelve characters. */
  const NUMERIC_FORM := " object-type="

  lemma NamedTextDiffers(typeName: string, rest: string)
    requires Plain(typeName)
    ensures !(NUMERIC_FORM <= " " + typeName + " " + rest)
  {
    var text := " " + typeName + " " + rest;
    NumericFormWord();
    var k := if |typeName| < 12 then 1 + |typeName| else 12;
    assert text[k] != NUMERIC_FORM[k] by {
      assert |typeName| < 12 ==> text[k] == ' ';
      assert |typeName| >= 12 ==> text[k] == typeName[11] && typeName[11] in typeName;
    }
  }

  lemma NumericFormWord()
    ensures |NUMERIC_FORM| == 13 && NUMERIC_FORM[12] == '='
    ensures forall i :: 1 <= i < 13 ==> NUMERIC_FORM[i] != ' '
  {
  }

  /** Lookup seen through the printer: an object is shown by name if and only if both tables have a row for it. */
  lemma NamedFormIff(names: Names, op: ObjectProperty)
    requires names.Valid()
    ensures NUMERIC_FORM
            <= ReferenceText(Scan(names.objectTypes, op.objectType), Scan(names.properties, op.propertyId), op)
       <==> || (forall k :: 0 <= k < |names.objectTypes| ==> names.objectTypes[k].id != op.objectType)
            || (forall k :: 0 <= k < |names.properties| ==> names.properties[k].id != op.propertyId)
  {
    ScanMisses(names.objectTypes, op.objectType);
    ScanMisses(names.properties, op.propertyId);
    ScanSize(names.objectTypes, op.objectType, 22);
    var typeName, propertyName := Scan(names.objectTypes, op.objectType), Scan(names.properties, op.propertyId);
    hide Scan;
    hide Plain;
    hide Decimal;
    var text := ReferenceText(typeName, propertyName, op);
    if typeName.Some? && propertyName.Some? {
      var index := if op.arrayIndex.Some? then "[" + Decimal(op.arrayIndex.value) + "]" else "";
      var rest := Decimal(op.objectInstance) + "." + propertyName.value + index;
      assert text == " " + typeName.value + " " + rest;
      NamedTextDiffers(typeName.value, rest);
    } else {
      assert text[..13] == NUMERIC_FORM;
    }
  }

  /** The 128-character body buffer is never too small: 110 characters are the most it is asked to hold. */
  lemma BodyNeverTruncated(names: Names, a: Apdu)
    requires names.Valid() && WellRangedApdu(a)
    ensures |BodyText(names, a)| <= 110
  {
    hide ApduText;
    hide ReferenceText;
    hide Plain;
    ApduTextSize(names, a);
    if a.reference.Some? {
      var op := a.reference.value;
      ScanSize(names.objectTypes, op.objectType, 22);
      ScanSize(names.properties, op.propertyId, 35);
      ReferenceTextSize(Scan(names.objectTypes, op.objectType), Scan(names.properties, op.propertyId), op);
    }
  }

  const LOG_BUFFER := 192

  lemma RouteTextSize(n: Npdu)
    requires n.dnet < 0x1_0000
    ensures |RouteText(n)| <= 17
  {
    assert Pow10(5) == 100000;
    DecimalLength(n.dnet, 5);
  }

  lemma HeadTextSize(names: Names, f: Frame)
    requires names.Valid() && WellRanged(f)
    ensures |HeadText(names, f)| <= 127
  {
    hide RouteText;
    hide BodyText;
    hide Plain;
    hide Labelled;
    if f.Bvlc? && f.npdu.Some? {
      var n := f.npdu.value;
      RouteTextSize(n);
      LabelledSize("Network-Layer-Message", "type", Some(n.MessageType()),
                   NetworkMessageName(names, n.MessageType()), 28);
      if n.payload.Application? {
        BodyNeverTruncated(names, n.payload.apdu);
      }
    }
  }

  /** A buffer with room for the whole head keeps it, and then as many whole octets as fit. */
  lemma HeadKept(names: Names, f: Frame, capacity: nat)
    requires |HeadText(names, f)| < capacity
    ensures BoundedText(names, f, capacity)
            == HeadText(names, f) + Hex(HexThatFits(|HeadText(names, f)|, capacity, RouteOctets(f)))
  {
  }

  /**
    Main result for the log line: everything but the DADR digits is always complete, and those are
    complete exactly when the whole text fits; at least 32 octets of DADR always do.
   */
  lemma LogLineComplete(names: Names, s: seq<byte>)
    requires names.Valid()
    ensures var f := Decode(s);
            var octets := RouteOctets(f);
            var shown := BoundedText(names, f, LOG_BUFFER);
            && (exists k :: && 0 <= k <= |octets| && (k == |octets| || k >= 32)
                            && shown == HeadText(names, f) + Hex(octets[..k]))
            && |shown| < 192
            && (shown == IdealText(names, f) <==> |IdealText(names, f)| < 192)
  {
    var f := Decode(s);
    DecodedWellRanged(s);
    HeadTextSize(names, f);
    BoundedIsPrefix(names, f, LOG_BUFFER);
    HeadKept(names, f, LOG_BUFFER);
    hide Decode;
    hide HeadText;
    hide RouteOctets;
    hide BoundedText;
    hide Hex;
    var k := Min(|RouteOctets(f)|, (LOG_BUFFER - 1 - |HeadText(names, f)|) / 2);
    assert HexThatFits(|HeadText(names, f)|, LOG_BUFFER, RouteOctets(f)) == RouteOctets(f)[..k];
  }
}
