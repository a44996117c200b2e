/**
  The XML frame dump: the element tree a frame stands for, and that its text is a document an
  independent reader takes back to that tree.
 */
module XmlDump {
  import opened Wrappers
  import opened Bytes
  import opened ObjectProperties
  import opened FrameDecoder
  import opened Texts
  import opened NameLookup
  import opened NameTables
  import opened Summary
  import opened Xml

  // ---- The tree of a frame ------------------------------------------------------------------------

  function Named(attribute: string, name: Option<string>): seq<(string, string)> {
    if name.Some? then [(attribute, name.value)] else []
  }

  function Coded(attribute: string, nameAttribute: string, code: Option<byte>, name: Option<string>)
    : seq<(string, string)>
  {
    if code.None? then [] else [(attribute, Decimal(code.value))] + Named(nameAttribute, name)
  }

  /** `0x%02X` */
  function OctetText(b: byte): string {
    "0x" + HexOctet(b)
  }

  function AddressElement(name: string, net: nat, mac: seq<byte>): Element {
    Element(name, [("net", Decimal(net))] + (if mac != [] then [("mac", Hex(mac))] else []), Empty)
  }

  const PDU_TYPE_NAMES := [
    "ConfirmedRequest", "UnconfirmedRequest", "SimpleACK", "ComplexACK",
    "SegmentACK", "Error", "Reject", "Abort"]

  function PduTypeName(a: Apdu): string {
    if a.pduType < 8 then PDU_TYPE_NAMES[a.pduType] else "Unknown"
  }

  function ServiceName(names: Names, a: Apdu): Option<string> {
    NameOf(if a.pduType == 1 then names.unconfirmed else names.confirmed, a.serviceChoice)
  }

  function ReasonName(names: Names, a: Apdu): Option<string> {
    NameOf(if a.pduType == 6 then names.reject else names.abort, a.reason)
  }

  function ApduAttributes(names: Names, a: Apdu): seq<(string, string)> {
    [("type", PduTypeName(a))]
    + Coded("invokeId", "", a.invokeId, None)
    + Coded("service", "serviceName", a.serviceChoice, ServiceName(names, a))
    + Coded("reason", "reasonName", a.reason, ReasonName(names, a))
  }

  function ObjectElement(names: Names, op: ObjectProperty): Element {
    Element("Object",
            [("type", Decimal(op.objectType))] + Named("typeName", Scan(names.objectTypes, op.objectType))
            + [("instance", Decimal(op.objectInstance))],
            Empty)
  }

  function PropertyElement(names: Names, op: ObjectProperty): Element {
    Element("Property", [("id", Decimal(op.propertyId))] + Named("name", Scan(names.properties, op.propertyId)), Empty)
  }

  function ReferenceElements(names: Names, op: ObjectProperty): seq<Element> {
    [ObjectElement(names, op), PropertyElement(names, op)]
    + (if op.arrayIndex.Some? then [IndexElement(op.arrayIndex.value)] else [])
  }

  function IndexElement(index: nat): Element {
    Element("ArrayIndex", [("value", Decimal(index))], Empty)
  }

  function ApduElement(names: Names, a: Apdu): Element {
    Element("APDU", ApduAttributes(names, a),
            if a.reference.Some? then Children(ReferenceElements(names, a.reference.value)) else Empty)
  }

  function NetworkElement(names: Names, messageType: byte): Element {
    Element("NetworkLayerMessage",
            [("type", Decimal(messageType))] + Named("name", NetworkMessageName(names, messageType)),
            Empty)
  }

  function RouteElements(n: Npdu): seq<Element> {
    (if n.HasDest() then [AddressElement("Destination", n.dnet, n.dadr)] else [])
    + (if n.HasSrc() then [AddressElement("Source", n.snet, n.sadr)] else [])
  }

  function PayloadElements(names: Names, n: Npdu): seq<Element> {
    if n.IsNetworkMessage() then [NetworkElement(names, n.MessageType())]
    else if n.payload.Application? then [ApduElement(names, n.payload.apdu)]
    else []
  }

  function NpduElement(names: Names, n: Npdu): Element {
    Element("NPDU", [("version", Decimal(n.version)), ("control", OctetText(n.control))],
            Children(RouteElements(n) + PayloadElements(names, n)))
  }

  function RawHexElement(s: seq<byte>): Element {
    Element("RawHex", [], Text(Hex(s)))
  }

  function BvlcElement(bvlcFunction: byte): Element {
    Element("BVLC", [("function", OctetText(bvlcFunction))], Empty)
  }

  const UNRECOGNISED := "not a recognizable " + "BACnet/IP (BVLC) frame"

  function ErrorElement(): Element {
    Element("Error", [], Text(UNRECOGNISED))
  }

  function MessageElements(names: Names, s: seq<byte>, f: Frame): seq<Element> {
    match f
    case NotBacnetIp => [ErrorElement()]
    case Bvlc(bvlcFunction, npdu) =>
      [BvlcElement(bvlcFunction)]
      + (if npdu.Some? then [NpduElement(names, npdu.value)] else [])
      + [RawHexElement(s)]
  }

  function MessageElement(names: Names, s: seq<byte>, f: Frame): Element {
    Element("BACnetMessage", [("bytes", Decimal(|s|))], Children(MessageElements(names, s, f)))
  }

  function DumpText(names: Names, s: seq<byte>): string {
    "\n" + Render(MessageElement(names, s, Decode(s)), 1)
  }

  // ---- Every tree is well formed --------------------------------------------------------------------

  lemma PlainNoMarkup(t: string)
    requires Plain(t)
    ensures NoMarkup(t)
  {
  }

  lemma NumbersNoMarkup()
    ensures forall n: nat :: NoMarkup(Decimal(n))
    ensures forall s: seq<byte> :: NoMarkup(Hex(s))
  {
    forall n: nat
      ensures NoMarkup(Decimal(n))
    {
      DecimalPlain(n);
      PlainNoMarkup(Decimal(n));
    }
    forall s: seq<byte>
      ensures NoMarkup(Hex(s))
    {
      HexPlain(s);
      PlainNoMarkup(Hex(s));
    }
  }

  /** Digits do not start a new line, so the raw hex is read as text. */
  lemma {:induction false} HexNoLine(s: seq<byte>)
    ensures !StartsLine(Hex(s))
  {
    if s != [] {
      HexNoLine(s[..|s| - 1]);
    }
  }

  lemma NamesNoMarkup(names: Names)
    requires names.Valid()
    ensures forall list, code :: list in [names.confirmed, names.unconfirmed, names.reject, names.abort]
              ==> NameOf(list, code).Some? ==> NoMarkup(NameOf(list, code).value)
    ensures forall t :: NetworkMessageName(names, t).Some? ==> NoMarkup(NetworkMessageName(names, t).value)
  {
  }

  lemma TableNoMarkup(names: Names, id: nat)
    requires names.Valid()
    ensures Scan(names.objectTypes, id).Some? ==> NoMarkup(Scan(names.objectTypes, id).value)
    ensures Scan(names.properties, id).Some? ==> NoMarkup(Scan(names.properties, id).value)
  {
    ScanSize(names.objectTypes, id, 22);
    ScanSize(names.properties, id, 35);
  }

  lemma MessageElementNames()
    ensures ValidName("BACnetMessage") && ValidName("Error") && ValidName("BVLC") && ValidName("RawHex")
  {
  }

  lemma RouteElementNames()
    ensures ValidName("NPDU") && ValidName("Destination") && ValidName("Source") && ValidName("NetworkLayerMessage")
  {
  }

  lemma ApduElementNames()
    ensures ValidName("APDU") && ValidName("Object") && ValidName("Property") && ValidName("ArrayIndex")
  {
  }

  lemma FrameKeys()
    ensures ValidName("bytes") && ValidName("function") && ValidName("version") && ValidName("control")
    ensures ValidName("net") && ValidName("mac") && ValidName("type") && ValidName("name")
  {
  }

  lemma ApduKeys()
    ensures ValidName("invokeId") && ValidName("service") && ValidName("serviceName")
    ensures ValidName("reason") && ValidName("reasonName")
  {
  }

  lemma ReferenceKeys()
    ensures ValidName("typeName") && ValidName("instance") && ValidName("id") && ValidName("value")
  {
  }

  lemma OneAttribute(key: string, value: string)
    requires ValidName(key) && NoMarkup(value)
    ensures ValidAttributes([(key, value)])
  {
  }

  lemma JoinAttributes(a: seq<(string, string)>, b: seq<(string, string)>)
    requires ValidAttributes(a) && ValidAttributes(b)
    ensures ValidAttributes(a + b)
  {
  }

  lemma NamedValid(key: string, name: Option<string>)
    requires ValidName(key) && (name.Some? ==> NoMarkup(name.value))
    ensures ValidAttributes(Named(key, name))
  {
  }

  lemma CodedValid(key: string, nameKey: string, code: Option<byte>, name: Option<string>)
    requires ValidName(key) && (name.Some? ==> ValidName(nameKey) && NoMarkup(name.value))
    ensures ValidAttributes(Coded(key, nameKey, code, name))
  {
    hide NoMarkup;
    hide ValidName;
    NumbersNoMarkup();
  }

  lemma LettersNoMarkup(t: string)
    requires ValidName(t)
    ensures NoMarkup(t)
  {
  }

  lemma PduTypeLetters(a: Apdu)
    ensures ValidName(PduTypeName(a))
  {
    assert ValidName("ConfirmedRequest") && ValidName("UnconfirmedRequest") && ValidName("Unknown");
    assert ValidName("SimpleACK") && ValidName("ComplexACK") && ValidName("SegmentACK");
    assert ValidName("Error") && ValidName("Reject") && ValidName("Abort");
    hide ValidName;
  }

  lemma PduTypeNoMarkup(a: Apdu)
    ensures NoMarkup(PduTypeName(a))
  {
    PduTypeLetters(a);
    LettersNoMarkup(PduTypeName(a));
  }

  lemma OctetNoMarkup(b: byte)
    ensures NoMarkup(OctetText(b))
  {
  }

  lemma ApduAttributesValid(names: Names, a: Apdu)
    requires names.Valid()
    ensures ValidAttributes(ApduAttributes(names, a))
  {
    hide NoMarkup;
    hide ValidName;
    hide Coded;
    hide PduTypeName;
    NamesNoMarkup(names);
    FrameKeys();
    ApduKeys();
    PduTypeNoMarkup(a);
    OneAttribute("type", PduTypeName(a));
    CodedValid("invokeId", "", a.invokeId, None);
    CodedValid("service", "serviceName", a.serviceChoice, ServiceName(names, a));
    CodedValid("reason", "reasonName", a.reason, ReasonName(names, a));
  }

  lemma ObjectWellFormed(names: Names, op: ObjectProperty)
    requires names.Valid()
    ensures WellFormed(ObjectElement(names, op))
  {
    hide NoMarkup;
    hide ValidName;
    hide Named;
    hide Decimal;
    hide Scan;
    ApduElementNames();
    FrameKeys();
    ReferenceKeys();
    TableNoMarkup(names, op.objectType);
    NumbersNoMarkup();
    NamedValid("typeName", Scan(names.objectTypes, op.objectType));
    OneAttribute("type", Decimal(op.objectType));
    OneAttribute("instance", Decimal(op.objectInstance));
  }

  lemma PropertyWellFormed(names: Names, op: ObjectProperty)
    requires names.Valid()
    ensures WellFormed(PropertyElement(names, op))
  {
    hide NoMarkup;
    hide ValidName;
    hide Named;
    hide Decimal;
    hide Scan;
    ApduElementNames();
    FrameKeys();
    ReferenceKeys();
    TableNoMarkup(names, op.propertyId);
    NumbersNoMarkup();
    NamedValid("name", Scan(names.properties, op.propertyId));
    OneAttribute("id", Decimal(op.propertyId));
  }

  lemma IndexWellFormed(index: nat)
    ensures WellFormed(IndexElement(index))
  {
    hide NoMarkup;
    hide ValidName;
    hide Decimal;
    ApduElementNames();
    ReferenceKeys();
    NumbersNoMarkup();
    OneAttribute("value", Decimal(index));
  }

  lemma ApduWellFormed(names: Names, a: Apdu)
    requires names.Valid()
    ensures WellFormed(ApduElement(names, a))
  {
    hide ValidName;
    hide ValidAttributes;
    hide ApduAttributes;
    hide ObjectElement;
    hide PropertyElement;
    hide IndexElement;
    ApduAttributesValid(names, a);
    ApduElementNames();
    if a.reference.Some? {
      var op := a.reference.value;
      ObjectWellFormed(names, op);
      PropertyWellFormed(names, op);
      if op.arrayIndex.Some? {
        IndexWellFormed(op.arrayIndex.value);
      }
    }
  }

  lemma AddressWellFormed(name: string, net: nat, mac: seq<byte>)
    requires ValidName(name)
    ensures WellFormed(AddressElement(name, net, mac))
  {
    hide NoMarkup;
    hide ValidName;
    hide Decimal;
    hide Hex;
    FrameKeys();
    NumbersNoMarkup();
    OneAttribute("net", Decimal(net));
    OneAttribute("mac", Hex(mac));
  }

  lemma NetworkWellFormed(names: Names, messageType: byte)
    requires names.Valid()
    ensures WellFormed(NetworkElement(names, messageType))
  {
    hide NoMarkup;
    hide ValidName;
    hide Named;
    hide Decimal;
    hide NetworkMessageName;
    RouteElementNames();
    FrameKeys();
    NamesNoMarkup(names);
    NumbersNoMarkup();
    NamedValid("name", NetworkMessageName(names, messageType));
    OneAttribute("type", Decimal(messageType));
  }

  ghost predicate AllWellFormed(es: seq<Element>) {
    forall e :: e in es ==> WellFormed(e)
  }

  lemma ParentWellFormed(name: string, attributes: seq<(string, string)>, es: seq<Element>)
    requires ValidName(name) && ValidAttributes(attributes) && AllWellFormed(es)
    ensures WellFormed(Element(name, attributes, Children(es)))
  {
    hide ValidName;
    hide ValidAttributes;
    assert Element(name, attributes, Children(es)).content.children == es;
  }

  lemma NpduElementsWellFormed(names: Names, n: Npdu)
    requires names.Valid()
    ensures AllWellFormed(RouteElements(n) + PayloadElements(names, n))
  {
    hide AddressElement;
    hide NetworkElement;
    hide ApduElement;
    hide WellFormed;
    RouteElementNames();
    AddressWellFormed("Destination", n.dnet, n.dadr);
    AddressWellFormed("Source", n.snet, n.sadr);
    NetworkWellFormed(names, n.MessageType());
    if n.payload.Application? {
      ApduWellFormed(names, n.payload.apdu);
    }
  }

  lemma NpduWellFormed(names: Names, n: Npdu)
    requires names.Valid()
    ensures WellFormed(NpduElement(names, n))
  {
    hide NoMarkup;
    hide ValidName;
    hide ValidAttributes;
    hide RouteElements;
    hide PayloadElements;
    hide Decimal;
    hide OctetText;
    var version, control := Decimal(n.version), OctetText(n.control);
    NumbersNoMarkup();
    OctetNoMarkup(n.control);
    FrameKeys();
    OneAttribute("version", version);
    OneAttribute("control", control);
    JoinAttributes([("version", version)], [("control", control)]);
    assert [("version", version)] + [("control", control)] == [("version", version), ("control", control)];
    RouteElementNames();
    NpduElementsWellFormed(names, n);
    ParentWellFormed("NPDU", [("version", version), ("control", control)],
                     RouteElements(n) + PayloadElements(names, n));
  }

  lemma BvlcWellFormed(bvlcFunction: byte, s: seq<byte>)
    ensures WellFormed(BvlcElement(bvlcFunction))
    ensures WellFormed(RawHexElement(s))
  {
    hide NoMarkup;
    hide ValidName;
    hide Hex;
    hide OctetText;
    MessageElementNames();
    FrameKeys();
    NumbersNoMarkup();
    HexNoLine(s);
    OctetNoMarkup(bvlcFunction);
    OneAttribute("function", OctetText(bvlcFunction));
  }

  lemma UnrecognisedNoMarkup()
    ensures NoMarkup(UNRECOGNISED) && !StartsLine(UNRECOGNISED)
  {
    assert NoMarkup("not a recognizable ");
    assert NoMarkup("BACnet/IP (BVLC) frame");
  }

  lemma ErrorWellFormed()
    ensures WellFormed(ErrorElement())
  {
    hide NoMarkup;
    hide ValidName;
    hide StartsLine;
    hide UNRECOGNISED;
    UnrecognisedNoMarkup();
    MessageElementNames();
  }

  lemma MessageWellFormed(names: Names, s: seq<byte>, f: Frame)
    requires names.Valid()
    ensures WellFormed(MessageElement(names, s, f))
  {
    hide NoMarkup;
    hide ValidName;
    hide ValidAttributes;
    hide Decimal;
    NumbersNoMarkup();
    MessageElementNames();
    FrameKeys();
    OneAttribute("bytes", Decimal(|s|));
    MessageElementsWellFormed(names, s, f);
    hide MessageElements;
    ParentWellFormed("BACnetMessage", [("bytes", Decimal(|s|))], MessageElements(names, s, f));
  }

  lemma MessageElementsWellFormed(names: Names, s: seq<byte>, f: Frame)
    requires names.Valid()
    ensures AllWellFormed(MessageElements(names, s, f))
  {
    hide NpduElement;
    hide RawHexElement;
    hide BvlcElement;
    hide ErrorElement;
    hide WellFormed;
    match f {
      case NotBacnetIp => ErrorWellFormed();
      case Bvlc(bvlcFunction, npdu) =>
        BvlcWellFormed(bvlcFunction, s);
        if npdu.Some? {
          NpduWellFormed(names, npdu.value);
        }
    }
  }

  /** The text of every dump is read as exactly the tree of its frame, one document with one root. */
  lemma DumpIsDocument(names: Names, s: seq<byte>)
    requires names.Valid()
    ensures Document(DumpText(names, s)) == Some(MessageElement(names, s, Decode(s)))
  {
    hide Decode;
    hide MessageElement;
    hide Document;
    MessageWellFormed(names, s, Decode(s));
    DocumentRoundTrip(MessageElement(names, s, Decode(s)), 1);
  }
}
