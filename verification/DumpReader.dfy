/**
  Reading a dump back: the frame an element tree tells of, looked up by element and attribute names,
  and what of the decoded frame the dump therefore preserves.
 */
module DumpReader {
  import opened Wrappers
  import opened Bytes
  import opened ObjectProperties
  import opened FrameDecoder
  import opened Texts
  import opened NameLookup
  import opened NameTables
  import opened Summary
  import opened Xml
  import opened XmlDump

  // ---- Lookup in a tree -------------------------------------------------------------------------------

  function Lookup<T>(entries: seq<(string, T)>, key: string): Option<T> {
    if entries == [] then None
    else if entries[0].0 == key then Some(entries[0].1)
    else Lookup(entries[1..], key)
  }

  lemma {:induction false} LookupConcat<T>(a: seq<(string, T)>, b: seq<(string, T)>, key: string)
    ensures Lookup(a + b, key) == if Lookup(a, key).Some? then Lookup(a, key) else Lookup(b, key)
  {
    if a == [] {
      assert a + b == b;
    } else {
      assert (a + b)[1..] == a[1..] + b;
      LookupConcat(a[1..], b, key);
    }
  }

  lemma LookupOne<T>(key: string, value: T, other: string)
    ensures Lookup([(key, value)], other) == if key == other then Some(value) else None
  {
    assert [(key, value)][1..] == [];
  }

  function Get(e: Element, key: string): Option<string> {
    Lookup(e.attributes, key)
  }

  /** The first child with this name. */
  function Child(es: seq<Element>, name: string): Option<Element> {
    if es == [] then None else if es[0].name == name then Some(es[0]) else Child(es[1..], name)
  }

  lemma {:induction false} ChildConcat(a: seq<Element>, b: seq<Element>, name: string)
    ensures Child(a + b, name) == if Child(a, name).Some? then Child(a, name) else Child(b, name)
  {
    if a == [] {
      assert a + b == b;
    } else {
      assert (a + b)[1..] == a[1..] + b;
      ChildConcat(a[1..], b, name);
    }
  }

  lemma ChildOne(e: Element, name: string)
    ensures Child([e], name) == if e.name == name then Some(e) else None
  {
    assert [e][1..] == [];
  }

  function Inner(e: Element): seq<Element> {
    if e.content.Children? then e.content.children else []
  }

  // ---- Reading values ---------------------------------------------------------------------------------

  function Number(t: Option<string>): Option<nat> {
    if t.Some? then DecimalValue(t.value) else None
  }

  function Code(t: Option<string>): Option<byte> {
    var n := Number(t);
    if n.Some? && n.value < 256 then Some(n.value) else None
  }

  function Octets(t: Option<string>): Option<seq<byte>> {
    if t.Some? then HexDecode(t.value) else None
  }

  /** An octet written as `0x%02X`. */
  function Octet(t: Option<string>): Option<byte> {
    if t.Some? && |t.value| == 4 && t.value[..2] == "0x" then OctetValue(t.value[2], t.value[3]) else None
  }

  function Default<T>(value: Option<T>, default: T): T {
    if value.Some? then value.value else default
  }

  /** The PDU types of Clause 20.1 by the words a dump has for them; 8 stands for any other. */
  function PduTypeOf(word: string): byte {
    match word
    case "ConfirmedRequest" => 0
    case "UnconfirmedRequest" => 1
    case "SimpleACK" => 2
    case "ComplexACK" => 3
    case "SegmentACK" => 4
    case "Error" => 5
    case "Reject" => 6
    case "Abort" => 7
    case _ => 8
  }

  // ---- The frame a dump tells of ------------------------------------------------------------------------

  function AddressOf(e: Option<Element>): (nat, seq<byte>) {
    if e.None? then (0, [])
    else (Default(Number(Get(e.value, "net")), 0), Default(Octets(Get(e.value, "mac")), []))
  }

  function ReferenceOf(es: seq<Element>): Option<ObjectProperty> {
    var obj, property, index := Child(es, "Object"), Child(es, "Property"), Child(es, "ArrayIndex");
    if obj.None? || property.None? then None
    else Some(ObjectProperty(
                Default(Number(Get(obj.value, "type")), 0), Default(Number(Get(obj.value, "instance")), 0),
                Default(Number(Get(property.value, "id")), 0),
                if index.Some? then Number(Get(index.value, "value")) else None))
  }

  function ApduOf(e: Element): Apdu {
    Apdu(PduTypeOf(Default(Get(e, "type"), "")), false,
         Code(Get(e, "invokeId")), Code(Get(e, "service")), Code(Get(e, "reason")), ReferenceOf(Inner(e)))
  }

  function PayloadOf(es: seq<Element>): Payload {
    var message, apdu := Child(es, "NetworkLayerMessage"), Child(es, "APDU");
    if message.Some? then NetworkMessage(Default(Code(Get(message.value, "type")), 0))
    else if apdu.Some? then Application(ApduOf(apdu.value))
    else Missing
  }

  function NpduOf(e: Element): Npdu {
    var dest, src := AddressOf(Child(Inner(e), "Destination")), AddressOf(Child(Inner(e), "Source"));
    Npdu(Default(Code(Get(e, "version")), 0), Default(Octet(Get(e, "control")), 0),
         dest.0, dest.1, src.0, src.1, PayloadOf(Inner(e)))
  }

  function FrameOf(e: Element): Frame {
    var bvlc, npdu := Child(Inner(e), "BVLC"), Child(Inner(e), "NPDU");
    if bvlc.None? then NotBacnetIp
    else Bvlc(Default(Octet(Get(bvlc.value, "function")), 0), if npdu.Some? then Some(NpduOf(npdu.value)) else None)
  }

  function RawHexOf(e: Element): Option<seq<byte>> {
    var raw := Child(Inner(e), "RawHex");
    if raw.Some? && raw.value.content.Text? then HexDecode(raw.value.content.text) else None
  }

  // ---- Names beside numbers ---------------------------------------------------------------------------------

  /** A code that is there has its entry of the list beside it, if the list has one; no code, no name. */
  predicate NameBeside(list: seq<string>, code: Option<byte>, name: Option<string>) {
    if code.Some? then Entry(list, code.value, name) else name == None
  }

  /**
    Service names are those of unconfirmed services for PDU type 1, reasons those of a reject for type 6;
    the element is self-closed if there is no object to tell of.
   */
  predicate ApduNamed(names: Names, e: Element) {
    var a := ApduOf(e);
    && (e.content.Empty? <==> a.reference == None)
    && NameBeside(if a.pduType == 1 then names.unconfirmed else names.confirmed, a.serviceChoice, Get(e, "serviceName"))
    && NameBeside(if a.pduType == 6 then names.reject else names.abort, a.reason, Get(e, "reasonName"))
  }

  ghost predicate ReferenceNamed(names: Names, es: seq<Element>) {
    var obj, property, op := Child(es, "Object"), Child(es, "Property"), ReferenceOf(es);
    op.Some? ==>
      && Row(names.objectTypes, op.value.objectType, Get(obj.value, "typeName"))
      && Row(names.properties, op.value.propertyId, Get(property.value, "name"))
  }

  predicate MessageNamed(names: Names, e: Element) {
    var t := Default(Code(Get(e, "type")), 0);
    Get(e, "name") == if t in names.network then Some(names.network[t]) else None
  }

  /** A station address is shown only where there is one. */
  predicate AddressShown(e: Option<Element>) {
    e.Some? ==> Get(e.value, "mac") != Some("")
  }

  /** Every name in a dump is the one its own table has for the number beside it. */
  ghost predicate AllNamed(names: Names, e: Element) {
    var npdu := Child(Inner(e), "NPDU");
    npdu.Some? ==>
      var es := Inner(npdu.value);
      var message, apdu := Child(es, "NetworkLayerMessage"), Child(es, "APDU");
      && AddressShown(Child(es, "Destination")) && AddressShown(Child(es, "Source"))
      && (message.Some? ==> MessageNamed(names, message.value))
      && (apdu.Some? ==> ApduNamed(names, apdu.value) && ReferenceNamed(names, Inner(apdu.value)))
  }

  // ---- What of a decoded frame a dump shows ---------------------------------------------------------------

  /**
    Everything but three things: whether a PDU was segmented, which of the eight unassigned PDU types
    it had, and whether a network message of type 0 had its type octet at all.
   */
  function Shown(f: Frame): Frame {
    if f.Bvlc? && f.npdu.Some? then f.(npdu := Some(f.npdu.value.(payload := ShownPayload(f.npdu.value)))) else f
  }

  function ShownPayload(n: Npdu): Payload {
    if n.IsNetworkMessage() then NetworkMessage(n.MessageType())
    else if n.payload.Application? then Application(ShownApdu(n.payload.apdu))
    else Missing
  }

  function ShownApdu(a: Apdu): Apdu {
    a.(segmented := false, pduType := if a.pduType < 8 then a.pduType else 8)
  }

  /** An address that is not flagged in the control octet is absent from what the decoder reports. */
  predicate Flagged(n: Npdu) {
    && (n.HasDest() || (n.dnet == 0 && n.dadr == []))
    && (n.HasSrc() || (n.snet == 0 && n.sadr == []))
  }

  lemma DecodedFlagged(s: seq<byte>, offset: nat)
    requires offset + 2 <= |s|
    ensures Flagged(DecodeNpdu(s, offset))
  {
    hide DecodeApdu;
    hide ReadAddress;
  }

  // ---- Reading back, element by element ---------------------------------------------------------------------

  lemma ReadNumber(n: nat)
    ensures Number(Some(Decimal(n))) == Some(n)
    ensures n < 256 ==> Code(Some(Decimal(n))) == Some(n)
  {
    DecimalRoundTrip(n);
  }

  lemma ReadOctet(b: byte)
    ensures Octet(Some(OctetText(b))) == Some(b)
  {
    OctetRoundTrip(b);
    hide OctetValue;
    hide HexOctet;
    assert OctetText(b)[..2] == "0x";
  }

  lemma NamedLookup(key: string, name: Option<string>, other: string)
    ensures Lookup(Named(key, name), other) == if key == other then name else None
  {
    if name.Some? {
      LookupOne(key, name.value, other);
    }
  }

  lemma CodedLookup(key: string, nameKey: string, code: Option<byte>, name: Option<string>, other: string)
    requires other != nameKey
    ensures Code(Lookup(Coded(key, nameKey, code, name), other)) == if key == other then code else None
    ensures Lookup(Coded(key, nameKey, code, name), other).Some? <==> key == other && code.Some?
  {
    if code.Some? {
      LookupConcat([(key, Decimal(code.value))], Named(nameKey, name), other);
      LookupOne(key, Decimal(code.value), other);
      NamedLookup(nameKey, name, other);
      ReadNumber(code.value);
    }
  }

  lemma AddressBack(name: string, net: nat, mac: seq<byte>)
    ensures AddressOf(Some(AddressElement(name, net, mac))) == (net, mac)
    ensures AddressShown(Some(AddressElement(name, net, mac)))
  {
    var first, second := [("net", Decimal(net))], if mac != [] then [("mac", Hex(mac))] else [];
    LookupConcat(first, second, "net");
    LookupConcat(first, second, "mac");
    LookupOne("net", Decimal(net), "net");
    LookupOne("net", Decimal(net), "mac");
    LookupOne("mac", Hex(mac), "mac");
    ReadNumber(net);
    HexRoundTrip(mac);
  }

  lemma ObjectBack(names: Names, op: ObjectProperty)
    ensures Number(Get(ObjectElement(names, op), "type")) == Some(op.objectType)
    ensures Number(Get(ObjectElement(names, op), "instance")) == Some(op.objectInstance)
  {
    hide Number;
    hide Decimal;
    var typeName := Scan(names.objectTypes, op.objectType);
    var front, instance := [("type", Decimal(op.objectType))], [("instance", Decimal(op.objectInstance))];
    LookupConcat(front + Named("typeName", typeName), instance, "type");
    LookupConcat(front + Named("typeName", typeName), instance, "instance");
    LookupConcat(front, Named("typeName", typeName), "type");
    LookupConcat(front, Named("typeName", typeName), "instance");
    LookupOne("type", Decimal(op.objectType), "type");
    LookupOne("type", Decimal(op.objectType), "instance");
    NamedLookup("typeName", typeName, "instance");
    LookupOne("instance", Decimal(op.objectInstance), "instance");
    ReadNumber(op.objectType);
    ReadNumber(op.objectInstance);
  }

  /** A number in the first attribute, whatever follows it. */
  lemma FirstNumber(name: string, key: string, n: nat, more: seq<(string, string)>, content: Content)
    ensures Number(Get(Element(name, [(key, Decimal(n))] + more, content), key)) == Some(n)
    ensures n < 256 ==> Code(Get(Element(name, [(key, Decimal(n))] + more, content), key)) == Some(n)
  {
    hide Number;
    hide Decimal;
    LookupConcat([(key, Decimal(n))], more, key);
    LookupOne(key, Decimal(n), key);
    ReadNumber(n);
  }

  lemma ReferenceBack(names: Names, op: ObjectProperty)
    ensures ReferenceOf(ReferenceElements(names, op)) == Some(op)
  {
    var obj, property := ObjectElement(names, op), PropertyElement(names, op);
    var index := if op.arrayIndex.Some? then [IndexElement(op.arrayIndex.value)] else [];
    assert obj.name == "Object" && property.name == "Property";
    assert index == [] || index[0].name == "ArrayIndex";
    ObjectBack(names, op);
    FirstNumber("Property", "id", op.propertyId, Named("name", Scan(names.properties, op.propertyId)), Empty);
    if op.arrayIndex.Some? {
      FirstNumber("ArrayIndex", "value", op.arrayIndex.value, [], Empty);
      assert [("value", Decimal(op.arrayIndex.value))] + [] == [("value", Decimal(op.arrayIndex.value))];
    }
    ReferenceChildren(obj, property, index);
    hide ObjectElement;
    hide PropertyElement;
    hide IndexElement;
    hide Number;
    hide Child;
  }

  lemma ReferenceChildren(obj: Element, property: Element, index: seq<Element>)
    requires obj.name == "Object" && property.name == "Property"
    requires index == [] || (|index| == 1 && index[0].name == "ArrayIndex")
    ensures Child([obj, property] + index, "Object") == Some(obj)
    ensures Child([obj, property] + index, "Property") == Some(property)
    ensures Child([obj, property] + index, "ArrayIndex") == if index == [] then None else Some(index[0])
  {
    hide Child;
    assert [obj, property] == [obj] + [property];
    forall name
      ensures Child([obj, property] + index, name)
              == if obj.name == name then Some(obj)
                 else if property.name == name then Some(property)
                 else Child(index, name)
    {
      ChildConcat([obj, property], index, name);
      ChildConcat([obj], [property], name);
      ChildOne(obj, name);
      ChildOne(property, name);
    }
    if index != [] {
      ChildOne(index[0], "ArrayIndex");
      assert index == [index[0]];
    } else {
      NoChild("ArrayIndex");
    }
  }

  lemma NoChild(name: string)
    ensures Child([], name) == None
  {
  }

  lemma PduTypeBack(a: Apdu)
    ensures PduTypeOf(PduTypeName(a)) == ShownApdu(a).pduType
    ensures a.pduType >= 8 ==> PduTypeName(a) == "Unknown"
  {
  }

  lemma ApduBack(names: Names, a: Apdu)
    ensures ApduOf(ApduElement(names, a)) == ShownApdu(a)
  {
    ApduTypeBack(names, a);
    ApduCodesBack(names, a);
    PduTypeBack(a);
    if a.reference.Some? {
      ReferenceBack(names, a.reference.value);
    } else {
      NoChild("Object");
    }
    hide ApduAttributes;
    hide ReferenceOf;
    hide ReferenceElements;
    hide Lookup;
  }

  lemma ApduTypeBack(names: Names, a: Apdu)
    ensures Lookup(ApduAttributes(names, a), "type") == Some(PduTypeName(a))
  {
    hide Coded;
    hide PduTypeName;
    var first := [("type", PduTypeName(a))];
    var b := Coded("invokeId", "", a.invokeId, None);
    var c := Coded("service", "serviceName", a.serviceChoice, ServiceName(names, a));
    var d := Coded("reason", "reasonName", a.reason, ReasonName(names, a));
    LookupFirst(first, b, c, d, "type");
    LookupOne("type", PduTypeName(a), "type");
  }

  lemma LookupFirst(a: seq<(string, string)>, b: seq<(string, string)>, c: seq<(string, string)>,
                    d: seq<(string, string)>, key: string)
    ensures Lookup(a + b + c + d, key)
            == if Lookup(a, key).Some? then Lookup(a, key)
               else if Lookup(b, key).Some? then Lookup(b, key)
               else if Lookup(c, key).Some? then Lookup(c, key)
               else Lookup(d, key)
  {
    LookupConcat(a + b + c, d, key);
    LookupConcat(a + b, c, key);
    LookupConcat(a, b, key);
  }

  lemma ApduCodesBack(names: Names, a: Apdu)
    ensures Code(Lookup(ApduAttributes(names, a), "invokeId")) == a.invokeId
    ensures Code(Lookup(ApduAttributes(names, a), "service")) == a.serviceChoice
    ensures Code(Lookup(ApduAttributes(names, a), "reason")) == a.reason
  {
    hide Coded;
    hide Code;
    hide PduTypeName;
    hide Lookup;
    forall key | key in ["invokeId", "service", "reason"]
      ensures Code(Lookup(ApduAttributes(names, a), key))
              == if key == "invokeId" then a.invokeId else if key == "service" then a.serviceChoice else a.reason
    {
      LookupFirst([("type", PduTypeName(a))], Coded("invokeId", "", a.invokeId, None),
                  Coded("service", "serviceName", a.serviceChoice, ServiceName(names, a)),
                  Coded("reason", "reasonName", a.reason, ReasonName(names, a)), key);
      LookupOne("type", PduTypeName(a), key);
      CodedLookup("invokeId", "", a.invokeId, None, key);
      CodedLookup("service", "serviceName", a.serviceChoice, ServiceName(names, a), key);
      CodedLookup("reason", "reasonName", a.reason, ReasonName(names, a), key);
    }
  }

  /** The children of an NPDU: at most one of each name, in this order. */
  lemma NpduChildren(dest: seq<Element>, src: seq<Element>, payload: seq<Element>)
    requires |dest| <= 1 && |src| <= 1 && |payload| <= 1
    requires dest != [] ==> dest[0].name == "Destination"
    requires src != [] ==> src[0].name == "Source"
    requires payload != [] ==> payload[0].name == "NetworkLayerMessage" || payload[0].name == "APDU"
    ensures Child(dest + src + payload, "Destination") == if dest == [] then None else Some(dest[0])
    ensures Child(dest + src + payload, "Source") == if src == [] then None else Some(src[0])
    ensures Child(dest + src + payload, "NetworkLayerMessage")
            == if payload != [] && payload[0].name == "NetworkLayerMessage" then Some(payload[0]) else None
    ensures Child(dest + src + payload, "APDU")
            == if payload != [] && payload[0].name == "APDU" then Some(payload[0]) else None
  {
    forall name
      ensures Child(dest + src + payload, name)
              == if dest != [] && dest[0].name == name then Some(dest[0])
                 else if src != [] && src[0].name == name then Some(src[0])
                 else if payload != [] && payload[0].name == name then Some(payload[0])
                 else None
    {
      ChildConcat(dest + src, payload, name);
      ChildConcat(dest, src, name);
      ChildAtMostOne(dest, name);
      ChildAtMostOne(src, name);
      ChildAtMostOne(payload, name);
    }
  }

  lemma ChildAtMostOne(es: seq<Element>, name: string)
    requires |es| <= 1
    ensures Child(es, name) == if es != [] && es[0].name == name then Some(es[0]) else None
  {
    if es != [] {
      assert es[1..] == [];
    }
  }

  lemma NetworkBack(names: Names, messageType: byte)
    ensures NetworkElement(names, messageType).name == "NetworkLayerMessage"
    ensures Code(Get(NetworkElement(names, messageType), "type")) == Some(messageType)
  {
    FirstNumber("NetworkLayerMessage", "type", messageType, Named("name", NetworkMessageName(names, messageType)),
                Empty);
  }

  lemma PayloadBack(names: Names, n: Npdu, es: seq<Element>)
    requires Child(es, "NetworkLayerMessage")
             == if n.IsNetworkMessage() then Some(NetworkElement(names, n.MessageType())) else None
    requires !n.IsNetworkMessage() ==>
               Child(es, "APDU")
               == if n.payload.Application? then Some(ApduElement(names, n.payload.apdu)) else None
    ensures PayloadOf(es) == ShownPayload(n)
  {
    hide NetworkElement;
    hide ApduElement;
    hide Child;
    hide Code;
    hide Get;
    hide ApduOf;
    NetworkBack(names, n.MessageType());
    if n.payload.Application? {
      ApduBack(names, n.payload.apdu);
    }
  }

  lemma PayloadNames(names: Names, n: Npdu)
    ensures var p := PayloadElements(names, n);
            |p| <= 1 && (p != [] ==> p[0].name == if n.IsNetworkMessage() then "NetworkLayerMessage" else "APDU")
  {
  }

  lemma NpduAttributesBack(names: Names, n: Npdu)
    ensures Code(Get(NpduElement(names, n), "version")) == Some(n.version)
    ensures Octet(Get(NpduElement(names, n), "control")) == Some(n.control)
  {
    var version, control := [("version", Decimal(n.version))], [("control", OctetText(n.control))];
    assert NpduElement(names, n).attributes == version + control;
    ReadOctet(n.control);
    ReadNumber(n.version);
    LookupConcat(version, control, "version");
    LookupConcat(version, control, "control");
    LookupOne("version", Decimal(n.version), "version");
    LookupOne("version", Decimal(n.version), "control");
    LookupOne("control", OctetText(n.control), "control");
    hide Code;
    hide Octet;
    hide Decimal;
    hide OctetText;
  }

  lemma NpduLookup(names: Names, n: Npdu)
    ensures var es := Inner(NpduElement(names, n));
            && Child(es, "Destination")
               == (if n.HasDest() then Some(AddressElement("Destination", n.dnet, n.dadr)) else None)
            && Child(es, "Source") == (if n.HasSrc() then Some(AddressElement("Source", n.snet, n.sadr)) else None)
            && Child(es, "NetworkLayerMessage")
               == (if n.IsNetworkMessage() then Some(NetworkElement(names, n.MessageType())) else None)
            && Child(es, "APDU")
               == (if !n.IsNetworkMessage() && n.payload.Application?
                   then Some(ApduElement(names, n.payload.apdu)) else None)
  {
    hide Child;
    hide AddressElement;
    hide NetworkElement;
    hide ApduElement;
    var dest := if n.HasDest() then [AddressElement("Destination", n.dnet, n.dadr)] else [];
    var src := if n.HasSrc() then [AddressElement("Source", n.snet, n.sadr)] else [];
    var payload := PayloadElements(names, n);
    assert Inner(NpduElement(names, n)) == dest + src + payload;
    AddressNames(n);
    PayloadNames(names, n);
    NpduChildren(dest, src, payload);
  }

  lemma AddressNames(n: Npdu)
    ensures AddressElement("Destination", n.dnet, n.dadr).name == "Destination"
    ensures AddressElement("Source", n.snet, n.sadr).name == "Source"
  {
  }

  lemma NpduBack(names: Names, n: Npdu)
    requires Flagged(n)
    ensures NpduOf(NpduElement(names, n)) == n.(payload := ShownPayload(n))
  {
    hide NpduElement;
    hide Child;
    hide Get;
    hide Code;
    hide Octet;
    hide Inner;
    hide AddressElement;
    hide AddressOf;
    hide PayloadOf;
    hide ShownPayload;
    NpduAttributesBack(names, n);
    NpduLookup(names, n);
    AddressBack("Destination", n.dnet, n.dadr);
    AddressBack("Source", n.snet, n.sadr);
    NoAddress();
    PayloadBack(names, n, Inner(NpduElement(names, n)));
  }

  lemma NoAddress()
    ensures AddressOf(None) == (0, [])
  {
  }

  // ---- Names, element by element ------------------------------------------------------------------------------

  lemma CodedName(key: string, nameKey: string, code: Option<byte>, name: Option<string>)
    requires key != nameKey
    ensures Lookup(Coded(key, nameKey, code, name), nameKey) == if code.Some? then name else None
  {
    if code.Some? {
      LookupConcat([(key, Decimal(code.value))], Named(nameKey, name), nameKey);
      LookupOne(key, Decimal(code.value), nameKey);
      NamedLookup(nameKey, name, nameKey);
    }
  }

  lemma ApduNamesBack(names: Names, a: Apdu)
    ensures Lookup(ApduAttributes(names, a), "serviceName")
            == if a.serviceChoice.Some? then ServiceName(names, a) else None
    ensures Lookup(ApduAttributes(names, a), "reasonName") == if a.reason.Some? then ReasonName(names, a) else None
  {
    hide Coded;
    hide Code;
    hide PduTypeName;
    hide Lookup;
    hide ServiceName;
    hide ReasonName;
    forall key | key in ["serviceName", "reasonName"]
      ensures Lookup(ApduAttributes(names, a), key)
              == if key == "serviceName" then (if a.serviceChoice.Some? then ServiceName(names, a) else None)
                 else if a.reason.Some? then ReasonName(names, a) else None
    {
      LookupFirst([("type", PduTypeName(a))], Coded("invokeId", "", a.invokeId, None),
                  Coded("service", "serviceName", a.serviceChoice, ServiceName(names, a)),
                  Coded("reason", "reasonName", a.reason, ReasonName(names, a)), key);
      LookupOne("type", PduTypeName(a), key);
      CodedLookup("invokeId", "", a.invokeId, None, key);
      if key == "serviceName" {
        CodedName("service", "serviceName", a.serviceChoice, ServiceName(names, a));
        CodedLookup("reason", "reasonName", a.reason, ReasonName(names, a), key);
      } else {
        CodedLookup("service", "serviceName", a.serviceChoice, ServiceName(names, a), key);
        CodedName("reason", "reasonName", a.reason, ReasonName(names, a));
      }
    }
  }

  lemma ApduNamedBack(names: Names, a: Apdu)
    ensures ApduNamed(names, ApduElement(names, a))
  {
    ApduBack(names, a);
    ApduNamesBack(names, a);
    hide ApduAttributes;
    hide ApduOf;
    hide Lookup;
  }

  lemma ReferenceNamedBack(names: Names, op: ObjectProperty)
    ensures ReferenceNamed(names, ReferenceElements(names, op))
  {
    var obj, property := ObjectElement(names, op), PropertyElement(names, op);
    var index := if op.arrayIndex.Some? then [IndexElement(op.arrayIndex.value)] else [];
    assert obj.name == "Object" && property.name == "Property";
    assert index == [] || index[0].name == "ArrayIndex";
    ReferenceChildren(obj, property, index);
    ReferenceBack(names, op);
    ScanRow(names.objectTypes, op.objectType);
    ScanRow(names.properties, op.propertyId);
    ObjectNameBack(names, op);
    PropertyNameBack(names, op);
    hide ObjectElement;
    hide PropertyElement;
    hide IndexElement;
    hide Child;
    hide Get;
    hide ReferenceOf;
    hide Scan;
    hide Row;
  }

  lemma ObjectNameBack(names: Names, op: ObjectProperty)
    ensures Get(ObjectElement(names, op), "typeName") == Scan(names.objectTypes, op.objectType)
  {
    hide Decimal;
    hide Scan;
    var typeName := Scan(names.objectTypes, op.objectType);
    var front, instance := [("type", Decimal(op.objectType))], [("instance", Decimal(op.objectInstance))];
    LookupConcat(front + Named("typeName", typeName), instance, "typeName");
    LookupConcat(front, Named("typeName", typeName), "typeName");
    LookupOne("type", Decimal(op.objectType), "typeName");
    NamedLookup("typeName", typeName, "typeName");
    LookupOne("instance", Decimal(op.objectInstance), "typeName");
  }

  lemma PropertyNameBack(names: Names, op: ObjectProperty)
    ensures Get(PropertyElement(names, op), "name") == Scan(names.properties, op.propertyId)
  {
    hide Decimal;
    hide Scan;
    var name := Scan(names.properties, op.propertyId);
    LookupConcat([("id", Decimal(op.propertyId))], Named("name", name), "name");
    LookupOne("id", Decimal(op.propertyId), "name");
    NamedLookup("name", name, "name");
  }

  lemma MessageNamedBack(names: Names, messageType: byte)
    ensures MessageNamed(names, NetworkElement(names, messageType))
  {
    NetworkBack(names, messageType);
    var name := NetworkMessageName(names, messageType);
    LookupConcat([("type", Decimal(messageType))], Named("name", name), "name");
    LookupOne("type", Decimal(messageType), "name");
    NamedLookup("name", name, "name");
    hide Code;
    hide Decimal;
  }

  lemma NoReferenceNamed(names: Names)
    ensures ReferenceNamed(names, [])
  {
  }

  lemma NpduNamedBack(names: Names, n: Npdu)
    ensures var es := Inner(NpduElement(names, n));
            var message, apdu := Child(es, "NetworkLayerMessage"), Child(es, "APDU");
            && AddressShown(Child(es, "Destination")) && AddressShown(Child(es, "Source"))
            && (message.Some? ==> MessageNamed(names, message.value))
            && (apdu.Some? ==> ApduNamed(names, apdu.value) && ReferenceNamed(names, Inner(apdu.value)))
  {
    NpduLookup(names, n);
    AddressBack("Destination", n.dnet, n.dadr);
    AddressBack("Source", n.snet, n.sadr);
    MessageNamedBack(names, n.MessageType());
    if n.payload.Application? {
      var a := n.payload.apdu;
      ApduNamedBack(names, a);
      if a.reference.Some? {
        ReferenceNamedBack(names, a.reference.value);
        assert Inner(ApduElement(names, a)) == ReferenceElements(names, a.reference.value);
      } else {
        NoReferenceNamed(names);
        assert Inner(ApduElement(names, a)) == [];
      }
    }
    hide NpduElement;
    hide NetworkElement;
    hide ApduElement;
    hide ApduNamed;
    hide ReferenceNamed;
    hide MessageNamed;
    hide AddressElement;
    hide AddressShown;
    hide Child;
  }

  // ---- Main results -------------------------------------------------------------------------------------------

  lemma MessageChildren(bvlc: Element, npdu: seq<Element>, raw: Element)
    requires bvlc.name == "BVLC" && |npdu| <= 1 && raw.name == "RawHex"
    requires npdu != [] ==> npdu[0].name == "NPDU"
    ensures var es := [bvlc] + npdu + [raw];
            && Child(es, "BVLC") == Some(bvlc)
            && Child(es, "NPDU") == (if npdu == [] then None else Some(npdu[0]))
            && Child(es, "RawHex") == Some(raw)
  {
    forall name
      ensures Child([bvlc] + npdu + [raw], name)
              == if bvlc.name == name then Some(bvlc)
                 else if npdu != [] && npdu[0].name == name then Some(npdu[0])
                 else if raw.name == name then Some(raw)
                 else None
    {
      ChildConcat([bvlc] + npdu, [raw], name);
      ChildConcat([bvlc], npdu, name);
      ChildOne(bvlc, name);
      ChildAtMostOne(npdu, name);
      ChildOne(raw, name);
    }
  }

  lemma BvlcBack(bvlcFunction: byte)
    ensures Octet(Get(BvlcElement(bvlcFunction), "function")) == Some(bvlcFunction)
  {
    LookupOne("function", OctetText(bvlcFunction), "function");
    ReadOctet(bvlcFunction);
  }

  lemma MessageLookup(names: Names, s: seq<byte>, bvlcFunction: byte, npdu: Option<Npdu>)
    ensures var es := Inner(MessageElement(names, s, Bvlc(bvlcFunction, npdu)));
            && Child(es, "BVLC") == Some(BvlcElement(bvlcFunction))
            && Child(es, "NPDU") == (if npdu.Some? then Some(NpduElement(names, npdu.value)) else None)
            && Child(es, "RawHex") == Some(RawHexElement(s))
  {
    hide Child;
    var inner := if npdu.Some? then [NpduElement(names, npdu.value)] else [];
    assert BvlcElement(bvlcFunction).name == "BVLC" && RawHexElement(s).name == "RawHex";
    assert inner != [] ==> inner[0].name == "NPDU";
    MessageChildren(BvlcElement(bvlcFunction), inner, RawHexElement(s));
  }

  lemma UnrecognisedLookup(names: Names, s: seq<byte>, name: string)
    requires name != "Error"
    ensures Child(Inner(MessageElement(names, s, NotBacnetIp)), name) == None
  {
    ChildOne(ErrorElement(), name);
    hide Child;
  }

  lemma FrameBack(names: Names, s: seq<byte>, f: Frame)
    requires f.Bvlc? && f.npdu.Some? ==> Flagged(f.npdu.value)
    ensures FrameOf(MessageElement(names, s, f)) == Shown(f)
    ensures RawHexOf(MessageElement(names, s, f)) == if f.Bvlc? then Some(s) else None
  {
    hide MessageElement;
    hide Child;
    hide Inner;
    hide NpduElement;
    hide NpduOf;
    hide BvlcElement;
    hide Get;
    hide Octet;
    match f {
      case NotBacnetIp =>
        UnrecognisedLookup(names, s, "BVLC");
        UnrecognisedLookup(names, s, "RawHex");
      case Bvlc(bvlcFunction, npdu) =>
        MessageLookup(names, s, bvlcFunction, npdu);
        BvlcBack(bvlcFunction);
        HexRoundTrip(s);
        if npdu.Some? {
          NpduBack(names, npdu.value);
        }
    }
  }

  /**
    Main result: read as a document and looked up by name, the dump gives the number of octets, every
    field of the decoded frame but those `Shown` leaves out, beside each number the name its table has
    for it, and the octets themselves if and only if the frame was recognised, else a note.
   */
  lemma DumpReadBack(names: Names, s: seq<byte>)
    requires names.Valid()
    ensures var d := Document(DumpText(names, s));
            && d.Some?
            && Number(Get(d.value, "bytes")) == Some(|s|)
            && FrameOf(d.value) == Shown(Decode(s))
            && AllNamed(names, d.value)
            && RawHexOf(d.value) == (if |s| >= 4 && s[0] == 0x81 then Some(s) else None)
            && (RawHexOf(d.value) == None ==>
                  Child(Inner(d.value), "Error")
                  == Some(Element("Error", [], Text("not a recognizable BACnet/IP (BVLC) frame"))))
  {
    DumpIsDocument(names, s);
    hide DumpText;
    hide Document;
    hide DecodeNpdu;
    var f := Decode(s);
    if f.Bvlc? && f.npdu.Some? {
      DecodedFlagged(s, NpduOffset(s[1]).value);
    }
    FrameBack(names, s, f);
    AllNamedBack(names, s, f);
    ErrorBack(names, s);
    LookupOne("bytes", Decimal(|s|), "bytes");
    ReadNumber(|s|);
    hide FrameOf;
    hide RawHexOf;
    hide Shown;
    hide Number;
    hide MessageElements;
    hide AllNamed;
    hide Child;
  }

  lemma AllNamedBack(names: Names, s: seq<byte>, f: Frame)
    ensures AllNamed(names, MessageElement(names, s, f))
  {
    hide MessageElement;
    hide Child;
    hide NpduElement;
    hide ApduNamed;
    hide ReferenceNamed;
    hide MessageNamed;
    hide AddressShown;
    match f {
      case NotBacnetIp => UnrecognisedLookup(names, s, "NPDU");
      case Bvlc(bvlcFunction, npdu) =>
        MessageLookup(names, s, bvlcFunction, npdu);
        if npdu.Some? {
          NpduNamedBack(names, npdu.value);
        }
    }
  }

  /** The note in place of the content of a frame that is not recognised. */
  lemma ErrorBack(names: Names, s: seq<byte>)
    ensures Child(Inner(MessageElement(names, s, NotBacnetIp)), "Error")
            == Some(Element("Error", [], Text("not a recognizable BACnet/IP (BVLC) frame")))
  {
    hide Child;
    hide UNRECOGNISED;
    UnrecognisedNote();
    ChildOne(ErrorElement(), "Error");
  }

  lemma UnrecognisedNote()
    ensures UNRECOGNISED == "not a recognizable BACnet/IP (BVLC) frame"
  {
  }

  /** A BVLC frame of another type octet: the log keeps its length and nothing of its content. */
  lemma UnrecognisedDump(names: Names)
    requires names.Valid()
    ensures var d := Document(DumpText(names, [0x82, 0x0A, 0, 4]));
            d.Some? && Number(Get(d.value, "bytes")) == Some(4) && RawHexOf(d.value) == None
    ensures DumpText(names, [0x82, 0x0A, 0, 4]) == DumpText(names, [0x83, 0x0B, 0, 4])
  {
    hide Document;
    hide Render;
    DumpReadBack(names, [0x82, 0x0A, 0, 4]);
  }

  // ---- Layout ---------------------------------------------------------------------------------------------------

  lemma Indents()
    ensures Indent(1) == "  " && Indent(2) == "    "
  {
  }

  /** A line that is one element. */
  lemma EmptyLine(e: Element, depth: nat)
    requires e.content.Empty?
    ensures Render(e, depth) == Indent(depth) + ("<" + Inside(e) + "/>\n")
  {
  }

  lemma TextLine(e: Element, depth: nat)
    requires e.content.Text?
    ensures Render(e, depth) == Indent(depth) + ("<" + Inside(e) + (">" + e.content.text + CloseTag(e.name)))
  {
  }

  lemma OneAttributeInside(name: string, key: string, value: string, content: Content)
    ensures Inside(Element(name, [(key, value)], content)) == Tag(name, key, value)
  {
    assert [(key, value)][..0] == [];
    assert Attributes([]) == "";
    assert "" + Attribute(key, value) == Attribute(key, value);
    assert Attributes([(key, value)]) == Attribute(key, value);
  }

  lemma NoAttributeInside(name: string, content: Content)
    ensures Inside(Element(name, [], content)) == name
  {
    assert name + "" == name;
  }

  /** The message element around two others, line by line. */
  lemma MessageLines(e: Element, a: Element, b: Element)
    requires e.content == Children([a, b])
    ensures Render(e, 1)
            == (Indent(1) + ("<" + Inside(e) + ">\n")) + Render(a, 2) + Render(b, 2) + (Indent(1) + CloseTag(e.name))
  {
    hide Indent;
    hide Inside;
    hide CloseTag;
    TwoRendered(a, b, 2);
    LineJoined(Indent(1), Inside(e), Render(a, 2), Render(b, 2), CloseTag(e.name));
    hide RenderAll;
  }

  lemma TwoRendered(a: Element, b: Element, depth: nat)
    ensures RenderAll([a, b], depth) == Render(a, depth) + Render(b, depth)
  {
    assert [a, b][..1] == [a] && [a][..0] == [];
    assert RenderAll([a], depth) == Render(a, depth);
    hide Render;
  }

  lemma LineJoined(indent: string, inside: string, a: string, b: string, close: string)
    ensures indent + ("<" + inside + (">\n" + (a + b) + indent + close))
            == (indent + ("<" + inside + ">\n")) + a + b + (indent + close)
  {
  }

  /** The three parts of a dump line: its indent, what stands in the tag, and what follows it. */
  function DumpLine(indent: string, tag: string, end: string): string {
    indent + ("<" + tag + end)
  }

  /** A tag with one attribute. */
  function Tag(name: string, key: string, value: string): string {
    name + (" " + (key + ("=\"" + (value + "\""))))
  }

  /**
    A whole dump as it is laid out, for every frame whose function carries no NPDU: two more spaces for
    each level, every element on lines of its own.
   */
  lemma DumpLayout(names: Names, s: seq<byte>)
    requires |s| >= 4 && s[0] == 0x81 && s[1] !in {0x04, 0x0A, 0x0B}
    ensures DumpText(names, s)
            == "\n"
               + (DumpLine("  ", Tag("BACnetMessage", "bytes", Decimal(|s|)), ">\n")
                  + DumpLine("    ", Tag("BVLC", "function", "0x" + HexOctet(s[1])), "/>\n")
                  + DumpLine("    ", "RawHex", ">" + Hex(s) + ("</" + "RawHex" + ">\n"))
                  + ("  " + ("</" + "BACnetMessage" + ">\n")))
  {
    hide Indent;
    hide Inside;
    hide Render;
    hide Decimal;
    hide HexOctet;
    hide Hex;
    hide Tag;
    hide Decode;
    var bvlc, raw := BvlcElement(s[1]), RawHexElement(s);
    var message := MessageElement(names, s, Bvlc(s[1], None));
    assert message.content.children == [bvlc, raw];
    DecodedBvlc(s);
    Indents();
    OneAttributeInside("BACnetMessage", "bytes", Decimal(|s|), message.content);
    OneAttributeInside("BVLC", "function", OctetText(s[1]), Empty);
    NoAttributeInside("RawHex", Text(Hex(s)));
    EmptyLine(bvlc, 2);
    TextLine(raw, 2);
    MessageLines(message, bvlc, raw);
  }

  lemma DecodedBvlc(s: seq<byte>)
    requires |s| >= 4 && s[0] == 0x81 && s[1] !in {0x04, 0x0A, 0x0B}
    ensures Decode(s) == Bvlc(s[1], None)
  {
  }
}
