/** The method that prints the XML dump piece by piece, proved against `XmlDump.DumpText`. */
module XmlPrinter {
  import opened Wrappers
  import opened Bytes
  import opened ObjectProperties
  import opened FrameDecoder
  import opened Texts
  import opened NameLookup
  import opened NameTables
  import opened Summary
  import opened Xml
  import opened XmlDump

  /** An element whose start tag is still open for more attributes. */
  function Opened(depth: nat, name: string, attributes: seq<(string, string)>): string {
    Indent(depth) + "<" + name + Attributes(attributes)
  }

  lemma OpenedMore(depth: nat, name: string, attributes: seq<(string, string)>, key: string, value: string)
    ensures Opened(depth, name, attributes) + Attribute(key, value) == Opened(depth, name, attributes + [(key, value)])
  {
    var more := attributes + [(key, value)];
    assert more[..|more| - 1] == attributes;
    hide Indent;
    hide Attribute;
    var a, b := Indent(depth) + "<" + name, Attributes(attributes);
    assert a + b + Attribute(key, value) == a + (b + Attribute(key, value));
  }

  lemma OpenedFirst(depth: nat, name: string)
    ensures Indent(depth) + "<" + name == Opened(depth, name, [])
  {
  }

  lemma SelfClosed(depth: nat, name: string, attributes: seq<(string, string)>)
    ensures Opened(depth, name, attributes) + "/>\n" == Render(Element(name, attributes, Empty), depth)
  {
    hide Indent;
    hide Attributes;
  }

  lemma Parent(depth: nat, name: string, attributes: seq<(string, string)>, children: seq<Element>)
    ensures Opened(depth, name, attributes) + ">\n" + RenderAll(children, depth + 1) + Indent(depth) + CloseTag(name)
            == Render(Element(name, attributes, Children(children)), depth)
  {
    hide Indent;
    hide Attributes;
    hide RenderAll;
    hide CloseTag;
    var e := Element(name, attributes, Children(children));
    var open, body := Opened(depth, name, attributes), RenderAll(children, depth + 1);
    assert open == Indent(depth) + ("<" + Inside(e));
    Regroup(Indent(depth), "<" + Inside(e), ">\n", body, Indent(depth), CloseTag(name));
  }

  lemma Regroup(a: string, b: string, c: string, d: string, e: string, f: string)
    ensures (a + b) + c + d + e + f == a + (b + (c + d + e + f))
  {
  }

  lemma RenderOneMore(es: seq<Element>, e: Element, depth: nat)
    ensures RenderAll(es + [e], depth) == RenderAll(es, depth) + Render(e, depth)
  {
    assert (es + [e])[..|es|] == es;
  }

  /** Appending one printed child to what has been printed of its parent. */
  lemma ChildPrinted(start: string, es: seq<Element>, e: Element, depth: nat)
    ensures start + RenderAll(es, depth) + Render(e, depth) == start + RenderAll(es + [e], depth)
  {
    RenderOneMore(es, e, depth);
    hide Render;
    hide RenderAll;
    assert start + RenderAll(es, depth) + Render(e, depth) == start + (RenderAll(es, depth) + Render(e, depth));
  }

  method PrintHex(s: seq<byte>) returns (t: string)
    ensures t == Hex(s)
  {
    t := "";
    for i := 0 to |s|
      invariant t == Hex(s[..i])
    {
      assert s[..i + 1][..i] == s[..i];
      t := t + HexOctet(s[i]);
    }
    assert s[..|s|] == s;
  }

  method PrintAttribute(printed: string, key: string, value: string, ghost depth: nat, ghost name: string,
                        ghost attributes: seq<(string, string)>)
    returns (t: string)
    requires printed == Opened(depth, name, attributes)
    ensures t == Opened(depth, name, attributes + [(key, value)])
  {
    t := printed + Attribute(key, value);
    OpenedMore(depth, name, attributes, key, value);
  }

  /** A code and, when the table has it, its name. */
  method PrintCoded(printed: string, key: string, nameKey: string, code: Option<byte>, codeName: Option<string>,
                    ghost depth: nat, ghost name: string, ghost attributes: seq<(string, string)>)
    returns (t: string)
    requires printed == Opened(depth, name, attributes)
    ensures t == Opened(depth, name, attributes + Coded(key, nameKey, code, codeName))
  {
    hide Opened;
    t := printed;
    if code.Some? {
      t := PrintAttribute(t, key, Decimal(code.value), depth, name, attributes);
      if codeName.Some? {
        t := PrintAttribute(t, nameKey, codeName.value, depth, name, attributes + [(key, Decimal(code.value))]);
        assert attributes + [(key, Decimal(code.value))] + [(nameKey, codeName.value)]
               == attributes + Coded(key, nameKey, code, codeName);
      } else {
        assert attributes + [(key, Decimal(code.value))] == attributes + Coded(key, nameKey, code, codeName);
      }
    } else {
      assert attributes + Coded(key, nameKey, code, codeName) == attributes;
    }
  }

  method PrintStart(depth: nat, name: string, key: string, value: string) returns (t: string)
    ensures t == Opened(depth, name, [(key, value)])
  {
    OpenedFirst(depth, name);
    OpenedMore(depth, name, [], key, value);
    assert [] + [(key, value)] == [(key, value)];
    t := Indent(depth) + "<" + name + Attribute(key, value);
  }

  method PrintAddress(name: string, net: nat, mac: seq<byte>) returns (t: string)
    ensures t == Render(AddressElement(name, net, mac), 3)
  {
    hide Opened;
    hide Render;
    t := PrintStart(3, name, "net", Decimal(net));
    ghost var attributes := [("net", Decimal(net))];
    if mac != [] {
      var digits := PrintHex(mac);
      t := PrintAttribute(t, "mac", digits, 3, name, attributes);
      attributes := attributes + [("mac", digits)];
    }
    t := t + "/>\n";
    SelfClosed(3, name, attributes);
    assert AddressElement(name, net, mac).attributes == attributes;
  }

  method PrintNamed(printed: string, key: string, value: Option<string>, ghost depth: nat, ghost name: string,
                    ghost attributes: seq<(string, string)>)
    returns (t: string)
    requires printed == Opened(depth, name, attributes)
    ensures t == Opened(depth, name, attributes + Named(key, value))
  {
    t := printed;
    if value.Some? {
      t := PrintAttribute(t, key, value.value, depth, name, attributes);
    } else {
      assert attributes + Named(key, value) == attributes;
    }
  }

  method PrintNetworkMessage(names: Names, messageType: byte) returns (t: string)
    ensures t == Render(NetworkElement(names, messageType), 3)
  {
    hide Opened;
    hide Render;
    var name := NetworkMessageName(names, messageType);
    t := PrintStart(3, "NetworkLayerMessage", "type", Decimal(messageType));
    t := PrintNamed(t, "name", name, 3, "NetworkLayerMessage", [("type", Decimal(messageType))]);
    t := t + "/>\n";
    SelfClosed(3, "NetworkLayerMessage", [("type", Decimal(messageType))] + Named("name", name));
  }

  method PrintObject(names: Names, op: ObjectProperty) returns (t: string)
    requires names.Valid()
    ensures t == Render(ObjectElement(names, op), 4)
  {
    hide Opened;
    hide Render;
    var typeName := LookUpIdName(names.objectTypes, op.objectType);
    t := PrintStart(4, "Object", "type", Decimal(op.objectType));
    ghost var attributes := [("type", Decimal(op.objectType))];
    t := PrintNamed(t, "typeName", typeName, 4, "Object", attributes);
    attributes := attributes + Named("typeName", typeName);
    t := PrintAttribute(t, "instance", Decimal(op.objectInstance), 4, "Object", attributes);
    attributes := attributes + [("instance", Decimal(op.objectInstance))];
    t := t + "/>\n";
    SelfClosed(4, "Object", attributes);
    assert attributes == ObjectElement(names, op).attributes;
  }

  method PrintProperty(names: Names, op: ObjectProperty) returns (t: string)
    requires names.Valid()
    ensures t == Render(PropertyElement(names, op), 4)
  {
    hide Opened;
    hide Render;
    var propertyName := LookUpIdName(names.properties, op.propertyId);
    t := PrintStart(4, "Property", "id", Decimal(op.propertyId));
    ghost var attributes := [("id", Decimal(op.propertyId))];
    t := PrintNamed(t, "name", propertyName, 4, "Property", attributes);
    attributes := attributes + Named("name", propertyName);
    t := t + "/>\n";
    SelfClosed(4, "Property", attributes);
    assert PropertyElement(names, op) == Element("Property", attributes, Empty);
  }

  method PrintReference(names: Names, op: ObjectProperty) returns (t: string)
    requires names.Valid()
    ensures t == RenderAll(ReferenceElements(names, op), 4)
  {
    hide Opened;
    hide Render;
    hide RenderAll;
    hide ObjectElement;
    hide PropertyElement;
    t := PrintObject(names, op);
    var prop := PrintProperty(names, op);
    t := t + prop;
    ghost var es := [ObjectElement(names, op), PropertyElement(names, op)];
    RenderTwo(es[0], es[1], 4);
    assert t == RenderAll(es, 4);
    if op.arrayIndex.Some? {
      ghost var indexElement := IndexElement(op.arrayIndex.value);
      var index := PrintStart(4, "ArrayIndex", "value", Decimal(op.arrayIndex.value));
      SelfClosed(4, "ArrayIndex", indexElement.attributes);
      index := index + "/>\n";
      t := t + index;
      RenderOneMore(es, indexElement, 4);
      assert ReferenceElements(names, op) == es + [indexElement];
    } else {
      assert ReferenceElements(names, op) == es;
    }
  }

  lemma RenderTwo(a: Element, b: Element, depth: nat)
    ensures RenderAll([a, b], depth) == Render(a, depth) + Render(b, depth)
  {
    RenderOneMore([], a, depth);
    RenderOneMore([a], b, depth);
    assert [] + [a] == [a] && [a] + [b] == [a, b];
    assert RenderAll([], depth) == "";
    hide Render;
    hide RenderAll;
  }

  method PrintApdu(names: Names, d: DecodedFrame, ghost a: Apdu) returns (t: string)
    requires names.Valid() && d.ShowsApdu(a)
    ensures t == Render(ApduElement(names, a), 3)
  {
    hide Opened;
    hide Render;
    hide RenderAll;
    hide Coded;
    var pduTypeName := if d.pduType < 8 then PDU_TYPE_NAMES[d.pduType] else "Unknown";
    t := PrintStart(3, "APDU", "type", pduTypeName);
    ghost var attributes := [("type", pduTypeName)];
    t := PrintCoded(t, "invokeId", "", d.invokeId, None, 3, "APDU", attributes);
    attributes := attributes + Coded("invokeId", "", d.invokeId, None);
    var serviceName := NameOf(if d.pduType == 1 then names.unconfirmed else names.confirmed, d.serviceChoice);
    t := PrintCoded(t, "service", "serviceName", d.serviceChoice, serviceName, 3, "APDU", attributes);
    attributes := attributes + Coded("service", "serviceName", d.serviceChoice, serviceName);
    var reasonName := NameOf(if d.pduType == 6 then names.reject else names.abort, d.reason);
    t := PrintCoded(t, "reason", "reasonName", d.reason, reasonName, 3, "APDU", attributes);
    attributes := attributes + Coded("reason", "reasonName", d.reason, reasonName);
    assert attributes == ApduAttributes(names, a);
    if d.Reference() == None {
      t := t + "/>\n";
      SelfClosed(3, "APDU", attributes);
    } else {
      t := t + ">\n";
      var inner := PrintReference(names, d.Reference().value);
      t := t + inner;
      t := t + Indent(3) + CloseTag("APDU");
      Parent(3, "APDU", attributes, ReferenceElements(names, a.reference.value));
    }
  }

  method PrintNpdu(names: Names, d: DecodedFrame, ghost n: Npdu) returns (t: string)
    requires names.Valid() && d.ShowsNpdu(n)
    ensures t == Render(NpduElement(names, n), 2)
  {
    hide Opened;
    hide Render;
    hide RenderAll;
    hide AddressElement;
    hide NetworkElement;
    hide ApduElement;
    t := PrintStart(2, "NPDU", "version", Decimal(d.npduVersion));
    ghost var version := [("version", Decimal(d.npduVersion))];
    t := PrintAttribute(t, "control", OctetText(d.npduControl), 2, "NPDU", version);
    ghost var attributes := version + [("control", OctetText(d.npduControl))];
    t := t + ">\n";
    ghost var start := t;
    ghost var es: seq<Element> := [];
    StartsEmpty(start, 3);
    if d.hasDest {
      var child := PrintAddress("Destination", d.dnet, d.dadr);
      t := t + child;
      ChildPrinted(start, es, AddressElement("Destination", n.dnet, n.dadr), 3);
      es := es + [AddressElement("Destination", n.dnet, n.dadr)];
    }
    if d.hasSrc {
      var child := PrintAddress("Source", d.snet, d.sadr);
      t := t + child;
      ChildPrinted(start, es, AddressElement("Source", n.snet, n.sadr), 3);
      es := es + [AddressElement("Source", n.snet, n.sadr)];
    }
    assert es == RouteElements(n);
    if d.isNetworkMessage {
      var child := PrintNetworkMessage(names, d.networkMessageType);
      t := t + child;
      ChildPrinted(start, es, NetworkElement(names, n.MessageType()), 3);
    } else if d.hasApdu {
      var child := PrintApdu(names, d, n.payload.apdu);
      t := t + child;
      ChildPrinted(start, es, ApduElement(names, n.payload.apdu), 3);
    } else {
      assert es + [] == es;
    }
    es := es + PayloadElements(names, n);
    assert t == start + RenderAll(es, 3);
    t := t + Indent(2) + CloseTag("NPDU");
    Parent(2, "NPDU", attributes, es);
    assert attributes == NpduElement(names, n).attributes;
  }

  lemma StartsEmpty(start: string, depth: nat)
    ensures start + RenderAll([], depth) == start
  {
  }

  lemma LeafText(depth: nat, name: string, text: string)
    ensures Indent(depth) + "<" + name + ">" + text + CloseTag(name) == Render(Element(name, [], Text(text)), depth)
  {
    hide Indent;
    hide CloseTag;
    var e := Element(name, [], Text(text));
    assert name + "" == name;
    assert Indent(depth) + "<" + name + ">" + text + CloseTag(name)
           == Indent(depth) + ("<" + name + (">" + text + CloseTag(name)));
  }

  /** The dump of a frame is the text of its tree: what the log shows when XML logging is on. */
  method PrintFrameAsXml(names: Names, frame: seq<byte>) returns (t: string)
    requires names.Valid() && |frame| <= 0xFFFF
    ensures t == DumpText(names, frame)
  {
    hide Decode;
    hide Opened;
    hide Render;
    hide RenderAll;
    hide NpduElement;
    var d := new DecodedFrame();
    DecodeBacnetFrame(frame, d);
    ghost var f := Decode(frame);
    t := PrintStart(1, "BACnetMessage", "bytes", Decimal(|frame|));
    ghost var attributes := [("bytes", Decimal(|frame|))];
    t := t + ">\n";
    ghost var start := t;
    ghost var es: seq<Element> := [];
    StartsEmpty(start, 2);
    if !d.bacnetIp {
      LeafText(2, "Error", UNRECOGNISED);
      t := t + (Indent(2) + "<" + "Error" + ">" + UNRECOGNISED + CloseTag("Error"));
      ChildPrinted(start, es, ErrorElement(), 2);
      es := es + [ErrorElement()];
    } else {
      ghost var bvlc := BvlcElement(d.bvlcFunction);
      var child := PrintStart(2, "BVLC", "function", OctetText(d.bvlcFunction));
      SelfClosed(2, "BVLC", bvlc.attributes);
      t := t + (child + "/>\n");
      ChildPrinted(start, es, bvlc, 2);
      es := es + [bvlc];
      if d.hasNpdu {
        child := PrintNpdu(names, d, f.npdu.value);
        t := t + child;
        ChildPrinted(start, es, NpduElement(names, f.npdu.value), 2);
        es := es + [NpduElement(names, f.npdu.value)];
      }
      var digits := PrintHex(frame);
      LeafText(2, "RawHex", digits);
      t := t + (Indent(2) + "<" + "RawHex" + ">" + digits + CloseTag("RawHex"));
      ChildPrinted(start, es, RawHexElement(frame), 2);
      es := es + [RawHexElement(frame)];
    }
    assert es == MessageElements(names, frame, f);
    t := t + Indent(1) + CloseTag("BACnetMessage");
    Parent(1, "BACnetMessage", attributes, es);
    t := "\n" + t;
  }
}
