/** The method that writes the one-line summary, proved against `Summary.BoundedText`. */
module SummaryPrinter {
  import opened Wrappers
  import opened Bytes
  import opened ObjectProperties
  import opened FrameDecoder
  import opened Texts
  import opened CStrings
  import opened NameLookup
  import opened NameTables
  import opened Summary

  // ---- The texts contain no NUL -------------------------------------------------------------------

  predicate NoNul(t: string) {
    '\0' !in t
  }

  lemma PlainNoNul(t: string)
    requires Plain(t)
    ensures NoNul(t)
  {
  }

  lemma LabelledNoNul(caption: string, kind: string, code: Option<byte>, name: Option<string>)
    requires NoNul(caption) && NoNul(kind) && (name.Some? ==> NoNul(name.value))
    ensures NoNul(Labelled(caption, kind, code, name))
  {
    if code.Some? {
      DecimalPlain(code.value);
      PlainNoNul(Decimal(code.value));
    }
  }

  lemma ReferenceNoNul(typeName: Option<string>, propertyName: Option<string>, op: ObjectProperty)
    requires typeName.Some? ==> NoNul(typeName.value)
    requires propertyName.Some? ==> NoNul(propertyName.value)
    ensures NoNul(ReferenceText(typeName, propertyName, op))
  {
    DecimalNoNul(op.objectType);
    DecimalNoNul(op.objectInstance);
    DecimalNoNul(op.propertyId);
    if op.arrayIndex.Some? {
      DecimalNoNul(op.arrayIndex.value);
    }
  }

  lemma DecimalNoNul(n: nat)
    ensures NoNul(Decimal(n))
  {
    DecimalPlain(n);
  }

  // ---- The printers -------------------------------------------------------------------------------

  /** The three-way `snprintf` choice repeated for every PDU type. */
  method PrintLabelled(buffer: array<char>, caption: string, kind: string, code: Option<byte>, name: Option<string>)
    requires Holds(buffer[..], "")
    requires NoNul(caption) && NoNul(kind) && (name.Some? ==> NoNul(name.value))
    modifies buffer
    ensures Holds(buffer[..], Clip(Labelled(caption, kind, code, name), buffer.Length))
  {
    LabelledNoNul(caption, kind, code, name);
    var text: string;
    if code.None? {
      text := caption;
    } else if name.Some? {
      text := caption + ": " + name.value;
    } else {
      text := caption + ": " + kind + "=" + Decimal(code.value);
    }
    assert "" + text == text;
    Snprintf(buffer, 0, text, "");
  }

  /** `%02X` per octet while two characters and the NUL still fit. */
  method AppendHex(buffer: array<char>, data: seq<byte>, ghost before: string)
    requires Holds(buffer[..], before)
    modifies buffer
    ensures Holds(buffer[..], before + Hex(HexThatFits(|before|, buffer.Length, data)))
  {
    var used := StrLen(buffer, before);
    var i := 0;
    assert before + Hex(data[..0]) == before;
    while i < |data| && used + 2 < buffer.Length
      invariant 0 <= i <= |data|
      invariant used == |before| + 2 * i < buffer.Length
      invariant Holds(buffer[..], before + Hex(data[..i]))
    {
      var text := HexOctet(data[i]);
      HexPlain([data[i]]);
      assert Hex([data[i]]) == [] + text by {
        assert [data[i]][..0] == [];
      }
      assert NoNul(text);
      Snprintf(buffer, used, text, before + Hex(data[..i]));
      assert data[..i + 1][..i] == data[..i];
      assert before + Hex(data[..i]) + text == before + Hex(data[..i + 1]);
      used := used + 2;
      i := i + 1;
    }
    assert i == Min(|data|, (buffer.Length - 1 - |before|) / 2);
  }

  /** " DNET=<n>[ DADR=<hex>]", nothing without a destination specifier. */
  method AppendRouteSuffix(buffer: array<char>, d: DecodedFrame, ghost n: Npdu, ghost before: string)
    requires d.hasDest == n.HasDest() && d.dnet == n.dnet && d.dadr == n.dadr
    requires buffer.Length > 0 && Holds(buffer[..], Clip(before, buffer.Length))
    modifies buffer
    ensures var head := Clip(before + RouteText(n), buffer.Length);
            Holds(buffer[..], head + Hex(HexThatFits(|head|, buffer.Length, if n.HasDest() then n.dadr else [])))
  {
    hide Hex;
    hide Decimal;
    hide Holds;
    if !d.hasDest {
      assert before + RouteText(n) == before;
      NoHexNeeded(Clip(before, buffer.Length), buffer.Length);
      return;
    }
    DecimalNoNul(n.dnet);
    var used := StrLen(buffer, Clip(before, buffer.Length));
    var dnetText := " DNET=" + Decimal(d.dnet);
    Snprintf(buffer, used, dnetText, Clip(before, buffer.Length));
    ClipNested(before, dnetText, buffer.Length);
    ghost var head := before + dnetText;
    if d.dadr != [] {
      used := StrLen(buffer, Clip(head, buffer.Length));
      Snprintf(buffer, used, " DADR=", Clip(head, buffer.Length));
      ClipNested(head, " DADR=", buffer.Length);
      assert head + " DADR=" == before + RouteText(n);
      AppendHex(buffer, d.dadr, Clip(before + RouteText(n), buffer.Length));
    } else {
      assert head == before + RouteText(n);
      NoHexNeeded(Clip(head, buffer.Length), buffer.Length);
    }
  }

  lemma NoHexNeeded(t: string, capacity: nat)
    requires |t| < capacity
    ensures t + Hex(HexThatFits(|t|, capacity, [])) == t
  {
  }

  /** The switch over PDU types. */
  method PrintApdu(names: Names, d: DecodedFrame, buffer: array<char>, ghost a: Apdu)
    requires names.Valid() && d.ShowsApdu(a)
    requires Holds(buffer[..], "")
    modifies buffer
    ensures Holds(buffer[..], Clip(ApduText(names, a), buffer.Length))
  {
    hide Labelled;
    hide Plain;
    var service, reason := d.serviceChoice, d.reason;
    NamesNoNul(names, a);
    match d.pduType {
      case 0 => PrintLabelled(buffer, "ConfirmedRequest", "service", service, NameOf(names.confirmed, service));
      case 1 => PrintLabelled(buffer, "Unconfirmed", "service", service, NameOf(names.unconfirmed, service));
      case 2 => PrintLabelled(buffer, "SimpleACK", "service", service, NameOf(names.confirmed, service));
      case 3 => PrintLabelled(buffer, "ComplexACK", "service", service, NameOf(names.confirmed, service));
      case 4 => PrintText(buffer, "SegmentACK");
      case 5 => PrintLabelled(buffer, "Error", "service", service, NameOf(names.confirmed, service));
      case 6 => PrintLabelled(buffer, "Reject", "reason", reason, NameOf(names.reject, reason));
      case 7 => PrintLabelled(buffer, "Abort", "reason", reason, NameOf(names.abort, reason));
      case _ => PrintText(buffer, "?");
    }
  }

  method PrintText(buffer: array<char>, text: string)
    requires Holds(buffer[..], "") && NoNul(text)
    modifies buffer
    ensures Holds(buffer[..], Clip(text, buffer.Length))
  {
    assert "" + text == text;
    Snprintf(buffer, 0, text, "");
  }

  lemma NamesNoNul(names: Names, a: Apdu)
    requires names.Valid()
    ensures forall code, list :: list in [names.confirmed, names.unconfirmed, names.reject, names.abort]
              ==> NameOf(list, code).Some? ==> NoNul(NameOf(list, code).value)
  {
  }

  const BODY_BUFFER := 128

  /** The body buffer: the PDU text, then the object and property if the frame has them. It never truncates. */
  method PrintBody(names: Names, d: DecodedFrame, ghost a: Apdu) returns (body: array<char>)
    requires names.Valid() && WellRangedApdu(a) && d.ShowsApdu(a)
    ensures fresh(body) && Holds(body[..], BodyText(names, a))
  {
    hide ApduText;
    hide ReferenceText;
    hide Plain;
    BodyNeverTruncated(names, a);
    body := new char[BODY_BUFFER];
    body[0] := '\0';
    assert Holds(body[..], "");
    PrintApdu(names, d, body, a);
    assert |ApduText(names, a)| <= |BodyText(names, a)|;
    if d.Reference().Some? {
      var op := d.Reference().value;
      var typeName := LookUpIdName(names.objectTypes, op.objectType);
      var propertyName := LookUpIdName(names.properties, op.propertyId);
      ScanSize(names.objectTypes, op.objectType, 22);
      ScanSize(names.properties, op.propertyId, 35);
      ScanNoNul(typeName, propertyName);
      ReferenceNoNul(typeName, propertyName, op);
      var used := StrLen(body, ApduText(names, a));
      Snprintf(body, used, ReferenceText(typeName, propertyName, op), ApduText(names, a));
    } else {
      assert ApduText(names, a) == BodyText(names, a);
    }
  }

  lemma ScanNoNul(typeName: Option<string>, propertyName: Option<string>)
    requires typeName.Some? ==> Plain(typeName.value)
    requires propertyName.Some? ==> Plain(propertyName.value)
    ensures typeName.Some? ==> NoNul(typeName.value)
    ensures propertyName.Some? ==> NoNul(propertyName.value)
  {
  }

  /**
    For every frame and every buffer of at least one character the buffer ends up holding the bounded
    text, NUL-terminated; a NULL or empty buffer is left alone.
   */
  method SummarizeBacnetFrame(names: Names, frame: seq<byte>, outSummary: array?<char>)
    requires names.Valid() && |frame| <= 0xFFFF
    modifies outSummary
    ensures outSummary != null && outSummary.Length > 0 ==>
              Holds(outSummary[..], BoundedText(names, Decode(frame), outSummary.Length))
  {
    hide Decode;
    hide Labelled;
    hide RouteText;
    hide BodyText;
    hide Plain;
    if outSummary == null || outSummary.Length == 0 {
      return;
    }
    outSummary[0] := '\0';
    assert Holds(outSummary[..], "");
    var d := new DecodedFrame();
    DecodeBacnetFrame(frame, d);
    ghost var f := Decode(frame);
    DecodedWellRanged(frame);
    if !d.bacnetIp {
      PrintText(outSummary, "?");
      NoDigits(names, f, outSummary.Length);
      return;
    }
    if !d.hasNpdu {
      HexNoNul(d.bvlcFunction);
      PrintText(outSummary, "BVLC function=0x" + HexOctet(d.bvlcFunction));
      NoDigits(names, f, outSummary.Length);
      return;
    }
    ghost var n := f.npdu.value;
    if d.isNetworkMessage {
      var name := NetworkMessageName(names, d.networkMessageType);
      NetworkNoNul(names, d.networkMessageType);
      PrintLabelled(outSummary, "Network-Layer-Message", "type", Some(d.networkMessageType), name);
      AppendRouteSuffix(outSummary, d, n, NetworkText(names, n));
      return;
    }
    if !d.hasApdu {
      PrintText(outSummary, "?");
      NoDigits(names, f, outSummary.Length);
      return;
    }
    ghost var a := n.payload.apdu;
    var body := PrintBody(names, d, a);
    var length := StrLen(body, BodyText(names, a));
    var text := body[..length];
    assert text == BodyText(names, a);
    PrintText(outSummary, text);
    AppendRouteSuffix(outSummary, d, n, BodyText(names, a));
  }

  lemma NoDigits(names: Names, f: Frame, capacity: nat)
    requires capacity > 0 && RouteOctets(f) == []
    ensures BoundedText(names, f, capacity) == Clip(HeadText(names, f), capacity)
  {
  }

  lemma HexNoNul(b: byte)
    ensures NoNul("BVLC function=0x" + HexOctet(b))
  {
  }

  lemma NetworkNoNul(names: Names, messageType: byte)
    requires names.Valid()
    ensures NetworkMessageName(names, messageType).Some? ==> NoNul(NetworkMessageName(names, messageType).value)
  {
  }
}
