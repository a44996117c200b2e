/**
  The promise that a truncated or malformed frame is summarised as "?": exactly which frames are, and
  exactly when what is shown for a truncated frame differs from what is shown for the whole of it.
 */
module TruncatedSummary {
  import opened Wrappers
  import opened Bytes
  import opened ObjectProperties
  import opened FrameDecoder
  import opened Truncation
  import opened Texts
  import opened NameLookup
  import opened NameTables
  import opened Summary

  // ---- Where the octets are -----------------------------------------------------------------------------

  /** Where the NPDU of a recognised frame starts, if it has a version and a control octet. */
  function NpduStart(s: seq<byte>): (o: Option<nat>)
    ensures o.Some? ==> |s| >= 4 && o.value + 2 <= |s|
  {
    if |s| < 4 || s[0] != 0x81 then None
    else if s[1] in {0x0A, 0x0B} && |s| >= 6 then Some(4)
    else if s[1] == 0x04 && |s| >= 12 then Some(10)
    else None
  }

  /** The octet after an address specifier: two octets of network number, a length octet, the address. */
  function AfterAddress(s: seq<byte>, at: nat): (end: Option<nat>)
    ensures end.Some? ==> at + 3 <= end.value <= |s|
  {
    if at + 3 <= |s| && at + 3 + s[at + 2] <= |s| then Some(at + 3 + s[at + 2]) else None
  }

  /** The first octet of the message or PDU an NPDU carries: after the addresses flagged in it and the hop count. */
  function PayloadOctet(s: seq<byte>, start: nat): (at: Option<nat>)
    requires start + 2 <= |s|
    ensures at.Some? ==> start + 2 <= at.value < |s|
  {
    var dest := s[start + 1] / 0x20 % 2 == 1;
    var afterDest := if dest then AfterAddress(s, start + 2) else Some(start + 2);
    var src := s[start + 1] / 0x08 % 2 == 1;
    var afterSrc := if afterDest.Some? && src then AfterAddress(s, afterDest.value) else afterDest;
    if afterSrc.None? then None
    else
      var at := afterSrc.value + (if dest then 1 else 0);
      if at < |s| then Some(at) else None
  }

  lemma RouteEnd(s: seq<byte>, start: nat)
    requires start + 2 <= |s|
    ensures var at := PayloadOctet(s, start);
            && at.Some? == !DecodeNpdu(s, start).payload.Missing?
            && (at.Some? ==> DecodeRoute(s, start).1.Some? && at.value == PayloadAt(s, start))
            && (at.Some? && !DecodeNpdu(s, start).IsNetworkMessage() ==>
                  DecodeNpdu(s, start).payload == Application(DecodeApdu(s, at.value)))
            && (at.Some? && DecodeNpdu(s, start).IsNetworkMessage() ==>
                  DecodeNpdu(s, start).payload == NetworkMessage(s[at.value]))
    ensures DecodeNpdu(s, start).control == s[start + 1]
  {
    hide DecodeApdu;
    hide BeAt;
  }

  lemma StartDecoded(s: seq<byte>)
    ensures NpduStart(s).Some? <==> Decode(s).Bvlc? && Decode(s).npdu.Some?
    ensures NpduStart(s).Some? ==> Decode(s) == Bvlc(s[1], Some(DecodeNpdu(s, NpduStart(s).value)))
    ensures NpduStart(s).None? ==> Decode(s) == if |s| >= 4 && s[0] == 0x81 then Bvlc(s[1], None) else NotBacnetIp
  {
    hide DecodeNpdu;
  }

  // ---- Which frames are summarised as "?" -----------------------------------------------------------------

  /**
    Not a recognised frame, or one whose NPDU is no network message and either ends before its PDU or
    holds a PDU of an unassigned type without a destination in front of it.
   */
  predicate Unknown(s: seq<byte>) {
    || |s| < 4
    || s[0] != 0x81
    || (NpduStart(s).Some? &&
        var start := NpduStart(s).value;
        var at := PayloadOctet(s, start);
        && s[start + 1] < 0x80
        && (at.None? || (s[at.value] >= 0x80 && s[start + 1] / 0x20 % 2 == 0)))
  }

  lemma LabelledLong(caption: string, kind: string, code: Option<byte>, name: Option<string>)
    ensures |Labelled(caption, kind, code, name)| >= |caption|
  {
  }

  lemma ApduTextLong(names: Names, a: Apdu)
    ensures a.pduType < 8 ==> |ApduText(names, a)| >= 5
    ensures a.pduType >= 8 ==> ApduText(names, a) == "?"
  {
    LabelledLong("ConfirmedRequest", "service", a.serviceChoice, NameOf(names.confirmed, a.serviceChoice));
    LabelledLong("Unconfirmed", "service", a.serviceChoice, NameOf(names.unconfirmed, a.serviceChoice));
    LabelledLong("SimpleACK", "service", a.serviceChoice, NameOf(names.confirmed, a.serviceChoice));
    LabelledLong("ComplexACK", "service", a.serviceChoice, NameOf(names.confirmed, a.serviceChoice));
    LabelledLong("Error", "service", a.serviceChoice, NameOf(names.confirmed, a.serviceChoice));
    LabelledLong("Reject", "reason", a.reason, NameOf(names.reject, a.reason));
    LabelledLong("Abort", "reason", a.reason, NameOf(names.abort, a.reason));
    hide Labelled;
  }

  /** What follows the PDU's own text: object and property, then the route. */
  lemma ApduUnknown(names: Names, s: seq<byte>, at: nat)
    requires at < |s|
    ensures s[at] >= 0x80 ==> BodyText(names, DecodeApdu(s, at)) == "?"
    ensures s[at] < 0x80 ==> |BodyText(names, DecodeApdu(s, at))| >= 5
  {
    hide Read;
    hide ReferenceText;
    ApduTextLong(names, DecodeApdu(s, at));
    hide ApduText;
  }

  /** Main result: the frames summarised as "?", in the log line too, on their octets. */
  lemma UnknownExact(names: Names, s: seq<byte>)
    ensures IdealText(names, Decode(s)) == "?" <==> Unknown(s)
    ensures BoundedText(names, Decode(s), LOG_BUFFER) == "?" <==> Unknown(s)
  {
    hide Decode;
    hide IdealText;
    hide BoundedText;
    hide Unknown;
    BoundedIsPrefix(names, Decode(s), LOG_BUFFER);
    UnknownText(names, s);
  }

  lemma UnknownText(names: Names, s: seq<byte>)
    ensures IdealText(names, Decode(s)) == "?" <==> Unknown(s)
  {
    StartDecoded(s);
    if NpduStart(s).Some? {
      var start := NpduStart(s).value;
      var n, at := DecodeNpdu(s, start), PayloadOctet(s, start);
      RouteEnd(s, start);
      LabelledLong("Network-Layer-Message", "type", Some(n.MessageType()), NetworkMessageName(names, n.MessageType()));
      if at.Some? {
        ApduUnknown(names, s, at.value);
      }
    }
    hide Decode;
    hide DecodeNpdu;
    hide DecodeApdu;
    hide PayloadOctet;
    hide Labelled;
    hide BodyText;
    hide Decimal;
    hide Hex;
  }

  // ---- The text of a network message, word by word ----------------------------------------------------------

  predicate NoSpace(t: string) {
    ' ' !in t
  }

  /** Words are set apart by spaces: a line determines its first word and what follows. */
  lemma FirstWord(a: string, more: string, b: string, rest: string)
    requires NoSpace(a) && NoSpace(b)
    requires (more == "" || more[0] == ' ') && (rest == "" || rest[0] == ' ')
    requires a + more == b + rest
    ensures a == b && more == rest
  {
    var line := a + more;
    assert forall k :: 0 <= k < |a| ==> line[k] == a[k];
    assert forall k :: 0 <= k < |b| ==> line[k] == b[k];
    assert |a| < |line| ==> line[|a|] == more[0];
    assert |b| < |line| ==> line[|b|] == rest[0];
    assert a == line[..|a|] && b == line[..|b|];
    assert more == line[|a|..] && rest == line[|b|..];
  }

  const CAPTION := "Network-Layer-Message: "

  function MessageWord(names: Names, messageType: byte): string {
    var name := NetworkMessageName(names, messageType);
    if name.Some? then name.value else "type=" + Decimal(messageType)
  }

  function RouteWords(n: Npdu): string {
    if n.HasDest() then " DNET=" + (Decimal(n.dnet) + StationWord(n.dadr)) else ""
  }

  function StationWord(dadr: seq<byte>): string {
    if dadr == [] then "" else " DADR=" + Hex(dadr)
  }

  lemma Associate(a: string, b: string, c: string)
    ensures a + b + c == a + (b + c)
  {
  }

  lemma NetworkTextWord(names: Names, n: Npdu)
    ensures NetworkText(names, n) == CAPTION + MessageWord(names, n.MessageType())
  {
    hide Decimal;
    hide NetworkMessageName;
    assert CAPTION == "Network-Layer-Message" + ": ";
    assert "Network-Layer-Message" + ": " + "type" + "=" == CAPTION + "type=";
    Associate(CAPTION, "type=", Decimal(n.MessageType()));
  }

  lemma RouteTextWords(n: Npdu)
    ensures RouteText(n) + (if n.HasDest() then Hex(n.dadr) else "") == RouteWords(n)
  {
    hide Decimal;
    if n.HasDest() {
      var station := if n.dadr != [] then " DADR=" else "";
      Associate(" DNET=", Decimal(n.dnet), station);
      Associate(" DNET=", Decimal(n.dnet) + station, Hex(n.dadr));
      Associate(Decimal(n.dnet), station, Hex(n.dadr));
      assert station + Hex(n.dadr) == StationWord(n.dadr);
    }
  }

  lemma NetworkWords(names: Names, bvlcFunction: byte, n: Npdu)
    requires n.IsNetworkMessage()
    ensures IdealText(names, Bvlc(bvlcFunction, Some(n)))
            == CAPTION + (MessageWord(names, n.MessageType()) + RouteWords(n))
  {
    NoDigits();
    NetworkTextWord(names, n);
    RouteTextWords(n);
    hide NetworkText;
    hide RouteText;
    hide RouteWords;
    hide MessageWord;
    hide Hex;
    var word, digits := MessageWord(names, n.MessageType()), if n.HasDest() then Hex(n.dadr) else "";
    Associate(CAPTION, word, RouteText(n));
    Associate(CAPTION, word + RouteText(n), digits);
    Associate(word, RouteText(n), digits);
  }

  lemma NoDigits()
    ensures Hex([]) == ""
  {
  }

  lemma PlainNoSpace(t: string)
    requires Plain(t)
    ensures NoSpace(t)
  {
  }

  lemma NumberWords(m: nat, n: nat)
    ensures NoSpace(Decimal(m))
    ensures Decimal(m) == Decimal(n) ==> m == n
  {
    DecimalPlain(m);
    PlainNoSpace(Decimal(m));
    DecimalRoundTrip(m);
    DecimalRoundTrip(n);
  }

  /** A name has no `=`, no two messages share one, and numbers are read back, so the word tells the type. */
  lemma MessageWordTells(names: Names, t: byte, u: byte)
    requires names.Valid()
    ensures NoSpace(MessageWord(names, t))
    ensures MessageWord(names, t) == MessageWord(names, u) ==> t == u
  {
    NumberWords(t, u);
    NumberWords(u, t);
    NumberWord(t);
    NumberWord(u);
    if t in names.network && u !in names.network {
      assert '=' !in MessageWord(names, t) && MessageWord(names, u)[4] == '=';
    }
    if u in names.network && t !in names.network {
      assert '=' !in MessageWord(names, u) && MessageWord(names, t)[4] == '=';
    }
    hide Decimal;
  }

  lemma NumberWord(t: byte)
    ensures ("type=" + Decimal(t))[4] == '=' && ("type=" + Decimal(t))[5..] == Decimal(t)
  {
    hide Decimal;
  }

  lemma StationTells(a: seq<byte>, b: seq<byte>)
    ensures StationWord(a) == "" || StationWord(a)[0] == ' '
    ensures StationWord(a) == StationWord(b) ==> a == b
  {
    HexRoundTrip(a);
    HexRoundTrip(b);
    assert a != [] ==> StationWord(a)[6..] == Hex(a);
    assert b != [] ==> StationWord(b)[6..] == Hex(b);
  }

  lemma RouteTells(a: Npdu, b: Npdu)
    requires a.HasDest() == b.HasDest()
    ensures RouteWords(a) == "" || RouteWords(a)[0] == ' '
    ensures RouteWords(a) == RouteWords(b) ==> !a.HasDest() || (a.dnet == b.dnet && a.dadr == b.dadr)
  {
    hide Decimal;
    hide StationWord;
    if a.HasDest() && RouteWords(a) == RouteWords(b) {
      assert RouteWords(a)[6..] == Decimal(a.dnet) + StationWord(a.dadr);
      assert RouteWords(b)[6..] == Decimal(b.dnet) + StationWord(b.dadr);
      NumberWords(a.dnet, b.dnet);
      NumberWords(b.dnet, a.dnet);
      StationTells(a.dadr, b.dadr);
      StationTells(b.dadr, a.dadr);
      FirstWord(Decimal(a.dnet), StationWord(a.dadr), Decimal(b.dnet), StationWord(b.dadr));
    }
  }

  /** Two network messages with the same flags are summarised alike exactly when type and destination agree. */
  lemma NetworkTextTells(names: Names, f: byte, a: Npdu, g: byte, b: Npdu)
    requires names.Valid()
    requires a.control == b.control && a.IsNetworkMessage()
    ensures IdealText(names, Bvlc(f, Some(a))) == IdealText(names, Bvlc(g, Some(b)))
       <==> a.MessageType() == b.MessageType() && (a.HasDest() ==> a.dnet == b.dnet && a.dadr == b.dadr)
  {
    hide IdealText;
    hide MessageWord;
    NetworkWords(names, f, a);
    NetworkWords(names, g, b);
    RouteTells(a, b);
    RouteTells(b, a);
    MessageWordTells(names, a.MessageType(), b.MessageType());
    MessageWordTells(names, b.MessageType(), a.MessageType());
    hide RouteWords;
    if IdealText(names, Bvlc(f, Some(a))) == IdealText(names, Bvlc(g, Some(b))) {
      FrontCancels(CAPTION, MessageWord(names, a.MessageType()) + RouteWords(a),
                   MessageWord(names, b.MessageType()) + RouteWords(b));
      FirstWord(MessageWord(names, a.MessageType()), RouteWords(a), MessageWord(names, b.MessageType()), RouteWords(b));
    }
    if a.MessageType() == b.MessageType() && (a.HasDest() ==> a.dnet == b.dnet && a.dadr == b.dadr) {
      SameRoute(a, b);
    }
  }

  lemma SameRoute(a: Npdu, b: Npdu)
    requires a.HasDest() == b.HasDest() && (a.HasDest() ==> a.dnet == b.dnet && a.dadr == b.dadr)
    ensures RouteWords(a) == RouteWords(b)
  {
  }

  lemma FrontCancels(front: string, a: string, b: string)
    requires front + a == front + b
    ensures a == b
  {
    assert a == (front + a)[|front|..] && b == (front + b)[|front|..];
  }

  // ---- What a truncated network message is shown as ---------------------------------------------------------

  /** A whole network message: all its octets up to the message type are there. */
  predicate IsMessage(s: seq<byte>) {
    NpduStart(s).Some? && PayloadOctet(s, NpduStart(s).value).Some? && s[NpduStart(s).value + 1] >= 0x80
  }

  /**
    Cut to this length, the message still shows its type, its DNET and its DADR: each is inside, or is
    what the decoder reports when it is not, 0 or nothing.
   */
  predicate CutHarmless(s: seq<byte>, cut: nat)
    requires IsMessage(s)
  {
    var start := NpduStart(s).value;
    var at := PayloadOctet(s, start).value;
    && start + 2 <= cut
    && (at < cut || s[at] == 0)
    && (s[start + 1] / 0x20 % 2 == 1 ==>
          && (start + 5 <= cut || (s[start + 2] == 0 && s[start + 3] == 0))
          && (start + 5 + s[start + 4] <= cut || s[start + 4] == 0))
  }

  /** The destination a prefix reports. */
  lemma DestinationExact(p: seq<byte>, s: seq<byte>, start: nat)
    requires p <= s && start + 2 <= |p|
    requires s[start + 1] / 0x20 % 2 == 1 && AfterAddress(s, start + 2).Some?
    ensures var a, b := DecodeNpdu(p, start), DecodeNpdu(s, start);
            && b.dnet == s[start + 2] as int * 0x100 + s[start + 3]
            && |b.dadr| == s[start + 4]
            && a.dnet == (if start + 5 <= |p| then b.dnet else 0)
            && a.dadr == (if start + 5 + s[start + 4] <= |p| then b.dadr else [])
  {
    hide DecodeApdu;
    hide BeAt;
    KeepsReadAddress(p, s, start + 2, true);
    BeAtUnrolled(s, start + 2);
    assert DecodeNpdu(p, start).HasDest();
  }

  lemma CutStart(p: seq<byte>, s: seq<byte>)
    requires p <= s && NpduStart(s).Some?
    ensures NpduStart(p) == if NpduStart(s).value + 2 <= |p| then NpduStart(s) else None
    ensures |p| < 4 ==> Decode(p) == NotBacnetIp
    ensures 4 <= |p| < NpduStart(s).value + 2 ==> Decode(p) == Bvlc(s[1], None)
  {
    StartDecoded(p);
    hide DecodeNpdu;
  }

  lemma ShortTexts(names: Names, bvlcFunction: byte, f: Frame)
    requires f == NotBacnetIp || f == Bvlc(bvlcFunction, None)
    ensures |IdealText(names, f)| < 17 || IdealText(names, f)[0] == 'B'
    ensures IdealText(names, NotBacnetIp) == "?"
    ensures IdealText(names, Bvlc(bvlcFunction, None)) == "BVLC function=0x" + HexOctet(bvlcFunction)
  {
  }

  lemma MessageTextStart(names: Names, bvlcFunction: byte, n: Npdu)
    requires n.IsNetworkMessage()
    ensures var t := IdealText(names, Bvlc(bvlcFunction, Some(n))); |t| > 17 && t[0] == 'N'
  {
    NetworkWords(names, bvlcFunction, n);
    hide MessageWord;
    hide RouteWords;
    hide IdealText;
  }

  /**
    Main result: for every cut of every network message, what is shown differs from what is shown for
    the whole of it exactly when the cut takes octets away that mattered, and it is "?" only for the
    first three octets.
   */
  lemma CutMessageExact(names: Names, p: seq<byte>, s: seq<byte>)
    requires names.Valid()
    requires p <= s && IsMessage(s)
    ensures IdealText(names, Decode(p)) == IdealText(names, Decode(s)) <==> CutHarmless(s, |p|)
    ensures IdealText(names, Decode(p)) == "?" <==> |p| < 4
    ensures 4 <= |p| < NpduStart(s).value + 2 ==>
              IdealText(names, Decode(p)) == "BVLC function=0x" + HexOctet(s[1])
  {
    hide IdealText;
    hide Decode;
    hide DecodeNpdu;
    hide PayloadOctet;
    var start := NpduStart(s).value;
    StartDecoded(s);
    StartDecoded(p);
    CutStart(p, s);
    RouteEnd(s, start);
    MessageTextStart(names, s[1], DecodeNpdu(s, start));
    ShortTexts(names, s[1], NotBacnetIp);
    ShortTexts(names, s[1], Bvlc(s[1], None));
    if start + 2 <= |p| {
      CutMessageNpdu(names, p, s);
      MessageTextStart(names, s[1], DecodeNpdu(p, start));
    }
  }

  lemma CutMessageNpdu(names: Names, p: seq<byte>, s: seq<byte>)
    requires names.Valid()
    requires p <= s && IsMessage(s) && NpduStart(s).value + 2 <= |p|
    ensures var start := NpduStart(s).value;
            && DecodeNpdu(p, start).IsNetworkMessage()
            && (IdealText(names, Bvlc(s[1], Some(DecodeNpdu(p, start))))
                == IdealText(names, Bvlc(s[1], Some(DecodeNpdu(s, start))))
                <==> CutHarmless(s, |p|))
  {
    hide IdealText;
    hide DecodeNpdu;
    hide DecodeRoute;
    hide PayloadAt;
    var start := NpduStart(s).value;
    var a, b := DecodeNpdu(p, start), DecodeNpdu(s, start);
    RouteEnd(s, start);
    RouteEnd(p, start);
    MessageTypeExact(p, s, start);
    NetworkTextTells(names, s[1], a, s[1], b);
    if s[start + 1] / 0x20 % 2 == 1 {
      DestinationExact(p, s, start);
    }
  }

  // ---- What a truncated PDU is shown as -----------------------------------------------------------------------

  /** A PDU that a network message is not: its first octet is there. */
  predicate IsPdu(s: seq<byte>) {
    NpduStart(s).Some? && PayloadOctet(s, NpduStart(s).value).Some? && s[NpduStart(s).value + 1] < 0x80
  }

  lemma LabelledPrefix(caption: string, kind: string, code: Option<byte>, name: Option<string>)
    ensures Labelled(caption, kind, None, None) <= Labelled(caption, kind, code, name)
    ensures code.Some? ==> |Labelled(caption, kind, None, None)| < |Labelled(caption, kind, code, name)|
  {
  }

  /** Which codes go with which PDU types. */
  predicate WellCoded(a: Apdu) {
    && (a.serviceChoice.Some? ==> a.pduType in {0, 1, 2, 3, 5})
    && (a.reason.Some? ==> a.pduType in {6, 7})
  }

  lemma DecodedWellCoded(s: seq<byte>, at: nat)
    requires at < |s|
    ensures WellCoded(DecodeApdu(s, at)) && WellRangedApdu(DecodeApdu(s, at))
  {
    hide Read;
  }

  lemma ApduTextPrefix(names: Names, a: Apdu, b: Apdu)
    requires KeepsApdu(a, b) && WellCoded(b)
    ensures ApduText(names, a) <= ApduText(names, b)
    ensures |ApduText(names, a)| == |ApduText(names, b)| <==> a.serviceChoice == b.serviceChoice && a.reason == b.reason
  {
    LabelledPrefix("ConfirmedRequest", "service", b.serviceChoice, NameOf(names.confirmed, b.serviceChoice));
    LabelledPrefix("Unconfirmed", "service", b.serviceChoice, NameOf(names.unconfirmed, b.serviceChoice));
    LabelledPrefix("SimpleACK", "service", b.serviceChoice, NameOf(names.confirmed, b.serviceChoice));
    LabelledPrefix("ComplexACK", "service", b.serviceChoice, NameOf(names.confirmed, b.serviceChoice));
    LabelledPrefix("Error", "service", b.serviceChoice, NameOf(names.confirmed, b.serviceChoice));
    LabelledPrefix("Reject", "reason", b.reason, NameOf(names.reject, b.reason));
    LabelledPrefix("Abort", "reason", b.reason, NameOf(names.abort, b.reason));
    hide Labelled;
  }

  lemma ReferencePrefix(typeName: Option<string>, propertyName: Option<string>, a: ObjectProperty, b: ObjectProperty)
    requires Extends(Some(a), Some(b))
    ensures ReferenceText(typeName, propertyName, a) <= ReferenceText(typeName, propertyName, b)
    ensures |ReferenceText(typeName, propertyName, a)| == |ReferenceText(typeName, propertyName, b)| <==> a == b
    ensures |ReferenceText(typeName, propertyName, a)| > 0
  {
    hide Decimal;
    var plain := ReferenceText(typeName, propertyName, a.(arrayIndex := None));
    assert plain == ReferenceText(typeName, propertyName, b.(arrayIndex := None));
  }

  /** A PDU of which less is reported is shown by a prefix of its text, and by all of it only if all is reported. */
  lemma BodyPrefix(names: Names, a: Apdu, b: Apdu)
    requires KeepsApdu(a, b) && WellRangedApdu(a) && WellCoded(b) && WellCoded(a)
    ensures BodyText(names, a) <= BodyText(names, b)
    ensures BodyText(names, a) == BodyText(names, b)
       <==> a.serviceChoice == b.serviceChoice && a.reason == b.reason && a.reference == b.reference
  {
    hide ApduText;
    hide ReferenceText;
    hide Scan;
    ApduTextPrefix(names, a, b);
    if b.reference.Some? {
      var op := b.reference.value;
      var typeName, propertyName := Scan(names.objectTypes, op.objectType), Scan(names.properties, op.propertyId);
      if a.reference.Some? {
        ReferencePrefix(typeName, propertyName, a.reference.value, op);
      } else {
        ReferencePrefix(typeName, propertyName, op, op);
      }
    }
  }

  lemma PduWords(names: Names, bvlcFunction: byte, n: Npdu)
    requires !n.IsNetworkMessage() && n.payload.Application?
    ensures IdealText(names, Bvlc(bvlcFunction, Some(n))) == BodyText(names, n.payload.apdu) + RouteWords(n)
  {
    NoDigits();
    RouteTextWords(n);
    hide RouteText;
    hide RouteWords;
    hide BodyText;
    hide Hex;
    Associate(BodyText(names, n.payload.apdu), RouteText(n), if n.HasDest() then Hex(n.dadr) else "");
  }

  /**
    Main result: a cut PDU is never shown as something it is not. The line is "?", or the BVLC function
    when not even the NPDU has started, or the whole line with its body cut to a prefix and its route
    complete; and it is the whole line only if everything the whole frame reports is still reported.
   */
  lemma CutPduExact(names: Names, p: seq<byte>, s: seq<byte>)
    requires p <= s && IsPdu(s)
    ensures var start := NpduStart(s).value;
            var at := PayloadOctet(s, start).value;
            var n, shown := DecodeNpdu(s, start), IdealText(names, Decode(p));
            && (|p| < 4 || start + 2 <= |p| <= at ==> shown == "?")
            && (4 <= |p| < start + 2 ==> shown == "BVLC function=0x" + HexOctet(s[1]))
            && (at < |p| ==>
                  var a, b := DecodeApdu(p, at), DecodeApdu(s, at);
                  && IdealText(names, Decode(s)) == BodyText(names, b) + RouteWords(n)
                  && shown == BodyText(names, a) + RouteWords(n)
                  && BodyText(names, a) <= BodyText(names, b)
                  && (shown == IdealText(names, Decode(s))
                      <==> a.serviceChoice == b.serviceChoice && a.reason == b.reason && a.reference == b.reference))
  {
    var start := NpduStart(s).value;
    var at := PayloadOctet(s, start).value;
    StartDecoded(s);
    StartDecoded(p);
    CutStart(p, s);
    ShortTexts(names, s[1], NotBacnetIp);
    ShortTexts(names, s[1], Bvlc(s[1], None));
    if start + 2 <= |p| {
      CutPduNpdu(p, s);
      if at < |p| {
        PduWords(names, s[1], DecodeNpdu(s, start));
        PduWords(names, s[1], DecodeNpdu(p, start));
        SameRoute(DecodeNpdu(s, start), DecodeNpdu(p, start));
        KeepsDecodeApdu(p, s, at);
        DecodedWellCoded(p, at);
        DecodedWellCoded(s, at);
        BodyPrefix(names, DecodeApdu(p, at), DecodeApdu(s, at));
      }
    }
    hide Decode;
    hide DecodeNpdu;
    hide DecodeApdu;
    hide PayloadOctet;
    hide BodyText;
    hide RouteWords;
    hide KeepsApdu;
  }

  lemma CutPduNpdu(p: seq<byte>, s: seq<byte>)
    requires p <= s && IsPdu(s) && NpduStart(s).value + 2 <= |p|
    ensures var start := NpduStart(s).value;
            var at := PayloadOctet(s, start).value;
            var a, b := DecodeNpdu(p, start), DecodeNpdu(s, start);
            && !a.IsNetworkMessage() && b.payload == Application(DecodeApdu(s, at))
            && (|p| <= at ==> a.payload == Missing)
            && (at < |p| ==> a == b.(payload := Application(DecodeApdu(p, at))))
  {
    hide DecodeApdu;
    hide DecodeRoute;
    var start := NpduStart(s).value;
    RouteEnd(s, start);
    RouteEnd(p, start);
    KeepsDecodeRoute(p, s, start);
  }

  // ---- One frame for each kind of cut -----------------------------------------------------------------------------

  /** A text of a network message with these fields. */
  function MessageLine(names: Names, messageType: byte, route: string): string {
    CAPTION + (MessageWord(names, messageType) + route)
  }

  function SmallRoute(n: Npdu): string {
    (if n.dnet == 0 then " DNET=0" else " DNET=5") + (if n.dadr == [] then "" else " DADR=09")
  }

  lemma RouteFive(n: Npdu)
    requires n.HasDest() && n.dnet in {0, 5} && n.dadr in [[], [9]]
    ensures RouteWords(n) == SmallRoute(n)
  {
    assert Decimal(0) == "0" && Decimal(5) == "5";
    assert [9][..0] == [] && Hex([9]) == HexOctet(9) == "09";
    hide Decimal;
    hide Hex;
    if n.dnet == 0 {
      Associate(" DNET=", "0", StationWord(n.dadr));
    } else {
      Associate(" DNET=", "5", StationWord(n.dadr));
    }
  }

  /** Without its type octet, an I-Am-Router-To-Network (1) is shown as message type 0. */
  lemma TypeCut(names: Names)
    requires names.Valid()
    ensures var s := [0x81, 0x0B, 0, 9, 1, 0x80, 1, 0, 2];
            && IdealText(names, Decode(s[..6])) == MessageLine(names, 0, "")
            && IdealText(names, Decode(s)) == MessageLine(names, 1, "")
            && IdealText(names, Decode(s[..6])) != IdealText(names, Decode(s))
  {
    var s: seq<byte> := [0x81, 0x0B, 0, 9, 1, 0x80, 1, 0, 2];
    assert s[..6] == [0x81, 0x0B, 0, 9, 1, 0x80];
    var whole, cut := Npdu(1, 0x80, 0, [], 0, [], NetworkMessage(1)), Npdu(1, 0x80, 0, [], 0, [], Missing);
    assert Decode(s) == Bvlc(0x0B, Some(whole));
    assert Decode(s[..6]) == Bvlc(0x0B, Some(cut));
    NetworkWords(names, 0x0B, whole);
    NetworkWords(names, 0x0B, cut);
    NetworkTextTells(names, 0x0B, cut, 0x0B, whole);
    hide Decode;
    hide IdealText;
    hide MessageWord;
    hide RouteWords;
  }

  lemma DecodedToNetwork()
    ensures Decode([0x81, 0x0B, 0, 11, 1, 0xA0, 0, 5, 0, 255, 0])
            == Bvlc(0x0B, Some(Npdu(1, 0xA0, 5, [], 0, [], NetworkMessage(0))))
    ensures Decode([0x81, 0x0B, 0, 11, 1, 0xA0]) == Bvlc(0x0B, Some(Npdu(1, 0xA0, 0, [], 0, [], Missing)))
  {
    var s: seq<byte> := [0x81, 0x0B, 0, 11, 1, 0xA0, 0, 5, 0, 255, 0];
    BeAtUnrolled(s, 6);
    assert s[9..9] == [];
    assert ReadAddress(s, 6) == AddressField(5, [], Some(9));
    hide ReadAddress;
    hide DecodeApdu;
    hide BeAt;
    NoAddressYet([0x81, 0x0B, 0, 11, 1, 0xA0], 6);
  }

  lemma NoAddressYet(s: seq<byte>, at: nat)
    requires at + 3 > |s|
    ensures ReadAddress(s, at) == AddressField(0, [], None)
  {
  }

  /** Without its destination octets, a Who-Is-Router-To-Network (0) to network 5 is shown with DNET=0. */
  lemma DnetCut(names: Names)
    requires names.Valid()
    ensures var s := [0x81, 0x0B, 0, 11, 1, 0xA0, 0, 5, 0, 255, 0];
            && IdealText(names, Decode(s[..6])) == MessageLine(names, 0, " DNET=0")
            && IdealText(names, Decode(s)) == MessageLine(names, 0, " DNET=5")
            && IdealText(names, Decode(s[..6])) != IdealText(names, Decode(s))
  {
    hide Decode;
    hide IdealText;
    hide MessageWord;
    hide RouteWords;
    var s: seq<byte> := [0x81, 0x0B, 0, 11, 1, 0xA0, 0, 5, 0, 255, 0];
    assert s[..6] == [0x81, 0x0B, 0, 11, 1, 0xA0];
    DecodedToNetwork();
    MessageLinesDiffer(names, Npdu(1, 0xA0, 5, [], 0, [], NetworkMessage(0)), Npdu(1, 0xA0, 0, [], 0, [], Missing));
  }

  /** The lines of two messages of type 0 to different destinations. */
  lemma MessageLinesDiffer(names: Names, a: Npdu, b: Npdu)
    requires names.Valid() && a.control == 0xA0 && b.control == 0xA0
    requires a.MessageType() == b.MessageType() == 0 && (a.dnet != b.dnet || a.dadr != b.dadr)
    requires a.dnet in {0, 5} && a.dadr in [[], [9]] && b.dnet in {0, 5} && b.dadr in [[], [9]]
    ensures IdealText(names, Bvlc(0x0B, Some(a))) != IdealText(names, Bvlc(0x0B, Some(b)))
    ensures IdealText(names, Bvlc(0x0B, Some(a))) == MessageLine(names, 0, SmallRoute(a))
    ensures IdealText(names, Bvlc(0x0B, Some(b))) == MessageLine(names, 0, SmallRoute(b))
  {
    hide IdealText;
    hide MessageWord;
    hide RouteWords;
    RouteFive(a);
    RouteFive(b);
    NetworkWords(names, 0x0B, a);
    NetworkWords(names, 0x0B, b);
    NetworkTextTells(names, 0x0B, a, 0x0B, b);
  }

  lemma DecodedToStation()
    ensures Decode([0x81, 0x0B, 0, 12, 1, 0xA0, 0, 5, 1, 9, 255, 0])
            == Bvlc(0x0B, Some(Npdu(1, 0xA0, 5, [9], 0, [], NetworkMessage(0))))
  {
    var s: seq<byte> := [0x81, 0x0B, 0, 12, 1, 0xA0, 0, 5, 1, 9, 255, 0];
    BeAtUnrolled(s, 6);
    assert s[9..10] == [9];
    assert ReadAddress(s, 6) == AddressField(5, [9], Some(10));
    hide ReadAddress;
    hide DecodeApdu;
    hide BeAt;
  }

  lemma DecodedWithoutStation()
    ensures Decode([0x81, 0x0B, 0, 12, 1, 0xA0, 0, 5, 1]) == Bvlc(0x0B, Some(Npdu(1, 0xA0, 5, [], 0, [], Missing)))
  {
    var s: seq<byte> := [0x81, 0x0B, 0, 12, 1, 0xA0, 0, 5, 1];
    BeAtUnrolled(s, 6);
    assert ReadAddress(s, 6) == AddressField(5, [], None);
    hide ReadAddress;
    hide DecodeApdu;
    hide BeAt;
  }

  /** With only the station address cut, the message is shown without one. */
  lemma DadrCut(names: Names)
    requires names.Valid()
    ensures var s := [0x81, 0x0B, 0, 12, 1, 0xA0, 0, 5, 1, 9, 255, 0];
            && IdealText(names, Decode(s[..9])) == MessageLine(names, 0, " DNET=5")
            && IdealText(names, Decode(s)) == MessageLine(names, 0, " DNET=5 DADR=09")
            && IdealText(names, Decode(s[..9])) != IdealText(names, Decode(s))
  {
    hide Decode;
    hide IdealText;
    hide MessageWord;
    hide RouteWords;
    var s: seq<byte> := [0x81, 0x0B, 0, 12, 1, 0xA0, 0, 5, 1, 9, 255, 0];
    assert s[..9] == [0x81, 0x0B, 0, 12, 1, 0xA0, 0, 5, 1];
    DecodedToStation();
    DecodedWithoutStation();
    MessageLinesDiffer(names, Npdu(1, 0xA0, 5, [9], 0, [], NetworkMessage(0)), Npdu(1, 0xA0, 5, [], 0, [], Missing));
    assert " DNET=5" + " DADR=09" == " DNET=5 DADR=09";
  }

  /** Cut before its control octet, a frame is shown by its BVLC function. */
  lemma BvlcCut(names: Names)
    ensures IdealText(names, Decode([0x81, 0x0A, 0, 20, 1])) == "BVLC function=0x0A"
  {
    assert Decode([0x81, 0x0A, 0, 20, 1]) == Bvlc(0x0A, None);
  }

  /** Cut after its first octet, a request is shown by the type of PDU alone. */
  lemma PduCut(names: Names)
    ensures IdealText(names, Decode([0x81, 0x0A, 0, 17, 1, 4, 0])) == "ConfirmedRequest"
  {
    var apdu := Apdu(0, false, None, None, None, None);
    assert Decode([0x81, 0x0A, 0, 17, 1, 4, 0]) == Bvlc(0x0A, Some(Npdu(1, 4, 0, [], 0, [], Application(apdu))));
    assert BodyText(names, apdu) == "ConfirmedRequest";
    hide Decode;
    hide BodyText;
  }
}
