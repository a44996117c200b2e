/**
  The frames ANSI/ASHRAE 135 lets a sender produce: BVLL (Annex J.2), NPCI (Clause 6.2.2) and the
  APDUs of Clause 20.1, with the octets of each; and the round trip through the decoder.
 */
module FrameEncoding {
  import opened Wrappers
  import opened Bytes
  import opened TagHeaders
  import opened ObjectProperties
  import opened FrameDecoder

  /** The BVLL messages that carry an NPDU the decoder walks. */
  datatype Link = OriginalUnicast | OriginalBroadcast | Forwarded(origin: seq<byte>)

  datatype Address = Address(net: nat, mac: seq<byte>)

  datatype Message = Message(
    link: Link,
    dest: Option<Address>,
    hopCount: byte,
    src: Option<Address>,
    expectingReply: bool,
    priority: nat,
    body: Body)

  datatype Body = NetworkLayer(messageType: byte, data: seq<byte>) | ApplicationLayer(pdu: Pdu)

  datatype Segment = Segment(moreFollows: bool, sequence: byte, window: byte)

  /** Service parameters: a whole object/property reference, or octets the model does not look into. */
  datatype Service =
    | Referencing(choice: byte, op: ObjectProperty, value: seq<byte>)
    | Other(choice: byte, data: seq<byte>)

  datatype Pdu =
    | ConfirmedRequest(
        segment: Option<Segment>, segmentedAccepted: bool, limits: byte, invokeId: byte, service: Service)
    | UnconfirmedRequest(choice: byte, data: seq<byte>)
    | SimpleAck(invokeId: byte, choice: byte)
    | ComplexAck(segment: Option<Segment>, invokeId: byte, service: Service)
    | SegmentAck(negative: bool, server: bool, invokeId: byte, sequence: byte, window: byte)
    | Error(invokeId: byte, choice: byte, data: seq<byte>)
    | Reject(invokeId: byte, reason: byte)
    | Abort(server: bool, invokeId: byte, reason: byte)

  // ---- Octets -----------------------------------------------------------------------------------

  function Bit(b: bool, weight: nat): nat {
    if b then weight else 0
  }

  predicate ValidAddress(a: Option<Address>) {
    a.Some? ==> a.value.net < 0x1_0000 && |a.value.mac| <= 0xFF
  }

  function EncodeAddress(a: Option<Address>): seq<byte>
    requires ValidAddress(a)
  {
    if a.None? then [] else [a.value.net / 0x100, a.value.net % 0x100, |a.value.mac|] + a.value.mac
  }

  function EncodeSegment(segment: Option<Segment>): seq<byte> {
    if segment.None? then [] else [segment.value.sequence, segment.value.window]
  }

  function SegmentBits(segment: Option<Segment>): (b: nat)
    ensures b <= 12
  {
    if segment.None? then 0 else 8 + Bit(segment.value.moreFollows, 4)
  }

  /** ReadProperty and WriteProperty requests, and the ReadProperty acknowledgement, open with a reference. */
  predicate ValidService(service: Service, choices: set<byte>) {
    service.Referencing? ==>
      && service.choice in choices
      && service.op.Valid()
      && (service.value == [] || service.value[0] == OPENING_TAG_3)
  }

  predicate ValidPdu(pdu: Pdu) {
    && (pdu.ConfirmedRequest? ==> ValidService(pdu.service, {12, 15}))
    && (pdu.ComplexAck? ==> ValidService(pdu.service, {12}))
  }

  function EncodeService(service: Service): seq<byte>
    requires service.Referencing? ==> service.op.Valid()
  {
    [service.choice] + (if service.Referencing? then Prescribed(service.op).Encode() + service.value else service.data)
  }

  function EncodePdu(pdu: Pdu): (e: seq<byte>)
    requires ValidPdu(pdu)
    ensures e != []
  {
    match pdu
    case ConfirmedRequest(segment, accepted, limits, invokeId, service) =>
      [SegmentBits(segment) + Bit(accepted, 2), limits, invokeId] + EncodeSegment(segment) + EncodeService(service)
    case UnconfirmedRequest(choice, data) => [0x10, choice] + data
    case SimpleAck(invokeId, choice) => [0x20, invokeId, choice]
    case ComplexAck(segment, invokeId, service) =>
      [0x30 + SegmentBits(segment), invokeId] + EncodeSegment(segment) + EncodeService(service)
    case SegmentAck(negative, server, invokeId, sequence, window) =>
      [0x40 + Bit(negative, 2) + Bit(server, 1), invokeId, sequence, window]
    case Error(invokeId, choice, data) => [0x50, invokeId, choice] + data
    case Reject(invokeId, reason) => [0x60, invokeId, reason]
    case Abort(server, invokeId, reason) => [0x70 + Bit(server, 1), invokeId, reason]
  }

  predicate ValidParts(m: Message) {
    && (m.link.Forwarded? ==> |m.link.origin| == 6)
    && ValidAddress(m.dest) && ValidAddress(m.src)
    && m.priority < 4
    && (m.body.ApplicationLayer? ==> ValidPdu(m.body.pdu))
  }

  function Control(m: Message): byte
    requires ValidParts(m)
  {
    Bit(m.body.NetworkLayer?, 0x80) + Bit(m.dest.Some?, 0x20) + Bit(m.src.Some?, 0x08) + Bit(m.expectingReply, 4)
    + m.priority
  }

  function EncodeBody(body: Body): (e: seq<byte>)
    requires body.ApplicationLayer? ==> ValidPdu(body.pdu)
    ensures e != []
  {
    match body
    case NetworkLayer(messageType, data) => [messageType] + data
    case ApplicationLayer(pdu) => EncodePdu(pdu)
  }

  /** What follows the addresses: the hop count accompanies a DNET, then the payload. */
  function EncodeTail(m: Message): seq<byte>
    requires ValidParts(m)
  {
    (if m.dest.Some? then [m.hopCount] else []) + EncodeBody(m.body)
  }

  function EncodeNpdu(m: Message): seq<byte>
    requires ValidParts(m)
  {
    [0x01, Control(m)] + (EncodeAddress(m.dest) + (EncodeAddress(m.src) + EncodeTail(m)))
  }

  function LinkOctets(link: Link): seq<byte> {
    if link.Forwarded? then link.origin else []
  }

  function LinkFunction(link: Link): byte {
    match link
    case OriginalUnicast => 0x0A
    case OriginalBroadcast => 0x0B
    case Forwarded(_) => 0x04
  }

  /** The two-octet BVLC length covers the whole datagram. */
  predicate Valid(m: Message) {
    ValidParts(m) && 4 + |LinkOctets(m.link)| + |EncodeNpdu(m)| <= 0xFFFF
  }

  function Encode(m: Message): seq<byte>
    requires Valid(m)
  {
    var length := 4 + |LinkOctets(m.link)| + |EncodeNpdu(m)|;
    [0x81, LinkFunction(m.link), length / 0x100, length % 0x100] + LinkOctets(m.link) + EncodeNpdu(m)
  }

  // ---- What the decoder has to recover ----------------------------------------------------------

  function Reference(service: Service, choices: set<byte>): Option<ObjectProperty> {
    match service
    case Referencing(_, op, _) => Some(op)
    case Other(choice, data) => if choice in choices then Read(data, 0) else None
  }

  function Contents(pdu: Pdu): Apdu {
    match pdu
    case ConfirmedRequest(segment, _, _, invokeId, service) =>
      Apdu(0, segment.Some?, Some(invokeId), Some(service.choice), None, Reference(service, {12, 15}))
    case UnconfirmedRequest(choice, _) => Apdu(1, false, None, Some(choice), None, None)
    case SimpleAck(invokeId, choice) => Apdu(2, false, Some(invokeId), Some(choice), None, None)
    case ComplexAck(segment, invokeId, service) =>
      Apdu(3, segment.Some?, Some(invokeId), Some(service.choice), None, Reference(service, {12}))
    case SegmentAck(_, _, _, _, _) => Apdu(4, false, None, None, None, None)
    case Error(invokeId, choice, _) => Apdu(5, false, Some(invokeId), Some(choice), None, None)
    case Reject(invokeId, reason) => Apdu(6, false, Some(invokeId), None, Some(reason), None)
    case Abort(_, invokeId, reason) => Apdu(7, false, Some(invokeId), None, Some(reason), None)
  }

  function Expected(m: Message): Frame
    requires ValidParts(m)
  {
    Bvlc(LinkFunction(m.link), Some(Npdu(
      1, Control(m),
      if m.dest.Some? then m.dest.value.net else 0, if m.dest.Some? then m.dest.value.mac else [],
      if m.src.Some? then m.src.value.net else 0, if m.src.Some? then m.src.value.mac else [],
      match m.body
      case NetworkLayer(messageType, _) => NetworkMessage(messageType)
      case ApplicationLayer(pdu) => Application(Contents(pdu)))))
  }

  // ---- Round trip -------------------------------------------------------------------------------

  lemma AddressRoundTrip(s: seq<byte>, offset: nat, a: Option<Address>, rest: seq<byte>)
    requires ValidAddress(a) && offset <= |s| && s[offset..] == EncodeAddress(a) + rest
    ensures var r := ReadOptionalAddress(s, offset, a.Some?);
            && r.net == (if a.Some? then a.value.net else 0)
            && r.mac == (if a.Some? then a.value.mac else [])
            && r.next.Some? && s[r.next.value..] == rest
  {
    if a.None? {
      assert EncodeAddress(a) + rest == rest;
    } else {
      var mac := a.value.mac;
      var head: seq<byte> := [a.value.net / 0x100, a.value.net % 0x100, |mac|];
      assert EncodeAddress(a) + rest == head + (mac + rest);
      SuffixParts(s, offset, head, mac + rest);
      SuffixParts(s, offset + 3, mac, rest);
      assert s[offset] == head[0] && s[offset + 1] == head[1] && s[offset + 2] == head[2];
      AddressThere(s, offset, a.value.net, mac);
      hide ReadAddress;
      hide At;
    }
  }

  /** An address specifier whose parts stand at the cursor is read whole. */
  lemma AddressThere(s: seq<byte>, offset: nat, net: nat, mac: seq<byte>)
    requires offset + 3 <= |s| && |mac| <= 0xFF && At(s, offset + 3, mac)
    requires s[offset] as int * 0x100 + s[offset + 1] == net && s[offset + 2] == |mac|
    ensures ReadAddress(s, offset) == AddressField(net, mac, Some(offset + 3 + |mac|))
  {
    BeAtUnrolled(s, offset);
    hide BeAt;
  }

  lemma ServiceRoundTrip(s: seq<byte>, at: nat, service: Service, choices: set<byte>)
    requires ValidService(service, choices) && at <= |s| && s[at..] == EncodeService(service)
    ensures at < |s| && s[at] == service.choice
    ensures (if service.choice in choices then Read(s, at + 1) else None) == Reference(service, choices)
  {
    hide Read;
    assert s[at] == s[at..][0];
    assert s[at + 1..] == s[at..][1..];
    match service
    case Referencing(_, op, value) => PrescribedRoundTrip(s, at + 1, op, value);
    case Other(_, data) => assert s[at + 1..] == data; ReadSuffix(s, at + 1);
  }

  lemma PduRoundTrip(s: seq<byte>, at: nat, pdu: Pdu)
    requires ValidPdu(pdu) && at <= |s| && s[at..] == EncodePdu(pdu)
    ensures at < |s| && DecodeApdu(s, at) == Contents(pdu)
  {
    hide Read;
    hide EncodeService;
    var tail := s[at..];
    assert s[at] == tail[0];
    match pdu
    case ConfirmedRequest(segment, accepted, limits, invokeId, service) =>
      var k := if segment.Some? then 5 else 3;
      assert tail[k..] == EncodeService(service);
      assert s[at + k..] == tail[k..];
      assert s[at + 2] == tail[2] == invokeId;
      ServiceRoundTrip(s, at + k, service, {12, 15});
    case ComplexAck(segment, invokeId, service) =>
      var k := if segment.Some? then 4 else 2;
      assert tail[k..] == EncodeService(service);
      assert s[at + k..] == tail[k..];
      assert s[at + 1] == tail[1] == invokeId;
      ServiceRoundTrip(s, at + k, service, {12});
    case UnconfirmedRequest(choice, _) =>
      assert s[at + 1] == tail[1];
    case SegmentAck(_, _, _, _, _) =>
    case _ =>
      assert s[at + 1] == tail[1] && s[at + 2] == tail[2];
  }

  /** The control octet of Clause 6.2.2 keeps its flags apart. */
  lemma ControlFlags(m: Message)
    requires ValidParts(m)
    ensures Control(m) / 0x80 % 2 == Bit(m.body.NetworkLayer?, 1)
    ensures Control(m) / 0x20 % 2 == Bit(m.dest.Some?, 1)
    ensures Control(m) / 0x08 % 2 == Bit(m.src.Some?, 1)
  {
  }

  lemma RouteRoundTrip(s: seq<byte>, offset: nat, m: Message)
    requires ValidParts(m) && offset <= |s| && s[offset..] == EncodeNpdu(m)
    ensures offset + 2 <= |s|
    ensures var (npdu, end) := DecodeRoute(s, offset);
            && Expected(m) == Bvlc(LinkFunction(m.link), Some(npdu.(payload := Expected(m).npdu.value.payload)))
            && end.Some? && s[end.value..] == EncodeTail(m)
            && npdu.HasDest() == m.dest.Some? && npdu.IsNetworkMessage() == m.body.NetworkLayer?
  {
    hide EncodeAddress;
    hide EncodeTail;
    hide ReadOptionalAddress;
    hide Contents;
    hide Control;
    var tail := s[offset..];
    assert s[offset] == tail[0] && s[offset + 1] == tail[1];
    ControlFlags(m);
    assert s[offset + 2..] == tail[2..] == EncodeAddress(m.dest) + (EncodeAddress(m.src) + EncodeTail(m));
    AddressRoundTrip(s, offset + 2, m.dest, EncodeAddress(m.src) + EncodeTail(m));
    var afterDest := ReadOptionalAddress(s, offset + 2, m.dest.Some?).next.value;
    AddressRoundTrip(s, afterDest, m.src, EncodeTail(m));
  }

  /** What the decoder makes of the octets after the addresses. */
  lemma BodyRoundTrip(s: seq<byte>, end: nat, m: Message)
    requires ValidParts(m) && end <= |s| && s[end..] == EncodeTail(m)
    ensures var at := end + (if m.dest.Some? then 1 else 0);
            && at < |s|
            && Expected(m).npdu.value.payload ==
               (if m.body.NetworkLayer? then NetworkMessage(s[at]) else Application(DecodeApdu(s, at)))
  {
    hide DecodeApdu;
    hide EncodePdu;
    hide Contents;
    hide Control;
    var at := end + (if m.dest.Some? then 1 else 0);
    assert s[at..] == s[end..][at - end..] == EncodeBody(m.body);
    assert s[at] == s[at..][0];
    if m.body.ApplicationLayer? {
      PduRoundTrip(s, at, m.body.pdu);
    }
  }

  lemma NpduRoundTrip(s: seq<byte>, offset: nat, m: Message)
    requires ValidParts(m) && offset <= |s| && s[offset..] == EncodeNpdu(m)
    ensures offset + 2 <= |s| && Expected(m) == Bvlc(LinkFunction(m.link), Some(DecodeNpdu(s, offset)))
  {
    hide DecodeApdu;
    hide DecodeRoute;
    hide EncodeTail;
    hide EncodeNpdu;
    hide Expected;
    RouteRoundTrip(s, offset, m);
    BodyRoundTrip(s, DecodeRoute(s, offset).1.value, m);
  }

  /**
    Main result: every frame the standard lets a sender produce is decoded to what it says, whatever
    addresses, hop count, segment fields and property value it carries.
   */
  lemma FrameRoundTrip(m: Message)
    requires Valid(m)
    ensures |Encode(m)| <= 0xFFFF && Decode(Encode(m)) == Expected(m)
  {
    hide DecodeNpdu;
    hide EncodeNpdu;
    hide Expected;
    var s := Encode(m);
    var offset := 4 + |LinkOctets(m.link)|;
    assert s[offset..] == EncodeNpdu(m);
    NpduRoundTrip(s, offset, m);
  }

  /** A later segment of a ReadProperty or WriteProperty request or of a ReadProperty acknowledgement. */
  predicate IsLaterSegment(pdu: Pdu) {
    && (pdu.ConfirmedRequest? || pdu.ComplexAck?)
    && pdu.segment.Some? && pdu.segment.value.sequence > 0
    && pdu.service.Other?
    && (pdu.service.choice == 12 || (pdu.ConfirmedRequest? && pdu.service.choice == 15))
  }

  /**
    A later segment carries no reference, but the decoder ignores the sequence number. It stays silent
    exactly when the fragment does not open like a reference.
   */
  lemma LaterSegment(m: Message)
    requires Valid(m) && m.body.ApplicationLayer? && IsLaterSegment(m.body.pdu)
    ensures Decode(Encode(m)) == Expected(m)
    ensures Contents(m.body.pdu).reference == None
       <==> !exists w: Writing :: w.Valid() && At(m.body.pdu.service.data, 0, w.Head())
  {
    hide Decode;
    hide Encode;
    hide Expected;
    FrameRoundTrip(m);
    ReadWritingIffGrammar(m.body.pdu.service.data, 0);
  }

  /** Seven octets that open like a reference to Analog Input 0, Present_Value. */
  const LOOKALIKE: seq<byte> := [0x0C, 0, 0, 0, 0, 0x19, 85]

  const OBJECT_TAG := Shape(0, true, false, InFirstByte, 4)
  const PROPERTY_TAG := Shape(1, true, false, InFirstByte, 1)

  lemma LookalikeTags()
    ensures ReadShape(LOOKALIKE, 0) == Some(OBJECT_TAG)
    ensures ReadShape(LOOKALIKE, 5) == Some(PROPERTY_TAG)
    ensures ReadShape(LOOKALIKE, 7) == None
  {
  }

  lemma LookalikeValues()
    ensures BeAt(LOOKALIKE, 1, 4) == 0 && BeAt(LOOKALIKE, 6, 1) == 85
  {
    BeAtUnrolled(LOOKALIKE, 1);
  }

  lemma LookalikeUnsigneds()
    ensures ReadUnsigned(LOOKALIKE, 0, 0) == Some(Unsigned(OBJECT_TAG, 0))
    ensures ReadUnsigned(LOOKALIKE, 5, 1) == Some(Unsigned(PROPERTY_TAG, 85))
    ensures ReadUnsigned(LOOKALIKE, 7, 2) == None
  {
    hide ReadShape;
    hide BeAt;
    LookalikeTags();
    LookalikeValues();
  }

  const LOOKALIKE_WRITING := Writing(Unsigned(OBJECT_TAG, 0), Unsigned(PROPERTY_TAG, 85), None)

  lemma LookalikeSizes()
    ensures LOOKALIKE_WRITING.Valid()
    ensures |LOOKALIKE_WRITING.obj.Encode()| == 5 && |LOOKALIKE_WRITING.prop.Encode()| == 2
  {
    assert Pow256(1) == 256;
  }

  lemma LookalikeWriting()
    ensures ReadWriting(LOOKALIKE, 0) == Some(LOOKALIKE_WRITING) && LOOKALIKE_WRITING.Valid()
  {
    hide ReadUnsigned;
    hide Unsigned.Encode;
    hide Pow256;
    LookalikeUnsigneds();
    LookalikeSizes();
  }

  lemma LookalikeRead()
    ensures Read(LOOKALIKE, 0) == Some(ObjectProperty(0, 0, 85, None))
  {
    hide ReadWriting;
    hide Pow256;
    LookalikeWriting();
  }

  const SECOND_SEGMENT := Segment(false, 1, 4)
  const WRITE_FRAGMENT := ConfirmedRequest(Some(SECOND_SEGMENT), true, 5, 7, Other(15, LOOKALIKE))
  const READ_ACK_FRAGMENT := ComplexAck(Some(SECOND_SEGMENT), 7, Other(12, LOOKALIKE))

  /** Such fragments exist: second segments of a WriteProperty and of a ReadProperty acknowledgement. */
  lemma LaterSegmentMisread(m: Message)
    requires m.body == ApplicationLayer(WRITE_FRAGMENT) || m.body == ApplicationLayer(READ_ACK_FRAGMENT)
    requires m == Message(OriginalUnicast, None, 0, None, true, 0, m.body)
    ensures Valid(m) && IsLaterSegment(m.body.pdu) && Decode(Encode(m)) == Expected(m)
    ensures Contents(m.body.pdu).reference == Some(ObjectProperty(0, 0, 85, None))
  {
    hide Decode;
    hide Read;
    hide Expected;
    LookalikeRead();
    assert Valid(m);
    hide Encode;
    FrameRoundTrip(m);
  }
}
