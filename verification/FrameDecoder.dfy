/**
  The walk from BVLC over NPDU to APDU: a functional specification of what one frame contains and
  the imperative decoder that fills a `DecodedFrame` in place.
 */
module FrameDecoder {
  import opened Wrappers
  import opened Bytes
  import opened TagHeaders
  import opened ObjectProperties

  // ---- What a frame contains --------------------------------------------------------------------

  datatype Frame = NotBacnetIp | Bvlc(bvlcFunction: byte, npdu: Option<Npdu>)

  /** `dnet`, `dadr`, `snet` and `sadr` stay 0 and empty until their octets have been reached. */
  datatype Npdu = Npdu(
    version: byte,
    control: byte,
    dnet: nat,
    dadr: seq<byte>,
    snet: nat,
    sadr: seq<byte>,
    payload: Payload)
  {
    predicate HasDest() { control / 0x20 % 2 == 1 }
    predicate HasSrc() { control / 0x08 % 2 == 1 }
    predicate IsNetworkMessage() { control / 0x80 % 2 == 1 }

    /** What the source's field holds: 0 until the message type octet has been reached. */
    function MessageType(): byte {
      if payload.NetworkMessage? then payload.messageType else 0
    }
  }

  datatype Payload = Missing | NetworkMessage(messageType: byte) | Application(apdu: Apdu)

  datatype Apdu = Apdu(
    pduType: byte,
    segmented: bool,
    invokeId: Option<byte>,
    serviceChoice: Option<byte>,
    reason: Option<byte>,
    reference: Option<ObjectProperty>)

  // ---- Specification of the walk ----------------------------------------------------------------

  /** Where the NPDU starts; only functions 0x0A, 0x0B and 0x04 carry one the decoder walks. */
  function NpduOffset(bvlcFunction: byte): Option<nat> {
    if bvlcFunction == 0x0A || bvlcFunction == 0x0B then Some(4)
    else if bvlcFunction == 0x04 then Some(10)
    else None
  }

  function Decode(s: seq<byte>): Frame {
    if |s| < 4 || s[0] != 0x81 then NotBacnetIp
    else
      match NpduOffset(s[1])
      case None => Bvlc(s[1], None)
      case Some(offset) => Bvlc(s[1], if offset + 2 > |s| then None else Some(DecodeNpdu(s, offset)))
  }

  /** An address field: the network number once two octets and a length octet are there, the rest once all of it is. */
  datatype AddressField = AddressField(net: nat, mac: seq<byte>, next: Option<nat>)

  function ReadAddress(s: seq<byte>, offset: nat): (a: AddressField)
    ensures a.next.Some? ==> offset + 3 <= a.next.value <= |s|
    ensures a.next.None? ==> a.mac == []
  {
    if offset + 3 > |s| then AddressField(0, [], None)
    else
      var end := offset + 3 + s[offset + 2];
      if end > |s| then AddressField(BeAt(s, offset, 2), [], None)
      else AddressField(BeAt(s, offset, 2), s[offset + 3..end], Some(end))
  }

  function ReadOptionalAddress(s: seq<byte>, offset: nat, present: bool): (a: AddressField)
    requires offset <= |s|
    ensures a.next.Some? ==> offset <= a.next.value <= |s|
  {
    if present then ReadAddress(s, offset) else AddressField(0, [], Some(offset))
  }

  /** The NPDU up to its addresses, and where they end if they are all there. */
  function DecodeRoute(s: seq<byte>, offset: nat): (r: (Npdu, Option<nat>))
    requires offset + 2 <= |s|
    ensures r.0.version == s[offset] && r.0.control == s[offset + 1] && r.0.payload == Missing
    ensures r.1.Some? ==> offset + 2 <= r.1.value <= |s|
  {
    var start := Npdu(s[offset], s[offset + 1], 0, [], 0, [], Missing);
    var dest := ReadOptionalAddress(s, offset + 2, start.HasDest());
    if dest.next.None? then (start.(dnet := dest.net), None)
    else
      var src := ReadOptionalAddress(s, dest.next.value, start.HasSrc());
      (start.(dnet := dest.net, dadr := dest.mac, snet := src.net, sadr := src.mac), src.next)
  }

  function DecodeNpdu(s: seq<byte>, offset: nat): Npdu
    requires offset + 2 <= |s|
  {
    var (npdu, end) := DecodeRoute(s, offset);
    if end.None? then npdu
    else
      var at := end.value + (if npdu.HasDest() then 1 else 0);
      if at >= |s| then npdu
      else npdu.(payload := if npdu.IsNetworkMessage() then NetworkMessage(s[at]) else Application(DecodeApdu(s, at)))
  }

  function OctetAt(s: seq<byte>, at: nat): Option<byte> {
    if at < |s| then Some(s[at]) else None
  }

  /**
    Which octets of an APDU the decoder looks at, by PDU type. Clause 20.1 puts the sequence number
    and window size of a segmented PDU before the service choice; the decoder steps over them.
   */
  function DecodeApdu(s: seq<byte>, at: nat): Apdu
    requires at < |s|
  {
    var pduType := s[at] / 16;
    var segmented := s[at] / 8 % 2 == 1;
    match pduType
    case 0 =>
      if at + 2 >= |s| then Apdu(0, segmented, None, None, None, None)
      else
        var serviceAt := at + (if segmented then 5 else 3);
        var service := OctetAt(s, serviceAt);
        Apdu(0, segmented, Some(s[at + 2]), service, None,
             if service == Some(12) || service == Some(15) then Read(s, serviceAt + 1) else None)
    case 1 => Apdu(1, false, None, OctetAt(s, at + 1), None, None)
    case 3 =>
      if at + 1 >= |s| then Apdu(3, segmented, None, None, None, None)
      else
        var serviceAt := at + (if segmented then 4 else 2);
        var service := OctetAt(s, serviceAt);
        Apdu(3, segmented, Some(s[at + 1]), service, None, if service == Some(12) then Read(s, serviceAt + 1) else None)
    case _ =>
      if at + 2 >= |s| then Apdu(pduType, false, None, None, None, None)
      else if pduType == 2 || pduType == 5 then Apdu(pduType, false, Some(s[at + 1]), Some(s[at + 2]), None, None)
      else if pduType == 6 || pduType == 7 then Apdu(pduType, false, Some(s[at + 1]), None, Some(s[at + 2]), None)
      else Apdu(pduType, false, None, None, None, None)
  }

  /** Where Clause 20.1 puts the parameters of a ReadProperty or WriteProperty request or a ReadProperty answer. */
  function ReferenceAt(s: seq<byte>, at: nat): Option<nat>
    requires at < |s|
  {
    var request := s[at] / 16 == 0;
    var service := at + (if request then 3 else 2) + (if s[at] / 8 % 2 == 1 then 2 else 0);
    if (request || s[at] / 16 == 3) && service < |s| && (s[service] == 12 || (request && s[service] == 15))
    then Some(service + 1) else None
  }

  /** An APDU is reported with a reference if and only if it is of such a service and the grammar matches there. */
  lemma ReferenceIffGrammar(s: seq<byte>, at: nat)
    requires at < |s|
    ensures DecodeApdu(s, at).reference.Some?
       <==> && ReferenceAt(s, at).Some?
            && exists w: Writing :: w.Valid() && At(s, ReferenceAt(s, at).value, w.Head())
  {
    ReferenceRead(s, at);
    hide DecodeApdu;
    if ReferenceAt(s, at).Some? {
      ReadWritingIffGrammar(s, ReferenceAt(s, at).value);
      ReadSome(s, ReferenceAt(s, at).value);
    }
    hide ReferenceAt;
    hide ReadWriting;
    hide Read;
  }

  /** Where Clause 20.1 puts the invoke id of each type of PDU, counted from its first octet. */
  function InvokeIdPlace(pduType: byte): Option<nat> {
    if pduType == 0 then Some(2) else if pduType in {2, 3, 5, 6, 7} then Some(1) else None
  }

  /** Where it puts the service choice: after sequence number and window size if the PDU is segmented. */
  function ServicePlace(pduType: byte, segmented: bool): Option<nat> {
    if pduType == 1 then Some(1)
    else if pduType == 2 || pduType == 5 then Some(2)
    else if pduType == 3 then Some(if segmented then 4 else 2)
    else if pduType == 0 then Some(if segmented then 5 else 3)
    else None
  }

  function ReasonPlace(pduType: byte): Option<nat> {
    if pduType == 6 || pduType == 7 then Some(2) else None
  }

  /** The octet at a place of the PDU that starts at `at`, if the frame reaches as far. */
  function Placed(s: seq<byte>, at: nat, place: Option<nat>): Option<byte> {
    if place.Some? && at + place.value < |s| then Some(s[at + place.value]) else None
  }

  /**
    Every octet string as an APDU, field by field: each is the octet at its place, as soon as the frame
    reaches that far. Only for SimpleACK, Error, Reject and Abort is the invoke id not reported before the
    octet after it is there too.
   */
  lemma ApduFieldsExact(s: seq<byte>, at: nat)
    requires at < |s|
    ensures var a, pduType := DecodeApdu(s, at), s[at] / 16;
            var segmented := (pduType == 0 || pduType == 3) && s[at] / 8 % 2 == 1;
            && a.pduType == pduType && a.segmented == segmented
            && a.invokeId == (if pduType in {2, 5, 6, 7} && at + 2 >= |s| then None
                              else Placed(s, at, InvokeIdPlace(pduType)))
            && a.serviceChoice == Placed(s, at, ServicePlace(pduType, segmented))
            && a.reason == Placed(s, at, ReasonPlace(pduType))
  {
    hide Read;
  }

  lemma ReferenceRead(s: seq<byte>, at: nat)
    requires at < |s|
    ensures DecodeApdu(s, at).reference == if ReferenceAt(s, at).Some? then Read(s, ReferenceAt(s, at).value) else None
  {
    hide Read;
  }

  // ---- The decoder ------------------------------------------------------------------------------

  /**
    The struct the source fills in place. A `has...` flag and the value it guards are one optional
    field, and a pointer into the read-only frame with its length is the slice they denote (NULL
    with length 0 is the empty slice).
   */
  class DecodedFrame {
    var bacnetIp: bool
    var bvlcFunction: byte
    var hasNpdu: bool
    var npduVersion: byte
    var npduControl: byte
    var hasDest: bool
    var dnet: nat
    var dadr: seq<byte>
    var hasSrc: bool
    var snet: nat
    var sadr: seq<byte>
    var isNetworkMessage: bool
    var networkMessageType: byte
    var hasApdu: bool
    var pduType: byte
    var segmented: bool
    var invokeId: Option<byte>
    var serviceChoice: Option<byte>
    var reason: Option<byte>
    /** Object and property; their array index is a field of its own, as in the source. */
    var reference: Option<ObjectProperty>
    var arrayIndex: Option<nat>

    constructor ()
      ensures Shows(NotBacnetIp)
    {
      new;
      Reset();
    }

    /** `*out = DecodedFrame()` */
    method Reset()
      modifies this
      ensures Shows(NotBacnetIp)
    {
      hide ShowsRoute;
      hide ShowsApdu;
      bacnetIp, bvlcFunction, hasNpdu, networkMessageType, hasApdu := false, 0, false, 0, false;
      ResetRoute();
      ResetApdu();
    }

    method ResetRoute()
      modifies this`npduVersion, this`npduControl, this`isNetworkMessage
      modifies this`hasDest, this`dnet, this`dadr, this`hasSrc, this`snet, this`sadr
      ensures ShowsRoute(NO_NPDU)
    {
      npduVersion, npduControl, isNetworkMessage := 0, 0, false;
      hasDest, dnet, dadr, hasSrc, snet, sadr := false, 0, [], false, 0, [];
    }

    method ResetApdu()
      modifies this`pduType, this`segmented, this`invokeId, this`serviceChoice, this`reason
      modifies this`reference, this`arrayIndex
      ensures ShowsApdu(NO_APDU)
    {
      pduType, segmented, invokeId, serviceChoice, reason := 0xFF, false, None, None, None;
      reference, arrayIndex := None, None;
    }

    /** Every field of the struct is the one `f` determines, unreached fields at their defaults. */
    ghost predicate Shows(f: Frame)
      reads this
    {
      && bacnetIp == f.Bvlc?
      && bvlcFunction == (if f.Bvlc? then f.bvlcFunction else 0)
      && hasNpdu == (f.Bvlc? && f.npdu.Some?)
      && ShowsNpdu(if f.Bvlc? && f.npdu.Some? then f.npdu.value else NO_NPDU)
    }

    ghost predicate ShowsNpdu(n: Npdu)
      reads this
    {
      && ShowsRoute(n)
      && networkMessageType == n.MessageType()
      && hasApdu == n.payload.Application?
      && ShowsApdu(if n.payload.Application? then n.payload.apdu else NO_APDU)
    }

    ghost predicate ShowsRoute(n: Npdu)
      reads this`npduVersion, this`npduControl, this`isNetworkMessage
      reads this`hasDest, this`dnet, this`dadr, this`hasSrc, this`snet, this`sadr
    {
      && npduVersion == n.version && npduControl == n.control
      && hasDest == n.HasDest() && dnet == n.dnet && dadr == n.dadr
      && hasSrc == n.HasSrc() && snet == n.snet && sadr == n.sadr
      && isNetworkMessage == n.IsNetworkMessage()
    }

    ghost predicate ShowsApdu(a: Apdu)
      reads this`pduType, this`segmented, this`invokeId, this`serviceChoice, this`reason
      reads this`reference, this`arrayIndex
    {
      && pduType == a.pduType && segmented == a.segmented
      && invokeId == a.invokeId && serviceChoice == a.serviceChoice
      && reason == a.reason
      && reference == WithoutIndex(a.reference) && arrayIndex == IndexOf(a.reference)
    }

    /** The reference with its index, as the printers put it together. */
    function Reference(): Option<ObjectProperty>
      reads this`reference, this`arrayIndex
    {
      if reference.None? then None else Some(reference.value.(arrayIndex := arrayIndex))
    }
  }

  function WithoutIndex(r: Option<ObjectProperty>): Option<ObjectProperty> {
    if r.None? then None else Some(r.value.(arrayIndex := None))
  }

  function IndexOf(r: Option<ObjectProperty>): Option<nat> {
    if r.None? then None else r.value.arrayIndex
  }

  const NO_APDU := Apdu(0xFF, false, None, None, None, None)
  const NO_NPDU := Npdu(0, 0, 0, [], 0, [], Missing)

  /** The loop that assembles a value of one to four octets. */
  method ReadValue(frame: seq<byte>, pos: uint32, length: uint32) returns (v: uint32)
    requires |frame| <= 0xFFFF && 1 <= length <= 4 && pos as int + length as int <= |frame|
    ensures v as int == BeAt(frame, pos as int, length as int)
  {
    assert Pow256(1) == 256 && Pow256(2) == 0x1_0000 && Pow256(3) == 0x100_0000;
    v := 0;
    var i: uint32 := 0;
    while i < length
      invariant i <= length
      invariant v as int == BeAt(frame, pos as int, i as int)
    {
      v := v * 256 + frame[pos + i] as uint32;
      i := i + 1;
    }
  }

  /** One context-tagged unsigned: the header, the checks on it and its value. */
  method DecodeUnsigned(frame: seq<byte>, pos: uint32, tagNumber: byte)
    returns (found: bool, length: uint32, value: uint32, next: uint32)
    requires |frame| <= 0xFFFF
    ensures found == ReadUnsigned(frame, pos as int, tagNumber).Some?
    ensures found ==> var u := ReadUnsigned(frame, pos as int, tagNumber).value;
                      && length as int == u.shape.length && value as int == u.value
                      && next as int == pos as int + |u.Encode()| <= |frame|
  {
    var frameLength := |frame| as uint32;
    var tag := DecodeTagHeader(frame, pos);
    if tag == None || !tag.value.contextSpecific || tag.value.tagNumber != tagNumber
       || tag.value.length == 0 || tag.value.length > 4
       || pos + tag.value.headerLength as uint32 + tag.value.length as uint32 > frameLength {
      return false, 0, 0, pos;
    }
    var at := pos + tag.value.headerLength as uint32;
    length := tag.value.length as uint32;
    value := ReadValue(frame, at, length);
    return true, length, value, at + length;
  }

  /** Fields for which nothing is found keep what they held. */
  method DecodeObjectAndProperty(frame: seq<byte>, offset: uint32, out: DecodedFrame)
    requires |frame| <= 0xFFFF
    modifies out`reference, out`arrayIndex
    ensures var r := Read(frame, offset as int);
            && out.reference == (if r.Some? then WithoutIndex(r) else old(out.reference))
            && out.arrayIndex == (if IndexOf(r).Some? then IndexOf(r) else old(out.arrayIndex))
  {
    hide ReadUnsigned;
    var found, length, objValue, pos := DecodeUnsigned(frame, offset, 0);
    if !found || length != 4 {
      return;
    }
    var propFound, _, propValue, afterProp := DecodeUnsigned(frame, pos, 1);
    if !propFound {
      return;
    }
    var objectType := objValue as int / 0x40_0000 % 0x400;
    var objectInstance := objValue as int % 0x40_0000;
    out.reference := Some(ObjectProperty(objectType, objectInstance, propValue as int, None));

    var idxFound, _, idxValue, _ := DecodeUnsigned(frame, afterProp, 2);
    if idxFound {
      out.arrayIndex := Some(idxValue as int);
    }
  }

  method DecodeApduInto(frame: seq<byte>, offset: uint32, out: DecodedFrame)
    requires |frame| <= 0xFFFF && offset as int < |frame|
    requires out.ShowsApdu(NO_APDU)
    modifies out`pduType, out`segmented, out`invokeId, out`serviceChoice, out`reason
    modifies out`reference, out`arrayIndex
    ensures out.ShowsApdu(DecodeApdu(frame, offset as int))
  {
    hide Read;
    var frameLength := |frame| as uint32;
    out.pduType := frame[offset] / 16 % 16;
    match out.pduType {
      case 0 =>
        out.segmented := frame[offset] / 8 % 2 == 1;
        if offset + 2 >= frameLength {
          return;
        }
        out.invokeId := Some(frame[offset + 2]);
        var serviceOffset := offset + (if out.segmented then 5 else 3);
        if serviceOffset >= frameLength {
          return;
        }
        out.serviceChoice := Some(frame[serviceOffset]);
        if frame[serviceOffset] == 12 || frame[serviceOffset] == 15 {
          DecodeObjectAndProperty(frame, serviceOffset + 1, out);
        }
      case 1 =>
        if offset + 1 >= frameLength {
          return;
        }
        out.serviceChoice := Some(frame[offset + 1]);
      case 3 =>
        out.segmented := frame[offset] / 8 % 2 == 1;
        if offset + 1 >= frameLength {
          return;
        }
        out.invokeId := Some(frame[offset + 1]);
        var serviceOffset := offset + (if out.segmented then 4 else 2);
        if serviceOffset >= frameLength {
          return;
        }
        out.serviceChoice := Some(frame[serviceOffset]);
        if frame[serviceOffset] == 12 {
          DecodeObjectAndProperty(frame, serviceOffset + 1, out);
        }
      case 4 =>
      case 2 | 5 =>
        if offset + 2 >= frameLength {
          return;
        }
        out.invokeId := Some(frame[offset + 1]);
        out.serviceChoice := Some(frame[offset + 2]);
      case 6 | 7 =>
        if offset + 2 >= frameLength {
          return;
        }
        out.invokeId := Some(frame[offset + 1]);
        out.reason := Some(frame[offset + 2]);
      case _ =>
    }
  }

  /** One address specifier: network number, length octet, station address. */
  method DecodeAddress(frame: seq<byte>, offset: uint32)
    returns (net: nat, mac: seq<byte>, next: Option<uint32>)
    requires |frame| <= 0xFFFF && offset as int <= |frame|
    ensures var a := ReadAddress(frame, offset as int);
            && net == a.net && mac == a.mac
            && next.Some? == a.next.Some? && (next.Some? ==> next.value as int == a.next.value)
  {
    var frameLength := |frame| as uint32;
    net, mac, next := 0, [], None;
    if offset + 3 > frameLength {
      return;
    }
    BeAtUnrolled(frame, offset as int);
    net := frame[offset] as int * 0x100 + frame[offset + 1] as int;
    var dlen := frame[offset + 2];
    if offset + 3 + dlen as uint32 > frameLength {
      return;
    }
    mac := frame[offset + 3..offset + 3 + dlen as uint32];
    next := Some(offset + 3 + dlen as uint32);
  }

  /** Version, control octet and the two address specifiers; returns where the hop count or payload starts. */
  method DecodeRouteInto(frame: seq<byte>, start: uint32, out: DecodedFrame) returns (next: Option<uint32>)
    requires |frame| <= 0xFFFF && start as int + 2 <= |frame|
    requires out.ShowsRoute(NO_NPDU)
    modifies out`npduVersion, out`npduControl, out`isNetworkMessage
    modifies out`hasDest, out`dnet, out`dadr, out`hasSrc, out`snet, out`sadr
    ensures out.ShowsRoute(DecodeRoute(frame, start as int).0)
    ensures var end := DecodeRoute(frame, start as int).1;
            next.Some? == end.Some? && (next.Some? ==> next.value as int == end.value)
  {
    hide ReadAddress;
    var offset := start;
    out.npduVersion := frame[offset];
    out.npduControl := frame[offset + 1];
    offset := offset + 2;

    out.hasDest := out.npduControl / 0x20 % 2 == 1;
    out.hasSrc := out.npduControl / 0x08 % 2 == 1;
    out.isNetworkMessage := out.npduControl / 0x80 % 2 == 1;

    if out.hasDest {
      var net, mac, end := DecodeAddress(frame, offset);
      out.dnet, out.dadr := net, mac;
      if end == None {
        return None;
      }
      offset := end.value;
    }
    if out.hasSrc {
      var net, mac, end := DecodeAddress(frame, offset);
      out.snet, out.sadr := net, mac;
      if end == None {
        return None;
      }
      offset := end.value;
    }
    return Some(offset);
  }

  method DecodeNpduInto(frame: seq<byte>, start: uint32, out: DecodedFrame)
    requires |frame| <= 0xFFFF && start as int + 2 <= |frame|
    requires out.ShowsNpdu(NO_NPDU)
    modifies out
    ensures out.hasNpdu && out.ShowsNpdu(DecodeNpdu(frame, start as int))
    ensures unchanged(out`bacnetIp, out`bvlcFunction)
  {
    hide DecodeApdu;
    hide DecodeRoute;
    hide DecodedFrame.ShowsApdu;
    var frameLength := |frame| as uint32;
    out.hasNpdu := true;
    var next := DecodeRouteInto(frame, start, out);
    if next == None {
      return;
    }
    var offset := next.value;
    if out.hasDest {
      if offset >= frameLength {
        return;
      }
      offset := offset + 1;
    }
    if offset >= frameLength {
      return;
    }
    if out.isNetworkMessage {
      out.networkMessageType := frame[offset];
      return;
    }
    out.hasApdu := true;
    DecodeApduInto(frame, offset, out);
  }

  /** Decoding is the walk specified by `Decode`, octet for octet, and reads inside the frame only. */
  method DecodeBacnetFrame(frame: seq<byte>, out: DecodedFrame)
    requires |frame| <= 0xFFFF
    modifies out
    ensures out.Shows(Decode(frame))
  {
    hide DecodeNpdu;
    out.Reset();
    var frameLength := |frame| as uint32;
    if frameLength < 4 || frame[0] != 0x81 {
      return;
    }
    out.bacnetIp := true;
    out.bvlcFunction := frame[1];
    var offset: uint32;
    match out.bvlcFunction {
      case 0x0A | 0x0B => offset := 4;
      case 0x04 => offset := 10;
      case _ => return;
    }
    if offset + 2 > frameLength {
      return;
    }
    DecodeNpduInto(frame, offset, out);
  }
}
