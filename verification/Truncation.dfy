/**
  Decoding a truncated frame: what is reported for the first octets of a datagram is reported
  unchanged for the whole of it, with the exact exceptions of the fields whose flag is taken from
  the control octet before their own octets have been reached.
 */
module Truncation {
  import opened Wrappers
  import opened Bytes
  import opened ObjectProperties
  import opened FrameDecoder

  predicate KeepsOctet(a: Option<byte>, b: Option<byte>) {
    a.Some? ==> a == b
  }

  predicate KeepsApdu(a: Apdu, b: Apdu) {
    && a.pduType == b.pduType && a.segmented == b.segmented
    && KeepsOctet(a.invokeId, b.invokeId)
    && KeepsOctet(a.serviceChoice, b.serviceChoice)
    && KeepsOctet(a.reason, b.reason)
    && Extends(a.reference, b.reference)
  }

  predicate KeepsPayload(a: Payload, b: Payload) {
    match a
    case Missing => true
    case NetworkMessage(_) => a == b
    case Application(apdu) => b.Application? && KeepsApdu(apdu, b.apdu)
  }

  predicate KeepsNpdu(a: Npdu, b: Npdu) {
    && a.version == b.version && a.control == b.control
    && (a.dadr != [] ==> a.dadr == b.dadr)
    && (a.sadr != [] ==> a.sadr == b.sadr)
    && KeepsPayload(a.payload, b.payload)
  }

  /** Every optional field of `a` is in `b` with the same value. */
  predicate Keeps(a: Frame, b: Frame) {
    a.Bvlc? ==>
      && b.Bvlc? && a.bvlcFunction == b.bvlcFunction
      && (a.npdu.Some? ==> b.npdu.Some? && KeepsNpdu(a.npdu.value, b.npdu.value))
  }

  lemma KeepsReadAddress(p: seq<byte>, s: seq<byte>, offset: nat, present: bool)
    requires p <= s && offset <= |p|
    ensures var a, b := ReadOptionalAddress(p, offset, present), ReadOptionalAddress(s, offset, present);
            && (a.next.Some? <==> b.next.Some? && b.next.value <= |p|)
            && (a.next.Some? ==> a == b)
            && a.net == (if present && offset + 3 > |p| then 0 else b.net)
  {
    if present && offset + 3 <= |p| {
      BeAtUnrolled(p, offset);
      BeAtUnrolled(s, offset);
      var end := offset + 3 + s[offset + 2];
      if end <= |p| {
        assert p[offset + 3..end] == s[offset + 3..end];
      }
    }
  }

  lemma KeepsDecodeApdu(p: seq<byte>, s: seq<byte>, at: nat)
    requires p <= s && at < |p|
    ensures KeepsApdu(DecodeApdu(p, at), DecodeApdu(s, at))
  {
    hide Read;
    var pduType := p[at] / 16;
    var step := (if pduType == 0 then 3 else 2) + (if p[at] / 8 % 2 == 1 then 2 else 0);
    ReadExtends(p, s, at + step + 1);
  }

  lemma KeepsDecodeRoute(p: seq<byte>, s: seq<byte>, offset: nat)
    requires p <= s && offset + 2 <= |p|
    ensures var a, b := DecodeRoute(p, offset), DecodeRoute(s, offset);
            && KeepsNpdu(a.0, b.0)
            && (a.1.Some? <==> b.1.Some? && b.1.value <= |p|)
            && (a.1.Some? ==> a == b)
  {
    hide ReadOptionalAddress;
    var start := Npdu(s[offset], s[offset + 1], 0, [], 0, [], Missing);
    KeepsReadAddress(p, s, offset + 2, start.HasDest());
    var dest := ReadOptionalAddress(p, offset + 2, start.HasDest());
    if dest.next.Some? {
      KeepsReadAddress(p, s, dest.next.value, start.HasSrc());
      AddressEmptyUntilComplete(p, dest.next.value, start.HasSrc());
    }
  }

  lemma AddressEmptyUntilComplete(s: seq<byte>, offset: nat, present: bool)
    requires offset <= |s|
    ensures var a := ReadOptionalAddress(s, offset, present); a.next.None? ==> a.mac == []
  {
  }

  /** Main result: truncating a datagram can only remove fields from what is reported, never change one. */
  lemma TruncationMonotone(p: seq<byte>, s: seq<byte>)
    requires p <= s
    ensures Keeps(Decode(p), Decode(s))
  {
    hide DecodeRoute;
    hide DecodeApdu;
    if |p| >= 4 && p[0] == 0x81 {
      var offset := NpduOffset(p[1]);
      if offset.Some? && offset.value + 2 <= |p| {
        KeepsDecodeRoute(p, s, offset.value);
        var (npdu, end) := DecodeRoute(p, offset.value);
        if end.Some? {
          var at := end.value + (if npdu.HasDest() then 1 else 0);
          if at < |p| {
            KeepsDecodeApdu(p, s, at);
          }
        }
      }
    }
  }

  /** Where the two octets and the length octet of SNET end, for a frame long enough to tell. */
  function SnetEnd(s: seq<byte>, offset: nat): nat
    requires offset + 2 <= |s|
  {
    if s[offset + 1] / 0x20 % 2 == 0 then offset + 5
    else if offset + 5 <= |s| then offset + 8 + s[offset + 4]
    else offset + 8
  }

  /**
    The network numbers, exactly: a prefix reports DNET once the specifier's three leading octets lie
    inside it and 0 before that, although the flag is already set; likewise for SNET, after the whole
    destination.
   */
  lemma NetworkNumbersExact(p: seq<byte>, s: seq<byte>, offset: nat)
    requires p <= s && offset + 2 <= |p|
    ensures var a, b := DecodeNpdu(p, offset), DecodeNpdu(s, offset);
            && a.HasDest() == b.HasDest() && a.HasSrc() == b.HasSrc()
            && a.dnet == (if offset + 5 <= |p| then b.dnet else 0)
            && a.snet == (if SnetEnd(s, offset) <= |p| then b.snet else 0)
  {
    hide DecodeApdu;
    hide BeAt;
    var start := Npdu(s[offset], s[offset + 1], 0, [], 0, [], Missing);
    KeepsReadAddress(p, s, offset + 2, start.HasDest());
    var dest := ReadOptionalAddress(p, offset + 2, start.HasDest());
    if dest.next.Some? {
      KeepsReadAddress(p, s, dest.next.value, start.HasSrc());
    }
  }

  /** Where the payload starts in a frame whose addresses are complete. */
  function PayloadAt(s: seq<byte>, offset: nat): nat
    requires offset + 2 <= |s| && DecodeRoute(s, offset).1.Some?
  {
    var (npdu, end) := DecodeRoute(s, offset);
    end.value + (if npdu.HasDest() then 1 else 0)
  }

  /**
    A truncated network message is still flagged as one, and is reported as message type 0 exactly
    until its type octet lies inside the prefix.
   */
  lemma MessageTypeExact(p: seq<byte>, s: seq<byte>, offset: nat)
    requires p <= s && offset + 2 <= |p|
    requires DecodeNpdu(s, offset).payload.NetworkMessage?
    ensures DecodeRoute(s, offset).1.Some?
    ensures var a, b := DecodeNpdu(p, offset), DecodeNpdu(s, offset);
            && a.IsNetworkMessage()
            && (a.payload.NetworkMessage? <==> PayloadAt(s, offset) < |p|)
            && a.MessageType() == (if PayloadAt(s, offset) < |p| then b.MessageType() else 0)
  {
    hide DecodeRoute;
    hide DecodeApdu;
    KeepsDecodeRoute(p, s, offset);
  }
}
