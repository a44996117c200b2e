/** The two number formats the printers use, `%u` and `%02X`, with their readers. */
module Texts {
  import opened Wrappers
  import opened Bytes

  const DIGITS := "0123456789ABCDEF"

  /** `%u` */
  function Decimal(n: nat): (t: string)
    ensures t != []
  {
    if n < 10 then [DIGITS[n]] else Decimal(n / 10) + [DIGITS[n % 10]]
  }

  function Pow10(k: nat): (p: nat)
    ensures p > 0
  {
    if k == 0 then 1 else 10 * Pow10(k - 1)
  }

  lemma {:induction false} DecimalLength(n: nat, k: nat)
    requires k > 0 && n < Pow10(k)
    ensures |Decimal(n)| <= k
  {
    if n >= 10 {
      DecimalLength(n / 10, k - 1);
    }
  }

  function DigitValue(c: char): Option<nat> {
    if '0' <= c <= '9' then Some(c as int - '0' as int)
    else if 'A' <= c <= 'F' then Some(c as int - 'A' as int + 10)
    else None
  }

  lemma DigitRoundTrip(d: nat)
    requires d < 16
    ensures DigitValue(DIGITS[d]) == Some(d)
  {
  }

  /** Reading decimal digits from the left. */
  function DecimalValue(t: string): Option<nat> {
    if t == [] then Some(0)
    else
      match (DecimalValue(t[..|t| - 1]), DigitValue(t[|t| - 1]))
      case (Some(v), Some(d)) => if d < 10 then Some(10 * v + d) else None
      case _ => None
  }

  lemma {:induction false} DecimalRoundTrip(n: nat)
    ensures DecimalValue(Decimal(n)) == Some(n)
  {
    DigitRoundTrip(n % 10);
    if n >= 10 {
      DecimalRoundTrip(n / 10);
      var t := Decimal(n);
      assert t[..|t| - 1] == Decimal(n / 10);
    } else {
      assert Decimal(n)[..0] == [];
    }
  }

  /** `%02X` */
  function HexOctet(b: byte): (t: string)
    ensures |t| == 2
  {
    [DIGITS[b / 16], DIGITS[b % 16]]
  }

  function Hex(s: seq<byte>): (t: string)
    ensures |t| == 2 * |s|
  {
    if s == [] then [] else Hex(s[..|s| - 1]) + HexOctet(s[|s| - 1])
  }

  function OctetValue(high: char, low: char): Option<byte> {
    match (DigitValue(high), DigitValue(low))
    case (Some(h), Some(l)) => if h < 16 && l < 16 then Some(h * 16 + l) else None
    case _ => None
  }

  lemma OctetRoundTrip(b: byte)
    ensures OctetValue(HexOctet(b)[0], HexOctet(b)[1]) == Some(b)
  {
    DigitRoundTrip(b / 16);
    DigitRoundTrip(b % 16);
  }

  function HexDecode(t: string): Option<seq<byte>> {
    if t == [] then Some([])
    else if |t| == 1 then None
    else
      match (HexDecode(t[..|t| - 2]), OctetValue(t[|t| - 2], t[|t| - 1]))
      case (Some(s), Some(b)) => Some(s + [b])
      case _ => None
  }

  lemma HexDecodeAppend(t: string, b: byte)
    requires HexDecode(t).Some?
    ensures HexDecode(t + HexOctet(b)) == Some(HexDecode(t).value + [b])
  {
    OctetRoundTrip(b);
    hide OctetValue;
    hide HexOctet;
    var u := t + HexOctet(b);
    assert u[..|u| - 2] == t && u[|u| - 2] == HexOctet(b)[0] && u[|u| - 1] == HexOctet(b)[1];
  }

  lemma {:induction false} HexRoundTrip(s: seq<byte>)
    ensures HexDecode(Hex(s)) == Some(s)
  {
    hide HexOctet;
    if s != [] {
      var front, last := s[..|s| - 1], s[|s| - 1];
      HexRoundTrip(front);
      HexDecodeAppend(Hex(front), last);
      assert front + [last] == s;
    }
  }

  /** The hex text of a prefix is a prefix of the hex text. */
  lemma {:induction false} HexOfPrefix(s: seq<byte>, k: nat)
    requires k <= |s|
    ensures Hex(s[..k]) <= Hex(s)
  {
    if k < |s| {
      HexOfPrefix(s[..|s| - 1], k);
      assert s[..|s| - 1][..k] == s[..k];
    } else {
      assert s[..k] == s;
    }
  }

  /** No character that ends a C string, means something in XML, or sets the parts of a summary apart. */
  predicate Plain(t: string) {
    forall c :: c in t ==> PlainChar(c)
  }

  predicate PlainChar(c: char) {
    && c != '\0' && c != '<' && c != '>' && c != '"' && c != '&' && c != '/'
    && c != '=' && c != ' ' && c != '[' && c != '.'
  }

  lemma {:induction false} DecimalPlain(n: nat)
    ensures Plain(Decimal(n))
  {
    if n >= 10 {
      DecimalPlain(n / 10);
    }
  }

  lemma {:induction false} HexPlain(s: seq<byte>)
    ensures Plain(Hex(s))
  {
    if s != [] {
      HexPlain(s[..|s| - 1]);
    }
  }
}
