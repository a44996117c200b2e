/**
  Octets and big-endian integers. The source assembles integers with shifts and `|` on
  disjoint bit ranges; here that is `* 256 +`, and a mask or a right shift is `%` or `/`.
 */
module Bytes {
  type byte = x: int | 0 <= x < 256

  /** Offsets and counters of the source's `uint32_t`: the verifier rejects any that could overflow. */
  newtype uint32 = x: int | 0 <= x < 0x1_0000_0000

  /** The clock of the deferred restart. */
  newtype uint64 = x: int | 0 <= x < 0x1_0000_0000_0000_0000

  function Pow256(n: nat): (p: nat)
    ensures p > 0
  {
    if n == 0 then 1 else 256 * Pow256(n - 1)
  }

  /** The unsigned integer held in `s[at..at + n]`, most significant octet first. */
  function BeAt(s: seq<byte>, at: nat, n: nat): (v: nat)
    requires at + n <= |s|
    ensures v < Pow256(n)
  {
    if n == 0 then 0 else BeAt(s, at, n - 1) * 256 + s[at + n - 1]
  }

  /** `v` written on `n` octets, most significant first. */
  function ToBe(v: nat, n: nat): (e: seq<byte>)
    requires v < Pow256(n)
    ensures |e| == n
  {
    if n == 0 then [] else ToBe(v / 256, n - 1) + [v % 256]
  }

  /** `e` is written in `s` at `at`. */
  predicate At(s: seq<byte>, at: nat, e: seq<byte>) {
    at + |e| <= |s| && s[at..at + |e|] == e
  }

  /** Two adjacent pieces are written exactly when their concatenation is. */
  lemma AtConcat(s: seq<byte>, at: nat, a: seq<byte>, b: seq<byte>)
    ensures At(s, at, a + b) <==> At(s, at, a) && At(s, at + |a|, b)
  {
    if at + |a| + |b| <= |s| {
      var w := s[at..at + |a| + |b|];
      assert w[..|a|] == s[at..at + |a|];
      assert w[|a|..] == s[at + |a|..at + |a| + |b|];
      assert (a + b)[..|a|] == a && (a + b)[|a|..] == b;
      assert w == w[..|a|] + w[|a|..];
    }
  }

  /** Taking a known piece off the front of a suffix. */
  lemma SuffixParts(s: seq<byte>, at: nat, e: seq<byte>, rest: seq<byte>)
    requires at <= |s| && s[at..] == e + rest
    ensures At(s, at, e) && s[at + |e|..] == rest
    ensures forall i {:trigger e[i]} :: 0 <= i < |e| ==> s[at + i] == e[i]
  {
    var tail := s[at..];
    assert tail[..|e|] == e && tail[|e|..] == rest;
    assert s[at..at + |e|] == tail[..|e|];
    forall i | 0 <= i < |e|
      ensures s[at + i] == e[i]
    {
      assert s[at + i] == tail[i];
    }
  }

  /** What is written in a buffer is written in every extension of it. */
  lemma AtExtends(s: seq<byte>, t: seq<byte>, at: nat, e: seq<byte>)
    requires s <= t && At(s, at, e)
    ensures At(t, at, e)
  {
    assert t[at..at + |e|] == s[at..at + |e|];
  }

  /** Reading n octets gives v exactly when those octets are the big-endian form of v. */
  lemma {:induction false} BeAtIffWritten(s: seq<byte>, at: nat, n: nat, v: nat)
    requires at + n <= |s| && v < Pow256(n)
    ensures BeAt(s, at, n) == v <==> At(s, at, ToBe(v, n))
  {
    if n == 0 {
    } else {
      BeAtIffWritten(s, at, n - 1, v / 256);
      AtConcat(s, at, ToBe(v / 256, n - 1), [v % 256]);
      assert At(s, at + n - 1, [v % 256]) <==> s[at + n - 1] == v % 256;
    }
  }

  /** The shift-and-or expressions of the source for two and four octets. */
  lemma BeAtUnrolled(s: seq<byte>, at: nat)
    ensures at + 2 <= |s| ==> BeAt(s, at, 2) == s[at] as int * 0x100 + s[at + 1]
    ensures at + 4 <= |s| ==>
              BeAt(s, at, 4) == s[at] as int * 0x100_0000 + s[at + 1] as int * 0x1_0000
                             + s[at + 2] as int * 0x100 + s[at + 3]
  {
    if at + 2 <= |s| {
      assert BeAt(s, at, 1) == s[at];
    }
    if at + 4 <= |s| {
      assert BeAt(s, at, 3) == BeAt(s, at, 2) * 256 + s[at + 2];
    }
  }
}
