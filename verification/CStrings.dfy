/** NUL-terminated text in fixed character buffers, and the bounded writes `snprintf` makes. */
module CStrings {
  /** The buffer's first NUL ends the text `t`. */
  ghost predicate Holds(buffer: seq<char>, t: string) {
    |t| < |buffer| && buffer[..|t|] == t && buffer[|t|] == '\0' && '\0' !in t
  }

  /** What a buffer of `capacity` characters keeps of a text. */
  function Clip(t: string, capacity: nat): (r: string)
    requires capacity > 0
    ensures r <= t && |r| < capacity
  {
    if |t| < capacity then t else t[..capacity - 1]
  }

  lemma ClipNested(a: string, b: string, capacity: nat)
    requires capacity > 0
    ensures Clip(Clip(a, capacity) + b, capacity) == Clip(a + b, capacity)
  {
    if |a| < capacity {
    } else {
      var c := Clip(a, capacity) + b;
      assert c[..capacity - 1] == a[..capacity - 1] == (a + b)[..capacity - 1];
    }
  }

  method StrLen(buffer: array<char>, ghost t: string) returns (n: nat)
    requires Holds(buffer[..], t)
    ensures n == |t|
  {
    assert forall k :: 0 <= k < |t| ==> buffer[k] == buffer[..][..|t|][k];
    n := 0;
    while buffer[n] != '\0'
      invariant n <= |t|
      decreases |t| - n
    {
      n := n + 1;
    }
  }

  /** `snprintf(buffer + used, size - used, "%s", text)` */
  method Snprintf(buffer: array<char>, used: nat, text: string, ghost before: string)
    requires Holds(buffer[..], before) && used == |before| && '\0' !in text
    modifies buffer
    ensures Holds(buffer[..], Clip(before + text, buffer.Length))
  {
    var room := buffer.Length - used - 1;
    var count := if |text| <= room then |text| else room;
    var i := 0;
    while i < count
      invariant 0 <= i <= count
      invariant buffer[..used + i] == before + text[..i]
    {
      buffer[used + i] := text[i];
      assert buffer[..used + i + 1] == buffer[..used + i] + [text[i]];
      assert text[..i + 1] == text[..i] + [text[i]];
      i := i + 1;
    }
    buffer[used + count] := '\0';
    assert buffer[..used + count] == before + text[..count];
    assert before + text[..count] == Clip(before + text, buffer.Length);
  }
}
