/** Texts as bytes. */
module ByteText {
  import opened Common

  lemma Regroup(a: Bytes, b: Bytes, c: Bytes)
    ensures a + (b + c) == a + b + c
  {
  }

  /** `out` and what follows, if anything could be made of it. */
  function Prefixed(out: Bytes, rest: Option<Bytes>): Option<Bytes> {
    if rest.Some? then Some(out + rest.value) else None
  }

  lemma PrefixedTwice(out: Bytes, more: Bytes, rest: Option<Bytes>)
    ensures Prefixed(out, Prefixed(more, rest)) == Prefixed(out + more, rest)
    ensures Prefixed([], rest) == rest && Prefixed(out, Some([])) == Some(out) && Prefixed(out, None) == None
  {
    if rest.Some? {
      Regroup(out, more, rest.value);
      assert [] + rest.value == rest.value;
    }
    assert out + [] == out;
  }

  /** The value of a hexadecimal digit. */
  function DigitOf(b: byte): (d: Option<nat>)
    ensures d.Some? ==> d.value < 16
  {
    if 48 <= b <= 57 then Some((b - 48) as nat)
    else if 97 <= b <= 102 then Some((b - 87) as nat)
    else if 65 <= b <= 70 then Some((b - 55) as nat)
    else None
  }

  /** The first position of a byte. */
  function IndexOf(s: Bytes, b: byte): (r: Option<nat>)
    ensures r.Some? ==> r.value < |s| && s[r.value] == b && b !in s[..r.value]
    ensures r.None? ==> b !in s
  {
    if s == [] then None
    else if s[0] == b then Some(0)
    else
      match IndexOf(s[1..], b)
      case Some(i) =>
        assert s[..i + 1] == [s[0]] + s[1..][..i];
        Some(i + 1)
      case None =>
        assert s == [s[0]] + s[1..];
        None
  }

  function SplitOn(s: Bytes, b: byte): (r: seq<Bytes>)
    ensures r != []
    decreases |s|
  {
    match IndexOf(s, b)
    case None => [s]
    case Some(i) => [s[..i]] + SplitOn(s[i + 1..], b)
  }
}
