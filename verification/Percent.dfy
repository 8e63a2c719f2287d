/** Percent encoding as the adapter writes it into URLs (api-mcp-adapter/src/engine.rs) and reads it
    out of queries (src/lib.rs); section 2.1 of RFC 3986. Texts are UTF-8 bytes. */
module Percent {
  import opened Common
  import opened ByteText

  const PERCENT: byte := 37
  const PLUS: byte := 43

  predicate Unreserved(b: byte) {
    65 <= b <= 90 || 97 <= b <= 122 || 48 <= b <= 57 || b == 45 || b == 95 || b == 46 || b == 126
  }

  function UpperDigit(d: nat): (b: byte)
    requires d < 16
    ensures Unreserved(b) && b != PLUS && DigitOf(b) == Some(d)
  {
    if d < 10 then (48 + d) as byte else (55 + d) as byte
  }

  function Encode(b: byte): Bytes {
    if Unreserved(b) then [b] else [PERCENT, UpperDigit(b as nat / 16), UpperDigit(b as nat % 16)]
  }

  /** `pct`. */
  function Pct(s: Bytes): Bytes {
    if s == [] then [] else Encode(s[0]) + Pct(s[1..])
  }

  /** `u8::from_str_radix(_, 16)` on two characters. */
  function HexPair(a: byte, b: byte): (r: Option<byte>) {
    if a == PLUS then if DigitOf(b).Some? then Some(DigitOf(b).value as byte) else None
    else if DigitOf(a).Some? && DigitOf(b).Some? then Some((DigitOf(a).value * 16 + DigitOf(b).value) as byte)
    else None
  }

  /** `pct_decode`, before its bytes are checked to be UTF-8. */
  function Unpct(s: Bytes): Option<Bytes> {
    if s == [] then Some([])
    else if s[0] == PERCENT then
      if |s| < 3 || HexPair(s[1], s[2]).None? then None
      else Prefixed([HexPair(s[1], s[2]).value], Unpct(s[3..]))
    else Prefixed([s[0]], Unpct(s[1..]))
  }

  /** `replace('+', " ")`. */
  function Spaces(s: Bytes): Bytes {
    seq(|s|, i requires 0 <= i < |s| => if s[i] == PLUS then 32 else s[i])
  }

  /** What can stand in encoded text. */
  predicate Inert(s: Bytes) {
    forall b :: b in s ==> Unreserved(b) || b == PERCENT
  }

  lemma {:induction false} PctIsInert(s: Bytes)
    ensures Inert(Pct(s))
  {
    if s != [] {
      PctIsInert(s[1..]);
    }
  }

  lemma InertHasNo(s: Bytes)
    requires Inert(s)
    ensures forall b :: b in {47, 63, 35, 38, 61, PLUS, 123, 125} ==> b !in s
  {
  }

  lemma EncodeReadsBack(b: byte, rest: Bytes)
    ensures Unpct(Encode(b) + rest) == Prefixed([b], Unpct(rest))
  {
    var e := Encode(b);
    var s := e + rest;
    assert s[|e|..] == rest;
    if !Unreserved(b) {
      var n := b as nat;
      assert s[1] == UpperDigit(n / 16) && s[2] == UpperDigit(n % 16);
      assert n == n / 16 * 16 + n % 16;
      assert HexPair(s[1], s[2]) == Some(b);
      assert s[3..] == rest;
    } else {
      assert b != PERCENT && s[1..] == rest;
    }
  }

  /** Decoding undoes encoding. */
  lemma {:induction false} UnpctUndoesPct(s: Bytes)
    ensures Unpct(Pct(s)) == Some(s)
  {
    if s != [] {
      UnpctUndoesPct(s[1..]);
      EncodeReadsBack(s[0], Pct(s[1..]));
      assert [s[0]] + s[1..] == s;
    }
  }

  lemma SpacesLeaveInert(s: Bytes)
    requires Inert(s)
    ensures Spaces(s) == s
  {
    assert forall i :: 0 <= i < |s| ==> s[i] in s;
  }

  method Encoded(s: Bytes) returns (out: Bytes)
    ensures out == Pct(s)
  {
    hide Encode;
    out := [];
    assert s[0..] == s && [] + Pct(s) == Pct(s);
    for i := 0 to |s|
      invariant out + Pct(s[i..]) == Pct(s)
    {
      assert s[i..][0] == s[i] && s[i..][1..] == s[i + 1..];
      assert out + (Encode(s[i]) + Pct(s[i + 1..])) == out + Encode(s[i]) + Pct(s[i + 1..]);
      out := out + Encode(s[i]);
    }
    assert out + [] == out;
  }

  lemma UnpctNext(s: Bytes, i: nat)
    requires i < |s|
    ensures s[i] != PERCENT ==> Unpct(s[i..]) == Prefixed([s[i]], Unpct(s[i + 1..]))
    ensures s[i] == PERCENT && (i + 3 > |s| || HexPair(s[i + 1], s[i + 2]).None?) ==> Unpct(s[i..]) == None
    ensures s[i] == PERCENT && i + 3 <= |s| && HexPair(s[i + 1], s[i + 2]).Some? ==>
              Unpct(s[i..]) == Prefixed([HexPair(s[i + 1], s[i + 2]).value], Unpct(s[i + 3..]))
  {
    hide HexPair;
    var t := s[i..];
    assert t[0] == s[i] && t[1..] == s[i + 1..];
    if i + 3 <= |s| {
      assert t[1] == s[i + 1] && t[2] == s[i + 2] && t[3..] == s[i + 3..];
    }
  }

  method Decoded(s: Bytes) returns (r: Option<Bytes>)
    ensures r == Unpct(s)
  {
    hide *;
    var out: Bytes, i: nat := [], 0;
    PrefixedTwice(out, [], Unpct(s));
    assert s[0..] == s;
    while i < |s|
      invariant i <= |s| && Prefixed(out, Unpct(s[i..])) == Unpct(s)
    {
      UnpctNext(s, i);
      if s[i] == PERCENT {
        if i + 3 > |s| {
          PrefixedTwice(out, [], None);
          return None;
        }
        var h := HexPair(s[i + 1], s[i + 2]);
        if h.None? {
          PrefixedTwice(out, [], None);
          return None;
        }
        PrefixedTwice(out, [h.value], Unpct(s[i + 3..]));
        out := out + [h.value];
        i := i + 3;
      } else {
        PrefixedTwice(out, [s[i]], Unpct(s[i + 1..]));
        out := out + [s[i]];
        i := i + 1;
      }
    }
    UnpctNothing();
    PrefixedTwice(out, [], None);
    assert s[i..] == [];
    return Some(out);
  }

  lemma UnpctNothing()
    ensures Unpct([]) == Some([])
  {
  }
}
