/** Sizes of texts in UTF-8. */
module Utf8 {

  /** The size of a character. */
  function Width(c: nat): (w: nat)
    ensures 1 <= w <= 4
  {
    if c < 0x80 then 1 else if c < 0x800 then 2 else if c < 0x1_0000 then 3 else 4
  }

  function ByteLen(s: string): nat {
    if s == "" then 0 else Width(s[0] as int) + ByteLen(s[1..])
  }

  /** As much of a text as fits, in whole characters. */
  function Clip(s: string, max: nat): string {
    if s == "" || Width(s[0] as int) > max then "" else [s[0]] + Clip(s[1..], max - Width(s[0] as int))
  }

  lemma {:induction false} AsciiLen(s: string)
    requires forall i :: 0 <= i < |s| ==> s[i] as int < 0x80
    ensures ByteLen(s) == |s|
  {
    if s != "" {
      AsciiLen(s[1..]);
    }
  }

  lemma {:induction false} LenJoin(a: string, b: string)
    ensures ByteLen(a + b) == ByteLen(a) + ByteLen(b)
  {
    if a == "" {
      assert a + b == b;
    } else {
      assert (a + b)[1..] == a[1..] + b;
      LenJoin(a[1..], b);
    }
  }

  /** A text is cut to a beginning of it, the longest that fits: whole exactly if it fits. */
  lemma {:induction false} ClipIs(s: string, max: nat)
    ensures Clip(s, max) <= s && ByteLen(Clip(s, max)) <= max
    ensures Clip(s, max) == s <==> ByteLen(s) <= max
    ensures var n := |Clip(s, max)|; n < |s| ==> ByteLen(Clip(s, max)) + Width(s[n] as int) > max
  {
    if s != "" && Width(s[0] as int) <= max {
      ClipIs(s[1..], max - Width(s[0] as int));
      var rest := Clip(s[1..], max - Width(s[0] as int));
      assert ([s[0]] + rest)[1..] == rest;
      assert s == [s[0]] + s[1..];
    }
  }
}
