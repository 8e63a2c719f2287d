/** Decimal numbers as Rust prints them and reads them into a 32-bit `usize`. */
module Decimals {
  import opened Common

  predicate IsDigit(c: char) {
    '0' <= c <= '9'
  }

  function Value(s: string): nat
    requires forall c :: c in s ==> IsDigit(c)
  {
    if s == "" then 0
    else
      assert forall c :: c in s[..|s| - 1] ==> c in s;
      var c := s[|s| - 1];
      assert IsDigit(c);
      Value(s[..|s| - 1]) * 10 + (c - '0') as nat
  }

  /** `parse::<usize>`: digits, after a plus sign if there is one. */
  function Parse(s: string): Option<nat> {
    var digits := if s != "" && s[0] == '+' then s[1..] else s;
    if digits == "" || exists c :: c in digits && !IsDigit(c) then None
    else if Value(digits) <= USIZE_MAX then Some(Value(digits))
    else None
  }

  function Print(n: nat): (s: string)
    ensures s != "" && forall c :: c in s ==> IsDigit(c)
  {
    if n < 10 then [(n as char) + '0'] else Print(n / 10) + [((n % 10) as char) + '0']
  }

  lemma {:induction false} ValueOfPrint(n: nat)
    ensures Value(Print(n)) == n
  {
    if n >= 10 {
      ValueOfPrint(n / 10);
      var s := Print(n);
      assert s[..|s| - 1] == Print(n / 10);
      assert s[|s| - 1] == ((n % 10) as char) + '0';
    } else {
      var s := Print(n);
      assert s[..|s| - 1] == "";
    }
  }

  lemma PrintReadsBack(n: nat)
    ensures Parse(Print(n)) == if n <= USIZE_MAX then Some(n) else None
  {
    ValueOfPrint(n);
    assert Print(n)[0] in Print(n);
  }
}
