/** Characters, and unsigned decimal numbers as printed by %u and read digit by digit into a 32-bit word. */
module Decimal {
  import opened SortedSets

  predicate IsSpace(c: char) {
    c == ' ' || '\t' <= c <= '\r'
  }

  predicate IsDigit(c: char) {
    '0' <= c <= '9'
  }

  function DigitValue(c: char): (d: int)
    requires IsDigit(c)
    ensures 0 <= d < 10
  {
    c as int - '0' as int
  }

  function DigitChar(d: int): (c: char)
    requires 0 <= d < 10
    ensures IsDigit(c) && DigitValue(c) == d
  {
    (d + '0' as int) as char
  }

  predicate AllDigits(s: string) {
    forall i :: 0 <= i < |s| ==> IsDigit(s[i])
  }

  /** What %u prints. */
  function Show(x: Word): (s: string)
    ensures s != "" && AllDigits(s)
  {
    if x < 10 then [DigitChar(x)] else Show(x / 10) + [DigitChar(x % 10)]
  }

  /** Folding in one more digit, in 32-bit arithmetic. */
  function Shift(v: Word, d: int): Word
    requires 0 <= d < 10
  {
    (v * 10 + d) % 0x1_0000_0000
  }

  /** The value read from digits, most significant first. */
  function Value(s: string): Word
    requires AllDigits(s)
  {
    if s == "" then 0 else Shift(Value(s[..|s| - 1]), DigitValue(s[|s| - 1]))
  }

  /** The number the digits stand for, however many there are. */
  function Numeral(s: string): nat
    requires AllDigits(s)
  {
    if s == "" then 0 else 10 * Numeral(s[..|s| - 1]) + DigitValue(s[|s| - 1])
  }

  lemma ShiftWraps(n: nat, v: Word, d: int)
    requires 0 <= d < 10 && v == n % 0x1_0000_0000
    ensures Shift(v, d) == (10 * n + d) % 0x1_0000_0000
  {
    var k := n / 0x1_0000_0000;
    assert 10 * n + d == v * 10 + d + 10 * k * 0x1_0000_0000;
    AddWraps(v * 10 + d, 10 * k);
  }

  lemma {:induction false} AddWraps(x: nat, k: nat)
    ensures (x + k * 0x1_0000_0000) % 0x1_0000_0000 == x % 0x1_0000_0000
  {
    if k > 0 {
      AddWraps(x, k - 1);
      assert x + k * 0x1_0000_0000 == x + (k - 1) * 0x1_0000_0000 + 0x1_0000_0000;
    }
  }

  /** Any string of digits is read as its number modulo 2 to the 32. */
  lemma {:induction false} ValueWraps(s: string)
    requires AllDigits(s)
    ensures Value(s) == Numeral(s) % 0x1_0000_0000
  {
    if s != "" {
      var t := s[..|s| - 1];
      ValueWraps(t);
      ShiftWraps(Numeral(t), Value(t), DigitValue(s[|s| - 1]));
    }
  }

  lemma ValueSnoc(s: string, n: nat)
    requires n < |s| && AllDigits(s[..n]) && IsDigit(s[n])
    ensures AllDigits(s[..n + 1]) && Value(s[..n + 1]) == Shift(Value(s[..n]), DigitValue(s[n]))
  {
    assert s[..n + 1][..n] == s[..n];
    forall i | 0 <= i < n ensures IsDigit(s[i]) {
      assert s[..n][i] == s[i];
    }
  }

  lemma ValueAppend(s: string, c: char)
    requires AllDigits(s) && IsDigit(c)
    ensures AllDigits(s + [c]) && Value(s + [c]) == Shift(Value(s), DigitValue(c))
  {
    assert (s + [c])[..|s|] == s;
  }

  lemma {:induction false} ValueOfShow(x: Word)
    ensures Value(Show(x)) == x
  {
    if x < 10 {
      ValueAppend("", DigitChar(x));
      assert Show(x) == "" + [DigitChar(x)];
    } else {
      ValueOfShow(x / 10);
      ValueAppend(Show(x / 10), DigitChar(x % 10));
    }
  }

  function Pow10(n: nat): nat {
    if n == 0 then 1 else 10 * Pow10(n - 1)
  }

  lemma ShowLength(x: Word, n: nat)
    requires n > 0 && x < Pow10(n)
    ensures |Show(x)| <= n
  {
    if x >= 10 {
      ShowLength(x / 10, n - 1);
    }
  }

  /** A 32-bit number takes at most ten characters, a 16-bit one at most five. */
  lemma ShowWidth(x: Word)
    ensures |Show(x)| <= 10 && (x <= 0xFFFF ==> |Show(x)| <= 5)
  {
    assert Pow10(5) == 100000;
    assert Pow10(10) == 10000000000 by { assert Pow10(7) == 10000000; }
    ShowLength(x, 10);
    if x <= 0xFFFF {
      ShowLength(x, 5);
    }
  }

  /** How many digits a text starts with. */
  function DigitRun(s: string): (n: nat)
    ensures n <= |s| && AllDigits(s[..n]) && (n < |s| ==> !IsDigit(s[n]))
  {
    if s == "" || !IsDigit(s[0]) then 0 else
    var n := DigitRun(s[1..]);
    assert s[..n + 1] == [s[0]] + s[1..][..n];
    n + 1
  }

  lemma RunOfNumber(ds: string, rest: string)
    requires AllDigits(ds) && (rest == "" || !IsDigit(rest[0]))
    ensures DigitRun(ds + rest) == |ds|
  {
    if ds == "" {
      assert ds + rest == rest;
    } else {
      assert (ds + rest)[1..] == ds[1..] + rest;
      RunOfNumber(ds[1..], rest);
    }
  }
}
