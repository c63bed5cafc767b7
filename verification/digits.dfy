/**
 * Positional digit strings as `Number.prototype.toString(radix)` produces
 * them for non-negative integers (lower-case digits, no leading zeros, "0"
 * for zero), and the reading of a digit string back into its value.
 */
module Digits {

  /** The digit characters of radix 16 and below, lowest value first. */
  const DigitChars: string := "0123456789abcdef"

  predicate ValidBase(base: nat) {
    2 <= base <= 16
  }

  /** Value of a digit character in either case; 16 for any other character. */
  function CharValue(c: char): nat {
    if '0' <= c <= '9' then c as int - '0' as int
    else if 'a' <= c <= 'f' then c as int - 'a' as int + 10
    else if 'A' <= c <= 'F' then c as int - 'A' as int + 10
    else 16
  }

  predicate IsDigit(c: char, base: nat) {
    CharValue(c) < base
  }

  predicate AllDigits(s: string, base: nat) {
    forall i :: 0 <= i < |s| ==> IsDigit(s[i], base)
  }

  function DigitChar(d: nat): (c: char)
    requires d < 16
    ensures CharValue(c) == d
  {
    DigitChars[d]
  }

  /** `n.toString(base)` for a non-negative integer `n`. */
  function ToDigits(n: nat, base: nat): (s: string)
    requires ValidBase(base)
    ensures AllDigits(s, base)
    ensures |s| == 1 <==> n < base
    ensures 1 <= |s|
    ensures s[0] == '0' ==> n == 0
    decreases n
  {
    if n < base then [DigitChar(n)]
    else
      DivStep(n, base);
      var front := ToDigits(n / base, base);
      var s := front + [DigitChar(n % base)];
      assert s[0] == front[0];
      assert forall i :: 0 <= i < |front| ==> s[i] == front[i];
      s
  }

  /** The number a digit string denotes, most significant digit first. */
  function Value(s: string, base: nat): nat {
    if |s| == 0 then 0
    else Value(s[..|s| - 1], base) * base + CharValue(s[|s| - 1])
  }

  /** Reading back what `ToDigits` wrote gives the original number. */
  lemma {:induction false} ValueOfToDigits(n: nat, base: nat)
    requires ValidBase(base)
    ensures Value(ToDigits(n, base), base) == n
    decreases n
  {
    if n >= base {
      var q, d := n / base, n % base;
      DivStep(n, base);
      var p := ToDigits(q, base);
      var s := p + [DigitChar(d)];
      assert s == ToDigits(n, base);
      assert s[..|s| - 1] == p;
      ValueOfToDigits(q, base);
      assert Value(s, base) == Value(p, base) * base + d;
    }
  }

  lemma DivStep(n: nat, base: nat)
    requires 2 <= base <= n
    ensures 1 <= n / base < n
    ensures (n / base) * base + n % base == n
    ensures n % base < base
  {}

  /** A leading zero does not change the value of a digit string. */
  lemma {:induction false} ValueLeadingZero(s: string, base: nat)
    ensures Value("0" + s, base) == Value(s, base)
    decreases |s|
  {
    if |s| == 0 {
      assert ("0" + s)[..0] == "";
    } else {
      assert ("0" + s)[..|"0" + s| - 1] == "0" + s[..|s| - 1];
      ValueLeadingZero(s[..|s| - 1], base);
    }
  }

  /** `k` zero characters. */
  function Zeros(k: nat): (z: string)
    ensures |z| == k
    ensures forall i :: 0 <= i < k ==> z[i] == '0'
  {
    seq(k, _ => '0')
  }

  /** Any number of leading zeros leaves the value unchanged. */
  lemma {:induction false} ValueLeadingZeros(k: nat, s: string, base: nat)
    ensures Value(Zeros(k) + s, base) == Value(s, base)
    decreases k
  {
    if k > 0 {
      assert Zeros(k) + s == "0" + (Zeros(k - 1) + s) by {
        assert Zeros(k) == "0" + Zeros(k - 1);
      }
      ValueLeadingZero(Zeros(k - 1) + s, base);
      ValueLeadingZeros(k - 1, s, base);
    } else {
      assert Zeros(k) + s == s;
    }
  }

  /** `s` with every ASCII lower-case letter replaced by its upper-case form. */
  function ToUpper(s: string): (u: string)
    ensures |u| == |s|
    ensures forall i :: 0 <= i < |s| ==> u[i] == UpperChar(s[i])
  {
    seq(|s|, i requires 0 <= i < |s| => UpperChar(s[i]))
  }

  function UpperChar(c: char): (u: char)
    ensures CharValue(u) == CharValue(c)
    ensures !('a' <= u <= 'z')
  {
    if 'a' <= c <= 'z' then (c as int - 'a' as int + 'A' as int) as char else c
  }

  /** Upper-casing a digit string keeps its value. */
  lemma {:induction false} ValueToUpper(s: string, base: nat)
    ensures Value(ToUpper(s), base) == Value(s, base)
    decreases |s|
  {
    if |s| > 0 {
      assert ToUpper(s)[..|s| - 1] == ToUpper(s[..|s| - 1]);
      ValueToUpper(s[..|s| - 1], base);
    }
  }
}
