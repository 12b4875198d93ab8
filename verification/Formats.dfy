/** Reading printf formats: the lexical pieces shared by the length interpreter and by rendering. */
module Formats {

  const I64_MAX: int := 0x7fff_ffff_ffff_ffff

  predicate IsDigit(c: char) { '0' <= c <= '9' }

  // The flag characters of section 7.21.6.1 of C11.
  predicate IsFlag(c: char) { c in {'#', '0', '-', '+', ' '} }

  // What the interpreter skips before the width: flags and length modifiers alike.
  predicate IsSkipped(c: char) { IsFlag(c) || c in {'h', 'l', 'L'} }

  function SkipFlags(f: string, i: nat): (j: nat)
    requires i <= |f|
    ensures i <= j <= |f| && (forall k :: i <= k < j ==> IsFlag(f[k])) && (j < |f| ==> !IsFlag(f[j]))
    decreases |f| - i
  {
    if i < |f| && IsFlag(f[i]) then SkipFlags(f, i + 1) else i
  }

  function SkipModifiers(f: string, i: nat): (j: nat)
    requires i <= |f|
    ensures i <= j <= |f| && (forall k :: i <= k < j ==> IsSkipped(f[k])) && (j < |f| ==> !IsSkipped(f[j]))
    decreases |f| - i
  {
    if i < |f| && IsSkipped(f[i]) then SkipModifiers(f, i + 1) else i
  }

  function DigitsEnd(f: string, i: nat): (j: nat)
    requires i <= |f|
    ensures i <= j <= |f| && (forall k :: i <= k < j ==> IsDigit(f[k])) && (j < |f| ==> !IsDigit(f[j]))
    decreases |f| - i
  {
    if i < |f| && IsDigit(f[i]) then DigitsEnd(f, i + 1) else i
  }

  function DigitsValue(f: string, i: nat, j: nat): (n: nat)
    requires i <= j <= |f| && forall k :: i <= k < j ==> IsDigit(f[k])
    decreases j
  {
    if i == j then 0 else assert IsDigit(f[j - 1]); 10 * DigitsValue(f, i, j - 1) + (f[j - 1] as int - '0' as int)
  }

  // The length modifiers of section 7.21.6.1 of C11, and `q`.
  predicate IsLength(c: char) { c in {'h', 'l', 'L', 'j', 'z', 't', 'q'} }

  function SkipLengths(f: string, i: nat): (j: nat)
    requires i <= |f|
    ensures i <= j <= |f| && (forall k :: i <= k < j ==> IsLength(f[k])) && (j < |f| ==> !IsLength(f[j]))
    decreases |f| - i
  {
    if i < |f| && IsLength(f[i]) then SkipLengths(f, i + 1) else i
  }

  // The number of digits of a non-negative integer.
  function Digits(n: nat, base: nat): (k: nat)
    requires base in {8, 10, 16}
    ensures k >= 1
  {
    if n < base then 1 else 1 + Digits(n / base, base)
  }

  function Power(base: nat, k: nat): nat { if k == 0 then 1 else base * Power(base, k - 1) }

  // A number below base^k has at most k digits.
  lemma {:induction false} DigitsBound(n: nat, base: nat, k: nat)
    requires base in {8, 10, 16} && k >= 1 && n < Power(base, k)
    ensures Digits(n, base) <= k
    decreases k
  {
    if n >= base {
      var m := Power(base, k - 1);
      assert n / base < m by {
        if base == 8 { assert n < 8 * m; } else if base == 10 { assert n < 10 * m; } else { assert n < 16 * m; }
      }
      assert k > 1;
      DigitsBound(n / base, base, k - 1);
    }
  }
}
