/** Optional values and results, used where the operator returns `Option` and `Result`. */
module Wrappers {
  datatype Option<+T> = None | Some(value: T)

  datatype Result<+T, +E> = Ok(value: T) | Err(error: E)
}

/**
  The string operations the operator applies to names, keys and values:
  decimal formatting and parsing, substring search, removal of a substring
  and splitting at a separator. Characters are compared one by one.
 */
module Text {
  import opened Wrappers

  predicate IsDigit(c: char) {
    '0' <= c <= '9'
  }

  predicate AllDigits(s: string) {
    forall i :: 0 <= i < |s| ==> IsDigit(s[i])
  }

  function DigitChar(d: nat): char
    requires d < 10
  {
    "0123456789"[d]
  }

  function DigitValue(c: char): nat
    requires IsDigit(c)
  {
    c as int - '0' as int
  }

  /** The decimal form of a number, without leading zeros (Rust's `to_string`). */
  function Decimal(n: nat): string {
    if n < 10 then [DigitChar(n)] else Decimal(n / 10) + [DigitChar(n % 10)]
  }

  function DigitsValue(s: string): nat
    requires AllDigits(s)
  {
    if s == [] then 0 else 10 * DigitsValue(s[..|s| - 1]) + DigitValue(s[|s| - 1])
  }

  /** Rust's `parse::<u16>()`: an optional plus sign, at least one digit, no overflow. */
  function ParseU16(s: string): Option<nat> {
    ParseBounded(s, 0x1_0000)
  }

  /** An unsigned parse that fails on values of `bound` and above. */
  function ParseBounded(s: string, bound: nat): Option<nat> {
    var digits := if |s| > 1 && s[0] == '+' then s[1..] else s;
    if digits == [] || !AllDigits(digits) then None
    else if DigitsValue(digits) < bound then Some(DigitsValue(digits))
    else None
  }

  /** Rust's `parse::<i32>()`: as above, with an optional minus sign. */
  function ParseI32(s: string): Option<int> {
    if |s| > 1 && s[0] == '-' then
      if !AllDigits(s[1..]) then None
      else
        var magnitude: int := DigitsValue(s[1..]);
        if magnitude <= 0x8000_0000 then Some(-magnitude) else None
    else
      ParseBounded(s, 0x8000_0000)
  }

  lemma {:induction false} DecimalDigits(n: nat)
    ensures |Decimal(n)| > 0 && AllDigits(Decimal(n))
    ensures DigitsValue(Decimal(n)) == n
  {
    if n >= 10 {
      DecimalDigits(n / 10);
      var s := Decimal(n);
      assert s[..|s| - 1] == Decimal(n / 10);
      assert forall i :: 0 <= i < |s| - 1 ==> s[i] == Decimal(n / 10)[i];
    } else {
      var s := Decimal(n);
      assert s[..0] == [];
    }
  }

  /** Printing a number and parsing it back gives the number. */
  lemma ParseDecimal(n: nat, bound: nat)
    requires n < bound
    ensures ParseBounded(Decimal(n), bound) == Some(n)
  {
    DecimalDigits(n);
  }

  lemma {:induction false} ZeroInFront(s: string)
    requires AllDigits(s)
    ensures AllDigits("0" + s) && DigitsValue("0" + s) == DigitsValue(s)
  {
    if s != [] {
      var t := "0" + s;
      assert t[..|t| - 1] == "0" + s[..|s| - 1] && t[|t| - 1] == s[|s| - 1];
      ZeroInFront(s[..|s| - 1]);
    }
  }

  /** A leading zero does not change what is parsed. */
  lemma ParseZeroInFront(n: nat, bound: nat)
    requires n < bound
    ensures ParseBounded("0" + Decimal(n), bound) == Some(n) && "0" + Decimal(n) != Decimal(n)
  {
    DecimalDigits(n);
    ZeroInFront(Decimal(n));
  }

  lemma DecimalInjective(m: nat, n: nat)
    ensures Decimal(m) == Decimal(n) ==> m == n
  {
    DecimalDigits(m);
    DecimalDigits(n);
  }

  /** Decimal forms contain none of the separators used by the operator. */
  lemma DecimalHasNo(n: nat, c: char)
    requires !IsDigit(c)
    ensures c !in Decimal(n)
  {
    DecimalDigits(n);
  }

  /** Rust's `contains` on strings. */
  predicate Contains(s: string, t: string) {
    exists i :: 0 <= i <= |s| && OccursAt(s, t, i)
  }

  predicate OccursAt(s: string, t: string, i: nat) {
    i + |t| <= |s| && s[i..i + |t|] == t
  }

  predicate IsPrefix(t: string, s: string) {
    |t| <= |s| && s[..|t|] == t
  }

  predicate IsSuffix(t: string, s: string) {
    |t| <= |s| && s[|s| - |t|..] == t
  }

  /** Rust's `replace(pat, "")` for a non-empty pattern: leftmost matches first. */
  function Remove(s: string, pat: string): string
    requires pat != []
    decreases |s|
  {
    if s == [] then []
    else if IsPrefix(pat, s) then Remove(s[|pat|..], pat)
    else [s[0]] + Remove(s[1..], pat)
  }

  lemma {:induction false} RemoveAbsent(s: string, pat: string, c: char)
    requires c in pat && c !in s
    ensures Remove(s, pat) == s
    decreases |s|
  {
    if s != [] {
      assert !IsPrefix(pat, s);
      RemoveAbsent(s[1..], pat, c);
    }
  }

  /** The text before the first occurrence of `c`, all of it when there is none. */
  function Before(s: string, c: char): string {
    if s == [] || s[0] == c then [] else [s[0]] + Before(s[1..], c)
  }

  /** The text after the first occurrence of `c`. */
  function After(s: string, c: char): Option<string> {
    if s == [] then None else if s[0] == c then Some(s[1..]) else After(s[1..], c)
  }

  lemma {:induction false} SplitJoined(a: string, c: char, b: string)
    requires c !in a
    ensures Before(a + [c] + b, c) == a && After(a + [c] + b, c) == Some(b)
  {
    var s := a + [c] + b;
    if a == [] {
      assert s[1..] == b;
    } else {
      assert s[1..] == a[1..] + [c] + b;
      SplitJoined(a[1..], c, b);
    }
  }

  /** A text without `c` has nothing after `c`. */
  lemma {:induction false} SplitAbsent(s: string, c: char)
    requires c !in s
    ensures Before(s, c) == s && After(s, c) == None
  {
    if s != [] {
      SplitAbsent(s[1..], c);
    }
  }
}
