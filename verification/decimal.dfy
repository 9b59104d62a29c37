/**
 * Decimal arithmetic and the string operations the version code relies on:
 * powers of ten, splitting a string on a separator, and strict base-10
 * parsing and printing of natural numbers.
 */
module Decimal {
  import opened Wrappers

  /** 10^i, the weight `Math.pow(10, i)` gives position i. */
  function Pow10(i: nat): (r: nat)
    ensures r >= 1
  {
    if i == 0 then 1 else 10 * Pow10(i - 1)
  }

  /** Weights multiply: 10^(a+b) = 10^a * 10^b. */
  lemma {:induction false} Pow10Add(a: nat, b: nat)
    ensures Pow10(a + b) == Pow10(a) * Pow10(b)
    decreases a
  {
    if a > 0 {
      Pow10Add(a - 1, b);
      assert Pow10(a + b) == 10 * Pow10(a - 1 + b);
      assert Pow10(a) * Pow10(b) == 10 * (Pow10(a - 1) * Pow10(b));
    }
  }

  predicate IsDigit(c: char) {
    '0' <= c <= '9'
  }

  predicate AllDigits(s: string) {
    forall i :: 0 <= i < |s| ==> IsDigit(s[i])
  }

  function DigitValue(c: char): (d: nat)
    requires IsDigit(c)
    ensures d < 10
  {
    c as int - '0' as int
  }

  function DigitChar(d: nat): (c: char)
    requires d < 10
    ensures IsDigit(c) && DigitValue(c) == d
  {
    ('0' as int + d) as char
  }

  /** Reference reading of digit values as a base-10 natural, most significant first. */
  function DecimalValue(digits: seq<nat>): (v: nat)
  {
    if |digits| == 0 then 0 else 10 * DecimalValue(digits[..|digits| - 1]) + digits[|digits| - 1]
  }

  /** The digit values of a run of digits, position by position. */
  function DigitValues(s: string): (ds: seq<nat>)
    requires AllDigits(s)
    ensures |ds| == |s|
    ensures forall i :: 0 <= i < |s| ==> ds[i] == DigitValue(s[i]) && ds[i] < 10
  {
    seq(|s|, i requires 0 <= i < |s| => DigitValue(s[i]))
  }

  /**
   * Reads a string as a base-10 natural. Only a non-empty run of ASCII
   * digits is a number; anything else is None.
   */
  function ParseDecimal(s: string): (r: Option<nat>)
    ensures r.Some? <==> |s| > 0 && AllDigits(s)
  {
    if |s| == 0 || !IsDigit(s[|s| - 1]) then None
    else if |s| == 1 then Some(DigitValue(s[0]))
    else
      match ParseDecimal(s[..|s| - 1])
      case None => None
      case Some(v) => Some(10 * v + DigitValue(s[|s| - 1]))
  }

  /** The shortest base-10 spelling of n, as a template literal prints it. */
  function ShowNat(n: nat): (s: string)
    ensures |s| > 0 && AllDigits(s)
    ensures n >= 10 ==> |s| > 1
    ensures s[0] == '0' <==> n == 0
    ensures |s| == 1 || s[0] != '0'
  {
    if n < 10 then [DigitChar(n)] else ShowNat(n / 10) + [DigitChar(n % 10)]
  }

  /** A run of digits parses to its reference decimal reading, leading zeros and all. */
  lemma {:induction false} ParseDecimalValue(s: string)
    requires |s| > 0 && AllDigits(s)
    ensures ParseDecimal(s) == Some(DecimalValue(DigitValues(s)))
    decreases |s|
  {
    var ds := DigitValues(s);
    var n := |s|;
    if n == 1 {
      assert ds[..0] == [];
    } else {
      var p := s[..n - 1];
      assert AllDigits(p);
      ParseDecimalValue(p);
      assert ds[..n - 1] == DigitValues(p);
    }
  }

  /** A leading zero changes nothing: "07" reads as 7, as `parseInt` reads it. */
  lemma LeadingZeroIgnored(s: string)
    requires |s| > 0 && AllDigits(s)
    ensures ParseDecimal("0" + s) == ParseDecimal(s)
  {
    DigitValuesPrependZero(s);
    ParseDecimalValue(s);
    ParseDecimalValue("0" + s);
    LeadingZeroDecimal(DigitValues(s));
  }

  lemma DigitValuesPrependZero(s: string)
    requires AllDigits(s)
    ensures AllDigits("0" + s)
    ensures DigitValues("0" + s) == [0] + DigitValues(s)
  {
    var z := "0" + s;
    assert forall i :: 1 <= i < |z| ==> z[i] == s[i - 1];
    var dz, ds := DigitValues(z), DigitValues(s);
    assert forall i :: 1 <= i < |z| ==> dz[i] == ds[i - 1];
  }

  lemma {:induction false} LeadingZeroDecimal(ds: seq<nat>)
    ensures DecimalValue([0] + ds) == DecimalValue(ds)
    decreases |ds|
  {
    if |ds| > 0 {
      LeadingZeroDecimal(ds[..|ds| - 1]);
      assert ([0] + ds)[..|ds|] == [0] + ds[..|ds| - 1];
    } else {
      assert [0] + ds == [0];
      assert [0][..0] == [];
    }
  }

  /** Printing a natural and reading it back yields the same natural. */
  lemma {:induction false} ParseShowNat(n: nat)
    ensures ParseDecimal(ShowNat(n)) == Some(n)
  {
    if n >= 10 {
      ParseShowNat(n / 10);
      var s := ShowNat(n);
      assert s[..|s| - 1] == ShowNat(n / 10);
    }
  }

  /** Glues the parts together with one separator between neighbours. */
  function Join(parts: seq<string>, sep: char): (s: string)
    requires |parts| > 0
  {
    if |parts| == 1 then parts[0] else parts[0] + [sep] + Join(parts[1..], sep)
  }

  /**
   * `s.split(sep)`: the maximal separator-free pieces of s, in order,
   * including empty pieces around adjacent or boundary separators.
   */
  function Split(s: string, sep: char): (parts: seq<string>)
    ensures |parts| > 0
    ensures forall i :: 0 <= i < |parts| ==> sep !in parts[i]
    ensures Join(parts, sep) == s
  {
    if |s| == 0 then [""]
    else
      var rest := Split(s[1..], sep);
      if s[0] == sep then
        assert ([""] + rest)[1..] == rest;
        [""] + rest
      else
        var parts := [[s[0]] + rest[0]] + rest[1..];
        assert parts[1..] == rest[1..];
        parts
  }

  /** Splitting a string that begins with a separator-free prefix p. */
  lemma {:induction false} SplitSeparatorFreePrefix(p: string, t: string, sep: char)
    requires sep !in p
    ensures Split(p + t, sep) == [p + Split(t, sep)[0]] + Split(t, sep)[1..]
    decreases |p|
  {
    if |p| > 0 {
      SplitSeparatorFreePrefix(p[1..], t, sep);
      assert (p + t)[1..] == p[1..] + t;
      assert [p[0]] + (p[1..] + Split(t, sep)[0]) == p + Split(t, sep)[0];
    } else {
      var rest := Split(t, sep);
      assert p + t == t;
      assert p + rest[0] == rest[0];
      assert [rest[0]] + rest[1..] == rest;
    }
  }

  /** Splitting undoes joining when no part contains the separator. */
  lemma {:induction false} SplitJoin(parts: seq<string>, sep: char)
    requires |parts| > 0
    requires forall i :: 0 <= i < |parts| ==> sep !in parts[i]
    ensures Split(Join(parts, sep), sep) == parts
  {
    if |parts| == 1 {
      SplitSeparatorFreePrefix(parts[0], "", sep);
      assert parts[0] + "" == parts[0];
    } else {
      var tail := Join(parts[1..], sep);
      SplitJoin(parts[1..], sep);
      SplitSeparatorFreePrefix(parts[0], [sep] + tail, sep);
      assert ([sep] + tail)[1..] == tail;
      assert parts[0] + ([sep] + tail) == parts[0] + [sep] + tail;
      assert Split([sep] + tail, sep) == [""] + parts[1..];
      assert parts[0] + "" == parts[0];
    }
  }
}
