/**
 * The kernel's version code: a dotted version name such as "1.2.3" and a
 * build number are folded into one integer, `xyz000 + build`.
 *
 * The source splits the name on '.', reverses the pieces and weights piece i
 * (counting from the least significant) by 10^i. WeightedSum and Reverse
 * model exactly that; DecimalValue is an independent reference reading of
 * the pieces as base-10 digits, and the lemmas connect the two.
 */
module VersionCode {
  import opened Wrappers
  import opened Decimal

  function Reverse<T>(s: seq<T>): (r: seq<T>)
    ensures |r| == |s|
    ensures forall i :: 0 <= i < |s| ==> r[i] == s[|s| - 1 - i]
  {
    if |s| == 0 then [] else Reverse(s[1..]) + [s[0]]
  }

  /** What element i of ws adds to the accumulation: ws[i] * 10^i. */
  function PieceWeight(ws: seq<nat>, i: nat): (w: nat)
    requires i < |ws|
  {
    Pow10(i) * ws[i]
  }

  /** The `forEach` accumulation: every element i of ws contributes its PieceWeight. */
  function WeightedSum(ws: seq<nat>): (r: nat)
    ensures forall i {:trigger PieceWeight(ws, i)} :: 0 <= i < |ws| ==> PieceWeight(ws, i) <= r
  {
    if |ws| == 0 then 0
    else
      var front := ws[..|ws| - 1];
      assert forall i :: 0 <= i < |front| ==> PieceWeight(ws, i) == PieceWeight(front, i);
      WeightedSum(front) + Pow10(|ws| - 1) * ws[|ws| - 1]
  }

  /** Putting a new least significant element in front shifts the rest up one place. */
  lemma {:induction false} WeightedSumPrepend(x: nat, ws: seq<nat>)
    ensures WeightedSum([x] + ws) == x + 10 * WeightedSum(ws)
    decreases |ws|
  {
    if |ws| > 0 {
      var n := |ws|;
      var u := ws[..n - 1];
      var y := ws[n - 1];
      var xs := [x] + ws;
      WeightedSumPrepend(x, u);
      assert xs[..n] == [x] + u;
      assert xs[n] == y;
      var a := WeightedSum([x] + u);
      var c := WeightedSum(u);
      assert WeightedSum(xs) == a + Pow10(n) * y;
      assert WeightedSum(ws) == c + Pow10(n - 1) * y;
      PowerShift(n - 1, y);
      assert a == x + 10 * c;
    } else {
      assert [x] + ws == [x];
    }
  }

  lemma PowerShift(i: nat, y: nat)
    ensures Pow10(i + 1) * y == 10 * (Pow10(i) * y)
  {
    Pow10Add(i, 1);
    assert Pow10(1) == 10;
  }

  /** Reversing and weighting by position reads the parts as decimal digits. */
  lemma {:induction false} ReversedWeightedSumIsDecimal(parts: seq<nat>)
    ensures WeightedSum(Reverse(parts)) == DecimalValue(parts)
    decreases |parts|
  {
    if |parts| > 0 {
      var p := parts[..|parts| - 1];
      var x := parts[|parts| - 1];
      ReversedWeightedSumIsDecimal(p);
      assert Reverse(parts) == [x] + Reverse(p);
      WeightedSumPrepend(x, Reverse(p));
    }
  }

  /** The accumulation itself is the decimal reading of its elements, most significant last. */
  lemma WeightedSumIsDecimal(ws: seq<nat>)
    ensures WeightedSum(ws) == DecimalValue(Reverse(ws))
  {
    assert Reverse(Reverse(ws)) == ws;
    ReversedWeightedSumIsDecimal(Reverse(ws));
  }

  /** The code of already-parsed components: their decimal reading, times 1000, plus the build. */
  function CodeFromParts(parts: seq<nat>, build: nat): (code: nat)
    ensures code == DecimalValue(parts) * 1000 + build
  {
    ReversedWeightedSumIsDecimal(parts);
    WeightedSum(Reverse(parts)) * 1000 + build
  }

  /** A piece `parseInt` reads as a natural in this model. */
  predicate IsComponent(piece: string) {
    |piece| > 0 && AllDigits(piece)
  }

  predicate AllComponents(pieces: seq<string>) {
    forall i :: 0 <= i < |pieces| ==> IsComponent(pieces[i])
  }

  /** Parses every piece, or gives None when one of them is not a number. */
  function ParseComponents(pieces: seq<string>): (r: Option<seq<nat>>)
    ensures r.Some? <==> AllComponents(pieces)
    ensures r.Some? ==> |r.value| == |pieces|
    ensures r.Some? ==> forall i :: 0 <= i < |pieces| ==> ParseDecimal(pieces[i]) == Some(r.value[i])
  {
    if |pieces| == 0 then Some([])
    else
      var head := ParseDecimal(pieces[0]);
      var tail := ParseComponents(pieces[1..]);
      assert forall i :: 1 <= i < |pieces| ==> pieces[i] == pieces[1..][i - 1];
      if head.None? || tail.None? then None
      else Some([head.value] + tail.value)
  }

  /**
   * `getVersionCodeFrom(name, buildNumber)`. None stands for the NaN the
   * source computes when a piece of the name is not a number.
   */
  function GetVersionCodeFrom(name: string, build: nat): (code: Option<nat>)
    ensures code.Some? <==> AllComponents(Split(name, '.'))
    ensures code.Some? ==>
      code.value == DecimalValue(ParseComponents(Split(name, '.')).value) * 1000 + build
  {
    var pieces := Split(name, '.');
    var parsed := ParseComponents(pieces);
    if parsed.None? then None else Some(CodeFromParts(parsed.value, build))
  }

  /** Three components x, y, z give `(100x + 10y + z) * 1000 + build`. */
  lemma ThreeComponentCode(x: nat, y: nat, z: nat, build: nat)
    ensures CodeFromParts([x, y, z], build) == (100 * x + 10 * y + z) * 1000 + build
  {
    assert [x, y, z][..2] == [x, y];
    assert [x, y][..1] == [x];
    assert [x][..0] == [];
    assert DecimalValue([x]) == x;
    assert DecimalValue([x, y]) == 10 * x + y;
    assert DecimalValue([x, y, z]) == 10 * (10 * x + y) + z;
  }

  lemma NoDotInDigits(s: string)
    requires ParseDecimal(s).Some?
    ensures '.' !in s
  {
    assert forall i :: 0 <= i < |s| ==> s[i] != '.';
  }

  lemma JoinThree(a: string, b: string, c: string)
    ensures Join([a, b, c], '.') == a + "." + b + "." + c
  {
    var pieces := [a, b, c];
    assert pieces[1..] == [b, c];
    assert [b, c][1..] == [c];
    assert Join([b, c], '.') == b + ['.'] + c;
  }

  /** "a.b.c" for pieces that read as the naturals x, y and z has code `xyz000 + build`. */
  lemma DottedPiecesCode(a: string, b: string, c: string, x: nat, y: nat, z: nat, build: nat)
    requires ParseDecimal(a) == Some(x) && ParseDecimal(b) == Some(y) && ParseDecimal(c) == Some(z)
    ensures GetVersionCodeFrom(a + "." + b + "." + c, build) == Some((100 * x + 10 * y + z) * 1000 + build)
  {
    NoDotInDigits(a);
    NoDotInDigits(b);
    NoDotInDigits(c);
    SplitThree(a, b, c);
    ParseThree(a, b, c, x, y, z);
    CodeOfParsedName(a + "." + b + "." + c, [x, y, z], build);
    ThreeComponentCode(x, y, z, build);
  }

  lemma SplitThree(a: string, b: string, c: string)
    requires '.' !in a && '.' !in b && '.' !in c
    ensures Split(a + "." + b + "." + c, '.') == [a, b, c]
  {
    JoinThree(a, b, c);
    var pieces := [a, b, c];
    assert forall i :: 0 <= i < |pieces| ==> '.' !in pieces[i];
    SplitJoin(pieces, '.');
  }

  lemma ParseThree(a: string, b: string, c: string, x: nat, y: nat, z: nat)
    requires ParseDecimal(a) == Some(x) && ParseDecimal(b) == Some(y) && ParseDecimal(c) == Some(z)
    ensures ParseComponents([a, b, c]) == Some([x, y, z])
  {
    var pieces := [a, b, c];
    assert IsComponent(pieces[0]) && IsComponent(pieces[1]) && IsComponent(pieces[2]);
    var r := ParseComponents(pieces);
    assert r.Some?;
    assert r.value[0] == x && r.value[1] == y && r.value[2] == z;
    assert r.value == [x, y, z];
  }

  lemma CodeOfParsedName(name: string, parts: seq<nat>, build: nat)
    requires ParseComponents(Split(name, '.')) == Some(parts)
    ensures GetVersionCodeFrom(name, build) == Some(CodeFromParts(parts, build))
  {
  }

  /** The name "x.y.z", with each component printed in base 10, has code `xyz000 + build`. */
  lemma DottedNameCode(x: nat, y: nat, z: nat, build: nat)
    ensures GetVersionCodeFrom(ShowNat(x) + "." + ShowNat(y) + "." + ShowNat(z), build)
            == Some((100 * x + 10 * y + z) * 1000 + build)
  {
    ParseShowNat(x);
    ParseShowNat(y);
    ParseShowNat(z);
    DottedPiecesCode(ShowNat(x), ShowNat(y), ShowNat(z), x, y, z, build);
  }

  /** An instance of `xyz000 + build`: "1.2.3" with build 45 is 123045. */
  lemma ExampleCode()
    ensures GetVersionCodeFrom("1.2.3", 45) == Some(123045)
  {
    DottedNameCode(1, 2, 3, 45);
    assert ShowNat(1) + "." + ShowNat(2) + "." + ShowNat(3) == "1.2.3";
  }

  /** Part k of n, in the name's own order, contributes parts[k] * 10^(n-1-k) * 1000. */
  lemma {:induction false} PartContribution(parts: seq<nat>, k: nat, build: nat)
    requires k < |parts|
    ensures CodeFromParts(parts, build)
            == CodeFromParts(parts[k := 0], build) + parts[k] * Pow10(|parts| - 1 - k) * 1000
  {
    DecimalPartContribution(parts, k);
  }

  lemma {:induction false} DecimalPartContribution(parts: seq<nat>, k: nat)
    requires k < |parts|
    ensures DecimalValue(parts) == DecimalValue(parts[k := 0]) + parts[k] * Pow10(|parts| - 1 - k)
    decreases |parts|
  {
    var n := |parts|;
    var p := parts[..n - 1];
    var z := parts[k := 0];
    assert DecimalValue(parts) == 10 * DecimalValue(p) + parts[n - 1];
    if k == n - 1 {
      assert z[..n - 1] == p;
      assert DecimalValue(z) == 10 * DecimalValue(p);
    } else {
      DecimalPartContribution(p, k);
      assert z[..n - 1] == p[k := 0];
      assert DecimalValue(z) == 10 * DecimalValue(p[k := 0]) + parts[n - 1];
      assert n - 1 - k == (n - 2 - k) + 1;
      PowerShift(n - 2 - k, parts[k]);
    }
  }

  /** The first n decimal digits of v, least significant last. */
  function DigitsOf(v: nat, n: nat): (d: seq<nat>)
    ensures |d| == n
    ensures forall i :: 0 <= i < n ==> d[i] < 10
  {
    if n == 0 then [] else DigitsOf(v / 10, n - 1) + [v % 10]
  }

  /** Splits a code back into its n version digits and its build number. */
  function DecodeVersionCode(code: nat, n: nat): (decoded: (seq<nat>, nat))
  {
    (DigitsOf(code / 1000, n), code % 1000)
  }

  predicate AreDigits(parts: seq<nat>) {
    forall i :: 0 <= i < |parts| ==> parts[i] < 10
  }

  lemma {:induction false} DigitsOfDecimalValue(digits: seq<nat>)
    requires AreDigits(digits)
    ensures DigitsOf(DecimalValue(digits), |digits|) == digits
    decreases |digits|
  {
    if |digits| > 0 {
      var n := |digits|;
      var p := digits[..n - 1];
      var x := digits[n - 1];
      var v := DecimalValue(digits);
      assert AreDigits(p);
      DigitsOfDecimalValue(p);
      assert v == 10 * DecimalValue(p) + x;
      assert x < 10;
      assert v / 10 == DecimalValue(p) && v % 10 == x;
      assert DigitsOf(v, n) == DigitsOf(v / 10, n - 1) + [v % 10];
      assert digits == p + [x];
    }
  }

  /**
   * For single-digit components and a build number below 1000 the code
   * determines the version: decoding returns the components and the build.
   */
  lemma DecodeEncode(parts: seq<nat>, build: nat)
    requires AreDigits(parts)
    requires build < 1000
    ensures DecodeVersionCode(CodeFromParts(parts, build), |parts|) == (parts, build)
  {
    DigitsOfDecimalValue(parts);
  }

  /** Hence distinct single-digit versions of one length never share a code. */
  lemma DigitCodesInjective(p: seq<nat>, b: nat, q: seq<nat>, c: nat)
    requires AreDigits(p) && AreDigits(q) && |p| == |q|
    requires b < 1000 && c < 1000
    requires CodeFromParts(p, b) == CodeFromParts(q, c)
    ensures p == q && b == c
  {
    DecodeEncode(p, b);
    DecodeEncode(q, c);
  }

  /** Components of 10 or more overlap their neighbours: "1.20.3" and "3.0.3" share a code. */
  lemma ComponentsAboveNineCollide(build: nat)
    ensures CodeFromParts([1, 20, 3], build) == CodeFromParts([3, 0, 3], build)
  {
    ThreeComponentCode(1, 20, 3, build);
    ThreeComponentCode(3, 0, 3, build);
  }

  /** A build number of 1000 or more carries into the last component. */
  lemma BuildAboveNineHundredNinetyNineCollides()
    ensures CodeFromParts([1, 2, 3], 1000) == CodeFromParts([1, 2, 4], 0)
  {
    ThreeComponentCode(1, 2, 3, 1000);
    ThreeComponentCode(1, 2, 4, 0);
  }
}
