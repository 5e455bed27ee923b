/** The few JavaScript built-ins that the `toSeconds` helper of the schedule screens relies on:
    `String.prototype.split` with a one-character separator, `Number` applied to a string, and
    the arithmetic and `>` comparison on the numbers that result. */
module JsValues {

  /** A JavaScript number as far as `toSeconds` can produce one, idealised: NaN or an exact,
      unbounded integer. JavaScript numbers are doubles, which round integers above 2^53 and
      overflow to Infinity; this model does neither. */
  datatype JsNumber = NaN | Num(value: int)

  predicate IsDigit(c: char) { '0' <= c <= '9' }

  predicate AllDigits(s: string) { forall i :: 0 <= i < |s| ==> IsDigit(s[i]) }

  function DigitValue(c: char): (d: nat)
    requires IsDigit(c)
    ensures d <= 9
  {
    c as int - '0' as int
  }

  /** The value of a string of decimal digits, most significant digit first. */
  function DecimalValue(s: string): nat
    requires AllDigits(s)
  {
    if s == [] then 0
    else
      var init := s[..|s| - 1];
      assert AllDigits(init) by {
        forall i | 0 <= i < |init| ensures IsDigit(init[i]) { assert init[i] == s[i]; }
      }
      10 * DecimalValue(init) + DigitValue(s[|s| - 1])
  }

  /** `Number(s)` for a string: 0 for the empty string, the decimal value (as an exact integer,
      where JavaScript would round long digit strings to a double) for a string of ASCII digits,
      and NaN for every other string. */
  function ToNumber(s: string): (n: JsNumber)
    ensures n.Num? <==> AllDigits(s)
    ensures s == [] ==> n == Num(0)
  {
    if AllDigits(s) then Num(DecimalValue(s)) else NaN
  }

  /** A two-digit piece such as "08" or "59" is read as tens and units. */
  lemma TwoDigitNumber(a: char, b: char)
    requires IsDigit(a) && IsDigit(b)
    ensures ToNumber([a, b]) == Num(10 * DigitValue(a) + DigitValue(b))
  {
    assert [a, b][..1] == [a];
    assert [a][..0] == [];
    assert DecimalValue([a]) == 10 * DecimalValue([]) + DigitValue(a);
    assert DecimalValue([a, b]) == 10 * DecimalValue([a]) + DigitValue(b);
  }

  /** A leading zero does not change the number: `Number("08")` is `Number("8")`. */
  lemma {:induction false} LeadingZero(s: string)
    requires AllDigits(s)
    ensures ToNumber("0" + s) == ToNumber(s)
    decreases |s|
  {
    var z := "0" + s;
    assert AllDigits(z) by {
      forall i | 0 <= i < |z| ensures IsDigit(z[i]) { if i > 0 { assert z[i] == s[i - 1]; } }
    }
    if s == [] {
      assert z[..0] == [];
      assert DecimalValue(z) == 10 * DecimalValue([]) + DigitValue('0');
    } else {
      var init := s[..|s| - 1];
      assert AllDigits(init) by {
        forall i | 0 <= i < |init| ensures IsDigit(init[i]) { assert init[i] == s[i]; }
      }
      LeadingZero(init);
      assert z[..|z| - 1] == "0" + init;
      assert z[|z| - 1] == s[|s| - 1];
      assert DecimalValue(z) == 10 * DecimalValue("0" + init) + DigitValue(s[|s| - 1]);
    }
  }

  /** Array destructuring `const [a, b, c] = xs`: a missing element is `undefined`, and
      `undefined` in arithmetic behaves as NaN. */
  function Element(xs: seq<JsNumber>, i: nat): JsNumber
  {
    if i < |xs| then xs[i] else NaN
  }

  /** `x * k`: NaN stays NaN. */
  function Times(x: JsNumber, k: int): JsNumber
  {
    if x.NaN? then NaN else Num(x.value * k)
  }

  /** `x + y`: NaN when either operand is NaN. */
  function Plus(x: JsNumber, y: JsNumber): JsNumber
  {
    if x.NaN? || y.NaN? then NaN else Num(x.value + y.value)
  }

  /** `x > y`: every comparison that involves NaN is false. No number, NaN included, is greater
      than itself. */
  predicate Greater(x: JsNumber, y: JsNumber)
    ensures Greater(x, y) ==> x != y
  {
    x.Num? && y.Num? && x.value > y.value
  }

  /** `>` on these numbers is a strict order: irreflexive, asymmetric and transitive. */
  lemma GreaterStrictOrder(x: JsNumber, y: JsNumber, z: JsNumber)
    ensures !Greater(x, x)
    ensures Greater(x, y) ==> !Greater(y, x)
    ensures Greater(x, y) && Greater(y, z) ==> Greater(x, z)
  {
  }

  /** `parts.join(sep)`: the parts with one separator between neighbours. */
  function Join(parts: seq<string>, sep: char): string
  {
    if |parts| == 0 then []
    else if |parts| == 1 then parts[0]
    else parts[0] + [sep] + Join(parts[1..], sep)
  }

  /** `s.split(sep)` for a one-character separator: the maximal separator-free pieces of `s`,
      empty pieces included; the empty string splits into one empty piece. */
  function Split(s: string, sep: char): (parts: seq<string>)
    ensures |parts| >= 1
    ensures forall i :: 0 <= i < |parts| ==> sep !in parts[i]
    ensures Join(parts, sep) == s
    decreases |s|
  {
    if s == [] then [[]]
    else
      var rest := Split(s[1..], sep);
      if s[0] == sep then
        assert Join([[]] + rest, sep) == [sep] + Join(rest, sep) by {
          assert ([[]] + rest)[1..] == rest;
        }
        [[]] + rest
      else
        var parts := [[s[0]] + rest[0]] + rest[1..];
        assert parts[1..] == rest[1..];
        assert Join(parts, sep) == [s[0]] + Join(rest, sep);
        parts
  }

  lemma {:induction false} SplitWithoutSeparator(a: string, sep: char)
    requires sep !in a
    ensures Split(a, sep) == [a]
    decreases |a|
  {
    if a != [] {
      assert a[0] in a;
      assert sep !in a[1..] by {
        forall i | 0 <= i < |a[1..]| ensures a[1..][i] != sep { assert a[1..][i] == a[i + 1]; }
      }
      SplitWithoutSeparator(a[1..], sep);
      assert [a[0]] + a[1..] == a;
    }
  }

  lemma {:induction false} SplitAfterPiece(a: string, b: string, sep: char)
    requires sep !in a
    ensures Split(a + [sep] + b, sep) == [a] + Split(b, sep)
    decreases |a|
  {
    var s := a + [sep] + b;
    if a == [] {
      assert s[0] == sep && s[1..] == b;
    } else {
      assert a[0] in a;
      assert s[0] == a[0] && s[1..] == a[1..] + [sep] + b;
      assert sep !in a[1..] by {
        forall i | 0 <= i < |a[1..]| ensures a[1..][i] != sep { assert a[1..][i] == a[i + 1]; }
      }
      SplitAfterPiece(a[1..], b, sep);
      assert [a[0]] + a[1..] == a;
    }
  }

  /** Splitting undoes joining pieces that do not contain the separator. */
  lemma {:induction false} SplitJoin(parts: seq<string>, sep: char)
    requires |parts| >= 1
    requires forall i :: 0 <= i < |parts| ==> sep !in parts[i]
    ensures Split(Join(parts, sep), sep) == parts
  {
    if |parts| == 1 {
      SplitWithoutSeparator(parts[0], sep);
    } else {
      SplitJoin(parts[1..], sep);
      SplitAfterPiece(parts[0], Join(parts[1..], sep), sep);
      assert [parts[0]] + parts[1..] == parts;
    }
  }
}
