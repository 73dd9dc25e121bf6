/** JavaScript values as the adapters see them after JSON parsing, and the few
    language operations the code relies on: truthiness, `||`, `String(v)`,
    `Array.prototype.find`, `padStart` and the relational `>`. */
module Js {

  datatype Option<+T> = None | Some(value: T)

  /** A JSON scalar; `Undefined` is a key the upstream object does not carry.
      Numbers are restricted to integers. */
  datatype Value = Undefined | Null | Bool(b: bool) | Num(n: int) | Str(s: string)

  /** `!v` is false exactly for the truthy values. */
  predicate Truthy(v: Value) {
    match v
    case Undefined => false
    case Null => false
    case Bool(b) => b
    case Num(n) => n != 0
    case Str(s) => s != ""
  }

  /** The expression `v || fallback`. */
  function Or(v: Value, fallback: Value): Value {
    if Truthy(v) then v else fallback
  }

  /* ---------------- decimal text ---------------- */

  predicate IsDigit(c: char) {
    '0' <= c <= '9'
  }

  predicate AllDigits(s: string) {
    forall i :: 0 <= i < |s| ==> IsDigit(s[i])
  }

  function DigitChar(d: int): (c: char)
    requires 0 <= d < 10
    ensures IsDigit(c)
  {
    ('0' as int + d) as char
  }

  function DigitValue(c: char): (d: int)
    requires IsDigit(c)
    ensures 0 <= d < 10 && DigitChar(d) == c
  {
    c as int - '0' as int
  }

  /** The decimal value of a digit string, most significant digit first. */
  function DecimalValue(s: string): nat
    requires AllDigits(s)
  {
    if |s| == 0 then 0 else DecimalValue(s[..|s| - 1]) * 10 + DigitValue(s[|s| - 1])
  }

  /** `n.toString()` for a non-negative integer: no leading zeros. */
  function Digits(n: nat): (s: string)
    ensures 0 < |s| && AllDigits(s)
    ensures n < 10 <==> |s| == 1
  {
    if n < 10 then [DigitChar(n)] else Digits(n / 10) + [DigitChar(n % 10)]
  }

  /** Reading back the digits of `n` gives `n`. */
  lemma {:induction false} DigitsValue(n: nat)
    ensures DecimalValue(Digits(n)) == n
  {
    if n >= 10 {
      var s := Digits(n);
      assert s[..|s| - 1] == Digits(n / 10);
      DigitsValue(n / 10);
    }
  }

  /** `String(i)` for an integer. */
  function IntToString(i: int): (s: string)
    ensures 0 < |s|
    ensures i >= 0 ==> AllDigits(s) && DecimalValue(s) == i
    ensures i < 0 ==> s[0] == '-'
  {
    if i < 0 then "-" + Digits(-i) else DigitsValue(i); Digits(i)
  }

  /** `s.padStart(width, "0")`. */
  function PadStart(s: string, width: nat): (r: string)
    ensures |r| == if |s| >= width then |s| else width
    ensures r[|r| - |s|..] == s
    ensures forall i :: 0 <= i < |r| - |s| ==> r[i] == '0'
  {
    if |s| >= width then s else seq(width - |s|, _ => '0') + s
  }

  /** Leading zeros do not change the value of a digit string. */
  lemma {:induction false} LeadingZeros(z: string, s: string)
    requires forall i :: 0 <= i < |z| ==> z[i] == '0'
    requires AllDigits(s)
    ensures AllDigits(z + s) && DecimalValue(z + s) == DecimalValue(s)
  {
    if |s| > 0 {
      var t := z + s;
      assert t[..|t| - 1] == z + s[..|s| - 1];
      LeadingZeros(z, s[..|s| - 1]);
    } else {
      assert z + s == z;
      AllZerosValue(z);
    }
  }

  lemma {:induction false} AllZerosValue(z: string)
    requires forall i :: 0 <= i < |z| ==> z[i] == '0'
    ensures AllDigits(z) && DecimalValue(z) == 0
  {
    if |z| > 0 {
      AllZerosValue(z[..|z| - 1]);
    }
  }

  /** A zero-padded number reads back as the number. */
  lemma PaddedValue(n: nat, width: nat)
    ensures AllDigits(PadStart(Digits(n), width))
    ensures DecimalValue(PadStart(Digits(n), width)) == n
  {
    var r := PadStart(Digits(n), width);
    var k := |r| - |Digits(n)|;
    assert r == r[..k] + Digits(n);
    LeadingZeros(r[..k], Digits(n));
    DigitsValue(n);
  }

  /* ---------------- String(v) and Number(v) ---------------- */

  /** `String(v)`, also what a template literal `${v}` produces. */
  function ToText(v: Value): string {
    match v
    case Undefined => "undefined"
    case Null => "null"
    case Bool(b) => if b then "true" else "false"
    case Num(n) => IntToString(n)
    case Str(s) => s
  }

  /** `Number(v)`; `None` stands for NaN. Strings convert only when empty or
      made of decimal digits. */
  function ToNumber(v: Value): Option<int> {
    match v
    case Undefined => None
    case Null => Some(0)
    case Bool(b) => Some(if b then 1 else 0)
    case Num(n) => Some(n)
    case Str(s) => if AllDigits(s) then Some(DecimalValue(s)) else None
  }

  /* ---------------- relational comparison ---------------- */

  /** `a < b` on two strings: code-unit lexicographic order, a proper prefix
      sorting first. */
  predicate StrLess(a: string, b: string) {
    if |a| == 0 then |b| > 0
    else if |b| == 0 then false
    else if a[0] != b[0] then a[0] < b[0]
    else StrLess(a[1..], b[1..])
  }

  lemma {:induction false} StrLessIrreflexive(a: string)
    ensures !StrLess(a, a)
  {
    if |a| > 0 {
      StrLessIrreflexive(a[1..]);
    }
  }

  lemma {:induction false} StrLessTransitive(a: string, b: string, c: string)
    requires StrLess(a, b) && StrLess(b, c)
    ensures StrLess(a, c)
  {
    if |a| > 0 && |b| > 0 && |c| > 0 && a[0] == b[0] && b[0] == c[0] {
      StrLessTransitive(a[1..], b[1..], c[1..]);
    }
  }

  lemma {:induction false} StrLessTrichotomy(a: string, b: string)
    ensures StrLess(a, b) || StrLess(b, a) || a == b
  {
    if |a| > 0 && |b| > 0 && a[0] == b[0] {
      StrLessTrichotomy(a[1..], b[1..]);
      if a[1..] == b[1..] {
        assert a == [a[0]] + a[1..] && b == [b[0]] + b[1..];
      }
    }
  }

  /** Comparing two equal-width prefixes decides unless they are equal. */
  lemma {:induction false} StrLessConcat(x: string, y: string, x': string, y': string)
    requires |x| == |x'|
    ensures StrLess(x + y, x' + y') <==> StrLess(x, x') || (x == x' && StrLess(y, y'))
  {
    if |x| > 0 {
      assert (x + y)[1..] == x[1..] + y;
      assert (x' + y')[1..] == x'[1..] + y';
      StrLessConcat(x[1..], y, x'[1..], y');
      if x[0] == x'[0] {
        assert x == x' <==> x[1..] == x'[1..] by {
          assert x == [x[0]] + x[1..] && x' == [x'[0]] + x'[1..];
        }
      }
    } else {
      assert x + y == y && x' + y' == y';
    }
  }

  /** The JavaScript expression `a > b`: strings compare as text, everything
      else as numbers, and NaN compares false. */
  predicate Later(a: Value, b: Value) {
    if a.Str? && b.Str? then StrLess(b.s, a.s)
    else
      var x := ToNumber(a);
      var y := ToNumber(b);
      x.Some? && y.Some? && x.value > y.value
  }

  lemma LaterIrreflexive(a: Value)
    ensures !Later(a, a)
  {
    if a.Str? {
      StrLessIrreflexive(a.s);
    }
  }

  /* ---------------- Array.prototype.find ---------------- */

  /** The index of the element `find(p)` returns: the first one satisfying `p`. */
  function FindFirst<T>(s: seq<T>, p: T -> bool): (k: Option<nat>)
    ensures k.Some? ==> k.value < |s| && p(s[k.value])
    ensures k.Some? ==> forall j :: 0 <= j < k.value ==> !p(s[j])
    ensures k.None? ==> forall j :: 0 <= j < |s| ==> !p(s[j])
  {
    if |s| == 0 then None
    else if p(s[0]) then Some(0)
    else match FindFirst(s[1..], p)
      case None => None
      case Some(k) => Some(k + 1)
  }
}
