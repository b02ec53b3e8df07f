/**
 JavaScript values as far as amounts of money need them: numbers, NaN and text, with the coercions of `+`, `-`, `<` and
 `Math.min`. Arithmetic is exact; numbers are printed without an exponent.
 */
module JsNumbers {
  import opened Common

  datatype Value = Num(x: real) | NaN | Text(s: string)

  /** A value in a JSON body; an array or object with the text it coerces to. */
  datatype Json = Missing | Flag(b: bool) | JNum(x: real) | JText(s: string) | Compound(text: string)

  predicate Truthy(j: Json) {
    match j
    case Missing => false
    case Flag(b) => b
    case JNum(x) => x != 0.0
    case JText(s) => s != ""
    case Compound(_) => true
  }

  /** What a truthy JSON value is to an arithmetic operator. */
  function Primitive(j: Json): Value {
    match j
    case Missing => NaN
    case Flag(b) => Num(if b then 1.0 else 0.0)
    case JNum(x) => Num(x)
    case JText(s) => Text(s)
    case Compound(text) => Text(text)
  }

  // ----- numbers as text -----

  /** More decimals than any number has that JavaScript prints without an exponent. */
  const MAX_PLACES := 25

  predicate Whole(x: real) { x == x.Floor as real }

  /** At most `n` decimals. */
  predicate Decimal(x: real, n: nat)
    decreases n
  {
    Whole(x) || (n > 0 && Decimal(10.0 * x, n - 1))
  }

  /** How many decimals, at most `n`. */
  function Places(x: real, n: nat): (p: nat)
    ensures p <= n
    decreases n
  {
    if Whole(x) || n == 0 then 0 else 1 + Places(10.0 * x, n - 1)
  }

  function DigitChar(n: int): char
    requires 0 <= n < 10
  {
    ('0' as int + n) as char
  }

  /** The first `p` decimals of a fraction. */
  function Fraction(y: real, p: nat): string
    requires 0.0 <= y < 1.0
    decreases p
  {
    if p == 0 then []
    else
      var q := (10.0 * y).Floor;
      [DigitChar(q)] + Fraction(10.0 * y - q as real, p - 1)
  }

  function Show(x: real): string {
    if x < 0.0 then "-" + ShowPositive(-x) else ShowPositive(x)
  }

  function ShowPositive(x: real): string
    requires x >= 0.0
  {
    var p := Places(x, MAX_PLACES);
    Digits(x.Floor) + if p == 0 then [] else "." + Fraction(x - x.Floor as real, p)
  }

  // ----- text as numbers -----

  function DigitValue(c: char): real
    requires Digit(c)
  {
    (c as int - '0' as int) as real
  }

  predicate AllDigits(s: string) { forall i :: 0 <= i < |s| ==> Digit(s[i]) }

  function IntValue(s: string): (v: real)
    requires AllDigits(s)
    ensures v >= 0.0
  {
    if s == [] then 0.0 else 10.0 * IntValue(s[..|s| - 1]) + DigitValue(s[|s| - 1])
  }

  function FractionValue(s: string): (v: real)
    requires AllDigits(s)
    ensures 0.0 <= v < 1.0
  {
    if s == [] then 0.0 else (DigitValue(s[0]) + FractionValue(s[1..])) / 10.0
  }

  /** Only digits and points. */
  predicate Plain(s: string) { forall i :: 0 <= i < |s| ==> Digit(s[i]) || s[i] == '.' }

  function FirstPoint(s: string): (i: nat)
    ensures i <= |s|
    ensures i < |s| ==> s[i] == '.'
    ensures forall j :: 0 <= j < i ==> s[j] != '.'
  {
    if s == [] || s[0] == '.' then 0 else 1 + FirstPoint(s[1..])
  }

  /** What stands before and after the first point of a text. */
  function PartsValue(a: string, b: string): Option<real>
    requires AllDigits(a) && Plain(b)
  {
    if '.' in b || (a == [] && b == []) then None else Some(IntValue(a) + FractionValue(b))
  }

  /** The number a text of digits and points stands for: digits, with a point before, between or after them. */
  function PlainValue(s: string): Option<real>
    requires Plain(s)
  {
    var i := FirstPoint(s);
    if s == "" then Some(0.0)
    else if i == |s| then Some(IntValue(s))
    else PartsValue(s[..i], s[i + 1..])
  }

  /** `Number(s)`; how other texts (signs, exponents, blanks, words) are read is left to `other`. */
  function NumberOf(other: string -> Option<real>, s: string): Option<real> {
    if Plain(s) then PlainValue(s) else other(s)
  }

  // ----- operators -----

  function ToNumber(other: string -> Option<real>, v: Value): Option<real> {
    match v
    case Num(x) => Some(x)
    case NaN => None
    case Text(s) => NumberOf(other, s)
  }

  function FromNumber(n: Option<real>): Value { if n.Some? then Num(n.value) else NaN }

  function ToText(v: Value): string {
    match v
    case Num(x) => Show(x)
    case NaN => "NaN"
    case Text(s) => s
  }

  /** `a + b`: with a text on either side the two are joined. */
  function Plus(a: Value, b: Value): Value {
    if a.Num? && b.Num? then Num(a.x + b.x)
    else if a.Text? || b.Text? then Text(ToText(a) + ToText(b))
    else NaN
  }

  /** `a - b` */
  function Minus(other: string -> Option<real>, a: Value, b: Value): Value {
    var m, n := ToNumber(other, a), ToNumber(other, b);
    if m.Some? && n.Some? then Num(m.value - n.value) else NaN
  }

  /** `Math.min(a, b)` */
  function MinOf(other: string -> Option<real>, a: Value, b: Value): Value {
    var m, n := ToNumber(other, a), ToNumber(other, b);
    if m.Some? && n.Some? then Num(if m.value <= n.value then m.value else n.value) else NaN
  }

  /** `a < bound`: false for what is not a number. */
  predicate Below(other: string -> Option<real>, a: Value, bound: real) {
    var m := ToNumber(other, a);
    m.Some? && m.value < bound
  }

  // ----- places -----

  /** `x` moved `n` places to the left, and to the right. */
  function Lift(x: real, n: nat): real { if n == 0 then x else 10.0 * Lift(x, n - 1) }

  function Drop(x: real, n: nat): real { if n == 0 then x else Drop(x, n - 1) / 10.0 }

  lemma {:induction false} LiftAdds(x: real, y: real, n: nat)
    ensures Lift(x + y, n) == Lift(x, n) + Lift(y, n)
  {
    if n == 0 {
    } else {
      LiftAdds(x, y, n - 1);
    }
  }

  lemma {:induction false} LiftGrows(x: real, n: nat)
    requires x >= 0.0
    ensures Lift(x, n) >= x
    ensures x > 0.0 && n > 0 ==> Lift(x, n) > x
  {
    if n == 0 {
    } else {
      LiftGrows(x, n - 1);
    }
  }

  lemma {:induction false} DropBounds(x: real, n: nat)
    requires x >= 0.0
    ensures 0.0 <= Drop(x, n) <= x
    ensures x > 0.0 ==> Drop(x, n) > 0.0
  {
    if n == 0 {
    } else {
      DropBounds(x, n - 1);
    }
  }

  /** Moving a positive number by more places makes it smaller. */
  lemma {:induction false} DropShrinks(x: real, m: nat, n: nat)
    requires x > 0.0 && m < n
    ensures Drop(x, n) < Drop(x, m)
  {
    DropBounds(x, n - 1);
    if m == n - 1 {
    } else {
      DropShrinks(x, m, n - 1);
    }
  }

  // ----- what is printed reads back -----

  lemma {:induction false} IntValueConcat(a: string, b: string)
    requires AllDigits(a) && AllDigits(b)
    ensures IntValue(a + b) == Lift(IntValue(a), |b|) + IntValue(b)
    decreases |b|
  {
    if b == [] {
      assert a + b == a;
    } else {
      assert (a + b)[..|a + b| - 1] == a + b[..|b| - 1];
      IntValueConcat(a, b[..|b| - 1]);
    }
  }

  lemma {:induction false} FractionValueConcat(a: string, b: string)
    requires AllDigits(a) && AllDigits(b)
    ensures FractionValue(a + b) == FractionValue(a) + Drop(FractionValue(b), |a|)
    decreases |a|
  {
    if a == [] {
      assert a + b == b;
    } else {
      assert (a + b)[1..] == a[1..] + b;
      FractionValueConcat(a[1..], b);
    }
  }

  lemma {:induction false} DigitsRead(n: nat)
    ensures AllDigits(Digits(n)) && Digits(n) != [] && IntValue(Digits(n)) == n as real
  {
    DigitChars(n);
    if n < 10 {
      assert Digits(n)[..0] == [];
    } else {
      DigitsRead(n / 10);
      assert Digits(n)[..|Digits(n)| - 1] == Digits(n / 10);
      assert n == 10 * (n / 10) + n % 10;
    }
  }

  /** Taking away a whole number changes no decimals. */
  lemma {:induction false} PlacesShift(x: real, q: int, n: nat)
    ensures Places(x - q as real, n) == Places(x, n) && Decimal(x - q as real, n) == Decimal(x, n)
    decreases n
  {
    assert Whole(x - q as real) == Whole(x) by {
      assert x.Floor as real - q as real == (x.Floor - q) as real;
      assert (x - q as real).Floor == x.Floor - q;
    }
    if n == 0 {
    } else {
      assert 10.0 * (x - q as real) == 10.0 * x - (10 * q) as real;
      PlacesShift(10.0 * x, 10 * q, n - 1);
    }
  }

  lemma {:induction false} FractionReads(y: real, n: nat)
    requires 0.0 <= y < 1.0 && Decimal(y, n)
    ensures var f := Fraction(y, Places(y, n)); AllDigits(f) && |f| == Places(y, n) && FractionValue(f) == y
    decreases n
  {
    if Whole(y) {
    } else {
      var q := (10.0 * y).Floor;
      PlacesShift(10.0 * y, q, n - 1);
      FractionReads(10.0 * y - q as real, n - 1);
      var rest := Fraction(10.0 * y - q as real, Places(y, n) - 1);
      assert Fraction(y, Places(y, n)) == [DigitChar(q)] + rest;
      assert ([DigitChar(q)] + rest)[1..] == rest;
    }
  }

  /** The text of a number: its digits, and if it has decimals a point and those. */
  lemma ShowParts(x: real) returns (whole: string, fraction: string)
    requires x >= 0.0 && Decimal(x, MAX_PLACES)
    ensures AllDigits(whole) && whole != [] && AllDigits(fraction) && |fraction| == Places(x, MAX_PLACES)
    ensures Show(x) == whole + if fraction == [] then [] else "." + fraction
    ensures x == IntValue(whole) + FractionValue(fraction)
  {
    var y := x - x.Floor as real;
    PlacesShift(x, x.Floor, MAX_PLACES);
    DigitsRead(x.Floor);
    FractionReads(y, MAX_PLACES);
    whole, fraction := Digits(x.Floor), Fraction(y, Places(x, MAX_PLACES));
  }

  // ----- a text joined to a printed number -----

  function PlacesOf(x: real): nat { Places(x, MAX_PLACES) }

  /** Whether the text of `x` followed by `d` still stands for a number. */
  predicate Joins(x: real, d: string) {
    '.' in d ==> PlacesOf(x) == 0 && '.' !in d[FirstPoint(d) + 1..]
  }

  /** And for which: behind a point the digits of `d` are decimals, otherwise they move `x` to the left. */
  function JoinedValue(x: real, d: string): real
    requires Plain(d) && Joins(x, d)
  {
    var i := FirstPoint(d);
    if i < |d| then Lift(x, i) + IntValue(d[..i]) + FractionValue(d[i + 1..])
    else if PlacesOf(x) > 0 then x + Drop(FractionValue(d), PlacesOf(x))
    else Lift(x, |d|) + IntValue(d)
  }

  lemma {:induction false} FirstPointAt(a: string, b: string)
    requires '.' !in a
    ensures FirstPoint(a + "." + b) == |a|
  {
    if a == [] {
    } else {
      assert (a + "." + b)[1..] == a[1..] + "." + b;
      FirstPointAt(a[1..], b);
    }
  }

  lemma {:induction false} NoPoint(a: string)
    requires '.' !in a
    ensures FirstPoint(a) == |a|
  {
    if a == [] {
    } else {
      NoPoint(a[1..]);
    }
  }

  /** The value of digits, a point and more digits, the first not missing. */
  lemma PointedValue(a: string, b: string)
    requires AllDigits(a) && a != [] && Plain(b)
    ensures Plain(a + "." + b) && PlainValue(a + "." + b) == PartsValue(a, b)
  {
    PlainJoin(a, b);
    FirstPointAt(a, b);
    SlicesAtPoint(a, b);
  }

  lemma PlainJoin(a: string, b: string)
    requires AllDigits(a) && Plain(b)
    ensures Plain(a + "." + b)
  {
    var s := a + "." + b;
    forall i | 0 <= i < |s| ensures Digit(s[i]) || s[i] == '.' {
      if i < |a| {
        assert s[i] == a[i];
      } else if i > |a| {
        assert s[i] == b[i - |a| - 1];
      }
    }
  }

  lemma SlicesAtPoint(a: string, b: string)
    ensures var s := a + "." + b; s[..|a|] == a && s[|a| + 1..] == b
  {
  }

  lemma FractionalReads(x: real, d: string)
    requires x >= 0.0 && Decimal(x, MAX_PLACES) && Plain(d) && PlacesOf(x) > 0
    ensures Plain(Show(x) + d) && (PlainValue(Show(x) + d).Some? <==> Joins(x, d))
    ensures Joins(x, d) ==> PlainValue(Show(x) + d).value == JoinedValue(x, d)
  {
    var whole, fraction := ShowParts(x);
    assert Show(x) + d == whole + "." + (fraction + d);
    PointedValue(whole, fraction + d);
    if '.' in d {
      assert '.' in fraction + d;
    } else {
      NoPoint(d);
      FractionValueConcat(fraction, d);
    }
  }

  lemma WholeReads(x: real, d: string)
    requires x >= 0.0 && Decimal(x, MAX_PLACES) && Plain(d) && PlacesOf(x) == 0 && '.' !in d
    ensures Plain(Show(x) + d) && PlainValue(Show(x) + d).Some?
    ensures PlainValue(Show(x) + d).value == JoinedValue(x, d)
  {
    var whole, fraction := ShowParts(x);
    assert Show(x) + d == whole + d;
    NoPoint(d);
    NoPoint(whole + d);
    IntValueConcat(whole, d);
  }

  /** What a text with a point is divided into. */
  lemma DivideAtPoint(d: string) returns (a: string, b: string)
    requires Plain(d) && '.' in d
    ensures FirstPoint(d) == |a| < |d| && a == d[..|a|] && b == d[|a| + 1..] && d == a + "." + b
    ensures AllDigits(a) && Plain(b)
  {
    var i := FirstPoint(d);
    a, b := d[..i], d[i + 1..];
    assert forall k :: 0 <= k < |b| ==> b[k] == d[i + 1 + k];
  }

  /** Digits joined with a text that has a point. */
  lemma DigitsThenPoint(whole: string, a: string, b: string)
    requires AllDigits(whole) && whole != [] && AllDigits(a) && Plain(b)
    ensures AllDigits(whole + a) && Plain(whole + (a + "." + b))
    ensures PlainValue(whole + (a + "." + b)) == PartsValue(whole + a, b)
  {
    Reassociate(whole, a, b);
    PointedValue(whole + a, b);
  }

  lemma PartsLift(whole: string, a: string, b: string)
    requires AllDigits(whole) && whole != [] && AllDigits(a) && AllDigits(b)
    ensures var v := PartsValue(whole + a, b);
            v.Some? && v.value == Lift(IntValue(whole), |a|) + IntValue(a) + FractionValue(b)
  {
    IntValueConcat(whole, a);
    DigitParts(whole + a, b);
  }

  lemma DigitParts(a: string, b: string)
    requires AllDigits(a) && a != [] && AllDigits(b)
    ensures PartsValue(a, b) == Some(IntValue(a) + FractionValue(b))
  {
  }

  lemma Reassociate(whole: string, a: string, b: string)
    ensures whole + (a + "." + b) == (whole + a) + "." + b
  {
  }

  lemma PointedReads(x: real, d: string)
    requires x >= 0.0 && Decimal(x, MAX_PLACES) && Plain(d) && PlacesOf(x) == 0 && '.' in d
    ensures Plain(Show(x) + d) && (PlainValue(Show(x) + d).Some? <==> Joins(x, d))
    ensures Joins(x, d) ==> PlainValue(Show(x) + d).value == JoinedValue(x, d)
  {
    var whole, fraction := ShowParts(x);
    var a, b := DivideAtPoint(d);
    assert Show(x) == whole && IntValue(whole) == x;
    DigitsThenPoint(whole, a, b);
    if Joins(x, d) {
      PartsLift(whole, a, b);
    }
  }

  lemma JoinedReads(other: string -> Option<real>, x: real, d: string)
    requires x >= 0.0 && Decimal(x, MAX_PLACES) && Plain(d)
    ensures NumberOf(other, Show(x) + d).Some? <==> Joins(x, d)
    ensures Joins(x, d) ==> NumberOf(other, Show(x) + d).value == JoinedValue(x, d)
  {
    if PlacesOf(x) > 0 {
      FractionalReads(x, d);
    } else if '.' in d {
      PointedReads(x, d);
    } else {
      WholeReads(x, d);
    }
  }

  /** The value of digits alone is positive as an integer exactly when it is as a fraction. */
  lemma {:induction false} BothPositive(d: string)
    requires AllDigits(d)
    ensures IntValue(d) > 0.0 <==> exists i :: 0 <= i < |d| && d[i] != '0'
    ensures FractionValue(d) > 0.0 <==> exists i :: 0 <= i < |d| && d[i] != '0'
  {
    IntPositive(d);
    FractionPositive(d);
  }

  lemma {:induction false} IntPositive(d: string)
    requires AllDigits(d)
    ensures IntValue(d) > 0.0 <==> exists i :: 0 <= i < |d| && d[i] != '0'
  {
    if d == [] {
    } else {
      var init := d[..|d| - 1];
      IntPositive(init);
      assert forall i :: 0 <= i < |init| ==> init[i] == d[i];
    }
  }

  lemma {:induction false} FractionPositive(d: string)
    requires AllDigits(d)
    ensures FractionValue(d) > 0.0 <==> exists i :: 0 <= i < |d| && d[i] != '0'
  {
    if d == [] {
    } else {
      var rest := d[1..];
      FractionPositive(rest);
      assert forall i :: 0 <= i < |rest| ==> rest[i] == d[i + 1];
      if i :| 0 <= i < |d| && d[i] != '0' {
        assert i > 0 ==> rest[i - 1] != '0';
      }
    }
  }

  /**
   The exact law: of two numbers `c < t` joined with the same plain text `d`, whose own value is not below 1, the texts
   read as numbers that differ by as much as before if and only if `d` is a single point or both numbers have the same
   number of decimals, not none.
   */
  lemma JoinKeepsDistanceIff(c: real, t: real, d: string)
    requires 0.0 <= c < t && Plain(d) && d != "" && Joins(c, d) && Joins(t, d)
    requires PlainValue(d).Some? ==> PlainValue(d).value >= 1.0
    ensures JoinedValue(t, d) - JoinedValue(c, d) == t - c <==> d == "." || PlacesOf(c) == PlacesOf(t) > 0
  {
    var i := FirstPoint(d);
    if i < |d| {
      LiftAdds(c, t - c, i);
      LiftGrows(t - c, i);
    } else {
      NoPoint(d);
      BothPositive(d);
      var f, p, q := FractionValue(d), PlacesOf(c), PlacesOf(t);
      DropBounds(f, p);
      DropBounds(f, q);
      if p == 0 && q == 0 {
        LiftAdds(c, t - c, |d|);
        LiftGrows(t - c, |d|);
      } else if p == 0 {
        LiftGrows(c, |d|);
      } else if q == 0 {
        LiftGrows(t, |d|);
      } else if p < q {
        DropShrinks(f, p, q);
      } else if q < p {
        DropShrinks(f, q, p);
      }
    }
  }
}
