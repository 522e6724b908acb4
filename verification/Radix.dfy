/**
  Positional numerals as the codecs handle them: little-endian digit lists that grow at the top while a
  carry is pushed through them.  `Digits` is the canonical numeral of a number (no zero at the top) and
  `MulAdd` is one carry pass of "multiply everything by `mul` and add `carry`".
*/
module Radix {

  /** Value of a little-endian digit list. */
  function Eval(ds: seq<nat>, base: nat): nat
    requires base >= 2
  {
    if ds == [] then 0 else ds[0] + base * Eval(ds[1..], base)
  }

  /** Value of a big-endian digit list, read left to right. */
  function Value(ds: seq<nat>, base: nat): nat
    requires base >= 2
  {
    if ds == [] then 0 else Value(ds[..|ds| - 1], base) * base + ds[|ds| - 1]
  }

  function Reverse<T>(s: seq<T>): (r: seq<T>)
    ensures |r| == |s|
    ensures forall i :: 0 <= i < |s| ==> r[i] == s[|s| - 1 - i]
  {
    if s == [] then [] else [s[|s| - 1]] + Reverse(s[..|s| - 1])
  }

  lemma DivShrinks(n: nat, base: nat)
    requires n > 0 && base >= 2
    ensures n / base < n
  {
  }

  lemma DivMod(n: nat, base: nat)
    requires base >= 2
    ensures n == n % base + base * (n / base) == n / base * base + n % base
    ensures 0 <= n % base < base && 0 <= n / base
  {
  }

  lemma MulMonotone(a: nat, x: int, y: int)
    requires x <= y
    ensures a * x <= a * y
  {
  }

  lemma MulDistributes(a: int, x: int, y: int)
    ensures a * (x + y) == a * x + a * y
    ensures a * (x - y) == a * x - a * y
  {
  }

  lemma MulAssociates(a: int, x: int, y: int)
    ensures a * x * y == a * (x * y)
  {
  }

  /** Quotient and remainder are unique. */
  lemma DivModOf(q: nat, r: nat, base: nat)
    requires base >= 2 && r < base
    ensures (r + base * q) % base == r
    ensures (r + base * q) / base == q
  {
    var x := r + base * q;
    var p := x / base;
    DivMod(x, base);
    MulDistributes(base, p, q);
    if p >= q + 1 {
      MulMonotone(base, 1, p - q);
    } else if p <= q - 1 {
      MulMonotone(base, p - q, -1);
    }
  }

  /** The little-endian numeral of n without a zero at the top; zero has the empty numeral. */
  function Digits(n: nat, base: nat): (ds: seq<nat>)
    requires base >= 2
    ensures forall i :: 0 <= i < |ds| ==> ds[i] < base
    ensures n > 0 ==> |ds| > 0 && ds[|ds| - 1] != 0
    decreases n
  {
    if n == 0 then [] else
      DivShrinks(n, base);
      [n % base] + Digits(n / base, base)
  }

  /** The bottom digit of base * q + r is r. */
  lemma DigitsStep(n: nat, q: nat, r: nat, base: nat)
    requires base >= 2 && r < base && n == r + base * q && n > 0
    ensures Digits(n, base) == [r] + Digits(q, base)
  {
    DivModOf(q, r, base);
  }

  /** The codecs never hold an empty list: zero is the single digit 0. */
  function Numeral(n: nat, base: nat): (ds: seq<nat>)
    requires base >= 2
    ensures |ds| > 0
    ensures forall i :: 0 <= i < |ds| ==> ds[i] < base
  {
    if n == 0 then [0] else Digits(n, base)
  }

  /** One carry pass over a little-endian list. */
  function MulAdd(ds: seq<nat>, mul: nat, carry: nat, base: nat): seq<nat>
    requires base >= 2
  {
    if ds == [] then Digits(carry, base)
    else
      var t := carry + ds[0] * mul;
      [t % base] + MulAdd(ds[1..], mul, t / base, base)
  }

  lemma {:induction false} EvalOfReverse(s: seq<nat>, base: nat)
    requires base >= 2
    ensures Eval(Reverse(s), base) == Value(s, base)
  {
    if s != [] {
      EvalOfReverse(s[..|s| - 1], base);
      assert Reverse(s)[1..] == Reverse(s[..|s| - 1]);
    }
  }

  lemma ReverseTwice<T>(s: seq<T>)
    ensures Reverse(Reverse(s)) == s
  {
  }

  /** Reading a numeral back gives the number. */
  lemma {:induction false} EvalOfDigits(n: nat, base: nat)
    requires base >= 2
    ensures Eval(Digits(n, base), base) == n
    decreases n
  {
    if n > 0 {
      DivShrinks(n, base);
      DivMod(n, base);
      var ds, rest := Digits(n, base), Digits(n / base, base);
      EvalOfDigits(n / base, base);
      assert ds == [n % base] + rest && ds[1..] == rest;
    }
  }

  lemma {:induction false} EvalPositive(ds: seq<nat>, base: nat)
    requires base >= 2
    requires |ds| > 0 && ds[|ds| - 1] != 0
    ensures Eval(ds, base) > 0
  {
    if |ds| > 1 {
      EvalPositive(ds[1..], base);
    }
  }

  /** A digit list without a zero at the top is the numeral of its value, so numerals are unique. */
  lemma {:induction false} DigitsOfEval(ds: seq<nat>, base: nat)
    requires base >= 2
    requires forall i :: 0 <= i < |ds| ==> ds[i] < base
    requires |ds| > 0 ==> ds[|ds| - 1] != 0
    ensures Digits(Eval(ds, base), base) == ds
  {
    if ds != [] {
      var n, q := Eval(ds, base), Eval(ds[1..], base);
      assert Digits(q, base) == ds[1..] by { DigitsOfEval(ds[1..], base); }
      assert Digits(n, base) == [ds[0]] + Digits(q, base) by {
        EvalPositive(ds, base);
        DigitsStep(n, q, ds[0], base);
      }
    }
  }

  /** n splits as base * q + d; multiplying by `mul` and adding `carry` keeps the split. */
  lemma CarrySplit(n: nat, mul: nat, carry: nat, base: nat)
    requires base >= 2
    ensures var q, t := n / base, carry + n % base * mul;
            n * mul + carry == t % base + base * (q * mul + t / base)
  {
    var q, d := n / base, n % base;
    var t := carry + d * mul;
    DivMod(n, base);
    DivMod(t, base);
    MulDistributes(mul, d, base * q);
    MulAssociates(base, q, mul);
    MulDistributes(base, q * mul, t / base);
  }

  lemma MulAddBottom(d: nat, rest: seq<nat>, mul: nat, carry: nat, base: nat, t0: nat, t1: nat)
    requires base >= 2 && t0 < base && carry + d * mul == t0 + base * t1
    ensures MulAdd([d] + rest, mul, carry, base) == [t0] + MulAdd(rest, mul, t1, base)
  {
    assert ([d] + rest)[1..] == rest;
    DivModOf(t1, t0, base);
  }

  /** A carry pass over the numeral of n gives the numeral of n * mul + carry. */
  lemma {:induction false} MulAddDigits(n: nat, mul: nat, carry: nat, base: nat)
    requires base >= 2 && mul >= 1
    ensures MulAdd(Digits(n, base), mul, carry, base) == Digits(n * mul + carry, base)
    decreases n
  {
    if n == 0 {
      assert n * mul + carry == carry;
    } else {
      var q, d := n / base, n % base;
      DivMod(n, base);
      DivShrinks(n, base);
      var t := carry + d * mul;
      var t0, t1 := t % base, t / base;
      DivMod(t, base);
      var out := n * mul + carry;
      assert out > 0 by { MulMonotone(n, 1, mul); }
      var rest: nat := q * mul + t1;
      assert out == t0 + base * rest by { CarrySplit(n, mul, carry, base); }
      assert MulAdd(Digits(q, base), mul, t1, base) == Digits(rest, base) by { MulAddDigits(q, mul, t1, base); }
      MulAddShift(n, q, d, mul, carry, base, t0, t1, rest, out);
    }
  }

  /** One digit of the pass: the bottom digits split off on both sides. */
  lemma MulAddShift(n: nat, q: nat, d: nat, mul: nat, carry: nat, base: nat, t0: nat, t1: nat, rest: nat, out: nat)
    requires base >= 2 && d < base && t0 < base && n > 0 && out > 0
    requires n == d + base * q
    requires carry + d * mul == t0 + base * t1
    requires out == t0 + base * rest
    requires MulAdd(Digits(q, base), mul, t1, base) == Digits(rest, base)
    ensures MulAdd(Digits(n, base), mul, carry, base) == Digits(out, base)
  {
    DigitsStep(n, q, d, base);
    DigitsStep(out, rest, t0, base);
    MulAddBottom(d, Digits(q, base), mul, carry, base, t0, t1);
  }

  lemma MulAddZero(mul: nat, carry: nat, base: nat)
    requires base >= 2
    ensures MulAdd([0], mul, carry, base) == Numeral(carry, base)
  {
    var t0, t1 := carry % base, carry / base;
    DivMod(carry, base);
    assert MulAdd([0], mul, carry, base) == [t0] + Digits(t1, base) by {
      MulAddBottom(0, [], mul, carry, base, t0, t1);
      assert [0] + [] == [0];
    }
    if carry > 0 { DigitsStep(carry, t1, t0, base); }
  }

  lemma MulAddNumeral(n: nat, mul: nat, carry: nat, base: nat)
    requires base >= 2 && mul >= 1
    ensures MulAdd(Numeral(n, base), mul, carry, base) == Numeral(n * mul + carry, base)
  {
    if n == 0 {
      MulAddZero(mul, carry, base);
    } else {
      var out := n * mul + carry;
      assert out > 0 by { MulMonotone(n, 1, mul); }
      assert MulAdd(Digits(n, base), mul, carry, base) == Digits(out, base) by { MulAddDigits(n, mul, carry, base); }
    }
  }

  /** The carry leaving a digit stays below `mul`, if it entered below `mul` and the digit is proper. */
  lemma CarryBound(carry: nat, d: nat, mul: nat, base: nat)
    requires base >= 2 && carry < mul && d < base
    ensures 0 <= (carry + d * mul) / base < mul
  {
    var t := carry + d * mul;
    MulMonotone(mul, d, base - 1);
    MulDistributes(mul, base, 1);
    DivMod(t, base);
    if t / base >= mul {
      MulMonotone(base, mul, t / base);
    }
  }
}
