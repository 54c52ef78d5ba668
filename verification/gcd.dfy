/** The three greatest-common-divisor exercises: Euclid's remainder loop
    (`MCD.c`), the same loop behind a zero guard (`mcd.c`) and the
    subtraction loop (`MCD2.c`). Inputs are non-negative: for them C's
    truncating `%` and Dafny's `%` agree. */
module Gcd {

  /** Euclid's recursion; `Gcd(a, 0) == a`, so `Gcd(0, 0) == 0`. */
  function Gcd(a: nat, b: nat): (g: nat)
    ensures g > 0 <==> a > 0 || b > 0
    decreases b
  {
    if b == 0 then a else Gcd(b, a % b)
  }

  /** `d` divides `n`. */
  ghost predicate Divides(d: int, n: int) {
    exists k :: n == k * d
  }

  /** `g` is a positive common divisor of `a` and `b` that every other
      common divisor divides. */
  ghost predicate IsGcd(g: nat, a: nat, b: nat) {
    && g > 0
    && Divides(g, a)
    && Divides(g, b)
    && forall d :: d > 0 && Divides(d, a) && Divides(d, b) ==> Divides(d, g)
  }

  lemma ModOfSmaller(a: nat, b: nat)
    requires a < b
    ensures a % b == a
  {
  }

  lemma DividesCombination(g: int, x: int, y: int, q: int)
    requires Divides(g, x) && Divides(g, y)
    ensures Divides(g, q * x + y)
  {
    var k1 :| x == k1 * g;
    var k2 :| y == k2 * g;
    assert q * x == (q * k1) * g;
    assert q * x + y == (q * k1 + k2) * g;
  }

  /** Euclid's recursion computes the greatest common divisor. */
  lemma {:induction false} GcdIsGreatest(a: nat, b: nat)
    requires a > 0 || b > 0
    ensures IsGcd(Gcd(a, b), a, b)
    decreases b
  {
    if b == 0 {
      assert a == 1 * a;
      assert 0 == 0 * a;
    } else {
      var q, r := a / b, a % b;
      assert a == q * b + r;
      assert r == -q * b + a;
      GcdIsGreatest(b, r);
      var g := Gcd(b, r);
      assert g == Gcd(a, b);
      DividesCombination(g, b, r, q);
      forall d | d > 0 && Divides(d, a) && Divides(d, b)
        ensures Divides(d, g)
      {
        DividesCombination(d, b, a, -q);
      }
    }
  }

  /** A divisor of a positive number is no larger than it. */
  lemma DivisorAtMost(d: int, n: int)
    requires d > 0 && n > 0 && Divides(d, n)
    ensures d <= n
  {
    var k :| n == k * d;
    assert n == d + (k - 1) * d;
  }

  /** Hence `Gcd(a, b)` is the largest number dividing both. */
  lemma GcdIsLargest(a: nat, b: nat, d: int)
    requires a > 0 || b > 0
    requires d > 0 && Divides(d, a) && Divides(d, b)
    ensures d <= Gcd(a, b)
  {
    GcdIsGreatest(a, b);
    DivisorAtMost(d, Gcd(a, b));
  }

  lemma {:induction false} GcdCommutes(a: nat, b: nat)
    ensures Gcd(a, b) == Gcd(b, a)
  {
    if a < b {
      ModOfSmaller(a, b);
      assert Gcd(a, b) == Gcd(b, a);
    } else if b < a {
      ModOfSmaller(b, a);
      assert Gcd(b, a) == Gcd(a, b);
    }
  }

  /** The documented examples: 8 for 32 and 24, 1 for 32 and 23. */
  lemma EuclidExamples()
    ensures Gcd(32, 24) == 8
    ensures Gcd(32, 23) == 1
  {
    assert Gcd(24, 8) == Gcd(8, 0);
    assert Gcd(32, 23) == Gcd(23, 9);
    assert Gcd(23, 9) == Gcd(9, 5);
    assert Gcd(9, 5) == Gcd(5, 4);
    assert Gcd(5, 4) == Gcd(4, 1);
    assert Gcd(4, 1) == Gcd(1, 0);
  }

  // ---------------------------------------------------------------------
  // MCD.c
  // ---------------------------------------------------------------------

  /** The remainder loop: `num2` takes the remainder until it is 0, and
      `num1` is then the result. A second input of 0 skips the loop. */
  method EuclidLoop(num1: nat, num2: nat) returns (mcd: nat)
    ensures mcd == Gcd(num1, num2)
    ensures num1 > 0 || num2 > 0 ==> IsGcd(mcd, num1, num2)
    ensures num2 == 0 ==> mcd == num1
  {
    var x, y := num1, num2;
    while y != 0
      invariant Gcd(x, y) == Gcd(num1, num2)
      decreases y
    {
      var resto := x % y;
      x := y;
      y := resto;
    }
    mcd := x;
    if num1 > 0 || num2 > 0 {
      GcdIsGreatest(num1, num2);
    }
  }

  /** The message of `MCD.c`: the two inputs, printed before the loop, and
      the result. */
  method McdProgram(num1: nat, num2: nat) returns (shown1: nat, shown2: nat, mcd: nat)
    ensures shown1 == num1 && shown2 == num2
    ensures num1 > 0 || num2 > 0 ==> IsGcd(mcd, num1, num2)
  {
    shown1, shown2 := num1, num2;
    mcd := EuclidLoop(num1, num2);
  }

  // ---------------------------------------------------------------------
  // mcd.c
  // ---------------------------------------------------------------------

  /** `mcd.c` as written: a zero input gives 0, otherwise the remainder
      loop runs on `num1`/`num2` themselves, and the message then prints
      those variables, which now hold the result and 0. */
  method ZeroGuardAsWritten(in1: nat, in2: nat) returns (shown1: nat, shown2: nat, mcd: nat)
    ensures in1 == 0 || in2 == 0 ==> mcd == 0 && shown1 == in1 && shown2 == in2
    ensures in1 > 0 && in2 > 0 ==> IsGcd(mcd, in1, in2) && shown1 == mcd && shown2 == 0
  {
    var num1, num2 := in1, in2;
    if num1 == 0 || num2 == 0 {
      mcd := 0;
    } else {
      while num2 != 0
        invariant Gcd(num1, num2) == Gcd(in1, in2)
        decreases num2
      {
        var resto := num1 % num2;
        num1 := num2;
        num2 := resto;
      }
      mcd := num1;
      GcdIsGreatest(in1, in2);
    }
    shown1, shown2 := num1, num2;
  }

  /** For 32 and 24 the message names 8 and 0 as the inputs. */
  method ZeroGuardMessageExample() returns (shown1: nat, shown2: nat, mcd: nat)
    ensures shown1 == 8 && shown2 == 0 && mcd == 8
  {
    shown1, shown2, mcd := ZeroGuardAsWritten(32, 24);
    assert 32 == 4 * 8 && 24 == 3 * 8;
    DivisorAtMost(8, mcd);
    DivisorAtMost(mcd, 8);
  }

  /** `mcd.c` with the message naming the inputs, as `MCD.c` does: the
      zero guard still gives 0 for a zero input. */
  method ZeroGuard(num1: nat, num2: nat) returns (shown1: nat, shown2: nat, mcd: nat)
    ensures shown1 == num1 && shown2 == num2
    ensures num1 == 0 || num2 == 0 ==> mcd == 0
    ensures num1 > 0 && num2 > 0 ==> IsGcd(mcd, num1, num2)
  {
    shown1, shown2 := num1, num2;
    if num1 == 0 || num2 == 0 {
      mcd := 0;
    } else {
      mcd := EuclidLoop(num1, num2);
    }
  }

  // ---------------------------------------------------------------------
  // MCD2.c
  // ---------------------------------------------------------------------

  /** One pass of the subtraction loop: the larger value loses the smaller. */
  function SubtractStep(a: int, b: int): (int, int) {
    if a > b then (a - b, b) else (a, b - a)
  }

  /** Two pairs with the same common divisors have the same greatest one. */
  lemma SameDivisorsSameGcd(a: nat, b: nat, c: nat, e: nat)
    requires a > 0 || b > 0
    requires c > 0 || e > 0
    requires forall x :: x > 0 ==> (Divides(x, a) && Divides(x, b) <==> Divides(x, c) && Divides(x, e))
    ensures Gcd(a, b) == Gcd(c, e)
  {
    GcdIsGreatest(a, b);
    GcdIsGreatest(c, e);
    var g1, g2 := Gcd(a, b), Gcd(c, e);
    assert Divides(g1, g2);
    assert Divides(g2, g1);
    DivisorAtMost(g1, g2);
    DivisorAtMost(g2, g1);
  }

  /** Subtracting the smaller value keeps the greatest common divisor. */
  lemma SubtractKeepsGcd(a: nat, b: nat)
    requires a > 0 && b > 0 && a != b
    ensures SubtractStep(a, b).0 > 0 && SubtractStep(a, b).1 > 0
    ensures Gcd(SubtractStep(a, b).0, SubtractStep(a, b).1) == Gcd(a, b)
  {
    var big, small := if a > b then a else b, if a > b then b else a;
    forall x | x > 0
      ensures Divides(x, big - small) && Divides(x, small) <==> Divides(x, big) && Divides(x, small)
    {
      if Divides(x, big - small) && Divides(x, small) {
        DividesCombination(x, small, big - small, 1);
      }
      if Divides(x, big) && Divides(x, small) {
        DividesCombination(x, small, big, -1);
      }
    }
    if a > b {
      SameDivisorsSameGcd(a - b, b, a, b);
    } else {
      forall x | x > 0
        ensures Divides(x, a) && Divides(x, b - a) <==> Divides(x, a) && Divides(x, b)
      {
        assert Divides(x, b - a) && Divides(x, a) <==> Divides(x, b) && Divides(x, a);
      }
      SameDivisorsSameGcd(a, b - a, a, b);
    }
  }

  /** With exactly one input 0 the step changes nothing while the loop
      condition `a != b` stays true: the loop never ends, so both inputs
      must be positive. */
  lemma SubtractStepStuck(a: nat, b: nat)
    requires (a == 0) != (b == 0)
    ensures a != b && SubtractStep(a, b) == (a, b)
  {
  }

  /** The subtraction loop: for positive inputs it stops with `a == b`,
      both equal to the greatest common divisor. */
  method SubtractiveGcd(a0: nat, b0: nat) returns (a: nat)
    requires a0 > 0 && b0 > 0
    ensures IsGcd(a, a0, b0)
  {
    a := a0;
    var b: nat := b0;
    while a != b
      invariant a > 0 && b > 0
      invariant Gcd(a, b) == Gcd(a0, b0)
      decreases a + b
    {
      SubtractKeepsGcd(a, b);
      var s := SubtractStep(a, b);
      a, b := s.0, s.1;
    }
    assert a % a == 0;
    assert Gcd(a, a) == a by {
      assert Gcd(a, a) == Gcd(a, 0);
    }
    GcdIsGreatest(a0, b0);
  }

  /** The program's fixed inputs 48 and 12 print 12. */
  method SubtractiveProgram() returns (printed: nat)
    ensures printed == 12
  {
    printed := SubtractiveGcd(48, 12);
    assert Gcd(48, 12) == Gcd(12, 0);
    GcdIsGreatest(48, 12);
    assert 12 == 1 * 12 && 48 == 4 * 12;
    DivisorAtMost(12, printed);
    DivisorAtMost(printed, 12);
  }
}
