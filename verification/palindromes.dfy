/** The palindrome exercises: the digit-reversal loop (`is_palindrome` in
    `palindromi.c` and the inner loop of `palindromi_piu_cifre.c`), the
    three-digit test, and the functions that print the palindromes of a
    range. A printed list of numbers is the sequence returned. */
module Palindromes {
  import opened Seqs

  function Pow10(k: nat): (p: nat)
    ensures p >= 1
  {
    if k == 0 then 1 else 10 * Pow10(k - 1)
  }

  /** Decimal digits, most significant first; 0 has none. */
  function Digits(n: nat): (ds: seq<nat>)
    ensures forall i :: 0 <= i < |ds| ==> ds[i] < 10
    ensures n > 0 <==> |ds| > 0
    decreases n
  {
    if n == 0 then [] else Digits(n / 10) + [n % 10]
  }

  /** The number a digit sequence spells. */
  function Value(ds: seq<nat>): nat
    decreases |ds|
  {
    if ds == [] then 0 else Value(ds[..|ds| - 1]) * 10 + ds[|ds| - 1]
  }

  function Reverse(s: seq<nat>): (r: seq<nat>)
    ensures |r| == |s|
    ensures forall i :: 0 <= i < |s| ==> r[i] == s[|s| - 1 - i]
    decreases |s|
  {
    if s == [] then [] else [s[|s| - 1]] + Reverse(s[..|s| - 1])
  }

  /** The number whose decimal digits are those of `n` read backwards;
      trailing zeros of `n` vanish. Non-positive numbers reverse to 0, as
      the C loop never runs for them. */
  function Reversal(n: int): nat {
    if n <= 0 then 0 else Value(Reverse(Digits(n)))
  }

  /** What `is_palindrome` returns. */
  predicate IsPalindrome(n: int) {
    Reversal(n) == n
  }

  lemma {:induction false} ValueOfDigits(n: nat)
    ensures Value(Digits(n)) == n
    decreases n
  {
    if n > 0 {
      ValueOfDigits(n / 10);
      assert Digits(n)[..|Digits(n)| - 1] == Digits(n / 10);
    }
  }

  lemma {:induction false} ValueAppend(a: seq<nat>, b: seq<nat>)
    ensures Value(a + b) == Value(a) * Pow10(|b|) + Value(b)
    decreases |b|
  {
    if b == [] {
      assert a + b == a;
    } else {
      var b' := b[..|b| - 1];
      assert (a + b)[..|a + b| - 1] == a + b';
      ValueAppend(a, b');
      assert Value(a) * Pow10(|b'|) * 10 == Value(a) * Pow10(|b|);
    }
  }

  lemma ValueBound(ds: seq<nat>)
    requires forall i :: 0 <= i < |ds| ==> ds[i] < 10
    ensures Value(ds) < Pow10(|ds|)
    decreases |ds|
  {
    if ds != [] {
      ValueBound(ds[..|ds| - 1]);
    }
  }

  lemma {:induction false} DigitsLowerBound(n: nat)
    requires n > 0
    ensures Pow10(|Digits(n)| - 1) <= n
    decreases n
  {
    if n >= 10 {
      DigitsLowerBound(n / 10);
    }
  }

  /** Peeling the last digit off `n` puts it in front of the reversal. */
  lemma ReversalStep(n: nat)
    requires n > 0
    ensures Reversal(n) == (n % 10) * Pow10(|Digits(n / 10)|) + Reversal(n / 10)
  {
    var rest := Digits(n / 10);
    assert Digits(n)[..|Digits(n)| - 1] == rest;
    assert Reverse(Digits(n)) == [n % 10] + Reverse(rest);
    ValueAppend([n % 10], Reverse(rest));
    assert Value([n % 10]) == n % 10 by {
      assert [n % 10][..0] == [];
    }
  }

  /** One turn of the reversal loop keeps its invariant. */
  lemma ReverseDigitsStep(num: nat, n: nat, reversed: nat)
    requires n > 0
    requires Reversal(num) == reversed * Pow10(|Digits(n)|) + Reversal(n)
    ensures Reversal(num) == (reversed * 10 + n % 10) * Pow10(|Digits(n / 10)|) + Reversal(n / 10)
  {
    var digit := n % 10;
    ReversalStep(n);
    var k := |Digits(n / 10)|;
    var p := Pow10(k);
    assert Digits(n) == Digits(n / 10) + [digit];
    assert Pow10(|Digits(n)|) == 10 * p;
    ShiftDigit(reversed, digit, p);
  }

  lemma ShiftDigit(r: int, d: int, p: int)
    ensures r * (10 * p) + d * p == (r * 10 + d) * p
  {
  }

  /** `is_palindrome` and the inner loop of `stampa_numeri_palindromi`:
      the digits are taken off the end and pushed onto `reversed`. */
  method ReverseDigits(num: int) returns (reversed: nat)
    ensures reversed == Reversal(num)
  {
    reversed := 0;
    var n := num;
    while n > 0
      invariant num <= 0 ==> n == num && reversed == 0
      invariant num > 0 ==> 0 <= n && Reversal(num) == reversed * Pow10(|Digits(n)|) + Reversal(n)
      decreases n
    {
      var digit := n % 10;
      ReverseDigitsStep(num, n, reversed);
      reversed := reversed * 10 + digit;
      n := n / 10;
    }
  }

  method IsPalindromeLoop(num: int) returns (b: bool)
    ensures b <==> IsPalindrome(num)
    ensures b <==> num == 0 || (num > 0 && Reverse(Digits(num)) == Digits(num))
  {
    var reversed := ReverseDigits(num);
    b := reversed == num;
    if num > 0 {
      PalindromeIffSymmetric(num);
    }
  }

  /** Two digit strings of one length spelling the same number are equal. */
  lemma {:induction false} ValueInjective(a: seq<nat>, b: seq<nat>)
    requires |a| == |b|
    requires forall i :: 0 <= i < |a| ==> a[i] < 10
    requires forall i :: 0 <= i < |b| ==> b[i] < 10
    requires Value(a) == Value(b)
    ensures a == b
    decreases |a|
  {
    if a != [] {
      var a', b' := a[..|a| - 1], b[..|b| - 1];
      assert a[|a| - 1] == b[|b| - 1];
      ValueInjective(a', b');
      assert a == a' + [a[|a| - 1]];
      assert b == b' + [b[|b| - 1]];
    }
  }

  /** A positive number is its own reversal exactly when its digits read
      the same both ways. */
  lemma PalindromeIffSymmetric(n: nat)
    requires n > 0
    ensures IsPalindrome(n) <==> Reverse(Digits(n)) == Digits(n)
  {
    ValueOfDigits(n);
    if IsPalindrome(n) {
      ValueInjective(Reverse(Digits(n)), Digits(n));
    }
  }

  /** Zero is a palindrome and no negative number is. */
  lemma NonPositivePalindromes(n: int)
    requires n <= 0
    ensures IsPalindrome(n) <==> n == 0
  {
  }

  /** A positive multiple of ten is never a palindrome: its reversal loses
      the trailing zero and comes out shorter. */
  lemma MultipleOfTenNotPalindrome(n: int)
    requires n > 0 && n % 10 == 0
    ensures !IsPalindrome(n)
  {
    var rest := Digits(n / 10);
    assert Digits(n)[..|Digits(n)| - 1] == rest;
    assert Reverse(Digits(n)) == [0] + Reverse(rest);
    ValueAppend([0], Reverse(rest));
    assert Value([0]) == 0 by {
      assert [0][..0] == [];
    }
    ValueBound(Reverse(rest));
    DigitsLowerBound(n);
  }

  // ---------------------------------------------------------------------
  // Short numbers written out digit by digit
  // ---------------------------------------------------------------------

  /** A one-digit number is its own reversal. */
  lemma OneDigitReversal(n: nat)
    requires 1 <= n <= 9
    ensures Reversal(n) == n && |Digits(n)| == 1
  {
    ReversalStep(n);
    assert n / 10 == 0;
  }

  lemma TwoDigitReversal(n: nat)
    requires 10 <= n <= 99
    ensures Reversal(n) == (n % 10) * 10 + n / 10 && |Digits(n)| == 2
  {
    ReversalStep(n);
    OneDigitReversal(n / 10);
  }

  lemma ThreeDigitReversal(n: nat)
    requires 100 <= n <= 999
    ensures Reversal(n) == (n % 10) * 100 + (n / 10 % 10) * 10 + n / 100 && |Digits(n)| == 3
  {
    ReversalStep(n);
    TwoDigitReversal(n / 10);
    assert n / 10 / 10 == n / 100;
  }

  lemma FourDigitReversal(n: nat)
    requires 1000 <= n <= 9999
    ensures Reversal(n) == (n % 10) * 1000 + (n / 10 % 10) * 100 + (n / 100 % 10) * 10 + n / 1000
  {
    ReversalStep(n);
    ThreeDigitReversal(n / 10);
    assert n / 10 / 10 == n / 100;
    assert n / 10 / 100 == n / 1000;
  }

  // ---------------------------------------------------------------------
  // palindromi.c
  // ---------------------------------------------------------------------

  /** The test of `stampa_palindromi`: tens digit equals units digit. */
  predicate TwoDigitTest(n: int) {
    n / 10 == n % 10
  }

  /** `stampa_palindromi`: every number from 10 to 99 with equal digits. */
  method PrintTwoDigitPalindromes() returns (out: seq<int>)
    ensures out == seq(9, i => 11 * (i + 1))
    ensures forall x :: x in out ==> IsPalindrome(x)
  {
    out := [];
    var numero := 10;
    while numero <= 99
      invariant 10 <= numero <= 100
      invariant out == RangeWhere(10, numero - 1, TwoDigitTest)
    {
      RangeWhereStep(10, numero, TwoDigitTest);
      var decina := numero / 10;
      var unita := numero % 10;
      if decina == unita {
        out := out + [numero];
      }
      numero := numero + 1;
    }
    TwoDigitPalindromes(out);
    forall x | x in out
      ensures IsPalindrome(x)
    {
      TwoDigitReversal(x);
    }
  }

  /** The two-digit numbers with equal digits are 11, 22, ..., 99. */
  lemma TwoDigitPalindromes(out: seq<int>)
    requires forall x :: x in out <==> 10 <= x <= 99 && TwoDigitTest(x)
    requires Increasing(out)
    ensures out == seq(9, i => 11 * (i + 1))
  {
    var expected := seq(9, i => 11 * (i + 1));
    forall x
      ensures x in out <==> x in expected
    {
      if 10 <= x <= 99 && TwoDigitTest(x) {
        assert expected[x / 10 - 1] == x;
      }
      if x in expected {
        var i :| 0 <= i < 9 && expected[i] == x;
        assert x / 10 == i + 1 && x % 10 == i + 1;
      }
    }
    IncreasingUnique(out, expected);
  }

  /** `palindromo_tre_cifre`: first digit against last, then the
      reversal built from the three digits against the number. */
  function ThreeDigitTest(numero: nat): (r: bool) {
    var cifra1 := numero / 100;
    var cifra3 := numero % 10;
    cifra1 == cifra3 && cifra3 * 100 + (numero / 10 % 10) * 10 + cifra1 == numero
  }

  /** On three-digit numbers the reversal check inside is implied by the
      first test, and the function agrees with `is_palindrome`. */
  lemma ThreeDigitAgrees(n: nat)
    requires 100 <= n <= 999
    ensures ThreeDigitTest(n) <==> n / 100 == n % 10
    ensures ThreeDigitTest(n) <==> IsPalindrome(n)
  {
    ThreeDigitReversal(n);
  }

  predicate ThreeDigitPrinted(n: int) {
    n >= 0 && ThreeDigitTest(n)
  }

  /** `stampa_palindromi_tre_cifre`: the three-digit palindromes, ascending. */
  method PrintThreeDigitPalindromes() returns (out: seq<int>)
    ensures forall x :: x in out <==> 100 <= x <= 999 && IsPalindrome(x)
    ensures Increasing(out)
  {
    out := [];
    var i := 100;
    while i <= 999
      invariant 100 <= i <= 1000
      invariant out == RangeWhere(100, i - 1, ThreeDigitPrinted)
    {
      RangeWhereStep(100, i, ThreeDigitPrinted);
      if ThreeDigitTest(i) {
        out := out + [i];
      }
      i := i + 1;
    }
    forall x | 100 <= x <= 999
      ensures ThreeDigitPrinted(x) == IsPalindrome(x)
    {
      ThreeDigitAgrees(x);
    }
  }

  /** `print_palindrome_numbers`: the four-digit palindromes, ascending. */
  method PrintFourDigitPalindromes() returns (out: seq<int>)
    ensures forall x :: x in out <==> 1000 <= x <= 9999 && IsPalindrome(x)
    ensures Increasing(out)
  {
    out := [];
    var i := 1000;
    while i <= 9999
      invariant 1000 <= i <= 10000
      invariant out == RangeWhere(1000, i - 1, IsPalindrome)
    {
      RangeWhereStep(1000, i, IsPalindrome);
      var b := IsPalindromeLoop(i);
      if b {
        out := out + [i];
      }
      i := i + 1;
    }
  }

  /** A four-digit number as its digits `d3 d2 d1 d0`. */
  lemma FourDigits(n: nat)
    requires 1000 <= n <= 9999
    ensures var d0, d1, d2, d3 := n % 10, n / 10 % 10, n / 100 % 10, n / 1000;
      && n == 1000 * d3 + 100 * d2 + 10 * d1 + d0
      && 1 <= d3 <= 9
  {
    var q1 := n / 10;
    var q2 := q1 / 10;
    assert n / 100 == q2;
    assert n / 1000 == q2 / 10;
  }

  /** The four-digit palindromes are exactly the numbers written `abba`. */
  lemma FourDigitPalindromes(x: int)
    ensures 1000 <= x <= 9999 && IsPalindrome(x) <==>
              exists a, b :: 1 <= a <= 9 && 0 <= b <= 9 && x == 1001 * a + 110 * b
  {
    if 1000 <= x <= 9999 && IsPalindrome(x) {
      PalindromeIsAbba(x);
    }
    if exists a, b :: 1 <= a <= 9 && 0 <= b <= 9 && x == 1001 * a + 110 * b {
      var a, b :| 1 <= a <= 9 && 0 <= b <= 9 && x == 1001 * a + 110 * b;
      AbbaIsPalindrome(a, b);
    }
  }

  lemma PalindromeIsAbba(x: nat)
    requires 1000 <= x <= 9999 && IsPalindrome(x)
    ensures 1 <= x / 1000 <= 9 && 0 <= x / 100 % 10 <= 9
    ensures x == 1001 * (x / 1000) + 110 * (x / 100 % 10)
  {
    FourDigitReversal(x);
    FourDigits(x);
    var d0, d1, d2, d3 := x % 10, x / 10 % 10, x / 100 % 10, x / 1000;
    assert d0 * 1000 + d1 * 100 + d2 * 10 + d3 == 1000 * d3 + 100 * d2 + 10 * d1 + d0;
    assert 999 * (d0 - d3) == 90 * (d2 - d1);
    assert d0 == d3;
    assert d1 == d2;
  }

  lemma AbbaIsPalindrome(a: int, b: int)
    requires 1 <= a <= 9 && 0 <= b <= 9
    ensures 1000 <= 1001 * a + 110 * b <= 9999 && IsPalindrome(1001 * a + 110 * b)
  {
    var x := 1001 * a + 110 * b;
    LastDigit(100 * a + 11 * b, a);
    LastDigit(10 * a + b, b);
    LastDigit(a, b);
    var q1 := x / 10;
    var q2 := q1 / 10;
    assert x / 100 == q2;
    assert x / 1000 == q2 / 10;
    FourDigitReversal(x);
  }

  /** Appending digit `d` to `q`, and taking it off again. */
  lemma LastDigit(q: int, d: int)
    requires 0 <= d <= 9
    ensures (10 * q + d) % 10 == d && (10 * q + d) / 10 == q
  {
  }

  // ---------------------------------------------------------------------
  // palindromi_piu_cifre.c
  // ---------------------------------------------------------------------

  /** `stampa_numeri_palindromi(lo, hi)`: every `i` of `[lo, hi]` equal to
      its reversal, ascending and without repeats. Ranges end below 10^9,
      where reversals still fit a 32-bit `int`. */
  method PrintPalindromesInRange(lo: int, hi: int) returns (out: seq<int>)
    requires hi < 1_000_000_000
    ensures out == RangeWhere(lo, hi, IsPalindrome)
    ensures Increasing(out)
    ensures forall i :: 0 <= i < |out| ==> out[i] <= 0 || out[i] % 10 != 0
  {
    out := [];
    if lo <= hi {
      var i := lo;
      while i <= hi
        invariant lo <= i <= hi + 1
        invariant out == RangeWhere(lo, i - 1, IsPalindrome)
      {
        RangeWhereStep(lo, i, IsPalindrome);
        var numeroInvertito := ReverseDigits(i);
        if numeroInvertito == i {
          out := out + [i];
        }
        i := i + 1;
      }
    }
    forall i | 0 <= i < |out|
      ensures out[i] <= 0 || out[i] % 10 != 0
    {
      if out[i] > 0 && out[i] % 10 == 0 {
        MultipleOfTenNotPalindrome(out[i]);
      }
    }
  }

  /** `main` prints the palindromes from 10 to 9999. */
  method PalindromesProgram() returns (out: seq<int>)
    ensures forall x :: x in out <==> 10 <= x <= 9999 && IsPalindrome(x)
    ensures Increasing(out)
  {
    out := PrintPalindromesInRange(10, 9999);
  }
}
