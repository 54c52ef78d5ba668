/** Proper divisors and amicable numbers: the divisor listing of
    `divisori.c`, the divisor-sum loop shared by `amicabile.c`,
    `amicabili.c` and `numeri_amici.c` (`sum_divisors`/`somma_divisori`),
    the amicable test and the two programs that print the amicable pairs
    of a range. Printed output is the sequence returned. */
module Divisors {
  import opened Seqs

  function DivisorTest(n: int): int -> bool {
    i => i > 0 && n % i == 0
  }

  /** The numbers in `[1, n)` dividing `n`, ascending; none when `n <= 1`. */
  function ProperDivisors(n: int): (ds: seq<int>)
    ensures forall i :: i in ds <==> 1 <= i < n && n % i == 0
    ensures Increasing(ds)
  {
    RangeWhere(1, n - 1, DivisorTest(n))
  }

  function Sum(s: seq<int>): int
    decreases |s|
  {
    if s == [] then 0 else Sum(s[..|s| - 1]) + s[|s| - 1]
  }

  /** The sum of the proper divisors of `n`. */
  function SumDivisors(n: int): int {
    Sum(ProperDivisors(n))
  }

  // ---------------------------------------------------------------------
  // divisori.c
  // ---------------------------------------------------------------------

  /** The loop of `divisori.c`: every `cont` from 1 below `num` that
      divides it, in order; `num` itself is not listed. */
  method ListDivisors(num: int) returns (out: seq<int>)
    ensures forall i :: i in out <==> 1 <= i < num && num % i == 0
    ensures Increasing(out)
    ensures num !in out
    ensures num <= 1 ==> out == []
  {
    out := [];
    var cont := 1;
    while cont < num
      invariant 1 <= cont && (num >= 1 ==> cont <= num)
      invariant out == RangeWhere(1, cont - 1, DivisorTest(num))
      invariant num <= 1 ==> out == []
    {
      RangeWhereStep(1, cont, DivisorTest(num));
      if num % cont == 0 {
        out := out + [cont];
      }
      cont := cont + 1;
    }
  }

  // ---------------------------------------------------------------------
  // sum_divisors / somma_divisori
  // ---------------------------------------------------------------------

  /** The running total of the loop once it has passed `k`. */
  function RunningSum(n: int, k: int): int
    decreases k
  {
    if k < 1 then 0 else RunningSum(n, k - 1) + (if n % k == 0 then k else 0)
  }

  /** The running total is the sum of the divisors met so far. */
  lemma {:induction false} RunningSumIsSum(n: int, k: int)
    ensures RunningSum(n, k) == Sum(RangeWhere(1, k, DivisorTest(n)))
    decreases k
  {
    if k >= 1 {
      RunningSumIsSum(n, k - 1);
      SumStep(n, k);
    }
  }

  /** `sum_divisors(n)`: the loop adds every `i` in `[1, n)` dividing `n`,
      so the result is the sum of the divisor listing above. */
  method SumDivisorsLoop(n: int) returns (sum: int)
    ensures sum == Sum(ProperDivisors(n))
    ensures n <= 1 ==> sum == 0
  {
    sum := 0;
    var i := 1;
    while i < n
      invariant 1 <= i <= (if n >= 1 then n else 1)
      invariant sum == RunningSum(n, i - 1)
    {
      if n % i == 0 {
        sum := sum + i;
      }
      i := i + 1;
    }
    RunningSumIsSum(n, n - 1);
  }

  /** Passing `i` adds `i` to the running sum exactly when it divides `n`. */
  lemma SumStep(n: int, i: int)
    requires i >= 1
    ensures Sum(RangeWhere(1, i, DivisorTest(n)))
         == Sum(RangeWhere(1, i - 1, DivisorTest(n))) + (if n % i == 0 then i else 0)
  {
    var before := RangeWhere(1, i - 1, DivisorTest(n));
    RangeWhereStep(1, i, DivisorTest(n));
    if n % i == 0 {
      assert (before + [i])[..|before|] == before;
    } else {
      assert before + [] == before;
    }
  }

  /** 6 = 1 + 2 + 3 is perfect. */
  lemma SixIsPerfect()
    ensures ProperDivisors(6) == [1, 2, 3]
    ensures SumDivisors(6) == 6
  {
    SixDivisors();
    assert [1, 2, 3][..2] == [1, 2] && [1, 2][..1] == [1] && [1][..0] == [];
  }

  lemma SixDivisors()
    ensures RangeWhere(1, 5, DivisorTest(6)) == [1, 2, 3]
  {
    var t := DivisorTest(6);
    assert t(1) && t(2) && t(3) && !t(4) && !t(5);
    assert RangeWhere(1, 0, t) == [];
    RangeWhereStep(1, 1, t);
    RangeWhereStep(1, 2, t);
    RangeWhereStep(1, 3, t);
    RangeWhereStep(1, 4, t);
    RangeWhereStep(1, 5, t);
  }

  // ---------------------------------------------------------------------
  // amicabile.c
  // ---------------------------------------------------------------------

  /** `is_amicable(n)`: the divisor sum `m` of `n` differs from `n` and has
      divisor sum `n`. */
  predicate IsAmicable(n: int) {
    var m := SumDivisors(n);
    m != n && SumDivisors(m) == n
  }

  method IsAmicableCall(n: int) returns (b: bool)
    ensures b <==> IsAmicable(n)
  {
    var m := SumDivisorsLoop(n);
    var back := SumDivisorsLoop(m);
    b := m != n && back == n;
  }

  /** A perfect number is its own divisor sum, so it is never amicable. */
  lemma PerfectNotAmicable(n: int)
    requires SumDivisors(n) == n
    ensures !IsAmicable(n)
  {
  }

  /** The partner of an amicable number is amicable, with partner `n`. */
  lemma AmicableSymmetric(n: int)
    requires IsAmicable(n)
    ensures IsAmicable(SumDivisors(n))
    ensures SumDivisors(SumDivisors(n)) == n
  {
  }

  // ---------------------------------------------------------------------
  // amicabili.c and numeri_amici.c
  // ---------------------------------------------------------------------

  /** The test of `find_amicable_numbers(n1, n2)` and of the loop body of
      `numeri_amici.c`: each number is the other's divisor sum. */
  predicate AmicablePair(a: int, b: int) {
    SumDivisors(a) == b && SumDivisors(b) == a
  }

  /** The pair test is symmetric, and for distinct numbers it says that
      each is amicable with the other as partner. */
  lemma AmicablePairMeaning(a: int, b: int)
    ensures AmicablePair(a, b) <==> AmicablePair(b, a)
    ensures a != b ==> (AmicablePair(a, b) <==> IsAmicable(a) && SumDivisors(a) == b)
  {
  }

  /** `find_amicable_numbers(n1, n2)`: prints the pair when it passes. */
  method FindAmicableNumbers(n1: int, n2: int) returns (out: seq<(int, int)>)
    ensures out == (if AmicablePair(n1, n2) then [(n1, n2)] else [])
  {
    var sum1 := SumDivisorsLoop(n1);
    var sum2 := SumDivisorsLoop(n2);
    out := if sum1 == n2 && sum2 == n1 then [(n1, n2)] else [];
  }

  predicate LexLess(p: (int, int), q: (int, int)) {
    p.0 < q.0 || (p.0 == q.0 && p.1 < q.1)
  }

  /** Printed pairs come out ordered by first, then second number. */
  ghost predicate LexSorted(s: seq<(int, int)>) {
    forall k, l :: 0 <= k < l < |s| ==> LexLess(s[k], s[l])
  }

  lemma LexSortedAppend(s: seq<(int, int)>, p: (int, int))
    requires LexSorted(s)
    requires forall q :: q in s ==> LexLess(q, p)
    ensures LexSorted(s + [p])
  {
    forall k, l | 0 <= k < l < |s| + 1
      ensures LexLess((s + [p])[k], (s + [p])[l])
    {
      if l == |s| {
        assert s[k] in s;
      }
    }
  }

  /** The nested loops of both programs: every `i` from 1 to `hi`, every
      `j` from `i + 1` to `hi`, the pair printed when it passes. Each
      unordered pair is visited once, so every amicable pair of the range
      is printed exactly once, smaller number first. */
  method AmicablePairsUpTo(hi: int) returns (out: seq<(int, int)>)
    ensures forall p :: p in out <==> 1 <= p.0 < p.1 <= hi && AmicablePair(p.0, p.1)
    ensures LexSorted(out)
  {
    out := [];
    var i := 1;
    while i <= hi
      invariant 1 <= i && (hi >= 0 ==> i <= hi + 1)
      invariant forall p :: p in out <==> 1 <= p.0 < i && p.0 < p.1 <= hi && AmicablePair(p.0, p.1)
      invariant forall p :: p in out ==> p.0 < i
      invariant LexSorted(out)
    {
      var j := i + 1;
      while j <= hi
        invariant i + 1 <= j <= hi + 1
        invariant forall p :: p in out <==>
                    (1 <= p.0 < i && p.0 < p.1 <= hi && AmicablePair(p.0, p.1)) ||
                    (p.0 == i && i < p.1 < j && AmicablePair(p.0, p.1))
        invariant forall p :: p in out ==> LexLess(p, (i, j))
        invariant LexSorted(out)
      {
        var found := FindAmicableNumbers(i, j);
        if found != [] {
          LexSortedAppend(out, (i, j));
        }
        out := out + found;
        j := j + 1;
      }
      i := i + 1;
    }
  }

  /** An amicable pair in range is printed once, in increasing order, and
      never the other way round. */
  lemma PairPrintedOnce(out: seq<(int, int)>, hi: int, a: int, b: int)
    requires forall p :: p in out <==> 1 <= p.0 < p.1 <= hi && AmicablePair(p.0, p.1)
    requires 1 <= a < b <= hi && AmicablePair(a, b)
    ensures (a, b) in out && (b, a) !in out
  {
  }

  /** `amicabili.c`: all pairs below 10000. */
  method AmicabiliProgram() returns (out: seq<(int, int)>)
    ensures forall p :: p in out <==> 1 <= p.0 < p.1 < 10000 && AmicablePair(p.0, p.1)
    ensures LexSorted(out)
  {
    out := AmicablePairsUpTo(9999);
  }

  /** `numeri_amici.c`: all pairs up to 3000. */
  method NumeriAmiciProgram() returns (out: seq<(int, int)>)
    ensures forall p :: p in out <==> 1 <= p.0 < p.1 <= 3000 && AmicablePair(p.0, p.1)
    ensures LexSorted(out)
  {
    out := AmicablePairsUpTo(3000);
  }
}
