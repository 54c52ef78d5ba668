/** `fibonacci.c`: the program prints 0 and 1, then each further number
    as the sum of the two before it until `num` numbers are out. The
    printed numbers are returned. C's `int` holds 32-bit values; the
    largest Fibonacci number that fits is F(46), the last one printed for
    `num == 47`. */
module Fibonacci {

  const Int32Max := 0x7fff_ffff

  /** The Fibonacci numbers, F(0) = 0 and F(1) = 1. */
  function Fib(n: nat): nat {
    if n < 2 then n else Fib(n - 1) + Fib(n - 2)
  }

  /** `fibonacci(num)`: `prev` and `curr` start at F(0) and F(1); each
      pass of the loop moves them one step along. At least two numbers
      are always printed. */
  method Fibonacci(num: int) returns (printed: seq<int>)
    requires num <= 47
    ensures |printed| == if num < 2 then 2 else num
    ensures printed[0] == 0 && printed[1] == 1
    ensures forall k :: 2 <= k < |printed| ==> printed[k] == printed[k - 1] + printed[k - 2]
    ensures forall k :: 0 <= k < |printed| ==> printed[k] == Fib(k)
    ensures forall k :: 0 <= k < |printed| ==> 0 <= printed[k] <= Int32Max
  {
    var prev, curr := 0, 1;
    printed := [prev, curr];
    var i := 2;
    while i < num
      invariant 2 <= i <= (if num < 2 then 2 else num)
      invariant |printed| == i
      invariant prev == Fib(i - 2) && curr == Fib(i - 1)
      invariant forall k :: 0 <= k < i ==> printed[k] == Fib(k)
    {
      var next := prev + curr;
      prev := curr;
      curr := next;
      printed := printed + [curr];
      i := i + 1;
    }
    forall k | 0 <= k < |printed|
      ensures printed[k] <= Int32Max
    {
      FibBound(k);
    }
  }

  lemma {:induction false} FibMonotone(j: nat, k: nat)
    requires j <= k
    ensures Fib(j) <= Fib(k)
    decreases k - j
  {
    if j < k {
      FibMonotone(j + 1, k);
      assert Fib(j) <= Fib(j + 1);
    }
  }

  /** Every Fibonacci number up to F(46) fits in a C `int`. */
  lemma FibBound(k: nat)
    requires k <= 46
    ensures Fib(k) <= Int32Max
  {
    FibFitsInt32();
    FibMonotone(k, 46);
  }

  /** F(46) fits in a C `int` and F(47) does not: `num` may be at most 47. */
  lemma FibFitsInt32()
    ensures Fib(46) <= Int32Max < Fib(47)
  {
    assert Fib(2) == 1;
    assert Fib(3) == 2;
    assert Fib(4) == 3;
    assert Fib(5) == 5;
    assert Fib(6) == 8;
    assert Fib(7) == 13;
    assert Fib(8) == 21;
    assert Fib(9) == 34;
    assert Fib(10) == 55;
    assert Fib(11) == 89;
    assert Fib(12) == 144;
    assert Fib(13) == 233;
    assert Fib(14) == 377;
    assert Fib(15) == 610;
    assert Fib(16) == 987;
    assert Fib(17) == 1597;
    assert Fib(18) == 2584;
    assert Fib(19) == 4181;
    assert Fib(20) == 6765;
    assert Fib(21) == 10946;
    assert Fib(22) == 17711;
    assert Fib(23) == 28657;
    assert Fib(24) == 46368;
    assert Fib(25) == 75025;
    assert Fib(26) == 121393;
    assert Fib(27) == 196418;
    assert Fib(28) == 317811;
    assert Fib(29) == 514229;
    assert Fib(30) == 832040;
    assert Fib(31) == 1346269;
    assert Fib(32) == 2178309;
    assert Fib(33) == 3524578;
    assert Fib(34) == 5702887;
    assert Fib(35) == 9227465;
    assert Fib(36) == 14930352;
    assert Fib(37) == 24157817;
    assert Fib(38) == 39088169;
    assert Fib(39) == 63245986;
    assert Fib(40) == 102334155;
    assert Fib(41) == 165580141;
    assert Fib(42) == 267914296;
    assert Fib(43) == 433494437;
    assert Fib(44) == 701408733;
    assert Fib(45) == 1134903170;
    assert Fib(46) == 1836311903;
    assert Fib(47) == 2971215073;
  }

  /** The printed sequence is determined by its first two numbers and the
      sum rule: any sequence starting 0, 1 that follows it is a prefix of
      the Fibonacci numbers. */
  lemma {:induction false} SumRuleGivesFib(s: seq<int>, k: nat)
    requires |s| >= 2 && s[0] == 0 && s[1] == 1
    requires forall i :: 2 <= i < |s| ==> s[i] == s[i - 1] + s[i - 2]
    requires k < |s|
    ensures s[k] == Fib(k)
    decreases k
  {
    if k >= 2 {
      SumRuleGivesFib(s, k - 1);
      SumRuleGivesFib(s, k - 2);
    }
  }

  /** Asking for 0 or 1 numbers still prints 0 and 1; asking for 10
      prints the first ten. */
  method FibonacciExamples() returns (none: seq<int>, ten: seq<int>)
    ensures none == [0, 1]
    ensures ten == [0, 1, 1, 2, 3, 5, 8, 13, 21, 34]
  {
    none := Fibonacci(0);
    ten := Fibonacci(10);
    assert Fib(2) == 1 && Fib(3) == 2 && Fib(4) == 3 && Fib(5) == 5;
    assert Fib(6) == 8 && Fib(7) == 13 && Fib(8) == 21 && Fib(9) == 34;
  }
}
