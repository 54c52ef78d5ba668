/** `trova_elemento_unico.c`: the element occurring an odd number of
    times, found by XOR-ing the whole array. C's `int` is modelled as a
    32-bit vector, on which `^` is the same bitwise operation; after each
    step the running value is printed in hexadecimal, and that trace is
    returned as well. */
module SingleNumber {

  /** The XOR of all elements, folded from the left; 0 for none. */
  function XorAll(s: seq<bv32>): bv32
    decreases |s|
  {
    if s == [] then 0 else XorAll(s[..|s| - 1]) ^ s[|s| - 1]
  }

  /** `singleNumber(nums, numsSize)`. */
  method FindSingle(nums: seq<bv32>) returns (res: bv32, trace: seq<bv32>)
    ensures res == XorAll(nums)
    ensures nums == [] ==> res == 0
    ensures |trace| == |nums|
    ensures forall i :: 0 <= i < |nums| ==> trace[i] == XorAll(nums[..i + 1])
  {
    res := 0;
    trace := [];
    var i := 0;
    while i < |nums|
      invariant 0 <= i <= |nums|
      invariant res == XorAll(nums[..i])
      invariant |trace| == i
      invariant forall k :: 0 <= k < i ==> trace[k] == XorAll(nums[..k + 1])
    {
      assert nums[..i + 1][..i] == nums[..i];
      res := res ^ nums[i];
      trace := trace + [res];
      i := i + 1;
    }
    assert nums[..i] == nums;
  }

  lemma {:induction false} XorAllAppend(a: seq<bv32>, b: seq<bv32>)
    ensures XorAll(a + b) == XorAll(a) ^ XorAll(b)
    decreases |b|
  {
    if b == [] {
      assert a + b == a;
    } else {
      var b' := b[..|b| - 1];
      assert (a + b)[..|a + b| - 1] == a + b';
      XorAllAppend(a, b');
    }
  }

  /** Taking one element out of the fold and XOR-ing it back in. */
  lemma XorAllMiddle(p: seq<bv32>, x: bv32, q: seq<bv32>)
    ensures XorAll(p + [x] + q) == XorAll(p + q) ^ x
  {
    XorAllAppend(p + [x], q);
    XorAllAppend(p, [x]);
    XorAllAppend(p, q);
    assert XorAll([x]) == x by {
      assert [x][..0] == [];
    }
  }

  /** One more element of a prefix. */
  lemma XorAllPrefixStep(s: seq<bv32>, k: nat)
    requires k < |s|
    ensures XorAll(s[..k + 1]) == XorAll(s[..k]) ^ s[k]
  {
    assert s[..k + 1][..k] == s[..k];
  }

  /** The number of occurrences of `v` in `s`. */
  function Occurrences(s: seq<bv32>, v: bv32): (n: nat)
    ensures n <= |s|
    decreases |s|
  {
    if s == [] then 0
    else Occurrences(s[..|s| - 1], v) + (if s[|s| - 1] == v then 1 else 0)
  }

  lemma {:induction false} OccurrencesAppend(a: seq<bv32>, b: seq<bv32>, v: bv32)
    ensures Occurrences(a + b, v) == Occurrences(a, v) + Occurrences(b, v)
    decreases |b|
  {
    if b == [] {
      assert a + b == a;
    } else {
      var b' := b[..|b| - 1];
      assert (a + b)[..|a + b| - 1] == a + b';
      OccurrencesAppend(a, b', v);
    }
  }

  /** Removing one element from the middle lowers its count by one. */
  lemma OccurrencesMiddle(p: seq<bv32>, x: bv32, q: seq<bv32>, v: bv32)
    ensures Occurrences(p + [x] + q, v) == Occurrences(p + q, v) + (if x == v then 1 else 0)
  {
    OccurrencesAppend(p + [x], q, v);
    OccurrencesAppend(p, [x], v);
    OccurrencesAppend(p, q, v);
    assert [x][..0] == [];
  }

  /** Two arrays are rearrangements of each other. */
  ghost predicate SameCounts(a: seq<bv32>, b: seq<bv32>) {
    forall v :: Occurrences(a, v) == Occurrences(b, v)
  }

  /** Taking the same value out of two rearrangements leaves
      rearrangements. */
  lemma SameCountsRemove(a: seq<bv32>, x: bv32, p: seq<bv32>, q: seq<bv32>)
    requires SameCounts(a + [x], p + [x] + q)
    ensures SameCounts(a, p + q)
  {
    forall v
      ensures Occurrences(a, v) == Occurrences(p + q, v)
    {
      OccurrencesMiddle(p, x, q, v);
      OccurrencesAppend(a, [x], v);
      assert [x][..0] == [];
    }
  }

  /** A value that occurs has an index. */
  lemma {:induction false} OccurrenceIndex(s: seq<bv32>, v: bv32) returns (j: nat)
    requires Occurrences(s, v) > 0
    ensures j < |s| && s[j] == v
    decreases |s|
  {
    if s[|s| - 1] == v {
      j := |s| - 1;
    } else {
      j := OccurrenceIndex(s[..|s| - 1], v);
    }
  }

  /** The last element of a non-empty array occurs in it. */
  lemma LastOccurs(s: seq<bv32>)
    ensures s != [] ==> Occurrences(s, s[|s| - 1]) > 0
  {
  }

  /** The result does not depend on the order of the elements. */
  lemma {:induction false} XorAllPermutation(a: seq<bv32>, b: seq<bv32>)
    requires SameCounts(a, b)
    ensures XorAll(a) == XorAll(b)
    decreases |a|
  {
    LastOccurs(b);
    if a != [] {
      var x := a[|a| - 1];
      var a' := a[..|a| - 1];
      assert a == a' + [x];
      assert Occurrences(b, x) > 0;
      var j := OccurrenceIndex(b, x);
      var p, q := b[..j], b[j + 1..];
      assert b == p + [x] + q;
      SameCountsRemove(a', x, p, q);
      XorAllPermutation(a', p + q);
      XorAllMiddle(p, x, q);
    }
  }

  /** A second copy of a value, taken out together with the first. */
  lemma DropPair(p: seq<bv32>, x: bv32, q: seq<bv32>)
    ensures forall v :: Occurrences(p + [x] + q + [x], v)
              == Occurrences(p + q, v) + (if v == x then 2 else 0)
    ensures XorAll(p + [x] + q + [x]) == XorAll(p + q)
  {
    var s' := p + [x] + q;
    assert (s' + [x])[..|s' + [x]| - 1] == s';
    forall v
      ensures Occurrences(s' + [x], v) == Occurrences(p + q, v) + (if v == x then 2 else 0)
    {
      OccurrencesMiddle(p, x, q, v);
    }
    XorAllMiddle(p, x, q);
  }

  /** `u` when `n` is odd, 0 when it is even. */
  function OddPart(n: nat, u: bv32): bv32 {
    if n % 2 == 1 then u else 0
  }

  lemma OddPartStep(n: nat, u: bv32)
    ensures OddPart(n + 1, u) == OddPart(n, u) ^ u
  {
    if n % 2 == 1 {
      assert (n + 1) % 2 == 0;
      SelfXor(u);
    } else {
      assert (n + 1) % 2 == 1;
      ZeroXor(u);
    }
  }

  lemma SelfXor(u: bv32)
    ensures u ^ u == 0
  {
  }

  lemma ZeroXor(u: bv32)
    ensures 0 ^ u == u
  {
  }

  lemma XorAllSnoc(s: seq<bv32>, x: bv32)
    ensures XorAll(s + [x]) == XorAll(s) ^ x
  {
    assert (s + [x])[..|s|] == s;
  }

  lemma OccurrencesSnoc(s: seq<bv32>, x: bv32, v: bv32)
    ensures Occurrences(s + [x], v) == Occurrences(s, v) + (if x == v then 1 else 0)
  {
    assert (s + [x])[..|s|] == s;
  }

  /** Adding `u` at the end flips the odd part. */
  lemma OddOneLastIsU(s': seq<bv32>, u: bv32)
    requires XorAll(s') == OddPart(Occurrences(s', u), u)
    ensures XorAll(s' + [u]) == OddPart(Occurrences(s' + [u], u), u)
  {
    XorAllSnoc(s', u);
    OccurrencesSnoc(s', u, u);
    OddPartStep(Occurrences(s', u), u);
  }

  /** Adding a second copy of another value changes nothing. */
  lemma OddOneLastPaired(p: seq<bv32>, x: bv32, q: seq<bv32>, u: bv32)
    requires x != u
    requires XorAll(p + q) == OddPart(Occurrences(p + q, u), u)
    ensures XorAll(p + [x] + q + [x]) == OddPart(Occurrences(p + [x] + q + [x], u), u)
  {
    DropPair(p, x, q);
  }

  /** When every value other than `u` occurs an even number of times, the
      fold is `u` if `u` occurs an odd number of times and 0 otherwise. */
  lemma {:induction false} XorAllOddOne(s: seq<bv32>, u: bv32)
    requires forall v :: v != u ==> Occurrences(s, v) % 2 == 0
    ensures XorAll(s) == OddPart(Occurrences(s, u), u)
    decreases |s|
  {
    if s != [] {
      var x := s[|s| - 1];
      var s' := s[..|s| - 1];
      assert s == s' + [x];
      if x == u {
        forall v | v != u
          ensures Occurrences(s', v) % 2 == 0
        {
          assert Occurrences(s, v) % 2 == 0;
        }
        XorAllOddOne(s', u);
        OddOneLastIsU(s', u);
      } else {
        assert Occurrences(s, x) % 2 == 0;
        var j := OccurrenceIndex(s', x);
        var p, q := s'[..j], s'[j + 1..];
        assert s == p + [x] + q + [x];
        DropPair(p, x, q);
        forall v | v != u
          ensures Occurrences(p + q, v) % 2 == 0
        {
          assert Occurrences(s, v) % 2 == 0;
        }
        XorAllOddOne(p + q, u);
        OddOneLastPaired(p, x, q, u);
      }
    }
  }

  /** Every value but `u` occurs an even number of times and `u` an odd
      number: the unique element the program looks for. */
  ghost predicate HasUniqueElement(s: seq<bv32>, u: bv32) {
    && Occurrences(s, u) % 2 == 1
    && forall v :: v != u ==> Occurrences(s, v) % 2 == 0
  }

  /** If the array has a unique element, the function returns it. */
  lemma FindsUniqueElement(s: seq<bv32>, u: bv32)
    requires HasUniqueElement(s, u)
    ensures XorAll(s) == u
  {
    XorAllOddOne(s, u);
    assert OddPart(Occurrences(s, u), u) == u;
  }

  /** `nums2`: 3 is the unique element and is returned. */
  method SecondExample() returns (res: bv32)
    ensures res == 3
  {
    var nums2: seq<bv32> := [2, 5, 2, 3, 2, 5, 2];
    var trace;
    res, trace := FindSingle(nums2);
    XorAllPrefixStep(nums2, 0);
    XorAllPrefixStep(nums2, 1);
    XorAllPrefixStep(nums2, 2);
    XorAllPrefixStep(nums2, 3);
    XorAllPrefixStep(nums2, 4);
    XorAllPrefixStep(nums2, 5);
    XorAllPrefixStep(nums2, 6);
    assert nums2[..7] == nums2;
  }

  /** `nums1` has three values occurring once (5, 4 and 3), against the
      premise; the result is `5 ^ 4 ^ 3 == 2`, none of them. */
  method FirstExample() returns (res: bv32)
    ensures res == 2
    ensures res != 5 && res != 4 && res != 3
  {
    var nums1: seq<bv32> := [2, 5, 4, 3, 2, 2, 2];
    var trace;
    res, trace := FindSingle(nums1);
    XorAllPrefixStep(nums1, 0);
    XorAllPrefixStep(nums1, 1);
    XorAllPrefixStep(nums1, 2);
    XorAllPrefixStep(nums1, 3);
    XorAllPrefixStep(nums1, 4);
    XorAllPrefixStep(nums1, 5);
    XorAllPrefixStep(nums1, 6);
    assert nums1[..7] == nums1;
  }
}
