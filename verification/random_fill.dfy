/** `vet_rand.cpp`: arrays filled with `rand() % k + min`. The generator
    is a parameter: the sequence of values successive `rand()` calls
    return, each in `[0, RAND_MAX]`. Printed arrays are returned. */
module RandomFill {

  /** glibc's `RAND_MAX`; the C standard promises at least 32767. */
  const RandMax := 0x7fff_ffff

  /** A value `rand()` can return. */
  predicate IsDraw(d: int) {
    0 <= d <= RandMax
  }

  predicate AllDraws(ds: seq<int>) {
    forall i :: 0 <= i < |ds| ==> IsDraw(ds[i])
  }

  /** One cell: `rand() % (max - min + 1) + min`. A draw is never negative,
      so C's truncating remainder is Dafny's. */
  function Scale(d: int, min: int, max: int): (v: int)
    requires IsDraw(d) && min <= max
    ensures min <= v <= max
  {
    d % (max - min + 1) + min
  }

  /** Every value of the range comes out of some draw, as long as the
      range is no wider than the generator's. */
  lemma EveryValueDrawable(min: int, max: int, v: int)
    requires min <= v <= max && max - min <= RandMax
    ensures IsDraw(v - min) && Scale(v - min, min, max) == v
  {
  }

  /** The fill loop shared by the three functions: cell `i` takes the
      `i`-th draw, scaled into `[min, max]`. */
  method FillRange(draws: seq<int>, count: nat, min: int, max: int) returns (vet: seq<int>)
    requires min <= max
    requires count <= |draws| && AllDraws(draws)
    ensures |vet| == count
    ensures forall i :: 0 <= i < count ==> min <= vet[i] <= max
    ensures forall i :: 0 <= i < count ==> vet[i] == Scale(draws[i], min, max)
  {
    vet := [];
    var i := 0;
    while i < count
      invariant 0 <= i <= count
      invariant |vet| == i
      invariant forall k :: 0 <= k < i ==> vet[k] == Scale(draws[k], min, max)
    {
      vet := vet + [draws[i] % (max - min + 1) + min];
      i := i + 1;
    }
  }

  /** `vet_rand()`: ten cells in `[0, 9]`. */
  method VetRand(draws: seq<int>) returns (vet: seq<int>)
    requires |draws| == 10 && AllDraws(draws)
    ensures |vet| == 10
    ensures forall i :: 0 <= i < 10 ==> 0 <= vet[i] <= 9 && vet[i] == draws[i] % 10
  {
    vet := FillRange(draws, 10, 0, 9);
  }

  /** `vet_rand_2()`: a hundred cells in `[10, 100]`. */
  method VetRand2(draws: seq<int>) returns (vet: seq<int>)
    requires |draws| == 100 && AllDraws(draws)
    ensures |vet| == 100
    ensures forall i :: 0 <= i < 100 ==> 10 <= vet[i] <= 100 && vet[i] == draws[i] % 91 + 10
  {
    vet := FillRange(draws, 100, 10, 100);
  }

  /** `vet_rand_3(vet, min, max)`: the first hundred cells of the caller's
      array take values in `[min, max]`; the array must hold at least a
      hundred cells, and any beyond them keep their values. */
  method VetRand3(vet: seq<int>, draws: seq<int>, min: int, max: int) returns (after: seq<int>)
    requires |vet| >= 100
    requires min <= max
    requires |draws| == 100 && AllDraws(draws)
    ensures |after| == |vet|
    ensures forall i :: 0 <= i < 100 ==> min <= after[i] <= max
    ensures forall i :: 0 <= i < 100 ==> after[i] == Scale(draws[i], min, max)
    ensures forall i :: 100 <= i < |vet| ==> after[i] == vet[i]
  {
    var filled := FillRange(draws, 100, min, max);
    after := filled + vet[100..];
  }

  /** `main`: the three calls take consecutive draws; the last one fills
      the hundred-cell array of `main` (uninitialised, so any contents)
      with values in `[45, 55]`. */
  method RandomProgram(draws: seq<int>, vet: seq<int>) returns (out1: seq<int>, out2: seq<int>, out3: seq<int>)
    requires |draws| == 210 && AllDraws(draws)
    requires |vet| == 100
    ensures |out1| == 10 && forall i :: 0 <= i < 10 ==> 0 <= out1[i] <= 9
    ensures |out2| == 100 && forall i :: 0 <= i < 100 ==> 10 <= out2[i] <= 100
    ensures |out3| == 100 && forall i :: 0 <= i < 100 ==> 45 <= out3[i] <= 55
    ensures forall i :: 0 <= i < 100 ==> out3[i] == draws[110 + i] % 11 + 45
  {
    out1 := VetRand(draws[..10]);
    out2 := VetRand2(draws[10..110]);
    out3 := VetRand3(vet, draws[110..], 45, 55);
  }
}
