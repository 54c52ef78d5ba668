/** `pari_dispari.c`: parity by repeated subtraction of 2. The documented
    contract is 0 for an even number and 1 for an odd one. The loop only
    runs while the value is at least 2, so a negative input comes back
    unchanged and the program calls every non-zero result odd. */
module Parity {

  predicate IsEven(n: int) {
    n % 2 == 0
  }

  /** `pari_dispari(numero)` as written. */
  method ParityAsWritten(numero: int) returns (result: int)
    ensures numero >= 0 ==> result == numero % 2
    ensures numero >= 0 ==> (result == 0 <==> IsEven(numero)) && (result == 1 <==> !IsEven(numero))
    ensures numero < 0 ==> result == numero
  {
    result := numero;
    while result >= 2
      invariant result % 2 == numero % 2
      invariant numero >= 0 ==> 0 <= result <= numero
      invariant numero < 0 ==> result == numero
      decreases result
    {
      result := result - 2;
    }
  }

  /** `main` as written: the number is reported even iff the result is 0. */
  method ParityProgramAsWritten(num: int) returns (reportedEven: bool)
    ensures num >= 0 ==> (reportedEven <==> IsEven(num))
    ensures num < 0 ==> !reportedEven
  {
    var risultato := ParityAsWritten(num);
    reportedEven := risultato == 0;
  }

  /** -4 is even, yet the program reports it odd. */
  method NegativeEvenReportedOdd() returns (reportedEven: bool)
    ensures IsEven(-4) && !reportedEven
  {
    reportedEven := ParityProgramAsWritten(-4);
  }

  /** The documented contract for every input: subtract 2 from the
      magnitude, so the result is 0 for an even number and 1 for an odd
      one, negative or not. */
  method Parity(numero: int) returns (result: int)
    ensures result == 0 || result == 1
    ensures result == 0 <==> IsEven(numero)
  {
    result := if numero < 0 then -numero else numero;
    assert result % 2 == numero % 2;
    while result >= 2
      invariant result >= 0
      invariant result % 2 == numero % 2
      decreases result
    {
      result := result - 2;
    }
  }

  /** `main` on the corrected function. */
  method ParityProgram(num: int) returns (reportedEven: bool)
    ensures reportedEven <==> IsEven(num)
  {
    var risultato := Parity(num);
    reportedEven := risultato == 0;
  }
}
