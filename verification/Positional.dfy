/** Positional parameters become named ones, counted from 1. */
module Positional {
  import opened Numerals

  function Name(index: nat): (s: string)
    ensures IsNumeral(s) && ReadNumeral(s) == index + 1
  {
    NumberTextReads(index + 1);
    DigitText(Format(index + 1, Decimal))
  }

  /** The names are the numerals from 1 up to the number of values; each stands for the value at that place. */
  method ByPosition<T>(values: seq<T>) returns (unified: map<string, T>)
    ensures forall k :: k in unified <==> IsNumeral(k) && 1 <= ReadNumeral(k) <= |values|
    ensures forall k :: k in unified ==> unified[k] == values[ReadNumeral(k) - 1]
  {
    unified := map[];
    for n := 0 to |values|
      invariant forall k :: k in unified <==> IsNumeral(k) && 1 <= ReadNumeral(k) <= n
      invariant forall k :: k in unified ==> unified[k] == values[ReadNumeral(k) - 1]
    {
      forall k | IsNumeral(k) && ReadNumeral(k) == n + 1 ensures k == Name(n) {
        NumeralIsUnique(k, Name(n));
      }
      unified := unified[Name(n) := values[n]];
    }
  }
}
