/** The file mode of a bind point: decimal digits read again as octal ones. */
module FileMode {
  import opened Numerals

  const MAX_MODE := 511

  /** Whether a decimal mode can be read as octal. */
  predicate Accepted(n: nat) {
    AllBelow(Format(n, Decimal), Octal) && ValueOf(Format(n, Decimal), Octal) <= MAX_MODE
  }

  function Converted(n: nat): nat {
    ValueOf(Format(n, Decimal), Octal)
  }

  /** A bind point, of which only the mode matters here. */
  class Bind {
    var mode: nat

    constructor (mode: nat)
      ensures this.mode == mode
    {
      this.mode := mode;
    }

    /** Converts in place, or fails and leaves the mode alone. */
    method FixMode() returns (ok: bool)
      modifies this
      ensures ok == Accepted(old(mode))
      ensures mode == if ok then Converted(old(mode)) else old(mode)
    {
      var parsed := ParseUint(Format(mode, Decimal), Octal, MAX_MODE);
      match parsed
      case None => ok := false;
      case Some(m) =>
        mode := m;
        ok := true;
    }
  }

  /** On success, printing the result in octal gives back the decimal digits that were written. */
  lemma ConvertedPrintsTheSame(n: nat)
    requires Accepted(n)
    ensures Format(Converted(n), Octal) == Format(n, Decimal)
  {
    FormatMeaning(n, Decimal);
    CanonicalIsFormat(Format(n, Decimal), Octal);
  }

  /** So a mode is accepted exactly if it is written like some mode up to 0777. */
  lemma AcceptedIffOctal(n: nat)
    ensures Accepted(n) <==> exists m: nat :: m <= MAX_MODE && Format(m, Octal) == Format(n, Decimal)
  {
    if Accepted(n) {
      ConvertedPrintsTheSame(n);
      assert Converted(n) <= MAX_MODE;
    }
    forall m: nat | m <= MAX_MODE && Format(m, Octal) == Format(n, Decimal) ensures Accepted(n) {
      FormatMeaning(m, Octal);
    }
  }

  // ----- the conversion in plain arithmetic -----

  /** No decimal digit of the number is 8 or 9. */
  predicate HasOctalDigits(n: nat) {
    n % 10 < 8 && (n >= 10 ==> HasOctalDigits(n / 10))
  }

  /** The decimal digits of the number read with weights of 8. */
  function ReadAsOctal(n: nat): nat {
    if n < 10 then n else ReadAsOctal(n / 10) * 8 + n % 10
  }

  lemma {:induction false} DigitByDigit(n: nat)
    ensures AllBelow(Format(n, Decimal), Octal) <==> HasOctalDigits(n)
    ensures Converted(n) == ReadAsOctal(n)
    decreases n
  {
    var ds := Format(n, Decimal);
    if n < 10 {
      assert ds == [n] && ds[0] == n;
      assert ValueOf([n], Octal) == ValueOf([n][..0], Octal) * 8 + n;
    } else {
      var init := Format(n / 10, Decimal);
      assert ds == init + [n % 10] && ds[..|ds| - 1] == init && ds[|ds| - 1] == n % 10;
      DigitByDigit(n / 10);
      assert forall i :: 0 <= i < |init| ==> ds[i] == init[i];
    }
  }

  /** A mode is accepted exactly if its digits are octal ones and read as at most 511, and then becomes that number. */
  lemma AcceptedModes(n: nat)
    ensures Accepted(n) <==> HasOctalDigits(n) && ReadAsOctal(n) <= 511
    ensures Converted(n) == ReadAsOctal(n)
  {
    DigitByDigit(n);
  }

  // ----- the conversion keeps the order -----

  lemma {:induction false} ReadIsIncreasing(m: nat, n: nat)
    requires m < n && HasOctalDigits(m) && HasOctalDigits(n)
    ensures ReadAsOctal(m) < ReadAsOctal(n)
    decreases n
  {
    if n < 10 {
    } else if m < 10 {
      ReadIsPositive(n / 10);
    } else if m / 10 < n / 10 {
      ReadIsIncreasing(m / 10, n / 10);
    }
  }

  lemma {:induction false} ReadIsPositive(n: nat)
    requires n > 0
    ensures ReadAsOctal(n) > 0
    decreases n
  {
    if n < 10 {
    } else {
      ReadIsPositive(n / 10);
    }
  }

  lemma ConversionIsIncreasing(m: nat, n: nat)
    requires m < n && AllBelow(Format(m, Decimal), Octal) && AllBelow(Format(n, Decimal), Octal)
    ensures Converted(m) < Converted(n)
  {
    DigitByDigit(m);
    DigitByDigit(n);
    ReadIsIncreasing(m, n);
  }
}
