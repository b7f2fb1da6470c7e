/** Printing and reading natural numbers in octal and decimal. */
module Numerals {
  import opened Wire

  /** A digit string by the values of its digits, most significant first. */
  type Digits = seq<nat>

  /** Only these two bases occur; naming them keeps the arithmetic linear. */
  datatype Base = Octal | Decimal {
    function Size(): nat { if Octal? then 8 else 10 }

    function Times(v: nat): nat { if Octal? then v * 8 else v * 10 }

    function Quotient(n: nat): nat { if Octal? then n / 8 else n / 10 }

    function Remainder(n: nat): nat { if Octal? then n % 8 else n % 10 }
  }

  function Format(n: nat, base: Base): (ds: Digits)
    ensures ds != [] && forall i :: 0 <= i < |ds| ==> ds[i] < base.Size()
    decreases n
  {
    if n < base.Size() then [n] else Format(base.Quotient(n), base) + [base.Remainder(n)]
  }

  function ValueOf(ds: Digits, base: Base): nat {
    if ds == [] then 0 else base.Times(ValueOf(ds[..|ds| - 1], base)) + ds[|ds| - 1]
  }

  /** No leading zero unless the number is zero. */
  predicate Canonical(ds: Digits) {
    ds != [] && (|ds| > 1 ==> ds[0] != 0)
  }

  predicate AllBelow(ds: Digits, base: Base) {
    forall i :: 0 <= i < |ds| ==> ds[i] < base.Size()
  }

  lemma {:induction false} FormatMeaning(n: nat, base: Base)
    ensures ValueOf(Format(n, base), base) == n && Canonical(Format(n, base))
    ensures n > 0 ==> Format(n, base)[0] != 0
    decreases n
  {
    if n < base.Size() {
      assert ValueOf([n], base) == base.Times(ValueOf([n][..0], base)) + n;
    } else {
      FormatMeaning(base.Quotient(n), base);
      assert Format(n, base)[..|Format(n, base)| - 1] == Format(base.Quotient(n), base);
    }
  }

  lemma ValueSnoc(ds: Digits, d: nat, base: Base)
    ensures ValueOf(ds + [d], base) == base.Times(ValueOf(ds, base)) + d
  {
    assert (ds + [d])[..|ds|] == ds;
  }

  lemma FormatStep(v: nat, d: nat, base: Base)
    requires v >= 1 && d < base.Size()
    ensures Format(base.Times(v) + d, base) == Format(v, base) + [d]
  {
  }

  lemma FormatSnoc(ds: Digits, d: nat, base: Base)
    requires ds != [] && ds[0] != 0 && d < base.Size()
    requires Format(ValueOf(ds, base), base) == ds
    ensures Format(ValueOf(ds + [d], base), base) == ds + [d]
  {
    ValueSnoc(ds, d, base);
    ValuePositive(ds, base);
    FormatStep(ValueOf(ds, base), d, base);
  }

  /** A canonical digit string is what formatting its value gives. */
  lemma {:induction false} CanonicalIsFormat(ds: Digits, base: Base)
    requires Canonical(ds) && AllBelow(ds, base)
    ensures Format(ValueOf(ds, base), base) == ds
    decreases |ds|
  {
    var init, d := ds[..|ds| - 1], ds[|ds| - 1];
    if init == [] {
      ValueSnoc([], d, base);
      assert ds == [d] && [] + [d] == [d];
    } else {
      assert init[0] == ds[0];
      CanonicalIsFormat(init, base);
      FormatSnoc(init, d, base);
      assert ds == init + [d];
    }
  }

  lemma {:induction false} ValuePositive(ds: Digits, base: Base)
    requires ds != [] && ds[0] != 0
    ensures ValueOf(ds, base) >= 1
    decreases |ds|
  {
    if |ds| == 1 {
    } else {
      ValuePositive(ds[..|ds| - 1], base);
    }
  }

  // ----- decimal texts -----

  function DigitText(ds: Digits): string
    requires AllBelow(ds, Decimal)
  {
    seq(|ds|, i requires 0 <= i < |ds| => ('0' as int + ds[i]) as char)
  }

  /** A decimal numeral without a leading zero. */
  predicate IsNumeral(s: string) {
    s != "" && (forall i :: 0 <= i < |s| ==> '0' <= s[i] <= '9') && (s[0] == '0' ==> |s| == 1)
  }

  function ReadNumeral(s: string): int {
    if s == "" then 0 else ReadNumeral(s[..|s| - 1]) * 10 + (s[|s| - 1] as int - '0' as int)
  }

  lemma {:induction false} DigitsRead(ds: Digits)
    requires AllBelow(ds, Decimal)
    ensures ReadNumeral(DigitText(ds)) == ValueOf(ds, Decimal)
    decreases |ds|
  {
    if ds == [] {
    } else {
      var init := ds[..|ds| - 1];
      DigitsRead(init);
      assert DigitText(ds)[..|ds| - 1] == DigitText(init);
    }
  }

  lemma NumberTextReads(n: nat)
    ensures var s := DigitText(Format(n, Decimal)); IsNumeral(s) && ReadNumeral(s) == n
  {
    FormatMeaning(n, Decimal);
    DigitsRead(Format(n, Decimal));
  }

  /** A number has one numeral. */
  lemma {:induction false} NumeralIsUnique(s: string, t: string)
    requires IsNumeral(s) && IsNumeral(t) && ReadNumeral(s) == ReadNumeral(t)
    ensures s == t
    decreases |s|
  {
    var s0, t0 := s[..|s| - 1], t[..|t| - 1];
    assert s == s0 + [s[|s| - 1]] && t == t0 + [t[|t| - 1]];
    if |s| == 1 || |t| == 1 {
      ReadsPositive(s);
      ReadsPositive(t);
    } else {
      NumeralIsUnique(s0, t0);
    }
  }

  lemma {:induction false} ReadsPositive(s: string)
    requires IsNumeral(s)
    ensures ReadNumeral(s) >= 0 && (|s| > 1 ==> ReadNumeral(s) >= 10)
    decreases |s|
  {
    var init := s[..|s| - 1];
    if |s| == 1 {
      assert ReadNumeral(init) == 0;
    } else {
      ReadsPositive(init);
      assert ReadNumeral(init[..|init| - 1]) >= 0 by {
        if |init| > 1 { ReadsPositive(init[..|init| - 1]); }
      }
    }
  }

  /** Reads digits in a base, failing on a foreign digit or as soon as the value exceeds `max`. */
  method ParseUint(ds: Digits, base: Base, max: nat) returns (r: Option<nat>)
    ensures r == if AllBelow(ds, base) && ValueOf(ds, base) <= max then Some(ValueOf(ds, base)) else None
  {
    var n := 0;
    assert ds[..0] == [];
    for i := 0 to |ds|
      invariant AllBelow(ds[..i], base) && n == ValueOf(ds[..i], base) <= max
    {
      assert ds[..i + 1][..i] == ds[..i];
      if ds[i] >= base.Size() {
        return None;
      }
      var next := base.Times(n) + ds[i];
      if next > max {
        ValueGrows(ds, i + 1, base);
        return None;
      }
      n := next;
    }
    assert ds[..|ds|] == ds;
    r := Some(n);
  }

  lemma {:induction false} ValueGrows(ds: Digits, i: nat, base: Base)
    requires i <= |ds|
    ensures ValueOf(ds[..i], base) <= ValueOf(ds, base)
    decreases |ds|
  {
    if i == |ds| {
      assert ds[..i] == ds;
    } else {
      var init := ds[..|ds| - 1];
      ValueGrows(init, i, base);
      assert init[..i] == ds[..i];
    }
  }
}
