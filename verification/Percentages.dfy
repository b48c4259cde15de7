/**
 The derived figures: what a percentage of a target is, how numbers are rounded for printing and for the
 set of allowed numbers, and which figure a table shows under which heading.
 */
module Percentages {
  import opened Basics
  import opened Numbers
  import opened Report
  import opened TextLines
  import opened Grounding
  import Thousands

  // ---------------------------------------------------------------- percent of target

  /** `p` is how many hundredths of the target the value is. */
  ghost predicate IsPercent(env: Env, value: Option<Scalar>, target: Option<Scalar>, p: real) {
    exists v, t :: ToNumber(env, value) == Some(v) && ToNumber(env, target) == Some(t) && t != 0.0 && p * t == 100.0 * v
  }

  lemma Hundredths(v: real, t: real, p: real)
    requires t != 0.0
    ensures p * t == 100.0 * v <==> p == v / t * 100.0
  {
    var q := v / t;
    assert q * t == v;
    assert (q * 100.0) * t == 100.0 * v by { Regroup(q, t); }
    if p * t == 100.0 * v {
      Cancel(p, q * 100.0, t);
    }
  }

  lemma Regroup(q: real, t: real)
    ensures (q * 100.0) * t == 100.0 * (q * t)
  {
  }

  lemma Cancel(a: real, b: real, t: real)
    requires t != 0.0 && a * t == b * t
    ensures a == b
  {
    assert (a - b) * t == 0.0;
  }

  /** There is a percentage exactly if both figures are numbers and the target is not zero; it is the
      one number that says how many hundredths of the target the value is. */
  lemma PercentIff(env: Env, value: Option<Scalar>, target: Option<Scalar>, p: real)
    ensures PercentOfTarget(env, value, target) == Some(p) <==> IsPercent(env, value, target, p)
    ensures PercentOfTarget(env, value, target).Some? <==>
            ToNumber(env, value).Some? && ToNumber(env, target).Some? && ToNumber(env, target) != Some(0.0)
  {
    var v, t := ToNumber(env, value), ToNumber(env, target);
    if v.Some? && t.Some? && t.value != 0.0 {
      Hundredths(v.value, t.value, p);
    }
  }

  // ---------------------------------------------------------------- rounding

  /** `m` is the whole number nearest to `y`, the even one if there are two. */
  predicate Nearest(m: int, y: real) {
    && -0.5 <= y - m as real <= 0.5
    && (y - m as real == 0.5 || y - m as real == -0.5 ==> m % 2 == 0)
  }

  lemma NearestOnce(a: int, b: int, y: real)
    requires Nearest(a, y) && Nearest(b, y)
    ensures a == b
  {
    assert -1.0 <= (a - b) as real <= 1.0;
  }

  lemma RoundNearest(y: real)
    ensures Nearest(RoundHalfEven(y), y)
  {
  }

  lemma {:induction false} DigitsValue(n: nat)
    ensures IntValue(DigitsOf(n)) == n
  {
    if n >= 10 {
      var d := DigitsOf(n / 10);
      DigitsValue(n / 10);
      assert (d + [DigitChar(n % 10)])[..|d|] == d;
    } else {
      assert [DigitChar(n)][..0] == [];
    }
  }

  lemma {:induction false} PaddedValue(m: nat, k: nat)
    requires m < Scale(k)
    ensures IntValue(PaddedDigits(m, k)) == m
  {
    if k > 0 {
      var d := PaddedDigits(m / 10, k - 1);
      PaddedValue(m / 10, k - 1);
      assert (d + [DigitChar(m % 10)])[..|d|] == d;
    }
  }

  /** `x` in units of decimal number `k`. */
  function InDecimals(x: real, k: nat): real {
    if k == 0 then x else 10.0 * InDecimals(x, k - 1)
  }

  lemma {:induction false} DecimalsAdd(a: real, b: real, k: nat)
    ensures InDecimals(a + b, k) == InDecimals(a, k) + InDecimals(b, k)
  {
    if k > 0 {
      DecimalsAdd(a, b, k - 1);
    }
  }

  lemma {:induction false} DecimalsShift(a: real, k: nat)
    ensures InDecimals(10.0 * a, k) == 10.0 * InDecimals(a, k)
  {
    if k > 0 {
      DecimalsShift(a, k - 1);
    }
  }

  lemma {:induction false} DecimalsInjective(a: real, b: real, k: nat)
    requires InDecimals(a, k) == InDecimals(b, k)
    ensures a == b
  {
    if k > 0 {
      DecimalsInjective(a, b, k - 1);
    }
  }

  lemma {:induction false} DecimalsWhole(d: int, k: nat)
    ensures InDecimals(d as real, k) == (d * Scale(k)) as real
  {
    if k > 0 {
      DecimalsWhole(d, k - 1);
      TenTimes(d, Scale(k - 1));
    }
  }

  lemma TenTimes(d: int, s: int)
    ensures d * (10 * s) == 10 * (d * s)
  {
  }

  lemma {:induction false} DecimalsScale(x: real, k: nat)
    ensures InDecimals(x, k) == x * Scale(k) as real
    ensures x >= 0.0 ==> InDecimals(x, k) >= 0.0
  {
    if k > 0 {
      DecimalsScale(x, k - 1);
      TenTimesReal(x, Scale(k - 1));
    }
  }

  lemma TenTimesReal(x: real, s: int)
    ensures x * (10 * s) as real == 10.0 * (x * s as real)
  {
  }

  lemma {:induction false} IntValuePrepend(c: char, ds: string)
    ensures IntValue([c] + ds) == DigitValue(c) * Scale(|ds|) + IntValue(ds)
  {
    var x := [c] + ds;
    if ds == [] {
      assert x[..0] == [] && IntValue(x[..0]) == 0;
    } else {
      var n := |ds| - 1;
      assert x[..|x| - 1] == [c] + ds[..n];
      IntValuePrepend(c, ds[..n]);
      TenTimes(DigitValue(c), Scale(n));
    }
  }

  /** A fraction's digits, read as a whole number, are the fraction in its last unit. */
  lemma {:induction false} FractionInUnits(ds: string)
    ensures InDecimals(FractionValue(ds), |ds|) == IntValue(ds) as real
  {
    if ds != [] {
      var rest := ds[1..];
      FractionInUnits(rest);
      assert ds == [ds[0]] + rest;
      IntValuePrepend(ds[0], rest);
      DecimalsWhole(DigitValue(ds[0]), |rest|);
      DecimalsAdd(DigitValue(ds[0]) as real, FractionValue(rest), |rest|);
      DecimalsShift(FractionValue(ds), |rest|);
    }
  }

  lemma PartsToken(w: string, f: string)
    requires w != [] && AllDigits(w) && AllDigits(f)
    ensures IsToken(WithFraction(w, f)) && WholeDigits(WithFraction(w, f)) == w && FractionDigits(WithFraction(w, f)) == f
  {
    DigitsAreWhole(w);
    RemoveCommasNone(w);
    TokenOfParts(w, if f == [] then "" else "." + f);
  }

  lemma PartsValue(w: string, f: string)
    requires w != [] && AllDigits(w) && AllDigits(f)
    ensures IsToken(WithFraction(w, f))
    ensures InDecimals(TokenValue(WithFraction(w, f)), |f|) == (IntValue(w) * Scale(|f|) + IntValue(f)) as real
  {
    TokenIs(w, f);
    TokenInUnits(w, f, TokenValue(WithFraction(w, f)));
  }

  lemma TokenInUnits(w: string, f: string, x: real)
    requires x == IntValue(w) as real + FractionValue(f)
    ensures InDecimals(x, |f|) == (IntValue(w) * Scale(|f|) + IntValue(f)) as real
  {
    FractionInUnits(f);
    SumInUnits(IntValue(w), FractionValue(f), IntValue(f), |f|);
  }

  lemma TokenIs(w: string, f: string)
    requires w != [] && AllDigits(w) && AllDigits(f)
    ensures IsToken(WithFraction(w, f)) && TokenValue(WithFraction(w, f)) == IntValue(w) as real + FractionValue(f)
  {
    PartsToken(w, f);
  }

  lemma SumInUnits(a: int, b: real, m: int, k: nat)
    requires InDecimals(b, k) == m as real
    ensures InDecimals(a as real + b, k) == (a * Scale(k) + m) as real
  {
    DecimalsAdd(a as real, b, k);
    DecimalsWhole(a, k);
  }

  /** The printed form of `n` units of decimal number `k`. */
  function Printout(n: nat, k: nat): (s: string)
  {
    QuotientRemainder(n, Scale(k));
    WithFraction(DigitsOf(n / Scale(k)), PaddedDigits(n % Scale(k), k))
  }

  lemma FixedIs(x: real, k: nat)
    requires x >= 0.0
    ensures Fixed(x, k) == Printout(Units(x, k), k)
  {
    var n := Units(x, k);
    QuotientRemainder(n, Scale(k));
    assert "" + DigitsOf(n / Scale(k)) == DigitsOf(n / Scale(k));
  }

  lemma PrintoutValue(n: nat, k: nat)
    ensures IsToken(Printout(n, k)) && InDecimals(TokenValue(Printout(n, k)), k) == n as real
  {
    var s := Scale(k);
    QuotientRemainder(n, s);
    var q, m := n / s, n % s;
    DigitsValue(q);
    PaddedValue(m, k);
    PartsValue(DigitsOf(q), PaddedDigits(m, k));
  }

  lemma UnitsNearest(x: real, k: nat)
    requires x >= 0.0
    ensures Nearest(Units(x, k), InDecimals(x, k))
  {
    DecimalsScale(x, k);
    assert Scaled(x, k) == InDecimals(x, k);
    UnitsOf(x, k);
    RoundNearest(InDecimals(x, k));
  }

  lemma UnitsOf(x: real, k: nat)
    requires x >= 0.0 && Scaled(x, k) >= 0.0
    ensures Units(x, k) == RoundHalfEven(Scaled(x, k))
  {
    NotBelow(Scaled(x, k));
  }

  lemma NotBelow(y: real)
    requires y >= 0.0
    ensures RoundHalfEven(y) >= 0
  {
  }

  /** The token is `m` in units of decimal number `k`, and no whole number of them is nearer to `x`. */
  predicate InUnits(x: real, k: nat, n: string, m: int) {
    InDecimals(TokenValue(n), k) == m as real && Nearest(m, InDecimals(x, k))
  }

  /** `n` is the normal form of `x` rounded to `k` decimals, for an `x` that is not negative. */
  ghost predicate RoundsUp(x: real, k: nat, n: string) {
    IsToken(n) && Normalise(n) == n && exists m :: InUnits(x, k, n, m)
  }

  /** `n` is `x` rounded to `k` decimals: a normal form, behind a minus sign if `x` is negative. */
  ghost predicate RoundsTo(x: real, k: nat, n: string) {
    if x < 0.0 then n != [] && n[0] == '-' && RoundsUp(-x, k, n[1..]) else RoundsUp(x, k, n)
  }

  lemma FixedRoundsUp(x: real, k: nat)
    requires x >= 0.0
    ensures RoundsUp(x, k, Normalise(Fixed(x, k)))
  {
    FixedIs(x, k);
    PrintoutValue(Units(x, k), k);
    UnitsNearest(x, k);
    NormaliseIdempotent(Printout(Units(x, k), k));
    assert InUnits(x, k, Normalise(Fixed(x, k)), Units(x, k));
  }

  lemma RoundsUpOnce(x: real, k: nat, a: string, b: string)
    requires RoundsUp(x, k, a) && RoundsUp(x, k, b)
    ensures a == b
  {
    var m :| InUnits(x, k, a, m);
    var n :| InUnits(x, k, b, n);
    NearestOnce(m, n, InDecimals(x, k));
    DecimalsInjective(TokenValue(a), TokenValue(b), k);
    NormaliseDecides(a, b);
  }

  /** There is only one. */
  lemma RoundsOnce(x: real, k: nat, a: string, b: string)
    requires RoundsTo(x, k, a) && RoundsTo(x, k, b)
    ensures a == b
  {
    if x < 0.0 {
      RoundsUpOnce(-x, k, a[1..], b[1..]);
      HeadTail(a, 0);
      HeadTail(b, 0);
    } else {
      RoundsUpOnce(x, k, a, b);
    }
  }

  lemma FixedRounds(x: real, k: nat)
    ensures RoundsTo(x, k, Normalise(Fixed(x, k)))
  {
    if x < 0.0 {
      FixedRoundsUp(-x, k);
      NegativeFixed(x, k);
      SignedRounds(x, k, Normalise(Fixed(-x, k)));
    } else {
      FixedRoundsUp(x, k);
    }
  }

  lemma SignedRounds(x: real, k: nat, n: string)
    requires x < 0.0 && RoundsUp(-x, k, n)
    ensures RoundsTo(x, k, "-" + n)
  {
    assert ("-" + n)[1..] == n;
  }

  lemma NegativeFixed(x: real, k: nat)
    requires x < 0.0
    ensures Normalise(Fixed(x, k)) == "-" + Normalise(Fixed(-x, k))
  {
    var p := Printout(Units(x, k), k);
    FixedIs(-x, k);
    FixedBelow(x, k);
    SignedPrintout(Units(x, k), k);
    SignedForms(Fixed(x, k), Fixed(-x, k), p);
  }

  lemma SignedForms(a: string, b: string, p: string)
    requires a == "-" + p && b == p && Normalise("-" + p) == "-" + Normalise(p)
    ensures Normalise(a) == "-" + Normalise(b)
  {
  }

  lemma SignedPrintout(n: nat, k: nat)
    ensures Normalise("-" + Printout(n, k)) == "-" + Normalise(Printout(n, k))
  {
    QuotientRemainder(n, Scale(k));
    NoLeadingZeros(n / Scale(k));
    NegativePrintout(DigitsOf(n / Scale(k)), PaddedDigits(n % Scale(k), k));
  }

  lemma FixedBelow(x: real, k: nat)
    requires x < 0.0
    ensures Fixed(x, k) == "-" + Printout(Units(x, k), k) && Units(x, k) == Units(-x, k)
  {
    var n := Units(x, k);
    QuotientRemainder(n, Scale(k));
    Assoc("-", DigitsOf(n / Scale(k)), if k == 0 then "" else "." + PaddedDigits(n % Scale(k), k));
  }

  predicate Leads(w: string) {
    w != [] && AllDigits(w) && (w[0] == '0' ==> w == "0")
  }

  lemma {:induction false} NoLeadingZeros(n: nat)
    ensures Leads(DigitsOf(n)) && (n > 0 ==> DigitsOf(n) != "0")
  {
    if n >= 10 {
      NoLeadingZeros(n / 10);
    }
  }

  lemma NegativePrintout(w: string, f: string)
    requires Leads(w) && AllDigits(f)
    ensures Normalise("-" + WithFraction(w, f)) == "-" + Normalise(WithFraction(w, f))
  {
    NormaliseParts(w, f);
    CanonicalOf(w, f);
    if f == [] {
      NegativeWhole(w);
    } else {
      NormaliseNegative(w, f);
    }
  }

  lemma CanonicalOf(w: string, f: string)
    requires Leads(w)
    ensures Canonical(w, f) == WithFraction(w, RStrip(f, '0'))
  {
    assert "0"[1..] == [];
  }

  lemma NegativeWhole(w: string)
    requires w != [] && AllDigits(w)
    ensures Normalise("-" + WithFraction(w, "")) == "-" + w
  {
    var s := "-" + w;
    assert WithFraction(w, "") == w;
    RemoveCommasNone(s);
    Thousands.SignedTrim(s);
    assert '.' !in s;
  }

  /** The rounded variants of a number are its roundings to 0, 1 and 2 decimals. */
  lemma VariantsIff(x: real, n: string)
    ensures n in RoundedVariants(x) <==> exists k: nat :: k <= 2 && RoundsTo(x, k, n)
  {
    VariantsAre(x, n);
    RoundsExactly(x, 0, n);
    RoundsExactly(x, 1, n);
    RoundsExactly(x, 2, n);
    SmallDecimals(x, n);
  }

  lemma VariantsAre(x: real, n: string)
    ensures n in RoundedVariants(x) <==> n == Normalise(Fixed(x, 0)) || n == Normalise(Fixed(x, 1)) || n == Normalise(Fixed(x, 2))
  {
  }

  lemma SmallDecimals(x: real, n: string)
    ensures (exists k: nat :: k <= 2 && RoundsTo(x, k, n)) <==> RoundsTo(x, 0, n) || RoundsTo(x, 1, n) || RoundsTo(x, 2, n)
  {
    if k: nat :| k <= 2 && RoundsTo(x, k, n) {
      assert k == 0 || k == 1 || k == 2;
    }
  }

  /** The rounding is what is printed. */
  lemma RoundsExactly(x: real, k: nat, n: string)
    ensures RoundsTo(x, k, n) <==> n == Normalise(Fixed(x, k))
  {
    FixedRounds(x, k);
    if RoundsTo(x, k, n) {
      RoundsOnce(x, k, n, Normalise(Fixed(x, k)));
    }
  }

  // ---------------------------------------------------------------- the percentage cells

  /** The cell prints the percentage with one decimal and a percent sign; without one it is a dash. */
  ghost predicate PercentCell(env: Env, shown: bool, value: Option<Scalar>, target: Option<Scalar>, cell: string) {
    if shown && exists p :: IsPercent(env, value, target, p)
    then exists p, n :: IsPercent(env, value, target, p) && RoundsTo(p, 1, n) && cell == n + "%"
    else cell == DASH
  }

  lemma PercentTextIff(env: Env, value: Option<Scalar>, target: Option<Scalar>, cell: string)
    ensures PercentText(PercentOfTarget(env, value, target)) == cell <==> PercentCell(env, true, value, target, cell)
  {
    var pct := PercentOfTarget(env, value, target);
    forall p ensures pct == Some(p) <==> IsPercent(env, value, target, p) {
      PercentIff(env, value, target, p);
    }
    if pct.Some? {
      var p := pct.value;
      RoundsExactly(p, 1, Normalise(Fixed(p, 1)));
      assert IsPercent(env, value, target, p);
      if PercentCell(env, true, value, target, cell) {
        var q, n :| IsPercent(env, value, target, q) && RoundsTo(q, 1, n) && cell == n + "%";
        RoundsExactly(p, 1, n);
      }
    }
  }

  /** The value is itself a percentage: its type says so in some case, or its unit is a percent sign. */
  lemma IsRateIff(f: Finding)
    ensures IsRate(f) <==>
            || (f.indicatorType.Some? && exists t :: Surrounded(f.indicatorType.value, t) && Lower(t) == "percentage")
            || (f.unit.Some? && Surrounded(f.unit.value, "%"))
  {
    if f.indicatorType.Some? {
      TypeIff(f.indicatorType.value);
    }
    if f.unit.Some? {
      TrimIff(f.unit.value, "%");
    }
    BlankIsNoRate();
  }

  lemma BlankIsNoRate()
    ensures Lower(Trim("")) != "percentage" && Trim("") != "%"
  {
  }

  lemma TypeIff(s: string)
    ensures Lower(Trim(s)) == "percentage" <==> exists t :: Surrounded(s, t) && Lower(t) == "percentage"
  {
    TrimIff(s, Trim(s));
    if t :| Surrounded(s, t) && Lower(t) == "percentage" {
      WordTrimmed(t);
      TrimIff(s, t);
    }
  }

  lemma WordTrimmed(t: string)
    requires Lower(t) == "percentage"
    ensures Trimmed(t)
  {
    LowerAt(t);
    assert "percentage"[0] == 'p' && "percentage"[9] == 'e';
  }

  /** A finding's percentage of the target is shown exactly when its value is calculable and is not a
      percentage itself. */
  lemma PctCellIff(env: Env, f: Finding, cell: string)
    ensures PctCell(env, f) == cell <==>
            PercentCell(env, f.valueStatus != Some("NOT_CALCULABLE") && "MISSING_DENOMINATOR" !in f.qualityFlags && !IsRate(f), f.value, f.target, cell)
  {
    PercentTextIff(env, f.value, f.target, cell);
  }

  /** Its percentage of the project target is shown exactly when it has a cumulative figure and the value
      is not a percentage itself. */
  lemma LifePctCellIff(env: Env, f: Finding, cell: string)
    ensures LifePctCell(env, f) == cell <==>
            PercentCell(env, f.lifeOfProject.Some? && !IsRate(f), LifeScalar(f), f.target, cell)
  {
    PercentTextIff(env, LifeScalar(f), f.target, cell);
  }

  /** Read back as a rational, a printed percentage is off by at most half a unit of its last place. */
  lemma PercentNear(p: real, n: string)
    requires p >= 0.0 && RoundsTo(p, 1, n)
    ensures IsToken(n) && p - 0.05 <= TokenValue(n) <= p + 0.05
  {
    var m :| InUnits(p, 1, n, m);
    assert InDecimals(p, 1) == 10.0 * p && InDecimals(TokenValue(n), 1) == 10.0 * TokenValue(n) by {
      OneDecimal(p);
      OneDecimal(TokenValue(n));
    }
  }

  lemma OneDecimal(x: real)
    ensures InDecimals(x, 1) == 10.0 * x
  {
    assert InDecimals(x, 0) == x;
  }

  /** For 5000 of 8000 the cell is 62.5%. */
  lemma FiveOfEight(env: Env, f: Finding)
    requires ToNumber(env, f.value) == Some(5000.0) && ToNumber(env, f.target) == Some(8000.0)
    requires !NotCalculable(f) && !IsRate(f)
    ensures PctCell(env, f) == "62.5%"
  {
    RoundedHalf();
    IsHalf(env, f.value, f.target);
    ShownAs(env, f.value, f.target, 62.5, "62.5");
    assert "62.5" + "%" == "62.5%";
  }

  lemma IsHalf(env: Env, value: Option<Scalar>, target: Option<Scalar>)
    requires ToNumber(env, value) == Some(5000.0) && ToNumber(env, target) == Some(8000.0)
    ensures IsPercent(env, value, target, 62.5)
  {
    assert 62.5 * 8000.0 == 100.0 * 5000.0;
  }

  lemma ShownAs(env: Env, value: Option<Scalar>, target: Option<Scalar>, p: real, n: string)
    requires IsPercent(env, value, target, p) && RoundsTo(p, 1, n)
    ensures PercentText(PercentOfTarget(env, value, target)) == n + "%"
  {
    PercentIff(env, value, target, p);
    RoundsExactly(p, 1, n);
  }

  lemma RoundedHalf()
    ensures RoundsTo(62.5, 1, "62.5")
  {
    assert WithFraction("62", "5") == "62.5";
    PartsToken("62", "5");
    HalfNormal();
    HalfUnits();
    assert InUnits(62.5, 1, "62.5", 625);
  }

  lemma HalfNormal()
    ensures Normalise("62.5") == "62.5"
  {
    assert WithFraction("62", "5") == "62.5";
    NormaliseParts("62", "5");
  }

  lemma HalfUnits()
    ensures InDecimals(TokenValue("62.5"), 1) == 625.0 && InDecimals(62.5, 1) == 625.0
  {
    assert WithFraction("62", "5") == "62.5";
    PartsValue("62", "5");
    SixHundred();
    OneDecimal(62.5);
  }

  lemma SixHundred()
    ensures IntValue("62") * Scale(1) + IntValue("5") == 625
  {
  }
}
