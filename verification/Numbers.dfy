/**
 Numbers in text: the canonical form of a numeric token (`normalise_number`), the exact rational it
 denotes, and the token scanner (`_NUMBER_RE` with `finditer`).

 Only ASCII digits are digits here.  Which characters beyond ASCII are word characters is a
 parameter, `word`, that every statement quantifies over.
 */
module Numbers {
  import opened Basics

  // ---------------------------------------------------------------- canonical form

  function RemoveCommas(s: string): string {
    if s == [] then [] else (if s[0] == ',' then [] else [s[0]]) + RemoveCommas(s[1..])
  }

  /** `s.lstrip(c)` */
  function LStrip(s: string, c: char): (r: string)
    ensures r != [] ==> r[0] != c
  {
    if s != [] && s[0] == c then LStrip(s[1..], c) else s
  }

  /** `s.rstrip(c)` */
  function RStrip(s: string, c: char): (r: string)
    ensures r != [] ==> r[|r| - 1] != c
  {
    if s != [] && s[|s| - 1] == c then RStrip(s[..|s| - 1], c) else s
  }

  /** `s.strip()` */
  function Trim(s: string): string {
    if s != [] && IsSpace(s[0]) then Trim(s[1..])
    else if s != [] && IsSpace(s[|s| - 1]) then Trim(s[..|s| - 1])
    else s
  }

  /** `normalise_number` */
  function Normalise(token: string): string {
    var s := Trim(RemoveCommas(token));
    var s1 := if '.' in s then RStrip(RStrip(s, '0'), '.') else s;
    var s2 := if LStrip(s1, '0') == [] then "0" else LStrip(s1, '0');
    if s2[0] == '.' then "0" + s2 else s2
  }

  // ---------------------------------------------------------------- tokens and their values

  /** Position of the decimal point, or the length. */
  function PointAt(t: string): (n: nat)
    ensures n <= |t|
  {
    if t == [] || t[0] == '.' then 0 else 1 + PointAt(t[1..])
  }

  /** `(,\d{3})*` */
  predicate Groups(s: string) {
    s == [] || (|s| >= 4 && s[0] == ',' && AllDigits(s[1..4]) && Groups(s[4..]))
  }

  /** `\d+` or `\d{1,3}(,\d{3})+` */
  predicate IsWhole(w: string) {
    var n := DigitRun(w);
    n > 0 && (n == |w| || (n <= 3 && Groups(w[n..])))
  }

  /** A match of the number pattern: a whole part, then perhaps a point and more digits. */
  predicate IsToken(t: string) {
    var p := PointAt(t);
    IsWhole(t[..p]) && (p < |t| ==> p + 1 < |t| && AllDigits(t[p + 1..]))
  }

  function WholeDigits(t: string): string {
    RemoveCommas(t[..PointAt(t)])
  }

  function FractionDigits(t: string): string {
    if PointAt(t) < |t| then t[PointAt(t) + 1..] else []
  }

  function DigitValue(c: char): int {
    c as int - '0' as int
  }

  function IntValue(ds: string): int {
    if ds == [] then 0 else 10 * IntValue(ds[..|ds| - 1]) + DigitValue(ds[|ds| - 1])
  }

  function FractionValue(ds: string): real {
    if ds == [] then 0.0 else (DigitValue(ds[0]) as real + FractionValue(ds[1..])) / 10.0
  }

  /** The rational number a token denotes. */
  function TokenValue(t: string): real {
    IntValue(WholeDigits(t)) as real + FractionValue(FractionDigits(t))
  }

  // ---------------------------------------------------------------- the canonical form, by parts

  /** Digits without leading zeros, and fraction digits without trailing zeros. */
  function Canonical(whole: string, fraction: string): string {
    var w, f := LStrip(whole, '0'), RStrip(fraction, '0');
    WithFraction(if w == [] then "0" else w, f)
  }

  lemma {:induction false} RemoveCommasJoin(a: string, b: string)
    ensures RemoveCommas(a + b) == RemoveCommas(a) + RemoveCommas(b)
  {
    if a == [] {
      assert a + b == b;
    } else {
      assert (a + b)[1..] == a[1..] + b;
      RemoveCommasJoin(a[1..], b);
    }
  }

  lemma {:induction false} RemoveCommasNone(s: string)
    requires ',' !in s
    ensures RemoveCommas(s) == s
  {
    if s != [] {
      RemoveCommasNone(s[1..]);
      HeadTail(s, 0);
    }
  }

  lemma {:induction false} GroupsDigits(s: string)
    requires Groups(s)
    ensures AllDigits(RemoveCommas(s)) && (s != [] ==> RemoveCommas(s) != [])
    ensures '.' !in s
  {
    if s != [] {
      GroupsDigits(s[4..]);
      OneGroup(s[1..4], s[4..]);
      assert s == "," + s[1..4] + s[4..];
    }
  }

  lemma OneGroup(d: string, rest: string)
    requires AllDigits(d) && d != [] && '.' !in rest && AllDigits(RemoveCommas(rest))
    ensures var s := "," + d + rest; '.' !in s && RemoveCommas(s) != [] && AllDigits(RemoveCommas(s))
  {
    RemoveCommasJoin(",", d);
    RemoveCommasJoin("," + d, rest);
    RemoveCommasNone(d);
    assert ","[1..] == [];
  }

  lemma DigitsAreWhole(w: string)
    requires w != [] && AllDigits(w)
    ensures IsWhole(w) && DigitRun(w) == |w|
  {
  }

  lemma WholeIsDigits(w: string)
    requires IsWhole(w)
    ensures AllDigits(RemoveCommas(w)) && RemoveCommas(w) != [] && '.' !in w
  {
    var k := DigitRun(w);
    DigitRunDigits(w);
    if k == |w| {
      assert w[..k] == w;
      RemoveCommasNone(w);
    } else {
      SplitAt(w, k);
      RemoveCommasJoin(w[..k], w[k..]);
      RemoveCommasNone(w[..k]);
      GroupsDigits(w[k..]);
    }
  }

  lemma {:induction false} PointAtJoin(w: string, rest: string)
    requires '.' !in w && (rest == [] || rest[0] == '.')
    ensures PointAt(w + rest) == |w|
  {
    if w == [] {
      assert w + rest == rest;
    } else {
      assert (w + rest)[1..] == w[1..] + rest;
      PointAtJoin(w[1..], rest);
    }
  }

  lemma {:induction false} PointAtIs(t: string)
    ensures '.' !in t[..PointAt(t)] && (PointAt(t) < |t| ==> t[PointAt(t)] == '.')
  {
    if t != [] && t[0] != '.' {
      PointAtIs(t[1..]);
      assert t[..PointAt(t)] == [t[0]] + t[1..][..PointAt(t[1..])];
    }
  }

  /** A token without its commas is its digits around its point. */
  lemma TokenParts(t: string)
    requires IsToken(t)
    ensures var w, f := WholeDigits(t), FractionDigits(t);
            && w != [] && AllDigits(w) && AllDigits(f)
            && RemoveCommas(t) == WithFraction(w, f)
  {
    var p := PointAt(t);
    PointAtIs(t);
    WholeIsDigits(t[..p]);
    SplitAt(t, p);
    RemoveCommasJoin(t[..p], t[p..]);
    if p < |t| {
      HeadTail(t, p);
      RemoveCommasNone(t[p..]);
    }
  }

  /** A fraction, or nothing. */
  predicate IsFraction(f: string) {
    f == [] || (|f| > 1 && f[0] == '.' && AllDigits(f[1..]))
  }

  /** The token that a number with its fraction is, by parts. */
  lemma TokenOfParts(w: string, f: string)
    requires w != [] && IsWhole(w) && IsFraction(f)
    ensures IsToken(w + f) && WholeDigits(w + f) == RemoveCommas(w) && FractionDigits(w + f) == (if f == [] then [] else f[1..])
  {
    WholeIsDigits(w);
    PointAtJoin(w, f);
    TakeDrop(w, f);
    if f != [] {
      DropDrop(w + f, |w|, 1);
    }
  }

  lemma TrimDigits(s: string)
    requires s != [] && (IsDigit(s[0]) || s[0] == '.') && (IsDigit(s[|s| - 1]) || s[|s| - 1] == '.')
    ensures Trim(s) == s
  {
  }

  lemma {:induction false} RStripJoin(a: string, f: string, c: char)
    requires a != [] && a[|a| - 1] != c
    ensures RStrip(a + f, c) == a + RStrip(f, c)
  {
    if f != [] && f[|f| - 1] == c {
      assert (a + f)[..|a + f| - 1] == a + f[..|f| - 1];
      RStripJoin(a, f[..|f| - 1], c);
    } else if f == [] {
      assert a + f == a;
    }
  }

  lemma {:induction false} LStripJoin(w: string, rest: string, c: char)
    requires rest == [] || rest[0] != c
    ensures LStrip(w + rest, c) == LStrip(w, c) + rest
  {
    if w == [] {
      assert w + rest == rest;
    } else if w[0] == c {
      assert (w + rest)[1..] == w[1..] + rest;
      LStripJoin(w[1..], rest, c);
    }
  }

  lemma {:induction false} StripKeepsDigits(s: string)
    requires AllDigits(s)
    ensures AllDigits(LStrip(s, '0')) && AllDigits(RStrip(s, '0'))
  {
    if s != [] {
      if s[0] == '0' { StripKeepsDigits(s[1..]); }
      if s[|s| - 1] == '0' { StripKeepsDigits(s[..|s| - 1]); }
    }
  }

  function WithFraction(w: string, f: string): string {
    w + (if f == [] then "" else "." + f)
  }

  /** Stripping the fraction's trailing zeros, and then the point if nothing is left of it. */
  lemma StripFraction(w: string, f: string)
    requires w != [] && AllDigits(w) && AllDigits(f) && f != []
    ensures RStrip(RStrip(WithFraction(w, f), '0'), '.') == WithFraction(w, RStrip(f, '0'))
  {
    var g := RStrip(f, '0');
    StripKeepsDigits(f);
    Assoc(w, ".", f);
    RStripJoin(w + ".", f, '0');
    if g == [] {
      assert (w + ".") + g == w + ".";
      StripPoint(w);
    } else {
      Assoc(w, ".", g);
    }
  }

  lemma StripPoint(w: string)
    requires w != [] && AllDigits(w)
    ensures RStrip(w + ".", '.') == w
  {
    RStripJoin(w, ".", '.');
    assert "."[..0] == [];
    assert w + [] == w;
  }

  /** What the string surgery of `normalise_number` amounts to on digits around a point. */
  lemma NormaliseParts(w: string, f: string)
    requires w != [] && AllDigits(w) && AllDigits(f)
    ensures Normalise(WithFraction(w, f)) == Canonical(w, f)
  {
    var s := WithFraction(w, f);
    RemoveCommasNone(s);
    TrimDigits(s);
    if f != [] {
      assert s[|w|] == '.';
      StripFraction(w, f);
    }
    LeadingZeros(w, RStrip(f, '0'));
  }

  lemma LeadingZeros(w: string, g: string)
    requires w != [] && AllDigits(w)
    ensures var s1 := WithFraction(w, g);
            var s2 := if LStrip(s1, '0') == [] then "0" else LStrip(s1, '0');
            && (g == [] ==> s1 == w)
            && (if s2[0] == '.' then "0" + s2 else s2) == WithFraction(if LStrip(w, '0') == [] then "0" else LStrip(w, '0'), g)
  {
    StripKeepsDigits(w);
    LStripJoin(w, if g == [] then "" else "." + g, '0');
    if LStrip(w, '0') == [] && g != [] {
      assert "" + ("." + g) == "." + g;
    }
  }

  lemma NormaliseToken(t: string)
    requires IsToken(t)
    ensures Normalise(t) == Canonical(WholeDigits(t), FractionDigits(t))
  {
    TokenParts(t);
    var w, f := WholeDigits(t), FractionDigits(t);
    NormaliseParts(w, f);
    RemoveCommasNone(WithFraction(w, f));
  }

  // ---------------------------------------------------------------- same form, same number

  lemma {:induction false} IntValueNat(ds: string)
    requires AllDigits(ds)
    ensures IntValue(ds) >= 0
    ensures ds != [] && ds[0] != '0' ==> IntValue(ds) > 0
  {
    if ds != [] {
      IntValueNat(ds[..|ds| - 1]);
    }
  }

  lemma {:induction false} FractionBelowOne(ds: string)
    requires AllDigits(ds)
    ensures 0.0 <= FractionValue(ds) < 1.0
    ensures ds != [] && ds[|ds| - 1] != '0' ==> FractionValue(ds) > 0.0
  {
    if ds != [] {
      FractionBelowOne(ds[1..]);
    }
  }

  lemma {:induction false} IntValueCons(c: char, ds: string)
    requires c == '0'
    ensures IntValue([c] + ds) == IntValue(ds)
  {
    if ds == [] {
      assert ([c] + ds)[..0] == [];
    } else {
      IntValueCons(c, ds[..|ds| - 1]);
      assert ([c] + ds)[..|ds|] == [c] + ds[..|ds| - 1];
    }
  }

  lemma {:induction false} IntValueStrip(ds: string)
    ensures IntValue(LStrip(ds, '0')) == IntValue(ds)
  {
    if ds != [] && ds[0] == '0' {
      IntValueStrip(ds[1..]);
      IntValueCons('0', ds[1..]);
      HeadTail(ds, 0);
    }
  }

  lemma {:induction false} FractionValueSnoc(ds: string, c: char)
    requires c == '0'
    ensures FractionValue(ds + [c]) == FractionValue(ds)
  {
    if ds == [] {
      assert (ds + [c])[1..] == [];
    } else {
      FractionValueSnoc(ds[1..], c);
      assert (ds + [c])[1..] == ds[1..] + [c];
    }
  }

  lemma {:induction false} FractionValueStrip(ds: string)
    ensures FractionValue(RStrip(ds, '0')) == FractionValue(ds)
  {
    if ds != [] && ds[|ds| - 1] == '0' {
      FractionValueStrip(ds[..|ds| - 1]);
      FractionValueSnoc(ds[..|ds| - 1], '0');
      assert ds == ds[..|ds| - 1] + ['0'];
    }
  }

  /** Digit strings without leading zeros are determined by their value. */
  lemma {:induction false} IntValueInjective(a: string, b: string)
    requires AllDigits(a) && AllDigits(b) && (a != [] ==> a[0] != '0') && (b != [] ==> b[0] != '0')
    requires IntValue(a) == IntValue(b)
    ensures a == b
    decreases |a|
  {
    IntValueNat(a);
    IntValueNat(b);
    if a != [] && b != [] {
      var a', b' := a[..|a| - 1], b[..|b| - 1];
      IntValueNat(a');
      IntValueNat(b');
      assert DigitValue(a[|a| - 1]) == DigitValue(b[|b| - 1]);
      IntValueInjective(a', b');
      assert a == a' + [a[|a| - 1]] && b == b' + [b[|b| - 1]];
    }
  }

  /** Fraction digits without trailing zeros are determined by their value. */
  lemma {:induction false} FractionValueInjective(a: string, b: string)
    requires AllDigits(a) && AllDigits(b)
    requires (a != [] ==> a[|a| - 1] != '0') && (b != [] ==> b[|b| - 1] != '0')
    requires FractionValue(a) == FractionValue(b)
    ensures a == b
    decreases |a|
  {
    FractionBelowOne(a);
    FractionBelowOne(b);
    if a != [] && b != [] {
      FractionBelowOne(a[1..]);
      FractionBelowOne(b[1..]);
      var da, db := DigitValue(a[0]), DigitValue(b[0]);
      assert da as real + FractionValue(a[1..]) == db as real + FractionValue(b[1..]);
      assert da == db;
      FractionValueInjective(a[1..], b[1..]);
      HeadTail(a, 0);
      HeadTail(b, 0);
    }
  }

  /** The parts of a canonical form can be read off it. */
  lemma CanonicalInjective(w1: string, f1: string, w2: string, f2: string)
    requires AllDigits(w1) && AllDigits(f1) && AllDigits(w2) && AllDigits(f2)
    requires Canonical(w1, f1) == Canonical(w2, f2)
    ensures LStrip(w1, '0') == LStrip(w2, '0') && RStrip(f1, '0') == RStrip(f2, '0')
  {
    CanonicalPoint(w1, f1);
    CanonicalPoint(w2, f2);
  }

  lemma CanonicalPoint(w: string, f: string)
    requires AllDigits(w) && AllDigits(f)
    ensures var c, s, g := Canonical(w, f), LStrip(w, '0'), RStrip(f, '0');
            var head := if s == [] then "0" else s;
            && PointAt(c) == |head| && c[..PointAt(c)] == head
            && (PointAt(c) < |c| <==> g != []) && (g != [] ==> c[PointAt(c) + 1..] == g)
            && (s == [] <==> head == "0")
  {
    StripKeepsDigits(w);
    var s, g := LStrip(w, '0'), RStrip(f, '0');
    var head := if s == [] then "0" else s;
    PointAtJoin(head, if g == [] then "" else "." + g);
  }

  lemma TokenValueCanonical(t: string)
    requires IsToken(t)
    ensures TokenValue(t) == IntValue(LStrip(WholeDigits(t), '0')) as real + FractionValue(RStrip(FractionDigits(t), '0'))
  {
    IntValueStrip(WholeDigits(t));
    FractionValueStrip(FractionDigits(t));
  }

  /** Two tokens normalise to the same string exactly when they denote the same rational. */
  lemma NormaliseDecides(a: string, b: string)
    requires IsToken(a) && IsToken(b)
    ensures Normalise(a) == Normalise(b) <==> TokenValue(a) == TokenValue(b)
  {
    NormaliseToken(a);
    NormaliseToken(b);
    TokenParts(a);
    TokenParts(b);
    TokenValueCanonical(a);
    TokenValueCanonical(b);
    var wa, wb := LStrip(WholeDigits(a), '0'), LStrip(WholeDigits(b), '0');
    var fa, fb := RStrip(FractionDigits(a), '0'), RStrip(FractionDigits(b), '0');
    StripKeepsDigits(WholeDigits(a));
    StripKeepsDigits(WholeDigits(b));
    StripKeepsDigits(FractionDigits(a));
    StripKeepsDigits(FractionDigits(b));
    if Normalise(a) == Normalise(b) {
      CanonicalInjective(WholeDigits(a), FractionDigits(a), WholeDigits(b), FractionDigits(b));
    }
    if TokenValue(a) == TokenValue(b) {
      FractionBelowOne(fa);
      FractionBelowOne(fb);
      assert IntValue(wa) == IntValue(wb);
      IntValueInjective(wa, wb);
      FractionValueInjective(fa, fb);
    }
  }

  lemma {:induction false} StripTwice(w: string, f: string)
    ensures LStrip(LStrip(w, '0'), '0') == LStrip(w, '0') && RStrip(RStrip(f, '0'), '0') == RStrip(f, '0')
  {
  }

  /** A normal form is itself a token, denotes the same number, and is its own normal form. */
  lemma NormaliseIdempotent(t: string)
    requires IsToken(t)
    ensures IsToken(Normalise(t)) && Normalise(Normalise(t)) == Normalise(t)
    ensures TokenValue(Normalise(t)) == TokenValue(t)
  {
    NormaliseToken(t);
    TokenParts(t);
    var w, f := WholeDigits(t), FractionDigits(t);
    CanonicalIsToken(w, f);
    NormaliseDecides(t, Normalise(t));
  }

  lemma CanonicalIsToken(w: string, f: string)
    requires AllDigits(w) && AllDigits(f)
    ensures IsToken(Canonical(w, f)) && Normalise(Canonical(w, f)) == Canonical(w, f)
  {
    StripKeepsDigits(w);
    StripKeepsDigits(f);
    CanonicalPoint(w, f);
    var s, g := LStrip(w, '0'), RStrip(f, '0');
    var head := if s == [] then "0" else s;
    NormaliseParts(head, g);
    DigitsAreWhole(head);
    StripTwice(w, f);
    assert LStrip(head, '0') == s;
  }

  /** No commas, no leading zero but that of a number below one, no fraction that ends with a zero. */
  predicate NormalShape(n: string) {
    var p := PointAt(n);
    && p > 0 && AllDigits(n[..p]) && (n[0] == '0' ==> p == 1)
    && (p < |n| ==> p + 1 < |n| && AllDigits(n[p + 1..]) && n[|n| - 1] != '0')
  }

  /** What a normal form looks like. */
  lemma NormaliseShape(t: string)
    requires IsToken(t)
    ensures NormalShape(Normalise(t))
  {
    NormaliseToken(t);
    TokenParts(t);
    var w, f := WholeDigits(t), FractionDigits(t);
    StripKeepsDigits(w);
    StripKeepsDigits(f);
    var s := LStrip(w, '0');
    PartsShape(if s == [] then "0" else s, RStrip(f, '0'));
  }

  lemma PartsShape(w: string, f: string)
    requires w != [] && AllDigits(w) && (w[0] == '0' ==> |w| == 1) && AllDigits(f) && (f != [] ==> f[|f| - 1] != '0')
    ensures NormalShape(WithFraction(w, f))
  {
    var tail := if f == [] then "" else "." + f;
    PointAtJoin(w, tail);
    TakeDrop(w, tail);
    if f != [] {
      AtJoin(w, '.', f);
    }
  }
}
