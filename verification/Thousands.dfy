/**
 Amounts written with thousands separators (`_with_thousands`), and reading them back.
 */
module Thousands {
  import opened Basics
  import opened Numbers
  import opened NumberScan

  /** `-?\d{4,}(?:\.\d+)?`, the spellings that get separators. */
  predicate IsAmount(text: string) {
    var u := Unsigned(text);
    var n := DigitRun(u);
    n >= 4 && (n == |u| || (u[n] == '.' && n + 1 < |u| && AllDigits(u[n + 1..])))
  }

  function Unsigned(text: string): string {
    if text != [] && text[0] == '-' then text[1..] else text
  }

  /** The digits of an integer in groups of three, from the right: `f"{n:,}"`. */
  function GroupThousands(digits: string): string {
    if |digits| <= 3 then digits
    else GroupThousands(digits[..|digits| - 3]) + "," + digits[|digits| - 3..]
  }

  /** `f"{int(whole):,}"` for a whole part with an optional minus sign. */
  function FormatWhole(negative: bool, digits: string): string {
    var d := LStrip(digits, '0');
    if d == [] then "0" else (if negative then "-" else "") + GroupThousands(d)
  }

  /** `_with_thousands`: other texts come back unchanged. */
  function WithThousands(text: string): string {
    if !IsAmount(text) then text
    else
      var u := Unsigned(text);
      var n := DigitRun(u);
      FormatWhole(|u| < |text|, u[..n]) + u[n..]
  }

  // ---------------------------------------------------------------- the shape of a grouped number

  lemma {:induction false} GroupsSnoc(s: string, d: string)
    requires Groups(s) && |d| == 3 && AllDigits(d)
    ensures Groups(s + ("," + d))
  {
    if s == [] {
      assert s + ("," + d) == "," + d;
      assert ("," + d)[1..4] == d && ("," + d)[4..] == [];
    } else {
      var x := s + ("," + d);
      assert x[1..4] == s[1..4] && x[4..] == s[4..] + ("," + d);
      GroupsSnoc(s[4..], d);
    }
  }

  /** One to three digits, then groups of three; without its commas it is the digits again. */
  lemma {:induction false} GroupedShape(digits: string) returns (head: string, groups: string)
    requires digits != [] && AllDigits(digits)
    ensures GroupThousands(digits) == head + groups && 1 <= |head| <= 3 && AllDigits(head) && Groups(groups)
    ensures RemoveCommas(GroupThousands(digits)) == digits
  {
    if |digits| <= 3 {
      head, groups := digits, "";
      assert head + groups == digits;
      RemoveCommasNone(digits);
    } else {
      var a, d := digits[..|digits| - 3], digits[|digits| - 3..];
      var g: string;
      head, g := GroupedShape(a);
      groups := g + ("," + d);
      GroupsSnoc(g, d);
      AppendGroup(GroupThousands(a), head, g, d);
      SplitAt(digits, |digits| - 3);
    }
  }

  lemma AppendGroup(x: string, head: string, g: string, d: string)
    requires x == head + g && AllDigits(d)
    ensures x + "," + d == head + (g + ("," + d)) && RemoveCommas(x + "," + d) == RemoveCommas(x) + d
  {
    Assoc(x, ",", d);
    Assoc(head, g, "," + d);
    RemoveCommasJoin(x, "," + d);
    CommaGroup(d);
  }

  lemma CommaGroup(d: string)
    requires AllDigits(d)
    ensures RemoveCommas("," + d) == d
  {
    RemoveCommasJoin(",", d);
    RemoveCommasNone(d);
    assert ","[1..] == [];
  }

  lemma {:induction false} GroupRunExact(groups: string, rest: string)
    requires Groups(groups) && (rest != [] ==> rest[0] != ',')
    ensures GroupRun(groups + rest) == |groups|
  {
    if groups == [] {
      assert groups + rest == rest;
    } else {
      assert (groups + rest)[1..4] == groups[1..4] && (groups + rest)[4..] == groups[4..] + rest;
      GroupRunExact(groups[4..], rest);
    }
  }

  /** A number of this shape is scanned whole. */
  lemma MatchWhole(word: char -> bool, head: string, groups: string, f: string)
    requires WordClass(word) && head != [] && AllDigits(head) && Groups(groups) && (groups != [] ==> |head| <= 3)
    requires IsFraction(f)
    ensures Match(word, head + (groups + f)) == Some(|head + (groups + f)|)
    ensures Scan(word, None, head + (groups + f)) == [head + (groups + f)]
  {
    var s, r := head + (groups + f), groups + f;
    WholeMatched(word, head, groups, f, r);
    WholeScan(word, s);
  }

  lemma WholeMatched(word: char -> bool, head: string, groups: string, f: string, r: string)
    requires WordClass(word) && head != [] && AllDigits(head) && Groups(groups) && (groups != [] ==> |head| <= 3)
    requires IsFraction(f) && r == groups + f
    ensures Match(word, head + r) == Some(|head + r|)
  {
    GroupsStart(groups, f);
    DigitRunExact(head, r);
    TakeDrop(head, r);
    AfterWhole(word, |head|, groups, f);
  }

  lemma AfterWhole(word: char -> bool, n: nat, groups: string, f: string)
    requires Groups(groups) && IsFraction(f) && (groups != [] ==> n <= 3)
    ensures MatchAfter(word, n, groups + f) == Some(n + |groups + f|)
  {
    GroupRunExact(groups, f);
    TakeDrop(groups, f);
    FinishFraction(word, f);
    if groups == [] {
      assert groups + f == f;
    }
  }

  lemma WholeScan(word: char -> bool, s: string)
    requires Match(word, s) == Some(|s|)
    ensures Scan(word, None, s) == [s]
  {
    assert s[..|s|] == s && s[|s|..] == [];
    ScanStep(word, None, s);
  }

  lemma GroupsStart(groups: string, f: string)
    requires Groups(groups) && IsFraction(f)
    ensures groups + f != [] ==> (groups + f)[0] == (if groups != [] then ',' else '.')
  {
  }

  lemma FinishFraction(word: char -> bool, f: string)
    requires IsFraction(f)
    ensures Finish(word, f) == Some(|f|)
  {
    if f != [] {
      DigitsAreWhole(f[1..]);
    }
  }

  // ---------------------------------------------------------------- round trip

  lemma {:induction false} AmountParts(text: string)
    requires IsAmount(text)
    ensures var u := Unsigned(text); var n := DigitRun(u);
            && AllDigits(u[..n]) && IsFraction(u[n..]) && '.' !in u[..n] && u == u[..n] + u[n..]
  {
    var u := Unsigned(text);
    DigitRunDigits(u);
    if DigitRun(u) < |u| {
      assert u[DigitRun(u)..][1..] == u[DigitRun(u) + 1..];
    }
  }

  /** The significant digits of a whole part. */
  function Significant(digits: string): string {
    if LStrip(digits, '0') == [] then "0" else LStrip(digits, '0')
  }

  lemma SignificantValue(digits: string)
    requires AllDigits(digits)
    ensures AllDigits(Significant(digits)) && IntValue(Significant(digits)) == IntValue(digits)
  {
    StripKeepsDigits(digits);
    IntValueStrip(digits);
    assert IntValue("0") == 0 by { assert "0"[..0] == []; }
  }

  /** Grouped digits with a fraction are one token, worth what the digits are worth. */
  lemma GroupedToken(word: char -> bool, d: string, f: string)
    requires WordClass(word) && d != [] && AllDigits(d) && IsFraction(f)
    ensures var out := GroupThousands(d) + f;
            && Scan(word, None, out) == [out] && IsToken(out)
            && WholeDigits(out) == d && FractionDigits(out) == (if f == [] then [] else f[1..])
  {
    var head, groups := GroupedShape(d);
    GroupedIsWhole(head, groups);
    TokenOfParts(head + groups, f);
    Assoc(head, groups, f);
    MatchWhole(word, head, groups, f);
  }

  /** A non-negative amount, written with separators and scanned back, is one token whose normal
      form, and so whose value, is that of the original spelling. */
  lemma ThousandsRoundTrip(word: char -> bool, text: string)
    requires WordClass(word) && IsAmount(text) && text[0] != '-'
    ensures var out := WithThousands(text);
            && Scan(word, None, out) == [out] && IsToken(out) && IsToken(text)
            && Normalise(out) == Normalise(text) && TokenValue(out) == TokenValue(text)
  {
    GroupedAmount(word, text);
    NormaliseDecides(WithThousands(text), text);
  }

  lemma GroupedAmount(word: char -> bool, text: string)
    requires WordClass(word) && IsAmount(text) && text[0] != '-'
    ensures var out := WithThousands(text);
            Scan(word, None, out) == [out] && IsToken(out) && IsToken(text) && TokenValue(out) == TokenValue(text)
  {
    var w, f := text[..DigitRun(text)], text[DigitRun(text)..];
    AmountParts(text);
    SignificantValue(w);
    assert GroupThousands("0") == "0";
    assert FormatWhole(false, w) == GroupThousands(Significant(w)) by {
      assert "" + GroupThousands(Significant(w)) == GroupThousands(Significant(w));
    }
    GroupedToken(word, Significant(w), f);
    DigitsAreWhole(w);
    TokenOfParts(w, f);
    RemoveCommasNone(w);
  }

  lemma {:induction false} SkipDigits(word: char -> bool, prev: char, d: string, rest: string)
    requires WordClass(word) && AllDigits(d) && d != [] && !MayFollow(word, Some(prev))
    ensures Scan(word, Some(prev), d + rest) == Scan(word, Some(d[|d| - 1]), rest)
    decreases d
  {
    assert (d + rest)[1..] == d[1..] + rest;
    if |d| == 1 {
      assert d[1..] + rest == rest;
    } else {
      SkipDigits(word, d[0], d[1..], rest);
    }
  }

  lemma NegativeParts(text: string) returns (head: string, groups: string, f: string)
    requires IsAmount(text) && text[0] == '-' && WithThousands(text)[0] == '-'
    ensures WithThousands(text) == "-" + (head + (groups + f))
    ensures head != [] && AllDigits(head) && Groups(groups) && IsFraction(f)
  {
    var u := text[1..];
    var w := u[..DigitRun(u)];
    f := u[DigitRun(u)..];
    AmountParts(text);
    StripKeepsDigits(w);
    head, groups := GroupedShape(LStrip(w, '0'));
    NegativeText(head, groups, f);
  }

  /** A negative amount is not read back: the sign hides its first digits, so that all that is read
      is what follows the first separator (`-1,234,567` gives 234,567), or nothing. */
  lemma NegativeReadsTail(word: char -> bool, text: string) returns (head: string, groups: string, f: string)
    requires WordClass(word) && IsAmount(text) && text[0] == '-' && WithThousands(text)[0] == '-'
    ensures WithThousands(text) == "-" + (head + (groups + f))
    ensures head != [] && AllDigits(head) && Groups(groups) && IsFraction(f)
    ensures Scan(word, None, WithThousands(text)) == if groups == [] then [] else [groups[1..] + f]
  {
    head, groups, f := NegativeParts(text);
    NegativeScan(word, head, groups, f);
  }

  lemma NegativeScan(word: char -> bool, head: string, groups: string, f: string)
    requires WordClass(word) && head != [] && AllDigits(head) && Groups(groups) && IsFraction(f)
    ensures Scan(word, None, "-" + (head + (groups + f))) == if groups == [] then [] else [groups[1..] + f]
  {
    var s := "-" + (head + (groups + f));
    assert s[1..] == head + (groups + f);
    ScanStep(word, None, s);
    SkipDigits(word, '-', head, groups + f);
    ScanTail(word, head[|head| - 1], groups, f);
  }

  lemma NegativeText(head: string, groups: string, f: string)
    ensures ("-" + (head + groups)) + f == "-" + (head + (groups + f))
  {
  }

  lemma ScanTail(word: char -> bool, prev: char, groups: string, f: string)
    requires WordClass(word) && IsDigit(prev) && Groups(groups) && IsFraction(f)
    ensures Scan(word, Some(prev), groups + f) == if groups == [] then [] else [groups[1..] + f]
  {
    if groups == [] {
      assert groups + f == f;
      ScanFraction(word, prev, f);
    } else {
      ScanGroups(word, prev, groups[1..4], groups[4..], f);
      FirstGroup(groups, f);
    }
  }

  /** Nothing is read in what follows a point. */
  lemma ScanFraction(word: char -> bool, prev: char, f: string)
    requires WordClass(word) && IsFraction(f)
    ensures Scan(word, Some(prev), f) == []
  {
    if f != [] {
      var d := f[1..];
      assert d + "" == d;
      ScanStep(word, Some(prev), f);
      SkipDigits(word, '.', d, "");
    }
  }

  lemma FirstGroup(groups: string, f: string)
    requires |groups| >= 4 && groups[0] == ','
    ensures groups + f == [','] + (groups[1..4] + (groups[4..] + f)) && groups[1..4] + (groups[4..] + f) == groups[1..] + f
  {
    assert groups == [','] + (groups[1..4] + groups[4..]);
  }

  /** After a comma a number can start again. */
  lemma ScanGroups(word: char -> bool, prev: char, h: string, g: string, f: string)
    requires WordClass(word) && |h| == 3 && AllDigits(h) && Groups(g) && IsFraction(f)
    ensures Scan(word, Some(prev), [','] + (h + (g + f))) == [h + (g + f)]
  {
    var rest := h + (g + f);
    var s := [','] + rest;
    assert s[1..] == rest && DigitRun(s) == 0;
    ScanStep(word, Some(prev), s);
    ScanPrev(word, Some(','), None, rest);
    MatchWhole(word, h, g, f);
  }

  // ---------------------------------------------------------------- exactly which amounts read back

  lemma {:induction false} RStripKeepsHead(s: string, c: char)
    requires s != [] && s[0] != c
    ensures RStrip(s, c) != [] && RStrip(s, c)[0] == s[0]
  {
    if s[|s| - 1] == c {
      RStripKeepsHead(s[..|s| - 1], c);
    }
  }

  /** The normal form of a negative amount keeps the sign. */
  lemma NormaliseKeepsSign(text: string)
    requires IsAmount(text) && text[0] == '-'
    ensures Normalise(text) != [] && Normalise(text)[0] == '-'
  {
    AmountChars(text);
    SignedTrim(text);
    RStripKeepsHead(text, '0');
    RStripKeepsHead(RStrip(text, '0'), '.');
  }

  lemma AmountChars(text: string)
    requires IsAmount(text) && text[0] == '-'
    ensures IsDigit(text[|text| - 1]) && forall i | 1 <= i < |text| :: text[i] == '.' || IsDigit(text[i])
  {
    var u := text[1..];
    AmountParts(text);
    assert forall i | 1 <= i < |text| :: text[i] == u[i - 1];
    assert forall i | 0 <= i < DigitRun(u) :: u[..DigitRun(u)][i] == u[i];
  }

  /** Nothing is stripped from a minus sign followed by digits and points that ends in a digit. */
  lemma SignedTrim(text: string)
    requires |text| > 1 && text[0] == '-' && IsDigit(text[|text| - 1])
    requires forall i | 1 <= i < |text| :: text[i] == '.' || IsDigit(text[i])
    ensures Trim(RemoveCommas(text)) == text
  {
    assert forall i | 0 <= i < |text| :: text[i] != ',';
    RemoveCommasNone(text);
    assert !IsSpace(text[0]) && !IsSpace(text[|text| - 1]);
  }

  /** A token's normal form begins with a digit. */
  lemma TokenHasNoSign(t: string)
    requires IsToken(t)
    ensures t != [] && t[0] != '-' && Normalise(t) != [] && Normalise(t)[0] != '-'
  {
    NormaliseIdempotent(t);
    TokenStarts(t);
    TokenStarts(Normalise(t));
  }

  lemma TokenStarts(t: string)
    requires IsToken(t)
    ensures t != [] && IsDigit(t[0])
  {
    PointAtIs(t);
    WholeIsDigits(t[..PointAt(t)]);
    assert t[..PointAt(t)][0] == t[0];
  }

  /** For every amount: what is written reads back as the one number that was meant exactly when the
      amount has no minus sign. */
  lemma ThousandsReadBackIff(word: char -> bool, text: string)
    requires WordClass(word) && IsAmount(text)
    ensures var out := WithThousands(text);
            Scan(word, None, out) == [out] && Normalise(out) == Normalise(text) <==> text[0] != '-'
  {
    var out := WithThousands(text);
    if text[0] != '-' {
      ThousandsRoundTrip(word, text);
    } else {
      NormaliseKeepsSign(text);
      ScanTokens(word, None, out);
      assert Scan(word, None, out) == [out] ==> out in Scan(word, None, out);
      if IsToken(out) {
        TokenHasNoSign(out);
      }
    }
  }

  /** A negative amount of less than one loses its sign: `-0000.5` is written `0.5`, and that is read. */
  lemma SignLost(word: char -> bool, text: string)
    requires WordClass(word) && IsAmount(text) && text[0] == '-' && LStrip(Unsigned(text)[..DigitRun(Unsigned(text))], '0') == []
    ensures var out := WithThousands(text);
            && out == "0" + Unsigned(text)[DigitRun(Unsigned(text))..]
            && Scan(word, None, out) == [out] && Normalise(out) != Normalise(text)
  {
    var u := Unsigned(text);
    AmountParts(text);
    assert GroupThousands("0") == "0";
    GroupedToken(word, "0", u[DigitRun(u)..]);
    ThousandsReadBackIff(word, text);
  }

  /** The parts of an amount with its separators: a minus sign or none, one to three digits, groups of
      three, and the fraction. */
  predicate GroupedAs(out: string, sign: string, head: string, groups: string, f: string) {
    && out == sign + (head + (groups + f))
    && 1 <= |head| <= 3 && AllDigits(head) && Groups(groups) && IsFraction(f)
    && (head[0] == '0' ==> head == "0" && groups == "")
    && (sign == "-" || sign == "")
  }

  /** An amount: a minus sign or none, its whole digits, its fraction. */
  predicate WrittenAs(text: string, w: string, f: string) {
    |w| >= 4 && AllDigits(w) && IsFraction(f) && (text == w + f || text == "-" + (w + f))
  }

  /** How an amount is written with separators: the same fraction, a whole part of the same value, and the
      minus sign exactly if the whole part is not zero. */
  lemma {:induction false} ThousandsShape(text: string) returns (w: string, sign: string, head: string, groups: string, f: string)
    requires IsAmount(text)
    ensures WrittenAs(text, w, f) && GroupedAs(WithThousands(text), sign, head, groups, f)
    ensures IntValue(RemoveCommas(head + groups)) == IntValue(w)
    ensures sign == "-" <==> text[0] == '-' && IntValue(w) > 0
  {
    w, f := AmountOf(text);
    sign, head, groups := WholeShape(text[0] == '-', w, f);
  }

  lemma {:induction false} WholeShape(negative: bool, w: string, f: string) returns (sign: string, head: string, groups: string)
    requires AllDigits(w) && IsFraction(f)
    ensures GroupedAs(FormatWhole(negative, w) + f, sign, head, groups, f)
    ensures IntValue(RemoveCommas(head + groups)) == IntValue(w)
    ensures sign == "-" <==> negative && IntValue(w) > 0
  {
    var d := LStrip(w, '0');
    StripKeepsDigits(w);
    IntValueStrip(w);
    IntValueNat(d);
    sign := if d != [] && negative then "-" else "";
    if d == [] {
      head, groups := "0", "";
      RemoveCommasNone("0");
      ZeroWritten(f);
    } else {
      head, groups := GroupedShape(d);
      HeadFirst(d, head, groups);
      SignedParts(sign, head, groups, f);
    }
  }

  lemma {:induction false} AmountOf(text: string) returns (w: string, f: string)
    requires IsAmount(text)
    ensures WrittenAs(text, w, f) && WithThousands(text) == FormatWhole(text[0] == '-', w) + f
    ensures text[0] != '-' ==> text == w + f
  {
    var u := Unsigned(text);
    w, f := u[..DigitRun(u)], u[DigitRun(u)..];
    AmountParts(text);
    HeadTail(text, 0);
  }

  lemma ZeroWritten(f: string)
    ensures "0" + f == "" + ("0" + ("" + f)) && IntValue("0") == 0 && RemoveCommas("0" + "") == RemoveCommas("0")
  {
    assert "0" + "" == "0";
    assert "0"[..0] == [];
    assert "" + f == f;
  }

  lemma {:induction false} SignedParts(sign: string, head: string, groups: string, f: string)
    ensures (sign + (head + groups)) + f == sign + (head + (groups + f))
  {
    Assoc(sign, head + groups, f);
    Assoc(head, groups, f);
  }

  lemma {:induction false} HeadFirst(d: string, head: string, groups: string)
    requires d != [] && AllDigits(d) && GroupThousands(d) == head + groups && head != []
    ensures head[0] == d[0]
  {
    FirstStays(d);
  }

  lemma {:induction false} FirstStays(d: string)
    requires d != []
    ensures GroupThousands(d) != [] && GroupThousands(d)[0] == d[0]
  {
    if |d| > 3 {
      FirstStays(d[..|d| - 3]);
    }
  }
}
