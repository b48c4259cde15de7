/**
 The small print of JSON, said by places: the spelling of numbers, the escapes of strings, and which member
 of a repeated name a dictionary keeps.
 */
module JsonGrammar {
  import opened Basics
  import opened JsonSyntax

  // ---------------------------------------------------------------- numbers

  predicate Digits(s: string) {
    s != [] && AllDigits(s)
  }

  predicate IntegerPart(s: string) {
    Digits(s) && (s[0] == '0' ==> s == "0")
  }

  predicate FractionPart(s: string) {
    s == "" || (s[0] == '.' && Digits(s[1..]))
  }

  predicate ExponentPart(s: string) {
    s == "" || ((s[0] == 'e' || s[0] == 'E') &&
                (Digits(s[1..]) || (|s| > 1 && (s[1] == '+' || s[1] == '-') && Digits(s[2..]))))
  }

  /** Section 6 of RFC 8259, part by part. */
  predicate NumberParts(t: string, sign: string, whole: string, fraction: string, exponent: string) {
    && t == sign + (whole + (fraction + exponent))
    && (sign == "" || sign == "-") && IntegerPart(whole) && FractionPart(fraction) && ExponentPart(exponent)
  }

  lemma WholeRun(d: string)
    requires DigitRun(d) == |d|
    ensures AllDigits(d)
  {
    DigitRunDigits(d);
    assert d[..|d|] == d;
  }

  lemma FullRun(d: string)
    requires AllDigits(d)
    ensures DigitRun(d) == |d|
  {
    DigitRunExact(d, "");
    assert d + "" == d;
  }

  lemma {:induction false} ExponentIff(s: string)
    ensures Exponent(s) <==> ExponentPart(s)
  {
    if s != [] && (s[0] == 'e' || s[0] == 'E') {
      RunOrDigits(s[1..]);
      if |s| > 1 {
        RunOrDigits(s[2..]);
      }
    }
  }

  lemma RunOrDigits(d: string)
    ensures d != [] && DigitRun(d) == |d| <==> Digits(d)
  {
    if DigitRun(d) == |d| {
      WholeRun(d);
    }
    if AllDigits(d) {
      FullRun(d);
    }
  }

  lemma FractionSplits(s: string)
    requires FractionAndExponent(s)
    ensures exists f, e :: s == f + e && FractionPart(f) && ExponentPart(e)
  {
    if s != [] && s[0] == '.' {
      var n := DigitRun(s[1..]);
      DigitRunDigits(s[1..]);
      SplitAt(s, 1 + n);
      assert s[..1 + n][1..] == s[1..][..n];
      ExponentIff(s[1 + n..]);
      assert FractionPart(s[..1 + n]);
    } else {
      ExponentIff(s);
      assert s == "" + s && FractionPart("");
    }
  }

  lemma FractionJoins(f: string, e: string)
    requires FractionPart(f) && ExponentPart(e)
    ensures FractionAndExponent(f + e) && (f + e != [] ==> !IsDigit((f + e)[0]))
  {
    ExponentIff(e);
    if f == [] {
      assert f + e == e;
    } else {
      assert (f + e)[1..] == f[1..] + e;
      DigitRunExact(f[1..], e);
      assert (f + e)[|f|..] == e;
    }
  }

  /** A number is a sign or none, an integer without leading zeros, a fraction or none and an exponent or none. */
  lemma NumberIff(t: string)
    ensures IsNumber(t) <==> exists sign, whole, fraction, exponent :: NumberParts(t, sign, whole, fraction, exponent)
  {
    if IsNumber(t) {
      var sign, whole, fraction, exponent := NumberSplits(t);
    }
    if sign, whole, fraction, exponent :| NumberParts(t, sign, whole, fraction, exponent) {
      FractionJoins(fraction, exponent);
      NumberJoins(sign, whole, fraction + exponent);
    }
  }

  lemma NumberSplits(t: string) returns (sign: string, whole: string, fraction: string, exponent: string)
    requires IsNumber(t)
    ensures NumberParts(t, sign, whole, fraction, exponent)
  {
    var s := if t != [] && t[0] == '-' then t[1..] else t;
    sign := if t != [] && t[0] == '-' then "-" else "";
    assert t == sign + s;
    var n := DigitRun(s);
    DigitRunDigits(s);
    SplitAt(s, n);
    whole := s[..n];
    FractionSplits(s[n..]);
    fraction, exponent :| s[n..] == fraction + exponent && FractionPart(fraction) && ExponentPart(exponent);
  }

  lemma NumberJoins(sign: string, whole: string, rest: string)
    requires (sign == "" || sign == "-") && IntegerPart(whole) && FractionAndExponent(rest) && (rest != [] ==> !IsDigit(rest[0]))
    ensures IsNumber(sign + (whole + rest))
  {
    var s := whole + rest;
    var t := sign + s;
    DigitRunExact(whole, rest);
    TakeDrop(whole, rest);
    assert s[0] == whole[0];
    if sign == "" {
      assert t == s;
    } else {
      assert t[1..] == s;
    }
  }

  // ---------------------------------------------------------------- members

  function Count(entries: Entries): nat {
    if entries.Nil? then 0 else 1 + Count(entries.tail)
  }

  function MemberAt(entries: Entries, i: nat): (Option<Codes>, Json)
    requires i < Count(entries)
  {
    if i == 0 then (entries.key, entries.value) else MemberAt(entries.tail, i - 1)
  }

  /** Member `i` is the last one of that name. */
  predicate LastOfName(entries: Entries, name: Codes, i: nat) {
    && i < Count(entries) && MemberAt(entries, i).0 == Some(name)
    && forall j | i < j < Count(entries) :: MemberAt(entries, j).0 != Some(name)
  }

  /** A dictionary keeps the last member of a name. */
  lemma {:induction false} LookupIff(entries: Entries, name: Codes, v: Json)
    ensures LookupIn(entries, name) == Some(v) <==> exists i: nat :: LastOfName(entries, name, i) && MemberAt(entries, i).1 == v
  {
    if entries.Cons? {
      LookupSome(entries, name);
      if LookupIn(entries, name).Some? {
        var k: nat :| LastOfName(entries, name, k) && Some(MemberAt(entries, k).1) == LookupIn(entries, name);
        assert forall i: nat :: LastOfName(entries, name, i) ==> i == k;
      }
    }
  }

  lemma {:induction false} LookupSome(entries: Entries, name: Codes)
    ensures if LookupIn(entries, name).None? then forall i: nat | i < Count(entries) :: MemberAt(entries, i).0 != Some(name)
            else exists i: nat :: LastOfName(entries, name, i) && Some(MemberAt(entries, i).1) == LookupIn(entries, name)
  {
    if entries.Cons? {
      var tail := entries.tail;
      LookupSome(tail, name);
      assert forall j: nat | j < Count(tail) :: MemberAt(entries, j + 1) == MemberAt(tail, j);
      if LookupIn(tail, name).Some? {
        var i: nat :| LastOfName(tail, name, i) && Some(MemberAt(tail, i).1) == LookupIn(tail, name);
        LaterLast(entries, name, i);
      } else if entries.key == Some(name) {
        assert LastOfName(entries, name, 0);
      }
    }
  }

  lemma LaterLast(entries: Entries, name: Codes, i: nat)
    requires entries.Cons? && LastOfName(entries.tail, name, i)
    ensures LastOfName(entries, name, i + 1) && MemberAt(entries, i + 1) == MemberAt(entries.tail, i)
  {
    forall j | i + 1 < j < Count(entries) ensures MemberAt(entries, j).0 != Some(name) {
      assert MemberAt(entries, j) == MemberAt(entries.tail, j - 1);
    }
  }

  // ---------------------------------------------------------------- escapes

  /** The short escapes of section 7 of RFC 8259. */
  lemma ShortEscapes()
    ensures Decode([Short('"')]) == [0x22] && Decode([Short('\\')]) == [0x5C] && Decode([Short('/')]) == [0x2F]
    ensures Decode([Short('b')]) == [0x08] && Decode([Short('f')]) == [0x0C] && Decode([Short('n')]) == [0x0A]
    ensures Decode([Short('r')]) == [0x0D] && Decode([Short('t')]) == [0x09]
  {
    forall c ensures Decode([Short(c)]) == [ShortValue(c)] {
      assert [Short(c)][1..] == [];
    }
  }

  /** The digits of an escape, in either case. */
  lemma HexDigits()
    ensures var small, capital := "0123456789abcdef", "0123456789ABCDEF";
            forall i | 0 <= i < 16 :: HexValue(small[i]) == i && HexValue(capital[i]) == i
  {
  }
}
