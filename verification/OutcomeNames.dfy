/**
 Which outcome a section is named for and which outcome a code belongs to
 (`\boutcome\s*(\d+)\b` and `_digits`), said by places.
 */
module OutcomeNames {
  import opened Basics
  import opened Numbers
  import opened NumberScan
  import opened ListMarkers
  import opened Report

  // ---------------------------------------------------------------- the number in a title

  /** Behind `a` white characters the text has the number `d`, and no word goes on behind it. */
  predicate Behind(word: char -> bool, r: string, a: nat, d: string) {
    && OccursAt(r, d, a) && d != [] && WhiteOnly(r[..a]) && AllDigits(d)
    && (a + |d| < |r| ==> !word(r[a + |d|]))
  }

  predicate StartsNumbered(word: char -> bool, r: string, d: string) {
    exists a: nat | a <= |r| :: Behind(word, r, a, d)
  }

  lemma BehindRuns(word: char -> bool, r: string, a: nat, d: string)
    requires WordClass(word) && Behind(word, r, a, d)
    ensures LeadingNumber(word, r) == Some(d)
  {
    assert r[a] == d[0];
    WhiteRunExact(r, a);
    MidSlice(r, a, a + |d|);
    DigitRunStops(r[a..], |d|);
  }

  lemma RunsBehind(word: char -> bool, r: string)
    requires LeadingNumber(word, r).Some?
    ensures StartsNumbered(word, r, LeadingNumber(word, r).value)
  {
    var a := WhiteRun(r);
    var n := DigitRun(r[a..]);
    WhiteRunIs(r);
    DigitRunDigits(r[a..]);
    MidSlice(r, a, a + n);
    assert Behind(word, r, a, r[a..a + n]);
  }

  lemma LeadingNumberIff(word: char -> bool, r: string, d: string)
    requires WordClass(word)
    ensures LeadingNumber(word, r) == Some(d) <==> StartsNumbered(word, r, d)
  {
    if LeadingNumber(word, r).Some? {
      RunsBehind(word, r);
    }
    if a: nat :| a <= |r| && Behind(word, r, a, d) {
      BehindRuns(word, r, a, d);
    }
  }

  /** At place `i` stands the word "outcome", not inside another word, and behind it the number `d`. */
  predicate NamesAt(word: char -> bool, s: string, i: nat, d: string) {
    OccursAt(s, "outcome", i) && (i > 0 ==> !word(s[i - 1])) && StartsNumbered(word, s[i + 7..], d)
  }

  function HitAt(word: char -> bool, s: string, i: nat): Option<string> {
    if OccursAt(s, "outcome", i) && (i > 0 ==> !word(s[i - 1])) then LeadingNumber(word, s[i + 7..]) else None
  }

  function Hits(word: char -> bool, s: string): nat -> Option<string> {
    (i: nat) => HitAt(word, s, i)
  }

  lemma HitAtIff(word: char -> bool, s: string, i: nat, d: string)
    requires WordClass(word)
    ensures HitAt(word, s, i) == Some(d) <==> NamesAt(word, s, i, d)
  {
    if OccursAt(s, "outcome", i) {
      LeadingNumberIff(word, s[i + 7..], d);
    }
  }

  /** What is found at the first place from `from` on where anything is found. */
  function FirstHit(hit: nat -> Option<string>, from: nat, n: nat): Option<string>
    decreases n - from
  {
    if from >= n then None else if hit(from).Some? then hit(from) else FirstHit(hit, from + 1, n)
  }

  predicate FirstPlace(hit: nat -> Option<string>, from: nat, i: nat, d: string) {
    from <= i && hit(i) == Some(d) && forall j | from <= j < i :: hit(j).None?
  }

  lemma {:induction false} FirstHitIff(hit: nat -> Option<string>, from: nat, n: nat, d: string)
    ensures FirstHit(hit, from, n) == Some(d) <==> exists i: nat | i < n :: FirstPlace(hit, from, i, d)
    decreases n - from
  {
    if from < n {
      if hit(from).Some? {
        assert hit(from) == Some(d) ==> FirstPlace(hit, from, from, d);
      } else {
        var next := from + 1;
        FirstHitIff(hit, next, n, d);
        forall i: nat ensures FirstPlace(hit, from, i, d) <==> FirstPlace(hit, next, i, d) {
          FirstLater(hit, from, i, d);
        }
      }
    }
  }

  lemma FirstLater(hit: nat -> Option<string>, from: nat, i: nat, d: string)
    requires hit(from).None?
    ensures FirstPlace(hit, from, i, d) <==> FirstPlace(hit, from + 1, i, d)
  {
  }

  lemma SearchStep(word: char -> bool, s: string, from: nat)
    requires from < |s|
    ensures var here, rest := HitAt(word, s, from), OutcomeNumber(word, word(s[from]), s[from + 1..]);
            OutcomeNumber(word, from > 0 && word(s[from - 1]), s[from..]) == if here.Some? then here else rest
  {
    DropDrop(s, from, 1);
    if from + 7 <= |s| {
      MidSlice(s, from, from + 7);
      DropDrop(s, from, 7);
    }
  }

  lemma {:induction false} SearchIs(word: char -> bool, s: string, from: nat)
    requires from <= |s|
    ensures OutcomeNumber(word, from > 0 && word(s[from - 1]), s[from..]) == FirstHit(Hits(word, s), from, |s|)
    decreases |s| - from
  {
    if from < |s| {
      SearchStep(word, s, from);
      SearchIs(word, s, from + 1);
    }
  }

  ghost predicate NamesNone(word: char -> bool, s: string, j: nat) {
    forall e :: !NamesAt(word, s, j, e)
  }

  /** At place `i` the title names `d`, and at no earlier place any number. */
  ghost predicate FirstNamed(word: char -> bool, s: string, i: nat, d: string) {
    NamesAt(word, s, i, d) && forall j: nat | j < i :: NamesNone(word, s, j)
  }

  /** A title is named for the number behind the first free-standing "outcome" that has one. */
  lemma OutcomeNumberIff(word: char -> bool, title: string, d: string)
    requires WordClass(word)
    ensures OutcomeNumber(word, false, title) == Some(d) <==> exists i: nat :: FirstNamed(word, title, i, d)
  {
    var hit := Hits(word, title);
    assert title[0..] == title;
    SearchIs(word, title, 0);
    FirstHitIff(hit, 0, |title|, d);
    forall i: nat ensures FirstPlace(hit, 0, i, d) <==> FirstNamed(word, title, i, d) {
      PlaceIff(word, title, i, d);
    }
    if i: nat :| FirstNamed(word, title, i, d) {
      assert i < |title|;
    }
  }

  lemma PlaceIff(word: char -> bool, s: string, i: nat, d: string)
    requires WordClass(word)
    ensures FirstPlace(Hits(word, s), 0, i, d) <==> FirstNamed(word, s, i, d)
  {
    HitAtIff(word, s, i, d);
    forall j: nat ensures Hits(word, s)(j).None? <==> NamesNone(word, s, j) {
      HitNoneIff(word, s, j);
    }
    PlaceMeans(Hits(word, s), i, d);
  }

  lemma PlaceMeans(hit: nat -> Option<string>, i: nat, d: string)
    ensures FirstPlace(hit, 0, i, d) <==> hit(i) == Some(d) && forall j: nat | j < i :: hit(j).None?
  {
  }

  lemma HitNoneIff(word: char -> bool, s: string, j: nat)
    requires WordClass(word)
    ensures HitAt(word, s, j).None? <==> NamesNone(word, s, j)
  {
    forall e ensures HitAt(word, s, j) == Some(e) <==> NamesAt(word, s, j, e) {
      HitAtIff(word, s, j, e);
    }
    if HitAt(word, s, j).Some? {
      assert NamesAt(word, s, j, HitAt(word, s, j).value);
    }
  }

  // ---------------------------------------------------------------- which outcome a number means

  /** Two numbers name the same outcome exactly when they have the same value. */
  lemma SameOutcomeIff(a: string, b: string)
    requires AllDigits(a) && AllDigits(b)
    ensures NumberName(a) == NumberName(b) <==> IntValue(a) == IntValue(b)
  {
    StripKeepsDigits(a);
    StripKeepsDigits(b);
    IntValueStrip(a);
    IntValueStrip(b);
    IntValueNat(LStrip(a, '0'));
    IntValueNat(LStrip(b, '0'));
    if IntValue(a) == IntValue(b) {
      IntValueInjective(LStrip(a, '0'), LStrip(b, '0'));
    }
  }

  /** The first run of digits in a text. */
  predicate FirstDigits(s: string, i: nat, n: nat) {
    n > 0 && i + n <= |s| && AllDigits(s[i..i + n]) && (i + n < |s| ==> !IsDigit(s[i + n])) && forall j | 0 <= j < i :: !IsDigit(s[j])
  }

  /** An outcome code belongs to the outcome of the first number in it, leading zeros aside. */
  lemma {:induction false} FirstNumberIff(code: string, name: string)
    ensures FirstNumber(code) == Some(name) <==>
            exists i: nat, n: nat | i <= |code| && n <= |code| :: FirstDigits(code, i, n) && name == NumberName(code[i..i + n])
  {
    if code == [] {
    } else if IsDigit(code[0]) {
      DigitRunDigits(code);
      assert FirstDigits(code, 0, DigitRun(code));
      if i: nat, n: nat :| i <= |code| && n <= |code| && FirstDigits(code, i, n) && name == NumberName(code[i..i + n]) {
        assert i == 0;
        DigitRunStops(code, n);
      }
    } else {
      FirstNumberIff(code[1..], name);
      LaterDigits(code, name);
    }
  }

  lemma LaterDigits(code: string, name: string)
    requires code != [] && !IsDigit(code[0])
    ensures (exists i: nat, n: nat | i <= |code| && n <= |code| :: FirstDigits(code, i, n) && name == NumberName(code[i..i + n])) <==>
            exists i: nat, n: nat | i < |code| && n < |code| :: FirstDigits(code[1..], i, n) && name == NumberName(code[1..][i..i + n])
  {
    if i: nat, n: nat :| i <= |code| && n <= |code| && FirstDigits(code, i, n) && name == NumberName(code[i..i + n]) {
      assert i > 0 by { assert code[i..i + n][0] == code[i]; }
      DigitsMoved(code, i - 1, n);
    }
    if i: nat, n: nat :| i < |code| && n < |code| && FirstDigits(code[1..], i, n) && name == NumberName(code[1..][i..i + n]) {
      DigitsMoved(code, i, n);
    }
  }

  lemma DigitsMoved(code: string, i: nat, n: nat)
    requires code != [] && !IsDigit(code[0]) && i + 1 + n <= |code|
    ensures code[1..][i..i + n] == code[i + 1..i + 1 + n]
    ensures FirstDigits(code[1..], i, n) <==> FirstDigits(code, i + 1, n)
  {
    assert forall j | 0 < j <= i :: code[j] == code[1..][j - 1];
  }

  // ---------------------------------------------------------------- levels

  /** The word, its letters in either case. */
  predicate InAnyCase(s: string, word: string) {
    |s| == |word| && forall i | 0 <= i < |s| :: s[i] == word[i] || ('a' <= s[i] <= 'z' && s[i] as int - 32 == word[i] as int)
  }

  lemma UpperIs(s: string, word: string)
    requires forall i | 0 <= i < |word| :: 'A' <= word[i] <= 'Z'
    ensures Upper(s) == word <==> InAnyCase(s, word)
  {
    UpperAt(s);
    if InAnyCase(s, word) {
      assert Upper(s) == word;
    }
  }

  /** A finding is of outcome level if its level is a goal or an outcome, in any case. */
  lemma OutcomeLevelIff(f: Finding)
    ensures OutcomeLevel(f) <==>
            f.logframeLevel.Some? && (InAnyCase(f.logframeLevel.value, "GOAL") || InAnyCase(f.logframeLevel.value, "OUTCOME"))
  {
    if f.logframeLevel.Some? {
      UpperIs(f.logframeLevel.value, "GOAL");
      UpperIs(f.logframeLevel.value, "OUTCOME");
    }
  }
}
