/**
 Finding numbers in text (`extract_numbers`).

 The pattern is
   (?<![\w\-:/.]) ( \d{1,3}(?:,\d{3})+(?:\.\d+)? | \d+(?:\.\d+)? ) (?![\w])
 and numbered-list markers at the start of a line are removed first.  The scanner below is written
 by hand; `MatchIsLongest` says what it has to do with the pattern.
 */
module NumberScan {
  import opened Basics
  import opened Numbers

  // ---------------------------------------------------------------- word characters

  predicate AsciiWord(c: char) {
    '0' <= c <= '9' || 'a' <= c <= 'z' || 'A' <= c <= 'Z' || c == '_'
  }

  /** What is known of the class `\w`: its ASCII part, and that white space is never in it. */
  ghost predicate WordClass(word: char -> bool) {
    && (forall c: char :: c as int < 128 ==> (word(c) <==> AsciiWord(c)))
    && (forall c: char :: IsSpace(c) ==> !word(c))
  }

  // ---------------------------------------------------------------- one match

  /** Length of the longest `(,\d{3})*` that a text starts with. */
  function GroupRun(s: string): (n: nat)
    ensures n <= |s|
  {
    if |s| >= 4 && s[0] == ',' && AllDigits(s[1..4]) then 4 + GroupRun(s[4..]) else 0
  }

  /** `(?![\w])` */
  predicate Ends(word: char -> bool, s: string) {
    s == [] || !word(s[0])
  }

  /** What may follow the whole part: a fraction if it is not glued to a word, else nothing. */
  function Finish(word: char -> bool, s: string): (r: Option<nat>)
    ensures r.Some? ==> r.value <= |s|
  {
    var n := if s != [] && s[0] == '.' then DigitRun(s[1..]) else 0;
    if n > 0 && Ends(word, s[1 + n..]) then Some(1 + n)
    else if Ends(word, s) then Some(0)
    else None
  }

  /** Length of a match whose `n` leading digits are followed by `r`. */
  function MatchAfter(word: char -> bool, n: nat, r: string): (m: Option<nat>)
    ensures m.Some? ==> n <= m.value <= n + |r|
  {
    var g := if n <= 3 then GroupRun(r) else 0;
    if g > 0 && Finish(word, r[g..]).Some? then Some(n + g + Finish(word, r[g..]).value)
    else if g > 4 then Some(n + g - 4)
    else if Finish(word, r).Some? then Some(n + Finish(word, r).value)
    else None
  }

  /** Length of the match at the start of a text, if there is one. */
  function Match(word: char -> bool, s: string): (r: Option<nat>)
    ensures r.Some? ==> 0 < r.value <= |s|
  {
    var n := DigitRun(s);
    if n == 0 then None else MatchAfter(word, n, s[n..])
  }

  /** `(?<![\w\-:/.])` */
  predicate MayFollow(word: char -> bool, prev: Option<char>) {
    prev.None? || (!word(prev.value) && prev.value != '-' && prev.value != ':' && prev.value != '/' && prev.value != '.')
  }

  /** `finditer` from a place whose previous character is `prev`. */
  function Scan(word: char -> bool, prev: Option<char>, s: string): seq<string>
    decreases |s|
  {
    if s == [] then []
    else if MayFollow(word, prev) && Match(word, s).Some? then
      var k := Match(word, s).value;
      [s[..k]] + Scan(word, Some(s[k - 1]), s[k..])
    else Scan(word, Some(s[0]), s[1..])
  }

  // ---------------------------------------------------------------- list markers

  function HashRun(s: string): (n: nat)
    ensures n <= |s|
  {
    if s != [] && s[0] == '#' then 1 + HashRun(s[1..]) else 0
  }

  /** `\s*(?:#+\s*)?`: the part of a line a list marker leaves alone. */
  function LeadRun(s: string): (n: nat)
    ensures n <= |s|
  {
    var a := WhiteRun(s);
    var h := HashRun(s[a..]);
    if h == 0 then a else a + h + WhiteRun(s[a + h..])
  }

  /** `^(\s*(?:#+\s*)?)\d+[.)](?=\s)`: the length of the number and its point or parenthesis, or 0. */
  function Marker(s: string): (n: nat)
    ensures LeadRun(s) + n <= |s|
  {
    var d := DigitRun(s[LeadRun(s)..]);
    var e := LeadRun(s) + d;
    if d > 0 && e + 1 < |s| && (s[e] == '.' || s[e] == ')') && IsSpace(s[e + 1]) then d + 1 else 0
  }

  /** The text without the markers at its line starts. */
  function StripMarkers(lineStart: bool, s: string): string
    decreases |s|
  {
    if s == [] then []
    else if lineStart && Marker(s) > 0 then
      s[..LeadRun(s)] + StripMarkers(false, s[LeadRun(s) + Marker(s)..])
    else [s[0]] + StripMarkers(s[0] == '\n', s[1..])
  }

  /** `extract_numbers` */
  function Extract(word: char -> bool, text: string): seq<string> {
    Scan(word, None, StripMarkers(true, text))
  }

  // ---------------------------------------------------------------- the scanner against the pattern

  /** The pattern can match the first `k` characters. */
  predicate CanMatch(word: char -> bool, s: string, k: nat)
    requires k <= |s|
  {
    IsToken(s[..k]) && Ends(word, s[k..])
  }

  lemma {:induction false} GroupRunGroups(s: string)
    ensures var g := GroupRun(s); g % 4 == 0 && Groups(s[..g])
  {
    if GroupRun(s) > 0 {
      GroupRunGroups(s[4..]);
      var t := s[..GroupRun(s)];
      assert t[4..] == s[4..][..GroupRun(s[4..])];
      assert t[1..4] == s[1..4];
    }
  }

  /** Any groups a text starts with are among the longest run, and stop it only at a non-group. */
  lemma {:induction false} GroupsAreRun(s: string, g: nat)
    requires g <= |s| && Groups(s[..g])
    ensures g <= GroupRun(s) && g % 4 == 0
    ensures g < GroupRun(s) ==> g + 4 <= |s| && s[g] == ','
  {
    if g > 0 {
      assert s[..g][1..4] == s[1..4] && s[..g][4..] == s[4..][..g - 4];
      GroupsAreRun(s[4..], g - 4);
    }
  }

  lemma {:induction false} GroupsPrefix(s: string, g: nat)
    requires g + 4 == GroupRun(s)
    ensures Groups(s[..g]) && s[g] == ','
  {
    if g > 0 {
      GroupsPrefix(s[4..], g - 4);
      assert s[..g][1..4] == s[1..4] && s[..g][4..] == s[4..][..g - 4];
    }
  }

  /** A digit string at the start that no digit follows is the whole run. */
  lemma RunIsWhole(s: string, k: nat)
    requires k <= |s| && AllDigits(s[..k]) && (k < |s| ==> !IsDigit(s[k]))
    ensures DigitRun(s) == k
  {
    SplitAt(s, k);
    DigitRunExact(s[..k], s[k..]);
  }

  lemma EndsNoDigit(word: char -> bool, s: string, k: nat)
    requires WordClass(word) && k <= |s| && Ends(word, s[k..])
    ensures k < |s| ==> !IsDigit(s[k])
  {
  }

  /** The whole part is the digit run, or the run and some of the groups after it. */
  lemma WholeShape(s: string, p: nat)
    requires p <= |s| && IsWhole(s[..p]) && (p < |s| ==> !IsDigit(s[p]))
    ensures var n := DigitRun(s);
            && n > 0
            && (p == n || (n <= 3 && n < p && p - n <= GroupRun(s[n..]) && (p - n) % 4 == 0 &&
                           (p < |s| && p - n < GroupRun(s[n..]) ==> s[p] == ',')))
  {
    var j := DigitRun(s[..p]);
    DigitRunDigits(s[..p]);
    TakeSlices(s, p, j);
    if j == p {
      RunIsWhole(s, p);
    } else {
      GroupedRunShape(s, p, j);
    }
  }

  lemma TakeSlices(s: string, p: nat, j: nat)
    requires j <= p <= |s|
    ensures s[..p][..j] == s[..j] && s[..p][j..] == s[j..][..p - j]
  {
  }

  lemma GroupedRunShape(s: string, p: nat, j: nat)
    requires 1 <= j <= 3 && j < p <= |s| && AllDigits(s[..j]) && Groups(s[j..][..p - j])
    ensures DigitRun(s) == j && p - j <= GroupRun(s[j..]) && (p - j) % 4 == 0
    ensures p < |s| && p - j < GroupRun(s[j..]) ==> s[p] == ','
  {
    var r := s[j..];
    assert s[j] == r[..p - j][0];
    RunIsWhole(s, j);
    GroupsAreRun(r, p - j);
    assert p < |s| ==> r[p - j] == s[p];
  }

  /** How a possible match at the start of `s` is made up. */
  lemma MatchShape(word: char -> bool, s: string, k: nat)
    requires WordClass(word) && k <= |s| && CanMatch(word, s, k)
    ensures var p := PointAt(s[..k]);
            && IsWhole(s[..p]) && (p < |s| ==> !IsDigit(s[p]))
            && (k == p || (p < k && s[p] == '.' && k - p - 1 == DigitRun(s[p + 1..]) > 0))
  {
    var t := s[..k];
    var p := PointAt(t);
    PointAtIs(t);
    EndsNoDigit(word, s, k);
    assert t[..p] == s[..p];
    if p < k {
      assert t[p + 1..] == s[p + 1..][..k - p - 1];
      RunIsWhole(s[p + 1..], k - p - 1);
    }
  }

  lemma FinishIsFraction(word: char -> bool, r: string)
    requires Finish(word, r).Some?
    ensures IsFraction(r[..Finish(word, r).value])
    ensures Ends(word, r[Finish(word, r).value..])
  {
    var f := Finish(word, r).value;
    if f > 0 {
      DigitRunDigits(r[1..]);
      assert r[..f][1..] == r[1..][..f - 1];
    }
  }

  lemma GroupedIsWhole(head: string, groups: string)
    requires head != [] && AllDigits(head) && Groups(groups) && (groups != [] ==> |head| <= 3)
    ensures IsWhole(head + groups)
  {
    DigitRunExact(head, groups);
    TakeDrop(head, groups);
    if groups == [] {
      assert head + groups == head;
    }
  }

  lemma FinishSplit(word: char -> bool, r: string) returns (f: string, rest: string)
    requires Finish(word, r).Some?
    ensures r == f + rest && |f| == Finish(word, r).value && IsFraction(f) && Ends(word, rest)
  {
    f, rest := r[..Finish(word, r).value], r[Finish(word, r).value..];
    FinishIsFraction(word, r);
  }

  lemma Rejoin(d: string, q: string, f: string, rest: string, r1: string, r: string)
    requires r == q + r1 && r1 == f + rest
    ensures ((d + q) + f) + rest == d + r
  {
  }

  lemma TokenIs(d: string, q: string, f: string)
    requires d != [] && AllDigits(d) && Groups(q) && (q != [] ==> |d| <= 3) && IsFraction(f)
    ensures IsToken((d + q) + f)
  {
    GroupedIsWhole(d, q);
    TokenOfParts(d + q, f);
  }

  /** The groups `q` that the match takes, and the text after them. */
  lemma GroupsTaken(word: char -> bool, n: nat, r: string) returns (q: string, r1: string, f: nat)
    requires WordClass(word) && MatchAfter(word, n, r).Some?
    ensures r == q + r1 && Groups(q) && (q != [] ==> n <= 3)
    ensures MatchAfter(word, n, r).value == n + |q| + f
    ensures (f == 0 && Ends(word, r1)) || Finish(word, r1) == Some(f)
  {
    var g := if n <= 3 then GroupRun(r) else 0;
    if g > 0 && Finish(word, r[g..]).Some? {
      q, r1, f := r[..g], r[g..], Finish(word, r[g..]).value;
      GroupRunGroups(r);
    } else if g > 4 {
      q, r1, f := r[..g - 4], r[g - 4..], 0;
      GroupRunShape(r);
      GroupsPrefix(r, g - 4);
    } else {
      q, r1, f := "", r, Finish(word, r).value;
    }
  }

  lemma FractionTaken(word: char -> bool, r1: string, n: nat) returns (f: string, rest: string)
    requires (n == 0 && Ends(word, r1)) || Finish(word, r1) == Some(n)
    ensures r1 == f + rest && |f| == n && IsFraction(f) && Ends(word, rest)
  {
    if Finish(word, r1) == Some(n) {
      f, rest := FinishSplit(word, r1);
    } else {
      f, rest := "", r1;
    }
  }

  /** The scanner's match is one the pattern allows. */
  lemma MatchIsAllowed(word: char -> bool, s: string)
    requires WordClass(word) && Match(word, s).Some?
    ensures CanMatch(word, s, Match(word, s).value)
  {
    var n := DigitRun(s);
    var q, r1, m := GroupsTaken(word, n, s[n..]);
    var f, rest := FractionTaken(word, r1, m);
    DigitRunDigits(s);
    TokenIs(s[..n], q, f);
    SplitAt(s, n);
    Rejoin(s[..n], q, f, rest, r1, s[n..]);
    TakeDrop((s[..n] + q) + f, rest);
  }

  /** Any allowed match is no longer than the scanner's. */
  lemma MatchIsMaximal(word: char -> bool, s: string, k: nat)
    requires WordClass(word) && k <= |s| && CanMatch(word, s, k)
    ensures Match(word, s).Some? && k <= Match(word, s).value
  {
    var p := PointAt(s[..k]);
    MatchShape(word, s, k);
    WholeShape(s, p);
    FinishReaches(word, s, p, k);
    MaximalFrom(word, s, DigitRun(s), p, k - p, s[p..]);
  }

  /** The same with the lengths of the leading digits and of the whole part given; `t` follows them. */
  lemma MaximalFrom(word: char -> bool, s: string, n: nat, p: nat, f: nat, t: string)
    requires 0 < n == DigitRun(s) && n <= p <= |s| && t == s[p..] && Finish(word, t).Some? && f <= Finish(word, t).value
    requires p == n || (n <= 3 && p - n <= GroupRun(s[n..]) && (p - n) % 4 == 0)
    requires t != [] && n < p && p - n < GroupRun(s[n..]) ==> t[0] == ','
    requires f > 0 ==> t[0] == '.'
    ensures Match(word, s).Some? && p + f <= Match(word, s).value
  {
    DropDrop(s, n, p - n);
    MaximalAfter(word, n, s[n..], p - n, t, f);
  }

  lemma FinishReaches(word: char -> bool, s: string, p: nat, k: nat)
    requires p <= k <= |s| && Ends(word, s[k..])
    requires k == p || (s[p] == '.' && k - p - 1 == DigitRun(s[p + 1..]) > 0)
    ensures Finish(word, s[p..]).Some? && k - p <= Finish(word, s[p..]).value
  {
  }

  /** The same for what follows the leading digits: `q` characters of groups and `f` of fraction. */
  lemma MaximalAfter(word: char -> bool, n: nat, r: string, q: nat, t: string, f: nat)
    requires q <= |r| && t == r[q..] && q % 4 == 0 && Finish(word, t).Some? && f <= Finish(word, t).value
    requires q == 0 || (n <= 3 && q <= GroupRun(r))
    requires f > 0 ==> t[0] == '.'
    requires t != [] && 0 < q < GroupRun(r) ==> t[0] == ','
    ensures MatchAfter(word, n, r).Some? && n + q + f <= MatchAfter(word, n, r).value
  {
    GroupRunShape(r);
    FourApart(q, GroupRun(r));
    if q == 0 {
      assert t == r;
    } else {
      MaximalGroups(word, n, r, q, t, f);
    }
  }

  lemma MaximalGroups(word: char -> bool, n: nat, r: string, q: nat, t: string, f: nat)
    requires n <= 3 && 0 < q <= GroupRun(r) && (q < GroupRun(r) ==> q + 4 <= GroupRun(r) && f == 0)
    requires t == r[q..] && Finish(word, t).Some? && f <= Finish(word, t).value
    ensures MatchAfter(word, n, r).Some? && n + q + f <= MatchAfter(word, n, r).value
  {
  }

  lemma {:induction false} GroupRunShape(r: string)
    ensures GroupRun(r) % 4 == 0 && (GroupRun(r) > 0 ==> r[0] == ',')
  {
    if GroupRun(r) > 0 {
      GroupRunShape(r[4..]);
    }
  }

  lemma FourApart(q: nat, g: nat)
    requires q % 4 == 0 && g % 4 == 0
    ensures q < g ==> q + 4 <= g
  {
  }

  /** At every place the scanner takes the longest match the pattern allows there, and finds none
      only where there is none.  (The pattern prefers longer alternatives at every choice.) */
  lemma MatchIsLongest(word: char -> bool, s: string)
    requires WordClass(word)
    ensures match Match(word, s)
            case None => forall k | 0 <= k <= |s| :: !CanMatch(word, s, k)
            case Some(m) => CanMatch(word, s, m) && forall k | m < k <= |s| :: !CanMatch(word, s, k)
  {
    if Match(word, s).Some? {
      MatchIsAllowed(word, s);
    }
    forall k | 0 <= k <= |s| ensures CanMatch(word, s, k) ==> Match(word, s).Some? && k <= Match(word, s).value {
      if CanMatch(word, s, k) {
        MatchIsMaximal(word, s, k);
      }
    }
  }

  lemma {:induction false} ScanTokens(word: char -> bool, prev: Option<char>, s: string)
    requires WordClass(word)
    ensures forall t :: t in Scan(word, prev, s) ==> IsToken(t)
    decreases |s|
  {
    if s != [] {
      if MayFollow(word, prev) && Match(word, s).Some? {
        MatchIsAllowed(word, s);
        ScanTokens(word, Some(s[Match(word, s).value - 1]), s[Match(word, s).value..]);
      } else {
        ScanTokens(word, Some(s[0]), s[1..]);
      }
    }
  }

  // ---------------------------------------------------------------- cutting text at neutral characters

  /** A character that neither belongs to a number nor forbids one beside it. */
  predicate Neutral(word: char -> bool, c: char) {
    !word(c) && !IsDigit(c) && c != '-' && c != ':' && c != '/' && c != '.' && c != ','
  }

  lemma {:induction false} DigitRunLocal(s: string, c: char, t: string)
    requires !IsDigit(c)
    ensures DigitRun(s + ([c] + t)) == DigitRun(s)
  {
    if s == [] {
      assert s + ([c] + t) == [c] + t;
    } else {
      assert (s + ([c] + t))[1..] == s[1..] + ([c] + t);
      if IsDigit(s[0]) {
        DigitRunLocal(s[1..], c, t);
      }
    }
  }

  lemma {:induction false} GroupRunLocal(s: string, c: char, t: string)
    requires !IsDigit(c) && c != ','
    ensures GroupRun(s + ([c] + t)) == GroupRun(s)
  {
    var x := s + ([c] + t);
    assert forall i | 0 <= i < |s| :: x[i] == s[i];
    assert x[|s|] == c;
    if |s| >= 4 {
      assert x[1..4] == s[1..4] && x[4..] == s[4..] + ([c] + t);
      GroupRunLocal(s[4..], c, t);
    } else if |x| >= 4 {
      assert s == [] ==> x[0] == c;
      assert s != [] ==> x[1..4][|s| - 1] == c;
    }
  }

  lemma FinishLocal(word: char -> bool, s: string, c: char, t: string)
    requires Neutral(word, c)
    ensures Finish(word, s + ([c] + t)) == Finish(word, s)
  {
    var x := s + ([c] + t);
    if s == [] {
      assert x == [c] + t;
    } else {
      assert x[1..] == s[1..] + ([c] + t);
      DigitRunLocal(s[1..], c, t);
      var n := DigitRun(s[1..]);
      assert x[1 + n..] == s[1 + n..] + ([c] + t);
    }
  }

  lemma DropJoin(s: string, r: string, k: nat)
    requires k <= |s|
    ensures (s + r)[k..] == s[k..] + r && (s + r)[..k] == s[..k]
  {
  }

  lemma MatchAfterLocal(word: char -> bool, n: nat, r: string, c: char, t: string)
    requires Neutral(word, c)
    ensures MatchAfter(word, n, r + ([c] + t)) == MatchAfter(word, n, r)
  {
    GroupRunLocal(r, c, t);
    FinishLocal(word, r, c, t);
    var g := GroupRun(r);
    DropJoin(r, [c] + t, g);
    FinishLocal(word, r[g..], c, t);
  }

  /** What a neutral character cuts off cannot change the match before it. */
  lemma MatchLocal(word: char -> bool, s: string, c: char, t: string)
    requires Neutral(word, c)
    ensures Match(word, s + ([c] + t)) == Match(word, s)
  {
    DigitRunLocal(s, c, t);
    DropJoin(s, [c] + t, DigitRun(s));
    MatchAfterLocal(word, DigitRun(s), s[DigitRun(s)..], c, t);
  }

  /** A neutral character cuts a text in two as far as numbers are concerned. */
  lemma {:induction false} ScanCut(word: char -> bool, prev: Option<char>, s: string, c: char, t: string)
    requires Neutral(word, c)
    ensures Scan(word, prev, s + ([c] + t)) == Scan(word, prev, s) + Scan(word, None, t)
    decreases |s|
  {
    if s == [] {
      ScanNeutral(word, prev, c, t);
    } else {
      var k := if MayFollow(word, prev) && Match(word, s).Some? then Match(word, s).value else 1;
      ScanCut(word, Some(s[k - 1]), s[k..], c, t);
      ScanCutStep(word, prev, s, c, t, k);
    }
  }

  lemma ScanCutStep(word: char -> bool, prev: Option<char>, s: string, c: char, t: string, k: nat)
    requires Neutral(word, c) && s != []
    requires k == if MayFollow(word, prev) && Match(word, s).Some? then Match(word, s).value else 1
    requires Scan(word, Some(s[k - 1]), s[k..] + ([c] + t)) == Scan(word, Some(s[k - 1]), s[k..]) + Scan(word, None, t)
    ensures Scan(word, prev, s + ([c] + t)) == Scan(word, prev, s) + Scan(word, None, t)
  {
    var x := s + ([c] + t);
    MatchLocal(word, s, c, t);
    DropJoin(s, [c] + t, k);
    var head := if MayFollow(word, prev) && Match(word, s).Some? then [s[..k]] else [];
    assert Scan(word, prev, s) == head + Scan(word, Some(s[k - 1]), s[k..]) by { ScanStep(word, prev, s); }
    assert Scan(word, prev, x) == head + Scan(word, Some(s[k - 1]), x[k..]) by { ScanStep(word, prev, x); }
    Assoc(head, Scan(word, Some(s[k - 1]), s[k..]), Scan(word, None, t));
  }

  lemma ScanStep(word: char -> bool, prev: Option<char>, s: string)
    requires s != []
    ensures var hit := MayFollow(word, prev) && Match(word, s).Some?;
            var k := if hit then Match(word, s).value else 1;
            Scan(word, prev, s) == (if hit then [s[..k]] else []) + Scan(word, Some(s[k - 1]), s[k..])
  {
  }

  lemma ScanNeutral(word: char -> bool, prev: Option<char>, c: char, t: string)
    requires Neutral(word, c)
    ensures Scan(word, prev, "" + ([c] + t)) == Scan(word, None, t)
  {
    var x := "" + ([c] + t);
    assert x[0] == c && x[1..] == t;
    assert DigitRun(x) == 0;
    ScanPrev(word, Some(c), None, t);
  }

  lemma ScanPrev(word: char -> bool, p: Option<char>, q: Option<char>, s: string)
    requires MayFollow(word, p) && MayFollow(word, q)
    ensures Scan(word, p, s) == Scan(word, q, s)
  {
  }

  lemma {:induction false} NoDigitsNoTokens(word: char -> bool, prev: Option<char>, s: string)
    requires forall i | 0 <= i < |s| :: !IsDigit(s[i])
    ensures Scan(word, prev, s) == []
    decreases |s|
  {
    if s != [] {
      NoDigitsNoTokens(word, Some(s[0]), s[1..]);
    }
  }

  // ---------------------------------------------------------------- list markers in one line

  lemma {:induction false} StripInsideLine(s: string)
    requires '\n' !in s
    ensures StripMarkers(false, s) == s
  {
    if s != [] {
      StripInsideLine(s[1..]);
      HeadTail(s, 0);
    }
  }

  lemma StripOneLine(s: string)
    requires '\n' !in s
    ensures StripMarkers(true, s) == if Marker(s) > 0 then s[..LeadRun(s)] + s[LeadRun(s) + Marker(s)..] else s
  {
    if s != [] {
      StripInsideLine(s[LeadRun(s) + Marker(s)..]);
      StripInsideLine(s[1..]);
      HeadTail(s, 0);
    }
  }

  lemma {:induction false} SpacesNeutral(word: char -> bool, s: string)
    requires WordClass(word)
    ensures forall i | 0 <= i < WhiteRun(s) :: Neutral(word, s[i])
  {
    if s != [] && IsSpace(s[0]) {
      SpacesNeutral(word, s[1..]);
      assert forall i | 1 <= i < |s| :: s[i] == s[1..][i - 1];
    }
  }

  lemma {:induction false} HashesNeutral(word: char -> bool, s: string)
    requires WordClass(word)
    ensures forall i | 0 <= i < HashRun(s) :: Neutral(word, s[i])
  {
    if s != [] && s[0] == '#' {
      HashesNeutral(word, s[1..]);
      assert forall i | 1 <= i < |s| :: s[i] == s[1..][i - 1];
    }
  }

  lemma LeadNeutral(word: char -> bool, s: string)
    requires WordClass(word)
    ensures forall i | 0 <= i < LeadRun(s) :: Neutral(word, s[i])
  {
    var a := WhiteRun(s);
    var h := HashRun(s[a..]);
    SpacesNeutral(word, s);
    HashesNeutral(word, s[a..]);
    SpacesNeutral(word, s[a + h..]);
    forall i | 0 <= i < LeadRun(s) ensures Neutral(word, s[i]) {
      if i < a {
      } else if i < a + h {
        assert s[i] == s[a..][i - a];
      } else {
        assert s[i] == s[a + h..][i - a - h];
      }
    }
  }

  lemma {:induction false} ScanAfterLead(word: char -> bool, lead: string, s: string)
    requires forall i | 0 <= i < |lead| :: Neutral(word, lead[i])
    ensures Scan(word, None, lead + s) == Scan(word, None, s)
  {
    if lead == [] {
      assert lead + s == s;
    } else {
      assert lead + s == "" + ([lead[0]] + (lead[1..] + s));
      ScanNeutral(word, None, lead[0], lead[1..] + s);
      ScanAfterLead(word, lead[1..], s);
    }
  }

  /** A list marker's number is a number where it is not at the start of a line. */
  lemma MarkerIsScanned(word: char -> bool, d: string, c: char, rest: string)
    requires WordClass(word) && d != [] && AllDigits(d) && (c == '.' || c == ')')
    requires rest != [] && IsSpace(rest[0])
    ensures Scan(word, None, d + ([c] + rest)) == [d] + Scan(word, None, rest)
  {
    var s, r := d + ([c] + rest), [c] + rest;
    DigitRunExact(d, r);
    assert s[|d|..] == r && r[1..] == rest && s[..|d|] == d;
    assert GroupRun(r) == 0 && Finish(word, r) == Some(0);
    assert Match(word, s) == Some(|d|);
    assert Scan(word, Some(d[|d| - 1]), r) == Scan(word, Some(c), rest);
    assert rest == "" + ([rest[0]] + rest[1..]);
    ScanNeutral(word, Some(c), rest[0], rest[1..]);
    ScanNeutral(word, None, rest[0], rest[1..]);
  }

  lemma MarkerSplit(s: string, l: nat, e: nat)
    requires l <= e < |s|
    ensures s == s[..l] + (s[l..e] + ([s[e]] + s[e + 1..]))
  {
  }

  /** The number that a marker at the start of the line consists of. */
  function MarkerNumber(s: string): string {
    if Marker(s) == 0 then [] else s[LeadRun(s)..LeadRun(s) + Marker(s) - 1]
  }

  lemma MarkerLost(word: char -> bool, cell: string)
    requires WordClass(word) && '\n' !in cell && Marker(cell) > 0
    ensures Scan(word, None, cell) == [MarkerNumber(cell)] + Extract(word, cell)
  {
    var lead, c, rest := MarkerPieces(cell);
    LeadNeutral(word, cell);
    MarkerLostParts(word, lead, MarkerNumber(cell), c, rest);
  }

  lemma MarkerPieces(cell: string) returns (lead: string, c: char, rest: string)
    requires '\n' !in cell && Marker(cell) > 0
    ensures lead == cell[..LeadRun(cell)] && cell == lead + (MarkerNumber(cell) + ([c] + rest))
    ensures StripMarkers(true, cell) == lead + rest
    ensures MarkerNumber(cell) != [] && AllDigits(MarkerNumber(cell))
    ensures (c == '.' || c == ')') && rest != [] && IsSpace(rest[0])
  {
    var l, e := LeadRun(cell), LeadRun(cell) + Marker(cell) - 1;
    lead, c, rest := cell[..l], cell[e], cell[e + 1..];
    MarkerDigits(cell);
    MarkerSplit(cell, l, e);
    StripOneLine(cell);
  }

  lemma MarkerLostParts(word: char -> bool, lead: string, d: string, c: char, rest: string)
    requires WordClass(word) && (forall i | 0 <= i < |lead| :: Neutral(word, lead[i]))
    requires d != [] && AllDigits(d) && (c == '.' || c == ')') && rest != [] && IsSpace(rest[0])
    ensures Scan(word, None, lead + (d + ([c] + rest))) == [d] + Scan(word, None, lead + rest)
  {
    ScanAfterLead(word, lead, d + ([c] + rest));
    MarkerIsScanned(word, d, c, rest);
    ScanAfterLead(word, lead, rest);
  }

  lemma MarkerDigits(cell: string)
    requires Marker(cell) > 0
    ensures var e := LeadRun(cell) + Marker(cell) - 1;
            && MarkerNumber(cell) != [] && AllDigits(MarkerNumber(cell))
            && e + 1 < |cell| && (cell[e] == '.' || cell[e] == ')') && IsSpace(cell[e + 1])
  {
    DigitRunDigits(cell[LeadRun(cell)..]);
    MidSlice(cell, LeadRun(cell), LeadRun(cell) + Marker(cell) - 1);
  }

  /** In one line, removing markers loses no number exactly when there is no marker; with a marker
      exactly its own number is lost. */
  lemma MarkerDecides(word: char -> bool, cell: string)
    requires WordClass(word) && '\n' !in cell
    ensures Marker(cell) > 0 ==> Scan(word, None, cell) == [MarkerNumber(cell)] + Extract(word, cell)
    ensures Scan(word, None, cell) == Extract(word, cell) <==> Marker(cell) == 0
  {
    if Marker(cell) > 0 {
      MarkerLost(word, cell);
    } else {
      StripOneLine(cell);
    }
  }
}
