/**
 What number extraction finds in one printed cell, compared with the text of the cell: list markers
 are stripped at other places, and a pipe, printed as a slash, hides what stands behind it.
 */
module CellScan {
  import opened Basics
  import opened Numbers
  import opened NumberScan
  import opened Report
  import opened TableScan
  import Thousands

  /** All these numbers are in the set. */
  ghost predicate AllIn(tokens: seq<string>, allowed: set<string>) {
    forall t :: t in tokens ==> Normalise(t) in allowed
  }

  lemma AllInConcat(a: seq<string>, b: seq<string>, allowed: set<string>)
    ensures AllIn(a + b, allowed) <==> AllIn(a, allowed) && AllIn(b, allowed)
  {
    assert forall t :: t in a + b <==> t in a || t in b;
  }

  lemma AllInOne(t: string, allowed: set<string>)
    ensures AllIn([t], allowed) <==> Normalise(t) in allowed
  {
    assert t in [t];
  }

  // ---------------------------------------------------------------- a number behind a slash

  /** What is left of a number that stands directly behind a slash: what follows its first comma. */
  function TailOf(word: char -> bool, s: string): seq<string> {
    var n, k := DigitRun(s), Match(word, s);
    if k.Some? && n < k.value && s[n] == ',' then [s[n + 1..k.value]] else []
  }

  /** A grouped number's first comma is followed by a number that ends with it. */
  lemma AfterComma(word: char -> bool, n: nat, r: string)
    requires WordClass(word) && MatchAfter(word, n, r).Some? && MatchAfter(word, n, r).value > n && r[0] == ','
    ensures Match(word, r[1..]) == Some(MatchAfter(word, n, r).value - n - 1)
  {
    GroupRunShape(r);
    GroupRunShape(r[4..]);
    ThreeThenMore(word, r);
    DropDrop(r, 1, 3);
    DropDrop(r, 4, GroupRun(r[4..]));
  }

  lemma ThreeThenMore(word: char -> bool, r: string)
    requires WordClass(word) && GroupRun(r) > 0 && (GroupRun(r) == 4 ==> Finish(word, r[4..]).Some?)
    ensures DigitRun(r[1..]) == 3
  {
    GroupEnds(word, r[4..]);
    DropDrop(r, 1, 3);
    SplitAt(r[1..], 3);
    MidSlice(r, 1, 4);
    DigitsOnly(r[1..4], r[4..]);
  }

  lemma GroupEnds(word: char -> bool, t: string)
    requires WordClass(word) && (GroupRun(t) > 0 || Finish(word, t).Some?)
    ensures t == [] || !IsDigit(t[0])
  {
  }

  lemma DigitsOnly(d: string, t: string)
    requires AllDigits(d) && (t == [] || !IsDigit(t[0]))
    ensures DigitRun(d + t) == |d|
  {
    DigitRunWhole(d);
    if t == [] {
      assert d + t == d;
    } else {
      HeadTail(t, 0);
      assert t == [t[0]] + t[1..];
      DigitRunLocal(d, t[0], t[1..]);
    }
  }

  lemma {:induction false} DigitRunWhole(d: string)
    requires AllDigits(d)
    ensures DigitRun(d) == |d|
  {
    if d != [] {
      DigitRunWhole(d[1..]);
    }
  }

  lemma SlashHidesDigits(word: char -> bool, prev: char, s: string, n: nat)
    requires WordClass(word) && !MayFollow(word, Some(prev)) && 0 < n <= |s| && AllDigits(s[..n])
    ensures Scan(word, Some(prev), s) == Scan(word, Some(s[n - 1]), s[n..])
  {
    SplitAt(s, n);
    Thousands.SkipDigits(word, prev, s[..n], s[n..]);
  }

  /** A number behind a character that forbids it leaves its tail, and the scan goes on at its end. */
  lemma HiddenNumber(word: char -> bool, prev: char, s: string)
    requires WordClass(word) && !MayFollow(word, Some(prev)) && Match(word, s).Some?
    ensures var k := Match(word, s).value;
            Scan(word, Some(prev), s) == TailOf(word, s) + Scan(word, Some(s[k - 1]), s[k..])
  {
    var n, k := DigitRun(s), Match(word, s).value;
    DigitRunDigits(s);
    SlashHidesDigits(word, prev, s, n);
    if n < k {
      HiddenRest(word, s[n - 1], n, s[n..], k);
      SliceBehind(s, n, k);
    } else {
      assert [] + Scan(word, Some(s[k - 1]), s[k..]) == Scan(word, Some(s[k - 1]), s[k..]);
    }
  }

  lemma SliceBehind(s: string, n: nat, k: nat)
    requires n < k <= |s|
    ensures s[n..][0] == s[n] && s[n..][k - n - 1] == s[k - 1] && s[n..][k - n..] == s[k..] && s[n..][1..][..k - n - 1] == s[n + 1..k]
  {
  }

  /** The same from the end of the leading digits on. */
  lemma HiddenRest(word: char -> bool, prev: char, n: nat, r: string, k: nat)
    requires WordClass(word) && MatchAfter(word, n, r) == Some(k) && n < k
    ensures r != []
    ensures Scan(word, Some(prev), r) ==
            (if r[0] == ',' then [r[1..][..k - n - 1]] else []) + Scan(word, Some(r[k - n - 1]), r[k - n..])
  {
    GroupRunShape(r);
    assert r[0] == ',' || r[0] == '.';
    ScanStep(word, Some(prev), r);
    if r[0] == ',' {
      AfterComma(word, n, r);
      ScanStep(word, Some(','), r[1..]);
      DropDrop(r, 1, k - n - 1);
    } else {
      var m := DigitRun(r[1..]);
      DigitRunDigits(r[1..]);
      SlashHidesDigits(word, '.', r[1..], m);
      DropDrop(r, 1, m);
    }
  }

  // ---------------------------------------------------------------- all pipes of a text

  function Slash(prev: Option<char>): Option<char> {
    if prev == Some('|') then Some('/') else prev
  }

  /** What slashes leave of the numbers directly behind pipes is in the set. */
  ghost predicate TailsIn(word: char -> bool, s: string, allowed: set<string>) {
    forall i | 0 <= i < |s| && s[i] == '|' :: AllIn(TailOf(word, s[i + 1..]), allowed)
  }

  lemma TailsCons(word: char -> bool, s: string, allowed: set<string>)
    requires s != []
    ensures TailsIn(word, s, allowed) <==> (s[0] == '|' ==> AllIn(TailOf(word, s[1..]), allowed)) && TailsIn(word, s[1..], allowed)
  {
    assert forall i | 1 <= i < |s| :: s[i] == s[1..][i - 1] && s[i + 1..] == s[1..][i..];
  }

  lemma {:induction false} TailsSkip(word: char -> bool, s: string, k: nat, allowed: set<string>)
    requires k <= |s| && '|' !in s[..k]
    ensures TailsIn(word, s, allowed) <==> TailsIn(word, s[k..], allowed)
  {
    if k > 0 {
      TailsCons(word, s, allowed);
      assert s[..k][0] == s[0] && s[1..][..k - 1] == s[..k][1..] && s[1..][k - 1..] == s[k..];
      TailsSkip(word, s[1..], k - 1, allowed);
    }
  }

  lemma TailOfSlashed(word: char -> bool, s: string)
    requires WordClass(word)
    ensures TailOf(word, NoPipes(s)) == TailOf(word, s)
  {
    NoPipesAt(s);
    MatchNoPipes(word, s);
    DigitRunNoPipes(s);
    if Match(word, s).Some? && DigitRun(s) < Match(word, s).value {
      TokenNoPipes(word, s);
      NoPipesDrop(s, Match(word, s).value);
      InsideTake(s, NoPipes(s), DigitRun(s), Match(word, s).value);
    }
  }

  lemma InsideTake(s: string, x: string, n: nat, k: nat)
    requires n < k <= |s| && k <= |x| && x[..k] == s[..k]
    ensures x[n] == s[n] && x[n + 1..k] == s[n + 1..k]
  {
    assert x[n] == x[..k][n] && s[n] == s[..k][n];
    assert x[n + 1..k] == x[..k][n + 1..] && s[n + 1..k] == s[..k][n + 1..];
  }

  /** If a text's numbers are in the set, then with slashes for pipes they are exactly if the tails are. */
  lemma {:induction false} SlashedIff(word: char -> bool, prev: Option<char>, s: string, allowed: set<string>)
    requires WordClass(word) && AllIn(Scan(word, prev, s), allowed)
    ensures AllIn(Scan(word, Slash(prev), NoPipes(s)), allowed) <==>
            (prev == Some('|') ==> AllIn(TailOf(word, s), allowed)) && TailsIn(word, s, allowed)
    decreases |s|
  {
    NoPipesAt(s);
    if s != [] {
      MatchNoPipes(word, s);
      ScanStep(word, prev, s);
      ScanStep(word, Slash(prev), NoPipes(s));
      if MayFollow(word, prev) && Match(word, s).Some? {
        SlashedNumber(word, prev, s, allowed);
      } else {
        NoPipesDrop(s, 1);
        SlashedIff(word, Some(s[0]), s[1..], allowed);
        TailsCons(word, s, allowed);
        assert [] + Scan(word, Some(s[0]), s[1..]) == Scan(word, Some(s[0]), s[1..]);
      }
    }
  }

  lemma {:induction false} SlashedNumber(word: char -> bool, prev: Option<char>, s: string, allowed: set<string>)
    requires WordClass(word) && AllIn(Scan(word, prev, s), allowed) && MayFollow(word, prev) && Match(word, s).Some?
    ensures AllIn(Scan(word, Slash(prev), NoPipes(s)), allowed) <==>
            (prev == Some('|') ==> AllIn(TailOf(word, s), allowed)) && TailsIn(word, s, allowed)
    decreases |s|, 0
  {
    var k, x := Match(word, s).value, NoPipes(s);
    var rest := Scan(word, Some(s[k - 1]), s[k..]);
    NoPipesAt(s);
    MatchNoPipes(word, s);
    TokenNoPipes(word, s);
    NoPipesDrop(s, k);
    assert x[k - 1] == x[..k][k - 1] == s[..k][k - 1] == s[k - 1];
    AllInConcat([s[..k]], rest, allowed);
    TokenHasNoPipe(word, s);
    TailsSkip(word, s, k, allowed);
    SlashedIff(word, Some(s[k - 1]), s[k..], allowed);
    var after := Scan(word, Some(x[k - 1]), x[k..]);
    if prev == Some('|') {
      HiddenNumber(word, '/', x);
      TailOfSlashed(word, s);
      AllInConcat(TailOf(word, s), after, allowed);
    } else {
      AllInConcat([s[..k]], after, allowed);
    }
  }

  lemma TokenHasNoPipe(word: char -> bool, s: string)
    requires WordClass(word) && Match(word, s).Some?
    ensures '|' !in s[..Match(word, s).value] && s[Match(word, s).value - 1] != '|'
  {
    MatchIsAllowed(word, s);
    TokenPlain(s[..Match(word, s).value]);
    assert s[Match(word, s).value - 1] in s[..Match(word, s).value];
  }

  // ---------------------------------------------------------------- list markers and slashes

  lemma {:induction false} WhiteRunSlashes(s: string)
    ensures WhiteRun(NoPipes(s)) == WhiteRun(s)
  {
    if s != [] {
      NoPipesDrop(s, 1);
      WhiteRunSlashes(s[1..]);
    }
  }

  lemma {:induction false} HashRunSlashes(s: string)
    ensures HashRun(NoPipes(s)) == HashRun(s)
  {
    if s != [] {
      NoPipesDrop(s, 1);
      HashRunSlashes(s[1..]);
    }
  }

  lemma LeadRunSlashes(s: string)
    ensures LeadRun(NoPipes(s)) == LeadRun(s)
  {
    var t := s[WhiteRun(s)..];
    var u := t[HashRun(t)..];
    WhiteRunSlashes(s);
    NoPipesDrop(s, WhiteRun(s));
    HashRunSlashes(t);
    NoPipesDrop(t, HashRun(t));
    WhiteRunSlashes(u);
    LeadIs(s, t, u);
    LeadIs(NoPipes(s), NoPipes(t), NoPipes(u));
  }

  lemma LeadIs(s: string, t: string, u: string)
    requires t == s[WhiteRun(s)..] && u == t[HashRun(t)..]
    ensures LeadRun(s) == WhiteRun(s) + HashRun(t) + if HashRun(t) == 0 then 0 else WhiteRun(u)
  {
    DropDrop(s, WhiteRun(s), HashRun(t));
  }

  lemma MarkerSlashes(s: string)
    ensures LeadRun(NoPipes(s)) == LeadRun(s) && Marker(NoPipes(s)) == Marker(s)
  {
    LeadRunSlashes(s);
    NoPipesDrop(s, LeadRun(s));
    DigitRunNoPipes(s[LeadRun(s)..]);
    NoPipesAt(s);
    MarkerSame(s, NoPipes(s), LeadRun(s), DigitRun(s[LeadRun(s)..]));
  }

  lemma MarkerSame(s: string, x: string, l: nat, d: nat)
    requires |x| == |s| && LeadRun(s) == LeadRun(x) == l <= |s| && DigitRun(s[l..]) == DigitRun(x[l..]) == d
    requires forall i | 0 <= i < |s| :: x[i] == if s[i] == '|' then '/' else s[i]
    ensures Marker(x) == Marker(s)
  {
    assert !IsSpace('/') && !IsSpace('|');
  }

  lemma StripAt(s: string, l: nat, e: nat)
    requires l == LeadRun(s) && e == l + Marker(s) && l < e <= |s|
    ensures StripMarkers(true, s) == s[..l] + StripMarkers(false, s[e..])
  {
    StripMarked(s, s[..l], s[e..]);
  }

  /** Stripping markers and replacing pipes can be done in either order. */
  lemma {:induction false} StripSlashes(lineStart: bool, s: string)
    ensures StripMarkers(lineStart, NoPipes(s)) == NoPipes(StripMarkers(lineStart, s))
    decreases |s|
  {
    MarkerSlashes(s);
    NoPipesAt(s);
    if s == [] {
    } else if lineStart && Marker(s) > 0 {
      var l, e := LeadRun(s), LeadRun(s) + Marker(s);
      StripSlashes(false, s[e..]);
      StripAt(s, l, e);
      StripAt(NoPipes(s), l, e);
      StripSlashesPieces(s, NoPipes(s), l, e);
    } else {
      StripSlashes(s[0] == '\n', s[1..]);
      StripSlashesOne(lineStart, s, NoPipes(s));
    }
  }

  lemma StripSlashesPieces(s: string, x: string, l: nat, e: nat)
    requires x == NoPipes(s) && l <= e <= |s| == |x|
    requires StripMarkers(true, s) == s[..l] + StripMarkers(false, s[e..])
    requires StripMarkers(true, x) == x[..l] + StripMarkers(false, x[e..])
    requires StripMarkers(false, NoPipes(s[e..])) == NoPipes(StripMarkers(false, s[e..]))
    ensures StripMarkers(true, x) == NoPipes(StripMarkers(true, s))
  {
    NoPipesDrop(s, l);
    NoPipesDrop(s, e);
    NoPipesJoin(s[..l], StripMarkers(false, s[e..]));
  }

  lemma StripSlashesOne(lineStart: bool, s: string, x: string)
    requires s != [] && x == NoPipes(s) && (lineStart ==> Marker(s) == 0 && Marker(x) == 0)
    requires StripMarkers(s[0] == '\n', NoPipes(s[1..])) == NoPipes(StripMarkers(s[0] == '\n', s[1..]))
    ensures StripMarkers(lineStart, x) == NoPipes(StripMarkers(lineStart, s))
  {
    NoPipesAt(s);
    NoPipesDrop(s, 1);
    StripOne(lineStart, s);
    StripOne(lineStart, x);
    NoPipesOne(s[0]);
    NoPipesJoin([s[0]], StripMarkers(s[0] == '\n', s[1..]));
  }

  lemma NoPipesOne(c: char)
    ensures NoPipes([c]) == [if c == '|' then '/' else c]
  {
    NoPipesAt([c]);
  }

  lemma NoPipesJoin(a: string, b: string)
    ensures NoPipes(a + b) == NoPipes(a) + NoPipes(b)
  {
    NoPipesSplit(a + b, |a|);
    TakeDrop(a, b);
  }

  // ---------------------------------------------------------------- white space behind a text

  lemma {:induction false} WhiteRunMore(s: string, z: string)
    ensures WhiteRun(s) < |s| ==> WhiteRun(s + z) == WhiteRun(s)
  {
    if s != [] {
      assert (s + z)[1..] == s[1..] + z;
      WhiteRunMore(s[1..], z);
    }
  }

  lemma {:induction false} HashRunMore(s: string, z: string)
    ensures HashRun(s) < |s| ==> HashRun(s + z) == HashRun(s)
  {
    if s != [] {
      assert (s + z)[1..] == s[1..] + z;
      HashRunMore(s[1..], z);
    }
  }

  /** A lead that ends within a text does not depend on what follows the text. */
  lemma LeadRunMore(s: string, z: string)
    requires LeadRun(s) < |s|
    ensures LeadRun(s + z) == LeadRun(s)
  {
    var t := s[WhiteRun(s)..];
    var u := t[HashRun(t)..];
    LeadIs(s, t, u);
    WhiteRunMore(s, z);
    DropJoin(s, z, WhiteRun(s));
    HashRunMore(t, z);
    DropJoin(t, z, HashRun(t));
    WhiteRunMore(u, z);
    LeadIs(s + z, t + z, u + z);
  }

  /** A number with its point or parenthesis that has nothing behind it: no marker until white space
      follows. */
  predicate BareMarker(s: string) {
    var e := LeadRun(s) + DigitRun(s[LeadRun(s)..]);
    DigitRun(s[LeadRun(s)..]) > 0 && e + 1 == |s| && (s[e] == '.' || s[e] == ')')
  }

  lemma MarkerMore(s: string, w: char)
    requires IsSpace(w)
    ensures LeadRun(s) < |s| ==> LeadRun(s + [w]) == LeadRun(s)
    ensures Marker(s) > 0 ==> Marker(s + [w]) == Marker(s) && LeadRun(s) < |s|
    ensures Marker(s) == 0 ==> (Marker(s + [w]) > 0 <==> BareMarker(s))
    ensures BareMarker(s) ==> LeadRun(s) < |s| && LeadRun(s) + Marker(s + [w]) == |s|
  {
    if LeadRun(s) < |s| {
      var l := LeadRun(s);
      LeadRunMore(s, [w]);
      DropJoin(s, [w], l);
      DigitRunMore(s[l..], w);
      MarkerFrom(s, s + [w], l, l + DigitRun(s[l..]), w);
    } else {
      AllLead(s, w);
    }
  }

  lemma DigitRunMore(s: string, w: char)
    requires IsSpace(w)
    ensures DigitRun(s + [w]) == DigitRun(s)
  {
    assert !IsDigit(w);
    DigitRunLocal(s, w, []);
    assert s + ([w] + []) == s + [w];
  }

  lemma MarkerFrom(s: string, x: string, l: nat, e: nat, w: char)
    requires IsSpace(w) && x == s + [w] && l < |s| && l == LeadRun(s) == LeadRun(x)
    requires e == l + DigitRun(s[l..]) == l + DigitRun(x[l..])
    ensures Marker(s) > 0 ==> Marker(x) == Marker(s)
    ensures Marker(s) == 0 ==> (Marker(x) > 0 <==> BareMarker(s))
    ensures BareMarker(s) ==> l + Marker(x) == |s|
  {
    assert w != '.' && w != ')';
    assert forall i | 0 <= i < |s| :: x[i] == s[i];
  }

  lemma AllLead(s: string, w: char)
    requires IsSpace(w) && LeadRun(s) == |s|
    ensures Marker(s + [w]) == 0
  {
    var x := s + [w];
    LeadKinds(s);
    LeadRunDigit(x);
  }

  /** The lead is white space and number signs. */
  lemma LeadKinds(s: string)
    ensures forall i | 0 <= i < LeadRun(s) :: IsSpace(s[i]) || s[i] == '#'
  {
    var a := WhiteRun(s);
    var h := HashRun(s[a..]);
    WhiteKinds(s);
    HashKinds(s[a..]);
    WhiteKinds(s[a + h..]);
    forall i | 0 <= i < LeadRun(s) ensures IsSpace(s[i]) || s[i] == '#' {
      if i < a {
      } else if i < a + h {
        assert s[i] == s[a..][i - a];
      } else {
        assert s[i] == s[a + h..][i - a - h];
      }
    }
  }

  lemma {:induction false} WhiteKinds(s: string)
    ensures forall i | 0 <= i < WhiteRun(s) :: IsSpace(s[i])
  {
    if s != [] && IsSpace(s[0]) {
      WhiteKinds(s[1..]);
      assert forall i | 1 <= i < |s| :: s[i] == s[1..][i - 1];
    }
  }

  lemma {:induction false} HashKinds(s: string)
    ensures forall i | 0 <= i < HashRun(s) :: s[i] == '#'
  {
    if s != [] && s[0] == '#' {
      HashKinds(s[1..]);
      assert forall i | 1 <= i < |s| :: s[i] == s[1..][i - 1];
    }
  }

  /** A marker has digits. */
  lemma LeadRunDigit(s: string)
    ensures Marker(s) > 0 ==> exists i | 0 <= i < |s| :: IsDigit(s[i])
  {
    if Marker(s) > 0 {
      DigitRunDigits(s[LeadRun(s)..]);
      assert IsDigit(s[LeadRun(s)..][..DigitRun(s[LeadRun(s)..])][0]);
      assert IsDigit(s[LeadRun(s)]);
    }
  }

  /** Text whose only point or parenthesis is its last character has no marker anywhere. */
  lemma {:induction false} NoMarkers(lineStart: bool, s: string)
    requires forall i | 0 <= i < |s| - 1 :: s[i] != '.' && s[i] != ')'
    ensures StripMarkers(lineStart, s) == s
    decreases |s|
  {
    if s != [] {
      assert Marker(s) == 0;
      assert forall i | 1 <= i < |s| :: s[i] == s[1..][i - 1];
      NoMarkers(s[0] == '\n', s[1..]);
      StripOne(lineStart, s);
      HeadTail(s, 0);
    }
  }

  /** `text` is stripped of everything but `head`, the digits and the point or parenthesis of a bare
      marker in its last line. */
  ghost predicate EndsBare(lineStart: bool, text: string, head: string, d: string, p: char) {
    && text == head + (d + [p]) && d != [] && AllDigits(d) && (p == '.' || p == ')')
    && (head == [] ==> lineStart)
    && (head != [] ==> IsSpace(head[|head| - 1]) || head[|head| - 1] == '#')
  }

  /** White space behind a text changes nothing in it but a bare marker in its last line, which it
      makes a marker. */
  lemma {:induction false} StripMore(lineStart: bool, s: string, w: char) returns (bare: bool, head: string, d: string, p: char)
    requires IsSpace(w)
    ensures !bare ==> StripMarkers(lineStart, s + [w]) == StripMarkers(lineStart, s) + [w]
    ensures bare ==> EndsBare(lineStart, StripMarkers(lineStart, s), head, d, p) && StripMarkers(lineStart, s + [w]) == head + [w]
    ensures bare <==> EndsInMarker(lineStart, s)
    decreases |s|
  {
    MarkerMore(s, w);
    bare, head, d, p := false, [], [], '.';
    if s == [] {
      OnlyWhite(lineStart, w);
      assert s + [w] == [w];
    } else if lineStart && BareMarker(s) {
      bare := true;
      head, d, p := BareParts(s, w);
    } else {
      var front, rest, inner := FirstPart(lineStart, s, w);
      bare, head, d, p := StripMore(inner, rest, w);
      EndsBehind(front, StripMarkers(inner, rest), StripMarkers(inner, rest + [w]), w, bare, head, d, p, lineStart, inner);
      head := front + head;
    }
  }

  /** What stripping keeps first, and the text it goes on with, with white space behind it or not. */
  lemma FirstPart(lineStart: bool, s: string, w: char) returns (front: string, rest: string, inner: bool)
    requires s != [] && IsSpace(w) && !(lineStart && BareMarker(s))
    ensures |rest| < |s|
    ensures StripMarkers(lineStart, s) == front + StripMarkers(inner, rest)
    ensures StripMarkers(lineStart, s + [w]) == front + StripMarkers(inner, rest + [w])
    ensures inner ==> front != [] && IsSpace(front[|front| - 1])
    ensures front == [] ==> !inner
    ensures EndsInMarker(lineStart, s) <==> EndsInMarker(inner, rest)
  {
    MarkerMore(s, w);
    if lineStart && Marker(s) > 0 {
      var l, e := LeadRun(s), LeadRun(s) + Marker(s);
      EndsPastMarker(s, e);
      front, rest, inner := s[..l], s[e..], false;
      DropJoin(s, [w], l);
      DropJoin(s, [w], e);
      StripAt(s, l, e);
      StripAt(s + [w], l, e);
    } else {
      front, rest, inner := [s[0]], s[1..], s[0] == '\n';
      DropJoin(s, [w], 1);
      StripOne(lineStart, s);
      StripOne(lineStart, s + [w]);
    }
  }

  /** A bare marker, alone in its lines, at the end of the text. */
  predicate EndsInMarker(lineStart: bool, s: string)
    decreases |s|
  {
    s != [] && ((lineStart && BareMarker(s)) || EndsInMarker(s[0] == '\n', s[1..]))
  }

  /** Whether the character before position `k` ends a line; `lineStart` is the answer for 0. */
  predicate StartsLine(lineStart: bool, s: string, k: nat)
    requires k <= |s|
  {
    if k == 0 then lineStart else s[k - 1] == '\n'
  }

  /** It can be looked for from any place before which there is none. */
  lemma {:induction false} EndsLater(lineStart: bool, s: string, k: nat)
    requires k <= |s| && forall i | 0 <= i < k && StartsLine(lineStart, s, i) :: !BareMarker(s[i..])
    ensures EndsInMarker(lineStart, s) <==> EndsInMarker(StartsLine(lineStart, s, k), s[k..])
    decreases |s|
  {
    if k == 0 {
      assert s[0..] == s;
    } else {
      assert s[0..] == s;
      forall i | 0 <= i < k - 1 && StartsLine(s[0] == '\n', s[1..], i) ensures !BareMarker(s[1..][i..]) {
        DropDrop(s, 1, i);
        assert StartsLine(lineStart, s, i + 1);
      }
      EndsLater(s[0] == '\n', s[1..], k - 1);
      DropDrop(s, 1, k - 1);
    }
  }

  /** A marker is no bare one, nor is any of its lines. */
  lemma EndsPastMarker(s: string, e: nat)
    requires Marker(s) > 0 && e == LeadRun(s) + Marker(s)
    ensures EndsInMarker(true, s) <==> EndsInMarker(false, s[e..])
  {
    MarkerInLine(s);
    forall i | 0 <= i < e && StartsLine(true, s, i) ensures !BareMarker(s[i..]) {
      if i <= LeadRun(s) {
        LeadDrop(s, i);
        MarkerNotBare(s[i..]);
      }
    }
    EndsLater(true, s, e);
  }

  lemma MarkerInLine(s: string)
    requires Marker(s) > 0
    ensures forall i | LeadRun(s) <= i < LeadRun(s) + Marker(s) :: s[i] != '\n'
  {
    var l, e := LeadRun(s), LeadRun(s) + Marker(s) - 1;
    MarkerDigits(s);
    NumberIs(s, l, e);
    assert forall i | l <= i < e :: s[i] == MarkerNumber(s)[i - l];
  }

  lemma MarkerNotBare(s: string)
    requires Marker(s) > 0
    ensures !BareMarker(s)
  {
  }

  lemma OnlyWhite(lineStart: bool, w: char)
    requires IsSpace(w)
    ensures StripMarkers(lineStart, [w]) == [w]
  {
    assert !IsDigit(w);
    NoDigitsStrip(lineStart, [w]);
  }

  /** The same with more text in front. */
  lemma EndsBehind(front: string, a: string, b: string, w: char, bare: bool, head: string, d: string, p: char, lineStart: bool, inner: bool)
    requires !bare ==> b == a + [w]
    requires bare ==> EndsBare(inner, a, head, d, p) && b == head + [w]
    requires inner ==> front != [] && IsSpace(front[|front| - 1])
    requires front == [] ==> head != []  || !bare
    ensures !bare ==> front + b == (front + a) + [w]
    ensures bare ==> EndsBare(lineStart, front + a, front + head, d, p) && front + b == (front + head) + [w]
  {
    Assoc(front, a, [w]);
    Assoc(front, head, [w]);
    Assoc(front, head, d + [p]);
  }

  lemma BareParts(s: string, w: char) returns (head: string, d: string, p: char)
    requires IsSpace(w) && BareMarker(s) && Marker(s) == 0
    ensures EndsBare(true, StripMarkers(true, s), head, d, p) && StripMarkers(true, s + [w]) == head + [w]
  {
    var l, e := LeadRun(s), |s| - 1;
    head, d, p := s[..l], s[l..e], s[e];
    MarkerMore(s, w);
    BareShape(s, l, e);
    BareAlone(s, l, e);
    NoMarkers(true, s);
    DropJoin(s, [w], l);
    TakeDrop(s, [w]);
    StripAt(s + [w], l, |s|);
    OnlyWhite(false, w);
  }

  lemma BareShape(s: string, l: nat, e: nat)
    requires BareMarker(s) && l == LeadRun(s) && e + 1 == |s|
    ensures l < e && AllDigits(s[l..e]) && (s[e] == '.' || s[e] == ')') && s == s[..l] + (s[l..e] + [s[e]])
    ensures forall i | 0 <= i < l :: IsSpace(s[i]) || s[i] == '#'
  {
    LeadKinds(s);
    DigitRunDigits(s[l..]);
    MidSlice(s, l, e);
  }

  lemma BareAlone(s: string, l: nat, e: nat)
    requires l <= e == |s| - 1 && (forall i | 0 <= i < l :: IsSpace(s[i]) || s[i] == '#') && AllDigits(s[l..e])
    ensures forall i | 0 <= i < |s| - 1 :: s[i] != '.' && s[i] != ')'
  {
    assert forall i | l <= i < e :: s[i] == s[l..e][i - l];
    assert !IsSpace('.') && !IsSpace(')');
  }

  // ---------------------------------------------------------------- the start of a cell is no line start

  /** A marker's lead, one character shorter. */
  lemma LeadTail(s: string)
    requires Marker(s) > 0 && LeadRun(s) > 0
    ensures LeadRun(s[1..]) == LeadRun(s) - 1
  {
    var a := WhiteRun(s);
    var t := s[a..];
    var u := t[HashRun(t)..];
    if a > 0 {
      DropDrop(s, 1, a - 1);
      LeadIs(s, t, u);
      LeadIs(s[1..], t, u);
    } else {
      assert s[0..] == s;
      LeadTailHash(s, HashRun(s), s[1..]);
    }
  }

  lemma LeadTailHash(s: string, h: nat, t: string)
    requires Marker(s) > 0 && WhiteRun(s) == 0 && h == HashRun(s) > 0 && t == s[1..]
    ensures LeadRun(t) == LeadRun(s) - 1
  {
    assert s[0..] == s && t[0..] == t && !IsSpace('#') && t[h - 1..] == s[h..];
    LeadIs(s, s, s[h..]);
    if h > 1 {
      LeadIs(t, t, s[h..]);
    } else {
      LeadDigit(s);
      assert s[LeadRun(s)] == t[WhiteRun(t)];
      LeadIs(t, t[WhiteRun(t)..], t[WhiteRun(t)..]);
    }
  }

  lemma LeadDigit(s: string)
    requires Marker(s) > 0
    ensures LeadRun(s) < |s| && IsDigit(s[LeadRun(s)])
  {
    var l := LeadRun(s);
    DigitRunDigits(s[l..]);
    assert s[l..][..DigitRun(s[l..])][0] == s[l];
  }

  lemma MarkerTail(s: string)
    requires Marker(s) > 0 && LeadRun(s) > 0
    ensures LeadRun(s[1..]) == LeadRun(s) - 1 && Marker(s[1..]) == Marker(s)
  {
    LeadTail(s);
    DropDrop(s, 1, LeadRun(s) - 1);
    MarkerLater(s, s[1..], LeadRun(s), s[LeadRun(s)..]);
  }

  /** A point or parenthesis, and white space behind it. */
  predicate Punctuated(s: string, e: nat) {
    e + 1 < |s| && (s[e] == '.' || s[e] == ')') && IsSpace(s[e + 1])
  }

  lemma MarkerByParts(s: string, r: string)
    requires r == s[LeadRun(s)..]
    ensures Marker(s) == if DigitRun(r) > 0 && Punctuated(s, LeadRun(s) + DigitRun(r)) then DigitRun(r) + 1 else 0
  {
  }

  lemma MarkerLater(s: string, t: string, l: nat, r: string)
    requires s != [] && t == s[1..] && 0 < l == LeadRun(s) == LeadRun(t) + 1 && r == s[l..] == t[l - 1..]
    ensures Marker(t) == Marker(s)
  {
    MarkerByParts(s, r);
    MarkerByParts(t, r);
    PunctuatedLater(s, t, l + DigitRun(r));
  }

  lemma PunctuatedLater(s: string, t: string, e: nat)
    requires s != [] && t == s[1..] && 0 < e
    ensures Punctuated(t, e - 1) <==> Punctuated(s, e)
  {
  }

  lemma {:induction false} LeadDrop(s: string, k: nat)
    requires Marker(s) > 0 && k <= LeadRun(s)
    ensures LeadRun(s[k..]) == LeadRun(s) - k && Marker(s[k..]) == Marker(s)
  {
    if k == 0 {
      assert s[0..] == s;
    } else {
      MarkerTail(s);
      LeadDrop(s[1..], k - 1);
      DropDrop(s, 1, k - 1);
    }
  }

  lemma {:induction false} StripCopy(u: string, v: string)
    requires '\n' !in u
    ensures StripMarkers(false, u + v) == u + StripMarkers(false, v)
  {
    if u == [] {
      assert u + v == v;
    } else {
      assert u == [u[0]] + u[1..] && u + v == [u[0]] + (u[1..] + v);
      StripCons(false, u[0], u[1..] + v);
      StripCopy(u[1..], v);
      Assoc([u[0]], u[1..], StripMarkers(false, v));
    }
  }

  lemma {:induction false} BreakAt(s: string) returns (u: string, v: string)
    requires '\n' in s
    ensures s == u + (['\n'] + v) && '\n' !in u
  {
    if s[0] == '\n' {
      u, v := [], s[1..];
      assert [] + (['\n'] + v) == ['\n'] + v;
      HeadTail(s, 0);
    } else {
      u, v := BreakAt(s[1..]);
      HeadTail(s, 0);
      Assoc([s[0]], u, ['\n'] + v);
      u := [s[0]] + u;
    }
  }

  /** A marker behind a line end in its own lead is stripped wherever the text stands. */
  lemma StripInLead(s: string)
    requires Marker(s) > 0 && '\n' in s[..LeadRun(s)]
    ensures StripMarkers(false, s) == StripMarkers(true, s)
  {
    var l, e := LeadRun(s), LeadRun(s) + Marker(s);
    var u, v := BreakAt(s[..l]);
    LeadDrop(s, |u| + 1);
    StripLaterLine(s, l, e, u, v, s[|u| + 1..]);
    StripAt(s, l, e);
    StripFromBreak(s, l, u, v, s[|u| + 1..], s[e..]);
  }

  lemma StripLaterLine(s: string, l: nat, e: nat, u: string, v: string, z: string)
    requires l < e <= |s| && s[..l] == u + (['\n'] + v) && z == s[|u| + 1..]
    requires LeadRun(z) == l - |u| - 1 && Marker(z) == e - l
    ensures s == u + (['\n'] + z) && StripMarkers(true, z) == v + StripMarkers(false, s[e..])
  {
    LeadApart(s, l, e, u, v);
    StripBehindBreak(z, l - |u| - 1, e - |u| - 1, v, s[e..]);
  }

  lemma StripFromBreak(s: string, l: nat, u: string, v: string, z: string, rest: string)
    requires l <= |s| && s[..l] == u + (['\n'] + v) && s == u + (['\n'] + z) && '\n' !in u
    requires StripMarkers(true, s) == s[..l] + StripMarkers(false, rest)
    requires StripMarkers(true, z) == v + StripMarkers(false, rest)
    ensures StripMarkers(false, s) == StripMarkers(true, s)
  {
    StripAfterLine(s, u, z);
    LeadJoin(s, l, u, v, StripMarkers(false, rest));
  }

  lemma StripBehindBreak(z: string, l: nat, e: nat, v: string, rest: string)
    requires l == LeadRun(z) && e == l + Marker(z) && l < e <= |z| && z[..l] == v && z[e..] == rest
    ensures StripMarkers(true, z) == v + StripMarkers(false, rest)
  {
    StripAt(z, l, e);
  }

  /** From the first line end on, it does not matter whether a text stands at the start of a line. */
  lemma StripAfterLine(s: string, u: string, z: string)
    requires s == u + (['\n'] + z) && '\n' !in u
    ensures StripMarkers(false, s) == u + (['\n'] + StripMarkers(true, z))
  {
    StripCopy(u, ['\n'] + z);
    StripCons(false, '\n', z);
  }

  lemma LeadApart(s: string, l: nat, e: nat, u: string, v: string)
    requires l <= e <= |s| && s[..l] == u + (['\n'] + v)
    ensures s == u + (['\n'] + s[|u| + 1..]) && s[|u| + 1..][..l - |u| - 1] == v && s[|u| + 1..][e - |u| - 1..] == s[e..]
  {
    SplitAt(s, l);
    assert s == u + (['\n'] + (v + s[l..]));
  }

  lemma LeadJoin(s: string, l: nat, u: string, v: string, rest: string)
    requires l <= |s| && s[..l] == u + (['\n'] + v)
    ensures s[..l] + rest == u + (['\n'] + (v + rest))
  {
  }

  lemma StripUnmarkedSame(s: string)
    requires Marker(s) == 0
    ensures StripMarkers(false, s) == StripMarkers(true, s)
  {
  }

  // ---------------------------------------------------------------- what is behind pipes stays

  lemma TailOfLocal(word: char -> bool, u: string, c: char, v: string)
    requires Neutral(word, c)
    ensures TailOf(word, u + ([c] + v)) == TailOf(word, u)
  {
    MatchLocal(word, u, c, v);
    DigitRunLocal(u, c, v);
    if Match(word, u).Some? {
      var n, k := DigitRun(u), Match(word, u).value;
      assert n < k ==> (u + ([c] + v))[n] == u[n] && (u + ([c] + v))[n + 1..k] == u[n + 1..k];
    }
  }

  lemma TailOfStripped(word: char -> bool, s: string)
    requires WordClass(word)
    ensures TailOf(word, StripMarkers(false, s)) == TailOf(word, s)
  {
    if '\n' in s {
      var u, v := BreakAt(s);
      SeparatorsNeutral(word);
      StripCopy(u, ['\n'] + v);
      StripCons(false, '\n', v);
      TailOfLocal(word, u, '\n', v);
      TailOfLocal(word, u, '\n', StripMarkers(true, v));
    } else {
      StripInsideLine(s);
    }
  }

  /** Stripping keeps a first part and goes on behind the part that it stands for. */
  lemma StripFirst(lineStart: bool, s: string) returns (l: nat, e: nat, inner: bool)
    requires s != []
    ensures l <= e <= |s| && 0 < e && StripMarkers(lineStart, s) == s[..l] + StripMarkers(inner, s[e..])
    ensures '|' !in s[..e] || (l == e == 1 && !inner && s[0] == '|')
  {
    if lineStart && Marker(s) > 0 {
      l, e, inner := LeadRun(s), LeadRun(s) + Marker(s), false;
      StripAt(s, l, e);
      MarkerHasNoPipe(s);
    } else {
      l, e, inner := 1, 1, s[0] == '\n';
      StripOne(lineStart, s);
      assert s[..1] == [s[0]];
    }
  }

  /** Stripping markers changes nothing directly behind a pipe. */
  lemma {:induction false} TailsStripped(word: char -> bool, lineStart: bool, s: string, allowed: set<string>)
    requires WordClass(word)
    ensures TailsIn(word, StripMarkers(lineStart, s), allowed) <==> TailsIn(word, s, allowed)
    decreases |s|
  {
    if s != [] {
      var l, e, inner := StripFirst(lineStart, s);
      TailsStripped(word, inner, s[e..], allowed);
      if '|' !in s[..e] {
        TailsSkip(word, s, e, allowed);
        assert s[..e][..l] == s[..l];
        TailsAfter(word, s[..l], StripMarkers(inner, s[e..]), allowed);
      } else {
        TailOfStripped(word, s[1..]);
        assert s == s[..1] + s[1..] && s[..1] == [s[0]];
        TailsOne(word, s[0], s[1..], StripMarkers(false, s[1..]), allowed);
      }
    }
  }

  lemma TailsOne(word: char -> bool, c: char, s: string, t: string, allowed: set<string>)
    requires c == '|' ==> TailOf(word, t) == TailOf(word, s)
    requires TailsIn(word, t, allowed) <==> TailsIn(word, s, allowed)
    ensures TailsIn(word, [c] + t, allowed) <==> TailsIn(word, [c] + s, allowed)
  {
    TailsCons(word, [c] + s, allowed);
    TailsCons(word, [c] + t, allowed);
    assert ([c] + s)[1..] == s && ([c] + t)[1..] == t;
  }

  lemma TailsAfter(word: char -> bool, head: string, s: string, allowed: set<string>)
    requires '|' !in head
    ensures TailsIn(word, head + s, allowed) <==> TailsIn(word, s, allowed)
  {
    TakeDrop(head, s);
    TailsSkip(word, head + s, |head|, allowed);
  }

  lemma MarkerHasNoPipe(s: string)
    requires Marker(s) > 0
    ensures '|' !in s[..LeadRun(s) + Marker(s)]
  {
    var l, e := LeadRun(s), LeadRun(s) + Marker(s);
    LeadKinds(s);
    MarkerDigits(s);
    assert !IsSpace('|');
    forall i | 0 <= i < e ensures s[..e][i] != '|' {
      if l <= i < e - 1 {
        assert s[i] == MarkerNumber(s)[i - l];
      }
    }
  }

  lemma {:induction false} TailsMore(word: char -> bool, s: string, w: char, allowed: set<string>)
    requires WordClass(word) && IsSpace(w)
    ensures TailsIn(word, s + [w], allowed) <==> TailsIn(word, s, allowed)
  {
    SpaceNeutral(word, w);
    if s == [] {
      assert s + [w] == [w];
      assert w != '|';
    } else {
      assert (s + [w])[1..] == s[1..] + [w];
      TailsCons(word, s, allowed);
      TailsCons(word, s + [w], allowed);
      TailOfLocal(word, s[1..], w, []);
      assert s[1..] + ([w] + []) == s[1..] + [w];
      TailsMore(word, s[1..], w, allowed);
    }
  }

  lemma SpaceNeutral(word: char -> bool, w: char)
    requires WordClass(word) && (IsSpace(w) || w == '#')
    ensures Neutral(word, w) && w != '|'
  {
  }

  // ---------------------------------------------------------------- numbers and white space behind

  /** With white space behind it, text shows what it shows without, or all of that but a bare marker's
      number at its end. */
  lemma BareShown(word: char -> bool, text: string, head: string, d: string, p: char, w: char)
    requires WordClass(word) && IsSpace(w) && EndsBare(false, text, head, d, p)
    ensures Scan(word, None, text) == Scan(word, None, head + [w]) + [d]
  {
    var n := |head| - 1;
    SpaceNeutral(word, head[n]);
    SpaceNeutral(word, w);
    ScanEnd(word, head, w);
    ScanEnd(word, head[..n], head[n]);
    ScanCut(word, None, head[..n], head[n], d + [p]);
    LastApart(head, n, d + [p]);
    BareNumber(word, d, p);
  }

  lemma LastApart(head: string, n: nat, more: string)
    requires n + 1 == |head|
    ensures head[..n] + [head[n]] == head && head[..n] + ([head[n]] + more) == head + more
  {
  }

  /** A neutral character at the end shows nothing. */
  lemma ScanEnd(word: char -> bool, s: string, w: char)
    requires Neutral(word, w)
    ensures Scan(word, None, s + [w]) == Scan(word, None, s)
  {
    ScanCut(word, None, s, w, []);
    assert s + ([w] + []) == s + [w];
    assert Scan(word, None, s) + [] == Scan(word, None, s);
  }

  /** Text, a line end and more text: both texts' numbers, but that of a bare marker at the end of the
      first. */
  lemma TwoTexts(word: char -> bool, a: string, b: string)
    requires WordClass(word)
    ensures EndsInMarker(true, a) ==>
              Extract(word, a) != [] && Extract(word, a + (['\n'] + b)) == Extract(word, a)[..|Extract(word, a)| - 1] + Extract(word, b)
    ensures !EndsInMarker(true, a) ==> Extract(word, a + (['\n'] + b)) == Extract(word, a) + Extract(word, b)
  {
    var bare, head, d, p := StripMore(true, a, '\n');
    StripBreak(true, a, b);
    SeparatorsNeutral(word);
    var first := StripMarkers(true, a + ['\n']);
    if bare {
      BareEnd(word, StripMarkers(true, a), head, d, p, '\n');
      Assoc(head, ['\n'], StripMarkers(true, b));
      ScanCut(word, None, head, '\n', StripMarkers(true, b));
      ScanEnd(word, head, '\n');
      TakeDrop(Scan(word, None, head), [d]);
    } else {
      Assoc(StripMarkers(true, a), ['\n'], StripMarkers(true, b));
      ScanCut(word, None, StripMarkers(true, a), '\n', StripMarkers(true, b));
    }
  }

  lemma BareEnd(word: char -> bool, text: string, head: string, d: string, p: char, w: char)
    requires WordClass(word) && IsSpace(w) && EndsBare(true, text, head, d, p)
    ensures Scan(word, None, text) == Scan(word, None, head) + [d]
  {
    if head == [] {
      BareNumber(word, d, p);
      assert [] + (d + [p]) == d + [p];
    } else {
      BareShown(word, text, head, d, p, w);
      SpaceNeutral(word, w);
      ScanEnd(word, head, w);
    }
  }

  /** A marker of a text is a marker whatever follows the text. */
  lemma MarkerJoin(x: string, z: string)
    requires Marker(x) > 0
    ensures LeadRun(x + z) == LeadRun(x) && Marker(x + z) == Marker(x) && LeadRun(x) + Marker(x) < |x|
  {
    var l := LeadRun(x);
    LeadRunMore(x, z);
    DropJoin(x, z, l);
    DigitRunInside(x[l..], z);
    MarkerKept(x, x + z, l, l + DigitRun(x[l..]));
  }

  lemma DigitRunInside(s: string, z: string)
    requires DigitRun(s) < |s|
    ensures DigitRun(s + z) == DigitRun(s)
  {
    var n := DigitRun(s);
    DigitRunDigits(s);
    SplitAt(s, n);
    Assoc(s[..n], s[n..], z);
    DigitsOnly(s[..n], s[n..] + z);
  }

  lemma MarkerKept(x: string, y: string, l: nat, e: nat)
    requires Marker(x) > 0 && x <= y && l == LeadRun(x) == LeadRun(y) && e == l + DigitRun(x[l..]) == l + DigitRun(y[l..])
    ensures Marker(y) == Marker(x)
  {
    assert forall i | 0 <= i < |x| :: x[i] == y[i];
  }

  /** A marker that needs what follows a line end has the line end in its lead. */
  lemma MarkerAcross(a: string, z: string)
    requires Marker(a + ['\n']) == 0 && Marker(a + (['\n'] + z)) > 0
    ensures '\n' in (a + (['\n'] + z))[..LeadRun(a + (['\n'] + z))]
  {
    var x, y := a + ['\n'], a + (['\n'] + z);
    assert y == x + z;
    var l := LeadRun(y);
    if l < |x| {
      MarkerInside(a, x, y, l, l + Marker(y) - 1);
    } else {
      assert y[..l][|a|] == '\n';
    }
  }

  lemma MarkerInside(a: string, x: string, y: string, l: nat, e: nat)
    requires x == a + ['\n'] && x <= y && Marker(y) > 0 && l == LeadRun(y) < |x| && e + 1 == l + Marker(y)
    ensures Marker(x) > 0
  {
    MarkerDigits(y);
    NumberIs(y, l, e);
    BeforeBreak(a, x, y, l, e, MarkerNumber(y));
    LeadNoDigit(x, l);
    SplitAt(y, |x|);
    assert y[..|x|] == x;
    LeadRunMore(x, y[|x|..]);
    MidSplit(x, y, l, e);
    DigitsOnly(MarkerNumber(y), x[e..]);
    MarkerIs(x, l, e);
  }

  lemma MarkerIs(x: string, l: nat, e: nat)
    requires l == LeadRun(x) && l < e && e + 1 < |x| && DigitRun(x[l..]) == e - l
    requires (x[e] == '.' || x[e] == ')') && IsSpace(x[e + 1])
    ensures Marker(x) == e - l + 1
  {
  }

  /** What a marker consists of lies before the line end. */
  lemma BeforeBreak(a: string, x: string, y: string, l: nat, e: nat, d: string)
    requires x == a + ['\n'] && x <= y && l < |x| && l < e && e + 1 < |y| && d == y[l..e] && AllDigits(d)
    requires (y[e] == '.' || y[e] == ')') && IsSpace(y[e + 1])
    ensures e < |a| && x[e] == y[e] && x[e + 1] == y[e + 1] && IsDigit(x[l])
  {
    assert forall i | 0 <= i < |x| :: x[i] == y[i];
    assert forall i | l <= i < e :: y[i] == d[i - l];
    assert x[|a|] == '\n';
  }

  lemma LeadNoDigit(x: string, l: nat)
    requires l < |x| && IsDigit(x[l])
    ensures LeadRun(x) <= l
  {
    LeadKinds(x);
    DigitNoSpace(x[l]);
  }

  lemma DigitNoSpace(c: char)
    requires IsDigit(c)
    ensures !IsSpace(c) && c != '#'
  {
  }

  lemma MidSplit(x: string, y: string, l: nat, e: nat)
    requires x <= y && l <= e <= |x|
    ensures x[l..] == y[l..e] + x[e..]
  {
    assert forall i | 0 <= i < |x| :: x[i] == y[i];
  }

  /** A line end, and with it the stripping of markers, cuts a text in two. */
  lemma {:induction false} StripBreak(lineStart: bool, a: string, b: string)
    ensures StripMarkers(lineStart, a + (['\n'] + b)) == StripMarkers(lineStart, a + ['\n']) + StripMarkers(true, b)
    decreases |a|
  {
    var x, y := a + ['\n'], a + (['\n'] + b);
    if a == [] {
      assert x == ['\n'] && y == ['\n'] + b;
      OnlyWhite(lineStart, '\n');
      BreakFirst(lineStart, b);
    } else if lineStart && Marker(x) > 0 {
      assert y == x + b;
      MarkerJoin(x, b);
      StripBreak(false, a[LeadRun(x) + Marker(x)..], b);
      StripBreakMarked(a, b, LeadRun(x), LeadRun(x) + Marker(x));
    } else {
      StripBreak(a[0] == '\n', a[1..], b);
      BreakUnmarked(lineStart, a, b);
      StripOne(false, x);
      StripOne(false, y);
      DropJoin(a, ['\n'], 1);
      DropJoin(a, ['\n'] + b, 1);
      Assoc([a[0]], StripMarkers(a[0] == '\n', a[1..] + ['\n']), StripMarkers(true, b));
    }
  }

  lemma BreakFirst(lineStart: bool, b: string)
    ensures StripMarkers(lineStart, ['\n'] + b) == ['\n'] + StripMarkers(true, b)
  {
    if lineStart {
      StripAfterBreak(['\n'] + b, b);
    } else {
      StripCons(false, '\n', b);
    }
  }

  lemma BreakUnmarked(lineStart: bool, a: string, b: string)
    requires lineStart ==> Marker(a + ['\n']) == 0
    ensures StripMarkers(lineStart, a + ['\n']) == StripMarkers(false, a + ['\n'])
    ensures StripMarkers(lineStart, a + (['\n'] + b)) == StripMarkers(false, a + (['\n'] + b))
  {
    if lineStart {
      StripUnmarkedSame(a + ['\n']);
      if Marker(a + (['\n'] + b)) > 0 {
        MarkerAcross(a, b);
        StripInLead(a + (['\n'] + b));
      } else {
        StripUnmarkedSame(a + (['\n'] + b));
      }
    }
  }

  lemma StripBreakMarked(a: string, b: string, l: nat, e: nat)
    requires l < e <= |a| && l == LeadRun(a + ['\n']) == LeadRun(a + (['\n'] + b))
    requires e == l + Marker(a + ['\n']) == l + Marker(a + (['\n'] + b))
    requires StripMarkers(false, a[e..] + (['\n'] + b)) == StripMarkers(false, a[e..] + ['\n']) + StripMarkers(true, b)
    ensures StripMarkers(true, a + (['\n'] + b)) == StripMarkers(true, a + ['\n']) + StripMarkers(true, b)
  {
    DropJoin(a, ['\n'], l);
    DropJoin(a, ['\n'], e);
    DropJoin(a, ['\n'] + b, l);
    DropJoin(a, ['\n'] + b, e);
    StripAt(a + ['\n'], l, e);
    StripAt(a + (['\n'] + b), l, e);
    Assoc(a[..l], StripMarkers(false, a[e..] + ['\n']), StripMarkers(true, b));
  }

  lemma BareNumber(word: char -> bool, d: string, p: char)
    requires WordClass(word) && d != [] && AllDigits(d) && (p == '.' || p == ')')
    ensures Scan(word, None, d + [p]) == [d]
  {
    var s := d + ([p] + []);
    assert s == d + [p];
    DigitRunLocal(d, p, []);
    DigitRunWhole(d);
    assert s[|d|..] == [p] && s[..|d|] == d;
    assert [p][1..] == [];
    assert Finish(word, [p]) == Some(0) && GroupRun([p]) == 0;
    ScanStep(word, None, s);
    ScanStep(word, Some(d[|d| - 1]), [p]);
  }

  lemma MoreAllowed(word: char -> bool, s: string, w: char, allowed: set<string>)
    requires WordClass(word) && IsSpace(w) && AllIn(Scan(word, None, StripMarkers(false, s)), allowed)
    ensures AllIn(Scan(word, None, StripMarkers(false, s + [w])), allowed)
  {
    var text := StripMarkers(false, s);
    var bare, head, d, p := StripMore(false, s, w);
    SpaceNeutral(word, w);
    if bare {
      BareShown(word, text, head, d, p, w);
      AllInConcat(Scan(word, None, head + [w]), [d], allowed);
    } else {
      ScanEnd(word, text, w);
    }
  }

  // ---------------------------------------------------------------- the cell

  /** No list marker at the start, or one behind a line end, or one whose number is in the set. */
  predicate MarkerIn(c: string, allowed: set<string>) {
    Marker(c) == 0 || '\n' in c[..LeadRun(c)] || Normalise(MarkerNumber(c)) in allowed
  }

  lemma CellIsSlashed(word: char -> bool, c: string)
    ensures CellTokens(word, c) == Scan(word, None, NoPipes(StripMarkers(false, c + " ")))
  {
    NoPipesOne(' ');
    NoPipesJoin(c, " ");
    StripSlashes(false, c + " ");
  }

  /** The numbers of a cell that starts with no marker, or with one that is stripped anyway. */
  lemma PlainCellIff(word: char -> bool, c: string, allowed: set<string>)
    requires WordClass(word) && AllIn(Scan(word, None, StripMarkers(false, c)), allowed)
    ensures AllIn(Scan(word, None, NoPipes(StripMarkers(false, c + " "))), allowed) <==> TailsIn(word, c, allowed)
  {
    MoreAllowed(word, c, ' ', allowed);
    SlashedIff(word, None, StripMarkers(false, c + " "), allowed);
    TailsStripped(word, false, c + " ", allowed);
    TailsMore(word, c, ' ', allowed);
  }

  /** The pieces of a text that starts with a marker. */
  lemma MarkedPieces(c: string) returns (lead: string, d: string, p: char, rest: string)
    requires Marker(c) > 0
    ensures lead == c[..LeadRun(c)] && d == MarkerNumber(c) && c == lead + (d + ([p] + rest))
    ensures d != [] && AllDigits(d) && (p == '.' || p == ')') && rest != [] && IsSpace(rest[0])
    ensures StripMarkers(true, c) == lead + StripMarkers(false, rest)
  {
    var l, e := LeadRun(c), LeadRun(c) + Marker(c) - 1;
    MarkerDigits(c);
    NumberIs(c, l, e);
    lead, d, p, rest := c[..l], c[l..e], c[e], c[e + 1..];
    MarkerSplit(c, l, e);
    StripAt(c, l, e + 1);
  }

  lemma NumberIs(c: string, l: nat, e: nat)
    requires Marker(c) > 0 && l == LeadRun(c) && e + 1 == l + Marker(c)
    ensures MarkerNumber(c) == c[l..e]
  {
  }

  lemma MarkedCell(word: char -> bool, c: string, lead: string, d: string, p: char, rest: string)
    requires WordClass(word) && '\n' !in lead && (forall i | 0 <= i < |lead| :: Neutral(word, lead[i]) && lead[i] != '|')
    requires c == lead + (d + ([p] + rest)) && d != [] && AllDigits(d) && (p == '.' || p == ')') && rest != [] && IsSpace(rest[0])
    ensures Scan(word, None, NoPipes(StripMarkers(false, c + " "))) == [d] + Scan(word, None, NoPipes(StripMarkers(false, rest + " ")))
  {
    var u := lead + (d + [p]);
    var after := StripMarkers(false, rest + " ");
    MarkedText(lead, d, p, rest + " ");
    assert c + " " == lead + (d + ([p] + (rest + " ")));
    MarkedPlain(lead, d, p);
    StripCopy(u, rest + " ");
    NoPipesSame(u);
    NoPipesJoin(u, after);
    RestStarts(rest, after);
    MarkedScan(word, lead, d, p, NoPipes(after));
  }

  lemma MarkedText(lead: string, d: string, p: char, rest: string)
    ensures lead + (d + ([p] + rest)) == (lead + (d + [p])) + rest
  {
  }

  lemma MarkedPlain(lead: string, d: string, p: char)
    requires '\n' !in lead && '|' !in lead && AllDigits(d) && (p == '.' || p == ')')
    ensures '\n' !in lead + (d + [p]) && '|' !in lead + (d + [p])
  {
  }

  lemma MarkedScan(word: char -> bool, lead: string, d: string, p: char, after: string)
    requires WordClass(word) && forall i | 0 <= i < |lead| :: Neutral(word, lead[i])
    requires d != [] && AllDigits(d) && (p == '.' || p == ')') && after != [] && IsSpace(after[0])
    ensures Scan(word, None, (lead + (d + [p])) + after) == [d] + Scan(word, None, after)
  {
    MarkedText(lead, d, p, after);
    ScanAfterLead(word, lead, d + ([p] + after));
    MarkerIsScanned(word, d, p, after);
  }

  lemma RestStarts(rest: string, after: string)
    requires rest != [] && IsSpace(rest[0]) && after == StripMarkers(false, rest + " ")
    ensures NoPipes(after) != [] && IsSpace(NoPipes(after)[0])
  {
    StripOne(false, rest + " ");
    NoPipesAt(after);
    assert after[0] == rest[0] && !IsSpace('|');
  }

  /** A cell that starts with a marker which the table shows. */
  lemma MarkedCellIff(word: char -> bool, c: string, allowed: set<string>)
    requires WordClass(word) && AllIn(Extract(word, c), allowed) && Marker(c) > 0 && '\n' !in c[..LeadRun(c)]
    ensures AllIn(CellTokens(word, c), allowed) <==> Normalise(MarkerNumber(c)) in allowed && TailsIn(word, c, allowed)
  {
    var lead, d, p, rest := MarkedPieces(c);
    LeadPlain(word, c);
    MarkedPartsIff(word, c, lead, d, p, rest, allowed);
  }

  lemma LeadPlain(word: char -> bool, c: string)
    requires WordClass(word)
    ensures forall i | 0 <= i < LeadRun(c) :: Neutral(word, c[i]) && c[i] != '|'
  {
    LeadNeutral(word, c);
    LeadKinds(c);
    assert !IsSpace('|');
  }

  lemma MarkedPartsIff(word: char -> bool, c: string, lead: string, d: string, p: char, rest: string, allowed: set<string>)
    requires WordClass(word) && '\n' !in lead && (forall i | 0 <= i < |lead| :: Neutral(word, lead[i]) && lead[i] != '|')
    requires c == lead + (d + ([p] + rest)) && d != [] && AllDigits(d) && (p == '.' || p == ')') && rest != [] && IsSpace(rest[0])
    requires AllIn(Scan(word, None, lead + StripMarkers(false, rest)), allowed)
    ensures AllIn(CellTokens(word, c), allowed) <==> Normalise(d) in allowed && TailsIn(word, c, allowed)
  {
    CellIsSlashed(word, c);
    MarkedCell(word, c, lead, d, p, rest);
    ScanAfterLead(word, lead, StripMarkers(false, rest));
    RestIff(word, d, rest, allowed);
    MarkedText(lead, d, p, rest);
    MarkedPlain(lead, d, p);
    TailsAfter(word, lead + (d + [p]), rest, allowed);
  }

  lemma RestIff(word: char -> bool, d: string, rest: string, allowed: set<string>)
    requires WordClass(word) && AllIn(Scan(word, None, StripMarkers(false, rest)), allowed)
    ensures AllIn([d] + Scan(word, None, NoPipes(StripMarkers(false, rest + " "))), allowed) <==>
            Normalise(d) in allowed && TailsIn(word, rest, allowed)
  {
    PlainCellIff(word, rest, allowed);
    AllInConcat([d], Scan(word, None, NoPipes(StripMarkers(false, rest + " "))), allowed);
    AllInOne(d, allowed);
  }

  /** A cell of one line without pipes reads as its own text. */
  lemma OneLineCell(word: char -> bool, c: string)
    requires WordClass(word) && '\n' !in c && '|' !in c
    ensures CellTokens(word, c) == Scan(word, None, c)
  {
    CellIsSlashed(word, c);
    StripInsideLine(c + " ");
    NoPipesSame(c + " ");
    SpaceNeutral(word, ' ');
    ScanEnd(word, c, ' ');
  }

  /** Of a text whose numbers are in the set, the printed cell's numbers are exactly if a list marker
      that the table shows is, and what the pipes leave of the numbers behind them. */
  lemma CellShownIff(word: char -> bool, c: string, allowed: set<string>)
    requires WordClass(word) && AllIn(Extract(word, c), allowed)
    ensures AllIn(CellTokens(word, c), allowed) <==> MarkerIn(c, allowed) && TailsIn(word, c, allowed)
  {
    if Marker(c) > 0 && '\n' !in c[..LeadRun(c)] {
      MarkedCellIff(word, c, allowed);
    } else {
      if Marker(c) > 0 {
        StripInLead(c);
      } else {
        StripUnmarkedSame(c);
      }
      CellIsSlashed(word, c);
      PlainCellIff(word, c, allowed);
    }
  }
}
