/**
 Which characters of a text belong to list markers, said by places, and what `extract_numbers` finds: the
 numbers of the text without them.
 */
module ListMarkers {
  import opened Basics
  import opened NumberScan
  import opened NumberPlaces

  // ---------------------------------------------------------------- markers

  predicate Hashes(s: string) {
    forall i | 0 <= i < |s| :: s[i] == '#'
  }

  /** `\s*(?:#+\s*)?`: white space, and perhaps number signs and more white space. */
  predicate LeadParts(s: string, a: nat, h: nat) {
    a + h <= |s| && WhiteOnly(s[..a]) && Hashes(s[a..a + h]) && WhiteOnly(s[a + h..]) && (h == 0 ==> a == |s|)
  }

  predicate Lead(s: string) {
    exists a: nat, h: nat | a <= |s| && h <= |s| :: LeadParts(s, a, h)
  }

  /** `\d+[.)](?=\s)`, `m` characters long. */
  predicate MarkerShape(s: string, m: nat) {
    2 <= m < |s| && AllDigits(s[..m - 1]) && (s[m - 1] == '.' || s[m - 1] == ')') && IsSpace(s[m])
  }

  predicate LineStart(s: string, l: nat) {
    l <= |s| && (l == 0 || s[l - 1] == '\n')
  }

  /** From the line start `l` on, a marker stands at the places from `b` to `e`. */
  predicate MarkerFrom(s: string, l: nat, b: nat, e: nat) {
    l <= b <= e <= |s| && LineStart(s, l) && Lead(s[l..b]) && MarkerShape(s[b..], e - b)
  }

  /** The character belongs to a list marker. */
  ghost predicate InMarker(s: string, i: nat) {
    exists l: nat, b: nat, e: nat :: MarkerFrom(s, l, b, e) && b <= i < e
  }

  /** The text from `from` on without the characters at certain places. */
  ghost function Without(s: string, drop: nat -> bool, from: nat): string
    requires from <= |s|
    decreases |s| - from
  {
    if from == |s| then [] else (if drop(from) then [] else [s[from]]) + Without(s, drop, from + 1)
  }

  ghost function Marked(s: string): nat -> bool {
    (i: nat) => InMarker(s, i)
  }

  /** The text from `from` on without the characters of list markers. */
  ghost function Unmarked(s: string, from: nat): string
    requires from <= |s|
  {
    Without(s, Marked(s), from)
  }

  // ---------------------------------------------------------------- what the hand-written runs find

  lemma {:induction false} WhiteRunIs(s: string)
    ensures WhiteOnly(s[..WhiteRun(s)]) && (WhiteRun(s) < |s| ==> !IsSpace(s[WhiteRun(s)]))
  {
    if s != [] && IsSpace(s[0]) {
      WhiteRunIs(s[1..]);
      assert s[..WhiteRun(s)] == [s[0]] + s[1..][..WhiteRun(s[1..])];
    }
  }

  lemma {:induction false} HashRunIs(s: string)
    ensures Hashes(s[..HashRun(s)]) && (HashRun(s) < |s| ==> s[HashRun(s)] != '#')
  {
    if s != [] && s[0] == '#' {
      HashRunIs(s[1..]);
      assert s[..HashRun(s)] == [s[0]] + s[1..][..HashRun(s[1..])];
    }
  }

  lemma {:induction false} WhiteRunExact(s: string, n: nat)
    requires n <= |s| && WhiteOnly(s[..n]) && (n < |s| ==> !IsSpace(s[n]))
    ensures WhiteRun(s) == n
  {
    WhiteRunIs(s);
  }

  lemma {:induction false} HashRunExact(s: string, n: nat)
    requires n <= |s| && Hashes(s[..n]) && (n < |s| ==> s[n] != '#')
    ensures HashRun(s) == n
  {
    HashRunIs(s);
  }

  lemma {:induction false} DigitRunStops(s: string, n: nat)
    requires n <= |s| && AllDigits(s[..n]) && (n < |s| ==> !IsDigit(s[n]))
    ensures DigitRun(s) == n
  {
    DigitRunDigits(s);
  }

  lemma LeadRunIs(s: string)
    ensures Lead(s[..LeadRun(s)])
  {
    var a := WhiteRun(s);
    var h := HashRun(s[a..]);
    WhiteRunIs(s);
    HashRunIs(s[a..]);
    WhiteRunIs(s[a + h..]);
    LeadSlices(s, a, h, LeadRun(s));
  }

  lemma LeadSlices(s: string, a: nat, h: nat, n: nat)
    requires a + h <= n <= |s| && WhiteOnly(s[..a]) && Hashes(s[a..][..h])
    requires if h == 0 then n == a else WhiteOnly(s[a + h..][..n - a - h])
    ensures Lead(s[..n])
  {
    var t := s[..n];
    assert t[..a] == s[..a] && t[a..a + h] == s[a..][..h] && t[a + h..] == s[a + h..][..n - a - h];
    assert LeadParts(t, a, h);
  }

  /** A lead before a digit is all that is taken. */
  lemma LeadRunExact(s: string, n: nat)
    requires n < |s| && Lead(s[..n]) && IsDigit(s[n])
    ensures LeadRun(s) == n
  {
    var a: nat, h: nat :| a <= n && h <= n && LeadParts(s[..n], a, h);
    if h == 0 {
      WhiteRunExact(s, n);
      HashRunExact(s[n..], 0);
    } else {
      LeadWithHashes(s, n, a, h);
    }
  }

  lemma LeadWithHashes(s: string, n: nat, a: nat, h: nat)
    requires n < |s| && LeadParts(s[..n], a, h) && h > 0 && IsDigit(s[n])
    ensures LeadRun(s) == n
  {
    assert s[..n][..a] == s[..a];
    HashesThere(s, n, a, h);
    WhiteRunExact(s, a);
    HashRunExact(s[a..], h);
    WhiteRunExact(s[a + h..], n - a - h);
  }

  lemma HashesThere(s: string, n: nat, a: nat, h: nat)
    requires n < |s| && LeadParts(s[..n], a, h) && h > 0 && IsDigit(s[n])
    ensures s[a] == '#' && Hashes(s[a..][..h]) && s[a..][h] != '#'
    ensures WhiteOnly(s[a + h..][..n - a - h]) && !IsSpace(s[a + h..][n - a - h])
  {
    var t := s[..n];
    assert t[a..a + h] == s[a..][..h];
    assert t[a + h..] == s[a + h..][..n - a - h];
    assert s[a] == t[a..a + h][0];
    assert a + h < n ==> s[a + h] == t[a + h..][0];
  }

  lemma MarkerIs(s: string)
    requires Marker(s) > 0
    ensures Lead(s[..LeadRun(s)]) && MarkerShape(s[LeadRun(s)..], Marker(s))
  {
    LeadRunIs(s);
    DigitRunDigits(s[LeadRun(s)..]);
  }

  lemma MarkerExact(s: string, n: nat, m: nat)
    requires n < |s| && Lead(s[..n]) && MarkerShape(s[n..], m)
    ensures LeadRun(s) == n && Marker(s) == m
  {
    assert s[n] == s[n..][..m - 1][0];
    LeadRunExact(s, n);
    DigitRunStops(s[n..], m - 1);
  }

  // ---------------------------------------------------------------- markers do not overlap

  lemma MarkerKnown(s: string, l: nat, b: nat, e: nat)
    requires MarkerFrom(s, l, b, e)
    ensures LeadRun(s[l..]) == b - l && Marker(s[l..]) == e - b
  {
    MidSlice(s, l, b);
    DropDrop(s, l, b - l);
    MarkerExact(s[l..], b - l, e - b);
  }

  lemma MarkerFound(s: string, l: nat)
    requires LineStart(s, l) && Marker(s[l..]) > 0
    ensures var b := l + LeadRun(s[l..]); MarkerFrom(s, l, b, b + Marker(s[l..]))
  {
    var n, m := LeadRun(s[l..]), Marker(s[l..]);
    MarkerIs(s[l..]);
    MarkerMoved(s, l, n, m);
  }

  lemma MarkerMoved(s: string, l: nat, n: nat, m: nat)
    requires l + n + m <= |s| && LineStart(s, l)
    ensures Lead(s[l..][..n]) && MarkerShape(s[l..][n..], m) ==> MarkerFrom(s, l, l + n, l + n + m)
  {
    MidSlice(s, l, l + n);
    DropDrop(s, l, n);
  }

  lemma LeadPlain(s: string, i: nat)
    requires Lead(s) && i < |s|
    ensures !IsDigit(s[i])
  {
    var a: nat, h: nat :| a <= |s| && h <= |s| && LeadParts(s, a, h);
    if i < a {
      assert s[i] == s[..a][i];
    } else if i < a + h {
      assert s[i] == s[a..a + h][i - a];
    } else {
      assert s[i] == s[a + h..][i - a - h];
    }
  }

  /** What the characters of a marker and of the text before it on its line are. */
  lemma MarkerChars(s: string, l: nat, b: nat, e: nat, i: nat)
    requires MarkerFrom(s, l, b, e)
    ensures b < |s| && IsDigit(s[b]) && b < e
    ensures l <= i < b ==> !IsDigit(s[i])
    ensures b <= i < e ==> s[i] != '\n'
  {
    assert s[b] == s[b..][..e - b - 1][0];
    if l <= i < b {
      LeadPlain(s[l..b], i - l);
      assert s[l..b][i - l] == s[i];
    } else if b <= i < e - 1 {
      assert s[i] == s[b..][..e - b - 1][i - b];
    } else if i == e - 1 {
      assert s[i] == s[b..][e - b - 1];
    }
  }

  lemma SameMarker(s: string, l: nat, b: nat, e: nat, l2: nat, b2: nat, e2: nat)
    requires MarkerFrom(s, l, b, e) && MarkerFrom(s, l2, b2, e2) && l <= l2 <= b
    ensures b2 == b && e2 == e
  {
    MarkerChars(s, l, b, e, b2);
    MarkerChars(s, l2, b2, e2, b);
    assert b2 == b;
    SameEnd(s[b..], e - b, e2 - b);
  }

  lemma SameEnd(s: string, m: nat, n: nat)
    requires MarkerShape(s, m) && MarkerShape(s, n)
    ensures m == n
  {
    DigitRunStops(s, m - 1);
    DigitRunStops(s, n - 1);
  }

  /** No line starts inside a marker or right behind it. */
  lemma NoLineInside(s: string, l: nat, b: nat, e: nat, l2: nat)
    requires MarkerFrom(s, l, b, e) && b < l2 <= e
    ensures !LineStart(s, l2)
  {
    MarkerChars(s, l, b, e, l2 - 1);
  }

  // ---------------------------------------------------------------- the loop over the text

  /** No marker of an earlier line reaches beyond `from`. */
  ghost predicate Clean(s: string, from: nat) {
    forall l: nat, b: nat, e: nat :: MarkerFrom(s, l, b, e) && l < from ==> e <= from
  }

  lemma CleanAfter(s: string, l: nat, b: nat, e: nat)
    requires Clean(s, l) && MarkerFrom(s, l, b, e)
    ensures Clean(s, e)
  {
    forall l2: nat, b2: nat, e2: nat | MarkerFrom(s, l2, b2, e2) && l2 < e ensures e2 <= e {
      if l <= l2 <= b {
        SameMarker(s, l, b, e, l2, b2, e2);
      } else if b < l2 {
        NoLineInside(s, l, b, e, l2);
      }
    }
  }

  lemma LeadUnmarked(s: string, l: nat, b: nat, e: nat, i: nat)
    requires Clean(s, l) && MarkerFrom(s, l, b, e) && l <= i < b
    ensures !InMarker(s, i)
  {
    forall l2: nat, b2: nat, e2: nat | MarkerFrom(s, l2, b2, e2) && b2 <= i < e2 ensures false {
      SameMarker(s, l, b, e, l2, b2, e2);
    }
  }

  /** Where the scanner sees no marker, there is none that starts on this line. */
  lemma MissedIsClean(s: string, from: nat)
    requires from < |s| && (LineStart(s, from) ==> Marker(s[from..]) == 0)
    ensures Clean(s, from) ==> Clean(s, from + 1) && !InMarker(s, from)
  {
    forall l: nat, b: nat, e: nat | MarkerFrom(s, l, b, e) && l <= from ensures l < from {
      if l == from {
        MarkerKnown(s, l, b, e);
      }
    }
  }

  lemma {:induction false} KeptRun(s: string, drop: nat -> bool, from: nat, to: nat)
    requires from <= to <= |s| && forall i: nat | from <= i < to :: !drop(i)
    ensures Without(s, drop, from) == s[from..to] + Without(s, drop, to)
    decreases |s| - from
  {
    if from == to {
      assert s[from..to] == [];
    } else {
      KeptRun(s, drop, from + 1, to);
      RangeHead(s, from, to);
      Assoc([s[from]], s[from + 1..to], Without(s, drop, to));
    }
  }

  lemma RangeHead(s: string, from: nat, to: nat)
    requires from < to <= |s|
    ensures s[from..to] == [s[from]] + s[from + 1..to]
  {
  }

  lemma {:induction false} DroppedRun(s: string, drop: nat -> bool, from: nat, to: nat)
    requires from <= to <= |s| && forall i: nat | from <= i < to :: drop(i)
    ensures Without(s, drop, from) == Without(s, drop, to)
    decreases |s| - from
  {
    if from < to {
      DroppedRun(s, drop, from + 1, to);
      assert [] + Without(s, drop, from + 1) == Without(s, drop, from + 1);
    }
  }

  lemma {:induction false} AtMarker(s: string, l: nat, b: nat, e: nat)
    requires Clean(s, l) && MarkerFrom(s, l, b, e)
    ensures Unmarked(s, l) == s[l..b] + Unmarked(s, e)
  {
    forall i: nat | l <= i < b ensures !Marked(s)(i) {
      LeadUnmarked(s, l, b, e, i);
    }
    KeptRun(s, Marked(s), l, b);
    DroppedRun(s, Marked(s), b, e);
  }

  /** From this place on, the loop takes out exactly the markers. */
  ghost predicate StripsRight(s: string, from: nat)
    requires from <= |s|
  {
    StripMarkers(LineStart(s, from), s[from..]) == Unmarked(s, from)
  }

  lemma {:induction false} StripIs(s: string, from: nat)
    requires from <= |s| && Clean(s, from)
    ensures StripMarkers(LineStart(s, from), s[from..]) == Unmarked(s, from)
    decreases |s| - from
  {
    if from < |s| {
      if LineStart(s, from) && Marker(s[from..]) > 0 {
        var e := HitStep(s, from);
        StripIs(s, e);
      } else {
        MissStep(s, from);
        StripIs(s, from + 1);
      }
      assert StripsRight(s, from);
    }
  }

  lemma {:induction false} HitStep(s: string, from: nat) returns (e: nat)
    requires from < |s| && LineStart(s, from) && Marker(s[from..]) > 0
    ensures from < e <= |s| && (Clean(s, from) ==> Clean(s, e))
    ensures Clean(s, from) && StripsRight(s, e) ==> StripsRight(s, from)
  {
    var b := from + LeadRun(s[from..]);
    e := b + Marker(s[from..]);
    BehindMarker(s, from, b, e);
    StripHit(s, from);
  }

  lemma {:induction false} BehindMarker(s: string, from: nat, b: nat, e: nat)
    requires from < |s| && LineStart(s, from) && Marker(s[from..]) > 0
    requires b == from + LeadRun(s[from..]) && e == b + Marker(s[from..])
    ensures b < e <= |s| && !LineStart(s, e)
    ensures Clean(s, from) ==> Clean(s, e) && Unmarked(s, from) == s[from..b] + Unmarked(s, e)
  {
    MarkerFound(s, from);
    NoLineInside(s, from, b, e, e);
    if Clean(s, from) {
      CleanAfter(s, from, b, e);
      AtMarker(s, from, b, e);
    }
  }

  lemma {:induction false} StripHit(s: string, from: nat)
    requires from < |s| && Marker(s[from..]) > 0
    ensures var b := from + LeadRun(s[from..]);
            StripMarkers(true, s[from..]) == s[from..b] + StripMarkers(false, s[b + Marker(s[from..])..])
  {
    var r := s[from..];
    DropDrop(s, from, LeadRun(r) + Marker(r));
    MidSlice(s, from, from + LeadRun(r));
  }

  lemma {:induction false} MissStep(s: string, from: nat)
    requires from < |s| && (LineStart(s, from) ==> Marker(s[from..]) == 0)
    ensures Clean(s, from) ==> Clean(s, from + 1)
    ensures Clean(s, from) && StripsRight(s, from + 1) ==> StripsRight(s, from)
  {
    MissedIsClean(s, from);
    UnmarkedMiss(s, from);
    StripMiss(s, from);
  }

  lemma {:induction false} UnmarkedMiss(s: string, from: nat)
    requires from < |s|
    ensures !InMarker(s, from) ==> Unmarked(s, from) == [s[from]] + Unmarked(s, from + 1)
  {
  }

  lemma {:induction false} StripMiss(s: string, from: nat)
    requires from < |s| && (LineStart(s, from) ==> Marker(s[from..]) == 0)
    ensures StripMarkers(LineStart(s, from), s[from..]) == [s[from]] + StripMarkers(LineStart(s, from + 1), s[from + 1..])
  {
    StripUnmarked(LineStart(s, from), s[from..]);
    DropDrop(s, from, 1);
  }

  lemma {:induction false} StripUnmarked(lineStart: bool, r: string)
    requires r != [] && (lineStart ==> Marker(r) == 0)
    ensures StripMarkers(lineStart, r) == [r[0]] + StripMarkers(r[0] == '\n', r[1..])
  {
  }

  /** What `extract_numbers` finds in any text: the numbers of the text without its list markers. */
  lemma ExtractIff(word: char -> bool, text: string, tokens: seq<string>)
    requires WordClass(word)
    ensures tokens == Extract(word, text) <==> NumbersOf(word, None, Unmarked(text, 0), tokens)
  {
    assert text[0..] == text;
    StripIs(text, 0);
    ScanIff(word, None, StripMarkers(true, text), tokens);
  }
}
