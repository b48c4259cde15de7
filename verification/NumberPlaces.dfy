/**
 Which numbers a text has (`extract_numbers`), said by places and without the scanner: where a number may
 start and end, and which characters belong to list markers.
 */
module NumberPlaces {
  import opened Basics
  import opened NumberScan

  // ---------------------------------------------------------------- numbers

  function PrevAt(prev: Option<char>, s: string, p: nat): Option<char>
    requires p <= |s|
  {
    if p == 0 then prev else Some(s[p - 1])
  }

  /** The characters behind which no number starts. */
  predicate Glues(word: char -> bool, c: char) {
    word(c) || c == '-' || c == ':' || c == '/' || c == '.'
  }

  /** The pattern matches at place `p`. */
  ghost predicate StartsNumber(word: char -> bool, prev: Option<char>, s: string, p: nat) {
    && p < |s| && (PrevAt(prev, s, p).Some? ==> !Glues(word, PrevAt(prev, s, p).value))
    && exists k: nat :: NumberOf(word, s[p..], k)
  }

  predicate NumberOf(word: char -> bool, s: string, k: nat) {
    0 < k <= |s| && CanMatch(word, s, k)
  }

  ghost predicate LongestOf(word: char -> bool, s: string, k: nat) {
    NumberOf(word, s, k) && forall j: nat :: NumberOf(word, s, j) ==> j <= k
  }

  ghost predicate NoneBetween(word: char -> bool, prev: Option<char>, s: string, from: nat, to: nat) {
    forall q: nat | from <= q < to :: !StartsNumber(word, prev, s, q)
  }

  /** At place `p` stands `t`, the longest number that starts there. */
  ghost predicate NumberAt(word: char -> bool, prev: Option<char>, s: string, p: nat, t: string) {
    p + |t| <= |s| && s[p..p + |t|] == t && StartsNumber(word, prev, s, p) && LongestOf(word, s[p..], |t|)
  }

  /** The numbers from `from` on, at the places `at`: each is the first one from the end of the one before. */
  ghost predicate Found(word: char -> bool, prev: Option<char>, s: string, from: nat, at: seq<nat>, tokens: seq<string>)
    decreases |tokens|
  {
    if at == [] || tokens == [] then at == [] && tokens == [] && NoneBetween(word, prev, s, from, |s|)
    else
      && from <= at[0] && NoneBetween(word, prev, s, from, at[0]) && NumberAt(word, prev, s, at[0], tokens[0])
      && Found(word, prev, s, at[0] + |tokens[0]|, at[1..], tokens[1..])
  }

  ghost predicate NumbersOf(word: char -> bool, prev: Option<char>, s: string, tokens: seq<string>) {
    exists at :: Found(word, prev, s, 0, at, tokens)
  }

  lemma {:induction false} FoundEarlier(word: char -> bool, prev: Option<char>, s: string, from: nat, at: seq<nat>, tokens: seq<string>)
    ensures Found(word, prev, s, from + 1, at, tokens) && !StartsNumber(word, prev, s, from) ==> Found(word, prev, s, from, at, tokens)
  {
    if Found(word, prev, s, from + 1, at, tokens) && !StartsNumber(word, prev, s, from) {
      NoneEarlier(word, prev, s, from, if at == [] then |s| else at[0]);
    }
  }

  lemma {:induction false} NoneEarlier(word: char -> bool, prev: Option<char>, s: string, from: nat, to: nat)
    requires NoneBetween(word, prev, s, from + 1, to) && !StartsNumber(word, prev, s, from)
    ensures NoneBetween(word, prev, s, from, to)
  {
  }

  lemma MatchDecides(word: char -> bool, s: string)
    requires WordClass(word)
    ensures Match(word, s).Some? ==> LongestOf(word, s, Match(word, s).value)
    ensures Match(word, s).None? ==> forall k: nat :: !NumberOf(word, s, k)
  {
    MatchIsLongest(word, s);
  }

  lemma StartsIff(word: char -> bool, prev: Option<char>, s: string, p: nat)
    requires WordClass(word) && p < |s|
    ensures StartsNumber(word, prev, s, p) <==> MayFollow(word, PrevAt(prev, s, p)) && Match(word, s[p..]).Some?
  {
    MatchDecides(word, s[p..]);
  }

  /** What the scanner does at one place. */
  lemma {:induction false} StepAt(word: char -> bool, prev: Option<char>, s: string, from: nat) returns (k: nat, hit: bool)
    requires WordClass(word) && from < |s|
    ensures hit <==> StartsNumber(word, prev, s, from)
    ensures 0 < k <= |s| - from && (if hit then LongestOf(word, s[from..], k) else k == 1)
    ensures Scan(word, PrevAt(prev, s, from), s[from..])
         == (if hit then [s[from..][..k]] else []) + Scan(word, PrevAt(prev, s, from + k), s[from + k..])
  {
    var r := s[from..];
    StartsIff(word, prev, s, from);
    MatchDecides(word, r);
    ScanStep(word, PrevAt(prev, s, from), r);
    hit := MayFollow(word, PrevAt(prev, s, from)) && Match(word, r).Some?;
    k := if hit then Match(word, r).value else 1;
    DropDrop(s, from, k);
    assert PrevAt(prev, s, from + k) == Some(r[k - 1]);
  }

  lemma {:induction false} ScanFinds(word: char -> bool, prev: Option<char>, s: string, from: nat) returns (at: seq<nat>)
    requires WordClass(word) && from <= |s|
    ensures Found(word, prev, s, from, at, Scan(word, PrevAt(prev, s, from), s[from..]))
    decreases |s| - from
  {
    if from == |s| {
      at := [];
    } else {
      var k, hit := StepAt(word, prev, s, from);
      at := ScanFinds(word, prev, s, from + k);
      var rest := Scan(word, PrevAt(prev, s, from + k), s[from + k..]);
      if hit {
        NumberFirst(word, prev, s, from, k, at, rest);
        at := [from] + at;
      } else {
        FoundEarlier(word, prev, s, from, at, rest);
        assert [] + rest == rest;
      }
    }
  }

  lemma {:induction false} NumberFirst(word: char -> bool, prev: Option<char>, s: string, from: nat, k: nat, more: seq<nat>, rest: seq<string>)
    requires from + k <= |s|
    ensures StartsNumber(word, prev, s, from) && LongestOf(word, s[from..], k) && Found(word, prev, s, from + k, more, rest) ==>
            Found(word, prev, s, from, [from] + more, [s[from..][..k]] + rest)
  {
    var t := s[from..][..k];
    assert ([from] + more)[1..] == more && ([t] + rest)[1..] == rest;
    MidSlice(s, from, from + k);
    NumberIsAt(word, prev, s, from, k, t);
  }

  lemma {:induction false} NumberIsAt(word: char -> bool, prev: Option<char>, s: string, p: nat, k: nat, t: string)
    requires p + k <= |s| && t == s[p..p + k]
    ensures |t| == k && (StartsNumber(word, prev, s, p) && LongestOf(word, s[p..], k) ==> NumberAt(word, prev, s, p, t))
  {
  }

  /** There is one such list of numbers only. */
  lemma {:induction false} FoundOnce(word: char -> bool, prev: Option<char>, s: string, from: nat, at: seq<nat>, a: seq<string>, bt: seq<nat>, b: seq<string>)
    requires Found(word, prev, s, from, at, a) && Found(word, prev, s, from, bt, b)
    ensures a == b
    decreases |a|
  {
    if a != [] && b != [] {
      SameNext(word, prev, s, from, at[0], a[0], bt[0], b[0]);
      FoundOnce(word, prev, s, at[0] + |a[0]|, at[1..], a[1..], bt[1..], b[1..]);
      HeadTail(a, 0);
      HeadTail(b, 0);
    } else {
      NoneOrSome(word, prev, s, from, at, a);
      NoneOrSome(word, prev, s, from, bt, b);
    }
  }

  lemma {:induction false} NoneOrSome(word: char -> bool, prev: Option<char>, s: string, from: nat, at: seq<nat>, tokens: seq<string>)
    requires Found(word, prev, s, from, at, tokens)
    ensures tokens == [] <==> NoneBetween(word, prev, s, from, |s|)
  {
    if tokens != [] {
      assert NumberAt(word, prev, s, at[0], tokens[0]);
    }
  }

  lemma SameNext(word: char -> bool, prev: Option<char>, s: string, from: nat, p: nat, t: string, q: nat, u: string)
    requires from <= p && NoneBetween(word, prev, s, from, p) && NumberAt(word, prev, s, p, t)
    requires from <= q && NoneBetween(word, prev, s, from, q) && NumberAt(word, prev, s, q, u)
    ensures p == q && t == u
  {
    assert p == q;
    assert |t| == |u|;
  }

  /** The scanner finds these numbers and no others. */
  lemma ScanIff(word: char -> bool, prev: Option<char>, s: string, tokens: seq<string>)
    requires WordClass(word)
    ensures tokens == Scan(word, prev, s) <==> NumbersOf(word, prev, s, tokens)
  {
    var at := ScanFinds(word, prev, s, 0);
    assert s[0..] == s;
    if NumbersOf(word, prev, s, tokens) {
      var bt :| Found(word, prev, s, 0, bt, tokens);
      FoundOnce(word, prev, s, 0, bt, tokens, at, Scan(word, prev, s));
    }
  }
}
