/**
 What `attach` and the tables keep, said by places: the findings a table shows, the artifacts and the
 lines of prose a section keeps, each in the order they had.
 */
module KeptInOrder {
  import opened Basics
  import opened Numbers
  import opened Report
  import opened TextLines
  import opened Grounding
  import opened ArtifactBuilder

  // ---------------------------------------------------------------- filters

  predicate Rising(at: seq<nat>) {
    forall i, j | 0 <= i < j < |at| :: at[i] < at[j]
  }

  predicate StandAt<T(==)>(whole: seq<T>, part: seq<T>, at: seq<nat>) {
    |at| == |part| && forall i | 0 <= i < |at| :: at[i] < |whole| && whole[at[i]] == part[i]
  }

  ghost predicate TheseKept<T>(whole: seq<T>, keep: T -> bool, at: seq<nat>) {
    forall k: nat | k < |whole| :: keep(whole[k]) <==> k in at
  }

  /** `part` are the elements of `whole` that pass, in order: those at the places `at`. */
  ghost predicate Filtered<T>(whole: seq<T>, part: seq<T>, keep: T -> bool, at: seq<nat>) {
    Rising(at) && StandAt(whole, part, at) && TheseKept(whole, keep, at)
  }

  function Shifted(at: seq<nat>): (r: seq<nat>)
    ensures |r| == |at| && forall i | 0 <= i < |r| :: r[i] == at[i] + 1
  {
    seq(|at|, i requires 0 <= i < |at| => at[i] + 1)
  }

  function Places<T>(whole: seq<T>, keep: T -> bool): (at: seq<nat>)
  {
    if whole == [] then [] else (if keep(whole[0]) then [0] else []) + Shifted(Places(whole[1..], keep))
  }

  lemma ShiftedHas(at: seq<nat>, k: nat)
    requires k > 0
    ensures k in Shifted(at) <==> k - 1 in at
  {
    if k - 1 in at {
      var i :| 0 <= i < |at| && at[i] == k - 1;
      assert Shifted(at)[i] == k;
    }
  }

  lemma FilteredCons<T>(whole: seq<T>, part: seq<T>, keep: T -> bool, at: seq<nat>)
    requires whole != [] && Filtered(whole[1..], part, keep, at)
    ensures var first := keep(whole[0]);
            Filtered(whole, (if first then [whole[0]] else []) + part, keep, (if first then [0] else []) + Shifted(at))
  {
    StandShifted(whole, part, at);
    KeptShifted(whole, keep, at);
    StandFronted(keep(whole[0]), whole, part, Shifted(at));
  }

  lemma StandFronted<T>(first: bool, whole: seq<T>, part: seq<T>, at: seq<nat>)
    requires whole != [] && Rising(at) && StandAt(whole, part, at) && forall i | 0 <= i < |at| :: at[i] > 0
    ensures Rising((if first then [0] else []) + at)
    ensures StandAt(whole, (if first then [whole[0]] else []) + part, (if first then [0] else []) + at)
  {
    if first {
      StandFirst(whole, part, at);
    } else {
      assert [] + part == part && [] + at == at;
    }
  }

  lemma StandShifted<T>(whole: seq<T>, part: seq<T>, at: seq<nat>)
    requires whole != [] && Rising(at) && StandAt(whole[1..], part, at)
    ensures Rising(Shifted(at)) && StandAt(whole, part, Shifted(at))
  {
    forall i | 0 <= i < |at| ensures whole[at[i] + 1] == part[i] {
      assert whole[1..][at[i]] == part[i];
    }
  }

  lemma StandFirst<T>(whole: seq<T>, part: seq<T>, at: seq<nat>)
    requires whole != [] && Rising(at) && StandAt(whole, part, at) && forall i | 0 <= i < |at| :: at[i] > 0
    ensures Rising([0] + at) && StandAt(whole, [whole[0]] + part, [0] + at)
  {
  }

  lemma KeptShifted<T>(whole: seq<T>, keep: T -> bool, at: seq<nat>)
    requires whole != [] && TheseKept(whole[1..], keep, at)
    ensures TheseKept(whole, keep, (if keep(whole[0]) then [0] else []) + Shifted(at))
  {
    forall k: nat | k < |whole| ensures keep(whole[k]) <==> k in (if keep(whole[0]) then [0] else []) + Shifted(at) {
      if k > 0 {
        ShiftedHas(at, k);
        assert whole[1..][k - 1] == whole[k];
      }
    }
  }

  /** The findings a filter selects, in the order of the request. */
  lemma {:induction false} SelectInOrder(findings: seq<Finding>, keep: Finding -> bool)
    ensures Filtered(findings, Select(findings, keep), keep, Places(findings, keep))
  {
    if findings != [] {
      SelectInOrder(findings[1..], keep);
      FilteredCons(findings, Select(findings[1..], keep), keep, Places(findings[1..], keep));
    }
  }

  /** The artifacts a section keeps, in their order. */
  lemma {:induction false} KeptViewsInOrder(views: seq<View>, keep: View -> bool)
    requires forall v :: keep(v) <==> v.kind != "TABLE" && v.kind != "CHART" && v.kind != "DELTA"
    ensures Filtered(views, Kept(views), keep, Places(views, keep))
  {
    if views != [] {
      KeptViewsInOrder(views[1..], keep);
      FilteredCons(views, Kept(views[1..]), keep, Places(views[1..], keep));
    }
  }

  lemma {:induction false} NonBarsInOrder(lines: seq<string>, keep: string -> bool)
    requires forall l :: keep(l) <==> !IsBar(l)
    ensures Filtered(lines, NonBars(lines), keep, Places(lines, keep))
  {
    if lines != [] {
      NonBarsInOrder(lines[1..], keep);
      FilteredCons(lines, NonBars(lines[1..]), keep, Places(lines[1..], keep));
    }
  }

  // ---------------------------------------------------------------- lines of prose

  /** A line is dropped exactly if its first character that is not white space is a bar. */
  lemma {:induction false} IsBarIff(line: string)
    ensures IsBar(line) <==> exists i: nat :: FirstSolid(line, i) && line[i] == '|'
  {
    if line != [] && IsSpace(line[0]) {
      IsBarIff(line[1..]);
      if i: nat :| FirstSolid(line, i) && line[i] == '|' {
        assert FirstSolid(line[1..], i - 1);
      }
      if i: nat :| FirstSolid(line[1..], i) && line[1..][i] == '|' {
        assert FirstSolid(line, i + 1);
      }
    } else if line != [] {
      assert FirstSolid(line, 0);
    }
  }

  /** Place `i` has the first character that is not white space. */
  predicate FirstSolid(line: string, i: nat) {
    i < |line| && !IsSpace(line[i]) && forall j | 0 <= j < i :: IsSpace(line[j])
  }

  /** What ends a line: one line end, or a carriage return with its line feed; nothing at the end. */
  predicate Ending(e: string) {
    (|e| == 1 && LineEnd(e[0])) || e == "\r\n"
  }

  /** The lines with what ended them; only the last one need not end. */
  function WithEnds(lines: seq<string>, ends: seq<string>): string
    requires |lines| == |ends|
  {
    if lines == [] then "" else lines[0] + (ends[0] + WithEnds(lines[1..], ends[1..]))
  }

  /** Every line but the last ends, and no ending takes only half of a carriage return with its line feed;
      a line that does not end is not empty. */
  ghost predicate Ended(lines: seq<string>, ends: seq<string>)
    decreases |lines|
  {
    && |lines| == |ends|
    && (lines != [] ==>
          && NoLineEnds(lines[0]) && Ended(lines[1..], ends[1..])
          && (Ending(ends[0]) || (|lines| == 1 && ends[0] == "" && lines[0] != ""))
          && (ends[0] == "\r" ==> var rest := WithEnds(lines[1..], ends[1..]); rest == "" || rest[0] != '\n'))
  }

  /** The lines of a text, with their endings, are the text. */
  lemma {:induction false} SplitRejoins(s: string) returns (ends: seq<string>)
    ensures Ended(SplitLines(s), ends) && WithEnds(SplitLines(s), ends) == s
    decreases |s|
  {
    if s == [] {
      ends := [];
    } else if LineEnd(s[0]) {
      var k := if s[0] == '\r' && |s| > 1 && s[1] == '\n' then 2 else 1;
      var more := SplitRejoins(s[k..]);
      ends := [s[..k]] + more;
      EndedCons("", s[..k], SplitLines(s[k..]), more);
      SplitAt(s, k);
      assert "" + (s[..k] + s[k..]) == s;
    } else {
      var more := SplitRejoins(s[1..]);
      var lines := SplitLines(s[1..]);
      HeadTail(s, 0);
      if lines == [] {
        ends := [""];
        assert s == [s[0]] + ("" + "");
      } else {
        ends := more;
        EndedLonger(s[0], lines, more);
      }
    }
  }

  lemma EndedCons(line: string, e: string, lines: seq<string>, ends: seq<string>)
    requires NoLineEnds(line) && Ending(e) && Ended(lines, ends)
    requires e == "\r" ==> var rest := WithEnds(lines, ends); rest == "" || rest[0] != '\n'
    ensures Ended([line] + lines, [e] + ends) && WithEnds([line] + lines, [e] + ends) == line + (e + WithEnds(lines, ends))
  {
    assert ([line] + lines)[1..] == lines && ([e] + ends)[1..] == ends;
  }

  lemma EndedLonger(c: char, lines: seq<string>, ends: seq<string>)
    requires lines != [] && Ended(lines, ends) && !LineEnd(c)
    ensures Ended(AddToFirst(c, lines), ends) && WithEnds(AddToFirst(c, lines), ends) == [c] + WithEnds(lines, ends)
  {
    var longer := [[c] + lines[0]] + lines[1..];
    assert longer[1..] == lines[1..];
    Assoc([c], lines[0], ends[0] + WithEnds(lines[1..], ends[1..]));
  }

  /** The prose of a content: the lines that do not start with a bar, in order, joined by line feeds and
      trimmed.  `lines` and `ends` are the content; `at` says which of its lines stay. */
  lemma ProseTells(content: string) returns (lines: seq<string>, ends: seq<string>, kept: seq<string>, at: seq<nat>, a: string, b: string)
    ensures Ended(lines, ends) && WithEnds(lines, ends) == content
    ensures Rising(at) && StandAt(lines, kept, at)
    ensures forall k: nat | k < |lines| :: k in at <==> !IsBar(lines[k])
    ensures Join("\n", kept) == a + (Prose(content) + b) && WhiteOnly(a) && WhiteOnly(b) && Trimmed(Prose(content))
  {
    lines := SplitLines(content);
    ends := SplitRejoins(content);
    kept := NonBars(lines);
    var keep := (l: string) => !IsBar(l);
    at := Places(lines, keep);
    NonBarsInOrder(lines, keep);
    a, b := TrimExact(Join("\n", kept));
  }

  // ---------------------------------------------------------------- reported numbers

  /** The number at place `k` is not allowed and has not occurred before. */
  predicate NewAndMissing(tokens: seq<string>, allowed: set<string>, seen: set<string>, k: nat)
    requires k < |tokens|
  {
    var n := Normalise(tokens[k]);
    n !in allowed && n !in seen && forall j | 0 <= j < k :: Normalise(tokens[j]) != n
  }

  ghost predicate TheseMissing(tokens: seq<string>, allowed: set<string>, seen: set<string>, at: seq<nat>) {
    forall k: nat | k < |tokens| :: NewAndMissing(tokens, allowed, seen, k) <==> k in at
  }

  /** Reported are, in order, the first occurrences of the numbers that are not allowed. */
  lemma {:induction false} UngroundedInOrder(tokens: seq<string>, allowed: set<string>, seen: set<string>) returns (at: seq<nat>)
    ensures Rising(at) && StandAt(tokens, Ungrounded(tokens, allowed, seen), at) && TheseMissing(tokens, allowed, seen, at)
  {
    at := [];
    if tokens != [] {
      var n := Normalise(tokens[0]);
      var fresh' := n !in allowed && n !in seen;
      var known := if fresh' then seen + {n} else seen;
      var more := UngroundedInOrder(tokens[1..], allowed, known);
      at := (if fresh' then [0] else []) + Shifted(more);
      StandShifted(tokens, Ungrounded(tokens[1..], allowed, known), more);
      StandFronted(fresh', tokens, Ungrounded(tokens[1..], allowed, known), Shifted(more));
      forall k: nat | k < |tokens| ensures NewAndMissing(tokens, allowed, seen, k) <==> k in at {
        if k > 0 {
          ShiftedHas(more, k);
          MissingLater(tokens, allowed, seen, k - 1);
        }
      }
    }
  }

  lemma MissingLater(tokens: seq<string>, allowed: set<string>, seen: set<string>, k: nat)
    requires k + 1 < |tokens|
    ensures var n := Normalise(tokens[0]);
            NewAndMissing(tokens, allowed, seen, k + 1) <==>
            NewAndMissing(tokens[1..], allowed, if n !in allowed && n !in seen then seen + {n} else seen, k)
  {
    assert forall j | 0 < j <= k + 1 :: tokens[j] == tokens[1..][j - 1];
    assert forall j | 0 <= j <= k :: tokens[1..][j] == tokens[j + 1];
  }

  // ---------------------------------------------------------------- figures written as text

  lemma {:induction false} CommasInOrder(s: string, keep: char -> bool)
    requires forall c :: keep(c) <==> c != ','
    ensures Filtered(s, RemoveCommas(s), keep, Places(s, keep))
  {
    if s != [] {
      CommasInOrder(s[1..], keep);
      FilteredCons(s, RemoveCommas(s[1..]), keep, Places(s[1..], keep));
    }
  }

  /** A text's number is what its characters other than commas, without outer white space, are read as. */
  lemma NumberOfText(env: Env, s: string) returns (kept: string, at: seq<nat>, a: string, u: string, b: string)
    ensures Rising(at) && StandAt(s, kept, at) && forall k: nat | k < |s| :: k in at <==> s[k] != ','
    ensures kept == a + (u + b) && WhiteOnly(a) && WhiteOnly(b) && Trimmed(u)
    ensures ToNumber(env, Some(Text(s))) == env.parse(u)
  {
    kept := RemoveCommas(s);
    var keep := (c: char) => c != ',';
    at := Places(s, keep);
    CommasInOrder(s, keep);
    u := Trim(kept);
    a, b := TrimExact(kept);
  }
}
