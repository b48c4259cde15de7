/**
 Lines of a section's content: what `attach` keeps of the writer's text when it puts the verified
 table in front of it.
 */
module TextLines {
  import opened Basics
  import opened Numbers
  import opened Report

  // ---------------------------------------------------------------- lines

  /** The characters at which Python's `str.splitlines` ends a line; all are white space. */
  predicate LineEnd(c: char) {
    var n := c as int;
    0x0A <= n <= 0x0D || 0x1C <= n <= 0x1E || n == 0x85 || n == 0x2028 || n == 0x2029
  }

  function AddToFirst(c: char, lines: seq<string>): seq<string> {
    if lines == [] then [[c]] else [[c] + lines[0]] + lines[1..]
  }

  /** `str.splitlines`; a carriage return and a line feed together end one line. */
  function SplitLines(s: string): seq<string> {
    if s == [] then []
    else if LineEnd(s[0]) then
      [""] + SplitLines(if s[0] == '\r' && |s| > 1 && s[1] == '\n' then s[2..] else s[1..])
    else AddToFirst(s[0], SplitLines(s[1..]))
  }

  /** `line.lstrip().startswith("|")` */
  predicate IsBar(line: string) {
    line != [] && if IsSpace(line[0]) then IsBar(line[1..]) else line[0] == '|'
  }

  function NonBars(lines: seq<string>): seq<string> {
    if lines == [] then [] else (if IsBar(lines[0]) then [] else [lines[0]]) + NonBars(lines[1..])
  }

  /** The content without the lines that look like rows of a table. */
  function Prose(content: string): string {
    Trim(Join("\n", NonBars(SplitLines(content))))
  }

  /** The table, then the writer's prose, if there is any. */
  function Merge(markdown: string, content: string): string {
    if Prose(content) == "" then markdown else Trim(markdown + "\n\n" + Prose(content))
  }

  // ---------------------------------------------------------------- trimming

  predicate Trimmed(s: string) {
    s == [] || (!IsSpace(s[0]) && !IsSpace(s[|s| - 1]))
  }

  lemma {:induction false} TrimTrims(s: string)
    ensures Trimmed(Trim(s)) && (Trimmed(s) ==> Trim(s) == s)
    decreases |s|
  {
    if s != [] && IsSpace(s[0]) {
      TrimTrims(s[1..]);
    } else if s != [] && IsSpace(s[|s| - 1]) {
      TrimTrims(s[..|s| - 1]);
    }
  }

  /** Trimming takes off white space at both ends, and all of it. */
  lemma {:induction false} TrimExact(s: string) returns (a: string, b: string)
    ensures s == a + (Trim(s) + b) && WhiteOnly(a) && WhiteOnly(b) && Trimmed(Trim(s))
    decreases |s|
  {
    TrimTrims(s);
    if s != [] && IsSpace(s[0]) {
      a, b := TrimExact(s[1..]);
      HeadTail(s, 0);
      Assoc([s[0]], a, Trim(s) + b);
      a := [s[0]] + a;
    } else if s != [] && IsSpace(s[|s| - 1]) {
      var n := |s| - 1;
      a, b := TrimExact(s[..n]);
      SplitAt(s, n);
      HeadTail(s, n);
      OneMore(a, Trim(s), b, s[n]);
      b := b + [s[n]];
    } else {
      a, b := "", "";
      assert s == "" + (s + "");
    }
  }

  lemma OneMore(a: string, t: string, b: string, c: char)
    ensures (a + (t + b)) + [c] == a + (t + (b + [c]))
  {
    Assoc(a, t + b, [c]);
    Assoc(t, b, [c]);
  }

  lemma {:induction false} TrimBlank(s: string)
    ensures Trim(s) == [] <==> WhiteOnly(s)
    decreases |s|
  {
    if s != [] && IsSpace(s[0]) {
      TrimBlank(s[1..]);
      assert forall i | 1 <= i < |s| :: s[i] == s[1..][i - 1];
    } else if s != [] && IsSpace(s[|s| - 1]) {
      TrimBlank(s[..|s| - 1]);
    }
  }

  lemma {:induction false} TrimBlankFront(a: string, s: string)
    requires WhiteOnly(a)
    ensures Trim(a + s) == Trim(s)
  {
    if a == [] {
      assert a + s == s;
    } else {
      assert (a + s)[1..] == a[1..] + s;
      TrimBlankFront(a[1..], s);
    }
  }

  lemma {:induction false} TrimBlankBack(t: string, b: string)
    requires WhiteOnly(b) && Trimmed(t)
    ensures Trim(t + b) == t
    decreases |b|
  {
    if b == [] {
      assert t + b == t;
      TrimTrims(t);
    } else if t == [] {
      assert t + b == b;
      TrimBlank(b);
    } else {
      var n := |b| - 1;
      assert (t + b)[..|t + b| - 1] == t + b[..n];
      TrimBlankBack(t, b[..n]);
    }
  }

  /** The text with white space around it. */
  ghost predicate Surrounded(s: string, t: string) {
    exists a, b :: s == a + (t + b) && WhiteOnly(a) && WhiteOnly(b)
  }

  lemma TrimIff(s: string, t: string)
    ensures Trim(s) == t <==> Trimmed(t) && Surrounded(s, t)
  {
    if Trim(s) == t {
      var a, b := TrimExact(s);
    }
    if Trimmed(t) && Surrounded(s, t) {
      var a, b :| s == a + (t + b) && WhiteOnly(a) && WhiteOnly(b);
      TrimBlankFront(a, t + b);
      TrimBlankBack(t, b);
    }
  }

  /** Text after which something not blank stands loses white space only at its start. */
  lemma {:induction false} TrimSolidFront(a: string, s: string)
    requires !WhiteOnly(a) && s != [] && !IsSpace(s[|s| - 1])
    ensures |Trim(a + s)| > |s|
  {
    if IsSpace(a[0]) {
      assert (a + s)[1..] == a[1..] + s;
      assert forall i | 1 <= i < |a| :: a[i] == a[1..][i - 1];
      TrimSolidFront(a[1..], s);
    } else {
      TrimTrims(a + s);
    }
  }

  // ---------------------------------------------------------------- texts whose only line end is \n

  predicate OnlyNewlines(s: string) {
    forall i | 0 <= i < |s| :: LineEnd(s[i]) ==> s[i] == '\n'
  }

  /** No line is a bar line; `clear` says that only white space was read on the current line. */
  predicate NoBarLine(clear: bool, s: string)
    decreases |s|
  {
    s == [] ||
    if s[0] == '\n' then NoBarLine(true, s[1..])
    else if clear then s[0] != '|' && NoBarLine(IsSpace(s[0]), s[1..])
    else NoBarLine(false, s[1..])
  }

  lemma {:induction false} NoBarPrefix(clear: bool, s: string)
    requires s != [] && NoBarLine(clear, s)
    ensures NoBarLine(clear, s[..|s| - 1])
    decreases |s|
  {
    var t := s[..|s| - 1];
    if t != [] {
      assert t[1..] == s[1..][..|s| - 2];
      NoBarPrefix(if s[0] == '\n' then true else clear && IsSpace(s[0]), s[1..]);
    }
  }

  lemma {:induction false} TrimKeepsLines(s: string)
    requires OnlyNewlines(s) && NoBarLine(true, s)
    ensures OnlyNewlines(Trim(s)) && NoBarLine(true, Trim(s))
    decreases |s|
  {
    if s != [] && IsSpace(s[0]) {
      TrimKeepsLines(s[1..]);
    } else if s != [] && IsSpace(s[|s| - 1]) {
      NoBarPrefix(true, s);
      TrimKeepsLines(s[..|s| - 1]);
    }
  }

  predicate NoLineEnds(s: string) {
    forall i | 0 <= i < |s| :: !LineEnd(s[i])
  }

  lemma {:induction false} LineThen(clear: bool, line: string, rest: string)
    requires NoLineEnds(line) && (clear ==> !IsBar(line))
    requires rest == [] || (rest[0] == '\n' && NoBarLine(true, rest[1..]))
    ensures NoBarLine(clear, line + rest)
    decreases |line|
  {
    if line == [] {
      assert line + rest == rest;
    } else {
      assert (line + rest)[1..] == line[1..] + rest;
      LineThen(clear && IsSpace(line[0]), line[1..], rest);
    }
  }

  predicate PlainLines(lines: seq<string>) {
    forall i | 0 <= i < |lines| :: NoLineEnds(lines[i]) && !IsBar(lines[i])
  }

  lemma {:induction false} JoinLines(lines: seq<string>)
    requires PlainLines(lines)
    ensures OnlyNewlines(Join("\n", lines)) && NoBarLine(true, Join("\n", lines))
  {
    if |lines| == 1 {
      LineThen(true, lines[0], "");
      assert lines[0] + "" == lines[0];
    } else if |lines| > 1 {
      var rest := Join("\n", lines[1..]);
      JoinLines(lines[1..]);
      assert ("\n" + rest)[1..] == rest;
      LineThen(true, lines[0], "\n" + rest);
      Assoc(lines[0], "\n", rest);
    }
  }

  lemma {:induction false} SplitHasNoEnds(s: string)
    ensures forall i | 0 <= i < |SplitLines(s)| :: NoLineEnds(SplitLines(s)[i])
    decreases |s|
  {
    if s != [] {
      SplitHasNoEnds(s[1..]);
      if |s| > 1 {
        SplitHasNoEnds(s[2..]);
      }
    }
  }

  lemma {:induction false} NonBarsPlain(lines: seq<string>)
    requires forall i | 0 <= i < |lines| :: NoLineEnds(lines[i])
    ensures PlainLines(NonBars(lines))
  {
    if lines != [] {
      NonBarsPlain(lines[1..]);
    }
  }

  /** Prose is trimmed, breaks lines only by `\n` and has no bar line. */
  lemma ProseShape(content: string)
    ensures var p := Prose(content); Trimmed(p) && OnlyNewlines(p) && NoBarLine(true, p)
  {
    var lines := NonBars(SplitLines(content));
    SplitHasNoEnds(content);
    NonBarsPlain(SplitLines(content));
    JoinLines(lines);
    TrimKeepsLines(Join("\n", lines));
    TrimTrims(Join("\n", lines));
  }

  /** A text that does not end with a line end is its lines, joined; none of them is lost if none
      is a bar line. */
  lemma {:induction false} LinesJoined(clear: bool, s: string)
    requires OnlyNewlines(s) && NoBarLine(clear, s) && (s != [] ==> s[|s| - 1] != '\n')
    ensures var lines := SplitLines(s);
            && (s != [] ==> lines != []) && Join("\n", lines) == s
            && (forall i | (if clear then 0 else 1) <= i < |lines| :: !IsBar(lines[i]))
    decreases |s|
  {
    if s != [] {
      var next := if s[0] == '\n' then true else clear && IsSpace(s[0]);
      LinesJoined(next, s[1..]);
      LinesJoinedStep(s);
    }
  }

  lemma LinesJoinedStep(s: string)
    requires s != [] && OnlyNewlines(s) && s[|s| - 1] != '\n'
    requires Join("\n", SplitLines(s[1..])) == s[1..] && (s[1..] != [] ==> SplitLines(s[1..]) != [])
    ensures SplitLines(s) != [] && Join("\n", SplitLines(s)) == s
    ensures s[0] == '\n' ==> SplitLines(s) == [""] + SplitLines(s[1..])
  {
    var rest := SplitLines(s[1..]);
    HeadTail(s, 0);
    if s[0] == '\n' {
      assert |s| > 1;
      JoinBlank(rest);
    } else if rest != [] {
      JoinFirst(s[0], rest);
    }
  }

  lemma JoinBlank(lines: seq<string>)
    requires lines != []
    ensures Join("\n", [""] + lines) == ['\n'] + Join("\n", lines)
  {
    assert ([""] + lines)[1..] == lines;
  }

  lemma JoinFirst(c: char, lines: seq<string>)
    requires lines != []
    ensures Join("\n", AddToFirst(c, lines)) == [c] + Join("\n", lines)
  {
  }

  lemma {:induction false} NonBarsAll(lines: seq<string>)
    requires forall i | 0 <= i < |lines| :: !IsBar(lines[i])
    ensures NonBars(lines) == lines
  {
    if lines != [] {
      NonBarsAll(lines[1..]);
      HeadTail(lines, 0);
    }
  }

  // ---------------------------------------------------------------- the table in front

  lemma SplitShort(c: char, b: string)
    requires !LineEnd(c)
    ensures SplitLines([c] + ("\n" + b)) == SplitLines([c]) + SplitLines(b) && SplitLines([c]) == [[c]]
  {
    var x := [c] + ("\n" + b);
    assert x[1..] == "\n" + b && ("\n" + b)[1..] == b;
    assert [c] + "" == [c];
  }

  lemma {:induction false} SplitConcat(a: string, b: string)
    requires a != [] && !LineEnd(a[|a| - 1])
    ensures SplitLines(a + ("\n" + b)) == SplitLines(a) + SplitLines(b) && SplitLines(a) != []
    decreases |a|
  {
    var x := a + ("\n" + b);
    if |a| == 1 {
      SplitShort(a[0], b);
      assert x == [a[0]] + ("\n" + b) && a == [a[0]];
    } else if !LineEnd(a[0]) {
      assert x[1..] == a[1..] + ("\n" + b);
      SplitConcat(a[1..], b);
    } else if a[0] == '\r' && a[1] == '\n' {
      assert x[2..] == a[2..] + ("\n" + b);
      SplitConcat(a[2..], b);
    } else {
      assert x[1..] == a[1..] + ("\n" + b);
      SplitConcat(a[1..], b);
    }
  }

  lemma {:induction false} NonBarsConcat(a: seq<string>, b: seq<string>)
    ensures NonBars(a + b) == NonBars(a) + NonBars(b)
  {
    if a == [] {
      assert a + b == b;
    } else {
      assert (a + b)[1..] == a[1..] + b;
      NonBarsConcat(a[1..], b);
    }
  }

  lemma {:induction false} JoinConcat(a: seq<string>, b: seq<string>)
    requires b != []
    ensures Join("\n", a + b) == if a == [] then Join("\n", b) else Join("\n", a) + ("\n" + Join("\n", b))
  {
    if a == [] {
      assert a + b == b;
    } else {
      assert (a + b)[1..] == a[1..] + b;
      JoinConcat(a[1..], b);
    }
  }

  predicate Tabular(md: string) {
    md != [] && Trimmed(md)
  }

  /** The lines kept of a table followed by prose. */
  lemma KeptLines(md: string, p: string)
    requires Tabular(md) && p != [] && Trimmed(p) && OnlyNewlines(p) && NoBarLine(true, p)
    ensures NonBars(SplitLines(md + "\n\n" + p)) == NonBars(SplitLines(md)) + ([""] + SplitLines(p))
    ensures Join("\n", [""] + SplitLines(p)) == "\n" + p
  {
    LinesJoined(true, p);
    NonBarsAll(SplitLines(p));
    TwoBreaks(md, p);
    SplitConcat(md, "\n" + p);
    BlankLineFirst(p, SplitLines(p));
    NonBarsConcat(SplitLines(md), [""] + SplitLines(p));
  }

  lemma TwoBreaks(a: string, p: string)
    ensures a + "\n\n" + p == a + ("\n" + ("\n" + p)) && (a + "\n\n") + p == a + "\n\n" + p && a + ("\n\n" + p) == a + "\n\n" + p
  {
  }

  lemma BlankLineFirst(p: string, lines: seq<string>)
    requires lines == SplitLines(p) && lines != [] && NonBars(lines) == lines
    ensures SplitLines("\n" + p) == [""] + lines && NonBars([""] + lines) == [""] + lines
    ensures Join("\n", [""] + lines) == "\n" + Join("\n", lines)
  {
  }

  /** What a second pass finds as prose: the same prose, if the table itself leaves none. */
  lemma ProseAgain(md: string, p: string)
    requires Tabular(md) && p != [] && Trimmed(p) && OnlyNewlines(p) && NoBarLine(true, p)
    ensures Prose(md) == "" ==> Prose(md + "\n\n" + p) == p
    ensures Prose(md) != "" ==> |Prose(md + "\n\n" + p)| > |p|
  {
    KeptLines(md, p);
    var left := NonBars(SplitLines(md));
    JoinConcat(left, [""] + SplitLines(p));
    TrimBlank(Join("\n", left));
    TrimTrims(p);
    if left == [] {
      TrimBlankFront("\n", p);
    } else {
      TwoBreaks(Join("\n", left), p);
      TrimAfter(Join("\n", left), p);
    }
  }

  lemma TrimAfter(j: string, p: string)
    requires p != [] && Trimmed(p)
    ensures WhiteOnly(j) ==> Trim(j + "\n\n" + p) == p
    ensures !WhiteOnly(j) ==> |Trim(j + "\n\n" + p)| > |p|
  {
    TwoBreaks(j, p);
    TrimTrims(p);
    if WhiteOnly(j) {
      TrimBlankFront(j + "\n\n", p);
    } else {
      TrimSolidFront(j, "\n\n" + p);
    }
  }

  lemma MergeShape(md: string, content: string)
    requires Tabular(md)
    ensures var p := Prose(content); Merge(md, content) == if p == "" then md else md + "\n\n" + p
  {
    ProseShape(content);
    TrimTrims(md + "\n\n" + Prose(content));
  }

  /** Merging a second time changes nothing exactly when no line of the table reads as prose. */
  lemma MergeTwice(md: string, content: string)
    requires Tabular(md)
    ensures Merge(md, Merge(md, content)) == Merge(md, content) <==> Prose(md) == ""
  {
    var p := Prose(content);
    MergeShape(md, content);
    MergeShape(md, Merge(md, content));
    ProseShape(content);
    if p != "" {
      ProseAgain(md, p);
    }
  }
}
