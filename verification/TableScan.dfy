/**
 What number extraction finds in a markdown table: exactly the numbers of its printed cells, one cell
 after the other, whatever the cells contain.
 */
module TableScan {
  import opened Basics
  import opened Numbers
  import opened NumberScan
  import opened Report

  // ---------------------------------------------------------------- cells

  /** The numbers read in a printed cell.  Its pipes are slashes, the blank after it is part of what
      decides about list markers, and it is not at the start of a line. */
  function CellTokens(word: char -> bool, c: string): seq<string> {
    PartTokens(word, NoPipes(c))
  }

  function PartTokens(word: char -> bool, part: string): seq<string> {
    Scan(word, None, StripMarkers(false, part + " "))
  }

  function RowTokens(word: char -> bool, parts: seq<string>): seq<string> {
    if parts == [] then [] else PartTokens(word, parts[0]) + RowTokens(word, parts[1..])
  }

  function LinesTokens(word: char -> bool, lines: seq<seq<string>>): seq<string> {
    if lines == [] then [] else RowTokens(word, lines[0]) + LinesTokens(word, lines[1..])
  }

  /** The numbers of all cells, row by row. */
  function TableTokens(word: char -> bool, rows: seq<seq<string>>): seq<string> {
    LinesTokens(word, PrintedRows(rows))
  }

  function PrintedRows(rows: seq<seq<string>>): (r: seq<seq<string>>)
    ensures |r| == |rows| && forall i | 0 <= i < |r| :: r[i] == MapNoPipes(rows[i])
  {
    seq(|rows|, i requires 0 <= i < |rows| => MapNoPipes(rows[i]))
  }

  lemma {:induction false} RowTokensMembers(word: char -> bool, parts: seq<string>, t: string)
    ensures t in RowTokens(word, parts) <==> exists j | 0 <= j < |parts| :: t in PartTokens(word, parts[j])
  {
    if parts != [] {
      RowTokensMembers(word, parts[1..], t);
      assert forall j | 1 <= j < |parts| :: parts[j] == parts[1..][j - 1];
    }
  }

  lemma {:induction false} LinesTokensMembers(word: char -> bool, lines: seq<seq<string>>, t: string)
    ensures t in LinesTokens(word, lines) <==> exists i | 0 <= i < |lines| :: t in RowTokens(word, lines[i])
  {
    if lines != [] {
      LinesTokensMembers(word, lines[1..], t);
      assert forall i | 1 <= i < |lines| :: lines[i] == lines[1..][i - 1];
    }
  }

  // ---------------------------------------------------------------- list markers and pipes

  lemma {:induction false} WhiteRunAtPipe(x: string, rest: string)
    ensures WhiteRun(x + (['|'] + rest)) == WhiteRun(x)
  {
    if x == [] {
      assert x + (['|'] + rest) == ['|'] + rest;
    } else {
      assert (x + (['|'] + rest))[1..] == x[1..] + (['|'] + rest);
      WhiteRunAtPipe(x[1..], rest);
    }
  }

  lemma {:induction false} HashRunAtPipe(x: string, rest: string)
    ensures HashRun(x + (['|'] + rest)) == HashRun(x)
  {
    if x == [] {
      assert x + (['|'] + rest) == ['|'] + rest;
    } else {
      assert (x + (['|'] + rest))[1..] == x[1..] + (['|'] + rest);
      HashRunAtPipe(x[1..], rest);
    }
  }

  lemma LeadAtPipe(x: string, rest: string)
    ensures LeadRun(x + (['|'] + rest)) == LeadRun(x)
  {
    var z := ['|'] + rest;
    var a := WhiteRun(x);
    var h := HashRun(x[a..]);
    WhiteRunAtPipe(x, rest);
    DropJoin(x, z, a);
    HashRunAtPipe(x[a..], rest);
    DropJoin(x, z, a + h);
    WhiteRunAtPipe(x[a + h..], rest);
  }

  /** A pipe after a blank has no part in a list marker before it. */
  lemma MarkerAtPipe(x: string, rest: string)
    requires x != [] && x[|x| - 1] == ' '
    ensures LeadRun(x + (['|'] + rest)) == LeadRun(x) && Marker(x + (['|'] + rest)) == Marker(x)
  {
    var z := ['|'] + rest;
    var l := LeadRun(x);
    LeadAtPipe(x, rest);
    DropJoin(x, z, l);
    DigitRunLocal(x[l..], '|', rest);
    SameMarker(x, z, l + DigitRun(x[l..]));
  }

  lemma SameMarker(x: string, z: string, e: nat)
    requires x != [] && x[|x| - 1] == ' ' && z != [] && z[0] == '|' && e <= |x|
    ensures var y := x + z;
            (e + 1 < |y| && (y[e] == '.' || y[e] == ')') && IsSpace(y[e + 1])) <==>
            (e + 1 < |x| && (x[e] == '.' || x[e] == ')') && IsSpace(x[e + 1]))
  {
  }

  lemma StripCons(lineStart: bool, c: char, s: string)
    requires lineStart ==> c == '|'
    ensures StripMarkers(lineStart, [c] + s) == [c] + StripMarkers(c == '\n', s)
  {
    var x := [c] + s;
    assert x[1..] == s;
    assert lineStart ==> WhiteRun(x) == 0 && LeadRun(x) == 0 && Marker(x) == 0;
  }

  lemma LeadAfterBreak(x: string, rest: string)
    requires x == ['\n'] + rest
    ensures LeadRun(x) == 1 + LeadRun(rest)
  {
  }

  lemma MarkerAfterBreak(x: string, rest: string)
    requires x == ['\n'] + rest
    ensures LeadRun(x) == 1 + LeadRun(rest) && Marker(x) == Marker(rest)
  {
    LeadAfterBreak(x, rest);
    var l := LeadRun(rest);
    ConsSlices('\n', rest, l);
    assert x[1 + l..] == rest[l..];
    assert forall i | 0 <= i < |rest| :: x[1 + i] == rest[i];
  }

  lemma StripMarked(x: string, head: string, t: string)
    requires Marker(x) > 0 && head == x[..LeadRun(x)] && t == x[LeadRun(x) + Marker(x)..]
    ensures StripMarkers(true, x) == head + StripMarkers(false, t)
  {
  }

  lemma StripAfterBreak(x: string, rest: string)
    requires x == ['\n'] + rest
    ensures StripMarkers(true, x) == ['\n'] + StripMarkers(true, rest)
  {
    MarkerAfterBreak(x, rest);
    if Marker(rest) > 0 {
      StripMarkedAfterBreak(x, rest);
    } else {
      StripUnmarked(x);
      ConsSlices('\n', rest, 0);
    }
  }

  lemma StripMarkedAfterBreak(x: string, rest: string)
    requires x == ['\n'] + rest && LeadRun(x) == 1 + LeadRun(rest) && Marker(x) == Marker(rest) > 0
    ensures StripMarkers(true, x) == ['\n'] + StripMarkers(true, rest)
  {
    var head, t := rest[..LeadRun(rest)], rest[LeadRun(rest) + Marker(rest)..];
    MarkedSlices(x, rest, LeadRun(rest), LeadRun(rest) + Marker(rest));
    StripMarked(x, ['\n'] + head, t);
    StripMarked(rest, head, t);
    Assoc(['\n'], head, StripMarkers(false, t));
  }

  lemma MarkedSlices(x: string, rest: string, l: nat, e: nat)
    requires x == ['\n'] + rest && l <= e <= |rest|
    ensures x[..1 + l] == ['\n'] + rest[..l] && x[1 + e..] == rest[e..]
  {
    ConsSlices('\n', rest, l);
    ConsSlices('\n', rest, e);
  }

  lemma StripUnmarked(x: string)
    requires Marker(x) == 0 && x != []
    ensures StripMarkers(true, x) == [x[0]] + StripMarkers(x[0] == '\n', x[1..])
  {
  }

  /** Markers before a pipe that stands after a blank, and markers after it, are independent. */
  lemma {:induction false} StripAtPipe(lineStart: bool, x: string, rest: string)
    requires if x == [] then !lineStart else x[|x| - 1] == ' '
    ensures StripMarkers(lineStart, x + (['|'] + rest)) == StripMarkers(lineStart, x) + (['|'] + StripMarkers(false, rest))
    decreases |x|
  {
    var z := ['|'] + rest;
    if x == [] {
      assert x + z == z;
      StripCons(false, '|', rest);
    } else if lineStart && Marker(x) > 0 {
      StripPipeMarked(x, rest, LeadRun(x) + Marker(x));
    } else {
      StripAtPipe(x[0] == '\n', x[1..], rest);
      StripPipeUnmarked(lineStart, x, rest);
    }
  }

  lemma StripPipeMarked(x: string, rest: string, e: nat)
    requires x != [] && x[|x| - 1] == ' ' && Marker(x) > 0 && e == LeadRun(x) + Marker(x)
    ensures StripMarkers(true, x + (['|'] + rest)) == StripMarkers(true, x) + (['|'] + StripMarkers(false, rest))
    decreases |x|, 0
  {
    var z := ['|'] + rest;
    var head, tail := x[..LeadRun(x)], x[e..];
    MarkerDigits(x);
    MarkerAtPipe(x, rest);
    DropJoin(x, z, LeadRun(x));
    DropJoin(x, z, e);
    StripMarked(x, head, tail);
    StripMarked(x + z, head, tail + z);
    StripAtPipe(false, tail, rest);
    Assoc(head, StripMarkers(false, tail), ['|'] + StripMarkers(false, rest));
  }

  lemma StripPipeUnmarked(lineStart: bool, x: string, rest: string)
    requires x != [] && x[|x| - 1] == ' ' && (lineStart ==> Marker(x) == 0)
    requires StripMarkers(x[0] == '\n', x[1..] + (['|'] + rest)) ==
             StripMarkers(x[0] == '\n', x[1..]) + (['|'] + StripMarkers(false, rest))
    ensures StripMarkers(lineStart, x + (['|'] + rest)) == StripMarkers(lineStart, x) + (['|'] + StripMarkers(false, rest))
  {
    var z := ['|'] + rest;
    MarkerAtPipe(x, rest);
    DropJoin(x, z, 1);
    StripOne(lineStart, x);
    StripOne(lineStart, x + z);
    Assoc([x[0]], StripMarkers(x[0] == '\n', x[1..]), ['|'] + StripMarkers(false, rest));
  }

  lemma StripOne(lineStart: bool, x: string)
    requires x != [] && (lineStart ==> Marker(x) == 0)
    ensures StripMarkers(lineStart, x) == [x[0]] + StripMarkers(x[0] == '\n', x[1..])
  {
  }

  // ---------------------------------------------------------------- lines of cells

  /** Printed cells, each between blanks and followed by a pipe. */
  function BarText(parts: seq<string>): string {
    if parts == [] then [] else [' '] + ((parts[0] + " ") + (['|'] + BarText(parts[1..])))
  }

  function LineOf(parts: seq<string>): string {
    ['|'] + BarText(parts)
  }

  lemma {:induction false} JoinIsBars(parts: seq<string>)
    requires parts != []
    ensures " " + Join(" | ", parts) + " |" == BarText(parts)
  {
    if |parts| == 1 {
      assert BarText(parts[1..]) == [];
    } else {
      JoinIsBars(parts[1..]);
      var j := Join(" | ", parts[1..]);
      assert " " + (parts[0] + " | " + j) + " |" == [' '] + ((parts[0] + " ") + (['|'] + (" " + j + " |")));
    }
  }

  lemma RowLineIs(parts: seq<string>)
    requires parts != []
    ensures RowLine(parts) == LineOf(parts)
  {
    JoinIsBars(parts);
    var j := Join(" | ", parts);
    assert "| " + j + " |" == ['|'] + (" " + j + " |");
  }

  lemma SeparatorsNeutral(word: char -> bool)
    requires WordClass(word)
    ensures Neutral(word, ' ') && Neutral(word, '|') && Neutral(word, '\n') && Neutral(word, '%')
  {
  }

  /** One neutral character in front changes nothing. */
  lemma ScanSkip(word: char -> bool, c: char, s: string)
    requires Neutral(word, c)
    ensures Scan(word, None, [c] + s) == Scan(word, None, s)
  {
    ScanNeutral(word, None, c, s);
    assert "" + ([c] + s) == [c] + s;
  }

  lemma BarScanOne(word: char -> bool, part: string, rest: string)
    requires WordClass(word)
    ensures Scan(word, None, StripMarkers(false, [' '] + ((part + " ") + (['|'] + rest)))) ==
            PartTokens(word, part) + Scan(word, None, StripMarkers(false, rest))
  {
    var x, tail := part + " ", StripMarkers(false, rest);
    SeparatorsNeutral(word);
    StripCons(false, ' ', x + (['|'] + rest));
    StripAtPipe(false, x, rest);
    ScanSkip(word, ' ', StripMarkers(false, x) + (['|'] + tail));
    ScanCut(word, None, StripMarkers(false, x), '|', tail);
  }

  lemma {:induction false} BarScan(word: char -> bool, parts: seq<string>, rest: string)
    requires WordClass(word)
    ensures Scan(word, None, StripMarkers(false, BarText(parts) + rest)) == RowTokens(word, parts) + Scan(word, None, StripMarkers(false, rest))
  {
    if parts == [] {
      assert BarText(parts) + rest == rest;
    } else {
      var tail := BarText(parts[1..]) + rest;
      BarScanOne(word, parts[0], tail);
      BarScan(word, parts[1..], rest);
      BarTextThen(parts, rest);
      Assoc(PartTokens(word, parts[0]), RowTokens(word, parts[1..]), Scan(word, None, StripMarkers(false, rest)));
    }
  }

  lemma BarTextThen(parts: seq<string>, rest: string)
    requires parts != []
    ensures BarText(parts) + rest == [' '] + ((parts[0] + " ") + (['|'] + (BarText(parts[1..]) + rest)))
  {
  }

  /** A line of cells at the start of a line of text. */
  lemma LineScan(word: char -> bool, parts: seq<string>, rest: string)
    requires WordClass(word)
    ensures Scan(word, None, StripMarkers(true, LineOf(parts) + rest)) == RowTokens(word, parts) + Scan(word, None, StripMarkers(false, rest))
  {
    SeparatorsNeutral(word);
    Assoc(['|'], BarText(parts), rest);
    StripCons(true, '|', BarText(parts) + rest);
    ScanSkip(word, '|', StripMarkers(false, BarText(parts) + rest));
    BarScan(word, parts, rest);
  }

  function LinesOf(lines: seq<seq<string>>): (r: seq<string>)
    ensures |r| == |lines| && forall i | 0 <= i < |r| :: r[i] == LineOf(lines[i])
  {
    seq(|lines|, i requires 0 <= i < |lines| => LineOf(lines[i]))
  }

  lemma {:induction false} LinesScan(word: char -> bool, lines: seq<seq<string>>, rest: string)
    requires WordClass(word) && lines != []
    ensures Scan(word, None, StripMarkers(true, Join("\n", LinesOf(lines)) + rest)) ==
            LinesTokens(word, lines) + Scan(word, None, StripMarkers(false, rest))
  {
    var after := Scan(word, None, StripMarkers(false, rest));
    assert LinesOf(lines)[1..] == LinesOf(lines[1..]);
    if |lines| == 1 {
      LineScan(word, lines[0], rest);
      assert LinesTokens(word, lines) == RowTokens(word, lines[0]) + [];
      assert RowTokens(word, lines[0]) + [] == RowTokens(word, lines[0]);
    } else {
      var more := Join("\n", LinesOf(lines[1..])) + rest;
      LinesScan(word, lines[1..], rest);
      LineScan(word, lines[0], ['\n'] + more);
      BreakScan(word, more);
      LineThenMore(LinesOf(lines)[0], Join("\n", LinesOf(lines[1..])), rest);
      Assoc(RowTokens(word, lines[0]), LinesTokens(word, lines[1..]), after);
    }
  }

  lemma LineThenMore(line: string, more: string, rest: string)
    ensures (line + "\n" + more) + rest == line + (['\n'] + (more + rest))
  {
  }

  lemma BreakScan(word: char -> bool, s: string)
    requires WordClass(word)
    ensures Scan(word, None, StripMarkers(false, ['\n'] + s)) == Scan(word, None, StripMarkers(true, s))
  {
    SeparatorsNeutral(word);
    StripCons(false, '\n', s);
    ScanSkip(word, '\n', StripMarkers(true, s));
  }

  // ---------------------------------------------------------------- tables

  lemma {:induction false} NoDigitsStrip(lineStart: bool, s: string)
    requires forall i | 0 <= i < |s| :: !IsDigit(s[i])
    ensures StripMarkers(lineStart, s) == s
    decreases |s|
  {
    if s != [] {
      NoDigitsMarker(s);
      NoDigitsStrip(s[0] == '\n', s[1..]);
      StripOne(lineStart, s);
      HeadTail(s, 0);
    }
  }

  lemma NoDigitsMarker(s: string)
    requires forall i | 0 <= i < |s| :: !IsDigit(s[i])
    ensures Marker(s) == 0
  {
  }

  lemma NoDigitsPart(word: char -> bool, part: string)
    requires forall i | 0 <= i < |part| :: !IsDigit(part[i])
    ensures PartTokens(word, part) == []
  {
    NoDigitsStrip(false, part + " ");
    NoDigitsTokens(word, part + " ");
  }

  lemma NoDigitsTokens(word: char -> bool, s: string)
    requires forall i | 0 <= i < |s| :: !IsDigit(s[i])
    ensures Scan(word, None, s) == []
  {
    NoDigitsNoTokens(word, None, s);
  }

  /** Fixed wording: letters, blanks and percent signs. */
  predicate PlainText(s: string) {
    forall i | 0 <= i < |s| :: s[i] == ' ' || s[i] == '%' || 'A' <= s[i] <= 'z'
  }

  lemma {:induction false} NoDigitsRow(word: char -> bool, parts: seq<string>)
    requires forall j | 0 <= j < |parts| :: PlainText(parts[j]) || parts[j] == "---"
    ensures RowTokens(word, parts) == []
  {
    if parts != [] {
      NoDigitsPart(word, parts[0]);
      NoDigitsRow(word, parts[1..]);
    }
  }

  /** The lines of a table as lines of printed cells. */
  function TableParts(columns: seq<string>, rows: seq<seq<string>>): seq<seq<string>> {
    [columns, Dashes(|columns|)] + PrintedRows(rows)
  }

  lemma TableLinesAre(columns: seq<string>, rows: seq<seq<string>>)
    requires columns != [] && forall i | 0 <= i < |rows| :: rows[i] != []
    ensures TableLines(columns, rows) == LinesOf(TableParts(columns, rows))
  {
    var lines, parts := TableLines(columns, rows), TableParts(columns, rows);
    forall i: nat | i < |lines| ensures lines[i] == LineOf(parts[i]) {
      RowLineIs(parts[i]);
      LineOfTable(columns, rows, i);
    }
  }

  lemma LineOfTable(columns: seq<string>, rows: seq<seq<string>>, i: nat)
    requires i < |rows| + 2
    ensures TableLines(columns, rows)[i] ==
            if i == 0 then RowLine(columns) else if i == 1 then RowLine(Dashes(|columns|)) else RowLine(MapNoPipes(rows[i - 2]))
  {
  }

  lemma HeaderTokens(word: char -> bool, columns: seq<string>, rows: seq<seq<string>>)
    requires forall j | 0 <= j < |columns| :: PlainText(columns[j])
    ensures LinesTokens(word, TableParts(columns, rows)) == TableTokens(word, rows)
  {
    var parts := TableParts(columns, rows);
    NoDigitsRow(word, columns);
    NoDigitsRow(word, Dashes(|columns|));
    assert parts[1..][0] == Dashes(|columns|) && parts[1..][1..] == PrintedRows(rows);
  }

  /** The numbers of a table with more text after it. */
  lemma TableThen(word: char -> bool, columns: seq<string>, rows: seq<seq<string>>, rest: string)
    requires WordClass(word) && columns != [] && (forall i | 0 <= i < |rows| :: rows[i] != [])
    requires forall j | 0 <= j < |columns| :: PlainText(columns[j])
    ensures Scan(word, None, StripMarkers(true, Markdown(columns, rows) + rest)) ==
            TableTokens(word, rows) + Scan(word, None, StripMarkers(false, rest))
  {
    TableLinesAre(columns, rows);
    LinesScan(word, TableParts(columns, rows), rest);
    HeaderTokens(word, columns, rows);
  }

  /** The numbers found in a table are exactly those of its printed cells, in order. */
  lemma ExtractTable(word: char -> bool, columns: seq<string>, rows: seq<seq<string>>)
    requires WordClass(word) && columns != [] && (forall i | 0 <= i < |rows| :: rows[i] != [])
    requires forall j | 0 <= j < |columns| :: PlainText(columns[j])
    ensures Extract(word, Markdown(columns, rows)) == TableTokens(word, rows)
  {
    TableThen(word, columns, rows, "");
    assert Markdown(columns, rows) + "" == Markdown(columns, rows);
    assert TableTokens(word, rows) + [] == TableTokens(word, rows);
  }

  /** With text after a blank line they are the table's and the text's. */
  lemma ExtractTableThen(word: char -> bool, columns: seq<string>, rows: seq<seq<string>>, text: string)
    requires WordClass(word) && columns != [] && (forall i | 0 <= i < |rows| :: rows[i] != [])
    requires forall j | 0 <= j < |columns| :: PlainText(columns[j])
    ensures Extract(word, Markdown(columns, rows) + (['\n'] + (['\n'] + text))) == TableTokens(word, rows) + Extract(word, text)
  {
    SeparatorsNeutral(word);
    TableThen(word, columns, rows, ['\n'] + (['\n'] + text));
    BreakScan(word, ['\n'] + text);
    StripAfterBreak(['\n'] + text, text);
    ScanSkip(word, '\n', StripMarkers(true, text));
  }

  // ---------------------------------------------------------------- pipes and slashes

  lemma {:induction false} NoPipesAt(s: string)
    ensures |NoPipes(s)| == |s| && forall i | 0 <= i < |s| :: NoPipes(s)[i] == if s[i] == '|' then '/' else s[i]
  {
    if s != [] {
      NoPipesAt(s[1..]);
    }
  }

  lemma {:induction false} NoPipesSplit(s: string, k: nat)
    requires k <= |s|
    ensures NoPipes(s) == NoPipes(s[..k]) + NoPipes(s[k..])
  {
    NoPipesAt(s);
    NoPipesAt(s[..k]);
    NoPipesAt(s[k..]);
  }

  lemma {:induction false} NoPipesSame(c: string)
    requires '|' !in c
    ensures NoPipes(c) == c
  {
    NoPipesAt(c);
  }

  lemma NoPipesDrop(s: string, k: nat)
    requires k <= |s|
    ensures |NoPipes(s)| == |s| && NoPipes(s)[k..] == NoPipes(s[k..]) && NoPipes(s)[..k] == NoPipes(s[..k])
  {
    NoPipesAt(s);
    NoPipesAt(s[..k]);
    NoPipesSplit(s, k);
  }

  lemma {:induction false} DigitRunNoPipes(s: string)
    ensures DigitRun(NoPipes(s)) == DigitRun(s)
  {
    if s != [] {
      NoPipesDrop(s, 1);
      DigitRunNoPipes(s[1..]);
    }
  }

  lemma {:induction false} GroupRunNoPipes(s: string)
    ensures GroupRun(NoPipes(s)) == GroupRun(s)
  {
    NoPipesAt(s);
    if |s| >= 4 {
      NoPipesDrop(s, 4);
      GroupRunNoPipes(s[4..]);
      ThreeDigits(s);
    }
  }

  lemma ThreeDigits(s: string)
    requires |s| >= 4
    ensures |NoPipes(s)| == |s| && (AllDigits(NoPipes(s)[1..4]) <==> AllDigits(s[1..4]))
  {
    NoPipesAt(s);
    assert forall i | 0 <= i < 3 :: s[1..4][i] == s[i + 1] && NoPipes(s)[1..4][i] == NoPipes(s)[i + 1];
  }

  lemma EndsNoPipes(word: char -> bool, s: string)
    requires WordClass(word)
    ensures Ends(word, NoPipes(s)) <==> Ends(word, s)
  {
    NoPipesAt(s);
  }

  lemma FinishNoPipes(word: char -> bool, s: string)
    requires WordClass(word)
    ensures Finish(word, NoPipes(s)) == Finish(word, s)
  {
    NoPipesAt(s);
    EndsNoPipes(word, s);
    if s != [] {
      NoPipesDrop(s, 1);
      DigitRunNoPipes(s[1..]);
      NoPipesDrop(s, 1 + DigitRun(s[1..]));
      EndsNoPipes(word, s[1 + DigitRun(s[1..])..]);
    }
  }

  lemma MatchAfterNoPipes(word: char -> bool, n: nat, r: string)
    requires WordClass(word)
    ensures MatchAfter(word, n, NoPipes(r)) == MatchAfter(word, n, r)
  {
    var g := GroupRun(r);
    GroupRunNoPipes(r);
    NoPipesDrop(r, g);
    FinishNoPipes(word, r);
    FinishNoPipes(word, r[g..]);
    MatchAfterIs(word, n, r, g, r[g..]);
    MatchAfterIs(word, n, NoPipes(r), g, NoPipes(r[g..]));
  }

  /** The match after `n` leading digits, from the group run and what can finish it behind the groups
      or at once. */
  function Longest(n: nat, g: nat, grouped: Option<nat>, plain: Option<nat>): Option<nat> {
    if n <= 3 && g > 0 && grouped.Some? then Some(n + g + grouped.value)
    else if n <= 3 && g > 4 then Some(n + g - 4)
    else if plain.Some? then Some(n + plain.value)
    else None
  }

  lemma MatchAfterIs(word: char -> bool, n: nat, r: string, g: nat, rest: string)
    requires g == GroupRun(r) && rest == r[g..]
    ensures MatchAfter(word, n, r) == Longest(n, g, Finish(word, rest), Finish(word, r))
  {
  }

  lemma MatchNoPipes(word: char -> bool, s: string)
    requires WordClass(word)
    ensures Match(word, NoPipes(s)) == Match(word, s)
  {
    DigitRunNoPipes(s);
    NoPipesDrop(s, DigitRun(s));
    MatchAfterNoPipes(word, DigitRun(s), s[DigitRun(s)..]);
  }

  lemma TokenNoPipes(word: char -> bool, s: string)
    requires WordClass(word) && Match(word, s).Some?
    ensures NoPipes(s[..Match(word, s).value]) == s[..Match(word, s).value]
  {
    MatchIsAllowed(word, s);
    TokenPlain(s[..Match(word, s).value]);
    NoPipesSame(s[..Match(word, s).value]);
  }

  lemma TokenPlain(t: string)
    requires IsToken(t)
    ensures '|' !in t
  {
    var p := PointAt(t);
    PointAtIs(t);
    WholePlain(t[..p]);
    assert forall i | 0 <= i < p :: t[i] == t[..p][i];
    assert forall i | p < i < |t| :: t[i] == t[p + 1..][i - p - 1];
  }

  lemma {:induction false} GroupsPlain(s: string)
    requires Groups(s)
    ensures '|' !in s
  {
    if s != [] {
      GroupsPlain(s[4..]);
      assert forall i | 1 <= i < 4 :: s[i] == s[1..4][i - 1];
      assert forall i | 4 <= i < |s| :: s[i] == s[4..][i - 4];
    }
  }

  lemma WholePlain(w: string)
    requires IsWhole(w)
    ensures '|' !in w
  {
    var n := DigitRun(w);
    DigitRunDigits(w);
    if n < |w| {
      GroupsPlain(w[n..]);
    }
    assert forall i | 0 <= i < n :: w[i] == w[..n][i];
    assert forall i | n <= i < |w| :: w[i] == w[n..][i - n];
  }
}
