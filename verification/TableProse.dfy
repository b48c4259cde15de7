/**
 Which tables read as prose: what is left when the lines that look like rows are taken out of a
 table's own markdown.
 */
module TableProse {
  import opened Basics
  import opened Report
  import opened TextLines
  import opened TableScan

  // ---------------------------------------------------------------- blank lines and bar lines

  /** What is not a bar line is blank. */
  predicate BarsOrBlank(lines: seq<string>) {
    forall i | 0 <= i < |lines| :: IsBar(lines[i]) || WhiteOnly(lines[i])
  }

  lemma WhiteConcat(a: string, b: string)
    ensures WhiteOnly(a + b) <==> WhiteOnly(a) && WhiteOnly(b)
  {
    assert forall i | 0 <= i < |a| :: a[i] == (a + b)[i];
    assert forall i | 0 <= i < |b| :: b[i] == (a + b)[|a| + i];
  }

  lemma WhiteOne(c: char)
    ensures WhiteOnly([c]) <==> IsSpace(c)
  {
    assert [c][0] == c;
  }

  lemma WhiteCons(s: string)
    requires s != []
    ensures WhiteOnly(s) <==> IsSpace(s[0]) && WhiteOnly(s[1..])
  {
    assert forall i | 1 <= i < |s| :: s[i] == s[1..][i - 1];
  }

  predicate AllWhite(lines: seq<string>) {
    forall i | 0 <= i < |lines| :: WhiteOnly(lines[i])
  }

  lemma {:induction false} WhiteJoin(lines: seq<string>)
    ensures WhiteOnly(Join("\n", lines)) <==> AllWhite(lines)
  {
    if |lines| > 1 {
      WhiteJoin(lines[1..]);
      WhiteConcat(lines[0] + "\n", Join("\n", lines[1..]));
      WhiteConcat(lines[0], "\n");
      WhiteOne('\n');
      assert forall i | 1 <= i < |lines| :: lines[i] == lines[1..][i - 1];
    }
  }

  lemma {:induction false} BlankNonBars(lines: seq<string>)
    ensures BarsOrBlank(lines) <==> AllWhite(NonBars(lines))
  {
    if lines != [] {
      BlankNonBars(lines[1..]);
      BarsOrBlankCons(lines[0], lines[1..]);
      HeadTail(lines, 0);
      AllWhiteCons(lines[0], NonBars(lines[1..]));
      assert [] + NonBars(lines[1..]) == NonBars(lines[1..]);
    }
  }

  lemma AllWhiteCons(line: string, lines: seq<string>)
    ensures AllWhite([line] + lines) <==> WhiteOnly(line) && AllWhite(lines)
  {
    var all := [line] + lines;
    assert all[0] == line && forall i | 0 <= i < |lines| :: lines[i] == all[i + 1];
  }

  lemma BarsOrBlankCons(line: string, lines: seq<string>)
    ensures BarsOrBlank([line] + lines) <==> (IsBar(line) || WhiteOnly(line)) && BarsOrBlank(lines)
  {
    var all := [line] + lines;
    assert all[0] == line && forall i | 0 <= i < |lines| :: lines[i] == all[i + 1];
  }

  lemma NoProse(content: string)
    ensures Prose(content) == "" <==> BarsOrBlank(SplitLines(content))
  {
    var left := NonBars(SplitLines(content));
    TrimBlank(Join("\n", left));
    WhiteJoin(left);
    BlankNonBars(SplitLines(content));
  }

  // ---------------------------------------------------------------- the same, character by character

  /** `bar`: the current line is a bar line; otherwise only white space was read on it. */
  predicate Quiet(bar: bool, s: string)
    decreases |s|
  {
    s == [] ||
    if LineEnd(s[0]) then Quiet(false, s[1..])
    else if bar || s[0] == '|' then Quiet(true, s[1..])
    else IsSpace(s[0]) && Quiet(false, s[1..])
  }

  lemma FirstLonger(c: char, lines: seq<string>)
    requires !LineEnd(c)
    ensures var longer := AddToFirst(c, lines);
            && (BarsOrBlank(longer[1..]) <==> lines == [] || BarsOrBlank(lines[1..]))
            && (BarsOrBlank(longer) <==> if c == '|' then lines == [] || BarsOrBlank(lines[1..]) else IsSpace(c) && BarsOrBlank(lines))
  {
    var longer := AddToFirst(c, lines);
    if lines == [] {
      assert longer[1..] == [] && longer == [[c]] + [];
      BarsOrBlankCons([c], []);
    } else {
      var first := [c] + lines[0];
      assert longer[1..] == lines[1..] && lines == [lines[0]] + lines[1..] && first[1..] == lines[0] && first[0] == c;
      BarsOrBlankCons(first, lines[1..]);
      BarsOrBlankCons(lines[0], lines[1..]);
      WhiteCons(first);
    }
  }

  lemma BlankFirst(lines: seq<string>)
    ensures BarsOrBlank([""] + lines) <==> BarsOrBlank(lines)
    ensures ([""] + lines)[1..] == lines
  {
    BarsOrBlankCons("", lines);
  }

  lemma {:induction false} QuietLines(bar: bool, s: string)
    ensures Quiet(bar, s) <==> if bar then s == [] || BarsOrBlank(SplitLines(s)[1..]) else BarsOrBlank(SplitLines(s))
    decreases |s|
  {
    if s != [] {
      QuietLines(false, s[1..]);
      if LineEnd(s[0]) {
        QuietAfterEnd(s);
      } else {
        QuietLines(true, s[1..]);
        SplitLonger(s[1..]);
        FirstLonger(s[0], SplitLines(s[1..]));
      }
    }
  }

  lemma SplitLonger(s: string)
    ensures SplitLines(s) == [] <==> s == []
  {
  }

  lemma QuietAfterEnd(s: string)
    requires s != [] && LineEnd(s[0])
    ensures BarsOrBlank(SplitLines(s)) <==> BarsOrBlank(SplitLines(s[1..]))
    ensures BarsOrBlank(SplitLines(s)[1..]) <==> BarsOrBlank(SplitLines(s[1..]))
  {
    var next := if s[0] == '\r' && |s| > 1 && s[1] == '\n' then s[2..] else s[1..];
    BlankFirst(SplitLines(next));
    if next != s[1..] {
      assert s[1..][1..] == s[2..];
    }
  }

  // ---------------------------------------------------------------- a table's lines

  /** Nothing but white space stands behind the first line end of a cell. */
  predicate Folds(cell: string) {
    cell == [] || if LineEnd(cell[0]) then WhiteOnly(cell[1..]) else Folds(cell[1..])
  }

  lemma {:induction false} OneLineFolds(cell: string)
    requires NoLineEnds(cell)
    ensures Folds(cell)
  {
    if cell != [] {
      OneLineFolds(cell[1..]);
    }
  }

  /** Replacing pipes does not change it. */
  lemma {:induction false} NoPipesFolds(cell: string)
    ensures Folds(NoPipes(cell)) <==> Folds(cell)
    ensures WhiteOnly(NoPipes(cell)) <==> WhiteOnly(cell)
    ensures '|' !in NoPipes(cell)
  {
    if cell != [] {
      NoPipesFolds(cell[1..]);
      WhiteCons(cell);
      WhiteCons(NoPipes(cell));
      assert NoPipes(cell)[1..] == NoPipes(cell[1..]);
    }
  }

  /** A cell up to the bar behind it. */
  lemma {:induction false} QuietCell(bar: bool, cell: string, rest: string)
    requires '|' !in cell
    ensures Quiet(bar, cell + (['|'] + rest)) <==> (if bar then Folds(cell) else WhiteOnly(cell)) && Quiet(true, rest)
  {
    var s := cell + (['|'] + rest);
    if cell == [] {
      assert s == ['|'] + rest && s[1..] == rest;
    } else {
      assert s[0] == cell[0] && s[1..] == cell[1..] + (['|'] + rest);
      WhiteCons(cell);
      if LineEnd(cell[0]) || !bar {
        QuietCell(false, cell[1..], rest);
      } else {
        QuietCell(true, cell[1..], rest);
      }
    }
  }

  lemma {:induction false} FoldsBlank(cell: string)
    ensures Folds(cell + " ") <==> Folds(cell)
    ensures '|' !in cell ==> '|' !in cell + " "
  {
    if cell == [] {
      assert cell + " " == " " && " "[1..] == "";
    } else {
      assert (cell + " ")[1..] == cell[1..] + " ";
      WhiteConcat(cell[1..], " ");
      FoldsBlank(cell[1..]);
    }
  }

  predicate AllFold(parts: seq<string>) {
    forall j | 0 <= j < |parts| :: Folds(parts[j])
  }

  predicate PipeFree(parts: seq<string>) {
    forall j | 0 <= j < |parts| :: '|' !in parts[j]
  }

  lemma {:induction false} QuietRow(parts: seq<string>, rest: string)
    requires PipeFree(parts)
    ensures Quiet(true, BarText(parts) + rest) <==> AllFold(parts) && Quiet(true, rest)
  {
    if parts == [] {
      assert BarText(parts) + rest == rest;
    } else {
      var tail := BarText(parts[1..]) + rest;
      var cell := parts[0] + " ";
      assert BarText(parts) + rest == [' '] + (cell + (['|'] + tail));
      assert ([' '] + (cell + (['|'] + tail)))[1..] == cell + (['|'] + tail);
      FoldsBlank(parts[0]);
      QuietCell(true, cell, tail);
      QuietRow(parts[1..], rest);
      assert AllFold(parts) <==> Folds(parts[0]) && AllFold(parts[1..]) by { AllFoldCons(parts); }
    }
  }

  lemma AllFoldCons(parts: seq<string>)
    requires parts != []
    ensures AllFold(parts) <==> Folds(parts[0]) && AllFold(parts[1..])
  {
    assert forall j | 1 <= j < |parts| :: parts[j] == parts[1..][j - 1];
  }

  lemma QuietLine(bar: bool, parts: seq<string>, rest: string)
    requires PipeFree(parts)
    ensures Quiet(bar, LineOf(parts) + rest) <==> AllFold(parts) && Quiet(true, rest)
  {
    var s := LineOf(parts) + rest;
    assert s == ['|'] + (BarText(parts) + rest) && s[0] == '|' && s[1..] == BarText(parts) + rest;
    QuietRow(parts, rest);
  }

  predicate AllPipeFree(lines: seq<seq<string>>) {
    forall i | 0 <= i < |lines| :: PipeFree(lines[i])
  }

  predicate AllLinesFold(lines: seq<seq<string>>) {
    forall i | 0 <= i < |lines| :: AllFold(lines[i])
  }

  lemma {:induction false} QuietTable(lines: seq<seq<string>>)
    requires AllPipeFree(lines)
    ensures Quiet(false, Join("\n", LinesOf(lines))) <==> AllLinesFold(lines)
  {
    if lines != [] {
      assert LinesOf(lines)[1..] == LinesOf(lines[1..]);
      assert AllLinesFold(lines) <==> AllFold(lines[0]) && AllLinesFold(lines[1..]) by { LinesFoldCons(lines); }
      if |lines| == 1 {
        QuietLine(false, lines[0], "");
        assert LineOf(lines[0]) + "" == LineOf(lines[0]);
      } else {
        var rest := Join("\n", LinesOf(lines[1..]));
        QuietTable(lines[1..]);
        Assoc(LineOf(lines[0]), "\n", rest);
        QuietLine(false, lines[0], "\n" + rest);
        assert ("\n" + rest)[1..] == rest;
      }
    }
  }

  lemma LinesFoldCons(lines: seq<seq<string>>)
    requires lines != []
    ensures AllLinesFold(lines) <==> AllFold(lines[0]) && AllLinesFold(lines[1..])
  {
    assert forall i | 1 <= i < |lines| :: lines[i] == lines[1..][i - 1];
  }

  lemma PrintedFolds(cells: seq<string>)
    ensures PipeFree(MapNoPipes(cells)) && (AllFold(MapNoPipes(cells)) <==> AllFold(cells))
  {
    forall j | 0 <= j < |cells| ensures '|' !in MapNoPipes(cells)[j] && (Folds(MapNoPipes(cells)[j]) <==> Folds(cells[j])) {
      NoPipesFolds(cells[j]);
    }
  }

  lemma PrintedRowsFold(rows: seq<seq<string>>)
    ensures AllPipeFree(PrintedRows(rows)) && (AllLinesFold(PrintedRows(rows)) <==> AllLinesFold(rows))
  {
    forall i | 0 <= i < |rows| ensures PipeFree(PrintedRows(rows)[i]) && (AllFold(PrintedRows(rows)[i]) <==> AllFold(rows[i])) {
      PrintedFolds(rows[i]);
    }
  }

  lemma PlainFolds(parts: seq<string>)
    requires forall j | 0 <= j < |parts| :: NoLineEnds(parts[j]) && '|' !in parts[j]
    ensures PipeFree(parts) && AllFold(parts)
  {
    forall j | 0 <= j < |parts| ensures Folds(parts[j]) {
      OneLineFolds(parts[j]);
    }
  }

  lemma TwoMore(a: seq<string>, b: seq<string>, lines: seq<seq<string>>)
    requires PipeFree(a) && AllFold(a) && PipeFree(b) && AllFold(b) && AllPipeFree(lines)
    ensures AllPipeFree([a, b] + lines) && (AllLinesFold([a, b] + lines) <==> AllLinesFold(lines))
  {
    var all := [a, b] + lines;
    assert all[0] == a && all[1] == b && forall i | 0 <= i < |lines| :: lines[i] == all[i + 2];
  }

  /** A table leaves no prose exactly when no cell has more than white space behind a line end. */
  lemma TableLeavesNoProse(columns: seq<string>, rows: seq<seq<string>>)
    requires columns != [] && (forall i | 0 <= i < |rows| :: rows[i] != [])
    requires forall j | 0 <= j < |columns| :: NoLineEnds(columns[j]) && '|' !in columns[j]
    ensures Prose(Markdown(columns, rows)) == "" <==> AllLinesFold(rows)
  {
    TableLinesAre(columns, rows);
    PlainFolds(columns);
    PlainFolds(Dashes(|columns|));
    PrintedRowsFold(rows);
    TwoMore(columns, Dashes(|columns|), PrintedRows(rows));
    QuietTable(TableParts(columns, rows));
    QuietLines(false, Markdown(columns, rows));
    NoProse(Markdown(columns, rows));
  }
}
