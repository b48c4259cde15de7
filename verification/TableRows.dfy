/**
 Reading a printed table row back: cut at its bars it gives the cells again.
 */
module TableRows {
  import opened Basics
  import opened Report
  import opened TextLines
  import opened TableScan

  /** The parts of a line between its bars. */
  function CutAtBars(line: string): (parts: seq<string>)
    ensures parts != []
  {
    if line == [] then [""]
    else if line[0] == '|' then [""] + CutAtBars(line[1..])
    else AddToFirst(line[0], CutAtBars(line[1..]))
  }

  lemma {:induction false} CutFirst(a: string, rest: string)
    requires '|' !in a
    ensures CutAtBars(a + ("|" + rest)) == [a] + CutAtBars(rest)
  {
    if a == [] {
      assert a + ("|" + rest) == "|" + rest && ("|" + rest)[1..] == rest;
    } else {
      assert (a + ("|" + rest))[1..] == a[1..] + ("|" + rest);
      CutFirst(a[1..], rest);
      HeadTail(a, 0);
    }
  }

  /** Cells as they stand between bars. */
  function Padded(cells: seq<string>): (r: seq<string>)
    ensures |r| == |cells| && forall i | 0 <= i < |r| :: r[i] == " " + cells[i] + " "
  {
    seq(|cells|, i requires 0 <= i < |cells| => " " + cells[i] + " ")
  }

  lemma PaddedCons(cells: seq<string>)
    requires cells != []
    ensures Padded(cells) == [" " + cells[0] + " "] + Padded(cells[1..])
  {
  }

  predicate NoBars(cells: seq<string>) {
    forall i | 0 <= i < |cells| :: '|' !in cells[i]
  }

  lemma {:induction false} CutCells(cells: seq<string>)
    requires cells != [] && NoBars(cells)
    ensures CutAtBars(" " + Join(" | ", cells) + " |") == Padded(cells) + [""]
  {
    var first := " " + cells[0] + " ";
    PaddedCons(cells);
    if |cells| == 1 {
      assert " " + Join(" | ", cells) + " |" == first + ("|" + "");
      CutFirst(first, "");
      assert Padded(cells[1..]) == [];
    } else {
      var rest := " " + Join(" | ", cells[1..]) + " |";
      JoinedRow(cells[0], Join(" | ", cells[1..]));
      CutFirst(first, rest);
      CutCells(cells[1..]);
      Assoc([first], Padded(cells[1..]), [""]);
    }
  }

  lemma JoinedRow(c: string, more: string)
    ensures " " + (c + " | " + more) + " |" == (" " + c + " ") + ("|" + (" " + more + " |"))
  {
  }

  lemma RowOpens(inner: string)
    ensures "| " + inner + " |" == "" + ("|" + (" " + inner + " |"))
  {
  }

  /** A printed row, cut at its bars: the cells with their bars replaced, in order. */
  lemma RowReadsBack(cells: seq<string>)
    requires cells != []
    ensures CutAtBars(RowLine(MapNoPipes(cells))) == [""] + (Padded(MapNoPipes(cells)) + [""])
  {
    var parts := MapNoPipes(cells);
    forall i | 0 <= i < |parts| ensures '|' !in parts[i] {
      NoPipesAt(cells[i]);
    }
    CutCells(parts);
    RowOpens(Join(" | ", parts));
    CutFirst("", " " + Join(" | ", parts) + " |");
  }
}
