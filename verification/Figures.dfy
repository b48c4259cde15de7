/**
 Which figures a draft may contain, and which figure a table shows under which heading: both said about
 the findings and updates of the request.
 */
module Figures {
  import opened Basics
  import opened Numbers
  import opened NumberScan
  import opened Report
  import opened Grounding
  import opened Percentages

  // ---------------------------------------------------------------- the allowed numbers

  /** The life-of-project figure. */
  ghost predicate LifeFigure(env: Env, f: Finding, x: real) {
    && f.lifeOfProject.Some?
    && var v := Some(Text(f.lifeOfProject.value.value)); (ToNumber(env, v) == Some(x) || IsPercent(env, v, f.target, x))
  }

  /** A figure that a finding contributes: one of its four recorded values, its life-of-project value, or
      what percentage of the target the value or the life-of-project value is. */
  ghost predicate Figure(env: Env, f: Finding, x: real) {
    || ToNumber(env, f.value) == Some(x) || ToNumber(env, f.baseline) == Some(x)
    || ToNumber(env, f.target) == Some(x) || ToNumber(env, f.comparisonValue) == Some(x)
    || (f.valueStatus != Some("NOT_CALCULABLE") && IsPercent(env, f.value, f.target, x))
    || LifeFigure(env, f, x)
  }

  /** `n` is one of the figure's roundings to at most two decimals. */
  ghost predicate Rounded(x: real, n: string) {
    exists k: nat :: k <= 2 && RoundsTo(x, k, n)
  }

  ghost predicate RoundedFigure(env: Env, f: Finding, n: string) {
    exists x :: Figure(env, f, x) && Rounded(x, n)
  }

  lemma NumberVariants(v: Option<real>, n: string)
    ensures n in Variants(v) <==> exists x :: v == Some(x) && Rounded(x, n)
  {
    if v.Some? {
      VariantsIff(v.value, n);
    }
  }

  lemma PercentVariants(env: Env, value: Option<Scalar>, target: Option<Scalar>, n: string)
    ensures n in Variants(PercentOfTarget(env, value, target)) <==> exists x :: IsPercent(env, value, target, x) && Rounded(x, n)
  {
    var pct := PercentOfTarget(env, value, target);
    NumberVariants(pct, n);
    forall x ensures pct == Some(x) <==> IsPercent(env, value, target, x) {
      PercentIff(env, value, target, x);
    }
  }

  lemma LifeVariants(env: Env, f: Finding, n: string)
    requires f.lifeOfProject.Some?
    ensures n in Variants(ToNumber(env, LifeScalar(f))) || n in Variants(PercentOfTarget(env, LifeScalar(f), f.target)) <==>
            exists x :: LifeFigure(env, f, x) && Rounded(x, n)
  {
    NumberVariants(ToNumber(env, LifeScalar(f)), n);
    PercentVariants(env, LifeScalar(f), f.target, n);
    var v := LifeScalar(f);
    assert forall x :: LifeFigure(env, f, x) <==> ToNumber(env, v) == Some(x) || IsPercent(env, v, f.target, x);
  }

  /** What a finding contributes: the roundings of its figures, and nothing else. */
  lemma FindingNumbersIff(env: Env, f: Finding, n: string)
    ensures n in FindingNumbers(env, f) <==> RoundedFigure(env, f, n)
  {
    NumberVariants(ToNumber(env, f.value), n);
    NumberVariants(ToNumber(env, f.baseline), n);
    NumberVariants(ToNumber(env, f.target), n);
    NumberVariants(ToNumber(env, f.comparisonValue), n);
    PercentVariants(env, f.value, f.target, n);
    if f.lifeOfProject.Some? {
      LifeVariants(env, f, n);
    }
  }

  /** A percentage that an update contributes: one of its two recorded values against the target of the
      last calculable finding of its indicator. */
  ghost predicate UpdateFigure(env: Env, findings: seq<Finding>, u: Update, x: real) {
    exists i: nat, recorded: Option<string> ::
      && LastCalculable(findings, u.indicatorCode, i) && (recorded == u.cumulativeAchievement || recorded == u.periodAchievement)
      && recorded.Some? && IsPercent(env, Some(Text(recorded.value)), findings[i].target, x)
  }

  ghost predicate RoundedUpdate(env: Env, findings: seq<Finding>, u: Update, n: string) {
    exists x :: UpdateFigure(env, findings, u, x) && Rounded(x, n)
  }

  lemma UpdateNumbersIff(env: Env, findings: seq<Finding>, u: Update, n: string)
    ensures n in UpdateNumbers(env, findings, u) <==> RoundedUpdate(env, findings, u, n)
  {
    UpdateNumbersAre(env, findings, u, n);
    forall recorded: string, i: nat | i < |findings|
      ensures n in Variants(PercentOfTarget(env, Some(Text(recorded)), findings[i].target)) <==>
              exists x :: IsPercent(env, Some(Text(recorded)), findings[i].target, x) && Rounded(x, n)
    {
      PercentVariants(env, Some(Text(recorded)), findings[i].target, n);
    }
  }

  /** A number written in the text, in normal form. */
  ghost predicate Written(word: char -> bool, text: string, n: string) {
    exists t :: t in Extract(word, text) && Normalise(t) == n
  }

  predicate Is(v: Option<Scalar>, c: string) {
    v.Some? && c == Printed(v.value)
  }

  /** The text of a field of the finding. */
  predicate FieldOf(f: Finding, c: string) {
    || c == f.indicatorCode || f.indicatorId == Some(c) || f.indicatorName == Some(c) || f.indicatorType == Some(c)
    || f.logframeLevel == Some(c) || f.outcomeCode == Some(c) || f.valueStatus == Some(c) || f.unit == Some(c)
    || f.evaluation == Some(c) || c in f.qualityFlags || c in f.extra
    || Is(f.baseline, c) || Is(f.target, c) || Is(f.value, c) || Is(f.comparisonValue, c)
    || (f.lifeOfProject.Some? && var l := f.lifeOfProject.value; c == l.value || l.asOf == Some(c) || c in l.extra)
  }

  lemma FieldIff(f: Finding, c: string)
    ensures c in FindingTexts(f) <==> FieldOf(f, c)
  {
  }

  predicate UpdateField(u: Update, c: string) {
    || c == u.indicatorCode || u.periodAchievement == Some(c) || u.cumulativeAchievement == Some(c)
    || u.dataSource == Some(c) || c in u.extra
  }

  lemma UpdateFieldIff(u: Update, c: string)
    ensures c in UpdateTexts(u) <==> UpdateField(u, c)
  {
  }

  /** The texts of the request. */
  predicate TextOf(req: Request, c: string) {
    || c == req.title || c in req.sectionTitles || c in req.other
    || (exists f :: f in req.findings && FieldOf(f, c))
    || (exists u :: u in req.updates && UpdateField(u, c))
  }

  lemma {:induction false} FindingsWalked(findings: seq<Finding>, c: string)
    ensures c in WalkFindings(findings) <==> exists f :: f in findings && FieldOf(f, c)
  {
    if findings != [] {
      FieldIff(findings[0], c);
      FindingsWalked(findings[1..], c);
    }
  }

  lemma {:induction false} UpdatesWalked(updates: seq<Update>, c: string)
    ensures c in WalkUpdates(updates) <==> exists u :: u in updates && UpdateField(u, c)
  {
    if updates != [] {
      UpdateFieldIff(updates[0], c);
      UpdatesWalked(updates[1..], c);
    }
  }

  lemma WalkIff(req: Request, c: string)
    ensures c in Walk(req) <==> TextOf(req, c)
  {
    FindingsWalked(req.findings, c);
    UpdatesWalked(req.updates, c);
  }

  lemma TextsIff(word: char -> bool, texts: seq<string>, n: string)
    ensures n in TextsAllowed(word, texts) <==> exists c :: c in texts && Written(word, c, n)
  {
    CollectMembers(texts, (c: string) => NormalForms(Extract(word, c)), n);
    forall c ensures n in NormalForms(Extract(word, c)) <==> Written(word, c, n) {
      WrittenIff(Extract(word, c), n);
    }
  }

  lemma WrittenIff(tokens: seq<string>, n: string)
    ensures n in NormalForms(tokens) <==> exists t :: t in tokens && Normalise(t) == n
  {
    if t :| t in tokens && Normalise(t) == n {
      var i :| 0 <= i < |tokens| && tokens[i] == t;
      assert Normalise(tokens[i]) == n;
    }
  }

  /** The numbers a draft may contain: those written in a text of the request, the roundings of its
      findings' figures and of its updates' percentages, and no others. */
  lemma AllowedIff(env: Env, req: Request, n: string)
    ensures n in Allowed(env, req) <==>
            || (exists c :: TextOf(req, c) && Written(env.word, c, n))
            || (exists f :: f in req.findings && RoundedFigure(env, f, n))
            || (exists u :: u in req.updates && RoundedUpdate(env, req.findings, u, n))
  {
    TextsIff(env.word, Walk(req), n);
    forall c ensures c in Walk(req) <==> TextOf(req, c) {
      WalkIff(req, c);
    }
    FindingsIff(env, req.findings, n);
    UpdatesIff(env, req.findings, req.updates, n);
  }

  lemma FindingsIff(env: Env, findings: seq<Finding>, n: string)
    ensures n in FindingsAllowed(env, findings) <==> exists f :: f in findings && RoundedFigure(env, f, n)
  {
    CollectMembers(findings, (f: Finding) => FindingNumbers(env, f), n);
    forall f ensures n in FindingNumbers(env, f) <==> RoundedFigure(env, f, n) {
      FindingNumbersIff(env, f, n);
    }
  }

  lemma UpdatesIff(env: Env, findings: seq<Finding>, updates: seq<Update>, n: string)
    ensures n in UpdatesAllowed(env, findings, updates) <==> exists u :: u in updates && RoundedUpdate(env, findings, u, n)
  {
    CollectMembers(updates, (u: Update) => UpdateNumbers(env, findings, u), n);
    forall u ensures n in UpdateNumbers(env, findings, u) <==> RoundedUpdate(env, findings, u, n) {
      UpdateNumbersIff(env, findings, u, n);
    }
  }

  // ---------------------------------------------------------------- figures under their headings

  /** Place `i` of the row has this heading, and no other place has. */
  predicate Heads(columns: seq<string>, i: nat, heading: string) {
    i < |columns| && columns[i] == heading && forall j | 0 <= j < |columns| && columns[j] == heading :: j == i
  }

  /** The one cell under the heading. */
  ghost predicate Under(columns: seq<string>, cells: seq<string>, heading: string, cell: string) {
    |columns| == |cells| && exists i: nat :: Heads(columns, i, heading) && cells[i] == cell
  }

  /** A text as it stands in a table: a dash if it is missing or empty. */
  predicate ShowsText(s: Option<string>, cell: string) {
    if s == None || s == Some("") then cell == DASH else s == Some(cell)
  }

  predicate ShowsFigure(v: Option<Scalar>, cell: string) {
    ShowsText(if v.Some? then Some(Printed(v.value)) else None, cell)
  }

  predicate Calculable(f: Finding) {
    f.value != None && f.valueStatus != Some("NOT_CALCULABLE") && "MISSING_DENOMINATOR" !in f.qualityFlags
  }

  /** The value of the period is not given where it is not calculable. */
  predicate ShowsValue(f: Finding, cell: string) {
    if Calculable(f) then ShowsFigure(f.value, cell) else cell == "Not calculable"
  }

  predicate ShowsStatus(f: Finding, cell: string) {
    if !Calculable(f) then cell == "Not calculable"
    else match f.evaluation
         case Some("POSITIVE") => cell == "On track"
         case Some("NEGATIVE") => cell == "Below expectation"
         case Some("NEUTRAL") => cell == "Descriptive only"
         case _ => cell == DASH
  }

  /** Update `i` is the last one of the indicator that names a data source. */
  predicate LastSource(updates: seq<Update>, code: string, i: nat) {
    && i < |updates| && NamesSource(updates[i], code)
    && forall j | i < j < |updates| :: !NamesSource(updates[j], code)
  }

  predicate NamesSource(u: Update, code: string) {
    u.indicatorCode == code && u.dataSource != None && u.dataSource != Some("")
  }

  ghost predicate ShowsSource(updates: seq<Update>, code: string, cell: string) {
    if exists i: nat :: LastSource(updates, code, i)
    then exists i: nat :: LastSource(updates, code, i) && updates[i].dataSource == Some(cell)
    else cell == "Project records"
  }

  lemma {:induction false} SourceShows(updates: seq<Update>, code: string)
    ensures if SourceOf(updates, code).None? then forall j | 0 <= j < |updates| :: !NamesSource(updates[j], code)
            else exists i: nat :: LastSource(updates, code, i) && updates[i].dataSource == SourceOf(updates, code)
  {
    if updates != [] {
      var last := |updates| - 1;
      var before := updates[..last];
      if NamesSource(updates[last], code) {
        assert LastSource(updates, code, last);
      } else {
        SourceShows(before, code);
        if SourceOf(before, code).Some? {
          var i: nat :| LastSource(before, code, i) && before[i].dataSource == SourceOf(before, code);
          assert LastSource(updates, code, i);
        }
      }
    }
  }

  lemma SourceCellShows(req: Request, f: Finding)
    ensures ShowsSource(req.updates, f.indicatorCode, SourceCell(req, f))
  {
    SourceShows(req.updates, f.indicatorCode);
  }

  /** What every table shows of a finding. */
  ghost predicate SharedShown(f: Finding, columns: seq<string>, cells: seq<string>, target: string) {
    && Under(columns, cells, "Code", f.indicatorCode)
    && (exists c :: Under(columns, cells, "Indicator", c) && ShowsText(f.indicatorName, c))
    && (exists c :: Under(columns, cells, "Unit", c) && ShowsText(f.unit, c))
    && (exists c :: Under(columns, cells, "Baseline", c) && ShowsFigure(f.baseline, c))
    && (exists c :: Under(columns, cells, target, c) && ShowsFigure(f.target, c))
  }

  ghost predicate LifeShown(env: Env, f: Finding, columns: seq<string>, cells: seq<string>) {
    && (exists c :: Under(columns, cells, "Cumulative to date", c)
                    && ShowsText(if f.lifeOfProject.Some? then Some(f.lifeOfProject.value.value) else None, c))
    && (exists c :: Under(columns, cells, "% of project target", c)
                    && PercentCell(env, f.lifeOfProject.Some? && !IsRate(f), LifeScalar(f), f.target, c))
  }

  ghost predicate PeriodShown(env: Env, req: Request, f: Finding, columns: seq<string>, cells: seq<string>) {
    && (exists c :: Under(columns, cells, "This period", c) && ShowsValue(f, c))
    && (exists c :: Under(columns, cells, "Previous", c) && ShowsFigure(f.comparisonValue, c))
    && (exists c :: Under(columns, cells, "% of target", c)
                    && PercentCell(env, Calculable(f) && !IsRate(f), f.value, f.target, c))
    && (exists c :: Under(columns, cells, "Status", c) && ShowsStatus(f, c))
    && (exists c :: Under(columns, cells, "Data source", c) && ShowsSource(req.updates, f.indicatorCode, c))
  }

  predicate Distinct(columns: seq<string>) {
    forall i, j | 0 <= i < j < |columns| :: columns[i] != columns[j]
  }

  lemma UnderAt(columns: seq<string>, cells: seq<string>, i: nat)
    requires Distinct(columns) && i < |columns| == |cells|
    ensures Under(columns, cells, columns[i], cells[i])
  {
    assert Heads(columns, i, columns[i]);
  }

  lemma HeadingsDistinct()
    ensures Distinct(COLUMNS) && Distinct(IndicatorColumns(true)) && Distinct(CUMULATIVE_COLUMNS)
  {
  }

  lemma TextShows(s: Option<string>)
    ensures ShowsText(s, OrElse(s, DASH))
  {
  }

  lemma FigureShows(v: Option<Scalar>)
    ensures ShowsFigure(v, Cell(v))
  {
  }

  lemma StatusShows(f: Finding)
    ensures ShowsStatus(f, StatusCell(f)) && ShowsValue(f, ValueCell(f))
  {
  }

  /** The first five cells of every row. */
  lemma SharedShows(f: Finding, columns: seq<string>, cells: seq<string>, target: string)
    requires Distinct(columns) && |columns| == |cells| > 5 && cells[..5] == SharedCells(f)
    requires columns[..5] == ["Code", "Indicator", "Unit", "Baseline", target]
    ensures SharedShown(f, columns, cells, target)
  {
    SharedAt(f, cells);
    HeadingsAt(columns, target);
    UnderAt(columns, cells, 0);
    UnderAt(columns, cells, 1);
    UnderAt(columns, cells, 2);
    UnderAt(columns, cells, 3);
    UnderAt(columns, cells, 4);
    TextShows(f.indicatorName);
    TextShows(f.unit);
    FigureShows(f.baseline);
    FigureShows(f.target);
  }

  lemma HeadingsAt(columns: seq<string>, target: string)
    requires |columns| > 5 && columns[..5] == ["Code", "Indicator", "Unit", "Baseline", target]
    ensures columns[0] == "Code" && columns[1] == "Indicator" && columns[2] == "Unit" && columns[3] == "Baseline" && columns[4] == target
  {
    assert forall i | 0 <= i < 5 :: columns[i] == columns[..5][i];
  }

  lemma SharedAt(f: Finding, cells: seq<string>)
    requires |cells| > 5 && cells[..5] == SharedCells(f)
    ensures cells[0] == f.indicatorCode && cells[1] == OrElse(f.indicatorName, DASH) && cells[2] == OrElse(f.unit, DASH)
    ensures cells[3] == Cell(f.baseline) && cells[4] == Cell(f.target)
  {
    assert forall i | 0 <= i < 5 :: cells[i] == cells[..5][i];
  }

  /** The two life-of-project cells, at place `k`. */
  lemma LifeShows(env: Env, f: Finding, columns: seq<string>, cells: seq<string>, k: nat)
    requires Distinct(columns) && k + 1 < |columns| == |cells|
    requires columns[k] == "Cumulative to date" && columns[k + 1] == "% of project target"
    requires cells[k] == Cell(LifeScalar(f)) && cells[k + 1] == LifePctCell(env, f)
    ensures LifeShown(env, f, columns, cells)
  {
    UnderAt(columns, cells, k);
    UnderAt(columns, cells, k + 1);
    FigureShows(LifeScalar(f));
    LifePctCellIff(env, f, cells[k + 1]);
  }

  /** The cells of the period, with the last two at place `k`. */
  lemma PeriodShows(env: Env, req: Request, f: Finding, columns: seq<string>, cells: seq<string>, k: nat)
    requires Distinct(columns) && 8 <= k && k + 1 < |columns| == |cells|
    requires columns[5] == "This period" && columns[6] == "Previous" && columns[7] == "% of target"
    requires columns[k] == "Status" && columns[k + 1] == "Data source"
    requires cells[5] == ValueCell(f) && cells[6] == Cell(f.comparisonValue) && cells[7] == PctCell(env, f)
    requires cells[k] == StatusCell(f) && cells[k + 1] == SourceCell(req, f)
    ensures PeriodShown(env, req, f, columns, cells)
  {
    UnderAt(columns, cells, 5);
    UnderAt(columns, cells, 6);
    UnderAt(columns, cells, 7);
    UnderAt(columns, cells, k);
    UnderAt(columns, cells, k + 1);
    FigureShows(f.comparisonValue);
    StatusShows(f);
    SourceCellShows(req, f);
    PctCellIff(env, f, cells[7]);
    assert PercentCell(env, Calculable(f) && !IsRate(f), f.value, f.target, cells[7]) by {
      if f.value == None {
        NoValue(env, f.target, cells[7]);
      }
    }
  }

  lemma NoValue(env: Env, target: Option<Scalar>, cell: string)
    ensures forall shown :: PercentCell(env, shown, None, target, cell) <==> cell == DASH
  {
  }

  lemma IndicatorCellsAt(env: Env, req: Request, f: Finding)
    ensures var cells, k := IndicatorCells(env, req, f), if HasLifeOfProject(req) then 10 else 8;
            && |cells| == k + 2 && cells[..5] == SharedCells(f)
            && cells[5] == ValueCell(f) && cells[6] == Cell(f.comparisonValue) && cells[7] == PctCell(env, f)
            && (k == 10 ==> cells[8] == Cell(LifeScalar(f)) && cells[9] == LifePctCell(env, f))
            && cells[k] == StatusCell(f) && cells[k + 1] == SourceCell(req, f)
  {
  }

  lemma IndicatorColumnsAt(life: bool)
    ensures var columns, k := IndicatorColumns(life), if life then 10 else 8;
            && |columns| == k + 2 && columns[..5] == ["Code", "Indicator", "Unit", "Baseline", "Target"]
            && columns[5] == "This period" && columns[6] == "Previous" && columns[7] == "% of target"
            && (k == 10 ==> columns[8] == "Cumulative to date" && columns[9] == "% of project target")
            && columns[k] == "Status" && columns[k + 1] == "Data source"
  {
  }

  /** In the indicator table every figure, label and source stands under its own heading. */
  lemma IndicatorRowShows(env: Env, req: Request, f: Finding)
    ensures var columns, cells := IndicatorColumns(HasLifeOfProject(req)), IndicatorCells(env, req, f);
            && SharedShown(f, columns, cells, "Target") && PeriodShown(env, req, f, columns, cells)
            && (if HasLifeOfProject(req) then LifeShown(env, f, columns, cells)
                else "Cumulative to date" !in columns && "% of project target" !in columns)
  {
    var life := HasLifeOfProject(req);
    var columns, cells := IndicatorColumns(life), IndicatorCells(env, req, f);
    HeadingsDistinct();
    IndicatorCellsAt(env, req, f);
    IndicatorColumnsAt(life);
    SharedShows(f, columns, cells, "Target");
    PeriodShows(env, req, f, columns, cells, if life then 10 else 8);
    if life {
      LifeShows(env, f, columns, cells, 8);
    } else {
      NoLifeColumns();
    }
  }

  lemma NoLifeColumns()
    ensures "Cumulative to date" !in COLUMNS && "% of project target" !in COLUMNS
  {
  }

  /** So they do in the cumulative table. */
  lemma CumulativeRowShows(env: Env, f: Finding)
    ensures SharedShown(f, CUMULATIVE_COLUMNS, CumulativeCells(env, f), "Project target")
    ensures LifeShown(env, f, CUMULATIVE_COLUMNS, CumulativeCells(env, f))
    ensures exists c :: Under(CUMULATIVE_COLUMNS, CumulativeCells(env, f), "As of", c)
                        && ShowsText(if f.lifeOfProject.Some? then f.lifeOfProject.value.asOf else None, c)
  {
    var cells := CumulativeCells(env, f);
    HeadingsDistinct();
    CumulativeAt(env, f);
    SharedShows(f, CUMULATIVE_COLUMNS, cells, "Project target");
    LifeShows(env, f, CUMULATIVE_COLUMNS, cells, 5);
    UnderAt(CUMULATIVE_COLUMNS, cells, 7);
    TextShows(if f.lifeOfProject.Some? then f.lifeOfProject.value.asOf else None);
  }

  lemma CumulativeAt(env: Env, f: Finding)
    ensures var columns, cells := CUMULATIVE_COLUMNS, CumulativeCells(env, f);
            && |columns| == |cells| == 8 && cells[..5] == SharedCells(f)
            && columns[..5] == ["Code", "Indicator", "Unit", "Baseline", "Project target"]
            && columns[5] == "Cumulative to date" && columns[6] == "% of project target" && columns[7] == "As of"
            && cells[5] == Cell(LifeScalar(f)) && cells[6] == LifePctCell(env, f) && cells[7] == AsOfCell(f)
  {
  }
}
