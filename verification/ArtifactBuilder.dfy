/**
 Deterministic artifacts (`artifact_builder.py`): the two tables, the period delta, and `attach`,
 which puts them onto a section and renumbers its artifacts in place.
 */
module ArtifactBuilder {
  import opened Basics
  import opened Report
  import opened TextLines
  import opened Grounding

  // ---------------------------------------------------------------- data

  datatype Ref = Ref(id: string, name: string)

  datatype Row = Row(cells: seq<Option<string>>, refs: seq<Ref>)

  datatype Series = Series(name: string, data: seq<Option<Scalar>>)

  datatype Direction = Up | Down | Flat

  datatype Delta = Delta(metric: string, before: string, now: string, direction: Direction, evidence: string, refs: seq<Ref>)

  /** A payload dictionary; a missing key is an empty value. */
  datatype Payload = Payload(columns: seq<string>, rows: seq<Row>, series: seq<Series>, delta: Option<Delta>)

  /** An artifact as a value. */
  datatype View = View(kind: string, caption: string, ordinal: int, payload: Payload, refs: seq<Ref>)

  class Artifact {
    const kind: string
    const caption: string
    const payload: Payload
    const refs: seq<Ref>
    var ordinal: int

    constructor (kind: string, caption: string, payload: Payload, refs: seq<Ref>)
      ensures this.kind == kind && ViewOf(this) == View(kind, caption, 0, payload, refs)
    {
      this.kind, this.caption, this.payload, this.refs, ordinal := kind, caption, payload, refs, 0;
    }
  }

  function ViewOf(a: Artifact): View
    reads a
  {
    View(a.kind, a.caption, a.ordinal, a.payload, a.refs)
  }

  function Views(artifacts: seq<Artifact>): (r: seq<View>)
    reads artifacts
    ensures |r| == |artifacts| && forall i | 0 <= i < |r| :: r[i] == ViewOf(artifacts[i])
  {
    seq(|artifacts|, i requires 0 <= i < |artifacts| reads artifacts => ViewOf(artifacts[i]))
  }

  /** `answers` are the texts of the section's question list, which `attach` leaves alone. */
  datatype Section = Section(content: string, artifacts: seq<Artifact>, chartSpec: Option<string>, delta: Option<Delta>, answers: seq<string>)

  datatype SectionView = SectionView(content: string, artifacts: seq<View>, chartSpec: Option<string>, delta: Option<Delta>, answers: seq<string>)

  function SectionViewOf(s: Section): SectionView
    reads s.artifacts
  {
    SectionView(s.content, Views(s.artifacts), s.chartSpec, s.delta, s.answers)
  }

  // ---------------------------------------------------------------- the tables

  /** `_ref` */
  function RefOf(f: Finding): Ref {
    Ref(OrElse(f.indicatorId, f.indicatorCode), f.indicatorCode)
  }

  function Filled(cells: seq<string>): (r: seq<Option<string>>)
    ensures |r| == |cells| && forall i | 0 <= i < |r| :: r[i] == Some(cells[i])
  {
    seq(|cells|, i requires 0 <= i < |cells| => Some(cells[i]))
  }

  function RowsOf(cells: seq<seq<string>>, findings: seq<Finding>): (r: seq<Row>)
    requires |cells| == |findings|
    ensures |r| == |cells| && forall i | 0 <= i < |r| :: r[i] == Row(Filled(cells[i]), [RefOf(findings[i])])
  {
    seq(|cells|, i requires 0 <= i < |cells| => Row(Filled(cells[i]), [RefOf(findings[i])]))
  }

  function RefsOf(findings: seq<Finding>): (r: seq<Ref>)
    ensures |r| == |findings| && forall i | 0 <= i < |r| :: r[i] == RefOf(findings[i])
  {
    seq(|findings|, i requires 0 <= i < |findings| => RefOf(findings[i]))
  }

  function TableView(caption: string, columns: seq<string>, cells: seq<seq<string>>, findings: seq<Finding>): View
    requires |cells| == |findings|
  {
    View("TABLE", caption, 0, Payload(columns, RowsOf(cells, findings), [], None), RefsOf(findings))
  }

  const INDICATOR_CAPTION := "Indicator performance (verified findings)"
  const CUMULATIVE_CAPTION := "Cumulative progress against project targets (verified findings)"

  function IndicatorView(env: Env, req: Request): View {
    var findings := ScopedFindings(env, req);
    TableView(INDICATOR_CAPTION, IndicatorColumns(HasLifeOfProject(req)), IndicatorRows(env, req, findings), findings)
  }

  function CumulativeView(env: Env, req: Request): View {
    var findings := LifeFindings(req);
    TableView(CUMULATIVE_CAPTION, CUMULATIVE_COLUMNS, CumulativeRows(env, findings), findings)
  }

  function RowLines(rows: seq<seq<string>>): (r: seq<string>)
    ensures |r| == |rows| && forall i | 0 <= i < |r| :: r[i] == RowLine(MapNoPipes(rows[i]))
  {
    seq(|rows|, i requires 0 <= i < |rows| => RowLine(MapNoPipes(rows[i])))
  }

  method IndicatorRowsAndLines(env: Env, req: Request, findings: seq<Finding>) returns (rows: seq<Row>, lines: seq<string>)
    ensures rows == RowsOf(IndicatorRows(env, req, findings), findings)
    ensures lines == RowLines(IndicatorRows(env, req, findings))
  {
    ghost var allRows := RowsOf(IndicatorRows(env, req, findings), findings);
    ghost var allLines := RowLines(IndicatorRows(env, req, findings));
    rows, lines := [], [];
    for i := 0 to |findings|
      invariant rows == allRows[..i] && lines == allLines[..i]
    {
      var cells := IndicatorCells(env, req, findings[i]);
      rows := rows + [Row(Filled(cells), [RefOf(findings[i])])];
      lines := lines + [RowLine(MapNoPipes(cells))];
    }
  }

  method CumulativeRowsAndLines(env: Env, findings: seq<Finding>) returns (rows: seq<Row>, lines: seq<string>)
    ensures rows == RowsOf(CumulativeRows(env, findings), findings)
    ensures lines == RowLines(CumulativeRows(env, findings))
  {
    ghost var allRows := RowsOf(CumulativeRows(env, findings), findings);
    ghost var allLines := RowLines(CumulativeRows(env, findings));
    rows, lines := [], [];
    for i := 0 to |findings|
      invariant rows == allRows[..i] && lines == allLines[..i]
    {
      var cells := CumulativeCells(env, findings[i]);
      rows := rows + [Row(Filled(cells), [RefOf(findings[i])])];
      lines := lines + [RowLine(MapNoPipes(cells))];
    }
  }

  lemma LinesOfTable(columns: seq<string>, rows: seq<seq<string>>)
    ensures [RowLine(columns), RowLine(Dashes(|columns|))] + RowLines(rows) == TableLines(columns, rows)
  {
  }

  /** `indicator_table` */
  method IndicatorTable(env: Env, req: Request) returns (built: Option<(Artifact, string)>)
    ensures built.None? <==> req.findings == []
    ensures built.Some? ==> fresh(built.value.0) && ViewOf(built.value.0) == IndicatorView(env, req)
    ensures built.Some? ==> built.value.1 == IndicatorMarkdown(env, req)
  {
    var findings := ScopedFindings(env, req);
    if findings == [] {
      return None;
    }
    var columns := IndicatorColumns(HasLifeOfProject(req));
    var rows, lines := IndicatorRowsAndLines(env, req, findings);
    var table := new Artifact("TABLE", INDICATOR_CAPTION, Payload(columns, rows, [], None), RefsOf(findings));
    built := Some((table, Join("\n", [RowLine(columns), RowLine(Dashes(|columns|))] + lines)));
    LinesOfTable(columns, IndicatorRows(env, req, findings));
  }

  /** `cumulative_table` */
  method CumulativeTable(env: Env, req: Request) returns (built: Option<(Artifact, string)>)
    ensures built.None? <==> !HasLifeOfProject(req)
    ensures built.Some? ==> fresh(built.value.0) && ViewOf(built.value.0) == CumulativeView(env, req)
    ensures built.Some? ==> built.value.1 == CumulativeMarkdown(env, req)
  {
    var findings := LifeFindings(req);
    LifeFindingsExist(req);
    if findings == [] {
      return None;
    }
    var rows, lines := CumulativeRowsAndLines(env, findings);
    var columns := CUMULATIVE_COLUMNS;
    var table := new Artifact("TABLE", CUMULATIVE_CAPTION, Payload(columns, rows, [], None), RefsOf(findings));
    built := Some((table, Join("\n", [RowLine(columns), RowLine(Dashes(|columns|))] + lines)));
    LinesOfTable(columns, CumulativeRows(env, findings));
  }

  lemma LifeFindingsExist(req: Request)
    ensures LifeFindings(req) == [] <==> !HasLifeOfProject(req)
  {
    var mine := LifeFindings(req);
    if mine != [] {
      assert mine[0] in mine;
    }
    forall i | 0 <= i < |req.findings| ensures req.findings[i].lifeOfProject.Some? ==> mine != [] {
      assert req.findings[i].lifeOfProject.Some? ==> req.findings[i] in mine;
    }
  }

  // ---------------------------------------------------------------- the delta

  /** A finding with a usable figure for this period and for the previous one. */
  predicate Comparable(env: Env, f: Finding) {
    !NotCalculable(f) && f.comparisonValue.Some? && ToNumber(env, f.value).Some? && ToNumber(env, f.comparisonValue).Some?
  }

  function Metric(f: Finding): string {
    f.indicatorCode + (if OrEmpty(f.indicatorName) != "" then " (" + OrEmpty(f.indicatorName) + ")" else "")
  }

  function DeltaOf(env: Env, f: Finding): Delta
    requires Comparable(env, f)
  {
    var now, before := ToNumber(env, f.value).value, ToNumber(env, f.comparisonValue).value;
    var v, c := Printed(f.value.value), Printed(f.comparisonValue.value);
    Delta(Metric(f), c, v, if now > before then Up else if now < before then Down else Flat,
          Metric(f) + ": " + c + " in the previous period, " + v + " this period.", [RefOf(f)])
  }

  /** The first comparable finding. */
  function FirstComparable(env: Env, findings: seq<Finding>): (r: Option<nat>)
    ensures r.Some? ==> r.value < |findings| && Comparable(env, findings[r.value])
    ensures forall i | 0 <= i < (if r.Some? then r.value else |findings|) :: !Comparable(env, findings[i])
  {
    if findings == [] then None
    else if Comparable(env, findings[0]) then Some(0)
    else
      var r := FirstComparable(env, findings[1..]);
      assert forall i | 1 <= i < |findings| :: findings[i] == findings[1..][i - 1];
      if r.None? then None else Some(r.value + 1)
  }

  function DeltaFor(env: Env, req: Request): Option<Delta> {
    var first := FirstComparable(env, req.findings);
    if HasLifeOfProject(req) || first.None? then None else Some(DeltaOf(env, req.findings[first.value]))
  }

  /** `period_delta` */
  method PeriodDelta(env: Env, req: Request) returns (delta: Option<Delta>)
    ensures delta == DeltaFor(env, req)
  {
    if HasLifeOfProject(req) {
      return None;
    }
    for i := 0 to |req.findings|
      invariant forall j | 0 <= j < i :: !Comparable(env, req.findings[j])
    {
      var f := req.findings[i];
      if NotCalculable(f) || f.comparisonValue.None? {
        continue;
      }
      var now, before := ToNumber(env, f.value), ToNumber(env, f.comparisonValue);
      if now.None? || before.None? {
        continue;
      }
      var direction := if now.value > before.value then Up else if now.value < before.value then Down else Flat;
      var metric := Metric(f);
      var v, c := Printed(f.value.value), Printed(f.comparisonValue.value);
      return Some(Delta(metric, c, v, direction, metric + ": " + c + " in the previous period, " + v + " this period.", [RefOf(f)]));
    }
    return None;
  }

  /** There is a delta exactly when no finding has a cumulative figure and some finding is
      comparable; it reports the first such finding, the earlier figure first. */
  lemma DeltaIff(env: Env, req: Request)
    ensures DeltaFor(env, req).Some? <==>
            !HasLifeOfProject(req) && exists i | 0 <= i < |req.findings| :: Comparable(env, req.findings[i])
    ensures DeltaFor(env, req).Some? ==>
            exists i | 0 <= i < |req.findings| ::
              && Comparable(env, req.findings[i]) && (forall j | 0 <= j < i :: !Comparable(env, req.findings[j]))
              && Reports(env, DeltaFor(env, req).value, req.findings[i])
  {
  }

  /** The delta names the finding's two figures and compares them the right way round. */
  predicate Reports(env: Env, d: Delta, f: Finding)
    requires Comparable(env, f)
  {
    var now, before := ToNumber(env, f.value).value, ToNumber(env, f.comparisonValue).value;
    && d.before == Printed(f.comparisonValue.value) && d.now == Printed(f.value.value) && d.refs == [RefOf(f)]
    && (d.direction == Up <==> before < now) && (d.direction == Down <==> now < before)
  }

  // ---------------------------------------------------------------- attach, on values

  predicate DeltaKind(kind: string) {
    kind == "ACHIEVEMENT" || kind == "INDICATOR_TABLE" || kind == "EXECUTIVE_SUMMARY"
  }

  /** The kinds of artifact that `attach` supplies itself. */
  predicate BuiltKind(kind: string) {
    kind == "TABLE" || kind == "CHART" || kind == "DELTA"
  }

  /** The case-insensitive pattern `cumulative|life[- ]of[- ]project`. */
  predicate CumulativeTitle(title: string) {
    var t := Lower(title);
    || Contains(t, "cumulative")
    || Contains(t, "life-of-project") || Contains(t, "life-of project")
    || Contains(t, "life of-project") || Contains(t, "life of project")
  }

  /** `is_cumulative_section` */
  predicate IsCumulativeSection(req: Request, kind: string) {
    kind == "ACHIEVEMENT" && HasLifeOfProject(req) && CumulativeTitle(req.title)
  }

  /** The table that a section of this kind gets, and its markdown. */
  function TableFor(env: Env, req: Request, kind: string): Option<(View, string)> {
    if kind == "INDICATOR_TABLE" && req.findings != [] then Some((IndicatorView(env, req), IndicatorMarkdown(env, req)))
    else if IsCumulativeSection(req, kind) then Some((CumulativeView(env, req), CumulativeMarkdown(env, req)))
    else None
  }

  function DeltaView(d: Delta): View {
    View("DELTA", "Change from previous period", 0, Payload([], [], [], Some(d)), d.refs)
  }

  function Kept(views: seq<View>): (r: seq<View>)
    ensures forall v :: v in r <==> v in views && !BuiltKind(v.kind)
  {
    if views == [] then [] else (if BuiltKind(views[0].kind) then [] else [views[0]]) + Kept(views[1..])
  }

  function Renumbered(views: seq<View>): (r: seq<View>)
    ensures |r| == |views| && forall i | 0 <= i < |r| :: r[i] == views[i].(ordinal := i)
  {
    seq(|views|, i requires 0 <= i < |views| => views[i].(ordinal := i))
  }

  function SectionDelta(env: Env, req: Request, kind: string): Option<Delta> {
    if DeltaKind(kind) then DeltaFor(env, req) else None
  }

  function FrontOf(table: Option<(View, string)>): seq<View> {
    if table.Some? then [table.value.0] else []
  }

  function BackOf(delta: Option<Delta>): seq<View> {
    if delta.Some? then [DeltaView(delta.value)] else []
  }

  function AttachedContent(env: Env, content: string, req: Request, kind: string): string {
    var table := TableFor(env, req, kind);
    if table.Some? then Merge(table.value.1, content) else content
  }

  function AttachedViews(env: Env, views: seq<View>, req: Request, kind: string): seq<View> {
    FrontOf(TableFor(env, req, kind)) + Kept(views) + BackOf(SectionDelta(env, req, kind))
  }

  function Attached(env: Env, s: SectionView, req: Request, kind: string): SectionView {
    SectionView(
      AttachedContent(env, s.content, req, kind),
      Renumbered(AttachedViews(env, s.artifacts, req, kind)),
      None, SectionDelta(env, req, kind), s.answers)
  }

  /** Some spelling of the pattern stands in the title, in any case. */
  ghost predicate NamesCumulative(title: string) {
    exists word, i: nat :: word in CUMULATIVE_WORDS && OccursAt(Lower(title), word, i)
  }

  const CUMULATIVE_WORDS := {"cumulative", "life-of-project", "life-of project", "life of-project", "life of project"}

  lemma CumulativeTitleIff(title: string)
    ensures CumulativeTitle(title) <==> NamesCumulative(title)
  {
    forall word ensures Contains(Lower(title), word) <==> exists i: nat :: OccursAt(Lower(title), word, i) {
      ContainsIff(Lower(title), word);
    }
  }

  /** Which sections get a table and a delta: an indicator table where there are findings, the cumulative
      table in an achievement section named for it where a finding has a cumulative figure. */
  lemma AttachKinds(env: Env, req: Request, kind: string)
    ensures var table := TableFor(env, req, kind);
            if kind == "INDICATOR_TABLE" then table.Some? <==> req.findings != []
            else table.Some? <==>
                 kind == "ACHIEVEMENT" && NamesCumulative(req.title) && exists f :: f in req.findings && f.lifeOfProject.Some?
    ensures var table := TableFor(env, req, kind);
            table.Some? ==> table.value.0.caption == (if kind == "INDICATOR_TABLE" then INDICATOR_CAPTION else CUMULATIVE_CAPTION)
    ensures SectionDelta(env, req, kind).Some? <==>
            kind in {"ACHIEVEMENT", "INDICATOR_TABLE", "EXECUTIVE_SUMMARY"} && DeltaFor(env, req).Some?
  {
    CumulativeTitleIff(req.title);
    forall f | f in req.findings && f.lifeOfProject.Some? ensures HasLifeOfProject(req) {
      var i :| 0 <= i < |req.findings| && req.findings[i] == f;
    }
  }

  // ---------------------------------------------------------------- attach, in place

  predicate Distinct(artifacts: seq<Artifact>) {
    forall i, j | 0 <= i < j < |artifacts| :: artifacts[i] != artifacts[j]
  }

  function KeptObjects(artifacts: seq<Artifact>): (r: seq<Artifact>)
    ensures forall a :: a in r ==> a in artifacts && !BuiltKind(a.kind)
    ensures forall a :: a in artifacts && !BuiltKind(a.kind) ==> a in r
  {
    if artifacts == [] then [] else (if BuiltKind(artifacts[0].kind) then [] else [artifacts[0]]) + KeptObjects(artifacts[1..])
  }

  lemma ViewsCons(a: Artifact, rest: seq<Artifact>)
    ensures Views([a] + rest) == [ViewOf(a)] + Views(rest)
  {
  }

  lemma KeptCons(v: View, rest: seq<View>)
    ensures Kept([v] + rest) == (if BuiltKind(v.kind) then [] else [v]) + Kept(rest)
  {
  }

  lemma {:induction false} KeptViews(artifacts: seq<Artifact>)
    ensures Views(KeptObjects(artifacts)) == Kept(Views(artifacts))
  {
    if artifacts != [] {
      var a, rest := artifacts[0], artifacts[1..];
      KeptViews(rest);
      ViewsCons(a, rest);
      ViewsCons(a, KeptObjects(rest));
      HeadTail(artifacts, 0);
      KeptCons(ViewOf(a), Views(rest));
    }
  }

  /** The ordinal of an object is the last place it has in the list. */
  ghost predicate LastPlace(artifacts: seq<Artifact>, n: nat, a: Artifact)
    requires n <= |artifacts|
    reads a
  {
    0 <= a.ordinal < n && artifacts[a.ordinal] == a && forall k | a.ordinal < k < n :: artifacts[k] != a
  }

  /** The same artifacts, whatever their ordinals. */
  predicate SameButOrdinals(a: seq<View>, b: seq<View>) {
    |a| == |b| && forall i | 0 <= i < |a| :: a[i].(ordinal := b[i].ordinal) == b[i]
  }

  /** `for i, art in enumerate(artifacts): art.ordinal = i` */
  method Renumber(artifacts: seq<Artifact>)
    modifies set a | a in artifacts
    ensures forall a :: a in artifacts ==> LastPlace(artifacts, |artifacts|, a)
    ensures SameButOrdinals(Views(artifacts), old(Views(artifacts)))
    ensures Distinct(artifacts) ==> Views(artifacts) == Renumbered(old(Views(artifacts)))
  {
    ghost var before := Views(artifacts);
    for i := 0 to |artifacts|
      invariant forall j | 0 <= j < i :: LastPlace(artifacts, i, artifacts[j])
    {
      artifacts[i].ordinal := i;
    }
    if Distinct(artifacts) {
      assert forall i | 0 <= i < |artifacts| :: artifacts[i].ordinal == i;
    }
  }

  /** After renumbering, the ordinals count 0, 1, 2, ... exactly when no object is listed twice. */
  lemma NumberedIffDistinct(artifacts: seq<Artifact>)
    requires forall a :: a in artifacts ==> LastPlace(artifacts, |artifacts|, a)
    ensures Distinct(artifacts) <==> forall i | 0 <= i < |artifacts| :: artifacts[i].ordinal == i
  {
    forall i | 0 <= i < |artifacts| ensures Distinct(artifacts) ==> artifacts[i].ordinal == i {
      assert LastPlace(artifacts, |artifacts|, artifacts[i]);
    }
  }

  lemma OneView(a: Artifact)
    ensures Views([a]) == [ViewOf(a)]
  {
  }

  /** The table for a section of this kind, and the content with the table in front. */
  method AddTable(env: Env, content: string, req: Request, kind: string) returns (front: seq<Artifact>, merged: string)
    ensures |front| <= 1 && (forall a :: a in front ==> fresh(a)) && Views(front) == FrontOf(TableFor(env, req, kind))
    ensures merged == AttachedContent(env, content, req, kind)
  {
    front, merged := [], content;
    if kind == "INDICATOR_TABLE" {
      var built := IndicatorTable(env, req);
      if built.Some? {
        front, merged := [built.value.0], Merge(built.value.1, merged);
        OneView(built.value.0);
      }
    }
    if IsCumulativeSection(req, kind) {
      var built := CumulativeTable(env, req);
      if built.Some? {
        front, merged := [built.value.0], Merge(built.value.1, merged);
        OneView(built.value.0);
      }
    }
  }

  method AddDelta(env: Env, req: Request, kind: string) returns (back: seq<Artifact>, delta: Option<Delta>)
    ensures delta == SectionDelta(env, req, kind)
    ensures |back| <= 1 && (forall a :: a in back ==> fresh(a)) && Views(back) == BackOf(delta)
  {
    back, delta := [], None;
    if DeltaKind(kind) {
      delta := PeriodDelta(env, req);
    }
    if delta.Some? {
      var change := new Artifact("DELTA", "Change from previous period", Payload([], [], [], Some(delta.value)), delta.value.refs);
      back := [change];
    }
  }

  /** The objects stand in the list from place `n` on. */
  predicate Placed(artifacts: seq<Artifact>, objects: seq<Artifact>, n: nat) {
    n + |objects| <= |artifacts| && artifacts[n..n + |objects|] == objects
  }

  lemma {:induction false} KeptObjectsConcat(a: seq<Artifact>, b: seq<Artifact>)
    ensures KeptObjects(a + b) == KeptObjects(a) + KeptObjects(b)
  {
    if a == [] {
      assert a + b == b;
    } else {
      assert (a + b)[1..] == a[1..] + b;
      KeptObjectsConcat(a[1..], b);
    }
  }

  lemma {:induction false} KeptObjectsAll(artifacts: seq<Artifact>)
    requires forall a :: a in artifacts ==> !BuiltKind(a.kind)
    ensures KeptObjects(artifacts) == artifacts
  {
    if artifacts != [] {
      KeptObjectsAll(artifacts[1..]);
      HeadTail(artifacts, 0);
    }
  }

  lemma {:induction false} KeptObjectsNone(artifacts: seq<Artifact>)
    requires forall a :: a in artifacts ==> BuiltKind(a.kind)
    ensures KeptObjects(artifacts) == []
  {
    if artifacts != [] {
      KeptObjectsNone(artifacts[1..]);
    }
  }

  lemma {:induction false} KeptDistinct(artifacts: seq<Artifact>)
    requires Distinct(artifacts)
    ensures Distinct(KeptObjects(artifacts))
  {
    if artifacts != [] {
      var rest := artifacts[1..];
      assert Distinct(rest);
      assert artifacts[0] !in rest;
      KeptDistinct(rest);
      assert artifacts[0] !in KeptObjects(rest);
    }
  }

  /** Between built artifacts the kept ones are found again. */
  lemma KeptBetween(front: seq<Artifact>, kept: seq<Artifact>, back: seq<Artifact>)
    requires (forall a :: a in front || a in back ==> BuiltKind(a.kind)) && forall a :: a in kept ==> !BuiltKind(a.kind)
    ensures KeptObjects(front + kept + back) == kept && Placed(front + kept + back, kept, |front|)
  {
    KeptObjectsNone(front);
    KeptObjectsAll(kept);
    KeptObjectsNone(back);
    KeptObjectsConcat(front + kept, back);
    KeptObjectsConcat(front, kept);
    assert [] + kept == kept && kept + [] == kept;
  }

  lemma BuiltParts(env: Env, req: Request, kind: string, front: seq<Artifact>, back: seq<Artifact>)
    requires Views(front) == FrontOf(TableFor(env, req, kind)) && Views(back) == BackOf(SectionDelta(env, req, kind))
    ensures |front| == |FrontOf(TableFor(env, req, kind))| && forall a :: a in front || a in back ==> BuiltKind(a.kind)
  {
    assert forall i | 0 <= i < |front| :: Views(front)[i].kind == front[i].kind;
    assert forall i | 0 <= i < |back| :: Views(back)[i].kind == back[i].kind;
  }

  /** The kept artifacts between the table and the delta. */
  method Gather(env: Env, section: Section, req: Request, kind: string)
    returns (artifacts: seq<Artifact>, content: string, delta: Option<Delta>)
    ensures content == AttachedContent(env, section.content, req, kind) && delta == SectionDelta(env, req, kind)
    ensures forall a :: a in artifacts ==> fresh(a) || (a in section.artifacts && !BuiltKind(a.kind))
    ensures Distinct(artifacts) <==> Distinct(KeptObjects(section.artifacts))
    ensures Views(artifacts) == AttachedViews(env, old(Views(section.artifacts)), req, kind)
    ensures KeptObjects(artifacts) == KeptObjects(section.artifacts)
    ensures Placed(artifacts, KeptObjects(section.artifacts), |FrontOf(TableFor(env, req, kind))|)
  {
    var front, kept, back: seq<Artifact>;
    front, kept, back, content, delta := Parts(env, section, req, kind);
    artifacts := front + kept + back;
    InParts(front, kept, back);
    Assembled(env, req, kind, front, kept, back, Views(kept));
  }

  /** The table, the kept artifacts and the delta. */
  method Parts(env: Env, section: Section, req: Request, kind: string)
    returns (front: seq<Artifact>, kept: seq<Artifact>, back: seq<Artifact>, content: string, delta: Option<Delta>)
    ensures content == AttachedContent(env, section.content, req, kind) && delta == SectionDelta(env, req, kind)
    ensures |front| <= 1 && |back| <= 1 && kept == KeptObjects(section.artifacts)
    ensures (forall a :: a in front ==> fresh(a) && a !in back) && forall a :: a in back ==> fresh(a)
    ensures Views(front) == FrontOf(TableFor(env, req, kind)) && Views(back) == BackOf(SectionDelta(env, req, kind))
    ensures Views(kept) == old(Kept(Views(section.artifacts)))
  {
    kept := KeptObjects(section.artifacts);
    KeptViews(section.artifacts);
    ghost var keptViews := Views(kept);
    front, content := AddTable(env, section.content, req, kind);
    back, delta := AddDelta(env, req, kind);
    assert Views(kept) == keptViews;
  }

  /** What is known of the list from what is known of its parts. */
  lemma Assembled(env: Env, req: Request, kind: string, front: seq<Artifact>, kept: seq<Artifact>, back: seq<Artifact>, keptViews: seq<View>)
    requires |front| <= 1 && |back| <= 1 && (forall a :: a in front ==> a !in kept && a !in back) && forall a :: a in back ==> a !in kept
    requires Views(front) == FrontOf(TableFor(env, req, kind)) && Views(back) == BackOf(SectionDelta(env, req, kind))
    requires Views(kept) == keptViews && forall a :: a in kept ==> !BuiltKind(a.kind)
    ensures var all := front + kept + back;
            && (Distinct(all) <==> Distinct(kept)) && KeptObjects(all) == kept
            && Placed(all, kept, |FrontOf(TableFor(env, req, kind))|)
            && Views(all) == FrontOf(TableFor(env, req, kind)) + keptViews + BackOf(SectionDelta(env, req, kind))
  {
    BuiltParts(env, req, kind, front, back);
    KeptBetween(front, kept, back);
    DistinctParts(front, kept, back);
    JoinedViews(front, kept, back, FrontOf(TableFor(env, req, kind)), keptViews, BackOf(SectionDelta(env, req, kind)));
  }

  /** `attach` */
  method Attach(env: Env, section: Section, req: Request, kind: string) returns (out: Section)
    modifies set a | a in section.artifacts
    ensures out.content == AttachedContent(env, section.content, req, kind)
    ensures out.chartSpec == None && out.delta == SectionDelta(env, req, kind) && out.answers == section.answers
    ensures forall a :: a in out.artifacts ==> LastPlace(out.artifacts, |out.artifacts|, a)
    ensures SameButOrdinals(Views(out.artifacts), AttachedViews(env, old(Views(section.artifacts)), req, kind))
    ensures Distinct(out.artifacts) <==> Distinct(KeptObjects(section.artifacts))
    ensures Distinct(out.artifacts) ==> SectionViewOf(out) == Attached(env, old(SectionViewOf(section)), req, kind)
    ensures forall a :: a in section.artifacts && BuiltKind(a.kind) ==> unchanged(a)
    ensures forall a :: a in out.artifacts ==> fresh(a) || (a in section.artifacts && !BuiltKind(a.kind))
    ensures KeptObjects(out.artifacts) == KeptObjects(section.artifacts)
    ensures Placed(out.artifacts, KeptObjects(section.artifacts), |FrontOf(TableFor(env, req, kind))|)
  {
    var artifacts, content, delta := Gather(env, section, req, kind);
    Renumber(artifacts);
    out := Section(content, artifacts, None, delta, section.answers);
  }

  lemma InParts(a: seq<Artifact>, b: seq<Artifact>, c: seq<Artifact>)
    ensures forall x :: x in a + b + c ==> x in a || x in b || x in c
  {
  }

  lemma JoinedViews(a: seq<Artifact>, b: seq<Artifact>, c: seq<Artifact>, x: seq<View>, y: seq<View>, z: seq<View>)
    requires Views(a) == x && Views(b) == y && Views(c) == z
    ensures Views(a + b + c) == x + y + z
  {
  }

  lemma DistinctParts(front: seq<Artifact>, kept: seq<Artifact>, back: seq<Artifact>)
    requires |front| <= 1 && |back| <= 1
    requires forall a :: a in front ==> a !in kept && a !in back
    requires forall a :: a in back ==> a !in kept
    ensures Distinct(front + kept + back) <==> Distinct(kept)
  {
    var all := front + kept + back;
    assert forall i | 0 <= i < |kept| :: all[|front| + i] == kept[i];
    assert forall i | 0 <= i < |front| :: all[i] in front;
    assert forall i | |front| <= i < |front| + |kept| :: all[i] in kept;
    assert forall i | |front| + |kept| <= i < |all| :: all[i] in back;
  }
}
