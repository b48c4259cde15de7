/**
 Validators (`artifact_validators.py`) and how they fit what `attach` builds.
 */
module ArtifactValidators {
  import opened Basics
  import opened Numbers
  import opened NumberScan
  import opened Report
  import opened TextLines
  import opened TableScan
  import opened CellScan
  import opened TableProse
  import opened TableLimits
  import opened Grounding
  import opened ArtifactBuilder

  datatype Issue =
    | NotIncreasing(prev: int, curr: int)
    | Gap(prev: int, curr: int)
    | RowWithoutReferences(row: nat)
    | UngroundedPoint(series: string, index: nat, point: Scalar)
    | MissingDelta

  // ---------------------------------------------------------------- ordinals

  predicate Follows(views: seq<View>, i: nat)
    requires 0 < i < |views|
  {
    views[i].ordinal == views[i - 1].ordinal + 1
  }

  /** `assert_artifact_ordering`: reports the first pair that is not consecutive. */
  method AssertArtifactOrdering(views: seq<View>) returns (issue: Option<Issue>)
    ensures issue.None? <==> forall i | 0 < i < |views| :: Follows(views, i)
    ensures issue.Some? ==>
      exists i | 0 < i < |views| ::
        && !Follows(views, i) && (forall j | 0 < j < i :: Follows(views, j))
        && issue.value == (if views[i].ordinal <= views[i - 1].ordinal then NotIncreasing(views[i - 1].ordinal, views[i].ordinal)
                           else Gap(views[i - 1].ordinal, views[i].ordinal))
  {
    var i := 1;
    while i < |views|
      invariant 1 <= i
      invariant forall j | 0 < j < i && j < |views| :: Follows(views, j)
    {
      var prev, curr := views[i - 1].ordinal, views[i].ordinal;
      if curr <= prev {
        assert !Follows(views, i);
        return Some(NotIncreasing(prev, curr));
      }
      if curr - prev > 1 {
        assert !Follows(views, i);
        return Some(Gap(prev, curr));
      }
      i := i + 1;
    }
    return None;
  }

  // ---------------------------------------------------------------- references

  /** The row shows something and names no source. */
  predicate Uncited(row: Row) {
    (exists i | 0 <= i < |row.cells| :: OrEmpty(row.cells[i]) != "") && row.refs == []
  }

  predicate CitedTable(v: View) {
    v.kind == "TABLE" ==> forall i | 0 <= i < |v.payload.rows| :: !Uncited(v.payload.rows[i])
  }

  /** Row `r` is the first that shows something and names no source. */
  predicate FirstUncitedRow(rows: seq<Row>, r: nat) {
    r < |rows| && Uncited(rows[r]) && forall j | 0 <= j < r :: !Uncited(rows[j])
  }

  method FirstUncited(rows: seq<Row>) returns (issue: Option<Issue>)
    ensures issue.None? <==> forall i | 0 <= i < |rows| :: !Uncited(rows[i])
    ensures issue.Some? ==> issue.value.RowWithoutReferences? && FirstUncitedRow(rows, issue.value.row)
  {
    for i := 0 to |rows|
      invariant forall j | 0 <= j < i :: !Uncited(rows[j])
    {
      if Uncited(rows[i]) {
        return Some(RowWithoutReferences(i));
      }
    }
    return None;
  }

  /** `assert_table_citation`: reports the first such row of the first table that has one. */
  method AssertTableCitation(views: seq<View>) returns (issue: Option<Issue>)
    ensures issue.None? <==> forall i | 0 <= i < |views| :: CitedTable(views[i])
    ensures issue.Some? ==> issue.value.RowWithoutReferences?
    ensures issue.Some? ==>
      exists i | 0 <= i < |views| ::
        && !CitedTable(views[i]) && (forall j | 0 <= j < i :: CitedTable(views[j]))
        && FirstUncitedRow(views[i].payload.rows, issue.value.row)
  {
    for i := 0 to |views|
      invariant forall j | 0 <= j < i :: CitedTable(views[j])
    {
      if views[i].kind != "TABLE" {
        continue;
      }
      issue := FirstUncited(views[i].payload.rows);
      if issue.Some? {
        assert !CitedTable(views[i]);
        return;
      }
    }
    return None;
  }

  // ---------------------------------------------------------------- chart points

  /** The spelling of a point that is looked up: floats with six decimals. */
  function PointToken(p: Scalar): string {
    if p.Float? then Fixed(p.x, 6) else p.s
  }

  predicate PointGrounded(p: Option<Scalar>, allowed: set<string>) {
    p.None? || p.value == Text("") || Normalise(PointToken(p.value)) in allowed
  }

  predicate SeriesGrounded(s: Series, allowed: set<string>) {
    forall i | 0 <= i < |s.data| :: PointGrounded(s.data[i], allowed)
  }

  predicate ChartGrounded(v: View, allowed: set<string>) {
    v.kind == "CHART" ==> forall i | 0 <= i < |v.payload.series| :: SeriesGrounded(v.payload.series[i], allowed)
  }

  method FirstUngroundedPoint(s: Series, allowed: set<string>) returns (issue: Option<Issue>)
    ensures issue.None? <==> SeriesGrounded(s, allowed)
    ensures issue.Some? ==>
      exists i | 0 <= i < |s.data| :: !PointGrounded(s.data[i], allowed) && issue.value == UngroundedPoint(s.name, i, s.data[i].value)
  {
    for i := 0 to |s.data|
      invariant forall j | 0 <= j < i :: PointGrounded(s.data[j], allowed)
    {
      var point := s.data[i];
      if point.None? || point.value == Text("") {
        continue;
      }
      if Normalise(PointToken(point.value)) !in allowed {
        return Some(UngroundedPoint(s.name, i, point.value));
      }
    }
    return None;
  }

  /** The issue names a point of some chart that is not grounded. */
  predicate PointsAt(v: View, allowed: set<string>, issue: Issue) {
    && v.kind == "CHART" && issue.UngroundedPoint?
    && exists k, i | 0 <= k < |v.payload.series| && 0 <= i < |v.payload.series[k].data| ::
         && !PointGrounded(v.payload.series[k].data[i], allowed)
         && issue == UngroundedPoint(v.payload.series[k].name, i, v.payload.series[k].data[i].value)
  }

  /** `assert_chart_data_grounding` */
  method AssertChartDataGrounding(views: seq<View>, verified: set<string>) returns (issue: Option<Issue>)
    ensures issue.Some? ==> exists i | 0 <= i < |views| :: PointsAt(views[i], set v | v in verified :: Normalise(v), issue.value)
    ensures issue.None? <==>
            verified == {} || forall i | 0 <= i < |views| :: ChartGrounded(views[i], set v | v in verified :: Normalise(v))
  {
    if verified == {} {
      return None;
    }
    var allowed := set v | v in verified :: Normalise(v);
    for i := 0 to |views|
      invariant forall j | 0 <= j < i :: ChartGrounded(views[j], allowed)
    {
      if views[i].kind != "CHART" {
        continue;
      }
      var series := views[i].payload.series;
      for k := 0 to |series|
        invariant forall j | 0 <= j < k :: SeriesGrounded(series[j], allowed)
      {
        issue := FirstUngroundedPoint(series[k], allowed);
        if issue.Some? {
          assert PointsAt(views[i], allowed, issue.value);
          return;
        }
      }
    }
    return None;
  }

  // ---------------------------------------------------------------- the delta

  /** A finding with both a current and a previous value, usable or not. */
  predicate HasFigures(f: Finding) {
    f.comparisonValue.Some? && f.value.Some?
  }

  predicate AnyFigures(req: Request) {
    exists i | 0 <= i < |req.findings| :: HasFigures(req.findings[i])
  }

  predicate AnyComparable(env: Env, req: Request) {
    exists i | 0 <= i < |req.findings| :: Comparable(env, req.findings[i])
  }

  /** `assert_delta_from_prior`, called as `run_all` calls it. */
  function DeltaIssue(delta: Option<Delta>, prior: bool, req: Request, kind: string): Option<Issue> {
    var comparable := DeltaKind(kind) && AnyFigures(req);
    if !(prior && comparable) || delta.Some? then None else Some(MissingDelta)
  }

  // ---------------------------------------------------------------- what attach builds passes

  lemma TableCited(caption: string, columns: seq<string>, cells: seq<seq<string>>, findings: seq<Finding>)
    requires |cells| == |findings|
    ensures CitedTable(TableView(caption, columns, cells, findings))
  {
  }

  lemma FrontAndBackPass(env: Env, req: Request, kind: string)
    ensures forall v :: v in FrontOf(TableFor(env, req, kind)) ==> v.kind == "TABLE" && CitedTable(v)
    ensures forall v :: v in BackOf(SectionDelta(env, req, kind)) ==> v.kind == "DELTA"
  {
    var findings := ScopedFindings(env, req);
    TableCited(INDICATOR_CAPTION, IndicatorColumns(HasLifeOfProject(req)), IndicatorRows(env, req, findings), findings);
    TableCited(CUMULATIVE_CAPTION, CUMULATIVE_COLUMNS, CumulativeRows(env, LifeFindings(req)), LifeFindings(req));
  }

  lemma BareAttachedPasses(env: Env, views: seq<View>, req: Request, kind: string, allowed: set<string>)
    ensures var plain := AttachedViews(env, views, req, kind);
            forall i | 0 <= i < |plain| :: CitedTable(plain[i]) && ChartGrounded(plain[i], allowed)
  {
    var plain := AttachedViews(env, views, req, kind);
    FrontAndBackPass(env, req, kind);
    forall i | 0 <= i < |plain| ensures CitedTable(plain[i]) && ChartGrounded(plain[i], allowed) {
      MemberOfParts(FrontOf(TableFor(env, req, kind)), Kept(views), BackOf(SectionDelta(env, req, kind)), i);
    }
  }

  /** After `attach`, whatever the writer's artifacts were, ordinals are consecutive, every table row
      has its source, and there is no chart left to be ungrounded. */
  lemma AttachedPasses(env: Env, s: SectionView, req: Request, kind: string, allowed: set<string>)
    ensures var views := Attached(env, s, req, kind).artifacts;
            && (forall i | 0 < i < |views| :: Follows(views, i))
            && (forall i | 0 <= i < |views| :: CitedTable(views[i]) && ChartGrounded(views[i], allowed))
  {
    BareAttachedPasses(env, s.artifacts, req, kind, allowed);
    PassesWhateverOrdinals(Attached(env, s, req, kind).artifacts, AttachedViews(env, s.artifacts, req, kind), allowed);
  }

  lemma MemberOfParts(a: seq<View>, b: seq<View>, c: seq<View>, i: nat)
    requires i < |a + b + c|
    ensures (a + b + c)[i] in a || (a + b + c)[i] in b || (a + b + c)[i] in c
  {
  }

  lemma {:induction false} CountUp(views: seq<View>, i: nat)
    requires (forall j | 0 < j < |views| :: Follows(views, j)) && i < |views|
    ensures views[i].ordinal == views[0].ordinal + i
  {
    if i > 0 {
      CountUp(views, i - 1);
      assert Follows(views, i);
    }
  }

  /** Ordinals that each follow the one before, the last being the last place, count 0, 1, 2, ... */
  lemma ConsecutiveIsNumbered(views: seq<View>)
    requires views != [] ==> views[|views| - 1].ordinal == |views| - 1
    ensures (forall j | 0 < j < |views| :: Follows(views, j)) <==> forall i | 0 <= i < |views| :: views[i].ordinal == i
  {
    if forall j | 0 < j < |views| :: Follows(views, j) {
      forall i: nat | i < |views| ensures views[i].ordinal == i {
        CountUp(views, i);
        CountUp(views, |views| - 1);
      }
    }
  }

  lemma PassesWhateverOrdinals(a: seq<View>, b: seq<View>, allowed: set<string>)
    requires SameButOrdinals(a, b)
    requires forall i | 0 <= i < |b| :: CitedTable(b[i]) && ChartGrounded(b[i], allowed)
    ensures forall i | 0 <= i < |a| :: CitedTable(a[i]) && ChartGrounded(a[i], allowed)
  {
  }

  lemma LastIsLast(artifacts: seq<Artifact>)
    requires forall a :: a in artifacts ==> LastPlace(artifacts, |artifacts|, a)
    ensures (forall j | 0 < j < |artifacts| :: Follows(Views(artifacts), j)) <==> Distinct(artifacts)
  {
    if artifacts != [] {
      assert LastPlace(artifacts, |artifacts|, artifacts[|artifacts| - 1]);
    }
    ConsecutiveIsNumbered(Views(artifacts));
    NumberedIffDistinct(artifacts);
  }

  /** For the objects that `attach` returns, whatever the section held: the table and chart checks
      pass, and the ordering check passes exactly when no kept artifact is listed twice. */
  method AttachThenCheck(env: Env, section: Section, req: Request, kind: string, verified: set<string>)
    returns (out: Section, ordering: Option<Issue>, citation: Option<Issue>, charts: Option<Issue>)
    modifies set a | a in section.artifacts
    ensures citation.None? && charts.None?
    ensures ordering.None? <==> Distinct(KeptObjects(section.artifacts))
  {
    ghost var plain := AttachedViews(env, Views(section.artifacts), req, kind);
    BareAttachedPasses(env, Views(section.artifacts), req, kind, set v | v in verified :: Normalise(v));
    out := Attach(env, section, req, kind);
    var views := Views(out.artifacts);
    PassesWhateverOrdinals(views, plain, set v | v in verified :: Normalise(v));
    LastIsLast(out.artifacts);
    ordering := AssertArtifactOrdering(views);
    citation := AssertTableCitation(views);
    charts := AssertChartDataGrounding(views, verified);
  }

  /** A section that lists one of the writer's artifacts twice. */
  lemma ListedTwice(a: Artifact)
    requires !BuiltKind(a.kind)
    ensures !Distinct(KeptObjects([a, a]))
  {
    KeptObjectsAll([a, a]);
    assert [a, a][0] == [a, a][1];
  }

  /** The delta check of `run_all` fails after `attach` exactly when it asks for a delta (a prior
      period, a results kind, a finding with both figures) that the builder does not supply (there
      is a cumulative figure, or no pair of figures is usable). */
  lemma DeltaCheckIff(env: Env, s: SectionView, req: Request, kind: string, prior: bool)
    ensures DeltaIssue(Attached(env, s, req, kind).delta, prior, req, kind).Some? <==>
            && prior && DeltaKind(kind) && AnyFigures(req)
            && (HasLifeOfProject(req) || !AnyComparable(env, req))
  {
    DeltaIff(env, req);
  }

  /** Where the builder's own condition holds the check never fails. */
  lemma DeltaCheckPasses(env: Env, s: SectionView, req: Request, kind: string, prior: bool)
    requires DeltaKind(kind) && !HasLifeOfProject(req) && AnyComparable(env, req)
    ensures Attached(env, s, req, kind).delta.Some?
    ensures DeltaIssue(Attached(env, s, req, kind).delta, prior, req, kind).None?
  {
  }

  /** The two conditions differ: "12" before and "n/a" now is a pair of figures that asks for a delta
      and yields none. */
  lemma DeltaCheckCanFail(env: Env, s: SectionView, f: Finding, req: Request)
    requires env.parse("n/a") == None
    requires f.value == Some(Text("n/a")) && f.comparisonValue == Some(Text("12")) && f.lifeOfProject.None?
    requires req.findings == [f]
    ensures DeltaIssue(Attached(env, s, req, "ACHIEVEMENT").delta, true, req, "ACHIEVEMENT") == Some(MissingDelta)
  {
    NotANumber(env);
    assert HasFigures(req.findings[0]) && !Comparable(env, f);
    assert forall i | 0 <= i < |req.findings| :: req.findings[i] == f;
    DeltaCheckIff(env, s, req, "ACHIEVEMENT", true);
  }

  lemma NotANumber(env: Env)
    requires env.parse("n/a") == None
    ensures ToNumber(env, Some(Text("n/a"))).None?
  {
    RemoveCommasNone("n/a");
    TrimTrims("n/a");
  }

  // ---------------------------------------------------------------- attach is idempotent

  lemma {:induction false} KeptConcat(a: seq<View>, b: seq<View>)
    ensures Kept(a + b) == Kept(a) + Kept(b)
  {
    if a == [] {
      assert a + b == b;
    } else {
      assert (a + b)[1..] == a[1..] + b;
      KeptConcat(a[1..], b);
    }
  }

  lemma {:induction false} KeptNone(a: seq<View>)
    requires forall v :: v in a ==> BuiltKind(v.kind)
    ensures Kept(a) == []
  {
    if a != [] {
      KeptNone(a[1..]);
    }
  }

  lemma {:induction false} KeptAll(a: seq<View>)
    requires forall v :: v in a ==> !BuiltKind(v.kind)
    ensures Kept(a) == a
  {
    if a != [] {
      KeptAll(a[1..]);
      HeadTail(a, 0);
    }
  }

  lemma RenumberedParts(a: seq<View>, b: seq<View>, c: seq<View>) returns (x: seq<View>, y: seq<View>, z: seq<View>)
    ensures Renumbered(a + b + c) == x + y + z && SameButOrdinals(x, a) && SameButOrdinals(y, b) && SameButOrdinals(z, c)
  {
    x := seq(|a|, i requires 0 <= i < |a| => a[i].(ordinal := i));
    y := seq(|b|, i requires 0 <= i < |b| => b[i].(ordinal := |a| + i));
    z := seq(|c|, i requires 0 <= i < |c| => c[i].(ordinal := |a| + |b| + i));
  }

  lemma RenumberedAgain(a: seq<View>, b: seq<View>, y: seq<View>, c: seq<View>)
    requires SameButOrdinals(y, b)
    ensures Renumbered(a + y + c) == Renumbered(a + b + c)
  {
  }

  lemma SameKinds(y: seq<View>, b: seq<View>)
    requires SameButOrdinals(y, b)
    ensures forall v :: v in y ==> exists w :: w in b && w.kind == v.kind
  {
  }

  lemma KeptMiddle(x: seq<View>, y: seq<View>, z: seq<View>)
    requires (forall v :: v in x || v in z ==> BuiltKind(v.kind)) && (forall v :: v in y ==> !BuiltKind(v.kind))
    ensures Kept(x + y + z) == y
  {
    KeptConcat(x + y, z);
    KeptConcat(x, y);
    KeptNone(x);
    KeptAll(y);
    KeptNone(z);
  }

  /** Of a renumbered list the kept part is what was kept before, with its new ordinals. */
  lemma KeptOfRenumbered(a: seq<View>, b: seq<View>, c: seq<View>)
    requires (forall v :: v in a || v in c ==> BuiltKind(v.kind)) && (forall v :: v in b ==> !BuiltKind(v.kind))
    ensures Renumbered(a + Kept(Renumbered(a + b + c)) + c) == Renumbered(a + b + c)
  {
    var x, y, z := RenumberedParts(a, b, c);
    SameKinds(x, a);
    SameKinds(y, b);
    SameKinds(z, c);
    KeptMiddle(x, y, z);
    RenumberedAgain(a, b, y, c);
  }

  lemma {:induction false} JoinEnds(lines: seq<string>)
    requires lines != [] && forall i | 0 <= i < |lines| :: IsRowText(lines[i])
    ensures IsRowText(Join("\n", lines))
  {
    if |lines| > 1 {
      JoinEnds(lines[1..]);
    }
  }

  predicate IsRowText(s: string) {
    s != [] && s[0] == '|' && s[|s| - 1] == '|'
  }

  lemma MarkdownTabular(columns: seq<string>, rows: seq<seq<string>>)
    ensures Tabular(Markdown(columns, rows))
  {
    var lines := TableLines(columns, rows);
    forall i: nat | i < |lines| ensures IsRowText(lines[i]) {
      LineOfTable(columns, rows, i);
    }
    JoinEnds(lines);
  }

  lemma TableIsTabular(env: Env, req: Request, kind: string)
    ensures TableFor(env, req, kind).Some? ==> Tabular(TableFor(env, req, kind).value.1)
  {
    if kind == "INDICATOR_TABLE" {
      MarkdownTabular(IndicatorColumns(HasLifeOfProject(req)), IndicatorRows(env, req, ScopedFindings(env, req)));
    } else {
      MarkdownTabular(CUMULATIVE_COLUMNS, CumulativeRows(env, LifeFindings(req)));
    }
  }

  /** Attaching twice is attaching once (content, artifacts, ordinals, delta) exactly when no line of
      the table reads as prose. */
  lemma AttachTwice(env: Env, s: SectionView, req: Request, kind: string)
    ensures var once := Attached(env, s, req, kind);
            Attached(env, once, req, kind) == once <==>
            TableFor(env, req, kind).Some? ==> Prose(TableFor(env, req, kind).value.1) == ""
  {
    var table := TableFor(env, req, kind);
    TableIsTabular(env, req, kind);
    if table.Some? {
      MergeTwice(table.value.1, s.content);
    }
    FrontAndBackPass(env, req, kind);
    KeptOfRenumbered(FrontOf(table), Kept(s.artifacts), BackOf(SectionDelta(env, req, kind)));
  }

  /** The cells of the table that a section of this kind gets. */
  function CellsFor(env: Env, req: Request, kind: string): seq<seq<string>> {
    if kind == "INDICATOR_TABLE" then IndicatorRows(env, req, ScopedFindings(env, req)) else CumulativeRows(env, LifeFindings(req))
  }

  lemma TableShape(env: Env, req: Request, kind: string) returns (columns: seq<string>)
    requires TableFor(env, req, kind).Some?
    ensures TableFor(env, req, kind).value.1 == Markdown(columns, CellsFor(env, req, kind))
    ensures columns != [] && forall j | 0 <= j < |columns| :: PlainText(columns[j])
    ensures forall i | 0 <= i < |CellsFor(env, req, kind)| :: CellsFor(env, req, kind)[i] != []
  {
    HeadingsPlain();
    ColumnsPlain(HasLifeOfProject(req));
    columns := if kind == "INDICATOR_TABLE" then IndicatorColumns(HasLifeOfProject(req)) else CUMULATIVE_COLUMNS;
  }

  lemma PlainCells(columns: seq<string>)
    requires forall j | 0 <= j < |columns| :: PlainText(columns[j])
    ensures forall j | 0 <= j < |columns| :: NoLineEnds(columns[j]) && '|' !in columns[j]
  {
  }

  /** Attaching twice is attaching once exactly when the section gets no table, or no cell of it has
      more than white space behind a line end. */
  lemma AttachIdempotentIff(env: Env, s: SectionView, req: Request, kind: string)
    ensures var once := Attached(env, s, req, kind);
            Attached(env, once, req, kind) == once <==>
            TableFor(env, req, kind).Some? ==> AllLinesFold(CellsFor(env, req, kind))
  {
    AttachTwice(env, s, req, kind);
    if TableFor(env, req, kind).Some? {
      var columns := TableShape(env, req, kind);
      PlainCells(columns);
      TableLeavesNoProse(columns, CellsFor(env, req, kind));
    }
  }

  /** Attaching to what was attached, on the objects: the second result is the first one's value again
      exactly under that condition, and the first result, whose artifacts it shares, keeps its value. */
  method AttachAgain(env: Env, section: Section, req: Request, kind: string) returns (once: Section, twice: Section)
    requires Distinct(KeptObjects(section.artifacts))
    modifies set a | a in section.artifacts
    ensures SectionViewOf(once) == Attached(env, old(SectionViewOf(section)), req, kind)
    ensures SectionViewOf(twice) == Attached(env, SectionViewOf(once), req, kind)
    ensures SectionViewOf(twice) == SectionViewOf(once) <==>
            TableFor(env, req, kind).Some? ==> AllLinesFold(CellsFor(env, req, kind))
  {
    AttachIdempotentIff(env, SectionViewOf(section), req, kind);
    once := Attach(env, section, req, kind);
    NumberedIffDistinct(once.artifacts);
    ghost var before := SectionViewOf(once);
    twice := AttachToAttached(env, once, req, kind, |FrontOf(TableFor(env, req, kind))|);
    assert SectionViewOf(once) == before by {
      assert Views(once.artifacts) == before.artifacts;
    }
  }

  /** Attaching to a section whose ordinals count up and whose kept artifacts stand behind the table. */
  method AttachToAttached(env: Env, once: Section, req: Request, kind: string, ghost n: nat) returns (twice: Section)
    requires Distinct(once.artifacts) && forall i | 0 <= i < |once.artifacts| :: once.artifacts[i].ordinal == i
    requires n == |FrontOf(TableFor(env, req, kind))| && Placed(once.artifacts, KeptObjects(once.artifacts), n)
    modifies set a | a in once.artifacts
    ensures forall i | 0 <= i < |once.artifacts| :: once.artifacts[i].ordinal == i
    ensures SectionViewOf(twice) == Attached(env, old(SectionViewOf(once)), req, kind)
  {
    KeptDistinct(once.artifacts);
    twice := Attach(env, once, req, kind);
    NumberedIffDistinct(twice.artifacts);
    SharedKept(once.artifacts, twice.artifacts, KeptObjects(once.artifacts), n);
  }

  /** Artifacts that two lists have at the same places have the same ordinals in both. */
  lemma SharedKept(once: seq<Artifact>, twice: seq<Artifact>, kept: seq<Artifact>, n: nat)
    requires Placed(once, kept, n) && Placed(twice, kept, n) && KeptObjects(once) == kept && Distinct(once)
    requires forall i | 0 <= i < |twice| :: twice[i].ordinal == i
    requires forall i | 0 <= i < |once| && BuiltKind(once[i].kind) :: once[i].ordinal == i
    ensures forall i | 0 <= i < |once| :: once[i].ordinal == i
  {
    forall j | 0 <= j < |once| ensures once[j].ordinal == j {
      if !BuiltKind(once[j].kind) {
        assert once[j] in kept;
        var i :| 0 <= i < |kept| && kept[i] == once[j];
        assert once[n + i] == once[n..n + |kept|][i] && twice[n + i] == twice[n..n + |kept|][i];
      }
    }
  }

  lemma BrokenNotFolded(a: char, b: char)
    requires !LineEnd(a) && !IsSpace(b)
    ensures !Folds([a] + (['\n'] + [b]))
  {
    var x := [a] + (['\n'] + [b]);
    assert x[1..] == ['\n'] + [b] && x[1..][1..] == [b] && [b][0] == b;
  }

  /** A finding named "a", a line feed, "b": attached again, any section changes. */
  lemma AttachCanChangeAgain(env: Env, s: SectionView)
    ensures var req := NamedRequest("a\nb");
            var once := Attached(env, s, req, "INDICATOR_TABLE");
            Attached(env, once, req, "INDICATOR_TABLE") != once
  {
    assert "a\nb" == ['a'] + (['\n'] + ['b']);
    BrokenNotFolded('a', 'b');
    NamedBreaks(env, "a\nb");
    AttachIdempotentIff(env, s, NamedRequest("a\nb"), "INDICATOR_TABLE");
  }

  lemma NamedBreaks(env: Env, name: string)
    requires !Folds(name)
    ensures var req := NamedRequest(name); TableFor(env, req, "INDICATOR_TABLE").Some? && !AllLinesFold(CellsFor(env, req, "INDICATOR_TABLE"))
  {
    var req, f := NamedRequest(name), NamedFinding(name);
    NamedScope(env, name);
    NamedRow(env, req, f);
    assert IndicatorRows(env, req, [f])[0] == IndicatorCells(env, req, f);
    assert !AllFold(IndicatorCells(env, req, f));
  }

  lemma NamedRow(env: Env, req: Request, f: Finding)
    requires f.indicatorName.Some? && f.indicatorName.value != ""
    ensures var cells := IndicatorCells(env, req, f); |cells| > 1 && cells[1] == f.indicatorName.value
  {
    assert |SharedCells(f)| > 1 && SharedCells(f)[1] == f.indicatorName.value;
  }

  // ---------------------------------------------------------------- attach adds no ungrounded number

  lemma {:induction false} UngroundedSkips(a: seq<string>, b: seq<string>, allowed: set<string>)
    requires forall t :: t in a ==> Normalise(t) in allowed
    ensures Ungrounded(a + b, allowed, {}) == Ungrounded(b, allowed, {})
  {
    if a == [] {
      assert a + b == b;
    } else {
      assert (a + b)[1..] == a[1..] + b;
      UngroundedSkips(a[1..], b, allowed);
    }
  }

  /** What the number check reads: the content and the question answers. */
  function CheckedText(content: string, answers: seq<string>): string {
    content + "\n" + Join("\n", answers)
  }

  /** `assert_numbers_grounded`: reports what is found and not in the set, and nothing exactly when all
      numbers of the checked text are in it. */
  method AssertNumbersGrounded(word: char -> bool, content: string, answers: seq<string>, allowed: set<string>) returns (bad: seq<string>)
    ensures bad == Ungrounded(Extract(word, CheckedText(content, answers)), allowed, {})
    ensures bad == [] <==> forall t :: t in Extract(word, CheckedText(content, answers)) ==> Normalise(t) in allowed
  {
    var text := "";
    for i := 0 to |answers|
      invariant text == Join("\n", answers[..i])
    {
      JoinSnoc(answers[..i], answers[i]);
      assert answers[..i + 1] == answers[..i] + [answers[i]];
      text := if i == 0 then answers[i] else text + "\n" + answers[i];
    }
    assert answers[..|answers|] == answers;
    UngroundedNone(Extract(word, CheckedText(content, answers)), allowed);
    bad := UngroundedNumbers(word, content + "\n" + text, allowed);
  }

  lemma {:induction false} JoinSnoc(parts: seq<string>, last: string)
    ensures Join("\n", parts + [last]) == if parts == [] then last else Join("\n", parts) + "\n" + last
  {
    if |parts| == 0 {
      assert parts + [last] == [last];
    } else {
      assert (parts + [last])[1..] == parts[1..] + [last];
      JoinSnoc(parts[1..], last);
      if |parts| > 1 {
        var j := Join("\n", parts[1..]);
        assert parts[0] + "\n" + (j + "\n" + last) == (parts[0] + "\n" + j) + "\n" + last;
      }
    }
  }

  /** The checked numbers are the content's and the answers'; only of a content that ends in a list
      marker with nothing behind it, such as "1.", the last one is not among them. */
  lemma CheckedNumbers(word: char -> bool, content: string, answers: seq<string>)
    requires WordClass(word)
    ensures var own, more := Extract(word, content), Extract(word, Join("\n", answers));
            && (EndsInMarker(true, content) ==> own != [] && Extract(word, CheckedText(content, answers)) == own[..|own| - 1] + more)
            && (!EndsInMarker(true, content) ==> Extract(word, CheckedText(content, answers)) == own + more)
  {
    Assoc(content, "\n", Join("\n", answers));
    TwoTexts(word, content, Join("\n", answers));
  }

  /** The checked numbers of a section with a table are those of the table's printed cells and those
      checked of the writer's prose and the answers, whatever the cells contain. */
  lemma AttachedNumbers(env: Env, content: string, answers: seq<string>, req: Request, kind: string)
    requires WordClass(env.word) && TableFor(env, req, kind).Some?
    ensures Extract(env.word, CheckedText(AttachedContent(env, content, req, kind), answers)) ==
            TableTokens(env.word, CellsFor(env, req, kind)) + Extract(env.word, CheckedText(Prose(content), answers))
  {
    var columns := TableShape(env, req, kind);
    TableIsTabular(env, req, kind);
    MergeShape(TableFor(env, req, kind).value.1, content);
    TableThenProse(env.word, columns, CellsFor(env, req, kind), Prose(content), Join("\n", answers));
  }

  lemma TableThenProse(word: char -> bool, columns: seq<string>, rows: seq<seq<string>>, p: string, more: string)
    requires WordClass(word) && columns != [] && (forall i | 0 <= i < |rows| :: rows[i] != [])
    requires forall j | 0 <= j < |columns| :: PlainText(columns[j])
    ensures var md := Markdown(columns, rows);
            Extract(word, (if p == "" then md else md + "\n\n" + p) + "\n" + more) == TableTokens(word, rows) + Extract(word, p + "\n" + more)
  {
    var md := Markdown(columns, rows);
    if p == "" {
      Assoc(md, "\n", more);
      TableThen(word, columns, rows, ['\n'] + more);
      BreakScan(word, more);
      assert p + "\n" + more == ['\n'] + more;
      BlankBefore(word, more);
    } else {
      assert (md + "\n\n" + p) + "\n" + more == md + (['\n'] + (['\n'] + (p + "\n" + more)));
      ExtractTableThen(word, columns, rows, p + "\n" + more);
    }
  }

  /** A line end in front shows nothing and changes nothing. */
  lemma BlankBefore(word: char -> bool, s: string)
    requires WordClass(word)
    ensures Extract(word, ['\n'] + s) == Extract(word, s)
  {
    SeparatorsNeutral(word);
    StripAfterBreak(['\n'] + s, s);
    ScanSkip(word, '\n', StripMarkers(true, s));
  }

  lemma UngroundedNoneOfTwo(a: seq<string>, b: seq<string>, allowed: set<string>)
    ensures Ungrounded(a + b, allowed, {}) == [] <==>
            (forall t :: t in a ==> Normalise(t) in allowed) && Ungrounded(b, allowed, {}) == []
  {
    UngroundedNone(a + b, allowed);
    UngroundedNone(b, allowed);
    assert forall t :: t in a + b <==> t in a || t in b;
  }

  /** After `attach` the number check passes exactly when the table's cells hold allowed numbers only
      and the prose with the answers passes; in that table's case it reports exactly what it reports for
      these. */
  lemma AttachAddsNoUngrounded(env: Env, content: string, answers: seq<string>, req: Request, kind: string)
    requires WordClass(env.word) && TableFor(env, req, kind).Some?
    ensures var attached := Ungrounded(Extract(env.word, CheckedText(AttachedContent(env, content, req, kind), answers)), Allowed(env, req), {});
            var prose := Ungrounded(Extract(env.word, CheckedText(Prose(content), answers)), Allowed(env, req), {});
            && (attached == [] <==> RowsAllowed(env, req, CellsFor(env, req, kind)) && prose == [])
            && (RowsAllowed(env, req, CellsFor(env, req, kind)) ==> attached == prose)
  {
    var table, prose := TableTokens(env.word, CellsFor(env, req, kind)), Extract(env.word, CheckedText(Prose(content), answers));
    AttachedNumbers(env, content, answers, req, kind);
    TableTokensAllowed(env, req, CellsFor(env, req, kind));
    UngroundedNoneOfTwo(table, prose, Allowed(env, req));
    if RowsAllowed(env, req, CellsFor(env, req, kind)) {
      UngroundedSkips(table, prose, Allowed(env, req));
    }
  }
}
