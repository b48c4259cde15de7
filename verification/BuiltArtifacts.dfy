/**
 What the built artifacts say of the findings: whom a row and a delta refer to, and which change a delta
 reports.
 */
module BuiltArtifacts {
  import opened Basics
  import opened Report
  import opened Figures
  import opened ArtifactBuilder

  /** The reference names the finding's code and has its id, or its code where it has none. */
  predicate RefersTo(ref: Ref, f: Finding) {
    && ref.name == f.indicatorCode
    && (if f.indicatorId == None || f.indicatorId == Some("") then ref.id == f.indicatorCode else f.indicatorId == Some(ref.id))
  }

  /** Every place of the row is filled with the cell that stands there. */
  predicate ShowsCells(row: Row, cells: seq<string>) {
    |row.cells| == |cells| && forall j | 0 <= j < |cells| :: row.cells[j] == Some(cells[j])
  }

  /** The artifact has one row for each finding, with its cells and its reference, in order. */
  ghost predicate ShowsFindings(v: View, findings: seq<Finding>, cells: seq<seq<string>>) {
    && v.kind == "TABLE" && |v.payload.rows| == |v.refs| == |findings| == |cells|
    && forall i | 0 <= i < |findings| ::
         && ShowsCells(v.payload.rows[i], cells[i]) && |v.payload.rows[i].refs| == 1
         && RefersTo(v.payload.rows[i].refs[0], findings[i]) && RefersTo(v.refs[i], findings[i])
  }

  lemma TableShows(caption: string, columns: seq<string>, cells: seq<seq<string>>, findings: seq<Finding>)
    requires |cells| == |findings|
    ensures ShowsFindings(TableView(caption, columns, cells, findings), findings, cells)
  {
    forall i | 0 <= i < |findings| ensures RefersTo(RefOf(findings[i]), findings[i]) {
      RefIs(findings[i]);
    }
  }

  lemma RefIs(f: Finding)
    ensures RefersTo(RefOf(f), f)
  {
  }

  /** The artifact of the indicator table shows the findings whose cells the printed table shows. */
  lemma IndicatorArtifact(env: Env, req: Request)
    ensures var findings := ScopedFindings(env, req);
            ShowsFindings(IndicatorView(env, req), findings, IndicatorRows(env, req, findings))
    ensures IndicatorView(env, req).payload.columns == IndicatorColumns(exists f :: f in req.findings && f.lifeOfProject.Some?)
  {
    var findings := ScopedFindings(env, req);
    TableShows(INDICATOR_CAPTION, IndicatorColumns(HasLifeOfProject(req)), IndicatorRows(env, req, findings), findings);
    SomeLife(req);
  }

  lemma SomeLife(req: Request)
    ensures HasLifeOfProject(req) <==> exists f :: f in req.findings && f.lifeOfProject.Some?
  {
    if f :| f in req.findings && f.lifeOfProject.Some? {
      var i :| 0 <= i < |req.findings| && req.findings[i] == f;
    }
  }

  // ---------------------------------------------------------------- the delta

  /** The finding's value was `before` and is `now`. */
  predicate Changes(env: Env, f: Finding, before: real, now: real) {
    Calculable(f) && ToNumber(env, f.value) == Some(now) && ToNumber(env, f.comparisonValue) == Some(before)
  }

  /** Place `i` has the first finding whose change is known. */
  ghost predicate FirstChange(env: Env, findings: seq<Finding>, i: nat) {
    && i < |findings| && (exists before, now :: Changes(env, findings[i], before, now))
    && forall j | 0 <= j < i :: !exists before, now :: Changes(env, findings[j], before, now)
  }

  /** The delta names the indicator and its two figures, says which way they went, and refers to it. */
  ghost predicate TellsChange(env: Env, d: Delta, f: Finding) {
    && (exists before, now :: Changes(env, f, before, now) &&
          d.direction == (if before < now then Up else if now < before then Down else Flat))
    && Is(f.comparisonValue, d.before) && Is(f.value, d.now)
    && d.metric == (if f.indicatorName == None || f.indicatorName == Some("") then f.indicatorCode
                    else f.indicatorCode + " (" + f.indicatorName.value + ")")
    && d.evidence == d.metric + ": " + d.before + " in the previous period, " + d.now + " this period."
    && |d.refs| == 1 && RefersTo(d.refs[0], f)
  }

  lemma ChangesIff(env: Env, f: Finding)
    ensures Comparable(env, f) <==> exists before, now :: Changes(env, f, before, now)
  {
    if Comparable(env, f) {
      assert Changes(env, f, ToNumber(env, f.comparisonValue).value, ToNumber(env, f.value).value);
    }
  }

  lemma DeltaTellsChange(env: Env, f: Finding)
    requires Comparable(env, f)
    ensures TellsChange(env, DeltaOf(env, f), f)
  {
    assert Changes(env, f, ToNumber(env, f.comparisonValue).value, ToNumber(env, f.value).value);
    RefIs(f);
  }

  /** There is a delta exactly if no finding has a cumulative figure and the change of some finding is known;
      it tells the first such change. */
  lemma DeltaTells(env: Env, req: Request)
    ensures var delta := DeltaFor(env, req);
            if (forall f :: f in req.findings ==> f.lifeOfProject.None?) && (exists i: nat :: FirstChange(env, req.findings, i))
            then delta.Some? && exists i: nat :: FirstChange(env, req.findings, i) && TellsChange(env, delta.value, req.findings[i])
            else delta.None?
  {
    forall f ensures Comparable(env, f) <==> exists before, now :: Changes(env, f, before, now) {
      ChangesIff(env, f);
    }
    SomeLife(req);
    var first := FirstComparable(env, req.findings);
    if first.Some? {
      assert FirstChange(env, req.findings, first.value);
      DeltaTellsChange(env, req.findings[first.value]);
    }
  }
}
