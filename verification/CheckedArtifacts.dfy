/**
 What the citation check and the chart check ask of a section, without their loops.
 */
module CheckedArtifacts {
  import opened Basics
  import opened Numbers
  import opened Report
  import opened Percentages
  import opened ArtifactBuilder
  import opened ArtifactValidators

  /** Some cell of the row holds text. */
  predicate HoldsText(row: Row) {
    exists c :: c in row.cells && c != None && c != Some("")
  }

  lemma UncitedIff(row: Row)
    ensures Uncited(row) <==> HoldsText(row) && row.refs == []
  {
    if i :| 0 <= i < |row.cells| && OrEmpty(row.cells[i]) != "" {
      assert row.cells[i] in row.cells;
    }
    if c :| c in row.cells && c != None && c != Some("") {
      var i :| 0 <= i < |row.cells| && row.cells[i] == c;
      assert OrEmpty(row.cells[i]) == c.value;
    }
  }

  /** The citation check asks that in tables every row that holds text has a reference. */
  lemma TablesCitedIff(views: seq<View>)
    ensures (forall i | 0 <= i < |views| :: CitedTable(views[i])) <==>
            forall v, row :: v in views && v.kind == "TABLE" && row in v.payload.rows && HoldsText(row) ==> row.refs != []
  {
    forall row ensures Uncited(row) <==> HoldsText(row) && row.refs == [] {
      UncitedIff(row);
    }
    forall v ensures CitedTable(v) <==> (v.kind == "TABLE" ==> forall row :: row in v.payload.rows ==> !Uncited(row)) {
      CitedRows(v);
    }
    if forall v, row :: v in views && v.kind == "TABLE" && row in v.payload.rows && HoldsText(row) ==> row.refs != [] {
      forall i | 0 <= i < |views| ensures CitedTable(views[i]) {
        assert views[i] in views;
      }
    }
  }

  lemma CitedRows(v: View)
    ensures CitedTable(v) <==> (v.kind == "TABLE" ==> forall row :: row in v.payload.rows ==> !Uncited(row))
  {
    var rows := v.payload.rows;
    if forall row :: row in rows ==> !Uncited(row) {
      forall i | 0 <= i < |rows| ensures !Uncited(rows[i]) {
        assert rows[i] in rows;
      }
    }
  }

  /** A chart point's number is in the set: a text's normal form, or a float's rounding to six decimals. */
  ghost predicate PointIn(p: Scalar, allowed: set<string>) {
    match p
    case Text(s) => s == "" || Normalise(s) in allowed
    case Float(_, x) => exists n :: n in allowed && RoundsTo(x, 6, n)
  }

  lemma PointIff(p: Option<Scalar>, allowed: set<string>)
    ensures PointGrounded(p, allowed) <==> p == None || PointIn(p.value, allowed)
  {
    if p.Some? && p.value.Float? {
      var token := Normalise(Fixed(p.value.x, 6));
      RoundsExactly(p.value.x, 6, token);
      if n :| n in allowed && RoundsTo(p.value.x, 6, n) {
        RoundsExactly(p.value.x, 6, n);
      }
    }
  }

  /** The chart check asks that every point of every chart is in the set. */
  lemma ChartsGroundedIff(views: seq<View>, allowed: set<string>)
    ensures (forall i | 0 <= i < |views| :: ChartGrounded(views[i], allowed)) <==>
            forall v, s, p :: v in views && v.kind == "CHART" && s in v.payload.series && Some(p) in s.data ==> PointIn(p, allowed)
  {
    forall v ensures ChartGrounded(v, allowed) <==> (v.kind == "CHART" ==> SeriesIn(v.payload.series, allowed)) {
      ChartIff(v, allowed);
    }
    if forall v, s, p :: v in views && v.kind == "CHART" && s in v.payload.series && Some(p) in s.data ==> PointIn(p, allowed) {
      forall i | 0 <= i < |views| ensures ChartGrounded(views[i], allowed) {
        assert views[i] in views;
      }
    }
  }

  ghost predicate SeriesIn(series: seq<Series>, allowed: set<string>) {
    forall s, p :: s in series && Some(p) in s.data ==> PointIn(p, allowed)
  }

  lemma ChartIff(v: View, allowed: set<string>)
    ensures ChartGrounded(v, allowed) <==> (v.kind == "CHART" ==> SeriesIn(v.payload.series, allowed))
  {
    var series := v.payload.series;
    forall s ensures SeriesGrounded(s, allowed) <==> forall p :: Some(p) in s.data ==> PointIn(p, allowed) {
      PointsIff(s, allowed);
    }
    if SeriesIn(series, allowed) {
      forall i | 0 <= i < |series| ensures SeriesGrounded(series[i], allowed) {
        assert series[i] in series;
      }
    }
  }

  lemma PointsIff(s: Series, allowed: set<string>)
    ensures SeriesGrounded(s, allowed) <==> forall p :: Some(p) in s.data ==> PointIn(p, allowed)
  {
    forall p ensures PointGrounded(p, allowed) <==> p == None || PointIn(p.value, allowed) {
      PointIff(p, allowed);
    }
    if forall p :: Some(p) in s.data ==> PointIn(p, allowed) {
      forall i | 0 <= i < |s.data| ensures PointGrounded(s.data[i], allowed) {
        assert s.data[i] in s.data;
      }
    }
  }
}
