/**
 Findings, the tables built from them, and the set of numbers a draft may contain.

 Binary floating point is not modelled: a number is an exact `real`, and one rounding function,
 half to even, serves both the percentage cells and the allowed set.
 */
module Report {
  import opened Basics
  import opened Numbers
  import opened NumberScan

  // ---------------------------------------------------------------- data

  /** A `str | float` field: a string, or a float with its printed form. */
  datatype Scalar = Text(s: string) | Float(printed: string, x: real)

  function Printed(v: Scalar): string {
    if v.Text? then v.s else v.printed
  }

  /** What the model leaves open: the class `\w` beyond ASCII, and what `float(str)` accepts. */
  datatype Env = Env(word: char -> bool, parse: string -> Option<real>)

  datatype Life = Life(value: string, asOf: Option<string>, extra: seq<string>)

  /** `extra` holds the printed values of the fields that no table shows. */
  datatype Finding = Finding(
    indicatorCode: string,
    indicatorId: Option<string>,
    indicatorName: Option<string>,
    indicatorType: Option<string>,
    logframeLevel: Option<string>,
    outcomeCode: Option<string>,
    baseline: Option<Scalar>,
    target: Option<Scalar>,
    value: Option<Scalar>,
    valueStatus: Option<string>,
    unit: Option<string>,
    evaluation: Option<string>,
    qualityFlags: seq<string>,
    comparisonValue: Option<Scalar>,
    lifeOfProject: Option<Life>,
    extra: seq<string>)

  datatype Update = Update(
    indicatorCode: string,
    periodAchievement: Option<string>,
    cumulativeAchievement: Option<string>,
    dataSource: Option<string>,
    extra: seq<string>)

  /** `title` is the canonical title if there is one; `other` are all further text values. */
  datatype Request = Request(
    title: string,
    sectionTitles: seq<string>,
    findings: seq<Finding>,
    updates: seq<Update>,
    other: seq<string>)

  // ---------------------------------------------------------------- numbers of a finding

  /** `_to_float` */
  function ToNumber(env: Env, v: Option<Scalar>): Option<real> {
    match v
    case None => None
    case Some(Float(_, x)) => Some(x)
    case Some(Text(s)) => env.parse(Trim(RemoveCommas(s)))
  }

  /** `percent_of_target` */
  function PercentOfTarget(env: Env, value: Option<Scalar>, target: Option<Scalar>): Option<real> {
    var v, t := ToNumber(env, value), ToNumber(env, target);
    if v.None? || t.None? || t.value == 0.0 then None else Some(v.value / t.value * 100.0)
  }

  function RoundHalfEven(x: real): int {
    var below := x.Floor;
    var r := x - below as real;
    if r < 0.5 || (r == 0.5 && below % 2 == 0) then below else below + 1
  }

  function DigitChar(n: nat): char
    requires n < 10
  {
    ('0' as int + n) as char
  }

  function DigitsOf(n: nat): (s: string)
    ensures s != [] && AllDigits(s)
  {
    if n < 10 then [DigitChar(n)] else DigitsOf(n / 10) + [DigitChar(n % 10)]
  }

  /** The last `k` decimal digits of `n`, zeros included. */
  function PaddedDigits(n: nat, k: nat): (s: string)
    ensures |s| == k && AllDigits(s)
  {
    if k == 0 then [] else PaddedDigits(n / 10, k - 1) + [DigitChar(n % 10)]
  }

  function Scale(digits: nat): nat
    ensures Scale(digits) > 0
  {
    if digits == 0 then 1 else 10 * Scale(digits - 1)
  }

  /** `x` in units of the last printed place. */
  function Scaled(x: real, digits: nat): real {
    x * Scale(digits) as real
  }

  /** The magnitude of `x`, rounded to whole units of the last printed place. */
  function Units(x: real, digits: nat): nat {
    var m := RoundHalfEven(Scaled(if x < 0.0 then -x else x, digits));
    if m < 0 then 0 else m
  }

  lemma QuotientRemainder(n: nat, d: nat)
    requires d > 0
    ensures n / d >= 0 && 0 <= n % d < d && n == (n / d) * d + n % d
  {
  }

  /** `f"{x:.{digits}f}"` */
  function Fixed(x: real, digits: nat): string {
    var n := Units(x, digits);
    QuotientRemainder(n, Scale(digits));
    (if x < 0.0 then "-" else "") + DigitsOf(n / Scale(digits))
    + (if digits == 0 then "" else "." + PaddedDigits(n % Scale(digits), digits))
  }

  /** `_rounded_variants` */
  function RoundedVariants(x: real): set<string> {
    {Normalise(Fixed(x, 0)), Normalise(Fixed(x, 1)), Normalise(Fixed(x, 2))}
  }

  // ---------------------------------------------------------------- cells

  const DASH := "\U{2014}"

  function Lower(s: string): string {
    if s == [] then [] else [if 'A' <= s[0] <= 'Z' then (s[0] as int + 32) as char else s[0]] + Lower(s[1..])
  }

  lemma {:induction false} LowerAt(s: string)
    ensures |Lower(s)| == |s|
    ensures forall i | 0 <= i < |s| :: Lower(s)[i] == if 'A' <= s[i] <= 'Z' then (s[i] as int + 32) as char else s[i]
  {
    if s != [] {
      LowerAt(s[1..]);
    }
  }

  function OrEmpty(s: Option<string>): string {
    if s.Some? then s.value else ""
  }

  /** `s or default` */
  function OrElse(s: Option<string>, default: string): string {
    if s.Some? && s.value != "" then s.value else default
  }

  function Cell(v: Option<Scalar>): string {
    if v.Some? && Printed(v.value) != "" then Printed(v.value) else DASH
  }

  predicate NotCalculable(f: Finding) {
    f.valueStatus == Some("NOT_CALCULABLE") || "MISSING_DENOMINATOR" in f.qualityFlags || f.value.None?
  }

  /** A value that is itself a percentage. */
  predicate IsRate(f: Finding) {
    Lower(Trim(OrEmpty(f.indicatorType))) == "percentage" || Trim(OrEmpty(f.unit)) == "%"
  }

  function PercentText(pct: Option<real>): string {
    if pct.None? then DASH else Normalise(Fixed(pct.value, 1)) + "%"
  }

  function PctCell(env: Env, f: Finding): string {
    if NotCalculable(f) || IsRate(f) then DASH else PercentText(PercentOfTarget(env, f.value, f.target))
  }

  function LifeScalar(f: Finding): Option<Scalar> {
    if f.lifeOfProject.None? then None else Some(Text(f.lifeOfProject.value.value))
  }

  function LifePctCell(env: Env, f: Finding): string {
    if IsRate(f) || f.lifeOfProject.None? then DASH else PercentText(PercentOfTarget(env, LifeScalar(f), f.target))
  }

  function StatusCell(f: Finding): string {
    if NotCalculable(f) then "Not calculable"
    else if f.evaluation == Some("POSITIVE") then "On track"
    else if f.evaluation == Some("NEGATIVE") then "Below expectation"
    else if f.evaluation == Some("NEUTRAL") then "Descriptive only"
    else DASH
  }

  /** The last non-empty data source recorded for an indicator. */
  function SourceOf(updates: seq<Update>, code: string): Option<string> {
    if updates == [] then None
    else
      var u := updates[|updates| - 1];
      if u.indicatorCode == code && OrEmpty(u.dataSource) != "" then u.dataSource
      else SourceOf(updates[..|updates| - 1], code)
  }

  // ---------------------------------------------------------------- tables

  const COLUMNS := ["Code", "Indicator", "Unit", "Baseline", "Target", "This period", "Previous", "% of target", "Status", "Data source"]
  const LIFE_COLUMNS := ["Cumulative to date", "% of project target"]
  const CUMULATIVE_COLUMNS := ["Code", "Indicator", "Unit", "Baseline", "Project target", "Cumulative to date", "% of project target", "As of"]

  predicate HasLifeOfProject(req: Request) {
    exists i | 0 <= i < |req.findings| :: req.findings[i].lifeOfProject.Some?
  }

  function IndicatorColumns(life: bool): seq<string> {
    if life then COLUMNS[..8] + LIFE_COLUMNS + COLUMNS[8..] else COLUMNS
  }

  function SharedCells(f: Finding): seq<string> {
    [f.indicatorCode, OrElse(f.indicatorName, DASH), OrElse(f.unit, DASH), Cell(f.baseline), Cell(f.target)]
  }

  function PeriodCells(env: Env, f: Finding): seq<string> {
    [if NotCalculable(f) then "Not calculable" else Cell(f.value), Cell(f.comparisonValue), PctCell(env, f)]
  }

  function LifeCells(env: Env, f: Finding): seq<string> {
    [Cell(LifeScalar(f)), LifePctCell(env, f)]
  }

  function SourceCell(req: Request, f: Finding): string {
    OrElse(SourceOf(req.updates, f.indicatorCode), "Project records")
  }

  function AsOfCell(f: Finding): string {
    OrElse(if f.lifeOfProject.Some? then f.lifeOfProject.value.asOf else None, DASH)
  }

  function IndicatorCells(env: Env, req: Request, f: Finding): seq<string> {
    SharedCells(f) + PeriodCells(env, f)
    + (if HasLifeOfProject(req) then LifeCells(env, f) else [])
    + [StatusCell(f), SourceCell(req, f)]
  }

  function CumulativeCells(env: Env, f: Finding): seq<string> {
    SharedCells(f) + LifeCells(env, f) + [AsOfCell(f)]
  }

  function Join(sep: string, parts: seq<string>): string {
    if parts == [] then ""
    else if |parts| == 1 then parts[0]
    else parts[0] + sep + Join(sep, parts[1..])
  }

  /** `c.replace("|", "/")` */
  function NoPipes(s: string): string {
    if s == [] then [] else [if s[0] == '|' then '/' else s[0]] + NoPipes(s[1..])
  }

  function RowLine(cells: seq<string>): string {
    "| " + Join(" | ", cells) + " |"
  }

  function MapNoPipes(cells: seq<string>): (r: seq<string>)
    ensures |r| == |cells|
    ensures forall i | 0 <= i < |cells| :: r[i] == NoPipes(cells[i])
  {
    seq(|cells|, i requires 0 <= i < |cells| => NoPipes(cells[i]))
  }

  function Dashes(n: nat): seq<string> {
    seq(n, i => "---")
  }

  /** Header, separator and one line for each row of cells. */
  function TableLines(columns: seq<string>, rows: seq<seq<string>>): seq<string> {
    [RowLine(columns), RowLine(Dashes(|columns|))] + seq(|rows|, i requires 0 <= i < |rows| => RowLine(MapNoPipes(rows[i])))
  }

  function Markdown(columns: seq<string>, rows: seq<seq<string>>): string {
    Join("\n", TableLines(columns, rows))
  }

  function IndicatorRows(env: Env, req: Request, findings: seq<Finding>): (r: seq<seq<string>>)
    ensures |r| == |findings|
    ensures forall i | 0 <= i < |findings| :: r[i] == IndicatorCells(env, req, findings[i])
  {
    seq(|findings|, i requires 0 <= i < |findings| => IndicatorCells(env, req, findings[i]))
  }

  function CumulativeRows(env: Env, findings: seq<Finding>): (r: seq<seq<string>>)
    ensures |r| == |findings|
    ensures forall i | 0 <= i < |findings| :: r[i] == CumulativeCells(env, findings[i])
  {
    seq(|findings|, i requires 0 <= i < |findings| => CumulativeCells(env, findings[i]))
  }

  // ---------------------------------------------------------------- which findings a table shows

  /** The first group of `\boutcome\s*(\d+)\b`, searched from a place whose previous character is a
      word character or not. */
  function OutcomeNumber(word: char -> bool, afterWord: bool, s: string): Option<string>
    decreases |s|
  {
    if s == [] then None
    else
      var here := if !afterWord && StartsWith(s, "outcome") then LeadingNumber(word, s[7..]) else None;
      if here.Some? then here else OutcomeNumber(word, word(s[0]), s[1..])
  }

  /** The group of `\s*(\d+)\b` at the start of a text. */
  function LeadingNumber(word: char -> bool, r: string): Option<string> {
    var a := WhiteRun(r);
    var n := DigitRun(r[a..]);
    if n > 0 && Ends(word, r[a + n..]) then Some(r[a..a + n]) else None
  }

  function NumberName(digits: string): string {
    if LStrip(digits, '0') == [] then "0" else LStrip(digits, '0')
  }

  /** `_digits`: the first number inside a code. */
  function FirstNumber(s: string): Option<string> {
    if s == [] then None
    else if IsDigit(s[0]) then Some(NumberName(s[..DigitRun(s)]))
    else FirstNumber(s[1..])
  }

  function Select(findings: seq<Finding>, keep: Finding -> bool): (r: seq<Finding>)
    ensures forall f :: f in r <==> f in findings && keep(f)
  {
    if findings == [] then []
    else (if keep(findings[0]) then [findings[0]] else []) + Select(findings[1..], keep)
  }

  predicate OutcomeLevel(f: Finding) {
    Upper(OrEmpty(f.logframeLevel)) == "GOAL" || Upper(OrEmpty(f.logframeLevel)) == "OUTCOME"
  }

  function Upper(s: string): string {
    if s == [] then [] else [if 'a' <= s[0] <= 'z' then (s[0] as int - 32) as char else s[0]] + Upper(s[1..])
  }

  lemma {:induction false} UpperAt(s: string)
    ensures |Upper(s)| == |s|
    ensures forall i | 0 <= i < |s| :: Upper(s)[i] == if 'a' <= s[i] <= 'z' then (s[i] as int - 32) as char else s[i]
  {
    if s != [] {
      UpperAt(s[1..]);
    }
  }

  predicate AboutOutcomes(title: string) {
    Contains(title, "outcome") || Contains(title, "impact")
  }

  /** The findings of the one outcome that the section is named for, if there are any. */
  function PerOutcomeFindings(env: Env, findings: seq<Finding>, title: string): Option<seq<Finding>> {
    var wanted := OutcomeNumber(env.word, false, title);
    if wanted.None? || (forall i | 0 <= i < |findings| :: OrEmpty(findings[i].outcomeCode) == "") then None
    else
      var own := Select(findings, (f: Finding) => FirstNumber(OrEmpty(f.outcomeCode)) == Some(NumberName(wanted.value)));
      if own == [] then None else Some(own)
  }

  /** Another section of the report is about outcomes. */
  predicate OtherOutcomeSection(req: Request) {
    exists i | 0 <= i < |req.sectionTitles| ::
      AboutOutcomes(Lower(req.sectionTitles[i])) && Lower(req.sectionTitles[i]) != Lower(req.title)
  }

  function OutcomeFindings(findings: seq<Finding>): (r: seq<Finding>)
    ensures forall f :: f in r <==> f in findings && OutcomeLevel(f)
  {
    Select(findings, (f: Finding) => OutcomeLevel(f))
  }

  function OutputFindings(findings: seq<Finding>): (r: seq<Finding>)
    ensures forall f :: f in r <==> f in findings && !OutcomeLevel(f)
  {
    Select(findings, (f: Finding) => !OutcomeLevel(f))
  }

  /** `_scoped_findings` */
  function ScopedFindings(env: Env, req: Request): (r: seq<Finding>)
    ensures forall f :: f in r ==> f in req.findings
    ensures r == [] <==> req.findings == []
  {
    var findings := req.findings;
    var mine := Lower(req.title);
    if forall i | 0 <= i < |findings| :: OrEmpty(findings[i].logframeLevel) == "" then findings
    else if PerOutcomeFindings(env, findings, mine).Some? then PerOutcomeFindings(env, findings, mine).value
    else
      var otherOutcome := OtherOutcomeSection(req);
      var scoped :=
        if AboutOutcomes(mine) then OutcomeFindings(findings)
        else if otherOutcome then OutputFindings(findings)
        else findings;
      if scoped == [] then findings else scoped
  }

  predicate HasLevels(req: Request) {
    exists i | 0 <= i < |req.findings| :: OrEmpty(req.findings[i].logframeLevel) != ""
  }

  predicate BothLevels(findings: seq<Finding>) {
    (exists f :: f in findings && OutcomeLevel(f)) && (exists f :: f in findings && !OutcomeLevel(f))
  }

  predicate InOneOf(a: seq<Finding>, b: seq<Finding>, f: Finding) {
    (f in a) != (f in b)
  }

  /** An outcome section and an output section of one report, neither named for an outcome that has
      findings, share the findings out between them exactly when there are findings of both levels. */
  lemma LevelsSplitIff(env: Env, outcome: Request, output: Request)
    requires outcome.findings == output.findings && HasLevels(outcome)
    requires AboutOutcomes(Lower(outcome.title)) && !AboutOutcomes(Lower(output.title)) && OtherOutcomeSection(output)
    requires PerOutcomeFindings(env, outcome.findings, Lower(outcome.title)).None?
    requires PerOutcomeFindings(env, output.findings, Lower(output.title)).None?
    ensures (forall f :: f in outcome.findings ==> InOneOf(ScopedFindings(env, outcome), ScopedFindings(env, output), f)) <==>
            BothLevels(outcome.findings)
  {
    var findings := outcome.findings;
    OutcomeScope(env, outcome);
    OutputScope(env, output);
    if BothLevels(findings) {
      var g :| g in findings && OutcomeLevel(g);
      var h :| h in findings && !OutcomeLevel(h);
      assert g in OutcomeFindings(findings) && h in OutputFindings(findings);
    } else {
      var i :| 0 <= i < |findings| && OrEmpty(findings[i].logframeLevel) != "";
      assert findings[i] in findings;
      OneLevelTwice(findings, findings[i]);
      assert !InOneOf(ScopedFindings(env, outcome), ScopedFindings(env, output), findings[i]);
    }
  }

  function OrAll(scoped: seq<Finding>, findings: seq<Finding>): seq<Finding> {
    if scoped == [] then findings else scoped
  }

  lemma OutcomeScope(env: Env, req: Request)
    requires HasLevels(req) && AboutOutcomes(Lower(req.title))
    requires PerOutcomeFindings(env, req.findings, Lower(req.title)).None?
    ensures ScopedFindings(env, req) == OrAll(OutcomeFindings(req.findings), req.findings)
  {
  }

  lemma OutputScope(env: Env, req: Request)
    requires HasLevels(req) && !AboutOutcomes(Lower(req.title)) && OtherOutcomeSection(req)
    requires PerOutcomeFindings(env, req.findings, Lower(req.title)).None?
    ensures ScopedFindings(env, req) == OrAll(OutputFindings(req.findings), req.findings)
  {
  }

  /** With findings of one level only, both sections show all of them. */
  lemma OneLevelTwice(findings: seq<Finding>, f: Finding)
    requires !BothLevels(findings) && f in findings
    ensures f in OrAll(OutcomeFindings(findings), findings) && f in OrAll(OutputFindings(findings), findings)
  {
    var a, b := OutcomeFindings(findings), OutputFindings(findings);
    if a != [] {
      assert a[0] in a;
    }
    if b != [] {
      assert b[0] in b;
    }
  }

  // ---------------------------------------------------------------- sections named for an outcome

  predicate OwnedBy(f: Finding, name: string) {
    FirstNumber(OrEmpty(f.outcomeCode)) == Some(name)
  }

  /** Some finding belongs to that outcome. */
  predicate HasOwn(findings: seq<Finding>, name: string) {
    exists f :: f in findings && OwnedBy(f, name)
  }

  predicate NoOutcomeLevel(findings: seq<Finding>) {
    forall f :: f in findings ==> !OutcomeLevel(f)
  }

  /** What a section about outcomes shows when its own outcome has no finding. */
  predicate Fallback(findings: seq<Finding>, f: Finding) {
    f in findings && (OutcomeLevel(f) || NoOutcomeLevel(findings))
  }

  lemma {:induction false} NumberNamesOutcome(word: char -> bool, afterWord: bool, s: string)
    requires OutcomeNumber(word, afterWord, s).Some?
    ensures AboutOutcomes(s)
    decreases |s|
  {
    if afterWord || !StartsWith(s, "outcome") || LeadingNumber(word, s[7..]).None? {
      NumberNamesOutcome(word, word(s[0]), s[1..]);
    }
  }

  lemma NoCodesNoOwn(findings: seq<Finding>, name: string)
    requires forall i | 0 <= i < |findings| :: OrEmpty(findings[i].outcomeCode) == ""
    ensures !HasOwn(findings, name)
  {
  }

  /** What a section named for one outcome shows. */
  lemma NamedOutcomeShows(env: Env, req: Request, f: Finding)
    requires HasLevels(req) && OutcomeNumber(env.word, false, Lower(req.title)).Some?
    ensures var name := NumberName(OutcomeNumber(env.word, false, Lower(req.title)).value);
            f in ScopedFindings(env, req) <==>
            if HasOwn(req.findings, name) then f in req.findings && OwnedBy(f, name) else Fallback(req.findings, f)
  {
    var mine := Lower(req.title);
    var name := NumberName(OutcomeNumber(env.word, false, mine).value);
    NumberNamesOutcome(env.word, false, mine);
    var own := Select(req.findings, (g: Finding) => FirstNumber(OrEmpty(g.outcomeCode)) == Some(name));
    assert forall g :: g in own <==> g in req.findings && OwnedBy(g, name);
    assert HasOwn(req.findings, name) <==> own != [] by {
      if own != [] { assert own[0] in own; }
    }
    if forall i | 0 <= i < |req.findings| :: OrEmpty(req.findings[i].outcomeCode) == "" {
      NoCodesNoOwn(req.findings, name);
    }
    assert PerOutcomeFindings(env, req.findings, mine) == if HasOwn(req.findings, name) then Some(own) else None;
    if !HasOwn(req.findings, name) {
      FallbackShows(env, req, f);
    }
  }

  lemma FallbackShows(env: Env, req: Request, f: Finding)
    requires HasLevels(req) && AboutOutcomes(Lower(req.title)) && PerOutcomeFindings(env, req.findings, Lower(req.title)).None?
    ensures f in ScopedFindings(env, req) <==> Fallback(req.findings, f)
  {
    var scoped := OutcomeFindings(req.findings);
    assert scoped == [] <==> NoOutcomeLevel(req.findings) by {
      if scoped != [] { assert scoped[0] in scoped; }
    }
  }

  /** Both sections show the finding. */
  ghost predicate Shared(env: Env, a: Request, b: Request) {
    exists f :: f in ScopedFindings(env, a) && f in ScopedFindings(env, b)
  }

  /** The outcome has findings, and none that a section falling back would show as well. */
  predicate KeptApart(findings: seq<Finding>, name: string) {
    HasOwn(findings, name) && forall f :: f in findings && OwnedBy(f, name) ==> !Fallback(findings, f)
  }

  /** Two sections of one report named for different outcomes never show the same finding exactly when
      both outcomes have findings, or one has and none of them is shown by a section that falls back. */
  lemma OutcomesApartIff(env: Env, a: Request, b: Request)
    requires a.findings == b.findings && HasLevels(a)
    requires OutcomeNumber(env.word, false, Lower(a.title)).Some? && OutcomeNumber(env.word, false, Lower(b.title)).Some?
    requires NumberName(OutcomeNumber(env.word, false, Lower(a.title)).value) != NumberName(OutcomeNumber(env.word, false, Lower(b.title)).value)
    ensures var x := NumberName(OutcomeNumber(env.word, false, Lower(a.title)).value);
            var y := NumberName(OutcomeNumber(env.word, false, Lower(b.title)).value);
            !Shared(env, a, b) <==>
            (HasOwn(a.findings, x) && HasOwn(a.findings, y)) || KeptApart(a.findings, x) || KeptApart(a.findings, y)
  {
    var x := NumberName(OutcomeNumber(env.word, false, Lower(a.title)).value);
    var y := NumberName(OutcomeNumber(env.word, false, Lower(b.title)).value);
    forall f ensures f in ScopedFindings(env, a) <==> if HasOwn(a.findings, x) then f in a.findings && OwnedBy(f, x) else Fallback(a.findings, f) {
      NamedOutcomeShows(env, a, f);
    }
    forall f ensures f in ScopedFindings(env, b) <==> if HasOwn(a.findings, y) then f in a.findings && OwnedBy(f, y) else Fallback(a.findings, f) {
      NamedOutcomeShows(env, b, f);
    }
    if !HasOwn(a.findings, x) && !HasOwn(a.findings, y) {
      SomeFallback(a.findings);
    }
  }

  lemma SomeFallback(findings: seq<Finding>)
    requires findings != []
    ensures exists f :: Fallback(findings, f)
  {
    if NoOutcomeLevel(findings) {
      assert Fallback(findings, findings[0]);
    } else {
      var f :| f in findings && OutcomeLevel(f);
      assert Fallback(findings, f);
    }
  }

  // ---------------------------------------------------------------- allowed numbers

  function Optional(s: Option<string>): seq<string> {
    if s.Some? then [s.value] else []
  }

  function OptionalScalar(v: Option<Scalar>): seq<string> {
    if v.Some? then [Printed(v.value)] else []
  }

  /** The text values inside a finding, in any order: `_walk_values`. */
  function FindingTexts(f: Finding): seq<string> {
    [f.indicatorCode] + Optional(f.indicatorId) + Optional(f.indicatorName) + Optional(f.indicatorType)
    + Optional(f.logframeLevel) + Optional(f.outcomeCode)
    + OptionalScalar(f.baseline) + OptionalScalar(f.target) + OptionalScalar(f.value)
    + Optional(f.valueStatus) + Optional(f.unit) + Optional(f.evaluation) + f.qualityFlags
    + OptionalScalar(f.comparisonValue)
    + (if f.lifeOfProject.None? then []
       else [f.lifeOfProject.value.value] + Optional(f.lifeOfProject.value.asOf) + f.lifeOfProject.value.extra)
    + f.extra
  }

  function UpdateTexts(u: Update): seq<string> {
    [u.indicatorCode] + Optional(u.periodAchievement) + Optional(u.cumulativeAchievement) + Optional(u.dataSource) + u.extra
  }

  function WalkFindings(findings: seq<Finding>): seq<string> {
    if findings == [] then [] else FindingTexts(findings[0]) + WalkFindings(findings[1..])
  }

  function WalkUpdates(updates: seq<Update>): seq<string> {
    if updates == [] then [] else UpdateTexts(updates[0]) + WalkUpdates(updates[1..])
  }

  /** Every text value of the request. */
  function Walk(req: Request): seq<string> {
    [req.title] + req.sectionTitles + req.other + WalkFindings(req.findings) + WalkUpdates(req.updates)
  }

  function NormalForms(tokens: seq<string>): set<string> {
    set i | 0 <= i < |tokens| :: Normalise(tokens[i])
  }

  function Variants(x: Option<real>): set<string> {
    if x.None? then {} else RoundedVariants(x.value)
  }

  /** What a finding contributes beyond the numbers in its texts. */
  function FindingNumbers(env: Env, f: Finding): set<string> {
    Variants(ToNumber(env, f.value)) + Variants(ToNumber(env, f.baseline))
    + Variants(ToNumber(env, f.target)) + Variants(ToNumber(env, f.comparisonValue))
    + (if f.valueStatus != Some("NOT_CALCULABLE") then Variants(PercentOfTarget(env, f.value, f.target)) else {})
    + (if f.lifeOfProject.None? then {}
       else Variants(ToNumber(env, LifeScalar(f))) + Variants(PercentOfTarget(env, LifeScalar(f), f.target)))
  }

  /** The target of the last calculable finding with this code. */
  function TargetOf(findings: seq<Finding>, code: string): Option<Scalar> {
    if findings == [] then None
    else
      var f := findings[|findings| - 1];
      if f.indicatorCode == code && f.valueStatus != Some("NOT_CALCULABLE") then f.target
      else TargetOf(findings[..|findings| - 1], code)
  }

  function UpdateNumbers(env: Env, findings: seq<Finding>, u: Update): set<string> {
    var target := TargetOf(findings, u.indicatorCode);
    var scalar := (s: Option<string>) => if s.Some? then Some(Text(s.value)) else None;
    if target.None? then {}
    else Variants(PercentOfTarget(env, scalar(u.cumulativeAchievement), target)) + Variants(PercentOfTarget(env, scalar(u.periodAchievement), target))
  }

  /** What a loop that adds `numbers(item)` for every item has collected. */
  function Collect<T>(items: seq<T>, numbers: T -> set<string>): set<string> {
    if items == [] then {} else Collect(items[..|items| - 1], numbers) + numbers(items[|items| - 1])
  }

  lemma {:induction false} CollectMembers<T>(items: seq<T>, numbers: T -> set<string>, n: string)
    ensures n in Collect(items, numbers) <==> exists i | 0 <= i < |items| :: n in numbers(items[i])
  {
    if items != [] {
      var last := |items| - 1;
      CollectMembers(items[..last], numbers, n);
      assert forall i | 0 <= i < last :: items[i] == items[..last][i];
    }
  }

  function TextsAllowed(word: char -> bool, texts: seq<string>): set<string> {
    Collect(texts, (c: string) => NormalForms(Extract(word, c)))
  }

  function FindingsAllowed(env: Env, findings: seq<Finding>): set<string> {
    Collect(findings, (f: Finding) => FindingNumbers(env, f))
  }

  function UpdatesAllowed(env: Env, findings: seq<Finding>, updates: seq<Update>): set<string> {
    Collect(updates, (u: Update) => UpdateNumbers(env, findings, u))
  }

  /** `allowed_numbers` */
  function Allowed(env: Env, req: Request): set<string> {
    TextsAllowed(env.word, Walk(req)) + FindingsAllowed(env, req.findings) + UpdatesAllowed(env, req.findings, req.updates)
  }
}
