/**
 Requests at which the built tables do not keep their promises: numbers the input does not show, and
 rows that two sections share.
 */
module TableLimits {
  import opened Basics
  import opened Numbers
  import opened NumberScan
  import opened Report
  import opened TableScan
  import opened Grounding
  import Thousands

  // ---------------------------------------------------------------- a request with one name

  /** One finding: code "A", the given name, and nothing else recorded. */
  function NamedFinding(name: string): Finding {
    Finding("A", None, Some(name), None, None, None, None, None, None, None, None, None, [], None, None, [])
  }

  function NamedRequest(name: string): Request {
    Request("", [], [NamedFinding(name)], [], [])
  }

  lemma NoDigitsExtract(word: char -> bool, s: string)
    requires forall i | 0 <= i < |s| :: !IsDigit(s[i])
    ensures Extract(word, s) == []
  {
    NoDigitsStrip(true, s);
    NoDigitsTokens(word, s);
  }

  lemma NamedWalk(name: string)
    ensures Walk(NamedRequest(name)) == ["", "A", name]
  {
    var f := NamedFinding(name);
    assert FindingTexts(f) == ["A", name];
    assert WalkFindings([f][1..]) == [];
    assert WalkFindings([f]) == FindingTexts(f) + WalkFindings([f][1..]);
  }

  /** Its allowed numbers are those of the name. */
  lemma NamedAllowed(env: Env, name: string, n: string)
    ensures n in Allowed(env, NamedRequest(name)) <==> n in NormalForms(Extract(env.word, name))
  {
    var req := NamedRequest(name);
    NamedWalk(name);
    NoDigitsExtract(env.word, "");
    NoDigitsExtract(env.word, "A");
    NamedTexts(env.word, name, n);
    CollectMembers(req.findings, (f: Finding) => FindingNumbers(env, f), n);
    assert FindingNumbers(env, NamedFinding(name)) == {};
    CollectMembers(req.updates, (u: Update) => UpdateNumbers(env, req.findings, u), n);
  }

  lemma NamedTexts(word: char -> bool, name: string, n: string)
    requires Extract(word, "") == [] && Extract(word, "A") == []
    ensures n in TextsAllowed(word, ["", "A", name]) <==> n in NormalForms(Extract(word, name))
  {
    ThreeTexts("", "A", name, (c: string) => NormalForms(Extract(word, c)), n);
    assert NormalForms([]) == {};
  }

  lemma ThreeTexts(a: string, b: string, c: string, numbers: string -> set<string>, n: string)
    ensures n in Collect([a, b, c], numbers) <==> n in numbers(a) || n in numbers(b) || n in numbers(c)
  {
    var texts := [a, b, c];
    CollectMembers(texts, numbers, n);
    assert texts[0] == a && texts[1] == b && texts[2] == c;
  }

  /** Its indicator table is grounded only if the printed name is. */
  lemma NamedTable(env: Env, name: string)
    requires WordClass(env.word) && name != ""
    ensures Ungrounded(Extract(env.word, IndicatorMarkdown(env, NamedRequest(name))), Allowed(env, NamedRequest(name)), {}) == [] ==>
            CellAllowed(env, NamedRequest(name), name)
  {
    NamedScope(env, name);
    NamedCells(name);
    OneFindingTable(env, NamedRequest(name), NamedFinding(name), 1);
  }

  lemma OneFindingTable(env: Env, req: Request, f: Finding, k: nat)
    requires WordClass(env.word) && ScopedFindings(env, req) == [f] && k < |TextCells(req, f)|
    ensures Ungrounded(Extract(env.word, IndicatorMarkdown(env, req)), Allowed(env, req), {}) == [] ==>
            CellAllowed(env, req, TextCells(req, f)[k])
  {
    IndicatorTableIff(env, req);
    FirstRow(env, req, ScopedFindings(env, req), f, k);
  }

  lemma FirstRow(env: Env, req: Request, findings: seq<Finding>, f: Finding, k: nat)
    requires findings == [f] && k < |TextCells(req, f)|
    ensures (forall i | 0 <= i < |findings| :: AllAllowed(env, req, TextCells(req, findings[i]))) ==>
            CellAllowed(env, req, TextCells(req, f)[k])
  {
    assert findings[0] == f;
  }

  lemma NamedScope(env: Env, name: string)
    ensures ScopedFindings(env, NamedRequest(name)) == [NamedFinding(name)]
  {
  }

  lemma NamedCells(name: string)
    requires name != ""
    ensures var cells := TextCells(NamedRequest(name), NamedFinding(name)); |cells| > 1 && cells[1] == name
  {
  }

  // ---------------------------------------------------------------- a list marker

  lemma MarkerOfName(c: char, rest: string)
    requires IsDigit(c) && rest != [] && IsSpace(rest[0])
    ensures var name := [c] + (['.'] + rest);
            LeadRun(name) == 0 && Marker(name) == 2 && MarkerNumber(name) == [c] && name[2..] == rest
  {
    var name := [c] + (['.'] + rest);
    assert name[0] == c && name[1] == '.' && name[1..] == ['.'] + rest && name[0..] == name;
    assert DigitRun(name[1..]) == 0 && DigitRun(name) == 1;
    assert name[0..1] == [c];
  }

  /** A name that is a list marker with text after it: the input shows no number, its table shows one. */
  lemma MarkedNameUngrounded(env: Env, name: string, c: char, rest: string)
    requires WordClass(env.word) && name == [c] + (['.'] + rest) && IsDigit(c)
    requires rest != [] && IsSpace(rest[0]) && '\n' !in name && '|' !in name && forall i | 0 <= i < |rest| :: !IsDigit(rest[i])
    ensures var req := NamedRequest(name);
            Ungrounded(Extract(env.word, IndicatorMarkdown(env, req)), Allowed(env, req), {}) != []
  {
    MarkerOfName(c, rest);
    MarkedNameShowsNothing(env.word, name, rest);
    NamedAllowed(env, name, Normalise([c]));
    NamedWalk(name);
    TextCellIff(env, NamedRequest(name), name);
    NamedTable(env, name);
  }

  lemma MarkedNameShowsNothing(word: char -> bool, name: string, rest: string)
    requires LeadRun(name) == 0 && Marker(name) == 2 && |name| >= 2 && name[2..] == rest && '\n' !in name
    requires forall i | 0 <= i < |rest| :: !IsDigit(rest[i])
    ensures Extract(word, name) == []
  {
    StripOneLine(name);
    assert name[..0] + rest == rest;
    NoDigitsTokens(word, rest);
  }

  lemma WellsSpelled()
    ensures "1. Wells" == ['1'] + (['.'] + " Wells")
  {
  }

  /** "1. Wells" */
  lemma ListMarkerUngrounded(env: Env)
    requires WordClass(env.word)
    ensures var req := NamedRequest("1. Wells");
            Ungrounded(Extract(env.word, IndicatorMarkdown(env, req)), Allowed(env, req), {}) != []
  {
    WellsSpelled();
    MarkedNameUngrounded(env, "1. Wells", '1', " Wells");
  }

  // ---------------------------------------------------------------- a pipe before a number

  lemma OneThousand(word: char -> bool, c: char, t: string)
    requires WordClass(word) && IsDigit(c) && AllDigits(t) && |t| == 3
    ensures Scan(word, None, [c] + ([','] + t)) == [[c] + ([','] + t)]
  {
    var g := [','] + t;
    assert g[1..4] == t && g[4..] == [];
    Thousands.MatchWhole(word, [c], g, "");
    assert [c] + (g + "") == [c] + g;
  }

  lemma SlashHides(word: char -> bool, c: char, t: string)
    requires WordClass(word) && IsDigit(c) && AllDigits(t) && t != []
    ensures Scan(word, None, ['/'] + ([c] + ([','] + t))) == [t]
  {
    var z := [','] + t;
    var y := [c] + z;
    var x := ['/'] + y;
    assert x[1..] == y && y[1..] == z && z[1..] == t;
    ScanStep(word, None, x);
    ScanStep(word, Some('/'), y);
    ScanStep(word, Some(c), z);
    ScanPrev(word, Some(','), None, t);
    DigitsScanned(word, t);
  }

  lemma DigitsScanned(word: char -> bool, d: string)
    requires WordClass(word) && d != [] && AllDigits(d)
    ensures Scan(word, None, d) == [d]
  {
    Thousands.MatchWhole(word, d, "", "");
    assert d + ("" + "") == d && "" + "" == "";
  }

  lemma PipeOrSlashFirst(p: char, d: string)
    requires (p == '|' || p == '/') && '|' !in d && '\n' !in d
    ensures StripMarkers(true, [p] + d) == [p] + d && NoPipes([p] + d) == ['/'] + d
  {
    NoPipesSame(d);
    NoMarkerFirst(p, d);
    assert ([p] + d)[1..] == d;
    assert '\n' !in [p] + d;
    StripOneLine([p] + d);
  }

  lemma NoMarkerFirst(p: char, d: string)
    requires p == '|' || p == '/'
    ensures Marker([p] + d) == 0
  {
    var x := [p] + d;
    assert x[0] == p && WhiteRun(x) == 0 && x[0..] == x;
  }

  /** "|1,234" is the number 1,234 in the input; the table writes "/1,234", in which the number check
      reads 234.  `c` is the first digit, `t` the other three. */
  lemma PipeChangesNumber(word: char -> bool, c: char, t: string)
    requires WordClass(word) && IsDigit(c) && AllDigits(t) && |t| == 3
    ensures var d := [c] + ([','] + t);
            Extract(word, ['|'] + d) == [d] && CellTokens(word, ['|'] + d) == [t]
  {
    var d := [c] + ([','] + t);
    PipeOrSlashFirst('|', d);
    SeparatorsNeutral(word);
    ScanSkip(word, '|', d);
    OneThousand(word, c, t);
    SlashHides(word, c, t);
    SlashPart(word, ['/'] + d);
  }

  lemma SlashPart(word: char -> bool, p: string)
    requires WordClass(word) && '\n' !in p
    ensures PartTokens(word, p) == Scan(word, None, p)
  {
    SeparatorsNeutral(word);
    StripInsideLine(p + " ");
    ScanCut(word, None, p, ' ', "");
    assert p + ([' '] + "") == p + " ";
    assert Scan(word, None, p) + [] == Scan(word, None, p);
  }

  lemma {:induction false} LStripShorter(s: string, c: char)
    ensures |LStrip(s, c)| <= |s| && (s != [] && s[0] != c ==> LStrip(s, c) == s)
  {
    if s != [] && s[0] == c {
      LStripShorter(s[1..], c);
    }
  }

  /** The four digits and the last three have different normal forms. */
  lemma ThousandsDiffer(c: char, t: string)
    requires IsDigit(c) && c != '0' && AllDigits(t) && |t| == 3
    ensures Normalise([c] + ([','] + t)) != Normalise(t)
  {
    var d := [c] + t;
    CommaOut(c, t);
    PlainNormal(d);
    PlainNormal(t);
    LStripShorter(d, '0');
    LStripShorter(t, '0');
  }

  lemma CommaOut(c: char, t: string)
    requires IsDigit(c) && AllDigits(t)
    ensures RemoveCommas([c] + ([','] + t)) == RemoveCommas([c] + t)
  {
    RemoveCommasNone([c]);
    RemoveCommasNone(t);
    RemoveCommasJoin([c], [','] + t);
    RemoveCommasJoin([','], t);
    RemoveCommasJoin([c], t);
    assert RemoveCommas([',']) == [] by { assert [','][1..] == []; }
    assert [] + t == t;
  }

  /** The normal form of plain digits drops leading zeros. */
  lemma PlainNormal(d: string)
    requires d != [] && AllDigits(d)
    ensures RemoveCommas(d) == d && Normalise(d) == if LStrip(d, '0') == [] then "0" else LStrip(d, '0')
  {
    RemoveCommasNone(d);
    NormaliseParts(d, "");
    assert WithFraction(d, "") == d;
    CanonicalPlain(d);
  }

  lemma CanonicalPlain(d: string)
    requires AllDigits(d)
    ensures Canonical(d, "") == if LStrip(d, '0') == [] then "0" else LStrip(d, '0')
  {
    var head := if LStrip(d, '0') == [] then "0" else LStrip(d, '0');
    assert RStrip("", '0') == "" && head + "" == head;
  }

  /** "|1,234" */
  lemma PipeUngrounded(env: Env)
    requires WordClass(env.word)
    ensures var req := NamedRequest("|1,234");
            Ungrounded(Extract(env.word, IndicatorMarkdown(env, req)), Allowed(env, req), {}) != []
  {
    var t, name := "234", "|1,234";
    assert name == ['|'] + (['1'] + ([','] + t));
    PipeChangesNumber(env.word, '1', t);
    ThousandsDiffer('1', t);
    NamedAllowed(env, name, Normalise(t));
    assert t in CellTokens(env.word, name);
    NamedTable(env, name);
  }

  // ---------------------------------------------------------------- sections that show the same rows

  /** A report of two sections and one finding of outcome level, without an outcome code. */
  function OneOutcome(): Finding {
    NamedFinding("Wells").(logframeLevel := Some("OUTCOME"))
  }

  function SectionRequest(title: string, titles: seq<string>): Request {
    Request(title, titles, [OneOutcome()], [], [])
  }

  lemma {:induction false} UpperSame(s: string)
    requires forall i | 0 <= i < |s| :: !('a' <= s[i] <= 'z')
    ensures Upper(s) == s
  {
    if s != [] {
      UpperSame(s[1..]);
      HeadTail(s, 0);
    }
  }

  lemma OneOutcomeLevel()
    ensures OutcomeLevel(OneOutcome()) && OrEmpty(OneOutcome().outcomeCode) == "" && OrEmpty(OneOutcome().logframeLevel) != ""
  {
    UpperSame("OUTCOME");
  }

  lemma SectionFindings(title: string, titles: seq<string>)
    ensures var req := SectionRequest(title, titles);
            && req.findings[0] in req.findings && req.findings[0] == OneOutcome()
            && HasLevels(req) && (forall name :: !HasOwn(req.findings, name)) && !BothLevels(req.findings)
  {
    var req := SectionRequest(title, titles);
    OneOutcomeLevel();
    assert req.findings[0] == OneOutcome();
    forall name ensures !HasOwn(req.findings, name) {
      NoCodesNoOwn(req.findings, name);
    }
  }

  /** "Outcome d" names outcome d. */
  lemma TitleNumber(word: char -> bool, title: string, d: char)
    requires title == "Outcome " + [d] && IsDigit(d)
    ensures OutcomeNumber(word, false, Lower(title)) == Some([d])
  {
    var s := Lower(title);
    LowerAt(title);
    assert s[..7] == "outcome" && s[7..] == [' ', d];
    NumberBehind(word, s, [' ', d], d);
  }

  lemma NumberBehind(word: char -> bool, s: string, r: string, d: char)
    requires StartsWith(s, "outcome") && s[7..] == r && r == [' ', d] && IsDigit(d)
    ensures OutcomeNumber(word, false, s) == Some([d])
  {
    assert r[1..] == [d] && r[2..] == [] && r[1..2] == [d];
    assert WhiteRun(r) == 1 && DigitRun([d]) == 1;
  }

  lemma OneDigitName(d: char)
    requires IsDigit(d) && d != '0'
    ensures NumberName([d]) == [d]
  {
  }

  /** "Outcome 1" and "Outcome 2" show the same row. */
  lemma OutcomesShareRows(env: Env, titles: seq<string>)
    ensures Shared(env, SectionRequest("Outcome 1", titles), SectionRequest("Outcome 2", titles))
  {
    var a, b := SectionRequest("Outcome 1", titles), SectionRequest("Outcome 2", titles);
    assert "Outcome 1" == "Outcome " + ['1'] && "Outcome 2" == "Outcome " + ['2'];
    TitleNumber(env.word, "Outcome 1", '1');
    TitleNumber(env.word, "Outcome 2", '2');
    OneDigitName('1');
    OneDigitName('2');
    SectionFindings("Outcome 1", titles);
    OutcomesApartIff(env, a, b);
  }

  lemma OutcomesTitle(title: string)
    requires title == "Outcomes"
    ensures AboutOutcomes(Lower(title))
  {
    LowerAt(title);
    assert Lower(title)[..7] == "outcome";
  }

  lemma {:induction false} NotThere(s: string, p: string)
    requires p != [] && forall i | 0 <= i < |s| :: s[i] != p[0]
    ensures !Contains(s, p)
  {
    if s != [] {
      NotThere(s[1..], p);
      OtherStart(s, p);
    }
  }

  lemma OtherStart(s: string, p: string)
    requires s != [] && p != [] && s[0] != p[0]
    ensures !StartsWith(s, p)
  {
  }

  lemma OutputsNotOutcome(s: string)
    requires |s| == 7 && s[3] == 'p' && forall i | 1 <= i < 7 :: s[i] != 'o' && s[i] != 'i'
    ensures !Contains(s, "outcome")
  {
    NotThere(s[1..], "outcome");
    assert "outcome"[3] == 'c';
    assert s[..7] == s;
  }

  lemma OutputsTitle(title: string)
    requires title == "Outputs"
    ensures !AboutOutcomes(Lower(title)) && |Lower(title)| == 7
  {
    LowerAt(title);
    var s := Lower(title);
    OutputsNotOutcome(s);
    NotThere(s, "impact");
  }

  lemma NoCodesNoOutcome(env: Env, findings: seq<Finding>, title: string)
    requires forall i | 0 <= i < |findings| :: OrEmpty(findings[i].outcomeCode) == ""
    ensures PerOutcomeFindings(env, findings, title).None?
  {
  }

  lemma OutcomesShows(env: Env, req: Request)
    requires HasLevels(req) && !BothLevels(req.findings) && OneOutcome() in req.findings && AboutOutcomes(Lower(req.title))
    requires PerOutcomeFindings(env, req.findings, Lower(req.title)).None?
    ensures OneOutcome() in ScopedFindings(env, req)
  {
    OutcomeScope(env, req);
    OneLevelTwice(req.findings, OneOutcome());
  }

  lemma OutputsShows(env: Env, req: Request)
    requires HasLevels(req) && !BothLevels(req.findings) && OneOutcome() in req.findings && !AboutOutcomes(Lower(req.title))
    requires OtherOutcomeSection(req) && PerOutcomeFindings(env, req.findings, Lower(req.title)).None?
    ensures OneOutcome() in ScopedFindings(env, req)
  {
    OutputScope(env, req);
    OneLevelTwice(req.findings, OneOutcome());
  }

  lemma OutcomesBeside(title: string)
    requires title == "Outputs"
    ensures !AboutOutcomes(Lower(title)) && OtherOutcomeSection(SectionRequest(title, ["Outcomes", title]))
  {
    OutcomesTitle("Outcomes");
    LowerAt("Outcomes");
    OutputsTitle(title);
    assert ["Outcomes", title][0] == "Outcomes";
  }

  lemma OutcomesPart(env: Env, title: string, titles: seq<string>)
    requires title == "Outcomes"
    ensures OneOutcome() in ScopedFindings(env, SectionRequest(title, titles))
  {
    OneOutcomeLevel();
    OutcomesTitle(title);
    SectionFindings(title, titles);
    NoCodesNoOutcome(env, [OneOutcome()], Lower(title));
    OutcomesShows(env, SectionRequest(title, titles));
  }

  lemma OutputsPart(env: Env, title: string)
    requires title == "Outputs"
    ensures OneOutcome() in ScopedFindings(env, SectionRequest(title, ["Outcomes", title]))
  {
    OutcomesBeside(title);
    BesideShows(env, title, ["Outcomes", title]);
  }

  lemma BesideShows(env: Env, title: string, titles: seq<string>)
    requires !AboutOutcomes(Lower(title)) && OtherOutcomeSection(SectionRequest(title, titles))
    ensures OneOutcome() in ScopedFindings(env, SectionRequest(title, titles))
  {
    OneOutcomeLevel();
    SectionFindings(title, titles);
    NoCodesNoOutcome(env, [OneOutcome()], Lower(title));
    OutputsShows(env, SectionRequest(title, titles));
  }

  /** "Outcomes" and "Outputs" both show the one row there is. */
  lemma LevelsShareRows(env: Env)
    ensures var titles := ["Outcomes", "Outputs"];
            && OneOutcome() in ScopedFindings(env, SectionRequest("Outcomes", titles))
            && OneOutcome() in ScopedFindings(env, SectionRequest("Outputs", titles))
  {
    OutcomesPart(env, "Outcomes", ["Outcomes", "Outputs"]);
    OutputsPart(env, "Outputs");
  }
}
