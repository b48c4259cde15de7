/**
 "Grounded by construction": every number in a table built from verified findings is one that a
 grounded draft may contain (`allowed_numbers`, `indicator_table`, `cumulative_table`).
 */
module Grounding {
  import opened Basics
  import opened Numbers
  import opened NumberScan
  import opened Report
  import opened TableScan
  import opened CellScan
  import Thousands

  // ---------------------------------------------------------------- the loops

  method TextNumbers(word: char -> bool, texts: seq<string>) returns (allowed: set<string>)
    ensures allowed == TextsAllowed(word, texts)
  {
    allowed := {};
    for i := 0 to |texts|
      invariant allowed == TextsAllowed(word, texts[..i])
    {
      TakeLast(texts, i);
      allowed := allowed + NormalForms(Extract(word, texts[i]));
    }
    assert texts[..|texts|] == texts;
  }

  method FindingsNumbers(env: Env, findings: seq<Finding>) returns (allowed: set<string>)
    ensures allowed == FindingsAllowed(env, findings)
  {
    allowed := {};
    for i := 0 to |findings|
      invariant allowed == FindingsAllowed(env, findings[..i])
    {
      TakeLast(findings, i);
      allowed := allowed + FindingNumbers(env, findings[i]);
    }
    assert findings[..|findings|] == findings;
  }

  method UpdatesNumbers(env: Env, findings: seq<Finding>, updates: seq<Update>) returns (allowed: set<string>)
    ensures allowed == UpdatesAllowed(env, findings, updates)
  {
    allowed := {};
    for i := 0 to |updates|
      invariant allowed == UpdatesAllowed(env, findings, updates[..i])
    {
      TakeLast(updates, i);
      allowed := allowed + UpdateNumbers(env, findings, updates[i]);
    }
    assert updates[..|updates|] == updates;
  }

  method AllowedNumbers(env: Env, req: Request) returns (allowed: set<string>)
    ensures allowed == Allowed(env, req)
  {
    allowed := TextNumbers(env.word, Walk(req));
    var findings := FindingsNumbers(env, req.findings);
    var updates := UpdatesNumbers(env, req.findings, req.updates);
    allowed := allowed + findings + updates;
  }

  lemma TakeLast<T>(s: seq<T>, i: nat)
    requires i < |s|
    ensures s[..i + 1][..i] == s[..i] && s[..i + 1][i] == s[i]
  {
  }

  /** The tokens of `text` whose normal form is not allowed, each normal form once, in order. */
  function Ungrounded(tokens: seq<string>, allowed: set<string>, seen: set<string>): seq<string> {
    if tokens == [] then []
    else
      var n := Normalise(tokens[0]);
      if n in allowed || n in seen then Ungrounded(tokens[1..], allowed, seen)
      else [tokens[0]] + Ungrounded(tokens[1..], allowed, seen + {n})
  }

  /** `ungrounded_numbers`, for text without written dates. */
  method UngroundedNumbers(word: char -> bool, text: string, allowed: set<string>) returns (out: seq<string>)
    ensures out == Ungrounded(Extract(word, text), allowed, {})
  {
    var tokens := Extract(word, text);
    var seen: set<string> := {};
    out := [];
    var i := 0;
    while i < |tokens|
      invariant 0 <= i <= |tokens|
      invariant Ungrounded(tokens, allowed, {}) == out + Ungrounded(tokens[i..], allowed, seen)
    {
      var raw := tokens[i];
      var norm := Normalise(raw);
      assert tokens[i..][1..] == tokens[i + 1..];
      if norm in allowed || norm in seen {
        i := i + 1;
        continue;
      }
      seen := seen + {norm};
      out := out + [raw];
      i := i + 1;
    }
  }

  /** What is reported are tokens whose normal form is not allowed. */
  lemma {:induction false} UngroundedSound(tokens: seq<string>, allowed: set<string>, seen: set<string>)
    ensures forall t :: t in Ungrounded(tokens, allowed, seen) ==> t in tokens && Normalise(t) !in allowed && Normalise(t) !in seen
  {
    if tokens != [] {
      var n := Normalise(tokens[0]);
      UngroundedSound(tokens[1..], allowed, if n in allowed || n in seen then seen else seen + {n});
    }
  }

  /** Every normal form that is not allowed is reported. */
  lemma {:induction false} UngroundedComplete(tokens: seq<string>, allowed: set<string>, seen: set<string>, t: string)
    requires t in tokens && Normalise(t) !in allowed && Normalise(t) !in seen
    ensures exists r :: r in Ungrounded(tokens, allowed, seen) && Normalise(r) == Normalise(t)
  {
    var n := Normalise(tokens[0]);
    if n in allowed || n in seen {
      UngroundedComplete(tokens[1..], allowed, seen, t);
    } else if n == Normalise(t) {
      assert tokens[0] in Ungrounded(tokens, allowed, seen);
    } else {
      UngroundedComplete(tokens[1..], allowed, seen + {n}, t);
      var r :| r in Ungrounded(tokens[1..], allowed, seen + {n}) && Normalise(r) == Normalise(t);
      assert r in Ungrounded(tokens, allowed, seen);
    }
  }

  ghost predicate DistinctForms(out: seq<string>) {
    forall i, j | 0 <= i < j < |out| :: Normalise(out[i]) != Normalise(out[j])
  }

  /** No normal form is reported twice. */
  lemma {:induction false} UngroundedOnce(tokens: seq<string>, allowed: set<string>, seen: set<string>)
    ensures DistinctForms(Ungrounded(tokens, allowed, seen))
  {
    if tokens != [] {
      var n := Normalise(tokens[0]);
      if n in allowed || n in seen {
        UngroundedOnce(tokens[1..], allowed, seen);
      } else {
        var rest := Ungrounded(tokens[1..], allowed, seen + {n});
        UngroundedOnce(tokens[1..], allowed, seen + {n});
        UngroundedSound(tokens[1..], allowed, seen + {n});
        assert forall j | 0 <= j < |rest| :: rest[j] in rest;
      }
    }
  }

  /** Nothing is reported exactly when every number's normal form is allowed. */
  lemma UngroundedNone(tokens: seq<string>, allowed: set<string>)
    ensures Ungrounded(tokens, allowed, {}) == [] <==> forall t :: t in tokens ==> Normalise(t) in allowed
  {
  }

  // ---------------------------------------------------------------- what the updates add

  /** The last calculable finding of an indicator. */
  predicate LastCalculable(findings: seq<Finding>, code: string, i: nat) {
    && i < |findings| && findings[i].indicatorCode == code && findings[i].valueStatus != Some("NOT_CALCULABLE")
    && forall j | i < j < |findings| :: findings[j].indicatorCode == code ==> findings[j].valueStatus == Some("NOT_CALCULABLE")
  }

  lemma {:induction false} TargetIsLast(findings: seq<Finding>, code: string, i: nat)
    requires LastCalculable(findings, code, i)
    ensures TargetOf(findings, code) == findings[i].target
  {
    var n := |findings| - 1;
    if i < n {
      TargetIsLast(findings[..n], code, i);
    }
  }

  lemma {:induction false} TargetHasFinding(findings: seq<Finding>, code: string) returns (i: nat)
    requires TargetOf(findings, code).Some?
    ensures LastCalculable(findings, code, i)
  {
    i := |findings| - 1;
    if findings[i].indicatorCode != code || findings[i].valueStatus == Some("NOT_CALCULABLE") {
      i := TargetHasFinding(findings[..i], code);
    }
  }

  /** `n` is a rounded percentage of one of the update's two recorded values against the target of the
      last calculable finding of its indicator. */
  ghost predicate UpdateGives(env: Env, findings: seq<Finding>, u: Update, n: string) {
    exists i: nat, recorded: Option<string> ::
      && LastCalculable(findings, u.indicatorCode, i) && (recorded == u.cumulativeAchievement || recorded == u.periodAchievement)
      && recorded.Some?
      && var pct := PercentOfTarget(env, Some(Text(recorded.value)), findings[i].target); pct.Some? && n in RoundedVariants(pct.value)
  }

  lemma UpdateNumbersAre(env: Env, findings: seq<Finding>, u: Update, n: string)
    ensures n in UpdateNumbers(env, findings, u) <==> UpdateGives(env, findings, u, n)
  {
    if UpdateGives(env, findings, u, n) {
      var i: nat, recorded: Option<string> :|
        && LastCalculable(findings, u.indicatorCode, i) && (recorded == u.cumulativeAchievement || recorded == u.periodAchievement)
        && recorded.Some?
        && var pct := PercentOfTarget(env, Some(Text(recorded.value)), findings[i].target); pct.Some? && n in RoundedVariants(pct.value);
      TargetIsLast(findings, u.indicatorCode, i);
    }
    if n in UpdateNumbers(env, findings, u) {
      var i := TargetHasFinding(findings, u.indicatorCode);
      TargetIsLast(findings, u.indicatorCode, i);
    }
  }

  /** What the updates add to the allowed numbers: exactly the rounded percentages of recorded values
      against the last calculable target of their indicator. */
  lemma UpdatesAllowedExactly(env: Env, findings: seq<Finding>, updates: seq<Update>, n: string)
    ensures n in UpdatesAllowed(env, findings, updates) <==>
            exists k | 0 <= k < |updates| :: UpdateGives(env, findings, updates[k], n)
  {
    CollectMembers(updates, (u: Update) => UpdateNumbers(env, findings, u), n);
    forall k | 0 <= k < |updates|
      ensures n in UpdateNumbers(env, findings, updates[k]) <==> UpdateGives(env, findings, updates[k], n)
    {
      UpdateNumbersAre(env, findings, updates[k], n);
    }
  }

  // ---------------------------------------------------------------- allowed cells

  /** Every number read in the printed cell is allowed. */
  ghost predicate CellAllowed(env: Env, req: Request, c: string) {
    forall t :: t in CellTokens(env.word, c) ==> Normalise(t) in Allowed(env, req)
  }

  lemma TextAllowed(word: char -> bool, texts: seq<string>, c: string)
    requires c in texts
    ensures NormalForms(Extract(word, c)) <= TextsAllowed(word, texts)
  {
    forall n | n in NormalForms(Extract(word, c)) ensures n in TextsAllowed(word, texts) {
      CollectMembers(texts, (t: string) => NormalForms(Extract(word, t)), n);
    }
  }

  /** No list marker at the start, or one behind a line end, or one whose number is allowed anyway. */
  predicate MarkerHarmless(env: Env, req: Request, c: string) {
    MarkerIn(c, Allowed(env, req))
  }

  /** Behind every pipe: no number with a comma, or one whose part after its first comma is allowed. */
  ghost predicate PipesHarmless(env: Env, req: Request, c: string) {
    TailsIn(env.word, c, Allowed(env, req))
  }

  ghost predicate Harmless(env: Env, req: Request, c: string) {
    MarkerHarmless(env, req, c) && PipesHarmless(env, req, c)
  }

  /** Any text of the request is an allowed cell exactly when its list marker and its pipes do no harm. */
  lemma TextCellIff(env: Env, req: Request, c: string)
    requires WordClass(env.word) && c in Walk(req)
    ensures CellAllowed(env, req, c) <==> Harmless(env, req, c)
  {
    OwnNumbersAllowed(env, req, c);
    CellShownIff(env.word, c, Allowed(env, req));
  }

  lemma OwnNumbersAllowed(env: Env, req: Request, c: string)
    requires c in Walk(req)
    ensures forall t :: t in Extract(env.word, c) ==> Normalise(t) in Allowed(env, req)
  {
    var own := Extract(env.word, c);
    TextAllowed(env.word, Walk(req), c);
    assert forall t :: t in own ==> Normalise(t) in NormalForms(own);
  }

  lemma NoDigitsCell(env: Env, req: Request, c: string)
    requires forall i | 0 <= i < |c| :: !IsDigit(c[i])
    ensures CellAllowed(env, req, c) && Harmless(env, req, c)
  {
    NoPipesAt(c);
    NoDigitsPart(env.word, NoPipes(c));
    NoDigitsMarker(c);
    forall i | 0 <= i < |c| && c[i] == '|' ensures AllIn(TailOf(env.word, c[i + 1..]), Allowed(env, req)) {
      NoDigitsTail(env.word, c[i + 1..]);
    }
  }

  lemma NoDigitsTail(word: char -> bool, s: string)
    requires forall i | 0 <= i < |s| :: !IsDigit(s[i])
    ensures TailOf(word, s) == []
  {
  }

  /** A printed non-negative number is one token; after a minus sign nothing is a number. */
  lemma FixedScanned(word: char -> bool, x: real)
    requires WordClass(word)
    ensures var n := Normalise(Fixed(x, 1));
            && (x >= 0.0 ==> Scan(word, None, n) == [n] && Normalise(n) == n)
            && (x < 0.0 ==> Scan(word, None, n) == [])
  {
    var u := Units(x, 1);
    QuotientRemainder(u, Scale(1));
    var w, f := DigitsOf(u / Scale(1)), PaddedDigits(u % Scale(1), 1);
    var g := RStrip(f, '0');
    StripKeepsDigits(f);
    if x >= 0.0 {
      assert Fixed(x, 1) == WithFraction(w, f);
      NormaliseParts(w, f);
      CanonicalScanned(word, w, f);
    } else {
      assert Fixed(x, 1) == "-" + (w + ("." + f));
      NormaliseNegative(w, f);
      var tail := if g == [] then "" else "." + g;
      Thousands.NegativeScan(word, w, "", tail);
      assert "" + tail == tail;
    }
  }

  lemma CanonicalScanned(word: char -> bool, w: string, f: string)
    requires WordClass(word) && AllDigits(w) && AllDigits(f)
    ensures Scan(word, None, Canonical(w, f)) == [Canonical(w, f)] && Normalise(Canonical(w, f)) == Canonical(w, f)
  {
    StripKeepsDigits(w);
    StripKeepsDigits(f);
    CanonicalIsToken(w, f);
    var s, g := LStrip(w, '0'), RStrip(f, '0');
    var head, tail := if s == [] then "0" else s, if g == [] then "" else "." + g;
    Thousands.MatchWhole(word, head, "", tail);
    assert "" + tail == tail;
  }

  lemma NormaliseNegative(w: string, f: string)
    requires w != [] && AllDigits(w) && AllDigits(f) && f != []
    ensures Normalise("-" + (w + ("." + f))) == "-" + (w + (if RStrip(f, '0') == [] then "" else "." + RStrip(f, '0')))
  {
    var p := "-" + w;
    NegativeTrim(w, f);
    assert "-" + (w + ("." + f)) == (p + ".") + f;
    RStripJoin(p + ".", f, '0');
    StripKeepsDigits(f);
    StripNegative(w, RStrip(f, '0'));
  }

  lemma StripNegative(w: string, g: string)
    requires w != [] && AllDigits(w) && AllDigits(g) && (g != [] ==> g[|g| - 1] != '0')
    ensures var s := RStrip((("-" + w) + ".") + g, '.');
            s == "-" + (w + (if g == [] then "" else "." + g)) && LStrip(s, '0') == s
  {
  }

  lemma NegativeTrim(w: string, f: string)
    requires w != [] && AllDigits(w) && AllDigits(f) && f != []
    ensures var s := "-" + (w + ("." + f)); '.' in s && Trim(RemoveCommas(s)) == s
  {
    var s := "-" + (w + ("." + f));
    assert s[|w| + 1] == '.';
    NumberCharsJoin(w, f);
    assert s[|s| - 1] == f[|f| - 1];
    Thousands.SignedTrim(s);
  }

  lemma NumberCharsJoin(w: string, f: string)
    requires AllDigits(w) && AllDigits(f)
    ensures var s := "-" + (w + ("." + f)); forall i | 1 <= i < |s| :: s[i] == '.' || IsDigit(s[i])
  {
  }

  /** The characters of a printed number in normal form. */
  predicate NumberChars(s: string) {
    forall i | 0 <= i < |s| :: IsDigit(s[i]) || s[i] == '.' || s[i] == '-'
  }

  lemma CanonicalChars(w: string, f: string)
    requires AllDigits(w) && AllDigits(f)
    ensures NumberChars(Canonical(w, f))
  {
    StripKeepsDigits(w);
    StripKeepsDigits(f);
  }

  lemma SignedChars(w: string, g: string)
    requires AllDigits(w) && AllDigits(g)
    ensures NumberChars("-" + (w + (if g == [] then "" else "." + g)))
  {
  }

  lemma FixedChars(x: real)
    ensures NumberChars(Normalise(Fixed(x, 1)))
  {
    var u := Units(x, 1);
    QuotientRemainder(u, Scale(1));
    var w, f := DigitsOf(u / Scale(1)), PaddedDigits(u % Scale(1), 1);
    if x >= 0.0 {
      assert Fixed(x, 1) == WithFraction(w, f);
      NormaliseParts(w, f);
      CanonicalChars(w, f);
    } else {
      assert Fixed(x, 1) == "-" + (w + ("." + f));
      NormaliseNegative(w, f);
      StripKeepsDigits(f);
      SignedChars(w, RStrip(f, '0'));
    }
  }

  lemma PercentAllowed(env: Env, req: Request, pct: Option<real>)
    requires WordClass(env.word)
    requires forall n :: n in Variants(pct) ==> n in Allowed(env, req)
    ensures CellAllowed(env, req, PercentText(pct))
  {
    if pct.None? {
      NoDigitsCell(env, req, DASH);
    } else {
      var n := Normalise(Fixed(pct.value, 1));
      assert n in Variants(pct);
      FixedTokens(env.word, pct.value, n);
    }
  }

  /** The only number in a printed percentage is the rounded value itself. */
  lemma FixedTokens(word: char -> bool, x: real, n: string)
    requires WordClass(word) && n == Normalise(Fixed(x, 1))
    ensures forall t :: t in CellTokens(word, n + "%") ==> Normalise(t) == n
  {
    FixedScanned(word, x);
    FixedChars(x);
    PercentTokens(word, n);
  }

  lemma PercentTokens(word: char -> bool, n: string)
    requires WordClass(word) && NumberChars(n)
    ensures CellTokens(word, n + "%") == Scan(word, None, n)
  {
    SeparatorsNeutral(word);
    OneLineCell(word, n + "%");
    ScanCut(word, None, n, '%', "");
    assert n + (['%'] + "") == n + "%";
    assert Scan(word, None, n) + [] == Scan(word, None, n);
  }

  // ---------------------------------------------------------------- where cells come from

  lemma {:induction false} WalkHasFinding(findings: seq<Finding>, f: Finding, t: string)
    requires f in findings && t in FindingTexts(f)
    ensures t in WalkFindings(findings)
  {
    if f != findings[0] {
      WalkHasFinding(findings[1..], f, t);
    }
  }

  lemma {:induction false} WalkHasUpdate(updates: seq<Update>, u: Update, t: string)
    requires u in updates && t in UpdateTexts(u)
    ensures t in WalkUpdates(updates)
  {
    if u != updates[0] {
      WalkHasUpdate(updates[1..], u, t);
    }
  }

  lemma FindingTextWalked(req: Request, f: Finding, t: string)
    requires f in req.findings && t in FindingTexts(f)
    ensures t in Walk(req)
  {
    WalkHasFinding(req.findings, f, t);
  }

  lemma {:induction false} SourceWalked(req: Request, updates: seq<Update>, code: string)
    requires forall u :: u in updates ==> u in req.updates
    ensures SourceOf(updates, code).Some? ==> SourceOf(updates, code).value in Walk(req)
  {
    if updates != [] {
      var u := updates[|updates| - 1];
      if u.indicatorCode == code && OrEmpty(u.dataSource) != "" {
        WalkHasUpdate(req.updates, u, u.dataSource.value);
      } else {
        SourceWalked(req, updates[..|updates| - 1], code);
      }
    }
  }

  lemma FindingNumbersAllowed(env: Env, req: Request, f: Finding, n: string)
    requires f in req.findings && n in FindingNumbers(env, f)
    ensures n in Allowed(env, req)
  {
    FindingAllowed(env, req.findings, f);
  }

  lemma FindingAllowed(env: Env, findings: seq<Finding>, f: Finding)
    requires f in findings
    ensures FindingNumbers(env, f) <= FindingsAllowed(env, findings)
  {
    forall n | n in FindingNumbers(env, f) ensures n in FindingsAllowed(env, findings) {
      CollectMembers(findings, (g: Finding) => FindingNumbers(env, g), n);
    }
  }

  lemma FindingTextsContain(f: Finding)
    ensures f.indicatorCode in FindingTexts(f)
    ensures f.indicatorName.Some? ==> f.indicatorName.value in FindingTexts(f)
    ensures f.unit.Some? ==> f.unit.value in FindingTexts(f)
    ensures f.baseline.Some? ==> Printed(f.baseline.value) in FindingTexts(f)
    ensures f.target.Some? ==> Printed(f.target.value) in FindingTexts(f)
    ensures f.value.Some? ==> Printed(f.value.value) in FindingTexts(f)
    ensures f.comparisonValue.Some? ==> Printed(f.comparisonValue.value) in FindingTexts(f)
    ensures f.lifeOfProject.Some? ==> f.lifeOfProject.value.value in FindingTexts(f)
    ensures f.lifeOfProject.Some? && f.lifeOfProject.value.asOf.Some? ==> f.lifeOfProject.value.asOf.value in FindingTexts(f)
  {
  }

  /** A text cell: a fixed word without digits, or a text value of the request. */
  ghost predicate Sourced(req: Request, c: string) {
    (forall i | 0 <= i < |c| :: !IsDigit(c[i])) || c in Walk(req)
  }

  lemma SourcedIff(env: Env, req: Request, c: string)
    requires WordClass(env.word) && Sourced(req, c)
    ensures CellAllowed(env, req, c) <==> Harmless(env, req, c)
  {
    if c !in Walk(req) {
      NoDigitsCell(env, req, c);
    } else {
      TextCellIff(env, req, c);
    }
  }

  lemma OptionalSourced(req: Request, f: Finding, s: Option<string>, default: string)
    requires f in req.findings && (s.Some? ==> s.value in FindingTexts(f))
    requires forall i | 0 <= i < |default| :: !IsDigit(default[i])
    ensures Sourced(req, OrElse(s, default))
  {
    if s.Some? {
      FindingTextWalked(req, f, s.value);
    }
  }

  lemma ScalarSourced(req: Request, f: Finding, v: Option<Scalar>)
    requires f in req.findings && (v.Some? ==> Printed(v.value) in FindingTexts(f))
    ensures Sourced(req, Cell(v))
  {
    if v.Some? {
      FindingTextWalked(req, f, Printed(v.value));
    }
  }

  lemma WordingPlain()
    ensures PlainText("Not calculable") && PlainText("On track") && PlainText("Below expectation") && PlainText("Descriptive only")
    ensures PlainText("Project records")
  {
  }

  ghost predicate AllSourced(req: Request, cells: seq<string>) {
    forall i | 0 <= i < |cells| :: Sourced(req, cells[i])
  }

  lemma SharedSourced(req: Request, f: Finding)
    requires f in req.findings
    ensures AllSourced(req, SharedCells(f))
  {
    FindingTextsContain(f);
    FindingTextWalked(req, f, f.indicatorCode);
    OptionalSourced(req, f, f.indicatorName, DASH);
    OptionalSourced(req, f, f.unit, DASH);
    ScalarSourced(req, f, f.baseline);
    ScalarSourced(req, f, f.target);
  }

  function ValueCell(f: Finding): string {
    if NotCalculable(f) then "Not calculable" else Cell(f.value)
  }

  lemma ValueSourced(req: Request, f: Finding)
    requires f in req.findings
    ensures Sourced(req, ValueCell(f)) && Sourced(req, Cell(f.comparisonValue)) && Sourced(req, Cell(LifeScalar(f)))
  {
    FindingTextsContain(f);
    ScalarSourced(req, f, f.value);
    ScalarSourced(req, f, f.comparisonValue);
    ScalarSourced(req, f, LifeScalar(f));
    WordingSourced(req, "Not calculable") by { WordingPlain(); }
  }

  lemma WordingSourced(req: Request, c: string)
    requires PlainText(c)
    ensures Sourced(req, c)
  {
  }

  lemma AsOfSourced(req: Request, f: Finding)
    requires f in req.findings
    ensures Sourced(req, AsOfCell(f))
  {
    FindingTextsContain(f);
    OptionalSourced(req, f, if f.lifeOfProject.Some? then f.lifeOfProject.value.asOf else None, DASH);
  }

  lemma SourceCellSourced(req: Request, f: Finding)
    ensures Sourced(req, SourceCell(req, f))
  {
    WordingPlain();
    SourceWalked(req, req.updates, f.indicatorCode);
  }

  // ---------------------------------------------------------------- rows

  /** The cells of a row that show texts of the request; the others are derived or fixed wording. */
  function TextCells(req: Request, f: Finding): seq<string> {
    SharedCells(f) + [ValueCell(f), Cell(f.comparisonValue)]
    + (if HasLifeOfProject(req) then [Cell(LifeScalar(f))] else []) + [SourceCell(req, f)]
  }

  function CumulativeTextCells(f: Finding): seq<string> {
    SharedCells(f) + [Cell(LifeScalar(f)), AsOfCell(f)]
  }

  ghost predicate AllAllowed(env: Env, req: Request, cells: seq<string>) {
    forall i | 0 <= i < |cells| :: CellAllowed(env, req, cells[i])
  }

  lemma AllAllowedConcat(env: Env, req: Request, a: seq<string>, b: seq<string>)
    ensures AllAllowed(env, req, a + b) <==> AllAllowed(env, req, a) && AllAllowed(env, req, b)
  {
    assert forall i | 0 <= i < |a| :: a[i] == (a + b)[i];
    assert forall i | 0 <= i < |b| :: b[i] == (a + b)[|a| + i];
  }

  /** The derived percentage of the period is always allowed. */
  lemma PctAllowed(env: Env, req: Request, f: Finding)
    requires WordClass(env.word) && f in req.findings
    ensures CellAllowed(env, req, PctCell(env, f))
  {
    if NotCalculable(f) || IsRate(f) {
      NoDigitsCell(env, req, DASH);
    } else {
      var pct := PercentOfTarget(env, f.value, f.target);
      forall n | n in Variants(pct) ensures n in Allowed(env, req) {
        FindingNumbersAllowed(env, req, f, n);
      }
      PercentAllowed(env, req, pct);
    }
  }

  /** So is the derived percentage of the project target. */
  lemma LifePctAllowed(env: Env, req: Request, f: Finding)
    requires WordClass(env.word) && f in req.findings
    ensures CellAllowed(env, req, LifePctCell(env, f))
  {
    if IsRate(f) || f.lifeOfProject.None? {
      NoDigitsCell(env, req, DASH);
    } else {
      var pct := PercentOfTarget(env, LifeScalar(f), f.target);
      forall n | n in Variants(pct) ensures n in Allowed(env, req) {
        FindingNumbersAllowed(env, req, f, n);
      }
      PercentAllowed(env, req, pct);
    }
  }

  lemma StatusAllowed(env: Env, req: Request, f: Finding)
    ensures CellAllowed(env, req, StatusCell(f))
  {
    WordingPlain();
    if StatusCell(f) == DASH {
      NoDigitsCell(env, req, DASH);
    } else {
      PlainCellAllowed(env, req, StatusCell(f));
    }
  }

  lemma PlainCellAllowed(env: Env, req: Request, c: string)
    requires PlainText(c)
    ensures CellAllowed(env, req, c)
  {
    NoDigitsCell(env, req, c);
  }

  lemma OneAllowed(env: Env, req: Request, a: string)
    ensures AllAllowed(env, req, [a]) <==> CellAllowed(env, req, a)
  {
    assert [a][0] == a;
  }

  lemma PairAllowed(env: Env, req: Request, a: string, b: string)
    ensures AllAllowed(env, req, [a, b]) <==> CellAllowed(env, req, a) && CellAllowed(env, req, b)
  {
    assert [a, b] == [a] + [b];
    AllAllowedConcat(env, req, [a], [b]);
    OneAllowed(env, req, a);
    OneAllowed(env, req, b);
  }

  lemma TripleAllowed(env: Env, req: Request, a: string, b: string, c: string)
    ensures AllAllowed(env, req, [a, b, c]) <==> CellAllowed(env, req, a) && CellAllowed(env, req, b) && CellAllowed(env, req, c)
  {
    Three(a, b, c);
    AllAllowedConcat(env, req, [a, b], [c]);
    PairAllowed(env, req, a, b);
    OneAllowed(env, req, c);
  }

  lemma Three<T>(a: T, b: T, c: T)
    ensures [a, b, c] == [a, b] + [c]
  {
  }

  /** A row holds allowed numbers only exactly when its text cells do. */
  lemma IndicatorRowIff(env: Env, req: Request, f: Finding)
    requires WordClass(env.word) && f in req.findings
    ensures AllAllowed(env, req, IndicatorCells(env, req, f)) <==> AllAllowed(env, req, TextCells(req, f))
  {
    var a, b, d := SharedCells(f), PeriodCells(env, f), [StatusCell(f), SourceCell(req, f)];
    var c := if HasLifeOfProject(req) then LifeCells(env, f) else [];
    var c' := if HasLifeOfProject(req) then [Cell(LifeScalar(f))] else [];
    PctAllowed(env, req, f);
    LifePctAllowed(env, req, f);
    StatusAllowed(env, req, f);
    TripleAllowed(env, req, ValueCell(f), Cell(f.comparisonValue), PctCell(env, f));
    PairAllowed(env, req, ValueCell(f), Cell(f.comparisonValue));
    PairAllowed(env, req, Cell(LifeScalar(f)), LifePctCell(env, f));
    OneAllowed(env, req, Cell(LifeScalar(f)));
    PairAllowed(env, req, StatusCell(f), SourceCell(req, f));
    OneAllowed(env, req, SourceCell(req, f));
    FourParts(env, req, a, b, c, d);
    FourParts(env, req, a, [ValueCell(f), Cell(f.comparisonValue)], c', [SourceCell(req, f)]);
  }

  lemma FourParts(env: Env, req: Request, a: seq<string>, b: seq<string>, c: seq<string>, d: seq<string>)
    ensures AllAllowed(env, req, a + b + c + d) <==>
            AllAllowed(env, req, a) && AllAllowed(env, req, b) && AllAllowed(env, req, c) && AllAllowed(env, req, d)
  {
    AllAllowedConcat(env, req, a + b + c, d);
    AllAllowedConcat(env, req, a + b, c);
    AllAllowedConcat(env, req, a, b);
  }

  lemma CumulativeRowIff(env: Env, req: Request, f: Finding)
    requires WordClass(env.word) && f in req.findings
    ensures AllAllowed(env, req, CumulativeCells(env, f)) <==> AllAllowed(env, req, CumulativeTextCells(f))
  {
    LifePctAllowed(env, req, f);
    PairAllowed(env, req, Cell(LifeScalar(f)), LifePctCell(env, f));
    PairAllowed(env, req, Cell(LifeScalar(f)), AsOfCell(f));
    OneAllowed(env, req, AsOfCell(f));
    AllAllowedConcat(env, req, SharedCells(f) + LifeCells(env, f), [AsOfCell(f)]);
    AllAllowedConcat(env, req, SharedCells(f), LifeCells(env, f));
    AllAllowedConcat(env, req, SharedCells(f), [Cell(LifeScalar(f)), AsOfCell(f)]);
  }

  // ---------------------------------------------------------------- tables

  ghost predicate RowsAllowed(env: Env, req: Request, rows: seq<seq<string>>) {
    forall i | 0 <= i < |rows| :: AllAllowed(env, req, rows[i])
  }

  lemma RowTokensAllowed(env: Env, req: Request, cells: seq<string>)
    ensures (forall t :: t in RowTokens(env.word, MapNoPipes(cells)) ==> Normalise(t) in Allowed(env, req)) <==> AllAllowed(env, req, cells)
  {
    var parts := MapNoPipes(cells);
    forall t ensures t in RowTokens(env.word, parts) <==> exists j | 0 <= j < |parts| :: t in PartTokens(env.word, parts[j]) {
      RowTokensMembers(env.word, parts, t);
    }
    assert forall j | 0 <= j < |cells| :: PartTokens(env.word, parts[j]) == CellTokens(env.word, cells[j]);
  }

  lemma TableTokensAllowed(env: Env, req: Request, rows: seq<seq<string>>)
    ensures (forall t :: t in TableTokens(env.word, rows) ==> Normalise(t) in Allowed(env, req)) <==> RowsAllowed(env, req, rows)
  {
    var lines := PrintedRows(rows);
    forall t ensures t in TableTokens(env.word, rows) <==> exists i | 0 <= i < |lines| :: t in RowTokens(env.word, lines[i]) {
      LinesTokensMembers(env.word, lines, t);
    }
    forall i | 0 <= i < |rows|
      ensures (forall t :: t in RowTokens(env.word, lines[i]) ==> Normalise(t) in Allowed(env, req)) <==> AllAllowed(env, req, rows[i])
    {
      RowTokensAllowed(env, req, rows[i]);
    }
  }

  /** The number check finds nothing in a table exactly when every printed cell is allowed. */
  lemma TableIff(env: Env, req: Request, columns: seq<string>, rows: seq<seq<string>>)
    requires WordClass(env.word) && columns != [] && (forall i | 0 <= i < |rows| :: rows[i] != [])
    requires forall j | 0 <= j < |columns| :: PlainText(columns[j])
    ensures Ungrounded(Extract(env.word, Markdown(columns, rows)), Allowed(env, req), {}) == [] <==> RowsAllowed(env, req, rows)
  {
    ExtractTable(env.word, columns, rows);
    TableTokensAllowed(env, req, rows);
    UngroundedNone(TableTokens(env.word, rows), Allowed(env, req));
  }

  lemma HeadingsPlain()
    ensures forall i | 0 <= i < |COLUMNS| :: PlainText(COLUMNS[i])
    ensures forall i | 0 <= i < |LIFE_COLUMNS| :: PlainText(LIFE_COLUMNS[i])
    ensures forall i | 0 <= i < |CUMULATIVE_COLUMNS| :: PlainText(CUMULATIVE_COLUMNS[i])
  {
    FirstHeadingsPlain();
    LifeHeadingsPlain();
  }

  lemma FirstHeadingsPlain()
    ensures forall i | 0 <= i < |COLUMNS| :: PlainText(COLUMNS[i])
  {
  }

  lemma LifeHeadingsPlain()
    ensures forall i | 0 <= i < |LIFE_COLUMNS| :: PlainText(LIFE_COLUMNS[i])
    ensures forall i | 0 <= i < |CUMULATIVE_COLUMNS| :: PlainText(CUMULATIVE_COLUMNS[i])
  {
  }

  lemma ColumnsPlain(life: bool)
    ensures IndicatorColumns(life) != [] && forall j | 0 <= j < |IndicatorColumns(life)| :: PlainText(IndicatorColumns(life)[j])
  {
    HeadingsPlain();
  }

  function IndicatorMarkdown(env: Env, req: Request): string {
    Markdown(IndicatorColumns(HasLifeOfProject(req)), IndicatorRows(env, req, ScopedFindings(env, req)))
  }

  function LifeFindings(req: Request): seq<Finding> {
    Select(req.findings, (f: Finding) => f.lifeOfProject.Some?)
  }

  function CumulativeMarkdown(env: Env, req: Request): string {
    Markdown(CUMULATIVE_COLUMNS, CumulativeRows(env, LifeFindings(req)))
  }

  lemma IndicatorRowsIff(env: Env, req: Request, findings: seq<Finding>)
    requires WordClass(env.word) && forall f :: f in findings ==> f in req.findings
    ensures var rows := IndicatorRows(env, req, findings);
            && (forall i | 0 <= i < |rows| :: rows[i] != [])
            && (RowsAllowed(env, req, rows) <==> forall i | 0 <= i < |findings| :: AllAllowed(env, req, TextCells(req, findings[i])))
  {
    forall i | 0 <= i < |findings|
      ensures AllAllowed(env, req, IndicatorCells(env, req, findings[i])) <==> AllAllowed(env, req, TextCells(req, findings[i]))
    {
      IndicatorRowIff(env, req, findings[i]);
    }
  }

  lemma CumulativeRowsIff(env: Env, req: Request, findings: seq<Finding>)
    requires WordClass(env.word) && forall f :: f in findings ==> f in req.findings
    ensures var rows := CumulativeRows(env, findings);
            && (forall i | 0 <= i < |rows| :: rows[i] != [])
            && (RowsAllowed(env, req, rows) <==> forall i | 0 <= i < |findings| :: AllAllowed(env, req, CumulativeTextCells(findings[i])))
  {
    forall i | 0 <= i < |findings|
      ensures AllAllowed(env, req, CumulativeCells(env, findings[i])) <==> AllAllowed(env, req, CumulativeTextCells(findings[i]))
    {
      CumulativeRowIff(env, req, findings[i]);
    }
  }

  /** For every request: the number check finds nothing in the indicator table exactly when the cells
      that show texts hold allowed numbers only; the derived cells always do. */
  lemma IndicatorTableIff(env: Env, req: Request)
    requires WordClass(env.word)
    ensures var findings := ScopedFindings(env, req);
            Ungrounded(Extract(env.word, IndicatorMarkdown(env, req)), Allowed(env, req), {}) == [] <==>
            forall i | 0 <= i < |findings| :: AllAllowed(env, req, TextCells(req, findings[i]))
  {
    var life := HasLifeOfProject(req);
    ColumnsPlain(life);
    IndicatorRowsIff(env, req, ScopedFindings(env, req));
    TableIff(env, req, IndicatorColumns(life), IndicatorRows(env, req, ScopedFindings(env, req)));
  }

  /** The same for the cumulative table. */
  lemma CumulativeTableIff(env: Env, req: Request)
    requires WordClass(env.word)
    ensures var findings := LifeFindings(req);
            Ungrounded(Extract(env.word, CumulativeMarkdown(env, req)), Allowed(env, req), {}) == [] <==>
            forall i | 0 <= i < |findings| :: AllAllowed(env, req, CumulativeTextCells(findings[i]))
  {
    HeadingsPlain();
    CumulativeRowsIff(env, req, LifeFindings(req));
    TableIff(env, req, CUMULATIVE_COLUMNS, CumulativeRows(env, LifeFindings(req)));
  }

  ghost predicate AllHarmless(env: Env, req: Request, cells: seq<string>) {
    forall i | 0 <= i < |cells| :: Harmless(env, req, cells[i])
  }

  lemma SourcedRowIff(env: Env, req: Request, cells: seq<string>)
    requires WordClass(env.word) && AllSourced(req, cells)
    ensures AllAllowed(env, req, cells) <==> AllHarmless(env, req, cells)
  {
    forall i | 0 <= i < |cells| ensures CellAllowed(env, req, cells[i]) <==> Harmless(env, req, cells[i]) {
      SourcedIff(env, req, cells[i]);
    }
  }

  lemma AllSourcedConcat(req: Request, a: seq<string>, b: seq<string>)
    requires AllSourced(req, a) && AllSourced(req, b)
    ensures AllSourced(req, a + b)
  {
  }

  lemma TextCellsSourced(req: Request, f: Finding)
    requires f in req.findings
    ensures AllSourced(req, TextCells(req, f)) && AllSourced(req, CumulativeTextCells(f))
  {
    var life := if HasLifeOfProject(req) then [Cell(LifeScalar(f))] else [];
    var a, b := SharedCells(f), [ValueCell(f), Cell(f.comparisonValue)];
    SharedSourced(req, f);
    ValueSourced(req, f);
    AsOfSourced(req, f);
    SourceCellSourced(req, f);
    AllSourcedConcat(req, a, b);
    AllSourcedConcat(req, a + b, life);
    AllSourcedConcat(req, a + b + life, [SourceCell(req, f)]);
    AllSourcedConcat(req, a, [Cell(LifeScalar(f)), AsOfCell(f)]);
  }

  /** For every request: the indicator table is grounded exactly when in no text cell a list marker or a
      pipe does harm. */
  lemma IndicatorTableGrounded(env: Env, req: Request)
    requires WordClass(env.word)
    ensures var findings := ScopedFindings(env, req);
            Ungrounded(Extract(env.word, IndicatorMarkdown(env, req)), Allowed(env, req), {}) == [] <==>
            forall i | 0 <= i < |findings| :: AllHarmless(env, req, TextCells(req, findings[i]))
  {
    var findings := ScopedFindings(env, req);
    IndicatorTableIff(env, req);
    forall i | 0 <= i < |findings|
      ensures AllAllowed(env, req, TextCells(req, findings[i])) <==> AllHarmless(env, req, TextCells(req, findings[i]))
    {
      TextCellsSourced(req, findings[i]);
      SourcedRowIff(env, req, TextCells(req, findings[i]));
    }
  }

  /** The same for the cumulative table. */
  lemma CumulativeTableGrounded(env: Env, req: Request)
    requires WordClass(env.word)
    ensures var findings := LifeFindings(req);
            Ungrounded(Extract(env.word, CumulativeMarkdown(env, req)), Allowed(env, req), {}) == [] <==>
            forall i | 0 <= i < |findings| :: AllHarmless(env, req, CumulativeTextCells(findings[i]))
  {
    var findings := LifeFindings(req);
    CumulativeTableIff(env, req);
    forall i | 0 <= i < |findings|
      ensures AllAllowed(env, req, CumulativeTextCells(findings[i])) <==> AllHarmless(env, req, CumulativeTextCells(findings[i]))
    {
      TextCellsSourced(req, findings[i]);
      SourcedRowIff(env, req, CumulativeTextCells(findings[i]));
    }
  }
}
