/**
 What the truncation repair does on any text at all, told by positions: which brackets stand outside
 strings, how deep they nest, and where the last inner container closes.
 */
module RepairAnyText {
  import opened Basics
  import opened JsonSyntax
  import opened JsonScanning
  import opened JsonRepair

  // ---------------------------------------------------------------- brackets outside strings

  predicate Opens(c: char) {
    c == '{' || c == '['
  }

  predicate Closes(c: char) {
    c == '}' || c == ']'
  }

  /** Inside or outside a string at the end of the text. */
  function ModeAfter(x: string): Mode {
    if x == [] then Code else NextMode(ModeAfter(x[..|x| - 1]), x[|x| - 1])
  }

  /** A bracket outside strings. */
  predicate BracketAt(x: string, i: nat)
    requires i < |x|
  {
    ModeAfter(x[..i]).Code? && (Opens(x[i]) || Closes(x[i]))
  }

  /** Brackets opened less brackets closed, of either kind. */
  function Nesting(x: string): int {
    if x == [] then 0
    else
      var n := |x| - 1;
      Nesting(x[..n]) + if !BracketAt(x, n) then 0 else if Opens(x[n]) then 1 else -1
  }

  /** No closing bracket stands where nothing is open. */
  ghost predicate NeverUnder(x: string) {
    forall k | 0 <= k <= |x| :: Nesting(x[..k]) >= 0
  }

  /** The bracket at `i` opens level `j` and is still open at the end. */
  ghost predicate OpenLevel(x: string, i: nat, j: nat) {
    && i < |x| && BracketAt(x, i) && Opens(x[i]) && Nesting(x[..i]) == j
    && forall k | i < k <= |x| :: Nesting(x[..k]) > j
  }

  /** The closing brackets owed at the end, the outermost first. */
  ghost predicate Owes(x: string, owed: string) {
    |owed| == Nesting(x) && forall j | 0 <= j < |owed| :: OwedAt(x, j, owed[j])
  }

  ghost predicate OwedAt(x: string, j: nat, c: char) {
    exists i: nat :: OpenLevel(x, i, j) && c == if x[i] == '{' then '}' else ']'
  }

  /** A bracket at `i` closes a container inside another one. */
  predicate InnerClose(x: string, i: nat)
    requires i < |x|
  {
    BracketAt(x, i) && Closes(x[i]) && Nesting(x[..i + 1]) > 0
  }

  ghost predicate LastInnerClose(x: string, i: nat) {
    i < |x| && InnerClose(x, i) && forall k | i < k < |x| :: !InnerClose(x, k)
  }

  // ---------------------------------------------------------------- one character more

  lemma Shorter(x: string, c: char, k: nat)
    requires k <= |x|
    ensures (x + [c])[..k] == x[..k]
  {
  }

  lemma ModeMore(x: string, c: char)
    ensures ModeAfter(x + [c]) == NextMode(ModeAfter(x), c)
  {
    Shorter(x, c, |x|);
    assert x[..|x|] == x;
  }

  lemma NestingMore(x: string, c: char)
    ensures Nesting(x + [c]) == Nesting(x) + if !ModeAfter(x).Code? then 0 else if Opens(c) then 1 else if Closes(c) then -1 else 0
  {
    Shorter(x, c, |x|);
    assert x[..|x|] == x;
  }

  lemma BracketMore(x: string, c: char, i: nat)
    requires i < |x|
    ensures BracketAt(x + [c], i) <==> BracketAt(x, i)
  {
    Shorter(x, c, i);
  }

  lemma NeverUnderMore(x: string, c: char)
    ensures NeverUnder(x + [c]) <==> NeverUnder(x) && Nesting(x + [c]) >= 0
  {
    var y := x + [c];
    assert y[..|y|] == y;
    forall k | 0 <= k <= |x| ensures y[..k] == x[..k] {
      Shorter(x, c, k);
    }
    assert NeverUnder(y) ==> NeverUnder(x) by {
      if NeverUnder(y) {
        forall k | 0 <= k <= |x| ensures Nesting(x[..k]) >= 0 {
          assert Nesting(y[..k]) >= 0;
        }
      }
    }
  }

  lemma OpenLevelMore(x: string, c: char, i: nat, j: nat)
    requires OpenLevel(x, i, j) && Nesting(x + [c]) > j
    ensures OpenLevel(x + [c], i, j) && (x + [c])[i] == x[i]
  {
    var y := x + [c];
    BracketMore(x, c, i);
    Shorter(x, c, i);
    forall k | i < k <= |y| ensures Nesting(y[..k]) > j {
      if k <= |x| {
        Shorter(x, c, k);
        assert Nesting(x[..k]) > j;
      } else {
        assert y[..k] == y;
      }
    }
  }

  lemma OwedMore(x: string, c: char, j: nat, b: char)
    requires OwedAt(x, j, b) && Nesting(x + [c]) > j
    ensures OwedAt(x + [c], j, b)
  {
    var i: nat :| OpenLevel(x, i, j) && b == if x[i] == '{' then '}' else ']';
    OpenLevelMore(x, c, i, j);
  }

  lemma OwedNew(x: string, c: char)
    requires ModeAfter(x).Code? && Opens(c) && Nesting(x) >= 0
    ensures OwedAt(x + [c], Nesting(x), if c == '{' then '}' else ']')
  {
    var y := x + [c];
    NestingMore(x, c);
    Shorter(x, c, |x|);
    assert x[..|x|] == x && y[..|y|] == y;
    assert OpenLevel(y, |x|, Nesting(x));
  }

  /** What is owed after one more character. */
  lemma OwesMore(x: string, owed: string, c: char)
    requires Owes(x, owed) && Nesting(x + [c]) >= 0
    ensures ModeAfter(x).Code? && Opens(c) ==> Owes(x + [c], owed + [if c == '{' then '}' else ']'])
    ensures ModeAfter(x).Code? && Closes(c) ==> owed != [] && Owes(x + [c], owed[..|owed| - 1])
    ensures !(ModeAfter(x).Code? && (Opens(c) || Closes(c))) ==> Owes(x + [c], owed)
  {
    var y := x + [c];
    NestingMore(x, c);
    forall j | 0 <= j < |owed| && j < Nesting(y) ensures OwedAt(y, j, owed[j]) {
      OwedMore(x, c, j, owed[j]);
    }
    if ModeAfter(x).Code? && Opens(c) {
      OwedNew(x, c);
    }
  }

  lemma InnerMore(x: string, c: char, i: nat)
    requires i < |x|
    ensures InnerClose(x + [c], i) <==> InnerClose(x, i)
  {
    BracketMore(x, c, i);
    Shorter(x, c, i + 1);
  }

  lemma InnerLast(x: string, c: char)
    ensures InnerClose(x + [c], |x|) <==> ModeAfter(x).Code? && Closes(c) && Nesting(x + [c]) > 0
  {
    var y := x + [c];
    Shorter(x, c, |x|);
    assert x[..|x|] == x && y[..|y|] == y;
  }

  // ---------------------------------------------------------------- the loop

  /** What the loop knows after reading `x`, the text from its first brace on. */
  ghost predicate Tells(x: string, base: nat, r: Option<Tracker>) {
    if !NeverUnder(x) then r.None?
    else
      && r.Some? && r.value.mode == ModeAfter(x) && Owes(x, r.value.stack)
      && match r.value.best
         case None => forall i: nat | i < |x| :: !InnerClose(x, i)
         case Some(b) => base <= b.cut && LastInnerClose(x, b.cut - base) && Owes(x[..b.cut - base + 1], b.open)
  }

  lemma BestStays(x: string, c: char, b: Best, base: nat)
    requires base <= b.cut && LastInnerClose(x, b.cut - base) && Owes(x[..b.cut - base + 1], b.open)
    requires !InnerClose(x + [c], |x|)
    ensures LastInnerClose(x + [c], b.cut - base) && Owes((x + [c])[..b.cut - base + 1], b.open)
  {
    var i := b.cut - base;
    InnerMore(x, c, i);
    Shorter(x, c, i + 1);
    forall k | i < k < |x + [c]| ensures !InnerClose(x + [c], k) {
      if k < |x| {
        InnerMore(x, c, k);
      }
    }
  }

  lemma NoneStays(x: string, c: char)
    requires (forall i: nat | i < |x| :: !InnerClose(x, i)) && !InnerClose(x + [c], |x|)
    ensures forall i: nat | i < |x + [c]| :: !InnerClose(x + [c], i)
  {
    forall i: nat | i < |x + [c]| ensures !InnerClose(x + [c], i) {
      if i < |x| {
        InnerMore(x, c, i);
      }
    }
  }

  lemma StepTells(x: string, base: nat, t: Tracker, c: char)
    requires NeverUnder(x) && Tells(x, base, Some(t))
    ensures Tells(x + [c], base, Track(t, base + |x|, c))
  {
    var y := x + [c];
    ModeMore(x, c);
    NestingMore(x, c);
    NeverUnderMore(x, c);
    InnerLast(x, c);
    if NeverUnder(y) {
      OwesMore(x, t.stack, c);
      var r := Track(t, base + |x|, c);
      if InnerClose(y, |x|) {
        assert y[..|x| + 1] == y;
        assert r.value.best == Some(Best(base + |x|, r.value.stack));
      } else if t.best.Some? {
        BestStays(x, c, t.best.value, base);
      } else {
        NoneStays(x, c);
      }
    }
  }

  /** The loop's state, for any text. */
  lemma {:induction false} LoopTells(x: string, base: nat)
    ensures Tells(x, base, TrackAll(FRESH, base, x))
  {
    if x == [] {
      assert x[..0] == x;
    } else {
      var n := |x| - 1;
      LoopTells(x[..n], base);
      LastApart(x);
      LoopTellsMore(x[..n], x[n], base, TrackAll(FRESH, base, x[..n]));
    }
  }

  lemma LoopTellsMore(x: string, c: char, base: nat, r: Option<Tracker>)
    requires r == TrackAll(FRESH, base, x) && Tells(x, base, r)
    ensures Tells(x + [c], base, TrackAll(FRESH, base, x + [c]))
  {
    TrackJoin(FRESH, base, x, [c]);
    NeverUnderMore(x, c);
    if NeverUnder(x) {
      TrackChar(r.value, base + |x|, c);
      StepTells(x, base, r.value, c);
    }
  }

  lemma LastApart(x: string)
    requires x != []
    ensures x == x[..|x| - 1] + [x[|x| - 1]]
  {
  }

  // ---------------------------------------------------------------- the repair

  /** The first brace of the text is at `start`. */
  ghost predicate FirstBrace(text: string, start: nat) {
    start < |text| && text[start] == '{' && forall i | 0 <= i < start :: text[i] != '{'
  }

  lemma {:induction false} FindBraceIs(text: string)
    ensures FindBrace(text) >= 0 ==> FirstBrace(text, FindBrace(text))
    ensures FindBrace(text) < 0 ==> '{' !in text
  {
    if text != [] && text[0] != '{' {
      FindBraceIs(text[1..]);
      assert forall i | 1 <= i < |text| :: text[i] == text[1..][i - 1];
    }
  }

  /** `d` is what the text from `start` loads as, cut behind the bracket at `cut` and closed again. */
  ghost predicate SalvagedAt(text: string, start: nat, cut: nat, owed: string, d: Json) {
    && FirstBrace(text, start)
    && var x := text[start..];
       && NeverUnder(x) && Nesting(x) > 0 && LastInnerClose(x, cut) && Owes(x[..cut + 1], owed)
       && Loads(x[..cut + 1] + Reverse(owed), false) == Some(d)
  }

  /** Content that makes an object worth keeping: the last `content` is a string with some text. */
  ghost predicate HasContent(d: Json) {
    d.Coll? && d.kind.Object? &&
    exists codes :: Lookup(d, CONTENT_NAME) == Some(Str(codes)) && exists i | 0 <= i < |codes| :: !PySpace(codes[i])
  }

  /** What is owed is determined by the text. */
  lemma OwesOnce(x: string, a: string, b: string)
    requires Owes(x, a) && Owes(x, b)
    ensures a == b
  {
    forall j | 0 <= j < |a| ensures a[j] == b[j] {
      OwedOnce(x, j, a[j], b[j]);
    }
  }

  lemma OwedOnce(x: string, j: nat, a: char, b: char)
    requires OwedAt(x, j, a) && OwedAt(x, j, b)
    ensures a == b
  {
    var i: nat :| OpenLevel(x, i, j) && a == if x[i] == '{' then '}' else ']';
    var k: nat :| OpenLevel(x, k, j) && b == if x[k] == '{' then '}' else ']';
    NotBefore(x, i, k, j);
    NotBefore(x, k, i, j);
  }

  lemma NotBefore(x: string, i: nat, k: nat, j: nat)
    requires OpenLevel(x, i, j) && k <= |x| && Nesting(x[..k]) == j
    ensures k <= i
  {
  }

  lemma UsableIs(d: Json)
    ensures Usable(d) <==> HasContent(d)
  {
  }

  /** Exactly what the repair returns for any text: it needs a first brace, brackets that never close
      more than is open and leave something open at the end, and an inner container that closed; then
      it reads the text up to the last such place, closed again, and keeps an object with content. */
  lemma RepairIff(text: string, d: Json)
    ensures Repair(text) == Some(d) <==> HasContent(d) && exists start, cut, owed :: SalvagedAt(text, start, cut, owed, d)
  {
    var start := FindBrace(text);
    FindBraceIs(text);
    UsableIs(d);
    if start >= 0 {
      LoopTells(text[start..], start);
      RepairFrom(text, start, TrackAll(FRESH, start, text[start..]), d);
    }
  }

  predicate ReadAs(candidate: string, d: Json) {
    Loads(candidate, false) == Some(d)
  }

  /** The loop's last state leads to `d`. */
  predicate LeadsTo(text: string, start: nat, t: Tracker, d: Json) {
    && t.stack != [] && t.best.Some? && start <= t.best.value.cut < |text|
    && ReadAs(text[start..t.best.value.cut + 1] + Reverse(t.best.value.open), d) && Usable(d)
  }

  lemma RepairIs(text: string, start: nat, r: Option<Tracker>, d: Json)
    requires FindBrace(text) == start && r == TrackAll(FRESH, start, text[start..])
    ensures Repair(text) == Some(d) <==> r.Some? && LeadsTo(text, start, r.value, d)
  {
  }

  /** Where the loop ends with a cut: the only places of which `SalvagedAt` can speak. */
  lemma CutOnce(text: string, start: nat, t: Tracker, start': nat, cut: nat, owed: string, d: Json)
    requires FirstBrace(text, start) && Tells(text[start..], start, Some(t)) && SalvagedAt(text, start', cut, owed, d)
    ensures start' == start && t.stack != [] && t.best.Some? && t.best.value.cut == start + cut && t.best.value.open == owed
  {
    var x := text[start..];
    assert start' == start;
    assert InnerClose(x, cut);
    assert t.best.Some?;
    var b := t.best.value;
    assert b.cut - start == cut;
    OwesOnce(x[..cut + 1], owed, b.open);
  }

  lemma RepairFrom(text: string, start: nat, r: Option<Tracker>, d: Json)
    requires FindBrace(text) == start && FirstBrace(text, start) && r == TrackAll(FRESH, start, text[start..])
    requires Tells(text[start..], start, r)
    ensures Repair(text) == Some(d) <==> Usable(d) && exists start', cut, owed :: SalvagedAt(text, start', cut, owed, d)
  {
    RepairIs(text, start, r, d);
    if r.Some? && LeadsTo(text, start, r.value, d) {
      SalvagedThere(text, start, r.value, d);
    }
    if Usable(d) && exists start', cut, owed :: SalvagedAt(text, start', cut, owed, d) {
      var start', cut, owed :| SalvagedAt(text, start', cut, owed, d);
      SalvagedLeads(text, start, r, start', cut, owed, d);
    }
  }

  lemma SalvagedLeads(text: string, start: nat, r: Option<Tracker>, start': nat, cut: nat, owed: string, d: Json)
    requires FirstBrace(text, start) && Tells(text[start..], start, r) && Usable(d) && SalvagedAt(text, start', cut, owed, d)
    ensures r.Some? && LeadsTo(text, start, r.value, d)
  {
    assert start' == start && r.Some?;
    CutOnce(text, start, r.value, start', cut, owed, d);
    assert start + cut == r.value.best.value.cut;
    CutText(text, start, cut);
    assert ReadAs(text[start..][..cut + 1] + Reverse(owed), d);
  }

  lemma CutText(text: string, start: nat, cut: nat)
    requires start + cut < |text|
    ensures text[start..start + cut + 1] == text[start..][..cut + 1]
  {
  }

  lemma SalvagedThere(text: string, start: nat, t: Tracker, d: Json)
    requires FirstBrace(text, start) && Tells(text[start..], start, Some(t)) && LeadsTo(text, start, t, d)
    ensures Usable(d) && SalvagedAt(text, start, t.best.value.cut - start, t.best.value.open, d)
  {
    CutText(text, start, t.best.value.cut - start);
    assert ReadAs(text[start..][..t.best.value.cut - start + 1] + Reverse(t.best.value.open), d);
  }

  /** A text whose brackets are all closed again is not repaired, nor is one in which a bracket closes
      nothing. */
  lemma ClosedIsRefused(text: string, start: nat)
    requires FirstBrace(text, start) && (Nesting(text[start..]) == 0 || !NeverUnder(text[start..]))
    ensures Repair(text) == None
  {
    if Repair(text).Some? {
      RepairIff(text, Repair(text).value);
    }
  }

  // ---------------------------------------------------------------- complete objects

  predicate NoBracketOrQuote(s: string) {
    forall i | 0 <= i < |s| :: !IsBracket(s[i]) && s[i] != '"'
  }

  lemma TrackWhole(items: Items, base: nat)
    requires GoodItems(Object, items)
    ensures var r := TrackAll(FRESH, base, Text(Box(Object, items))); r.Some? && r.value.mode.Code? && r.value.stack == []
  {
    var inside := Tracker(Code, ['}'], None);
    assert "" + ['}'] == ['}'];
    TrackChar(FRESH, base, '{');
    TrackItems(Object, items, inside, base + 1);
    var t := TrackAll(inside, base + 1, ItemsText(items)).value;
    TrackJoin(FRESH, base, ['{'], ItemsText(items));
    TrackJoin(FRESH, base, ['{'] + ItemsText(items), ['}']);
    TrackChar(t, base + 1 + |ItemsText(items)|, '}');
  }

  /** An object that is all there, in prose without braces before it and without brackets and quotes
      behind it, is not repaired: the caller falls back. */
  lemma CompleteIsRefused(pre: string, items: Items, suf: string)
    requires '{' !in pre && GoodItems(Object, items) && NoBracketOrQuote(suf)
    ensures Repair(pre + Text(Box(Object, items)) + suf) == None
  {
    var doc := Text(Box(Object, items));
    var x := doc + suf;
    TrackWhole(items, |pre|);
    SkimPlainText(suf);
    SkimTrack(TrackAll(FRESH, |pre|, doc).value, |pre| + |doc|, suf);
    TrackJoin(FRESH, |pre|, doc, suf);
    RefusedAfter(pre, x);
    Assoc(pre, doc, suf);
  }

  /** Nor is one with a closing bracket somewhere behind it that closes nothing. */
  lemma OverclosedIsRefused(pre: string, items: Items, quiet: string, c: char, rest: string)
    requires '{' !in pre && GoodItems(Object, items) && NoBracketOrQuote(quiet) && Closes(c)
    ensures Repair(pre + (Text(Box(Object, items)) + (quiet + ([c] + rest)))) == None
  {
    var doc := Text(Box(Object, items));
    TrackWhole(items, |pre|);
    var t := TrackAll(FRESH, |pre|, doc).value;
    SkimPlainText(quiet);
    SkimTrack(t, |pre| + |doc|, quiet);
    TrackJoin(t, |pre| + |doc|, quiet, [c] + rest);
    TrackJoin(FRESH, |pre|, doc, quiet + ([c] + rest));
    assert ([c] + rest)[0] == c;
    RefusedAfter(pre, doc + (quiet + ([c] + rest)));
  }

  lemma RefusedAfter(pre: string, x: string)
    requires '{' !in pre && x != [] && x[0] == '{'
    requires var r := TrackAll(FRESH, |pre|, x); r.None? || r.value.stack == []
    ensures Repair(pre + x) == None
  {
    FindBraceAfter(pre, x);
    TakeDrop(pre, x);
    Unfinished(pre + x, |pre|, TrackAll(FRESH, |pre|, x));
  }

  lemma Unfinished(text: string, start: nat, r: Option<Tracker>)
    requires FindBrace(text) == start && r == TrackAll(FRESH, start, text[start..]) && (r.None? || r.value.stack == [])
    ensures Repair(text) == None
  {
  }
}
