/**
 Finding `{…}` blocks in a model's answer (`_balanced_json_blocks`) and the layered extraction on
 top of it (`extract_json`).
 */
module JsonExtract {
  import opened Basics
  import opened JsonSyntax
  import opened JsonScanning
  import Repair = JsonRepair

  // ---------------------------------------------------------------- the scanner

  /** A half-open range of text positions. */
  datatype Span = Span(from: nat, to: nat)

  datatype Finder = Finder(level: Level, start: int, blocks: seq<Span>)

  function Find(f: Finder, i: nat, c: char): Finder {
    var level := Climb(f.level, c);
    if f.level.mode.Code? && c == '{' && f.level.depth == 0 then Finder(level, i, f.blocks)
    else if f.level.mode.Code? && c == '}' && level.depth == 0 && f.start >= 0 then
      Finder(level, -1, f.blocks + [Span(f.start, i + 1)])
    else f.(level := level)
  }

  /** The scanner's state after reading `text`. */
  function FindAll(text: string): (f: Finder)
    ensures f.level == LevelOf(text) && f.start < |text|
    ensures forall k | 0 <= k < |f.blocks| :: f.blocks[k].from <= f.blocks[k].to <= |text|
  {
    if text == [] then Finder(GROUND, -1, [])
    else Find(FindAll(text[..|text| - 1]), |text| - 1, text[|text| - 1])
  }

  function Slice(text: string, s: Span): string
    requires s.from <= s.to <= |text|
  {
    text[s.from..s.to]
  }

  function Blocks(text: string): (r: seq<string>)
    ensures |r| == |FindAll(text).blocks|
  {
    var spans := FindAll(text).blocks;
    seq(|spans|, k requires 0 <= k < |spans| => Slice(text, spans[k]))
  }

  method BalancedJsonBlocks(text: string) returns (blocks: seq<string>)
    ensures blocks == Blocks(text)
  {
    blocks := [];
    var depth, start := 0, -1;
    var inString, escaped := false, false;
    ghost var spans: seq<Span> := [];
    var i := 0;
    while i < |text|
      invariant 0 <= i <= |text|
      invariant escaped ==> inString
      invariant -1 <= start < i
      invariant FindAll(text[..i]) == Finder(Level(Repair.ModeOf(inString, escaped), depth), start, spans)
      invariant |blocks| == |spans|
      invariant forall k | 0 <= k < |spans| :: spans[k].from <= spans[k].to <= |text| && blocks[k] == Slice(text, spans[k])
    {
      var ch := text[i];
      assert text[..i + 1][..|text[..i + 1]| - 1] == text[..i];
      if inString {
        if escaped {
          escaped := false;
        } else if ch == '\\' {
          escaped := true;
        } else if ch == '"' {
          inString := false;
        }
      } else if ch == '"' {
        inString := true;
      } else if ch == '{' {
        if depth == 0 {
          start := i;
        }
        depth := depth + 1;
      } else if ch == '}' {
        depth := depth - 1;
        if depth == 0 && start >= 0 {
          blocks := blocks + [text[start..i + 1]];
          spans := spans + [Span(start, i + 1)];
          start := -1;
        }
      }
      i := i + 1;
    }
    assert text[..|text|] == text;
  }

  // ---------------------------------------------------------------- which blocks, for any text

  /** Brace depth, and whether inside a string, after the first `k` characters. */
  function LevelAt(text: string, k: nat): Level
    requires k <= |text|
  {
    LevelOf(text[..k])
  }

  /** An opening brace at depth zero, outside strings, whose block has not closed yet. */
  ghost predicate OpenAt(text: string, a: int) {
    && 0 <= a < |text| && text[a] == '{' && LevelAt(text, a) == GROUND
    && forall k | a < k <= |text| :: LevelAt(text, k).depth > 0
  }

  /** From an opening brace at depth zero to the first place where the depth is zero again. */
  ghost predicate IsBlock(text: string, s: Span) {
    && s.from < s.to <= |text| && text[s.from] == '{' && LevelAt(text, s.from) == GROUND
    && LevelAt(text, s.to) == GROUND
    && forall k | s.from < k < s.to :: LevelAt(text, k).depth > 0
  }

  /** The scanner's `start` is the open brace, if there is one. */
  ghost predicate StartExact(text: string) {
    var start := FindAll(text).start;
    (start >= 0 ==> OpenAt(text, start)) && forall a :: OpenAt(text, a) ==> a == start
  }

  ghost predicate SpansExact(text: string) {
    forall s :: s in FindAll(text).blocks <==> IsBlock(text, s)
  }

  /** The levels of a text and of the text without its last character. */
  lemma LevelsSnoc(text: string)
    requires text != []
    ensures var n := |text| - 1;
            && (forall k | 0 <= k <= n :: LevelAt(text, k) == LevelAt(text[..n], k))
            && LevelAt(text[..n], n) == LevelOf(text[..n])
            && LevelAt(text, n + 1) == LevelOf(text) == Climb(LevelOf(text[..n]), text[n])
  {
    var n := |text| - 1;
    forall k | 0 <= k <= n ensures LevelAt(text, k) == LevelAt(text[..n], k) {
      assert text[..n][..k] == text[..k];
    }
    assert text[..n + 1] == text && text[..n][..n] == text[..n];
  }

  lemma {:induction false} FindAllExact(text: string)
    ensures StartExact(text) && SpansExact(text)
  {
    if text != [] {
      FindAllExact(text[..|text| - 1]);
      LevelsSnoc(text);
      StartStep(text);
      forall s ensures s in FindAll(text).blocks <==> IsBlock(text, s) {
        BlockStep(text, s);
      }
    }
  }

  /** How the open brace of a text follows from that of the text without its last character. */
  lemma OpenStep(text: string, a: int)
    requires text != []
    ensures var n := |text| - 1;
            OpenAt(text, a) <==>
            LevelOf(text).depth > 0 && ((a == n && text[n] == '{' && LevelOf(text[..n]) == GROUND) || OpenAt(text[..n], a))
  {
    LevelsSnoc(text);
    var n := |text| - 1;
    if OpenAt(text[..n], a) && LevelOf(text).depth > 0 {
      forall k | a < k <= |text| ensures LevelAt(text, k).depth > 0 {
        if k <= n {
          assert LevelAt(text[..n], k).depth > 0;
        }
      }
    }
    if OpenAt(text, a) && a < n {
      forall k | a < k <= n ensures LevelAt(text[..n], k).depth > 0 {
        assert LevelAt(text, k).depth > 0;
      }
    }
  }

  lemma StartStep(text: string)
    requires text != [] && StartExact(text[..|text| - 1])
    ensures StartExact(text)
  {
    var n := |text| - 1;
    LevelsSnoc(text);
    OpenStep(text, FindAll(text).start);
    forall a ensures OpenAt(text, a) ==> a == FindAll(text).start {
      OpenStep(text, a);
      if OpenAt(text[..n], a) {
        assert LevelAt(text[..n], n).depth > 0;
      }
    }
    if FindAll(text[..n]).start >= 0 {
      assert LevelAt(text[..n], n).depth > 0;
    }
  }

  /** The last character closes the open block. */
  ghost predicate ClosesHere(text: string)
    requires text != []
  {
    var n := |text| - 1;
    FindAll(text[..n]).start >= 0 && LevelOf(text[..n]).mode.Code? && text[n] == '}' && LevelOf(text).depth == 0
  }

  lemma FindStep(text: string, s: Span)
    requires text != []
    ensures var t := text[..|text| - 1];
            s in FindAll(text).blocks <==>
            s in FindAll(t).blocks || (ClosesHere(text) && s == Span(FindAll(t).start, |text|))
  {
  }

  lemma BlockStep(text: string, s: Span)
    requires text != [] && StartExact(text[..|text| - 1]) && SpansExact(text[..|text| - 1])
    ensures s in FindAll(text).blocks <==> IsBlock(text, s)
  {
    FindStep(text, s);
    if s.to < |text| {
      SameBlock(text, s);
    } else if s.to == |text| {
      BlockEnds(text, s);
      EndCloses(text, s.from);
    }
  }

  lemma EndCloses(text: string, a: nat)
    requires text != [] && StartExact(text[..|text| - 1])
    ensures OpenAt(text[..|text| - 1], a) && LevelOf(text) == GROUND <==> ClosesHere(text) && a == FindAll(text[..|text| - 1]).start
  {
    var n := |text| - 1;
    LevelsSnoc(text);
    if OpenAt(text[..n], a) {
      assert LevelAt(text[..n], n).depth > 0;
    }
  }

  lemma SameBlock(text: string, s: Span)
    requires text != [] && s.to < |text|
    ensures IsBlock(text, s) <==> IsBlock(text[..|text| - 1], s)
  {
    var t := text[..|text| - 1];
    LevelsSnoc(text);
    if IsBlock(text, s) {
      forall k | s.from < k < s.to ensures LevelAt(t, k).depth > 0 {
        assert LevelAt(text, k).depth > 0;
      }
    }
    if IsBlock(t, s) {
      forall k | s.from < k < s.to ensures LevelAt(text, k).depth > 0 {
        assert LevelAt(t, k).depth > 0;
      }
    }
  }

  /** A block that ends with the text closes the brace that was open before its last character. */
  lemma BlockEnds(text: string, s: Span)
    requires text != [] && s.to == |text|
    ensures IsBlock(text, s) <==> OpenAt(text[..|text| - 1], s.from) && LevelOf(text) == GROUND
  {
    var n := |text| - 1;
    LevelsSnoc(text);
    if IsBlock(text, s) {
      assert s.from < n;
      forall k | s.from < k <= n ensures LevelAt(text[..n], k).depth > 0 {
        assert LevelAt(text, k).depth > 0;
      }
    }
    if OpenAt(text[..n], s.from) {
      forall k | s.from < k < s.to ensures LevelAt(text, k).depth > 0 {
        assert LevelAt(text[..n], k).depth > 0;
      }
    }
  }

  /** For any text at all: the blocks are exactly the ranges that run from an opening brace at depth
      zero, outside strings, to the first return to depth zero; in order and without overlap. */
  lemma BlocksExact(text: string)
    ensures SpansExact(text)
    ensures forall j, k | 0 <= j < k < |FindAll(text).blocks| :: FindAll(text).blocks[j].to <= FindAll(text).blocks[k].from
  {
    FindAllExact(text);
    BlocksInOrder(text);
  }

  lemma {:induction false} BlocksInOrder(text: string)
    ensures var f := FindAll(text);
            && (forall j, k | 0 <= j < k < |f.blocks| :: f.blocks[j].to <= f.blocks[k].from)
            && (f.start >= 0 ==> forall j | 0 <= j < |f.blocks| :: f.blocks[j].to <= f.start)
  {
    if text != [] {
      BlocksInOrder(text[..|text| - 1]);
    }
  }

  /** Each block starts and ends with its braces, is balanced on its own, and no proper part is. */
  lemma BlockBalanced(text: string, s: Span)
    requires s in FindAll(text).blocks
    ensures var b := Slice(text, s);
            && |b| >= 2 && b[0] == '{' && b[|b| - 1] == '}'
            && LevelOf(b) == GROUND
            && forall k | 0 < k < |b| :: LevelAt(b, k).depth > 0
  {
    FindAllExact(text);
    var b := Slice(text, s);
    forall k | 0 <= k <= |b| ensures LevelAt(b, k) == LevelAt(text, s.from + k) {
      assert text[..s.from + k] == text[..s.from] + b[..k];
      LevelJoin(GROUND, text[..s.from], b[..k]);
    }
    assert b[..|b|] == b;
    LevelsSnoc(b);
    assert b[..1] == ['{'];
    LevelChar(GROUND, '{');
  }

  // ---------------------------------------------------------------- a JSON object inside other text

  predicate NoBraceOrQuote(s: string) {
    '{' !in s && '}' !in s && '"' !in s
  }

  lemma {:induction false} QuietLevel(s: string, d: int)
    requires NoBraceOrQuote(s)
    ensures LevelFrom(Level(Code, d), s) == Level(Code, d)
  {
    if s != [] {
      QuietLevel(s[..|s| - 1], d);
    }
  }

  /** The level after `k` characters of `pre + part`. */
  lemma LevelInside(pre: string, part: string, k: nat)
    requires NoBraceOrQuote(pre) && k <= |pre + part|
    ensures k <= |pre| ==> LevelAt(pre + part, k) == GROUND
    ensures k > |pre| ==> LevelAt(pre + part, k) == LevelOf(part[..k - |pre|])
  {
    if k <= |pre| {
      assert (pre + part)[..k] == pre[..k];
      QuietLevel(pre[..k], 0);
    } else {
      assert (pre + part)[..k] == pre + part[..k - |pre|];
      QuietLevel(pre, 0);
      LevelJoin(GROUND, pre, part[..k - |pre|]);
    }
  }

  /** Depth zero before the object, more inside it, zero again after it. */
  lemma {:induction false} LevelsAroundObject(pre: string, n: Node, suf: string, k: nat)
    requires NoBraceOrQuote(pre) && NoBraceOrQuote(suf)
    requires Good(n) && n.Box? && n.kind.Object? && k <= |pre + Text(n) + suf|
    ensures k <= |pre| ==> LevelAt(pre + Text(n) + suf, k) == GROUND
    ensures |pre| < k < |pre| + |Text(n)| ==> LevelAt(pre + Text(n) + suf, k).depth > 0
    ensures |pre| + |Text(n)| <= k ==> LevelAt(pre + Text(n) + suf, k) == GROUND
  {
    var x := Text(n);
    Assoc(pre, x, suf);
    LevelInside(pre, x + suf, k);
    if k > |pre| {
      var j := k - |pre|;
      if j < |x| {
        assert (x + suf)[..j] == x[..j];
        LevelNodePrefix(n, 0, j);
      } else {
        assert (x + suf)[..j] == x + suf[..j - |x|];
        LevelNode(n, 0);
        LevelJoin(GROUND, x, suf[..j - |x|]);
        QuietLevel(suf[..j - |x|], 0);
      }
    }
  }

  /** The only block is the object itself. */
  lemma {:induction false} OnlyBlock(pre: string, n: Node, suf: string, s: Span)
    requires NoBraceOrQuote(pre) && NoBraceOrQuote(suf)
    requires Good(n) && n.Box? && n.kind.Object?
    ensures IsBlock(pre + Text(n) + suf, s) <==> s == Span(|pre|, |pre| + |Text(n)|)
  {
    var x := Text(n);
    var text := pre + x + suf;
    var end := |pre| + |x|;
    forall k | 0 <= k <= |text|
      ensures k <= |pre| ==> LevelAt(text, k) == GROUND
      ensures |pre| < k < end ==> LevelAt(text, k).depth > 0
      ensures end <= k ==> LevelAt(text, k) == GROUND
    {
      LevelsAroundObject(pre, n, suf, k);
    }
    assert text[|pre|] == x[0] == '{';
    assert forall i | 0 <= i < |pre| :: text[i] == pre[i];
    assert forall i | end <= i < |text| :: text[i] == suf[i - end];
    assert IsBlock(text, s) ==> s.from == |pre|;
    if s.from == |pre| && end < s.to <= |text| {
      assert LevelAt(text, end).depth == 0;
    }
  }

  lemma FirstIsMember<T>(s: seq<T>)
    ensures s != [] ==> s[0] in s
    ensures |s| > 1 ==> s[1] in s
  {
  }

  lemma SpansOfObject(text: string, pre: string, n: Node, suf: string, only: Span)
    requires NoBraceOrQuote(pre) && NoBraceOrQuote(suf) && Good(n) && n.Box? && n.kind.Object?
    requires text == pre + Text(n) + suf && only == Span(|pre|, |pre| + |Text(n)|)
    ensures FindAll(text).blocks == [only]
  {
    forall s ensures IsBlock(text, s) <==> s == only {
      OnlyBlock(pre, n, suf, s);
    }
    OnlySpan(text, only);
  }

  lemma OnlySpan(text: string, only: Span)
    requires forall s :: IsBlock(text, s) <==> s == only
    ensures FindAll(text).blocks == [only]
  {
    BlocksExact(text);
    assert IsBlock(text, only);
    OnlyMember(FindAll(text).blocks, only);
  }

  lemma OnlyMember(spans: seq<Span>, only: Span)
    requires (forall s :: s in spans <==> s == only) && only.from < only.to
    requires forall j, k | 0 <= j < k < |spans| :: spans[j].to <= spans[k].from
    ensures spans == [only]
  {
    assert only in spans;
    FirstIsMember(spans);
  }

  /** Round trip: among text free of braces and quotes, the scan returns exactly the object. */
  lemma BlocksOfObject(pre: string, n: Node, suf: string)
    requires NoBraceOrQuote(pre) && NoBraceOrQuote(suf)
    requires Good(n) && n.Box? && n.kind.Object?
    ensures Blocks(pre + Text(n) + suf) == [Text(n)]
  {
    var text := pre + Text(n) + suf;
    var only := Span(|pre|, |pre| + |Text(n)|);
    SpansOfObject(text, pre, n, suf, only);
    assert Slice(text, only) == Text(n);
  }

  /** On a proper prefix of the object the scan returns nothing. */
  lemma {:induction false} BlocksOfPrefix(pre: string, n: Node, k: nat)
    requires NoBraceOrQuote(pre)
    requires Good(n) && n.Box? && n.kind.Object? && k < |Text(n)|
    ensures Blocks(pre + Text(n)[..k]) == []
    ensures k > 0 ==> LevelOf(pre + Text(n)[..k]).depth > 0
  {
    var part := Text(n)[..k];
    var text := pre + part;
    BlocksExact(text);
    forall j | |pre| < j <= |text| ensures LevelAt(text, j).depth > 0 {
      LevelInside(pre, part, j);
      assert part[..j - |pre|] == Text(n)[..j - |pre|];
      LevelNodePrefix(n, 0, j - |pre|);
    }
    assert text[..|text|] == text;
    if k > 0 {
      assert LevelAt(text, |text|).depth > 0;
    }
    assert forall i | 0 <= i < |pre| :: text[i] == pre[i];
    forall s ensures s !in FindAll(text).blocks {
      assert IsBlock(text, s) ==> s.from >= |pre|;
      if |pre| < s.to <= |text| {
        assert LevelAt(text, s.to).depth > 0;
      }
    }
    FirstIsMember(FindAll(text).blocks);
  }

  // ---------------------------------------------------------------- the layers

  /** `re.sub(r",\s*([}\]])", r"\1", s)` */
  function DropTrailingCommas(s: string): string
    decreases |s|
  {
    if s == [] then []
    else
      var n := WhiteRun(s[1..]);
      if s[0] == ',' && 1 + n < |s| && (s[1 + n] == '}' || s[1 + n] == ']') then [s[1 + n]] + DropTrailingCommas(s[n + 2..])
      else [s[0]] + DropTrailingCommas(s[1..])
  }

  function TryBlock(block: string): Option<Json> {
    if Loads(block, true).Some? then Loads(block, true)
    else if Loads(block, false).Some? then Loads(block, false)
    else Loads(DropTrailingCommas(block), false)
  }

  function FirstBlock(blocks: seq<string>): Option<Json> {
    if blocks == [] then None
    else if TryBlock(blocks[0]).Some? then TryBlock(blocks[0])
    else FirstBlock(blocks[1..])
  }

  /** `extract_json` after its fence stripping; `None` stands for `ValueError`. */
  function Extract(cleaned: string): Option<Json> {
    if Loads(cleaned, true).Some? then Loads(cleaned, true)
    else if '{' !in cleaned then None
    else if FirstBlock(Blocks(cleaned)).Some? then FirstBlock(Blocks(cleaned))
    else Repair.Repair(cleaned)
  }

  method ExtractJson(cleaned: string) returns (data: Option<Json>)
    ensures data == Extract(cleaned)
  {
    data := Loads(cleaned, true);
    if data.Some? {
      return;
    }
    if '{' !in cleaned {
      return None;
    }
    var blocks := BalancedJsonBlocks(cleaned);
    var i := 0;
    while i < |blocks|
      invariant 0 <= i <= |blocks|
      invariant FirstBlock(blocks) == FirstBlock(blocks[i..])
    {
      assert blocks[i..][1..] == blocks[i + 1..];
      data := Loads(blocks[i], true);
      if data.Some? {
        return;
      }
      data := Loads(blocks[i], false);
      if data.Some? {
        return;
      }
      data := Loads(DropTrailingCommas(blocks[i]), false);
      if data.Some? {
        return;
      }
      i := i + 1;
    }
    data := Repair.RepairTruncatedJson(cleaned);
  }

  /** A text that reads as JSON ends at depth zero. */
  lemma LoadedIsBalanced(s: string, strict: bool)
    requires Loads(s, strict).Some?
    ensures LevelOf(s) == GROUND
  {
    var lead, trail := ParseDocumentSound(s);
    var n := ParseDocument(s).value;
    QuietLevel(lead, 0);
    LevelNode(n, 0);
    QuietLevel(trail, 0);
    LevelJoin(GROUND, lead, Text(n));
    LevelJoin(GROUND, lead + Text(n), trail);
  }

  /** A truncated object reaches the repair: no earlier layer answers for it. */
  lemma TruncatedReachesRepair(pre: string, n: Node, k: nat)
    requires NoBraceOrQuote(pre)
    requires Good(n) && n.Box? && n.kind.Object? && 0 < k < |Text(n)|
    ensures Extract(pre + Text(n)[..k]) == Repair.Repair(pre + Text(n)[..k])
  {
    var text := pre + Text(n)[..k];
    BlocksOfPrefix(pre, n, k);
    if Loads(text, true).Some? {
      LoadedIsBalanced(text, true);
    }
    assert text[|pre|] == '{';
  }

  /** Prose before an object cannot begin a JSON document of its own. */
  lemma {:induction false} ProseIsNoDocument(pre: string, n: Node, suf: string)
    requires '[' !in pre && NoBraceOrQuote(pre)
    requires Good(n) && n.Box? && n.kind.Object?
    ensures var d := ParseDocument(pre + Text(n) + suf); d.Some? ==> d.value == n
  {
    var text := pre + Text(n) + suf;
    Assoc(pre, Text(n), suf);
    if ParseDocument(text).Some? {
      if Blank(pre) {
        Assoc(pre, Text(n), suf);
        SpaceRunExact(pre, Text(n) + suf);
        ParseBoxInverts(n, suf);
      } else {
        assert text[|pre|] == '{';
        var lead, trail := ParseDocumentSound(text);
        AtomFirst(pre, Text(n) + suf, lead, ParseDocument(text).value, trail);
        AtomHasNoBrace(lead, ParseDocument(text).value, trail);
      }
    }
  }

  /** A document that begins inside the prose can only be a number or a literal name. */
  lemma AtomFirst(pre: string, rest: string, lead: string, d: Node, trail: string)
    requires '[' !in pre && NoBraceOrQuote(pre) && !Blank(pre)
    requires Blank(lead) && Good(d) && pre + rest == lead + Text(d) + trail
    ensures d.Atom?
  {
    var text := pre + rest;
    TextStarts(d);
    var i :| 0 <= i < |pre| && !JsonSpace(pre[i]);
    assert text[i] == pre[i];
    assert forall j | 0 <= j < |lead| :: text[j] == lead[j];
    assert text[|lead|] == Text(d)[0];
    assert text[|lead|] == pre[|lead|];
  }

  lemma AtomHasNoBrace(lead: string, d: Node, trail: string)
    requires Blank(lead) && Blank(trail) && Good(d) && d.Atom?
    ensures '{' !in lead + Text(d) + trail
  {
  }

  lemma ParseBoxInverts(n: Node, rest: string)
    requires Good(n) && n.Box?
    ensures ParseNode(Text(n) + rest) == Ok(n, rest)
  {
    BoxThen(n.kind, n.items, rest);
    ParseItemsInverts(n.kind, n.items, rest, true);
    ParseBoxStep(n.kind, ItemsText(n.items) + ([Closer(n.kind)] + rest));
  }

  /** Round trip of the whole extraction: an object in prose is what comes out. */
  lemma ExtractObject(pre: string, n: Node, suf: string)
    requires '[' !in pre && NoBraceOrQuote(pre) && NoBraceOrQuote(suf)
    requires Good(n) && n.Box? && n.kind.Object?
    ensures Extract(pre + Text(n) + suf) == Some(Value(n))
  {
    var text := pre + Text(n) + suf;
    BlocksOfObject(pre, n, suf);
    ProseIsNoDocument(pre, n, suf);
    assert text[|pre|] == '{';
    TextTried(n);
    OneBlock(Text(n));
  }

  lemma TextLoads(n: Node)
    requires Good(n)
    ensures ParseDocument(Text(n)) == Some(n) && Loads(Text(n), false) == Some(Value(n))
  {
    ParseDocumentInverts("", n, "");
    assert "" + Text(n) + "" == Text(n);
  }

  lemma TextTried(n: Node)
    requires Good(n)
    ensures TryBlock(Text(n)) == Some(Value(n))
  {
    TextLoads(n);
  }

  lemma OneBlock(block: string)
    ensures FirstBlock([block]) == TryBlock(block)
  {
    assert [block][1..] == [];
  }
}
