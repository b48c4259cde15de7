/**
 Objects whose containers end with a comma: what the extraction makes of them.  Its last layer takes
 such commas out with a pattern that does not look whether it is inside a string.
 */
module TrailingCommas {
  import opened Basics
  import opened JsonSyntax
  import opened JsonExtract

  // ---------------------------------------------------------------- loose trees

  /** Like `Good`, but the list of a container that is not empty may end with a comma and white space,
      which its `End` then holds. */
  predicate Loose(n: Node)
    decreases n
  {
    match n
    case Atom(text) => IsAtom(text)
    case Quoted(body) => GoodUnits(body)
    case Box(kind, items) => LooseItems(kind, items, true)
  }

  predicate LooseItems(kind: Kind, items: Items, first: bool)
    decreases items
  {
    match items
    case End(ws) => if first then Blank(ws) else ws == "" || (ws[0] == ',' && WhiteOnly(ws[1..]))
    case Item(tag, node, post, tail) => GoodLabel(kind, tag) && Loose(node) && Blank(post) && LooseItems(kind, tail, false)
  }

  function LooseText(n: Node): string
    decreases n, 0
  {
    match n
    case Atom(text) => text
    case Quoted(body) => QuotedText(body)
    case Box(kind, items) => [Opener(kind)] + (LooseItemsText(items) + [Closer(kind)])
  }

  function LooseItemsText(items: Items): string
    decreases items, 0
  {
    match items
    case End(ws) => ws
    case Item(tag, node, post, tail) => LabelText(tag) + (LooseText(node) + (post + LooseTail(tail)))
  }

  function LooseTail(tail: Items): string
    decreases tail, 1
  {
    if tail.End? then tail.ws else [','] + LooseItemsText(tail)
  }

  /** Some container ends with a comma. */
  predicate HasComma(n: Node) {
    n.Box? && HasCommaIn(n.items, true)
  }

  predicate HasCommaIn(items: Items, first: bool) {
    match items
    case End(ws) => !first && ws != ""
    case Item(_, node, _, tail) => HasComma(node) || HasCommaIn(tail, false)
  }

  lemma LooseBoxThen(kind: Kind, items: Items, rest: string)
    ensures LooseText(Box(kind, items)) + rest == [Opener(kind)] + (LooseItemsText(items) + ([Closer(kind)] + rest))
  {
  }

  lemma LooseItemThen(items: Items, rest: string)
    requires items.Item?
    ensures LooseItemsText(items) + rest ==
            LabelText(items.tag) + (LooseText(items.node) + (items.post + (LooseTail(items.tail) + rest)))
  {
  }

  lemma LooseStarts(n: Node)
    requires Loose(n)
    ensures LooseText(n) != [] && !IsSpace(LooseText(n)[0]) && !IsCloser(LooseText(n)[0])
  {
  }

  lemma JsonSpaceIsSpace(s: string)
    requires Blank(s)
    ensures WhiteOnly(s) && ',' !in s
  {
  }

  // ---------------------------------------------------------------- without such a comma

  lemma {:induction false} NoCommaGood(n: Node)
    requires Loose(n) && !HasComma(n)
    ensures Good(n) && LooseText(n) == Text(n)
    decreases n, 0
  {
    if n.Box? {
      NoCommaItems(n.kind, n.items, true);
    }
  }

  lemma {:induction false} NoCommaItems(kind: Kind, items: Items, first: bool)
    requires LooseItems(kind, items, first) && !HasCommaIn(items, first)
    ensures GoodItems(kind, items) && LooseItemsText(items) == ItemsText(items)
    ensures !first && items.End? ==> items.ws == ""
    decreases items, 0
  {
    if items.Item? {
      NoCommaGood(items.node);
      NoCommaItems(kind, items.tail, false);
      NoCommaText(items);
    }
  }

  lemma NoCommaText(items: Items)
    requires items.Item? && LooseText(items.node) == Text(items.node)
    requires if items.tail.End? then items.tail.ws == "" else LooseItemsText(items.tail) == ItemsText(items.tail)
    ensures LooseItemsText(items) == ItemsText(items)
  {
    assert LooseTail(items.tail) == TailText(items.tail);
    RightText(items);
  }

  lemma RightText(items: Items)
    requires items.Item?
    ensures ItemsText(items) == LabelText(items.tag) + (Text(items.node) + (items.post + TailText(items.tail)))
  {
    var a, b, c, d := LabelText(items.tag), Text(items.node), items.post, TailText(items.tail);
    assert a + b + c + d == a + (b + (c + d));
  }

  // ---------------------------------------------------------------- the reader refuses such a comma

  lemma {:induction false} RunStops(s: string, p: nat)
    requires p < |s| && !JsonSpace(s[p])
    ensures SpaceRun(s) <= p && !JsonSpace(s[SpaceRun(s)])
  {
    if p > 0 && JsonSpace(s[0]) {
      RunStops(s[1..], p - 1);
    }
  }

  /** After a comma the reader wants another item. */
  lemma CloserFails(kind: Kind, ws: string, rest: string)
    requires WhiteOnly(ws)
    ensures ParseItems(kind, ws + ([Closer(kind)] + rest), false) == Fail
  {
    var s := ws + ([Closer(kind)] + rest);
    var n := SpaceRun(s);
    assert s[|ws|] == Closer(kind);
    RunStops(s, |ws|);
    assert IsSpace(s[n]) || s[n] == Closer(kind);
    assert !AtomChar(s[n]);
    assert s[n..][0] == s[n];
    assert ParseNode(s[n..]) == Fail;
  }

  lemma ParseBoxFails(kind: Kind, t: string)
    requires ParseItems(kind, t, true) == Fail
    ensures ParseNode([Opener(kind)] + t) == Fail
  {
  }

  lemma {:induction false} LooseFails(n: Node, rest: string)
    requires Loose(n) && HasComma(n)
    ensures ParseNode(LooseText(n) + rest) == Fail
    decreases n, 0
  {
    LooseBoxThen(n.kind, n.items, rest);
    LooseItemsFail(n.kind, n.items, rest, true);
    ParseBoxFails(n.kind, LooseItemsText(n.items) + ([Closer(n.kind)] + rest));
  }

  lemma {:induction false} LooseItemsFail(kind: Kind, items: Items, rest: string, first: bool)
    requires LooseItems(kind, items, first) && HasCommaIn(items, first) && items.Item?
    ensures ParseItems(kind, LooseItemsText(items) + ([Closer(kind)] + rest), first) == Fail
    decreases items, 0
  {
    var after := LooseTail(items.tail) + ([Closer(kind)] + rest);
    var s2 := items.post + after;
    var s1 := LooseText(items.node) + s2;
    LooseItemThen(items, [Closer(kind)] + rest);
    LooseStarts(items.node);
    ParseLabelInverts(kind, items.tag, s1);
    if HasComma(items.node) {
      LooseFails(items.node, s2);
    } else {
      if items.tail.End? {
        CloserFails(kind, items.tail.ws[1..], rest);
      } else {
        LooseItemsFail(kind, items.tail, rest, false);
      }
      TailRestIs(items.tail, kind, rest);
      GoodItemRead(kind, items.tag, items.node, items.post, TailRest(items.tail, kind, rest));
    }
    ItemFails(kind, LabelText(items.tag) + s1, first, items.tag, s1, items.node, s2);
  }

  lemma ItemFails(kind: Kind, s: string, first: bool, tag: Label, s1: string, node: Node, s2: string)
    requires SpaceRun(s) < |s| && s[SpaceRun(s)] != Closer(kind) && ParseLabel(kind, s) == Ok(tag, s1)
    requires ParseNode(s1) == Fail || (ParseNode(s1) == Ok(node, s2) && ParseAfter(kind, tag, node, s2) == Fail)
    ensures ParseItems(kind, s, first) == Fail
  {
  }

  lemma GoodItemRead(kind: Kind, tag: Label, n: Node, post: string, more: string)
    requires Loose(n) && !HasComma(n) && Blank(post) && ParseItems(kind, more, false) == Fail
    ensures var s2 := post + ([','] + more);
            ParseNode(LooseText(n) + s2) == Ok(n, s2) && ParseAfter(kind, tag, n, s2) == Fail
  {
    NoCommaGood(n);
    SpaceRunExact(post, [','] + more);
    AtJoin(post, ',', more);
    ParseNodeInverts(n, post + ([','] + more));
  }

  /** What stands behind the comma after an item. */
  function TailRest(tail: Items, kind: Kind, rest: string): string
    requires tail.End? ==> tail.ws != ""
  {
    (if tail.End? then tail.ws[1..] else LooseItemsText(tail)) + ([Closer(kind)] + rest)
  }

  lemma TailRestIs(tail: Items, kind: Kind, rest: string)
    requires tail.End? ==> tail.ws != "" && tail.ws[0] == ','
    ensures LooseTail(tail) + ([Closer(kind)] + rest) == [','] + TailRest(tail, kind, rest)
  {
  }

  // ---------------------------------------------------------------- the block is found

  /** The scanner treats both characters alike. */
  predicate Alike(a: string, b: string) {
    |a| == |b| && forall i | 0 <= i < |a| :: a[i] == b[i] || (Dull(a[i]) && Dull(b[i]))
  }

  predicate Dull(c: char) {
    c == ',' || IsSpace(c)
  }

  lemma AlikeJoin(a: string, b: string, c: string, d: string)
    requires Alike(a, b) && Alike(c, d)
    ensures Alike(a + c, b + d)
  {
  }

  lemma {:induction false} AlikeFound(a: string, b: string)
    requires Alike(a, b)
    ensures FindAll(a) == FindAll(b)
  {
    if a != [] {
      var n := |a| - 1;
      AlikeFound(a[..n], b[..n]);
      AlikeStep(FindAll(a[..n]), n, a[n], b[n]);
    }
  }

  lemma AlikeStep(f: Finder, i: nat, c: char, d: char)
    requires c == d || (Dull(c) && Dull(d))
    ensures Find(f, i, c) == Find(f, i, d)
  {
  }

  function Spaces(n: nat): (s: string)
    ensures |s| == n && Blank(s)
  {
    seq(n, i => ' ')
  }

  /** The tree with blanks in the place of such commas. */
  function Spaced(n: Node): Node {
    match n
    case Atom(_) => n
    case Quoted(_) => n
    case Box(kind, items) => Box(kind, SpacedItems(items))
  }

  function SpacedItems(items: Items): Items {
    match items
    case End(ws) => items
    case Item(tag, node, post, tail) =>
      if tail.End? then Item(tag, Spaced(node), post + Spaces(|tail.ws|), End(""))
      else Item(tag, Spaced(node), post, SpacedItems(tail))
  }

  lemma {:induction false} SpacedAlike(n: Node)
    requires Loose(n)
    ensures Good(Spaced(n)) && Alike(LooseText(n), Text(Spaced(n)))
    decreases n, 0
  {
    if n.Box? {
      SpacedItemsAlike(n.kind, n.items, true);
      var a, b := LooseItemsText(n.items), ItemsText(SpacedItems(n.items));
      AlikeJoin(a, b, [Closer(n.kind)], [Closer(n.kind)]);
      AlikeJoin([Opener(n.kind)], [Opener(n.kind)], a + [Closer(n.kind)], b + [Closer(n.kind)]);
      assert Text(Spaced(n)) == [Opener(n.kind)] + (b + [Closer(n.kind)]);
    }
  }

  lemma {:induction false} SpacedItemsAlike(kind: Kind, items: Items, first: bool)
    requires LooseItems(kind, items, first) && (first || items.Item?)
    ensures GoodItems(kind, SpacedItems(items)) && Alike(LooseItemsText(items), ItemsText(SpacedItems(items)))
    ensures items.Item? <==> SpacedItems(items).Item?
    decreases items, 0
  {
    if items.Item? {
      var after := SpacedItems(items);
      SpacedAlike(items.node);
      if items.tail.Item? {
        SpacedItemsAlike(kind, items.tail, false);
        var a, b := LooseItemsText(items.tail), ItemsText(SpacedItems(items.tail));
        AlikeJoin([','], [','], a, b);
        SpacedParts(items, [','] + a, [','] + b);
      } else {
        var ws := items.tail.ws;
        assert Alike(ws, Spaces(|ws|)) by {
          assert forall i | 0 <= i < |ws| :: Dull(ws[i]) by { DullTail(ws); }
        }
        SpacedParts(items, ws, Spaces(|ws|));
      }
    }
  }

  lemma DullTail(ws: string)
    requires ws == "" || (ws[0] == ',' && WhiteOnly(ws[1..]))
    ensures forall i | 0 <= i < |ws| :: Dull(ws[i])
  {
    assert forall i | 1 <= i < |ws| :: ws[i] == ws[1..][i - 1];
  }

  lemma SpacedParts(items: Items, a: string, b: string)
    requires items.Item? && Alike(LooseText(items.node), Text(Spaced(items.node))) && Alike(a, b)
    requires LooseTail(items.tail) == a
    requires SpacedItems(items).post + TailText(SpacedItems(items).tail) == items.post + b
    ensures Alike(LooseItemsText(items), ItemsText(SpacedItems(items)))
  {
    var tag, node := LabelText(items.tag), Text(Spaced(items.node));
    AlikeJoin(items.post, items.post, a, b);
    AlikeJoin(LooseText(items.node), node, items.post + a, items.post + b);
    AlikeJoin(tag, tag, LooseText(items.node) + (items.post + a), node + (items.post + b));
    var s := SpacedItems(items);
    assert ItemsText(s) == tag + (node + (s.post + TailText(s.tail)));
  }

  /** The scan finds such an object as its one block. */
  lemma LooseBlock(pre: string, n: Node, suf: string)
    requires NoBraceOrQuote(pre) && NoBraceOrQuote(suf)
    requires Loose(n) && n.Box? && n.kind.Object?
    ensures Blocks(pre + LooseText(n) + suf) == [LooseText(n)]
  {
    SpacedAlike(n);
    var a, b := LooseText(n), Text(Spaced(n));
    AlikeJoin(pre, pre, a, b);
    AlikeJoin(pre + a, pre + b, suf, suf);
    AlikeFound(pre + a + suf, pre + b + suf);
    var only := Span(|pre|, |pre| + |b|);
    SpansOfObject(pre + b + suf, pre, Spaced(n), suf, only);
    assert Slice(pre + a + suf, only) == a;
  }

  // ---------------------------------------------------------------- what the pattern does

  predicate IsCloser(c: char) {
    c == '}' || c == ']'
  }

  /** White space, if any, and then a closing bracket. */
  predicate ClosesSoon(s: string) {
    s != [] && (IsCloser(s[0]) || (IsSpace(s[0]) && ClosesSoon(s[1..])))
  }

  function SkipWhite(s: string): (r: string)
    ensures |r| <= |s|
  {
    if s != [] && IsSpace(s[0]) then SkipWhite(s[1..]) else s
  }

  lemma {:induction false} SkipIsRun(s: string)
    ensures SkipWhite(s) == s[WhiteRun(s)..]
    ensures ClosesSoon(s) <==> WhiteRun(s) < |s| && IsCloser(s[WhiteRun(s)])
  {
    if s != [] && IsSpace(s[0]) {
      SkipIsRun(s[1..]);
      DropDrop(s, 1, WhiteRun(s[1..]));
    }
  }

  lemma DropOne(c: char, s: string)
    ensures DropTrailingCommas([c] + s) ==
            if c == ',' && ClosesSoon(s) then DropTrailingCommas(SkipWhite(s)) else [c] + DropTrailingCommas(s)
  {
    var x := [c] + s;
    assert x[1..] == s;
    SkipIsRun(s);
    if c == ',' && ClosesSoon(s) {
      var n := WhiteRun(s);
      assert x[1 + n] == s[n] && x[n + 2..] == s[n..][1..] && s[n..][0] == s[n];
    }
  }

  lemma DropPlain(c: char, y: string, rest: string)
    requires c != ',' && DropTrailingCommas(y + rest) == y + DropTrailingCommas(rest)
    ensures DropTrailingCommas(([c] + y) + rest) == ([c] + y) + DropTrailingCommas(rest)
  {
    Assoc([c], y, rest);
    DropOne(c, y + rest);
    Assoc([c], y, DropTrailingCommas(rest));
  }

  lemma {:induction false} DropNoComma(x: string, rest: string)
    requires ',' !in x
    ensures DropTrailingCommas(x + rest) == x + DropTrailingCommas(rest)
  {
    if x == [] {
      assert x + rest == rest;
    } else {
      assert x == [x[0]] + x[1..];
      DropNoComma(x[1..], rest);
      DropPlain(x[0], x[1..], rest);
    }
  }

  predicate Inert(c: char) {
    c != ',' && !IsSpace(c) && !IsCloser(c)
  }

  lemma {:induction false} SoonInert(x: string, c: char, rest: string)
    requires Inert(c)
    ensures ClosesSoon(x + ([c] + rest)) == ClosesSoon(x)
    ensures SkipWhite(x + ([c] + rest)) == SkipWhite(x) + ([c] + rest)
  {
    if x == [] {
      assert x + ([c] + rest) == [c] + rest;
    } else {
      assert (x + ([c] + rest))[1..] == x[1..] + ([c] + rest);
      SoonInert(x[1..], c, rest);
    }
  }

  lemma DropBefore(first: char, y: string, z: string, dropped: string)
    requires ClosesSoon(y + z) == ClosesSoon(y) && SkipWhite(y + z) == SkipWhite(y) + z
    requires DropTrailingCommas(y + z) == DropTrailingCommas(y) + dropped
    requires DropTrailingCommas(SkipWhite(y) + z) == DropTrailingCommas(SkipWhite(y)) + dropped
    ensures DropTrailingCommas(([first] + y) + z) == DropTrailingCommas([first] + y) + dropped
  {
    Assoc([first], y, z);
    DropOne(first, y);
    DropOne(first, y + z);
    Assoc([first], DropTrailingCommas(y), dropped);
  }

  /** No match reaches over such a character. */
  lemma {:induction false} DropInert(x: string, c: char, rest: string)
    requires Inert(c)
    ensures DropTrailingCommas(x + ([c] + rest)) == DropTrailingCommas(x) + ([c] + DropTrailingCommas(rest))
    decreases |x|
  {
    if x == [] {
      assert x + ([c] + rest) == [c] + rest;
      DropOne(c, rest);
    } else {
      var y := x[1..];
      assert x == [x[0]] + y;
      SoonInert(y, c, rest);
      DropInert(SkipWhite(y), c, rest);
      DropInert(y, c, rest);
      DropBefore(x[0], y, [c] + rest, [c] + DropTrailingCommas(rest));
    }
  }

  lemma {:induction false} SoonAfterWhite(ws: string, c: char, rest: string)
    requires WhiteOnly(ws) && !IsSpace(c)
    ensures ClosesSoon(ws + ([c] + rest)) == IsCloser(c) && SkipWhite(ws + ([c] + rest)) == [c] + rest
  {
    if ws == [] {
      assert ws + ([c] + rest) == [c] + rest;
    } else {
      assert (ws + ([c] + rest))[1..] == ws[1..] + ([c] + rest);
      SoonAfterWhite(ws[1..], c, rest);
    }
  }

  // ---------------------------------------------------------------- strings

  predicate UnitsCloseSoon(us: seq<Unit>) {
    us != [] && us[0].Plain? && (IsCloser(us[0].c) || (IsSpace(us[0].c) && UnitsCloseSoon(us[1..])))
  }

  function SkipWhiteUnits(us: seq<Unit>): (r: seq<Unit>)
    ensures |r| <= |us|
  {
    if us != [] && us[0].Plain? && IsSpace(us[0].c) then SkipWhiteUnits(us[1..]) else us
  }

  predicate CommaAt(us: seq<Unit>) {
    us != [] && us[0] == Plain(',') && UnitsCloseSoon(us[1..])
  }

  /** What the pattern makes of the inside of a string. */
  function DropUnits(us: seq<Unit>): seq<Unit>
    decreases |us|
  {
    if us == [] then []
    else if CommaAt(us) then DropUnits(SkipWhiteUnits(us[1..]))
    else [us[0]] + DropUnits(us[1..])
  }

  /** The string has no comma with, after any white space, a closing bracket. */
  predicate CleanUnits(us: seq<Unit>) {
    us == [] || (!CommaAt(us) && CleanUnits(us[1..]))
  }

  lemma {:induction false} UnitsSoon(us: seq<Unit>)
    requires GoodUnits(us)
    ensures ClosesSoon(UnitsText(us)) == UnitsCloseSoon(us) && SkipWhite(UnitsText(us)) == UnitsText(SkipWhiteUnits(us))
    ensures GoodUnits(SkipWhiteUnits(us))
  {
    if us != [] {
      var t := UnitsText(us);
      assert t[0] == UnitText(us[0])[0];
      if us[0].Plain? {
        assert t[1..] == UnitsText(us[1..]);
        UnitsSoon(us[1..]);
      }
    }
  }

  lemma UnitNoComma(u: Unit)
    requires GoodUnit(u) && u != Plain(',')
    ensures ',' !in UnitText(u)
  {
  }

  lemma {:induction false} DropInString(us: seq<Unit>)
    requires GoodUnits(us)
    ensures DropTrailingCommas(UnitsText(us)) == UnitsText(DropUnits(us)) && GoodUnits(DropUnits(us))
    decreases |us|
  {
    if us != [] {
      var rest := us[1..];
      UnitsSoon(rest);
      DropInString(rest);
      DropInString(SkipWhiteUnits(rest));
      if us[0] == Plain(',') {
        DropOne(',', UnitsText(rest));
      } else {
        UnitNoComma(us[0]);
        DropNoComma(UnitText(us[0]), UnitsText(rest));
      }
      if !CommaAt(us) {
        ConsSlices(us[0], DropUnits(rest), 0);
      }
    }
  }

  lemma DropQuoted(us: seq<Unit>, rest: string)
    requires GoodUnits(us)
    ensures DropTrailingCommas(QuotedText(us) + rest) == QuotedText(DropUnits(us)) + DropTrailingCommas(rest)
  {
    var u := UnitsText(us);
    var after := u + (['"'] + rest);
    assert QuotedText(us) + rest == ['"'] + after;
    DropOne('"', after);
    DropInert(u, '"', rest);
    DropInString(us);
    QuotedThen(DropUnits(us), DropTrailingCommas(rest));
  }

  // ---------------------------------------------------------------- whole trees

  function DroppedLabel(l: Label): Label {
    if l.Keyed? then l.(key := DropUnits(l.key)) else l
  }

  /** The tree without such commas, its strings as the pattern leaves them. */
  function Dropped(n: Node): Node {
    match n
    case Atom(_) => n
    case Quoted(body) => Quoted(DropUnits(body))
    case Box(kind, items) => Box(kind, DroppedItems(items, true))
  }

  function DroppedItems(items: Items, first: bool): Items {
    match items
    case End(ws) => if first then items else End("")
    case Item(tag, node, post, tail) => Item(DroppedLabel(tag), Dropped(node), post, DroppedItems(tail, false))
  }

  lemma DropLabel(kind: Kind, l: Label, rest: string)
    requires GoodLabel(kind, l)
    ensures DropTrailingCommas(LabelText(l) + rest) == LabelText(DroppedLabel(l)) + DropTrailingCommas(rest)
    ensures GoodLabel(kind, DroppedLabel(l))
  {
    match l
    case Bare(pre) =>
      JsonSpaceIsSpace(pre);
      DropNoComma(pre, rest);
    case Keyed(pre, key, mid, gap) =>
      JsonSpaceIsSpace(pre);
      JsonSpaceIsSpace(mid);
      JsonSpaceIsSpace(gap);
      var after := mid + (":" + gap);
      DropNoComma(pre, QuotedText(key) + (after + rest));
      DropQuoted(key, after + rest);
      DropNoComma(after, rest);
      DropInString(key);
      LabelParts(l, rest);
      LabelParts(DroppedLabel(l), DropTrailingCommas(rest));
  }

  lemma LabelParts(l: Label, rest: string)
    requires l.Keyed?
    ensures LabelText(l) + rest == l.pre + (QuotedText(l.key) + ((l.mid + (":" + l.gap)) + rest))
  {
    var q := QuotedText(l.key);
    Assoc(l.pre + q + l.mid, ":", l.gap);
    Assoc(l.pre + q, l.mid, ":" + l.gap);
    Assoc(l.pre + q, l.mid + (":" + l.gap), rest);
    Assoc(l.pre, q, (l.mid + (":" + l.gap)) + rest);
  }

  lemma {:induction false} DropNode(n: Node, rest: string)
    requires Loose(n)
    ensures DropTrailingCommas(LooseText(n) + rest) == Text(Dropped(n)) + DropTrailingCommas(rest) && Good(Dropped(n))
    decreases n, 0
  {
    match n
    case Atom(text) => DropNoComma(text, rest);
    case Quoted(body) =>
      DropQuoted(body, rest);
      DropInString(body);
    case Box(kind, items) =>
      LooseBoxThen(kind, items, rest);
      DropOne(Opener(kind), LooseItemsText(items) + ([Closer(kind)] + rest));
      DropItems(kind, items, rest, true);
      BoxThen(kind, DroppedItems(items, true), DropTrailingCommas(rest));
  }

  lemma {:induction false} DropItems(kind: Kind, items: Items, rest: string, first: bool)
    requires LooseItems(kind, items, first) && (first || items.Item?)
    ensures DropTrailingCommas(LooseItemsText(items) + ([Closer(kind)] + rest)) ==
            ItemsText(DroppedItems(items, first)) + ([Closer(kind)] + DropTrailingCommas(rest))
    ensures GoodItems(kind, DroppedItems(items, first))
    decreases items, 0
  {
    var close := [Closer(kind)] + rest;
    match items
    case End(ws) =>
      JsonSpaceIsSpace(ws);
      DropNoComma(ws, close);
      DropOne(Closer(kind), rest);
    case Item(tag, node, post, tail) =>
      var after := LooseTail(tail) + close;
      LooseItemThen(items, close);
      DropLabel(kind, tag, LooseText(node) + (post + after));
      DropNode(node, post + after);
      JsonSpaceIsSpace(post);
      DropNoComma(post, after);
      DropTail(kind, tail, rest);
      ItemText(DroppedItems(items, first), [Closer(kind)] + DropTrailingCommas(rest));
  }

  lemma {:induction false} DropTail(kind: Kind, tail: Items, rest: string)
    requires LooseItems(kind, tail, false)
    ensures DropTrailingCommas(LooseTail(tail) + ([Closer(kind)] + rest)) ==
            TailText(DroppedItems(tail, false)) + ([Closer(kind)] + DropTrailingCommas(rest))
    ensures GoodItems(kind, DroppedItems(tail, false)) && (tail.End? ==> DroppedItems(tail, false) == End(""))
    decreases tail, 1
  {
    var close := [Closer(kind)] + rest;
    if tail.Item? {
      var y := LooseItemsText(tail) + close;
      assert LooseTail(tail) + close == [','] + y;
      DropItems(kind, tail, rest, false);
      ItemNotCloser(kind, tail, close);
      DropOne(',', y);
      Assoc([','], ItemsText(DroppedItems(tail, false)), [Closer(kind)] + DropTrailingCommas(rest));
    } else {
      DropEnd(kind, tail.ws, rest);
      assert [] + ([Closer(kind)] + DropTrailingCommas(rest)) == [Closer(kind)] + DropTrailingCommas(rest);
    }
  }

  lemma DropEnd(kind: Kind, ws: string, rest: string)
    requires ws == "" || (ws[0] == ',' && WhiteOnly(ws[1..]))
    ensures DropTrailingCommas(ws + ([Closer(kind)] + rest)) == [Closer(kind)] + DropTrailingCommas(rest)
  {
    var close := [Closer(kind)] + rest;
    DropOne(Closer(kind), rest);
    if ws == "" {
      assert ws + close == close;
    } else {
      CloserNotSpace(kind);
      HeadTail(ws, 0);
      Assoc([','], ws[1..], close);
      SoonAfterWhite(ws[1..], Closer(kind), rest);
      DropOne(',', ws[1..] + close);
    }
  }

  lemma CloserNotSpace(kind: Kind)
    ensures !IsSpace(Closer(kind)) && IsCloser(Closer(kind))
  {
    assert !PySpace(0x7D) && !PySpace(0x5D);
  }

  /** An item does not begin like a closing bracket. */
  lemma ItemNotCloser(kind: Kind, items: Items, rest: string)
    requires items.Item? && LooseItems(kind, items, false)
    ensures !ClosesSoon(LooseItemsText(items) + rest)
  {
    LooseStarts(items.node);
    LooseItemThen(items, rest);
    var after := LooseText(items.node) + (items.post + (LooseTail(items.tail) + rest));
    var pre := items.tag.pre;
    JsonSpaceIsSpace(pre);
    if items.tag.Keyed? {
      KeyedText(items.tag, after);
      SoonAfterWhite(pre, '"', UnitsText(items.tag.key) + ("\"" + (items.tag.mid + (":" + (items.tag.gap + after)))));
    } else {
      HeadTail(after, 0);
      SoonAfterWhite(pre, after[0], after[1..]);
    }
  }

  // ---------------------------------------------------------------- values

  predicate LowFirst(us: seq<Unit>) {
    us != [] && LowSurrogate(us[0])
  }

  lemma {:induction false} SkipNotLow(us: seq<Unit>)
    requires UnitsCloseSoon(us)
    ensures var r := SkipWhiteUnits(us); r != [] && r[0].Plain? && IsCloser(r[0].c)
  {
    if !IsCloser(us[0].c) {
      SkipNotLow(us[1..]);
    }
  }

  lemma LowStays(us: seq<Unit>)
    ensures LowFirst(DropUnits(us)) == LowFirst(us)
  {
    if CommaAt(us) {
      SkipNotLow(us[1..]);
    }
  }

  lemma DecodeLength(u: Unit, us: seq<Unit>)
    ensures |Decode([u] + us)| == 1 + |Decode(if HighSurrogate(u) && LowFirst(us) then us[1..] else us)|
  {
    var x := [u] + us;
    assert x[1..] == us && (us != [] ==> x[1] == us[0] && x[2..] == us[1..]);
  }

  lemma {:induction false} SkipShortens(us: seq<Unit>)
    ensures |Decode(SkipWhiteUnits(us))| <= |Decode(us)|
  {
    if us != [] && us[0].Plain? && IsSpace(us[0].c) {
      SkipShortens(us[1..]);
      HeadTail(us, 0);
      DecodeLength(us[0], us[1..]);
    }
  }

  /** The string decodes to what it was exactly when it has no such comma. */
  lemma {:induction false} DropDecodes(us: seq<Unit>)
    ensures |Decode(DropUnits(us))| <= |Decode(us)|
    ensures Decode(DropUnits(us)) == Decode(us) <==> CleanUnits(us)
    ensures CleanUnits(us) <==> DropUnits(us) == us
    ensures !CleanUnits(us) ==> |Decode(DropUnits(us))| < |Decode(us)|
    decreases |us|
  {
    if us != [] {
      var u, rest := us[0], us[1..];
      assert us == [u] + rest;
      DecodeLength(u, rest);
      if CommaAt(us) {
        DropDecodes(SkipWhiteUnits(rest));
        SkipShortens(rest);
      } else {
        DropDecodes(rest);
        LowStays(rest);
        DecodeLength(u, DropUnits(rest));
        DropCons(u, rest);
        if HighSurrogate(u) && LowFirst(rest) {
          DropDecodes(rest[1..]);
          DropCons(rest[0], rest[1..]);
        }
      }
    }
  }

  lemma DropCons(u: Unit, rest: seq<Unit>)
    requires !CommaAt([u] + rest)
    ensures DropUnits([u] + rest) == [u] + DropUnits(rest) && ([u] + DropUnits(rest))[1..] == DropUnits(rest)
    ensures CleanUnits([u] + rest) <==> CleanUnits(rest)
  {
    assert ([u] + rest)[1..] == rest;
  }

  /** No string of the tree, names included, has such a comma. */
  predicate Clean(n: Node) {
    match n
    case Atom(_) => true
    case Quoted(body) => CleanUnits(body)
    case Box(_, items) => CleanItems(items)
  }

  predicate CleanItems(items: Items) {
    match items
    case End(_) => true
    case Item(tag, node, _, tail) => (tag.Keyed? ==> CleanUnits(tag.key)) && Clean(node) && CleanItems(tail)
  }

  lemma {:induction false} DroppedValue(n: Node)
    ensures Value(Dropped(n)) == Value(n) <==> Clean(n)
  {
    match n
    case Atom(_) =>
    case Quoted(body) => DropDecodes(body);
    case Box(_, items) => DroppedValues(items, true);
  }

  lemma {:induction false} DroppedValues(items: Items, first: bool)
    ensures Values(DroppedItems(items, first)) == Values(items) <==> CleanItems(items)
  {
    if items.Item? {
      if items.tag.Keyed? {
        DropDecodes(items.tag.key);
      }
      DroppedValue(items.node);
      DroppedValues(items.tail, false);
    }
  }

  // ---------------------------------------------------------------- the extraction

  /** Prose around such an object makes no document with it. */
  lemma LooseIsNoDocument(pre: string, n: Node, suf: string)
    requires '[' !in pre && NoBraceOrQuote(pre)
    requires Loose(n) && HasComma(n) && n.kind.Object?
    ensures ParseDocument(pre + LooseText(n) + suf) == None
  {
    var text := pre + LooseText(n) + suf;
    Assoc(pre, LooseText(n), suf);
    assert text[|pre|] == '{';
    if ParseDocument(text).Some? {
      if Blank(pre) {
        SpaceRunExact(pre, LooseText(n) + suf);
        LooseFails(n, suf);
      } else {
        var lead, trail := ParseDocumentSound(text);
        AtomFirst(pre, LooseText(n) + suf, lead, ParseDocument(text).value, trail);
        AtomHasNoBrace(lead, ParseDocument(text).value, trail);
      }
    }
  }

  lemma LooseTried(n: Node)
    requires Loose(n) && HasComma(n) && n.kind.Object?
    ensures TryBlock(LooseText(n)) == Some(Value(Dropped(n)))
  {
    LooseIsNoDocument("", n, "");
    assert "" + LooseText(n) + "" == LooseText(n);
    LooseDropped(n);
    TextLoads(Dropped(n));
    LastLayer(LooseText(n));
  }

  lemma LooseDropped(n: Node)
    requires Loose(n)
    ensures DropTrailingCommas(LooseText(n)) == Text(Dropped(n)) && Good(Dropped(n))
  {
    DropNode(n, "");
    assert LooseText(n) + "" == LooseText(n) && Text(Dropped(n)) + "" == Text(Dropped(n));
  }

  lemma LastLayer(block: string)
    requires ParseDocument(block) == None
    ensures TryBlock(block) == Loads(DropTrailingCommas(block), false)
  {
  }

  /** An object with commas before closing brackets, in prose, is extracted as its value exactly when
      none of its strings has a comma with a closing bracket behind it; otherwise such strings lose
      that comma and the white space after it. */
  lemma LooseObjectExtracted(pre: string, n: Node, suf: string)
    requires '[' !in pre && NoBraceOrQuote(pre) && NoBraceOrQuote(suf)
    requires Loose(n) && HasComma(n) && n.kind.Object?
    ensures Extract(pre + LooseText(n) + suf) == Some(Value(Dropped(n)))
    ensures Extract(pre + LooseText(n) + suf) == Some(Value(n)) <==> Clean(n)
  {
    var text := pre + LooseText(n) + suf;
    LooseIsNoDocument(pre, n, suf);
    LooseBlock(pre, n, suf);
    LooseTried(n);
    assert text[|pre|] == '{';
    OneBlock(LooseText(n));
    DroppedValue(n);
  }

  /** `{"a":"x,]",}`: the string comes out as "x]". */
  lemma CommaInString()
    ensures Extract("{\"a\":\"x,]\",}") == Some(Coll(Object, Cons(Some(['a' as int]), Str(['x' as int, ']' as int]), Nil)))
  {
    CommaSpelled();
    var n := OneMember([Plain('a')], [Plain('x'), Plain(','), Plain(']')]);
    SpellOne('a');
    SpellThree('x', ',', ']');
    assert "" + LooseText(n) + "" == LooseText(n);
    LooseObjectExtracted("", n, "");
  }

  function OneMember(name: seq<Unit>, body: seq<Unit>): Node {
    Box(Object, Item(Keyed("", name, "", ""), Quoted(body), "", End(",")))
  }

  lemma OneMemberText(name: seq<Unit>, body: seq<Unit>)
    ensures LooseText(OneMember(name, body)) == "{\"" + UnitsText(name) + "\":\"" + UnitsText(body) + "\",}"
  {
  }

  lemma CommaSpelled()
    ensures LooseText(OneMember([Plain('a')], [Plain('x'), Plain(','), Plain(']')])) == "{\"a\":\"x,]\",}"
  {
    OneMemberText([Plain('a')], [Plain('x'), Plain(','), Plain(']')]);
    SpellOne('a');
    SpellThree('x', ',', ']');
  }

  lemma SpellOne(c: char)
    ensures UnitsText([Plain(c)]) == [c] && Decode([Plain(c)]) == [c as int]
    ensures c != ',' ==> DropUnits([Plain(c)]) == [Plain(c)]
  {
    assert [Plain(c)][1..] == [];
  }

  lemma SpellThree(a: char, b: char, c: char)
    requires a != ',' && b == ',' && c == ']'
    ensures UnitsText([Plain(a), Plain(b), Plain(c)]) == [a, b, c]
    ensures Decode(DropUnits([Plain(a), Plain(b), Plain(c)])) == [a as int, c as int]
  {
    var us := [Plain(a), Plain(b), Plain(c)];
    assert us[1..] == [Plain(b), Plain(c)] && us[1..][1..] == [Plain(c)];
    SpellOne(c);
    SpellOne(a);
    assert DropUnits(us) == [Plain(a), Plain(c)];
    assert [Plain(a), Plain(c)][1..] == [Plain(c)];
  }
}
