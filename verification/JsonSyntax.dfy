/**
 JSON documents (RFC 8259): values, concrete syntax trees, and the reader.

 A concrete syntax tree (`Node`) keeps what a value forgets: the white space at every place the
 grammar allows it and the spelling of every string character.  A statement about all trees is
 therefore a statement about every layout and every escaping of a document, not only about one
 printer's output.
 */
module JsonSyntax {
  import opened Basics

  // ---------------------------------------------------------------- values

  datatype Kind = Array | Object

  /** Decoded strings are sequences of code points, because a lone surrogate escape is legal. */
  type Codes = seq<int>

  /** Numbers and the literal names keep their spelling.  Object members keep their order; a
      reader that builds a dictionary sees the last member of a repeated name (`Lookup`). */
  datatype Json =
    | Scalar(text: string)
    | Str(codes: Codes)
    | Coll(kind: Kind, entries: Entries)

  datatype Entries = Nil | Cons(key: Option<Codes>, value: Json, tail: Entries)

  /** `data.get(name)`: the last member of that name. */
  function LookupIn(entries: Entries, name: Codes): Option<Json> {
    match entries
    case Nil => None
    case Cons(key, value, tail) =>
      var later := LookupIn(tail, name);
      if later.Some? then later else if key == Some(name) then Some(value) else None
  }

  function Lookup(v: Json, name: Codes): Option<Json> {
    if v.Coll? && v.kind.Object? then LookupIn(v.entries, name) else None
  }

  // ---------------------------------------------------------------- concrete syntax

  /** One spelled character of a string: itself, `\n`-style, or `\uXXXX`. */
  datatype Unit = Plain(c: char) | Short(c: char) | Hex(digits: string)

  datatype Label =
    | Bare(pre: string)                                              // white space before an array item
    | Keyed(pre: string, key: seq<Unit>, mid: string, gap: string)   // pre "key" mid : gap

  datatype Node = Atom(text: string) | Quoted(body: seq<Unit>) | Box(kind: Kind, items: Items)

  /** `End` closes the list; its white space is only used inside an empty container. */
  datatype Items = End(ws: string) | Item(tag: Label, node: Node, post: string, tail: Items)

  predicate JsonSpace(c: char) {
    c == ' ' || c == '\t' || c == '\n' || c == '\r'
  }

  predicate Blank(s: string) {
    forall i | 0 <= i < |s| :: JsonSpace(s[i])
  }

  predicate IsHexDigit(c: char) {
    '0' <= c <= '9' || 'a' <= c <= 'f' || 'A' <= c <= 'F'
  }

  predicate ShortEscape(c: char) {
    c == '"' || c == '\\' || c == '/' || c == 'b' || c == 'f' || c == 'n' || c == 'r' || c == 't'
  }

  /** Characters a number or literal name is made of; an atom is a maximal run of them. */
  predicate AtomChar(c: char) {
    || '0' <= c <= '9'
    || 'a' <= c <= 'z'
    || 'A' <= c <= 'Z'
    || c == '+' || c == '-' || c == '.'
  }

  /** RFC 8259 section 6: `-? (0 | [1-9][0-9]*) (. [0-9]+)? ([eE] [+-]? [0-9]+)?`. */
  predicate IsNumber(t: string) {
    var s := if t != [] && t[0] == '-' then t[1..] else t;
    var n := DigitRun(s);
    n > 0 && (n == 1 || s[0] != '0') && FractionAndExponent(s[n..])
  }

  predicate FractionAndExponent(s: string) {
    if s != [] && s[0] == '.' then
      var n := DigitRun(s[1..]);
      n > 0 && Exponent(s[1 + n..])
    else
      Exponent(s)
  }

  predicate Exponent(s: string) {
    s == [] ||
    ((s[0] == 'e' || s[0] == 'E') &&
     var r := if |s| > 1 && (s[1] == '+' || s[1] == '-') then s[2..] else s[1..];
     r != [] && DigitRun(r) == |r|)
  }

  /** The literal names of RFC 8259 section 3 and the three more that Python's reader accepts. */
  predicate IsLiteral(t: string) {
    t == "true" || t == "false" || t == "null" || t == "NaN" || t == "Infinity" || t == "-Infinity"
  }

  predicate IsAtom(t: string) {
    t != [] && (forall i | 0 <= i < |t| :: AtomChar(t[i])) && (IsLiteral(t) || IsNumber(t))
  }

  predicate GoodUnit(u: Unit) {
    match u
    case Plain(c) => c != '"' && c != '\\'
    case Short(c) => ShortEscape(c)
    case Hex(d) => |d| == 4 && forall i | 0 <= i < 4 :: IsHexDigit(d[i])
  }

  predicate GoodUnits(us: seq<Unit>) {
    forall i | 0 <= i < |us| :: GoodUnit(us[i])
  }

  predicate GoodLabel(kind: Kind, l: Label) {
    match l
    case Bare(pre) => kind.Array? && Blank(pre)
    case Keyed(pre, key, mid, gap) => kind.Object? && Blank(pre) && GoodUnits(key) && Blank(mid) && Blank(gap)
  }

  predicate Good(n: Node)
    decreases n
  {
    match n
    case Atom(text) => IsAtom(text)
    case Quoted(body) => GoodUnits(body)
    case Box(kind, items) => GoodItems(kind, items)
  }

  predicate GoodItems(kind: Kind, items: Items)
    decreases items
  {
    match items
    case End(ws) => Blank(ws)
    case Item(tag, node, post, tail) =>
      GoodLabel(kind, tag) && Good(node) && Blank(post) && GoodItems(kind, tail) && (tail.End? ==> tail.ws == "")
  }

  // ---------------------------------------------------------------- text of a tree

  function UnitText(u: Unit): (t: string)
    ensures t != []
  {
    match u
    case Plain(c) => [c]
    case Short(c) => ['\\', c]
    case Hex(d) => ['\\', 'u'] + d
  }

  function UnitsText(us: seq<Unit>): string {
    if us == [] then [] else UnitText(us[0]) + UnitsText(us[1..])
  }

  function QuotedText(us: seq<Unit>): string {
    "\"" + UnitsText(us) + "\""
  }

  function LabelText(l: Label): string {
    match l
    case Bare(pre) => pre
    case Keyed(pre, key, mid, gap) => pre + QuotedText(key) + mid + ":" + gap
  }

  function Opener(kind: Kind): char {
    if kind.Array? then '[' else '{'
  }

  function Closer(kind: Kind): char {
    if kind.Array? then ']' else '}'
  }

  function Text(n: Node): string
    decreases n, 0
  {
    match n
    case Atom(text) => text
    case Quoted(body) => QuotedText(body)
    case Box(kind, items) => [Opener(kind)] + ItemsText(items) + [Closer(kind)]
  }

  function ItemsText(items: Items): string
    decreases items, 0
  {
    match items
    case End(ws) => ws
    case Item(tag, node, post, tail) => LabelText(tag) + Text(node) + post + TailText(tail)
  }

  function TailText(tail: Items): string
    decreases tail, 1
  {
    if tail.End? then "" else "," + ItemsText(tail)
  }

  // ---------------------------------------------------------------- value of a tree

  function HexValue(c: char): int {
    if '0' <= c <= '9' then c as int - '0' as int
    else if 'a' <= c <= 'f' then c as int - 'a' as int + 10
    else if 'A' <= c <= 'F' then c as int - 'A' as int + 10
    else 0
  }

  function Hex4(d: string): int {
    if |d| == 4 then ((HexValue(d[0]) * 16 + HexValue(d[1])) * 16 + HexValue(d[2])) * 16 + HexValue(d[3]) else 0
  }

  function ShortValue(c: char): int {
    match c
    case 'b' => 0x08
    case 't' => 0x09
    case 'n' => 0x0A
    case 'f' => 0x0C
    case 'r' => 0x0D
    case _ => c as int
  }

  predicate HighSurrogate(u: Unit) {
    u.Hex? && 0xD800 <= Hex4(u.digits) <= 0xDBFF
  }

  predicate LowSurrogate(u: Unit) {
    u.Hex? && 0xDC00 <= Hex4(u.digits) <= 0xDFFF
  }

  /** Section 7: escapes stand for their character; an escaped surrogate pair stands for one. */
  function Decode(us: seq<Unit>): Codes {
    if us == [] then []
    else if |us| >= 2 && HighSurrogate(us[0]) && LowSurrogate(us[1]) then
      [0x10000 + (Hex4(us[0].digits) - 0xD800) * 0x400 + (Hex4(us[1].digits) - 0xDC00)] + Decode(us[2..])
    else
      [match us[0]
       case Plain(c) => c as int
       case Short(c) => ShortValue(c)
       case Hex(d) => Hex4(d)] + Decode(us[1..])
  }

  function Value(n: Node): Json {
    match n
    case Atom(text) => Scalar(text)
    case Quoted(body) => Str(Decode(body))
    case Box(kind, items) => Coll(kind, Values(items))
  }

  function Values(items: Items): Entries {
    match items
    case End(_) => Nil
    case Item(tag, node, _, tail) =>
      Cons(if tag.Keyed? then Some(Decode(tag.key)) else None, Value(node), Values(tail))
  }

  // ---------------------------------------------------------------- the reader

  datatype Parsed<+T> = Fail | Ok(value: T, rest: string)

  function SpaceRun(s: string): (n: nat)
    ensures n <= |s|
  {
    if s != [] && JsonSpace(s[0]) then 1 + SpaceRun(s[1..]) else 0
  }

  function AtomRun(s: string): (n: nat)
    ensures n <= |s|
  {
    if s != [] && AtomChar(s[0]) then 1 + AtomRun(s[1..]) else 0
  }

  /** One spelled character of a string literal. */
  function ReadUnit(s: string): (u: Option<Unit>)
    requires s != []
    ensures u.Some? ==> GoodUnit(u.value) && |UnitText(u.value)| <= |s| && UnitText(u.value) == s[..|UnitText(u.value)|]
  {
    if s[0] == '"' then None
    else if s[0] == '\\' then
      if |s| >= 6 && s[1] == 'u' && forall i | 2 <= i < 6 :: IsHexDigit(s[i]) then Some(Hex(s[2..6]))
      else if |s| >= 2 && ShortEscape(s[1]) then Some(Short(s[1]))
      else None
    else Some(Plain(s[0]))
  }

  /** The rest of a string literal, after its opening quote. */
  function ParseUnits(s: string): (r: Parsed<seq<Unit>>)
    ensures r.Ok? ==> |r.rest| < |s|
  {
    if s == [] then Fail
    else if s[0] == '"' then Ok([], s[1..])
    else
      match ReadUnit(s)
      case None => Fail
      case Some(u) => PrependUnit(u, ParseUnits(s[|UnitText(u)|..]))
  }

  function PrependUnit(u: Unit, r: Parsed<seq<Unit>>): Parsed<seq<Unit>> {
    match r
    case Fail => Fail
    case Ok(us, rest) => Ok([u] + us, rest)
  }

  /** White space, and for an object also the member's name and colon. */
  function ParseLabel(kind: Kind, s: string): (r: Parsed<Label>)
    ensures r.Ok? ==> |r.rest| <= |s|
  {
    var n := SpaceRun(s);
    if kind.Array? then
      Ok(Bare(s[..n]), s[n..])
    else if n == |s| || s[n] != '"' then Fail
    else
      match ParseUnits(s[n + 1..])
      case Fail => Fail
      case Ok(key, s1) =>
        var m := SpaceRun(s1);
        if m == |s1| || s1[m] != ':' then Fail
        else
          var s2 := s1[m + 1..];
          var g := SpaceRun(s2);
          Ok(Keyed(s[..n], key, s1[..m], s2[..g]), s2[g..])
  }

  function ParseNode(s: string): (r: Parsed<Node>)
    ensures r.Ok? ==> |r.rest| < |s|
    decreases |s|, 0
  {
    if s == [] then Fail
    else if s[0] == '"' then
      match ParseUnits(s[1..])
      case Fail => Fail
      case Ok(us, rest) => Ok(Quoted(us), rest)
    else if s[0] == '[' || s[0] == '{' then
      var kind := if s[0] == '[' then Array else Object;
      match ParseItems(kind, s[1..], true)
      case Fail => Fail
      case Ok(items, rest) => Ok(Box(kind, items), rest)
    else
      var n := AtomRun(s);
      if IsAtom(s[..n]) then Ok(Atom(s[..n]), s[n..]) else Fail
  }

  /** The inside of a container up to and including its closing bracket.  `first` says that
      nothing has been read yet, so that the container may still turn out to be empty. */
  function ParseItems(kind: Kind, s: string, first: bool): (r: Parsed<Items>)
    ensures r.Ok? ==> |r.rest| < |s|
    decreases |s|, 1
  {
    var n := SpaceRun(s);
    if first && n < |s| && s[n] == Closer(kind) then
      Ok(End(s[..n]), s[n + 1..])
    else
      match ParseLabel(kind, s)
      case Fail => Fail
      case Ok(tag, s1) =>
        match ParseNode(s1)
        case Fail => Fail
        case Ok(node, s2) => ParseAfter(kind, tag, node, s2)
  }

  /** What follows an item's value: the closing bracket, or a comma and more items. */
  function ParseAfter(kind: Kind, tag: Label, node: Node, s: string): (r: Parsed<Items>)
    ensures r.Ok? ==> |r.rest| < |s|
    decreases |s|, 2
  {
    var p := SpaceRun(s);
    if p < |s| && s[p] == Closer(kind) then
      Ok(Item(tag, node, s[..p], End("")), s[p + 1..])
    else if p < |s| && s[p] == ',' then
      match ParseItems(kind, s[p + 1..], false)
      case Fail => Fail
      case Ok(tail, rest) => Ok(Item(tag, node, s[..p], tail), rest)
    else Fail
  }

  /** A whole document: white space, one value, white space. */
  function ParseDocument(s: string): Option<Node> {
    match ParseNode(s[SpaceRun(s)..])
    case Fail => None
    case Ok(node, rest) => if Blank(rest) then Some(node) else None
  }

  /** `strict=True` also refuses raw control characters inside strings. */
  predicate StrictUnits(us: seq<Unit>) {
    forall i | 0 <= i < |us| :: us[i].Plain? ==> us[i].c as int >= 0x20
  }

  predicate Strict(n: Node) {
    match n
    case Atom(_) => true
    case Quoted(body) => StrictUnits(body)
    case Box(_, items) => StrictItems(items)
  }

  predicate StrictItems(items: Items) {
    match items
    case End(_) => true
    case Item(tag, node, _, tail) =>
      (tag.Keyed? ==> StrictUnits(tag.key)) && Strict(node) && StrictItems(tail)
  }

  /** `json.loads(text, strict=strict)`; `None` stands for `JSONDecodeError`. */
  function Loads(s: string, strict: bool): Option<Json> {
    match ParseDocument(s)
    case None => None
    case Some(node) => if strict && !Strict(node) then None else Some(Value(node))
  }

  // ---------------------------------------------------------------- what is read is the text of a tree

  lemma {:induction false} SpaceRunBlank(s: string)
    ensures Blank(s[..SpaceRun(s)])
    ensures SpaceRun(s) < |s| ==> !JsonSpace(s[SpaceRun(s)])
  {
    if s != [] && JsonSpace(s[0]) {
      SpaceRunBlank(s[1..]);
      assert s[..SpaceRun(s)] == [s[0]] + s[1..][..SpaceRun(s[1..])];
    }
  }

  lemma {:induction false} ParseUnitsSound(s: string)
    ensures var r := ParseUnits(s); r.Ok? ==> GoodUnits(r.value) && s == UnitsText(r.value) + ("\"" + r.rest)
  {
    var r := ParseUnits(s);
    if r.Ok? && s[0] != '"' {
      var u := ReadUnit(s).value;
      var k := |UnitText(u)|;
      ParseUnitsSound(s[k..]);
      var units := ParseUnits(s[k..]).value;
      SplitAt(s, k);
      UnitsCons(u, units);
      Assoc(UnitText(u), UnitsText(units), "\"" + r.rest);
    }
  }

  lemma UnitsCons(u: Unit, us: seq<Unit>)
    ensures UnitsText([u] + us) == UnitText(u) + UnitsText(us)
    ensures GoodUnit(u) && GoodUnits(us) ==> GoodUnits([u] + us)
  {
    assert ([u] + us)[1..] == us;
  }

  lemma {:induction false} ParseLabelSound(kind: Kind, s: string)
    ensures var r := ParseLabel(kind, s); r.Ok? ==> GoodLabel(kind, r.value) && s == LabelText(r.value) + r.rest
  {
    var r := ParseLabel(kind, s);
    if r.Ok? && kind.Array? {
      SpaceRunBlank(s);
      SplitAt(s, SpaceRun(s));
    } else if r.Ok? {
      var n := SpaceRun(s);
      ParseUnitsSound(s[n + 1..]);
      var key, s1 := ParseUnits(s[n + 1..]).value, ParseUnits(s[n + 1..]).rest;
      KeyedRead(s, key, s1);
      KeyedGood(s, n, key, s1, SpaceRun(s1), s1[SpaceRun(s1) + 1..]);
      KeyedSplit(s, n, key, s1, SpaceRun(s1), SpaceRun(s1[SpaceRun(s1) + 1..]));
    }
  }

  lemma KeyedGood(s: string, n: nat, key: seq<Unit>, s1: string, m: nat, s2: string)
    requires n == SpaceRun(s) && GoodUnits(key) && m == SpaceRun(s1)
    ensures GoodLabel(Object, Keyed(s[..n], key, s1[..m], s2[..SpaceRun(s2)]))
  {
    SpaceRunBlank(s);
    SpaceRunBlank(s1);
    SpaceRunBlank(s2);
  }

  lemma KeyedRead(s: string, key: seq<Unit>, s1: string)
    requires ParseLabel(Object, s).Ok? && ParseUnits(s[SpaceRun(s) + 1..]) == Ok(key, s1)
    ensures SpaceRun(s) < |s| && s[SpaceRun(s)] == '"' && SpaceRun(s1) < |s1| && s1[SpaceRun(s1)] == ':'
    ensures var s2 := s1[SpaceRun(s1) + 1..];
            ParseLabel(Object, s) == Ok(Keyed(s[..SpaceRun(s)], key, s1[..SpaceRun(s1)], s2[..SpaceRun(s2)]), s2[SpaceRun(s2)..])
  {
  }

  lemma KeyedSplit(s: string, n: nat, key: seq<Unit>, s1: string, m: nat, g: nat)
    requires n < |s| && s[n] == '"' && s[n + 1..] == UnitsText(key) + ("\"" + s1)
    requires m < |s1| && s1[m] == ':' && g <= |s1[m + 1..]|
    ensures s == LabelText(Keyed(s[..n], key, s1[..m], s1[m + 1..][..g])) + s1[m + 1..][g..]
  {
    var s2 := s1[m + 1..];
    assert s2 == s2[..g] + s2[g..];
    assert s1 == s1[..m] + (":" + s2);
    assert s == s[..n] + ("\"" + s[n + 1..]);
    KeyedText(Keyed(s[..n], key, s1[..m], s2[..g]), s2[g..]);
  }

  lemma {:induction false} ParseNodeSound(s: string)
    ensures var r := ParseNode(s); r.Ok? ==> Good(r.value) && s == Text(r.value) + r.rest
    decreases |s|, 0
  {
    var r := ParseNode(s);
    if r.Ok? {
      HeadTail(s, 0);
      match r.value
      case Atom(_) =>
        SplitAt(s, AtomRun(s));
      case Quoted(us) =>
        ParseUnitsSound(s[1..]);
        QuotedThen(us, r.rest);
      case Box(kind, items) =>
        ParseItemsSound(kind, s[1..], true);
        BoxThen(kind, items, r.rest);
    }
  }

  lemma QuotedThen(us: seq<Unit>, rest: string)
    ensures QuotedText(us) + rest == "\"" + (UnitsText(us) + ("\"" + rest))
  {
  }

  lemma BoxThen(kind: Kind, items: Items, rest: string)
    ensures Text(Box(kind, items)) + rest == [Opener(kind)] + (ItemsText(items) + ([Closer(kind)] + rest))
  {
  }

  lemma {:induction false} ParseItemsSound(kind: Kind, s: string, first: bool)
    ensures var r := ParseItems(kind, s, first);
            r.Ok? ==> GoodItems(kind, r.value) && (r.value.End? ==> first) && s == ItemsText(r.value) + ([Closer(kind)] + r.rest)
    decreases |s|, 1
  {
    var r := ParseItems(kind, s, first);
    if r.Ok? {
      if first && SpaceRun(s) < |s| && s[SpaceRun(s)] == Closer(kind) {
        ParseEmptySound(kind, s);
      } else {
        ParseLabelSound(kind, s);
        var s1 := ParseLabel(kind, s).rest;
        ParseNodeSound(s1);
        ParseAfterSound(kind, ParseLabel(kind, s).value, ParseNode(s1).value, ParseNode(s1).rest);
        ItemText(r.value, [Closer(kind)] + r.rest);
      }
    }
  }

  /** What a successful read after an item's value says about the item and the text. */
  lemma {:induction false} ParseAfterSound(kind: Kind, tag: Label, node: Node, s: string)
    ensures var r := ParseAfter(kind, tag, node, s);
            r.Ok? ==>
              && r.value.Item? && r.value.tag == tag && r.value.node == node && Blank(r.value.post)
              && GoodItems(kind, r.value.tail) && (r.value.tail.End? ==> r.value.tail.ws == "")
              && s == r.value.post + (TailText(r.value.tail) + ([Closer(kind)] + r.rest))
    decreases |s|, 2
  {
    if ParseAfter(kind, tag, node, s).Ok? {
      var p := SpaceRun(s);
      AfterRead(kind, tag, node, s);
      SpaceRunBlank(s);
      if s[p] == Closer(kind) {
        BeforeCloser(kind, s, p);
      } else {
        ParseItemsSound(kind, s[p + 1..], false);
        BeforeComma(kind, s, p, ParseItems(kind, s[p + 1..], false).value, ParseItems(kind, s[p + 1..], false).rest);
      }
    }
  }

  lemma AfterRead(kind: Kind, tag: Label, node: Node, s: string)
    requires ParseAfter(kind, tag, node, s).Ok?
    ensures var p := SpaceRun(s);
            && p < |s| && (s[p] == Closer(kind) || s[p] == ',')
            && (s[p] == Closer(kind) ==> ParseAfter(kind, tag, node, s) == Ok(Item(tag, node, s[..p], End("")), s[p + 1..]))
            && (s[p] == ',' ==>
                  var tail := ParseItems(kind, s[p + 1..], false);
                  tail.Ok? && ParseAfter(kind, tag, node, s) == Ok(Item(tag, node, s[..p], tail.value), tail.rest))
  {
  }

  lemma BeforeCloser(kind: Kind, s: string, p: nat)
    requires p < |s| && s[p] == Closer(kind)
    ensures s == s[..p] + (TailText(End("")) + ([Closer(kind)] + s[p + 1..]))
  {
  }

  lemma BeforeComma(kind: Kind, s: string, p: nat, tail: Items, rest: string)
    requires p < |s| && s[p] == ',' && tail.Item? && s[p + 1..] == ItemsText(tail) + ([Closer(kind)] + rest)
    ensures s == s[..p] + (TailText(tail) + ([Closer(kind)] + rest))
  {
    Assoc([','], ItemsText(tail), [Closer(kind)] + rest);
    SplitAt(s, p);
    HeadTail(s, p);
  }

  lemma ParseEmptySound(kind: Kind, s: string)
    requires SpaceRun(s) < |s| && s[SpaceRun(s)] == Closer(kind)
    ensures var r := ParseItems(kind, s, true);
            r.Ok? && r.value.End? && Blank(r.value.ws) && s == r.value.ws + ([Closer(kind)] + r.rest)
  {
    SpaceRunBlank(s);
    SplitAt(s, SpaceRun(s));
    HeadTail(s, SpaceRun(s));
  }

  lemma {:induction false} ParseDocumentSound(s: string) returns (lead: string, trail: string)
    requires ParseDocument(s).Some?
    ensures Good(ParseDocument(s).value) && Blank(lead) && Blank(trail)
    ensures s == lead + Text(ParseDocument(s).value) + trail
  {
    var n := SpaceRun(s);
    SpaceRunBlank(s);
    ParseNodeSound(s[n..]);
    lead, trail := s[..n], ParseNode(s[n..]).rest;
    SplitAt(s, n);
    Assoc(lead, Text(ParseDocument(s).value), trail);
  }

  // ---------------------------------------------------------------- the text of a tree is read back

  lemma {:induction false} SpaceRunExact(ws: string, rest: string)
    requires Blank(ws)
    requires rest != [] ==> !JsonSpace(rest[0])
    ensures SpaceRun(ws + rest) == |ws| && (ws + rest)[..|ws|] == ws && (ws + rest)[|ws|..] == rest
  {
    if ws == [] {
      assert ws + rest == rest;
    } else {
      assert (ws + rest)[1..] == ws[1..] + rest;
      SpaceRunExact(ws[1..], rest);
    }
  }

  lemma {:induction false} AtomRunExact(t: string, rest: string)
    requires forall i | 0 <= i < |t| :: AtomChar(t[i])
    requires rest != [] ==> !AtomChar(rest[0])
    ensures AtomRun(t + rest) == |t| && (t + rest)[..|t|] == t && (t + rest)[|t|..] == rest
  {
    if t == [] {
      assert t + rest == rest;
    } else {
      assert (t + rest)[1..] == t[1..] + rest;
      AtomRunExact(t[1..], rest);
    }
  }

  lemma {:induction false} ParseUnitsInverts(us: seq<Unit>, rest: string)
    requires GoodUnits(us)
    ensures ParseUnits(UnitsText(us) + ("\"" + rest)) == Ok(us, rest)
  {
    if us == [] {
      assert UnitsText(us) + ("\"" + rest) == "\"" + rest;
      assert ("\"" + rest)[1..] == rest;
    } else {
      ParseUnitsInverts(us[1..], rest);
      var tail := UnitsText(us[1..]) + ("\"" + rest);
      Assoc(UnitText(us[0]), UnitsText(us[1..]), "\"" + rest);
      ParseOneUnit(us[0], tail);
      assert us == [us[0]] + us[1..];
    }
  }

  lemma ParseOneUnit(u: Unit, tail: string)
    requires GoodUnit(u)
    ensures ParseUnits(UnitText(u) + tail) == PrependUnit(u, ParseUnits(tail))
  {
  }

  lemma {:induction false} ParseLabelInverts(kind: Kind, l: Label, rest: string)
    requires GoodLabel(kind, l)
    requires rest != [] && !JsonSpace(rest[0]) && rest[0] != ']' && rest[0] != '}'
    ensures var s := LabelText(l) + rest;
            && ParseLabel(kind, s) == Ok(l, rest)
            && SpaceRun(s) < |s| && s[SpaceRun(s)] != Closer(kind)
  {
    match l
    case Bare(pre) =>
      SpaceRunExact(pre, rest);
    case Keyed(pre, key, mid, gap) =>
      KeyedText(l, rest);
      ParseKeyedInverts(pre, key, mid, gap, rest);
  }

  lemma ParseKeyedInverts(pre: string, key: seq<Unit>, mid: string, gap: string, rest: string)
    requires Blank(pre) && GoodUnits(key) && Blank(mid) && Blank(gap) && rest != [] && !JsonSpace(rest[0])
    ensures var s := pre + ("\"" + (UnitsText(key) + ("\"" + (mid + (":" + (gap + rest))))));
            && ParseLabel(Object, s) == Ok(Keyed(pre, key, mid, gap), rest)
            && SpaceRun(s) < |s| && s[SpaceRun(s)] == '"'
  {
    var t3 := gap + rest;
    var t2 := mid + (":" + t3);
    var t1 := UnitsText(key) + ("\"" + t2);
    SpaceRunExact(pre, "\"" + t1);
    AtJoin(pre, '"', t1);
    ParseUnitsInverts(key, t2);
    SpaceRunExact(mid, ":" + t3);
    AtJoin(mid, ':', t3);
    SpaceRunExact(gap, rest);
    TakeDrop(gap, rest);
  }

  lemma KeyedText(l: Label, rest: string)
    requires l.Keyed?
    ensures LabelText(l) + rest == l.pre + ("\"" + (UnitsText(l.key) + ("\"" + (l.mid + (":" + (l.gap + rest))))))
  {
  }

  lemma {:induction false} TextStarts(n: Node)
    requires Good(n)
    ensures Text(n) != [] && !JsonSpace(Text(n)[0]) && Text(n)[0] != ']' && Text(n)[0] != '}'
  {
  }

  lemma {:induction false} ParseNodeInverts(n: Node, rest: string)
    requires Good(n)
    requires rest != [] ==> !AtomChar(rest[0])
    ensures ParseNode(Text(n) + rest) == Ok(n, rest)
    decreases n, 0
  {
    var s := Text(n) + rest;
    match n
    case Atom(text) =>
      AtomRunExact(text, rest);
    case Quoted(body) =>
      QuotedThen(body, rest);
      TakeDrop("\"", UnitsText(body) + ("\"" + rest));
      ParseUnitsInverts(body, rest);
    case Box(kind, items) =>
      var t := ItemsText(items) + ([Closer(kind)] + rest);
      BoxThen(kind, items, rest);
      ParseItemsInverts(kind, items, rest, true);
      ParseBoxStep(kind, t);
  }

  lemma ParseBoxStep(kind: Kind, t: string)
    requires ParseItems(kind, t, true).Ok?
    ensures var r := ParseItems(kind, t, true);
            ParseNode([Opener(kind)] + t) == Ok(Box(kind, r.value), r.rest)
  {
  }

  /** One item of a container, given how its label and value are read. */
  lemma ParseItemStep(kind: Kind, s: string, first: bool, tag: Label, s1: string, node: Node, s2: string)
    requires SpaceRun(s) < |s| && s[SpaceRun(s)] != Closer(kind)
    requires ParseLabel(kind, s) == Ok(tag, s1) && ParseNode(s1) == Ok(node, s2)
    ensures ParseItems(kind, s, first) == ParseAfter(kind, tag, node, s2)
  {
  }

  lemma {:induction false} ParseItemsInverts(kind: Kind, items: Items, rest: string, first: bool)
    requires GoodItems(kind, items)
    requires first || items.Item?
    ensures ParseItems(kind, ItemsText(items) + ([Closer(kind)] + rest), first) == Ok(items, rest)
    decreases items, 0
  {
    match items
    case End(ws) =>
      SpaceRunExact(ws, [Closer(kind)] + rest);
      AtJoin(ws, Closer(kind), rest);
    case Item(tag, node, post, tail) =>
      var after := TailText(tail) + ([Closer(kind)] + rest);
      var s2 := post + after;
      var s1 := Text(node) + s2;
      ItemText(items, [Closer(kind)] + rest);
      TextStarts(node);
      ParseLabelInverts(kind, tag, s1);
      AfterNode(kind, post, tail, rest);
      ParseNodeInverts(node, s2);
      ParseAfterInverts(kind, tag, node, post, tail, rest);
      ParseItemStep(kind, LabelText(tag) + s1, first, tag, s1, node, s2);
  }

  lemma {:induction false} ParseAfterInverts(kind: Kind, tag: Label, node: Node, post: string, tail: Items, rest: string)
    requires Blank(post) && GoodItems(kind, tail) && (tail.End? ==> tail.ws == "")
    ensures ParseAfter(kind, tag, node, post + (TailText(tail) + ([Closer(kind)] + rest))) == Ok(Item(tag, node, post, tail), rest)
    decreases tail, 1
  {
    AfterNode(kind, post, tail, rest);
    if tail.Item? {
      ParseItemsInverts(kind, tail, rest, false);
    }
  }

  /** What the reader sees after an item's value. */
  lemma AfterNode(kind: Kind, post: string, tail: Items, rest: string)
    requires Blank(post)
    ensures var s2 := post + (TailText(tail) + ([Closer(kind)] + rest));
            && s2 != [] && !AtomChar(s2[0])
            && SpaceRun(s2) == |post| < |s2| && s2[..|post|] == post
            && s2[|post|] == (if tail.End? then Closer(kind) else ',')
            && s2[|post| + 1..] == (if tail.End? then rest else ItemsText(tail) + ([Closer(kind)] + rest))
  {
    var after := TailText(tail) + ([Closer(kind)] + rest);
    if tail.End? {
      assert after == [Closer(kind)] + rest;
      AtJoin(post, Closer(kind), rest);
    } else {
      Assoc(",", ItemsText(tail), [Closer(kind)] + rest);
      AtJoin(post, ',', ItemsText(tail) + ([Closer(kind)] + rest));
    }
    SpaceRunExact(post, after);
  }

  lemma ItemText(items: Items, rest: string)
    requires items.Item?
    ensures ItemsText(items) + rest == LabelText(items.tag) + (Text(items.node) + (items.post + (TailText(items.tail) + rest)))
  {
  }

  /** Reading the text of any tree, in any layout, gives that tree back. */
  lemma {:induction false} ParseDocumentInverts(lead: string, n: Node, trail: string)
    requires Good(n) && Blank(lead) && Blank(trail)
    ensures ParseDocument(lead + Text(n) + trail) == Some(n)
  {
    TextStarts(n);
    assert lead + Text(n) + trail == lead + (Text(n) + trail);
    SpaceRunExact(lead, Text(n) + trail);
    ParseNodeInverts(n, trail);
  }

  /** Two trees of one text are the same tree: the text determines the value. */
  lemma TextInjective(a: Node, b: Node)
    requires Good(a) && Good(b) && Text(a) == Text(b)
    ensures a == b
  {
    ParseDocumentInverts("", a, "");
    ParseDocumentInverts("", b, "");
  }

  /** Loading succeeds exactly for the text of a tree between white space, and the value is that tree's. */
  lemma LoadsCharacterised(s: string, v: Json, strict: bool)
    ensures Loads(s, strict) == Some(v) <==>
            exists lead, n, trail :: IsDocument(s, lead, n, trail) && Value(n) == v && (strict ==> Strict(n))
  {
    if Loads(s, strict) == Some(v) {
      var lead, trail := ParseDocumentSound(s);
      assert IsDocument(s, lead, ParseDocument(s).value, trail);
    }
    if lead, n, trail :| IsDocument(s, lead, n, trail) && Value(n) == v && (strict ==> Strict(n)) {
      ParseDocumentInverts(lead, n, trail);
    }
  }

  ghost predicate IsDocument(s: string, lead: string, n: Node, trail: string) {
    Blank(lead) && Good(n) && Blank(trail) && s == lead + Text(n) + trail
  }

  // ---------------------------------------------------------------- a printer

  /** Code points a text character can carry: everything but the surrogates. */
  predicate Scalars(codes: Codes) {
    forall i | 0 <= i < |codes| :: 0 <= codes[i] < 0xD800 || 0xE000 <= codes[i] < 0x11_0000
  }

  predicate Printable(v: Json)
    decreases v
  {
    match v
    case Scalar(text) => IsAtom(text)
    case Str(codes) => Scalars(codes)
    case Coll(kind, entries) => PrintableEntries(kind, entries)
  }

  predicate PrintableEntries(kind: Kind, entries: Entries)
    decreases entries
  {
    match entries
    case Nil => true
    case Cons(key, value, tail) =>
      key.Some? == kind.Object? && (key.Some? ==> Scalars(key.value)) && Printable(value) && PrintableEntries(kind, tail)
  }

  function HexDigit(n: int): char
    requires 0 <= n < 16
  {
    if n < 10 then ('0' as int + n) as char else ('a' as int + n - 10) as char
  }

  /** Section 7: quotation mark, reverse solidus and control characters must be escaped. */
  function EscapeCode(code: int): Unit
    requires 0 <= code < 0xD800 || 0xE000 <= code < 0x11_0000
  {
    if code == 0x22 then Short('"')
    else if code == 0x5C then Short('\\')
    else if code == 0x0A then Short('n')
    else if code < 0x20 then Hex(['0', '0', HexDigit(code / 16), HexDigit(code % 16)])
    else Plain(code as char)
  }

  function Escape(codes: Codes): seq<Unit>
    requires Scalars(codes)
  {
    if codes == [] then [] else [EscapeCode(codes[0])] + Escape(codes[1..])
  }

  /** `json.dumps` layout: a space after every comma and colon. */
  function Tree(v: Json): Node
    requires Printable(v)
    decreases v
  {
    match v
    case Scalar(text) => Atom(text)
    case Str(codes) => Quoted(Escape(codes))
    case Coll(kind, entries) => Box(kind, TreeItems(kind, entries, true))
  }

  function TreeItems(kind: Kind, entries: Entries, first: bool): Items
    requires PrintableEntries(kind, entries)
    decreases entries
  {
    match entries
    case Nil => End("")
    case Cons(key, value, tail) =>
      var pre := if first then "" else " ";
      var tag := if key.Some? then Keyed(pre, Escape(key.value), "", " ") else Bare(pre);
      Item(tag, Tree(value), "", TreeItems(kind, tail, false))
  }

  function Print(v: Json): string
    requires Printable(v)
  {
    Text(Tree(v))
  }

  lemma EscapeOne(code: int)
    requires 0 <= code < 0xD800 || 0xE000 <= code < 0x11_0000
    ensures var u := EscapeCode(code);
            && GoodUnit(u) && !HighSurrogate(u) && StrictUnits([u])
            && Decode([u]) == [code]
  {
  }

  lemma DecodeCons(u: Unit, us: seq<Unit>)
    requires !HighSurrogate(u)
    ensures Decode([u] + us) == Decode([u]) + Decode(us)
  {
    assert ([u] + us)[1..] == us && [u][1..] == [];
  }

  lemma {:induction false} EscapeDecodes(codes: Codes)
    requires Scalars(codes)
    ensures GoodUnits(Escape(codes)) && Decode(Escape(codes)) == codes && StrictUnits(Escape(codes))
  {
    if codes != [] {
      EscapeDecodes(codes[1..]);
      EscapeOne(codes[0]);
      DecodeCons(EscapeCode(codes[0]), Escape(codes[1..]));
      HeadTail(codes, 0);
    }
  }

  lemma {:induction false} TreeValue(v: Json)
    requires Printable(v)
    ensures Good(Tree(v)) && Value(Tree(v)) == v && Strict(Tree(v))
    decreases v
  {
    match v
    case Scalar(_) =>
    case Str(codes) => EscapeDecodes(codes);
    case Coll(kind, entries) => TreeItemsValues(kind, entries, true);
  }

  lemma {:induction false} TreeItemsValues(kind: Kind, entries: Entries, first: bool)
    requires PrintableEntries(kind, entries)
    ensures var items := TreeItems(kind, entries, first);
            GoodItems(kind, items) && Values(items) == entries && StrictItems(items) && (items.End? ==> items.ws == "")
    decreases entries
  {
    match entries
    case Nil =>
    case Cons(key, value, tail) =>
      if key.Some? { EscapeDecodes(key.value); }
      TreeValue(value);
      TreeItemsValues(kind, tail, false);
  }

  /** Printing and reading back is the identity, strictly or leniently. */
  lemma PrintLoads(v: Json, strict: bool)
    requires Printable(v)
    ensures Loads(Print(v), strict) == Some(v)
  {
    TreeValue(v);
    ParseDocumentInverts("", Tree(v), "");
    assert "" + Print(v) + "" == Print(v);
  }
}
