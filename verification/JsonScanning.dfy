/**
 The two bracket scanners of the gateway, as functions of the characters read so far, and what
 they do on the text of a JSON value.

 `Track` is one step of the truncation repair: it keeps the stack of closing brackets still owed
 and the last place where an inner container closed.  `Climb` is one step of the block finder: it
 only counts braces.
 */
module JsonScanning {
  import opened Basics
  import opened JsonSyntax

  // ---------------------------------------------------------------- inside and outside strings

  datatype Mode = Code | InString | Escaped

  function NextMode(m: Mode, c: char): Mode {
    match m
    case Code => if c == '"' then InString else Code
    case InString => if c == '\\' then Escaped else if c == '"' then Code else InString
    case Escaped => InString
  }

  predicate IsBracket(c: char) {
    c == '{' || c == '}' || c == '[' || c == ']'
  }

  /** The mode after `s`, provided `s` has no bracket outside strings. */
  function Skim(m: Mode, s: string): Option<Mode>
    decreases s
  {
    if s == [] then Some(m)
    else if m.Code? && IsBracket(s[0]) then None
    else Skim(NextMode(m, s[0]), s[1..])
  }

  lemma {:induction false} SkimJoin(m: Mode, a: string, b: string)
    requires Skim(m, a).Some?
    ensures Skim(m, a + b) == Skim(Skim(m, a).value, b)
    decreases a
  {
    if a == [] {
      assert a + b == b;
    } else {
      assert (a + b)[1..] == a[1..] + b;
      SkimJoin(NextMode(m, a[0]), a[1..], b);
    }
  }

  lemma {:induction false} SkimPrefix(m: Mode, s: string, k: nat)
    requires Skim(m, s).Some? && k <= |s|
    ensures Skim(m, s[..k]).Some?
    decreases s
  {
    if k > 0 {
      assert s[..k][1..] == s[1..][..k - 1];
      SkimPrefix(NextMode(m, s[0]), s[1..], k - 1);
    }
  }

  lemma {:induction false} SkimPlainText(s: string)
    requires forall i | 0 <= i < |s| :: !IsBracket(s[i]) && s[i] != '"'
    ensures Skim(Code, s) == Some(Code)
  {
    if s != [] {
      SkimPlainText(s[1..]);
    }
  }

  lemma {:induction false} SkimUnits(us: seq<Unit>)
    requires GoodUnits(us)
    ensures Skim(InString, UnitsText(us)) == Some(InString)
  {
    if us != [] {
      SkimUnits(us[1..]);
      SkimUnit(us[0]);
      SkimJoin(InString, UnitText(us[0]), UnitsText(us[1..]));
    }
  }

  lemma SkimUnit(u: Unit)
    requires GoodUnit(u)
    ensures Skim(InString, UnitText(u)) == Some(InString)
  {
    match u
    case Plain(c) =>
    case Short(c) =>
      assert UnitText(u)[1..] == [c];
    case Hex(d) =>
      SkimHex(d);
      assert UnitText(u)[1..] == ['u'] + d;
      assert (['u'] + d)[1..] == d;
  }

  lemma {:induction false} SkimHex(d: string)
    requires forall i | 0 <= i < |d| :: IsHexDigit(d[i])
    ensures Skim(InString, d) == Some(InString)
  {
    if d != [] {
      SkimHex(d[1..]);
    }
  }

  lemma SkimQuoted(us: seq<Unit>)
    requires GoodUnits(us)
    ensures Skim(Code, QuotedText(us)) == Some(Code)
  {
    SkimUnits(us);
    SkimJoin(Code, "\"", UnitsText(us));
    SkimJoin(Code, "\"" + UnitsText(us), "\"");
  }

  lemma SkimLabel(kind: Kind, l: Label)
    requires GoodLabel(kind, l)
    ensures Skim(Code, LabelText(l)) == Some(Code)
  {
    match l
    case Bare(pre) => SkimPlainText(pre);
    case Keyed(pre, key, mid, gap) =>
      SkimPlainText(pre);
      SkimQuoted(key);
      SkimPlainText(mid);
      SkimPlainText(":");
      SkimPlainText(gap);
      SkimJoin(Code, pre, QuotedText(key));
      SkimJoin(Code, pre + QuotedText(key), mid);
      SkimJoin(Code, pre + QuotedText(key) + mid, ":");
      SkimJoin(Code, pre + QuotedText(key) + mid + ":", gap);
  }

  lemma SkimLeaf(n: Node)
    requires Good(n) && !n.Box?
    ensures Skim(Code, Text(n)) == Some(Code)
  {
    if n.Atom? {
      SkimPlainText(n.text);
    } else {
      SkimQuoted(n.body);
    }
  }

  // ---------------------------------------------------------------- prefixes of a tree's text

  lemma BoxPrefix(n: Node, k: nat)
    requires n.Box? && 0 < k < |Text(n)|
    ensures k - 1 <= |ItemsText(n.items)|
    ensures Text(n)[..k] == [Opener(n.kind)] + ItemsText(n.items)[..k - 1]
  {
  }

  /** The first `k` characters of an item end in its label, in its value, or after its value. */
  lemma ItemPrefix(items: Items, k: nat)
    requires items.Item? && k <= |ItemsText(items)|
    ensures var t, a, rest := LabelText(items.tag), Text(items.node), items.post + TailText(items.tail);
            && (k <= |t| ==> ItemsText(items)[..k] == t[..k])
            && (|t| <= k <= |t| + |a| ==> ItemsText(items)[..k] == t + a[..k - |t|])
            && (|t| + |a| <= k ==> k - |t| - |a| <= |rest| && ItemsText(items)[..k] == (t + a) + rest[..k - |t| - |a|])
  {
    var t, a, rest := LabelText(items.tag), Text(items.node), items.post + TailText(items.tail);
    assert ItemsText(items) == (t + a) + rest;
  }

  lemma RestPrefix(post: string, tail: Items, j: nat)
    requires tail.Item? && |post| < j <= |post + TailText(tail)|
    ensures (post + TailText(tail))[..j] == (post + ",") + ItemsText(tail)[..j - |post| - 1]
  {
  }

  // ---------------------------------------------------------------- counting braces

  datatype Level = Level(mode: Mode, depth: int)

  const GROUND := Level(Code, 0)

  function Climb(l: Level, c: char): Level {
    Level(NextMode(l.mode, c),
          if l.mode.Code? && c == '{' then l.depth + 1
          else if l.mode.Code? && c == '}' then l.depth - 1
          else l.depth)
  }

  function LevelFrom(l: Level, s: string): Level {
    if s == [] then l else Climb(LevelFrom(l, s[..|s| - 1]), s[|s| - 1])
  }

  /** Brace depth after `s`, outside strings, from the start of the text. */
  function LevelOf(s: string): Level {
    LevelFrom(GROUND, s)
  }

  lemma {:induction false} LevelJoin(l: Level, a: string, b: string)
    ensures LevelFrom(l, a + b) == LevelFrom(LevelFrom(l, a), b)
  {
    if b == [] {
      assert a + b == a;
    } else {
      var b' := b[..|b| - 1];
      LevelJoin(l, a, b');
      assert (a + b)[..|a + b| - 1] == a + b';
    }
  }

  lemma {:induction false} SkimLevel(l: Level, s: string)
    requires Skim(l.mode, s).Some?
    ensures LevelFrom(l, s) == Level(Skim(l.mode, s).value, l.depth)
    decreases |s|
  {
    if s != [] {
      assert s == [s[0]] + s[1..];
      LevelJoin(l, [s[0]], s[1..]);
      assert LevelFrom(l, [s[0]]) == Climb(LevelFrom(l, []), s[0]) by { assert [s[0]][..0] == []; }
      SkimLevel(Level(NextMode(l.mode, s[0]), l.depth), s[1..]);
    }
  }

  lemma LevelChar(l: Level, c: char)
    ensures LevelFrom(l, [c]) == Climb(l, c)
  {
  }

  /** A whole value leaves the level where it was. */
  lemma {:induction false} LevelNode(n: Node, d: int)
    requires Good(n)
    ensures LevelFrom(Level(Code, d), Text(n)) == Level(Code, d)
    decreases n, 0
  {
    var l := Level(Code, d);
    match n
    case Box(kind, items) =>
      var d' := if kind.Object? then d + 1 else d;
      LevelChar(l, Opener(kind));
      LevelItems(kind, items, d');
      LevelChar(Level(Code, d'), Closer(kind));
      LevelJoin(l, [Opener(kind)], ItemsText(items));
      LevelJoin(l, [Opener(kind)] + ItemsText(items), [Closer(kind)]);
    case _ =>
      SkimLeaf(n);
      SkimLevel(l, Text(n));
  }

  lemma {:induction false} LevelItems(kind: Kind, items: Items, d: int)
    requires GoodItems(kind, items)
    ensures LevelFrom(Level(Code, d), ItemsText(items)) == Level(Code, d)
    decreases items, 0
  {
    var l := Level(Code, d);
    match items
    case End(ws) =>
      SkimPlainText(ws);
      SkimLevel(l, ws);
    case Item(tag, node, post, tail) =>
      LevelItemHead(kind, items, d);
      LevelJoin(l, LabelText(tag) + Text(node), post);
      LevelJoin(l, LabelText(tag) + Text(node) + post, TailText(tail));
      SkimPlainText(post);
      SkimLevel(l, post);
      if tail.Item? {
        LevelChar(l, ',');
        LevelJoin(l, ",", ItemsText(tail));
        LevelItems(kind, tail, d);
      }
  }

  lemma {:induction false} LevelItemHead(kind: Kind, items: Items, d: int)
    requires GoodItems(kind, items) && items.Item?
    ensures LevelFrom(Level(Code, d), LabelText(items.tag)) == Level(Code, d)
    ensures LevelFrom(Level(Code, d), LabelText(items.tag) + Text(items.node)) == Level(Code, d)
    decreases items, -1
  {
    var l := Level(Code, d);
    SkimLabel(kind, items.tag);
    SkimLevel(l, LabelText(items.tag));
    LevelNode(items.node, d);
    LevelJoin(l, LabelText(items.tag), Text(items.node));
  }

  lemma LevelOpening(kind: Kind, d: int, x: string)
    ensures LevelFrom(Level(Code, d), [Opener(kind)] + x) == LevelFrom(Level(Code, if kind.Object? then d + 1 else d), x)
  {
    LevelChar(Level(Code, d), Opener(kind));
    LevelJoin(Level(Code, d), [Opener(kind)], x);
  }

  /** No part of a value goes below the level it started at, and inside an object it stays above. */
  lemma {:induction false} LevelNodePrefix(n: Node, d: int, k: nat)
    requires Good(n) && k <= |Text(n)|
    ensures LevelFrom(Level(Code, d), Text(n)[..k]).depth >= d
    ensures n.Box? && n.kind.Object? && 0 < k < |Text(n)| ==> LevelFrom(Level(Code, d), Text(n)[..k]).depth >= d + 1
    decreases n, 1
  {
    var l := Level(Code, d);
    if n.Box? && 0 < k < |Text(n)| {
      BoxPrefix(n, k);
      LevelItemsPrefix(n.kind, n.items, if n.kind.Object? then d + 1 else d, k - 1);
      LevelOpening(n.kind, d, ItemsText(n.items)[..k - 1]);
    } else if n.Box? {
      LevelNode(n, d);
      assert k == 0 || Text(n)[..k] == Text(n);
    } else {
      SkimLeaf(n);
      SkimPrefix(Code, Text(n), k);
      SkimLevel(l, Text(n)[..k]);
    }
  }

  lemma {:induction false} LevelItemsPrefix(kind: Kind, items: Items, d: int, k: nat)
    requires GoodItems(kind, items) && k <= |ItemsText(items)|
    ensures LevelFrom(Level(Code, d), ItemsText(items)[..k]).depth >= d
    decreases items, 1
  {
    var l := Level(Code, d);
    match items
    case End(ws) =>
      SkimPlainText(ws[..k]);
      SkimLevel(l, ws[..k]);
    case Item(tag, node, post, tail) =>
      var t, a := LabelText(tag), Text(node);
      ItemPrefix(items, k);
      if k <= |t| {
        LevelLabelPrefix(kind, tag, d, k);
      } else {
        LevelItemHead(kind, items, d);
        if k <= |t| + |a| {
          LevelNodePrefix(node, d, k - |t|);
          LevelBehind(l, t, a[..k - |t|], d);
        } else {
          LevelRestPrefix(kind, post, tail, d, k - |t| - |a|);
          LevelBehind(l, t + a, (post + TailText(tail))[..k - |t| - |a|], d);
        }
      }
  }

  lemma LevelBehind(l: Level, head: string, x: string, d: int)
    requires LevelFrom(l, head) == l && LevelFrom(l, x).depth >= d
    ensures LevelFrom(l, head + x).depth >= d
  {
    LevelJoin(l, head, x);
  }

  lemma LevelLabelPrefix(kind: Kind, tag: Label, d: int, k: nat)
    requires GoodLabel(kind, tag) && k <= |LabelText(tag)|
    ensures LevelFrom(Level(Code, d), LabelText(tag)[..k]).depth == d
  {
    SkimLabel(kind, tag);
    SkimPrefix(Code, LabelText(tag), k);
    SkimLevel(Level(Code, d), LabelText(tag)[..k]);
  }

  lemma {:induction false} LevelRestPrefix(kind: Kind, post: string, tail: Items, d: int, j: nat)
    requires Blank(post) && GoodItems(kind, tail) && j <= |post + TailText(tail)|
    ensures LevelFrom(Level(Code, d), (post + TailText(tail))[..j]).depth >= d
    decreases tail, 2
  {
    if j <= |post| + 1 {
      LevelGap(post, (post + TailText(tail))[..j], d);
    } else {
      var x := ItemsText(tail)[..j - |post| - 1];
      LevelItemsPrefix(kind, tail, d, |x|);
      RestPrefix(post, tail, j);
      LevelGap(post, post + ",", d);
      LevelJoin(Level(Code, d), post + ",", x);
    }
  }

  lemma LevelGap(post: string, s: string, d: int)
    requires Blank(post) && |s| <= |post| + 1
    requires forall i | 0 <= i < |s| :: s[i] == if i < |post| then post[i] else ','
    ensures LevelFrom(Level(Code, d), s) == Level(Code, d)
  {
  }

  // ---------------------------------------------------------------- tracking open containers

  /** The last place an inner container closed, and the closing brackets owed there. */
  datatype Best = Best(cut: nat, open: string)

  datatype Tracker = Tracker(mode: Mode, stack: string, best: Option<Best>)

  /** One character of the repair loop, at index `i`; `None` when a bracket closes nothing. */
  function Track(t: Tracker, i: nat, c: char): Option<Tracker> {
    if !t.mode.Code? || c == '"' then Some(t.(mode := NextMode(t.mode, c)))
    else if c == '{' then Some(t.(stack := t.stack + ['}']))
    else if c == '[' then Some(t.(stack := t.stack + [']']))
    else if c == '}' || c == ']' then
      if t.stack == [] then None
      else
        var s := t.stack[..|t.stack| - 1];
        Some(t.(stack := s, best := if s != [] then Some(Best(i, s)) else t.best))
    else Some(t)
  }

  function TrackAll(t: Tracker, base: nat, s: string): (r: Option<Tracker>)
    ensures r.Some? && r.value.best != t.best ==> r.value.best.Some? && base <= r.value.best.value.cut < base + |s|
    decreases s
  {
    if s == [] then Some(t)
    else
      match Track(t, base, s[0])
      case None => None
      case Some(t') => TrackAll(t', base + 1, s[1..])
  }

  lemma {:induction false} TrackJoin(t: Tracker, base: nat, a: string, b: string)
    ensures TrackAll(t, base, a + b) ==
            match TrackAll(t, base, a)
            case None => None
            case Some(t') => TrackAll(t', base + |a|, b)
    decreases a
  {
    if a == [] {
      assert a + b == b;
    } else {
      assert (a + b)[1..] == a[1..] + b;
      match Track(t, base, a[0])
      case None =>
      case Some(t') => TrackJoin(t', base + 1, a[1..], b);
    }
  }

  lemma {:induction false} SkimTrack(t: Tracker, base: nat, s: string)
    requires Skim(t.mode, s).Some?
    ensures TrackAll(t, base, s) == Some(t.(mode := Skim(t.mode, s).value))
    decreases s
  {
    if s != [] {
      SkimTrack(t.(mode := NextMode(t.mode, s[0])), base + 1, s[1..]);
    }
  }

  lemma TrackChar(t: Tracker, base: nat, c: char)
    ensures TrackAll(t, base, [c]) == Track(t, base, c)
  {
  }

  /** A whole value inside an open container: the stack is back, and a container is the new best. */
  lemma {:induction false} TrackNode(n: Node, t: Tracker, base: nat)
    requires Good(n) && t.mode.Code? && t.stack != []
    ensures TrackAll(t, base, Text(n)) ==
            Some(if n.Box? then t.(best := Some(Best(base + |Text(n)| - 1, t.stack))) else t)
    decreases n, 0
  {
    match n
    case Box(kind, items) =>
      var o, x := [Opener(kind)], ItemsText(items);
      var t1 := t.(stack := t.stack + [Closer(kind)]);
      TrackChar(t, base, Opener(kind));
      TrackJoin(t, base, o, x);
      TrackItems(kind, items, t1, base + 1);
      TrackJoin(t, base, o + x, [Closer(kind)]);
      var t2 := TrackAll(t1, base + 1, x).value;
      TrackChar(t2, base + 1 + |x|, Closer(kind));
      assert t2.stack[..|t2.stack| - 1] == t.stack;
    case _ =>
      SkimLeaf(n);
      SkimTrack(t, base, Text(n));
  }

  lemma {:induction false} TrackItems(kind: Kind, items: Items, t: Tracker, base: nat)
    requires GoodItems(kind, items) && t.mode.Code? && t.stack != []
    ensures var r := TrackAll(t, base, ItemsText(items)); r.Some? && r.value.mode.Code? && r.value.stack == t.stack
    decreases items, 0
  {
    match items
    case End(ws) =>
      SkimPlainText(ws);
      SkimTrack(t, base, ws);
    case Item(tag, node, post, tail) =>
      var h := LabelText(tag) + Text(node);
      TrackItemHead(kind, items, t, base);
      var t1 := TrackAll(t, base, h).value;
      TrackGap(t, base, h, post, TailText(tail));
      if tail.Item? {
        TrackItems(kind, tail, t1, base + |h + post| + 1);
        TrackComma(t1, base + |h + post|, ItemsText(tail));
      }
  }

  lemma TrackGap(t: Tracker, base: nat, h: string, post: string, rest: string)
    requires Blank(post) && TrackAll(t, base, h).Some? && TrackAll(t, base, h).value.mode.Code?
    ensures TrackAll(t, base, h + post + rest) == TrackAll(TrackAll(t, base, h).value, base + |h + post|, rest)
  {
    SkimPlainText(post);
    SkimTrack(TrackAll(t, base, h).value, base + |h|, post);
    TrackJoin(t, base, h, post);
    TrackJoin(t, base, h + post, rest);
  }

  lemma TrackComma(t: Tracker, base: nat, s: string)
    requires t.mode.Code?
    ensures TrackAll(t, base, "," + s) == TrackAll(t, base + 1, s)
  {
  }

  lemma {:induction false} TrackItemHead(kind: Kind, items: Items, t: Tracker, base: nat)
    requires GoodItems(kind, items) && items.Item? && t.mode.Code? && t.stack != []
    ensures TrackAll(t, base, LabelText(items.tag)) == Some(t)
    ensures TrackAll(t, base, LabelText(items.tag) + Text(items.node)) ==
            Some(if items.node.Box? then t.(best := Some(Best(base + |LabelText(items.tag)| + |Text(items.node)| - 1, t.stack))) else t)
    decreases items, -1
  {
    SkimLabel(kind, items.tag);
    SkimTrack(t, base, LabelText(items.tag));
    TrackJoin(t, base, LabelText(items.tag), Text(items.node));
    TrackNode(items.node, t, base + |LabelText(items.tag)|);
  }
}
