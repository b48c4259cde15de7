/**
 Salvage of a JSON object that an output cap has cut off (`_repair_truncated_json`).

 The loop cuts at the last place where an inner container closed and closes what is still open.
 The theorems say what that is worth: for every object, in every layout, and every proper prefix of
 its text, the result is a structural prefix of the original value that keeps every container the
 prefix had closed.
 */
module JsonRepair {
  import opened Basics
  import opened JsonSyntax
  import opened JsonScanning

  const FRESH := Tracker(Code, "", None)

  const CONTENT_NAME: Codes := [0x63, 0x6F, 0x6E, 0x74, 0x65, 0x6E, 0x74]

  /** `text.find("{")`, or -1. */
  function FindBrace(text: string): (r: int)
    ensures -1 <= r < |text|
  {
    if text == [] then -1
    else if text[0] == '{' then 0
    else
      var r := FindBrace(text[1..]);
      if r < 0 then -1 else r + 1
  }

  /** `s.strip()` is not empty. */
  predicate NotBlank(codes: Codes) {
    exists i | 0 <= i < |codes| :: !PySpace(codes[i])
  }

  /** Only an object whose `content` is a string with some text in it is worth keeping. */
  predicate Usable(v: Json) {
    && v.Coll? && v.kind.Object?
    && var c := Lookup(v, CONTENT_NAME);
       c.Some? && c.value.Str? && NotBlank(c.value.codes)
  }

  function Accept(candidate: string): Option<Json> {
    match Loads(candidate, false)
    case None => None
    case Some(v) => if Usable(v) then Some(v) else None
  }

  /** Where the repair of `text` cuts, and the text it then reads; `None` when it gives up first. */
  function Candidate(text: string): Option<string> {
    var start := FindBrace(text);
    if start < 0 then None
    else
      match TrackAll(FRESH, start, text[start..])
      case None => None
      case Some(t) => CutAndClose(text, start, t)
  }

  function CutAndClose(text: string, start: nat, t: Tracker): Option<string>
    requires start <= |text| && (t.best.Some? ==> start <= t.best.value.cut < |text|)
  {
    if t.stack == [] || t.best.None? then None
    else Some(text[start..t.best.value.cut + 1] + Reverse(t.best.value.open))
  }

  function Repair(text: string): Option<Json> {
    match Candidate(text)
    case None => None
    case Some(c) => Accept(c)
  }

  // ---------------------------------------------------------------- the loop

  method FindBraceIndex(text: string) returns (start: int)
    ensures start == FindBrace(text)
  {
    start := 0;
    while start < |text| && text[start] != '{'
      invariant 0 <= start <= |text|
      invariant FindBrace(text) == if FindBrace(text[start..]) < 0 then -1 else start + FindBrace(text[start..])
    {
      assert text[start..][1..] == text[start + 1..];
      start := start + 1;
    }
    if start == |text| {
      start := -1;
    }
  }

  method RepairTruncatedJson(text: string) returns (data: Option<Json>)
    ensures data == Repair(text)
  {
    var start := FindBraceIndex(text);
    if start < 0 {
      return None;
    }
    var stack: string := [];
    var inString, escaped := false, false;
    var best: Option<Best> := None;
    ghost var all := TrackFrom(FRESH, start, text);
    var i := start;
    while i < |text|
      invariant start <= i <= |text|
      invariant escaped ==> inString
      invariant best.Some? ==> start <= best.value.cut < |text|
      invariant TrackFrom(Tracker(ModeOf(inString, escaped), stack, best), i, text) == all
    {
      var ch := text[i];
      if inString {
        if escaped {
          escaped := false;
        } else if ch == '\\' {
          escaped := true;
        } else if ch == '"' {
          inString := false;
        }
        i := i + 1;
        continue;
      }
      if ch == '"' {
        inString := true;
      } else if ch == '{' || ch == '[' {
        stack := stack + [if ch == '{' then '}' else ']'];
      } else if ch == '}' || ch == ']' {
        if stack == [] {
          NotTracked(text, start);
          return None;
        }
        stack := stack[..|stack| - 1];
        if stack != [] {
          best := Some(Best(i, stack));
        }
      }
      i := i + 1;
    }
    RepairEnds(text, start, Tracker(ModeOf(inString, escaped), stack, best));
    if stack == [] || best.None? {
      return None;
    }
    var candidate := text[start..best.value.cut + 1] + Reverse(best.value.open);
    var loaded := Loads(candidate, false);
    if loaded.Some? && Usable(loaded.value) {
      return loaded;
    }
    return None;
  }

  /** The tracker after the rest of the text. */
  function TrackFrom(t: Tracker, i: nat, text: string): Option<Tracker>
    decreases |text| - i
  {
    if i >= |text| then Some(t)
    else match Track(t, i, text[i])
      case None => None
      case Some(next) => TrackFrom(next, i + 1, text)
  }

  lemma {:induction false} TrackFromIs(t: Tracker, i: nat, text: string)
    requires i <= |text|
    ensures TrackFrom(t, i, text) == TrackAll(t, i, text[i..])
    decreases |text| - i
  {
    if i < |text| {
      assert text[i..][1..] == text[i + 1..];
      var next := Track(t, i, text[i]);
      if next.Some? {
        TrackFromIs(next.value, i + 1, text);
      }
    }
  }

  lemma RepairEnds(text: string, start: nat, t: Tracker)
    requires start < |text| && FindBrace(text) == start && TrackFrom(FRESH, start, text) == Some(t)
    requires t.best.Some? ==> start <= t.best.value.cut < |text|
    ensures Repair(text) == if CutAndClose(text, start, t).None? then None else Accept(CutAndClose(text, start, t).value)
  {
    TrackFromIs(FRESH, start, text);
  }

  lemma NotTracked(text: string, start: nat)
    requires start < |text| && FindBrace(text) == start && TrackFrom(FRESH, start, text) == None
    ensures Repair(text) == None
  {
    TrackFromIs(FRESH, start, text);
  }

  function ModeOf(inString: bool, escaped: bool): Mode {
    if !inString then Code else if escaped then Escaped else InString
  }

  // ---------------------------------------------------------------- structural prefixes

  /** `d` is `v` with a tail of entries dropped, and the same again inside its last entry. */
  ghost predicate StructuralPrefix(d: Json, v: Json)
    decreases d
  {
    d == v || (d.Coll? && v.Coll? && d.kind == v.kind && EntriesPrefix(d.entries, v.entries))
  }

  ghost predicate EntriesPrefix(d: Entries, v: Entries)
    decreases d
  {
    && d.Cons? && v.Cons? && d.key == v.key
    && ((d.tail.Nil? && StructuralPrefix(d.value, v.value)) || (d.value == v.value && EntriesPrefix(d.tail, v.tail)))
  }

  /** The containers of a value in the order in which their closing brackets are written. */
  ghost function Containers(v: Json): seq<Json>
    decreases v
  {
    if v.Coll? then EntryContainers(v.entries) + [v] else []
  }

  ghost function EntryContainers(entries: Entries): seq<Json>
    decreases entries
  {
    match entries
    case Nil => []
    case Cons(_, value, tail) => Containers(value) + EntryContainers(tail)
  }

  /** The containers that are closed within the first `n` characters of the items' text. */
  ghost function ClosedIn(items: Items, n: int): seq<Json>
    decreases items
  {
    match items
    case End(_) => []
    case Item(tag, node, post, tail) =>
      var a := n - |LabelText(tag)|;
      ClosedBy(node, a) + ClosedIn(tail, a - |Text(node)| - |post| - 1)
  }

  ghost function ClosedBy(n: Node, a: int): seq<Json>
    decreases n
  {
    if n.Box? then ClosedIn(n.items, a - 1) + (if a >= |Text(n)| then [Value(n)] else []) else []
  }

  /** The items cut after the last container closed within their first `n` characters. */
  function CutItems(items: Items, n: int): (r: Option<Items>)
    ensures r.Some? ==> r.value.Item?
  {
    match items
    case End(_) => None
    case Item(tag, node, post, tail) =>
      var a := n - |LabelText(tag)|;
      var later := CutItems(tail, a - |Text(node)| - |post| - 1);
      if later.Some? then Some(Item(tag, node, post, later.value))
      else if !node.Box? then None
      else if a >= |Text(node)| then Some(Item(tag, node, "", End("")))
      else
        match CutItems(node.items, a - 1)
        case None => None
        case Some(inner) => Some(Item(tag, Box(node.kind, inner), "", End("")))
  }

  lemma {:induction false} CutIsGood(kind: Kind, items: Items, n: int)
    requires GoodItems(kind, items) && CutItems(items, n).Some?
    ensures GoodItems(kind, CutItems(items, n).value)
    decreases items
  {
    var node, tail := items.node, items.tail;
    var a := n - |LabelText(items.tag)|;
    if CutItems(tail, a - |Text(node)| - |items.post| - 1).Some? {
      CutIsGood(kind, tail, a - |Text(node)| - |items.post| - 1);
    } else if a < |Text(node)| {
      CutIsGood(node.kind, node.items, a - 1);
    }
  }

  lemma {:induction false} CutIsPrefix(items: Items, n: int)
    requires CutItems(items, n).Some?
    ensures EntriesPrefix(Values(CutItems(items, n).value), Values(items))
    decreases items
  {
    var node, tail := items.node, items.tail;
    var a := n - |LabelText(items.tag)|;
    if CutItems(tail, a - |Text(node)| - |items.post| - 1).Some? {
      CutIsPrefix(tail, a - |Text(node)| - |items.post| - 1);
    } else if a < |Text(node)| {
      CutIsPrefix(node.items, a - 1);
    }
  }

  lemma {:induction false} NothingClosed(items: Items, n: int)
    requires n <= 0
    ensures ClosedIn(items, n) == [] && CutItems(items, n).None?
    decreases items
  {
    if items.Item? {
      var a := n - |LabelText(items.tag)|;
      NothingClosed(items.tail, a - |Text(items.node)| - |items.post| - 1);
      if items.node.Box? {
        NothingClosed(items.node.items, a - 1);
      }
    }
  }

  lemma {:induction false} AllClosed(items: Items, n: int)
    requires n >= |ItemsText(items)|
    ensures ClosedIn(items, n) == EntryContainers(Values(items))
    decreases items
  {
    if items.Item? {
      var a := n - |LabelText(items.tag)|;
      if items.tail.Item? {
        AllClosed(items.tail, a - |Text(items.node)| - |items.post| - 1);
      }
      if items.node.Box? {
        AllClosed(items.node.items, a - 1);
      }
    }
  }

  lemma WholeClosed(node: Node, a: int)
    requires a >= |Text(node)|
    ensures ClosedBy(node, a) == Containers(Value(node))
  {
    if node.Box? {
      AllClosed(node.items, a - 1);
    }
  }

  /** Nothing that had closed is lost, and it comes first, in the same order. */
  lemma {:induction false} CutKeepsClosed(items: Items, n: int)
    ensures match CutItems(items, n)
            case None => ClosedIn(items, n) == []
            case Some(c) => ClosedIn(items, n) <= EntryContainers(Values(c))
    decreases items
  {
    if items.Item? {
      var a := n - |LabelText(items.tag)|;
      var m := a - |Text(items.node)| - |items.post| - 1;
      CutKeepsClosed(items.tail, m);
      if CutItems(items.tail, m).None? {
        if a >= |Text(items.node)| {
          WholeClosed(items.node, a);
        } else if items.node.Box? {
          CutKeepsClosed(items.node.items, a - 1);
        }
        CutKeepsValue(items, n, a, m);
      } else {
        CutKeepsTail(items, n, a, m);
      }
    }
  }

  /** The cut lies in a later item; this one is whole. */
  lemma CutKeepsTail(items: Items, n: int, a: int, m: int)
    requires items.Item? && a == n - |LabelText(items.tag)| && m == a - |Text(items.node)| - |items.post| - 1
    requires CutItems(items.tail, m).Some? && ClosedIn(items.tail, m) <= EntryContainers(Values(CutItems(items.tail, m).value))
    ensures CutItems(items, n).Some? && ClosedIn(items, n) <= EntryContainers(Values(CutItems(items, n).value))
  {
    if m <= 0 {
      NothingClosed(items.tail, m);
    }
    WholeClosed(items.node, a);
    var c := CutItems(items.tail, m).value;
    assert CutItems(items, n) == Some(items.(tail := c));
    LongerPrefix(Containers(Value(items.node)), ClosedIn(items.tail, m), EntryContainers(Values(c)));
  }

  lemma LongerPrefix<T>(a: seq<T>, b: seq<T>, c: seq<T>)
    requires b <= c
    ensures a + b <= a + c
  {
  }

  /** The same where no container of the later items has closed. */
  lemma CutKeepsValue(items: Items, n: int, a: int, m: int)
    requires items.Item? && a == n - |LabelText(items.tag)| && m == a - |Text(items.node)| - |items.post| - 1
    requires CutItems(items.tail, m).None? && ClosedIn(items.tail, m) == []
    requires a >= |Text(items.node)| ==> ClosedBy(items.node, a) == Containers(Value(items.node))
    requires a < |Text(items.node)| && items.node.Box? ==>
             match CutItems(items.node.items, a - 1)
             case None => ClosedIn(items.node.items, a - 1) == []
             case Some(c) => ClosedIn(items.node.items, a - 1) <= EntryContainers(Values(c))
    ensures match CutItems(items, n)
            case None => ClosedIn(items, n) == []
            case Some(c) => ClosedIn(items, n) <= EntryContainers(Values(c))
  {
    assert ClosedIn(items, n) == ClosedBy(items.node, a);
  }

  // ---------------------------------------------------------------- what the loop finds

  /** The tracker has seen the first `n` characters of `items` inside the containers `t.stack`. */
  ghost predicate FoundCut(items: Items, t: Tracker, base: nat, n: nat, r: Option<Tracker>)
    requires n <= |ItemsText(items)|
  {
    FoundAs(items, t, base, n, r, CutItems(items, n))
  }

  ghost predicate FoundAs(items: Items, t: Tracker, base: nat, n: nat, r: Option<Tracker>, cut: Option<Items>)
    requires n <= |ItemsText(items)|
  {
    && r.Some? && t.stack <= r.value.stack
    && match cut
       case None => r.value.best == t.best
       case Some(c) => r.value.best.Some? && CutText(items, t.stack, base, n, r.value.best.value, c)
  }

  ghost predicate CutText(items: Items, stack: string, base: nat, n: nat, b: Best, c: Items)
    requires n <= |ItemsText(items)|
  {
    && base <= b.cut < base + n && stack <= b.open
    && ItemsText(items)[..b.cut + 1 - base] + Reverse(b.open[|stack|..]) == ItemsText(c)
  }

  lemma {:induction false} TrackPrefix(kind: Kind, items: Items, t: Tracker, base: nat, n: nat)
    requires GoodItems(kind, items) && t.mode.Code? && t.stack != []
    requires n <= |ItemsText(items)|
    ensures FoundCut(items, t, base, n, TrackAll(t, base, ItemsText(items)[..n]))
    decreases items, 0
  {
    if items.End? {
      SkimPlainText(items.ws[..n]);
      SkimTrack(t, base, items.ws[..n]);
    } else {
      var l, v := LabelText(items.tag), Text(items.node);
      var a, m := n - |l|, n - |l| - |v| - |items.post| - 1;
      if a <= 0 || (a < |v| && !items.node.Box?) {
        TrackIntoLabel(kind, items, t, base, n);
      } else if a < |v| {
        TrackPrefixBox(kind, items, t, base, n);
      } else if m <= 0 {
        TrackIntoPost(kind, items, t, base, n);
        NothingClosed(items.tail, m);
        CutAtValue(items, t, base, n);
      } else {
        TrackPrefixTail(kind, items, t, base, n, m);
      }
    }
  }

  lemma {:induction false} TrackPrefixBox(kind: Kind, items: Items, t: Tracker, base: nat, n: nat)
    requires GoodItems(kind, items) && items.Item? && items.node.Box? && t.mode.Code? && t.stack != []
    requires |LabelText(items.tag)| < n < |LabelText(items.tag)| + |Text(items.node)| && n <= |ItemsText(items)|
    ensures FoundCut(items, t, base, n, TrackAll(t, base, ItemsText(items)[..n]))
    decreases items, -1
  {
    var a := n - |LabelText(items.tag)|;
    var t1 := t.(stack := t.stack + [Closer(items.node.kind)]);
    TrackIntoBox(kind, items, t, base, n);
    TrackPrefix(items.node.kind, items.node.items, t1, base + |LabelText(items.tag)| + 1, a - 1);
    LiftInner(items, t, t1, base, n, TrackAll(t, base, ItemsText(items)[..n]));
  }

  lemma {:induction false} TrackPrefixTail(kind: Kind, items: Items, t: Tracker, base: nat, n: nat, m: nat)
    requires GoodItems(kind, items) && items.Item? && t.mode.Code? && t.stack != [] && n <= |ItemsText(items)|
    requires 0 < m == n - |LabelText(items.tag)| - |Text(items.node)| - |items.post| - 1
    ensures FoundCut(items, t, base, n, TrackAll(t, base, ItemsText(items)[..n]))
    decreases items, -1
  {
    var r := TrackAll(t, base, ItemsText(items)[..n]);
    assert r == TrackAll(AfterValue(items, t, base), base + (n - m), ItemsText(items.tail)[..m]) by {
      TrackIntoTail(kind, items, t, base, n, m);
    }
    assert FoundCut(items.tail, AfterValue(items, t, base), base + (n - m), m, r) by {
      TrackPrefix(kind, items.tail, AfterValue(items, t, base), base + (n - m), m);
    }
    LiftTail(items, t, base, n, m, r);
  }

  /** The tracker once the item's value has been read. */
  function AfterValue(items: Items, t: Tracker, base: nat): Tracker
    requires items.Item?
  {
    if items.node.Box? then t.(best := Some(Best(base + |LabelText(items.tag)| + |Text(items.node)| - 1, t.stack))) else t
  }

  /** Nothing can close inside a label, a string or a number. */
  lemma TrackIntoLabel(kind: Kind, items: Items, t: Tracker, base: nat, n: nat)
    requires GoodItems(kind, items) && items.Item? && t.mode.Code? && t.stack != [] && n <= |ItemsText(items)|
    requires n <= |LabelText(items.tag)| || (!items.node.Box? && n < |LabelText(items.tag)| + |Text(items.node)|)
    ensures CutItems(items, n).None?
    ensures var r := TrackAll(t, base, ItemsText(items)[..n]); r.Some? && r.value.stack == t.stack && r.value.best == t.best
  {
    var l, v := LabelText(items.tag), Text(items.node);
    CutIntoLabel(items, n);
    ItemPrefix(items, n);
    SkimLabel(kind, items.tag);
    if n <= |l| {
      SkimPrefix(Code, l, n);
      SkimTrack(t, base, l[..n]);
    } else {
      SkimLeaf(items.node);
      SkimJoin(Code, l, v);
      SkimPrefix(Code, l + v, n);
      assert (l + v)[..n] == l + v[..n - |l|];
      SkimTrack(t, base, l + v[..n - |l|]);
    }
  }

  lemma CutIntoLabel(items: Items, n: nat)
    requires items.Item?
    requires n <= |LabelText(items.tag)| || (!items.node.Box? && n < |LabelText(items.tag)| + |Text(items.node)|)
    ensures CutItems(items, n).None?
  {
    var a := n - |LabelText(items.tag)|;
    NothingClosed(items.tail, a - |Text(items.node)| - |items.post| - 1);
    if items.node.Box? {
      NothingClosed(items.node.items, a - 1);
    }
  }

  lemma TrackIntoBox(kind: Kind, items: Items, t: Tracker, base: nat, n: nat)
    requires GoodItems(kind, items) && items.Item? && items.node.Box? && t.mode.Code? && t.stack != []
    requires |LabelText(items.tag)| < n < |LabelText(items.tag)| + |Text(items.node)| && n <= |ItemsText(items)|
    ensures var a := n - |LabelText(items.tag)|;
            && a - 1 <= |ItemsText(items.node.items)|
            && TrackAll(t, base, ItemsText(items)[..n]) ==
               TrackAll(t.(stack := t.stack + [Closer(items.node.kind)]), base + |LabelText(items.tag)| + 1, ItemsText(items.node.items)[..a - 1])
  {
    var l, v := LabelText(items.tag), Text(items.node);
    var a := n - |l|;
    ItemPrefix(items, n);
    TrackItemHead(kind, items, t, base);
    BoxPrefix(items.node, a);
    TrackOpening(t, base, l, items.node.kind, ItemsText(items.node.items)[..a - 1]);
  }

  lemma TrackOpening(t: Tracker, base: nat, head: string, kind: Kind, x: string)
    requires t.mode.Code? && TrackAll(t, base, head) == Some(t)
    ensures TrackAll(t, base, head + ([Opener(kind)] + x)) == TrackAll(t.(stack := t.stack + [Closer(kind)]), base + |head| + 1, x)
  {
    TrackJoin(t, base, head, [Opener(kind)] + x);
    TrackChar(t, base + |head|, Opener(kind));
    TrackJoin(t, base + |head|, [Opener(kind)], x);
  }

  lemma TrackIntoPost(kind: Kind, items: Items, t: Tracker, base: nat, n: nat)
    requires GoodItems(kind, items) && items.Item? && t.mode.Code? && t.stack != [] && n <= |ItemsText(items)|
    requires |LabelText(items.tag)| + |Text(items.node)| <= n <= |LabelText(items.tag)| + |Text(items.node)| + |items.post| + 1
    ensures TrackAll(t, base, ItemsText(items)[..n]) == Some(AfterValue(items, t, base))
  {
    var h := LabelText(items.tag) + Text(items.node);
    var part := (items.post + TailText(items.tail))[..n - |h|];
    ItemPrefix(items, n);
    PostIsPlain(items, n - |h|);
    TrackPastPost(kind, items, t, base, part);
  }

  lemma PostIsPlain(items: Items, j: nat)
    requires items.Item? && Blank(items.post) && j <= |items.post| + 1 && j <= |items.post + TailText(items.tail)|
    ensures Skim(Code, (items.post + TailText(items.tail))[..j]) == Some(Code)
  {
    SkimPlainText((items.post + TailText(items.tail))[..j]);
  }

  lemma TrackPastPost(kind: Kind, items: Items, t: Tracker, base: nat, part: string)
    requires GoodItems(kind, items) && items.Item? && t.mode.Code? && t.stack != [] && Skim(Code, part) == Some(Code)
    ensures TrackAll(t, base, (LabelText(items.tag) + Text(items.node)) + part) == Some(AfterValue(items, t, base))
  {
    var h := LabelText(items.tag) + Text(items.node);
    TrackItemHead(kind, items, t, base);
    TrackJoin(t, base, h, part);
    SkimTrack(AfterValue(items, t, base), base + |h|, part);
  }

  lemma TrackIntoTail(kind: Kind, items: Items, t: Tracker, base: nat, n: nat, m: nat)
    requires GoodItems(kind, items) && items.Item? && t.mode.Code? && t.stack != [] && n <= |ItemsText(items)|
    requires 0 < m == n - |LabelText(items.tag)| - |Text(items.node)| - |items.post| - 1
    ensures items.tail.Item? && m <= |ItemsText(items.tail)|
    ensures TrackAll(t, base, ItemsText(items)[..n]) == TrackAll(AfterValue(items, t, base), base + (n - m), ItemsText(items.tail)[..m])
  {
    PrefixIntoTail(items, n, m);
    TrackPastGap(kind, items, t, base, items.post + ",", ItemsText(items.tail)[..m]);
  }

  lemma PrefixIntoTail(items: Items, n: nat, m: nat)
    requires items.Item? && n <= |ItemsText(items)|
    requires 0 < m == n - |LabelText(items.tag)| - |Text(items.node)| - |items.post| - 1
    ensures items.tail.Item? && m <= |ItemsText(items.tail)|
    ensures ItemsText(items)[..n] == (LabelText(items.tag) + Text(items.node)) + ((items.post + ",") + ItemsText(items.tail)[..m])
  {
    ItemPrefix(items, n);
    RestPrefix(items.post, items.tail, n - |LabelText(items.tag) + Text(items.node)|);
  }

  lemma TrackPastGap(kind: Kind, items: Items, t: Tracker, base: nat, gap: string, x: string)
    requires GoodItems(kind, items) && items.Item? && t.mode.Code? && t.stack != []
    requires gap == items.post || gap == items.post + ","
    ensures var h := LabelText(items.tag) + Text(items.node);
            TrackAll(t, base, h + (gap + x)) == TrackAll(AfterValue(items, t, base), base + |h| + |gap|, x)
  {
    var h, t1 := LabelText(items.tag) + Text(items.node), AfterValue(items, t, base);
    TrackItemHead(kind, items, t, base);
    HeadThenGap(t, t1, base, h, gap, x);
  }

  lemma HeadThenGap(t: Tracker, after: Tracker, base: nat, head: string, gap: string, x: string)
    requires TrackAll(t, base, head) == Some(after) && after.mode.Code?
    requires forall i | 0 <= i < |gap| :: JsonSpace(gap[i]) || gap[i] == ','
    ensures TrackAll(t, base, head + (gap + x)) == TrackAll(after, base + |head| + |gap|, x)
  {
    TrackQuiet(after, base + |head|, gap, x);
    TrackJoin(t, base, head, gap + x);
  }

  lemma TrackQuiet(t: Tracker, base: nat, gap: string, x: string)
    requires t.mode.Code? && forall i | 0 <= i < |gap| :: JsonSpace(gap[i]) || gap[i] == ','
    ensures TrackAll(t, base, gap + x) == TrackAll(t, base + |gap|, x)
  {
    SkimPlainText(gap);
    SkimTrack(t, base, gap);
    TrackJoin(t, base, gap, x);
  }

  /** The value has just closed and nothing closed after it. */
  lemma CutAtValue(items: Items, t: Tracker, base: nat, n: nat)
    requires items.Item? && n <= |ItemsText(items)| && |LabelText(items.tag)| + |Text(items.node)| <= n
    requires CutItems(items.tail, n - |LabelText(items.tag)| - |Text(items.node)| - |items.post| - 1).None?
    ensures items.node.Box? ==>
              && CutItems(items, n).Some?
              && CutText(items, t.stack, base, n, Best(base + |LabelText(items.tag)| + |Text(items.node)| - 1, t.stack), CutItems(items, n).value)
    ensures !items.node.Box? ==> CutItems(items, n).None?
  {
    var l, v := LabelText(items.tag), Text(items.node);
    assert ItemsText(items) == l + v + (items.post + TailText(items.tail));
    if items.node.Box? {
      assert t.stack[|t.stack|..] == [];
      assert ItemsText(items)[..|l| + |v|] == l + v;
      assert ItemsText(CutItems(items, n).value) == l + v;
    }
  }

  /** A cut inside the item's value is a cut of the items. */
  lemma LiftInner(items: Items, t: Tracker, t1: Tracker, base: nat, n: nat, r: Option<Tracker>)
    requires items.Item? && items.node.Box? && n <= |ItemsText(items)|
    requires |LabelText(items.tag)| < n < |LabelText(items.tag)| + |Text(items.node)|
    requires t1 == t.(stack := t.stack + [Closer(items.node.kind)])
    requires var m := n - |LabelText(items.tag)| - 1;
             m <= |ItemsText(items.node.items)| && FoundCut(items.node.items, t1, base + |LabelText(items.tag)| + 1, m, r)
    ensures FoundCut(items, t, base, n, r)
  {
    CutInside(items, n);
    LiftFound(items, t, t1, base, n, r, CutItems(items.node.items, n - |LabelText(items.tag)| - 1));
  }

  lemma LiftFound(items: Items, t: Tracker, t1: Tracker, base: nat, n: nat, r: Option<Tracker>, inner: Option<Items>)
    requires items.Item? && items.node.Box? && n <= |ItemsText(items)|
    requires |LabelText(items.tag)| < n < |LabelText(items.tag)| + |Text(items.node)|
    requires t1 == t.(stack := t.stack + [Closer(items.node.kind)])
    requires var m := n - |LabelText(items.tag)| - 1;
             m <= |ItemsText(items.node.items)| && FoundAs(items.node.items, t1, base + |LabelText(items.tag)| + 1, m, r, inner)
    ensures FoundAs(items, t, base, n, r, if inner.None? then None else Some(Item(items.tag, Box(items.node.kind, inner.value), "", End(""))))
  {
    StackBelow(r.value.stack, t.stack, Closer(items.node.kind));
    if inner.Some? {
      LiftCutText(items, t.stack, base, n, r.value.best.value, inner.value);
    }
  }

  lemma StackBelow(open: string, stack: string, c: char)
    requires stack + [c] <= open
    ensures stack <= open
  {
  }

  lemma LiftCutText(items: Items, stack: string, base: nat, n: nat, b: Best, inner: Items)
    requires items.Item? && items.node.Box? && n <= |ItemsText(items)|
    requires |LabelText(items.tag)| < n < |LabelText(items.tag)| + |Text(items.node)|
    requires n - |LabelText(items.tag)| - 1 <= |ItemsText(items.node.items)|
    requires CutText(items.node.items, stack + [Closer(items.node.kind)], base + |LabelText(items.tag)| + 1,
                     n - |LabelText(items.tag)| - 1, b, inner)
    ensures CutText(items, stack, base, n, b, Item(items.tag, Box(items.node.kind, inner), "", End("")))
  {
    var k := b.cut - base - |LabelText(items.tag)|;
    OwedPlusOne(b.open, stack, Closer(items.node.kind));
    CutInnerText(items, k, inner, Reverse(b.open[|stack| + 1..]));
  }

  lemma CutInside(items: Items, n: nat)
    requires items.Item? && items.node.Box? && n < |LabelText(items.tag)| + |Text(items.node)|
    ensures CutItems(items, n) ==
            match CutItems(items.node.items, n - |LabelText(items.tag)| - 1)
            case None => None
            case Some(c) => Some(Item(items.tag, Box(items.node.kind, c), "", End("")))
  {
    NothingClosed(items.tail, n - |LabelText(items.tag)| - |Text(items.node)| - |items.post| - 1);
  }

  lemma InnerSlice(items: Items, k: nat)
    requires items.Item? && items.node.Box? && k <= |ItemsText(items.node.items)|
    requires |LabelText(items.tag)| + 1 + k <= |ItemsText(items)|
    ensures ItemsText(items)[..|LabelText(items.tag)| + 1 + k] ==
            LabelText(items.tag) + ([Opener(items.node.kind)] + ItemsText(items.node.items)[..k])
  {
    ItemPrefix(items, |LabelText(items.tag)| + 1 + k);
    BoxPrefix(items.node, k + 1);
  }

  lemma CutInnerText(items: Items, k: nat, inner: Items, owed: string)
    requires items.Item? && items.node.Box? && k <= |ItemsText(items.node.items)|
    requires |LabelText(items.tag)| + 1 + k <= |ItemsText(items)|
    requires ItemsText(items.node.items)[..k] + owed == ItemsText(inner)
    ensures ItemsText(items)[..|LabelText(items.tag)| + 1 + k] + (owed + [Closer(items.node.kind)]) ==
            ItemsText(Item(items.tag, Box(items.node.kind, inner), "", End("")))
  {
    var kind := items.node.kind;
    InnerSlice(items, k);
    Rebracket(LabelText(items.tag), Opener(kind), ItemsText(items.node.items)[..k], owed, Closer(kind));
    assert Text(Box(kind, inner)) == [Opener(kind)] + ItemsText(inner) + [Closer(kind)];
  }

  lemma Rebracket(l: string, o: char, y: string, owed: string, c: char)
    ensures (l + ([o] + y)) + (owed + [c]) == l + ([o] + (y + owed) + [c])
  {
  }

  lemma OwedPlusOne(open: string, stack: string, c: char)
    requires stack + [c] <= open
    ensures stack <= open
    ensures Reverse(open[|stack|..]) == Reverse(open[|stack| + 1..]) + [c]
  {
    assert open[|stack|] == c;
    assert open[|stack|..] == [c] + open[|stack| + 1..];
  }

  /** A cut in the later items is a cut of the items; else the item's own value decides. */
  lemma LiftTail(items: Items, t: Tracker, base: nat, n: nat, m: nat, r: Option<Tracker>)
    requires items.Item? && items.tail.Item? && n <= |ItemsText(items)|
    requires m == n - |LabelText(items.tag)| - |Text(items.node)| - |items.post| - 1
    requires m <= |ItemsText(items.tail)| && FoundCut(items.tail, AfterValue(items, t, base), base + (n - m), m, r)
    ensures FoundCut(items, t, base, n, r)
  {
    match CutItems(items.tail, m)
    case None =>
      CutAtValue(items, t, base, n);
    case Some(c) =>
      LiftLaterText(items, t.stack, base, n, m, r.value.best.value, c);
  }

  lemma LiftLaterText(items: Items, stack: string, base: nat, n: nat, m: nat, b: Best, c: Items)
    requires items.Item? && items.tail.Item? && c.Item? && n <= |ItemsText(items)|
    requires m == n - |LabelText(items.tag)| - |Text(items.node)| - |items.post| - 1
    requires m <= |ItemsText(items.tail)| && CutText(items.tail, stack, base + (n - m), m, b, c)
    ensures CutText(items, stack, base, n, b, items.(tail := c))
  {
    var h := LabelText(items.tag) + Text(items.node) + items.post + ",";
    TailText2(items);
    TailText2(items.(tail := c));
    TakePastThen(h, ItemsText(items.tail), b.cut + 1 - base - (n - m), Reverse(b.open[|stack|..]));
  }

  lemma TakePastThen(h: string, x: string, k: nat, owed: string)
    requires k <= |x|
    ensures (h + x)[..|h| + k] + owed == h + (x[..k] + owed)
  {
    TakePast(h, x, k);
    Assoc(h, x[..k], owed);
  }

  lemma TailText2(items: Items)
    requires items.Item? && items.tail.Item?
    ensures ItemsText(items) == (LabelText(items.tag) + Text(items.node) + items.post + ",") + ItemsText(items.tail)
  {
  }

  lemma TakePast(h: string, x: string, k: nat)
    requires k <= |x|
    ensures (h + x)[..|h| + k] == h + x[..k]
  {
  }

  // ---------------------------------------------------------------- the theorems

  lemma {:induction false} FindBraceAfter(pre: string, rest: string)
    requires '{' !in pre && rest != [] && rest[0] == '{'
    ensures FindBrace(pre + rest) == |pre|
  {
    if pre == [] {
      assert pre + rest == rest;
    } else {
      assert (pre + rest)[1..] == pre[1..] + rest;
      FindBraceAfter(pre[1..], rest);
    }
  }

  lemma {:induction false} FindBraceNone(pre: string)
    requires '{' !in pre
    ensures FindBrace(pre) == -1
  {
    if pre != [] {
      FindBraceNone(pre[1..]);
    }
  }

  /** The value of what the cut leaves, if it is worth keeping. */
  function Salvaged(cut: Option<Node>): Option<Json> {
    if cut.Some? && Usable(Value(cut.value)) then Some(Value(cut.value)) else None
  }

  /** The tree the repair reads when only the first `n` characters of an object arrived. */
  function CutDocument(items: Items, n: nat): Option<Node> {
    match CutItems(items, n - 1)
    case None => None
    case Some(c) => Some(Box(Object, c))
  }

  /** The loop's cut is the structural cut, whatever precedes the object's first brace. */
  lemma {:induction false} CandidateOfPrefix(pre: string, items: Items, n: nat)
    requires '{' !in pre && GoodItems(Object, items)
    requires n < |Text(Box(Object, items))|
    ensures Candidate(pre + Text(Box(Object, items))[..n]) ==
            match CutDocument(items, n)
            case None => None
            case Some(c) => Some(Text(c))
  {
    var doc := Box(Object, items);
    if n == 0 {
      NothingClosed(items, -1);
      assert pre + Text(doc)[..n] == pre;
      FindBraceNone(pre);
    } else {
      BoxPrefix(doc, n);
      TrackPrefix(Object, items, Tracker(Code, ['}'], None), |pre| + 1, n - 1);
      CandidateAfterBrace(pre, items, n);
    }
  }

  lemma CandidateAfterBrace(pre: string, items: Items, n: nat)
    requires '{' !in pre && 0 < n && n - 1 <= |ItemsText(items)|
    requires FoundCut(items, Tracker(Code, ['}'], None), |pre| + 1, n - 1,
                      TrackAll(Tracker(Code, ['}'], None), |pre| + 1, ItemsText(items)[..n - 1]))
    ensures Candidate(pre + (['{'] + ItemsText(items)[..n - 1])) ==
            match CutDocument(items, n)
            case None => None
            case Some(c) => Some(Text(c))
  {
    var p := ['{'] + ItemsText(items)[..n - 1];
    FindBraceAfter(pre, p);
    TakeDrop(pre, p);
    TrackDocument(items, |pre|, n);
    CutAndCloseDocument(pre, items, n, TrackAll(FRESH, |pre|, p).value);
  }

  lemma CutAndCloseDocument(pre: string, items: Items, n: nat, t: Tracker)
    requires 0 < n && n - 1 <= |ItemsText(items)|
    requires FoundCut(items, Tracker(Code, ['}'], None), |pre| + 1, n - 1, Some(t))
    ensures t.best.Some? ==> |pre| <= t.best.value.cut < |pre| + n
    ensures CutAndClose(pre + (['{'] + ItemsText(items)[..n - 1]), |pre|, t) ==
            match CutDocument(items, n)
            case None => None
            case Some(c) => Some(Text(c))
  {
    if CutItems(items, n - 1).Some? {
      var b := t.best.value;
      var k := b.cut - |pre|;
      DocumentSlice(pre, ItemsText(items), n - 1, k);
      OwedPlusOne(b.open, "", '}');
      assert b.open[0..] == b.open;
      Rebracket("", '{', ItemsText(items)[..k], Reverse(b.open[1..]), '}');
      EmptyLeft(['{'] + ItemsText(CutItems(items, n - 1).value) + ['}']);
    }
  }

  lemma EmptyLeft(s: string)
    ensures "" + s == s
  {
  }

  lemma DocumentSlice(pre: string, x: string, n: nat, k: nat)
    requires k <= n <= |x|
    ensures (pre + (['{'] + x[..n]))[|pre|..|pre| + k + 1] == "" + (['{'] + x[..k])
  {
  }

  lemma TrackDocument(items: Items, base: nat, n: nat)
    requires 0 < n && n - 1 <= |ItemsText(items)|
    ensures TrackAll(FRESH, base, ['{'] + ItemsText(items)[..n - 1]) ==
            TrackAll(Tracker(Code, ['}'], None), base + 1, ItemsText(items)[..n - 1])
  {
    TrackChar(FRESH, base, '{');
    assert "" + ['}'] == ['}'];
    TrackJoin(FRESH, base, ['{'], ItemsText(items)[..n - 1]);
  }

  /** Exactly what comes back for every proper prefix of every object. */
  lemma {:induction false} RepairOfPrefix(pre: string, items: Items, n: nat)
    requires '{' !in pre && GoodItems(Object, items)
    requires n < |Text(Box(Object, items))|
    ensures Repair(pre + Text(Box(Object, items))[..n]) ==
            Salvaged(CutDocument(items, n))
  {
    CandidateOfPrefix(pre, items, n);
    if CutDocument(items, n).Some? {
      CutDocumentLoads(items, n);
    }
  }

  lemma CutDocumentKeeps(items: Items, n: nat)
    requires CutDocument(items, n).Some?
    ensures var d := Value(CutDocument(items, n).value);
            StructuralPrefix(d, Value(Box(Object, items))) && ClosedIn(items, n - 1) <= Containers(d)
  {
    CutIsPrefix(items, n - 1);
    CutKeepsClosed(items, n - 1);
    var c := CutItems(items, n - 1).value;
    assert Containers(Value(Box(Object, c))) == EntryContainers(Values(c)) + [Value(Box(Object, c))];
  }

  lemma CutDocumentLoads(items: Items, n: nat)
    requires GoodItems(Object, items) && CutDocument(items, n).Some?
    ensures Loads(Text(CutDocument(items, n).value), false) == Some(Value(CutDocument(items, n).value))
  {
    CutIsGood(Object, items, n - 1);
    var c := CutDocument(items, n).value;
    ParseDocumentInverts("", c, "");
    assert "" + Text(c) + "" == Text(c);
  }

  /** The salvaged value: what loads from the text of the cut object, a structural prefix, and nothing
      that had closed is lost. */
  lemma {:induction false} RepairKeepsStructure(pre: string, items: Items, n: nat, d: Json)
    requires '{' !in pre && GoodItems(Object, items)
    requires n < |Text(Box(Object, items))|
    requires Repair(pre + Text(Box(Object, items))[..n]) == Some(d)
    ensures CutDocument(items, n).Some? && Loads(Text(CutDocument(items, n).value), false) == Some(d)
    ensures StructuralPrefix(d, Value(Box(Object, items)))
    ensures ClosedIn(items, n - 1) <= Containers(d)
  {
    RepairOfPrefix(pre, items, n);
    CutDocumentLoads(items, n);
    CutDocumentKeeps(items, n);
  }

  /** How many members of this name an object has. */
  function NameCount(entries: Entries, name: Codes): nat {
    match entries
    case Nil => 0
    case Cons(key, _, tail) => (if key == Some(name) then 1 else 0) + NameCount(tail, name)
  }

  /** Some member of this name has exactly this value. */
  predicate HasMember(entries: Entries, name: Codes, value: Json) {
    match entries
    case Nil => false
    case Cons(key, v, tail) => (key == Some(name) && v == value) || HasMember(tail, name, value)
  }

  lemma {:induction false} PrefixMember(d: Entries, v: Entries, name: Codes)
    requires EntriesPrefix(d, v) && LookupIn(d, name).Some? && LookupIn(d, name).value.Str?
    ensures HasMember(v, name, LookupIn(d, name).value)
    ensures NameCount(v, name) <= 1 ==> LookupIn(v, name) == LookupIn(d, name)
    decreases d
  {
    if d.value == v.value && EntriesPrefix(d.tail, v.tail) {
      if LookupIn(d.tail, name).Some? {
        PrefixMember(d.tail, v.tail, name);
      } else {
        NoOtherMember(v.tail, name);
      }
    } else {
      NoOtherMember(v.tail, name);
    }
  }

  function Length(entries: Entries): nat {
    if entries.Nil? then 0 else 1 + Length(entries.tail)
  }

  /** The entries after the first `k`. */
  function Later(entries: Entries, k: nat): Entries {
    if k == 0 || entries.Nil? then entries else Later(entries.tail, k - 1)
  }

  /** Which member of a name the whole object has, given what its structural prefix has. */
  lemma {:induction false} PrefixLookup(d: Entries, v: Entries, name: Codes)
    requires EntriesPrefix(d, v) && LookupIn(d, name).Some? && LookupIn(d, name).value.Str?
    ensures var later := LookupIn(Later(v, Length(d)), name);
            LookupIn(v, name) == if later.Some? then later else LookupIn(d, name)
    decreases d
  {
    if d.value == v.value && EntriesPrefix(d.tail, v.tail) {
      if LookupIn(d.tail, name).Some? {
        PrefixLookup(d.tail, v.tail, name);
      } else {
        PrefixNone(d.tail, v.tail, name);
      }
    } else {
      assert Later(v, 1) == v.tail;
    }
  }

  lemma {:induction false} PrefixNone(d: Entries, v: Entries, name: Codes)
    requires EntriesPrefix(d, v) && LookupIn(d, name).None?
    ensures LookupIn(v, name) == LookupIn(Later(v, Length(d)), name)
    decreases d
  {
    if d.value == v.value && EntriesPrefix(d.tail, v.tail) {
      PrefixNone(d.tail, v.tail, name);
    } else {
      assert Later(v, 1) == v.tail;
    }
  }

  lemma {:induction false} NoOtherMember(v: Entries, name: Codes)
    ensures LookupIn(v, name).Some? <==> NameCount(v, name) > 0
  {
    if v.Cons? {
      NoOtherMember(v.tail, name);
    }
  }

  /** `content` is a whole string of the original, never a cut one; and it is *the* original's
      `content` when the object names it once. */
  lemma {:induction false} RepairKeepsContent(pre: string, items: Items, n: nat, d: Json)
    requires '{' !in pre && GoodItems(Object, items)
    requires n < |Text(Box(Object, items))|
    requires Repair(pre + Text(Box(Object, items))[..n]) == Some(d)
    ensures var content := Lookup(d, CONTENT_NAME);
            && content.Some? && content.value.Str? && NotBlank(content.value.codes)
            && HasMember(Values(items), CONTENT_NAME, content.value)
            && (NameCount(Values(items), CONTENT_NAME) <= 1 ==> Lookup(Value(Box(Object, items)), CONTENT_NAME) == content)
  {
    RepairOfPrefix(pre, items, n);
    CutIsPrefix(items, n - 1);
    PrefixMember(d.entries, Values(items), CONTENT_NAME);
  }

  /** How many members there are up to the last one in which a container has closed within the first
      `n` characters. */
  ghost function MembersKept(items: Items, n: int): nat
    decreases items
  {
    match items
    case End(_) => 0
    case Item(tag, node, post, tail) =>
      var a := n - |LabelText(tag)|;
      var later := MembersKept(tail, a - |Text(node)| - |post| - 1);
      if later > 0 then 1 + later else if ClosedBy(node, a) != [] then 1 else 0
  }

  /** A cut is found exactly where some container has closed. */
  lemma {:induction false} CutIffClosed(items: Items, n: int)
    ensures CutItems(items, n).Some? <==> ClosedIn(items, n) != []
    decreases items
  {
    if items.Item? {
      var a := n - |LabelText(items.tag)|;
      CutIffClosed(items.tail, a - |Text(items.node)| - |items.post| - 1);
      if items.node.Box? {
        CutIffClosed(items.node.items, a - 1);
      }
    }
  }

  /** The cut keeps exactly the members up to that one. */
  lemma {:induction false} CutLength(items: Items, n: int)
    ensures MembersKept(items, n) == if CutItems(items, n).Some? then Length(Values(CutItems(items, n).value)) else 0
    decreases items
  {
    if items.Item? {
      var a := n - |LabelText(items.tag)|;
      CutLength(items.tail, a - |Text(items.node)| - |items.post| - 1);
      if items.node.Box? {
        CutIffClosed(items.node.items, a - 1);
      }
    }
  }

  /** The first `k` entries. */
  function Sooner(entries: Entries, k: nat): Entries {
    if k == 0 || entries.Nil? then Nil else Cons(entries.key, entries.value, Sooner(entries.tail, k - 1))
  }

  /** A string member of a structural prefix is the same member among the original's first entries. */
  lemma {:induction false} PrefixFirst(d: Entries, v: Entries, name: Codes)
    requires EntriesPrefix(d, v)
    ensures LookupIn(d, name).Some? <==> LookupIn(Sooner(v, Length(d)), name).Some?
    ensures LookupIn(d, name).Some? && LookupIn(d, name).value.Str? ==> LookupIn(Sooner(v, Length(d)), name) == LookupIn(d, name)
    decreases d
  {
    if d.value == v.value && EntriesPrefix(d.tail, v.tail) {
      PrefixFirst(d.tail, v.tail, name);
    } else {
      assert Sooner(v, 1) == Cons(v.key, v.value, Nil);
    }
  }

  /** It is the original's `content` exactly when the members after the last one in which a container
      has closed name no `content`, or name last what the members up to it name last. */
  lemma {:induction false} RepairKeepsContentIff(pre: string, items: Items, n: nat, d: Json)
    requires '{' !in pre && GoodItems(Object, items)
    requires n < |Text(Box(Object, items))|
    requires Repair(pre + Text(Box(Object, items))[..n]) == Some(d)
    ensures var k := MembersKept(items, n - 1);
            var kept, dropped := LookupIn(Sooner(Values(items), k), CONTENT_NAME), LookupIn(Later(Values(items), k), CONTENT_NAME);
            && Lookup(d, CONTENT_NAME) == kept
            && (Lookup(d, CONTENT_NAME) == Lookup(Value(Box(Object, items)), CONTENT_NAME) <==> dropped.None? || dropped == kept)
  {
    RepairedPrefix(pre, items, n, d);
    PrefixLookup(d.entries, Values(items), CONTENT_NAME);
    PrefixFirst(d.entries, Values(items), CONTENT_NAME);
  }

  lemma RepairedPrefix(pre: string, items: Items, n: nat, d: Json)
    requires '{' !in pre && GoodItems(Object, items)
    requires n < |Text(Box(Object, items))|
    requires Repair(pre + Text(Box(Object, items))[..n]) == Some(d)
    ensures d.Coll? && d.kind.Object? && EntriesPrefix(d.entries, Values(items)) && Length(d.entries) == MembersKept(items, n - 1)
    ensures var content := LookupIn(d.entries, CONTENT_NAME); content.Some? && content.value.Str?
  {
    RepairOfPrefix(pre, items, n);
    SalvagedPrefix(items, n, d);
  }

  lemma SalvagedPrefix(items: Items, n: nat, d: Json)
    requires Salvaged(CutDocument(items, n)) == Some(d)
    ensures d.Coll? && d.kind.Object? && EntriesPrefix(d.entries, Values(items)) && Length(d.entries) == MembersKept(items, n - 1)
    ensures var content := LookupIn(d.entries, CONTENT_NAME); content.Some? && content.value.Str?
  {
    CutIsPrefix(items, n - 1);
    CutLength(items, n - 1);
    UsableContent(d);
  }

  lemma UsableContent(v: Json)
    requires Usable(v)
    ensures v.Coll? && v.kind.Object? && var content := LookupIn(v.entries, CONTENT_NAME); content.Some? && content.value.Str?
  {
  }

  /** Shaped like `{"content":"a","x":[],"content":"b"}`. */
  ghost predicate NamesContentTwice(items: Items) {
    && GoodItems(Object, items)
    && items.Item? && items.tail.Item? && items.tail.tail.Item? && items.tail.tail.tail.End?
    && items.tag.Keyed? && items.tail.tag.Keyed? && items.tail.tail.tag.Keyed?
    && items.node.Quoted? && items.tail.node.Box? && items.tail.tail.node.Quoted?
    && Decode(items.tag.key) == CONTENT_NAME && Decode(items.tail.tag.key) != CONTENT_NAME
    && Decode(items.tail.tail.tag.key) == CONTENT_NAME
  }

  /** With a repeated name the salvaged `content` is an earlier one than the original's: here, when
      only the last brace is missing, the first instead of the last. */
  lemma RepeatedName(items: Items)
    requires NamesContentTwice(items) && NotBlank(Decode(items.node.body))
    ensures var doc := Box(Object, items);
            var d := Repair(Text(doc)[..|Text(doc)| - 1]);
            && Lookup(Value(doc), CONTENT_NAME) == Some(Str(Decode(items.tail.tail.node.body)))
            && d.Some? && Lookup(d.value, CONTENT_NAME) == Some(Str(Decode(items.node.body)))
  {
    RepeatedLookups(items);
    RepeatedSalvage(items);
  }

  lemma RepeatedSalvage(items: Items)
    requires NamesContentTwice(items) && NotBlank(Decode(items.node.body))
    ensures var doc := Box(Object, items);
            var d := Repair(Text(doc)[..|Text(doc)| - 1]);
            d.Some? && Lookup(d.value, CONTENT_NAME) == Some(Str(Decode(items.node.body)))
  {
    var short := Item(items.tag, items.node, items.post, Item(items.tail.tag, items.tail.node, "", End("")));
    CutThree(items);
    RepeatedLookups(items);
    LastBraceSalvage(items, short, Decode(items.node.body));
  }

  lemma LastBraceSalvage(items: Items, short: Items, codes: Codes)
    requires GoodItems(Object, items) && CutItems(items, |ItemsText(items)|) == Some(short)
    requires LookupIn(Values(short), CONTENT_NAME) == Some(Str(codes)) && NotBlank(codes)
    ensures var doc := Box(Object, items); Repair(Text(doc)[..|Text(doc)| - 1]) == Some(Coll(Object, Values(short)))
  {
    RepairLastBrace(items);
    SalvagedShort(items, short, codes);
  }

  lemma SalvagedShort(items: Items, short: Items, codes: Codes)
    requires CutItems(items, |ItemsText(items)|) == Some(short)
    requires LookupIn(Values(short), CONTENT_NAME) == Some(Str(codes)) && NotBlank(codes)
    ensures Salvaged(CutDocument(items, |ItemsText(items)| + 1)) == Some(Coll(Object, Values(short)))
  {
    ContentMakesUsable(Values(short), codes);
  }

  lemma ContentMakesUsable(entries: Entries, codes: Codes)
    requires LookupIn(entries, CONTENT_NAME) == Some(Str(codes)) && NotBlank(codes)
    ensures Usable(Coll(Object, entries))
  {
  }

  /** The repair when only the last brace is missing. */
  lemma RepairLastBrace(items: Items)
    requires GoodItems(Object, items)
    ensures var doc := Box(Object, items);
            Repair(Text(doc)[..|Text(doc)| - 1]) ==
            Salvaged(CutDocument(items, |ItemsText(items)| + 1))
  {
    var doc := Box(Object, items);
    assert |Text(doc)| == |ItemsText(items)| + 2;
    RepairOfPrefix("", items, |ItemsText(items)| + 1);
    EmptyLeft(Text(doc)[..|Text(doc)| - 1]);
  }

  lemma RepeatedLookups(items: Items)
    requires NamesContentTwice(items)
    ensures LookupIn(Values(items), CONTENT_NAME) == Some(Str(Decode(items.tail.tail.node.body)))
    ensures LookupIn(Values(Item(items.tag, items.node, items.post, Item(items.tail.tag, items.tail.node, "", End("")))), CONTENT_NAME) ==
            Some(Str(Decode(items.node.body)))
  {
    var short := Item(items.tag, items.node, items.post, Item(items.tail.tag, items.tail.node, "", End("")));
    assert Values(short.tail) == Cons(Some(Decode(items.tail.tag.key)), Value(items.tail.node), Nil);
    assert Values(items.tail.tail) == Cons(Some(CONTENT_NAME), Value(items.tail.tail.node), Nil);
    LookupThree(CONTENT_NAME, Value(items.node), Decode(items.tail.tag.key), Value(items.tail.node), Value(items.tail.tail.node));
  }

  lemma CutThree(items: Items)
    requires items.Item? && items.tail.Item? && items.tail.tail.Item? && items.tail.tail.tail.End?
    requires !items.node.Box? && items.tail.node.Box? && !items.tail.tail.node.Box?
    ensures CutItems(items, |ItemsText(items)|) ==
            Some(Item(items.tag, items.node, items.post, Item(items.tail.tag, items.tail.node, "", End(""))))
  {
    TailText2(items);
    TailText2(items.tail);
    var second, third := items.tail, items.tail.tail;
    var m := |ItemsText(second)|;
    var k := m - |LabelText(second.tag)| - |Text(second.node)| - |second.post| - 1;
    assert CutItems(third, k).None?;
    assert k == |ItemsText(third)|;
    assert CutItems(second, m) == Some(Item(second.tag, second.node, "", End("")));
  }

  lemma LookupThree(name: Codes, a: Json, x: Codes, v: Json, b: Json)
    requires x != name
    ensures LookupIn(Cons(Some(name), a, Cons(Some(x), v, Cons(Some(name), b, Nil))), name) == Some(b)
    ensures LookupIn(Cons(Some(name), a, Cons(Some(x), v, Nil)), name) == Some(a)
  {
    assert LookupIn(Cons(Some(name), b, Nil), name) == Some(b);
    assert LookupIn(Cons(Some(x), v, Nil), name) == None;
  }
}
