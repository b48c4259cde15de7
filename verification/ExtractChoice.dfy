/**
 Which part of a text the extraction answers with: the whole text, else the first block that some layer
 reads, else the repair.
 */
module ExtractChoice {
  import opened Basics
  import opened JsonSyntax
  import opened JsonScanning
  import opened JsonExtract
  import Repair = JsonRepair

  // ---------------------------------------------------------------- the layers of one block

  /** What the layers read, in order: the block, the block with raw control characters allowed in
      strings, and that without commas before closing brackets. */
  function Layer(block: string, layer: nat): Option<Json> {
    if layer == 0 then Loads(block, true)
    else if layer == 1 then Loads(block, false)
    else Loads(DropTrailingCommas(block), false)
  }

  /** The first layer that reads the block reads `v`. */
  predicate ReadsAs(block: string, v: Json) {
    exists i | 0 <= i < 3 :: Layer(block, i) == Some(v) && forall j | 0 <= j < i :: Layer(block, j) == None
  }

  predicate Unreadable(block: string) {
    forall i | 0 <= i < 3 :: Layer(block, i) == None
  }

  lemma TryBlockIs(block: string, v: Json)
    ensures TryBlock(block) == Some(v) <==> ReadsAs(block, v)
    ensures TryBlock(block) == None <==> Unreadable(block)
  {
    var a, b, c := Layer(block, 0), Layer(block, 1), Layer(block, 2);
    assert TryBlock(block) == if a.Some? then a else if b.Some? then b else c;
  }

  // ---------------------------------------------------------------- the first readable block

  /** Block `k` is read as `v`, and no block before it is read. */
  predicate Answers(blocks: seq<string>, k: nat, v: Json) {
    k < |blocks| && ReadsAs(blocks[k], v) && forall j | 0 <= j < k :: Unreadable(blocks[j])
  }

  lemma {:induction false} FirstBlockIs(blocks: seq<string>, v: Json)
    ensures FirstBlock(blocks) == Some(v) <==> exists k: nat :: Answers(blocks, k, v)
    ensures FirstBlock(blocks) == None <==> forall j | 0 <= j < |blocks| :: Unreadable(blocks[j])
  {
    if blocks != [] {
      var rest := blocks[1..];
      assert blocks == [blocks[0]] + rest;
      FirstBlockIs(rest, v);
      TryBlockIs(blocks[0], v);
      if TryBlock(blocks[0]).Some? {
        AnsweredFirst(blocks, v);
      } else {
        AnsweredLater(blocks, rest, v);
      }
    }
  }

  lemma AnsweredFirst(blocks: seq<string>, v: Json)
    requires blocks != [] && TryBlock(blocks[0]).Some?
    ensures TryBlock(blocks[0]) == Some(v) <==> exists k: nat :: Answers(blocks, k, v)
    ensures !Unreadable(blocks[0])
  {
    TryBlockIs(blocks[0], TryBlock(blocks[0]).value);
    TryBlockIs(blocks[0], v);
    if TryBlock(blocks[0]) == Some(v) {
      assert Answers(blocks, 0, v);
    }
    if k: nat :| Answers(blocks, k, v) {
      NoneBefore(blocks, k, v);
    }
  }

  lemma NoneBefore(blocks: seq<string>, k: nat, v: Json)
    requires Answers(blocks, k, v) && !Unreadable(blocks[0])
    ensures k == 0
  {
  }

  lemma AnsweredLater(blocks: seq<string>, rest: seq<string>, v: Json)
    requires blocks != [] && rest == blocks[1..] && Unreadable(blocks[0]) && !ReadsAs(blocks[0], v)
    ensures (exists k: nat :: Answers(blocks, k, v)) <==> exists k: nat :: Answers(rest, k, v)
    ensures (forall j | 0 <= j < |blocks| :: Unreadable(blocks[j])) <==> forall j | 0 <= j < |rest| :: Unreadable(rest[j])
  {
    assert forall j | 0 <= j < |rest| :: rest[j] == blocks[j + 1];
    if k: nat :| Answers(blocks, k, v) {
      assert Answers(rest, k - 1, v);
    }
    if k: nat :| Answers(rest, k, v) {
      forall j | 0 <= j < k + 1 ensures Unreadable(blocks[j]) {
        assert j > 0 ==> blocks[j] == rest[j - 1];
      }
      assert Answers(blocks, k + 1, v);
    }
  }

  // ---------------------------------------------------------------- any text

  /** A block of a text, with its place. */
  ghost predicate BlockAnswers(text: string, k: nat, v: Json) {
    && k < |FindAll(text).blocks| && ReadsAs(Slice(text, FindAll(text).blocks[k]), v)
    && forall j | 0 <= j < k :: Unreadable(Slice(text, FindAll(text).blocks[j]))
  }

  /** Exactly what is extracted from any text: its value if it is a document; nothing if it has no brace;
      else the value of the first block that some layer reads; else what the repair salvages. */
  lemma ExtractIff(text: string, v: Json)
    ensures Loads(text, true).Some? ==> Extract(text) == Loads(text, true)
    ensures Loads(text, true).None? && '{' !in text ==> Extract(text) == None
    ensures Loads(text, true).None? && '{' in text ==>
            (Extract(text) == Some(v) <==>
             (exists k: nat :: BlockAnswers(text, k, v)) ||
             ((forall s :: s in FindAll(text).blocks ==> Unreadable(Slice(text, s))) && Repair.Repair(text) == Some(v)))
  {
    if Loads(text, true).None? && '{' in text {
      BlocksAnswer(text, v);
      BlocksUnreadable(text);
      FirstBlockIs(Blocks(text), v);
    }
  }

  lemma BlocksAnswer(text: string, v: Json)
    ensures (exists k: nat :: Answers(Blocks(text), k, v)) <==> exists k: nat :: BlockAnswers(text, k, v)
  {
    forall k: nat ensures Answers(Blocks(text), k, v) <==> BlockAnswers(text, k, v) {
      AnswersAt(text, k, v);
    }
  }

  lemma AnswersAt(text: string, k: nat, v: Json)
    ensures Answers(Blocks(text), k, v) <==> BlockAnswers(text, k, v)
  {
    BlockTexts(text);
  }

  lemma BlockTexts(text: string)
    ensures |Blocks(text)| == |FindAll(text).blocks|
    ensures forall k | 0 <= k < |Blocks(text)| :: Blocks(text)[k] == Slice(text, FindAll(text).blocks[k])
  {
  }

  lemma BlocksUnreadable(text: string)
    ensures (forall j | 0 <= j < |Blocks(text)| :: Unreadable(Blocks(text)[j])) <==>
            forall s :: s in FindAll(text).blocks ==> Unreadable(Slice(text, s))
  {
    var spans := FindAll(text).blocks;
    BlockTexts(text);
    if forall j | 0 <= j < |Blocks(text)| :: Unreadable(Blocks(text)[j]) {
      forall s | s in spans ensures Unreadable(Slice(text, s)) {
        var k :| 0 <= k < |spans| && spans[k] == s;
        assert Blocks(text)[k] == Slice(text, s);
      }
    }
    if forall s :: s in spans ==> Unreadable(Slice(text, s)) {
      forall j | 0 <= j < |Blocks(text)| ensures Unreadable(Blocks(text)[j]) {
        assert spans[j] in spans;
      }
    }
  }

  // ---------------------------------------------------------------- an object after quiet prose

  /** The first block is the first object, whatever stands behind it. */
  lemma FirstObjectBlock(pre: string, n: Node, rest: string)
    requires NoBraceOrQuote(pre) && Good(n) && n.Box? && n.kind.Object?
    ensures var blocks := FindAll(pre + Text(n) + rest).blocks;
            blocks != [] && blocks[0] == Span(|pre|, |pre| + |Text(n)|)
  {
    var text := pre + Text(n) + rest;
    var first := Span(|pre|, |pre| + |Text(n)|);
    BlocksExact(text);
    ObjectIsBlock(pre, n, rest);
    assert first in FindAll(text).blocks;
    assert forall i | 0 <= i < |pre| :: text[i] == pre[i];
    EarliestIsFirst(FindAll(text).blocks, first, text);
  }

  lemma EarliestIsFirst(blocks: seq<Span>, first: Span, text: string)
    requires first in blocks && forall s :: s in blocks ==> first.from <= s.from < s.to
    requires forall j, k | 0 <= j < k < |blocks| :: blocks[j].to <= blocks[k].from
    ensures blocks[0] == first
  {
    var k :| 0 <= k < |blocks| && blocks[k] == first;
    assert blocks[0] in blocks;
  }

  lemma ObjectIsBlock(pre: string, n: Node, rest: string)
    requires NoBraceOrQuote(pre) && Good(n) && n.Box? && n.kind.Object?
    ensures IsBlock(pre + Text(n) + rest, Span(|pre|, |pre| + |Text(n)|))
  {
    var x := pre + Text(n);
    OnlyBlock(pre, n, "", Span(|pre|, |x|));
    assert x + "" == x;
    BlockBefore(x, rest, Span(|pre|, |x|));
  }

  lemma BlockBefore(x: string, rest: string, s: Span)
    requires IsBlock(x, s)
    ensures IsBlock(x + rest, s)
  {
    forall k | 0 <= k <= |x| ensures LevelAt(x + rest, k) == LevelAt(x, k) {
      assert (x + rest)[..k] == x[..k];
    }
    forall k | s.from < k < s.to ensures LevelAt(x + rest, k).depth > 0 {
      assert LevelAt(x, k).depth > 0;
    }
  }

  /** An object after prose without brackets and quotes is the answer, whatever follows it: more prose,
      other objects, or anything else. */
  lemma FirstObjectAnswers(pre: string, n: Node, rest: string)
    requires '[' !in pre && NoBraceOrQuote(pre) && Good(n) && n.Box? && n.kind.Object?
    ensures Extract(pre + Text(n) + rest) == Some(Value(n))
  {
    var text := pre + Text(n) + rest;
    ProseIsNoDocument(pre, n, rest);
    FirstObjectBlock(pre, n, rest);
    TextTried(n);
    TryBlockIs(Text(n), Value(n));
    assert text[|pre|] == '{';
    assert Slice(text, Span(|pre|, |pre| + |Text(n)|)) == Text(n);
    assert BlockAnswers(text, 0, Value(n));
    ExtractIff(text, Value(n));
  }

  /** Of two objects the first one. */
  lemma FirstOfTwo(pre: string, a: Node, mid: string, b: Node, suf: string)
    requires '[' !in pre && NoBraceOrQuote(pre)
    requires Good(a) && a.Box? && a.kind.Object? && Good(b) && b.Box? && b.kind.Object?
    ensures Extract(pre + Text(a) + mid + Text(b) + suf) == Some(Value(a))
  {
    FirstObjectAnswers(pre, a, mid + Text(b) + suf);
    assert pre + Text(a) + mid + Text(b) + suf == pre + Text(a) + (mid + Text(b) + suf);
  }
}
