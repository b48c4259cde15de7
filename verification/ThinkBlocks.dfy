/**
 Taking a reasoning model's `<think>` blocks out of a completion (`strip_think_blocks`).
 */
module ThinkBlocks {
  import opened Basics
  import opened Numbers
  import opened TextLines

  const OPEN_MARK := "<think>"
  const CLOSE_MARK := "</think>"

  /** Where `p` first occurs. */
  function Find(s: string, p: string): (r: Option<nat>)
    ensures r.Some? ==> r.value + |p| <= |s| && s[r.value..r.value + |p|] == p
  {
    if StartsWith(s, p) then Some(0)
    else if s == [] then None
    else
      var r := Find(s[1..], p);
      if r.None? then None else Some(r.value + 1)
  }

  /** `re.sub("<think>.*?</think>", "", s)` */
  function WithoutBlocks(s: string): string
    decreases |s|
  {
    var i := Find(s, OPEN_MARK);
    if i.None? then s
    else
      var rest := s[i.value + |OPEN_MARK|..];
      var j := Find(rest, CLOSE_MARK);
      if j.None? then s else s[..i.value] + WithoutBlocks(rest[j.value + |CLOSE_MARK|..])
  }

  /** What comes before the first opening mark. */
  function BeforeOpen(s: string): string {
    var i := Find(s, OPEN_MARK);
    if i.None? then s else s[..i.value]
  }

  /** `strip_think_blocks` */
  function Strip(text: string): string {
    Trim(BeforeOpen(WithoutBlocks(text)))
  }

  // ---------------------------------------------------------------- nothing is left

  lemma {:induction false} FindFinds(s: string, p: string)
    ensures Find(s, p).Some? <==> Contains(s, p)
  {
    if !StartsWith(s, p) && s != [] {
      FindFinds(s[1..], p);
    }
  }

  /** Text that ends before the second character of the first occurrence contains none. */
  lemma {:induction false} NoneBefore(s: string, p: string, n: nat)
    requires p != [] && n <= |s| && (Find(s, p).Some? ==> n < Find(s, p).value + |p|)
    ensures Find(s[..n], p).None?
  {
    if n > 0 {
      assert s[..n][1..] == s[1..][..n - 1];
      assert |p| <= n ==> s[..n][..|p|] == s[..|p|];
      NoneBefore(s[1..], p, n - 1);
    }
  }

  lemma {:induction false} NoneAfter(s: string, p: string, n: nat)
    requires n <= |s| && Find(s, p).None?
    ensures Find(s[n..], p).None?
  {
    if n > 0 {
      assert s[n..] == s[1..][n - 1..];
      NoneAfter(s[1..], p, n - 1);
    } else {
      assert s[n..] == s;
    }
  }

  lemma {:induction false} TrimHasNone(s: string, p: string)
    requires p != [] && Find(s, p).None?
    ensures Find(Trim(s), p).None?
    decreases |s|
  {
    if s != [] && IsSpace(s[0]) {
      NoneAfter(s, p, 1);
      TrimHasNone(s[1..], p);
    } else if s != [] && IsSpace(s[|s| - 1]) {
      NoneBefore(s, p, |s| - 1);
      TrimHasNone(s[..|s| - 1], p);
    }
  }

  lemma BeforeOpenHasNone(s: string)
    ensures Find(BeforeOpen(s), OPEN_MARK).None?
  {
    var i := Find(s, OPEN_MARK);
    if i.Some? {
      NoneBefore(s, OPEN_MARK, i.value);
    }
  }

  /** No opening mark and no outer white space is left, whatever the text; so a second pass changes
      nothing. */
  lemma NothingLeft(text: string)
    ensures !Contains(Strip(text), OPEN_MARK) && Trimmed(Strip(text)) && Strip(Strip(text)) == Strip(text)
  {
    var s := BeforeOpen(WithoutBlocks(text));
    BeforeOpenHasNone(WithoutBlocks(text));
    TrimHasNone(s, OPEN_MARK);
    FindFinds(Strip(text), OPEN_MARK);
    TrimTrims(s);
    TrimTrims(Strip(text));
  }

  // ---------------------------------------------------------------- what stands outside the blocks

  /** A piece of answer followed by a block of reasoning. */
  datatype Piece = Piece(answer: string, reasoning: string)

  predicate GoodPieces(pieces: seq<Piece>) {
    forall i | 0 <= i < |pieces| :: !Contains(pieces[i].answer, OPEN_MARK) && !Contains(pieces[i].reasoning, CLOSE_MARK)
  }

  function Weave(pieces: seq<Piece>, last: string): string {
    if pieces == [] then last
    else pieces[0].answer + (OPEN_MARK + (pieces[0].reasoning + (CLOSE_MARK + Weave(pieces[1..], last))))
  }

  /** The answers alone. */
  function Outside(pieces: seq<Piece>, last: string): string {
    if pieces == [] then last else pieces[0].answer + Outside(pieces[1..], last)
  }

  /** A mark whose first character it has nowhere else is first found where it was put. */
  lemma {:induction false} FindPut(a: string, p: string, rest: string)
    requires p != [] && (forall i | 0 < i < |p| :: p[i] != p[0]) && !Contains(a, p)
    ensures Find(a + (p + rest), p) == Some(|a|)
  {
    var x := a + (p + rest);
    if a == [] {
      assert x == p + rest && x[..|p|] == p;
    } else {
      assert x[1..] == a[1..] + (p + rest);
      FindPut(a[1..], p, rest);
      NotEarlier(a, p, rest);
    }
  }

  lemma NotEarlier(a: string, p: string, rest: string)
    requires a != [] && p != [] && (forall i | 0 < i < |p| :: p[i] != p[0]) && !Contains(a, p)
    ensures !StartsWith(a + (p + rest), p)
  {
    var x := a + (p + rest);
    if |p| <= |a| {
      assert x[..|p|] == a[..|p|];
    } else {
      assert x[|a|] == p[0];
      assert x[..|p|][|a|] == x[|a|];
    }
  }

  lemma MarksPlain()
    ensures forall i | 0 < i < |OPEN_MARK| :: OPEN_MARK[i] != OPEN_MARK[0]
    ensures forall i | 0 < i < |CLOSE_MARK| :: CLOSE_MARK[i] != CLOSE_MARK[0]
  {
  }

  /** No opening mark of the text has a closing one behind it. */
  predicate NoBlock(s: string) {
    var i := Find(s, OPEN_MARK);
    i.None? || !Contains(s[i.value + |OPEN_MARK|..], CLOSE_MARK)
  }

  datatype Parts = Parts(pieces: seq<Piece>, last: string)

  /** Every text, taken apart at its blocks. */
  function PartsOf(s: string): (r: Parts)
    ensures Weave(r.pieces, r.last) == s && GoodPieces(r.pieces) && NoBlock(r.last)
    decreases |s|
  {
    var i := Find(s, OPEN_MARK);
    if i.None? then Parts([], s)
    else
      var rest := s[i.value + |OPEN_MARK|..];
      var j := Find(rest, CLOSE_MARK);
      FindFinds(rest, CLOSE_MARK);
      if j.None? then Parts([], s)
      else
        var more := PartsOf(rest[j.value + |CLOSE_MARK|..]);
        FirstPiece(s, i.value, rest, j.value, more);
        Parts([Piece(s[..i.value], rest[..j.value])] + more.pieces, more.last)
  }

  lemma FirstPiece(s: string, i: nat, rest: string, j: nat, more: Parts)
    requires Find(s, OPEN_MARK) == Some(i) && rest == s[i + |OPEN_MARK|..] && Find(rest, CLOSE_MARK) == Some(j)
    requires GoodPieces(more.pieces) && Weave(more.pieces, more.last) == rest[j + |CLOSE_MARK|..]
    ensures var pieces := [Piece(s[..i], rest[..j])] + more.pieces; GoodPieces(pieces) && Weave(pieces, more.last) == s
  {
    NoneBefore(s, OPEN_MARK, i);
    FindFinds(s[..i], OPEN_MARK);
    NoneBefore(rest, CLOSE_MARK, j);
    FindFinds(rest[..j], CLOSE_MARK);
    AtMark(s, i, OPEN_MARK);
    AtMark(rest, j, CLOSE_MARK);
    ConsSlices(Piece(s[..i], rest[..j]), more.pieces, 0);
  }

  lemma AtMark(s: string, i: nat, mark: string)
    requires i + |mark| <= |s| && s[i..i + |mark|] == mark
    ensures s == s[..i] + (mark + s[i + |mark|..])
  {
  }

  /** There is only one way to take a text apart. */
  lemma {:induction false} OnlyParts(pieces: seq<Piece>, last: string)
    requires GoodPieces(pieces) && NoBlock(last)
    ensures PartsOf(Weave(pieces, last)) == Parts(pieces, last)
  {
    if pieces == [] {
      NoParts(last);
    } else {
      var p, rest := pieces[0], Weave(pieces[1..], last);
      var inner := p.reasoning + (CLOSE_MARK + rest);
      OnlyParts(pieces[1..], last);
      MarksPlain();
      FindPut(p.answer, OPEN_MARK, inner);
      FindPut(p.reasoning, CLOSE_MARK, rest);
      AfterMark(p.answer, OPEN_MARK, inner);
      AfterMark(p.reasoning, CLOSE_MARK, rest);
      PartsStep(Weave(pieces, last), p, inner, rest);
      assert pieces == [p] + pieces[1..];
    }
  }

  lemma NoParts(s: string)
    requires NoBlock(s)
    ensures PartsOf(s) == Parts([], s) && WithoutBlocks(s) == s
  {
    var i := Find(s, OPEN_MARK);
    if i.Some? {
      FindFinds(s[i.value + |OPEN_MARK|..], CLOSE_MARK);
    }
  }

  lemma PartsStep(s: string, p: Piece, inner: string, rest: string)
    requires Find(s, OPEN_MARK) == Some(|p.answer|) && s[..|p.answer|] == p.answer && s[|p.answer| + |OPEN_MARK|..] == inner
    requires Find(inner, CLOSE_MARK) == Some(|p.reasoning|) && inner[..|p.reasoning|] == p.reasoning
    requires inner[|p.reasoning| + |CLOSE_MARK|..] == rest
    ensures PartsOf(s) == Parts([p] + PartsOf(rest).pieces, PartsOf(rest).last)
  {
  }

  /** What stands outside the blocks of a text. */
  function OutsideOf(text: string): string {
    Outside(PartsOf(text).pieces, PartsOf(text).last)
  }

  /** Of any text, the substitution leaves what stands outside the blocks. */
  lemma BlocksGone(text: string)
    ensures WithoutBlocks(text) == OutsideOf(text)
  {
    WovenBlocksGone(PartsOf(text).pieces, PartsOf(text).last);
  }

  lemma {:induction false} WovenBlocksGone(pieces: seq<Piece>, last: string)
    requires GoodPieces(pieces) && NoBlock(last)
    ensures WithoutBlocks(Weave(pieces, last)) == Outside(pieces, last)
  {
    if pieces == [] {
      NoParts(last);
    } else {
      var p, rest := pieces[0], Weave(pieces[1..], last);
      MarksPlain();
      FindPut(p.answer, OPEN_MARK, p.reasoning + (CLOSE_MARK + rest));
      FindPut(p.reasoning, CLOSE_MARK, rest);
      WovenBlocksGone(pieces[1..], last);
      OneBlockGone(p.answer, p.reasoning, rest);
    }
  }

  lemma OneBlockGone(a: string, b: string, rest: string)
    requires Find(a + (OPEN_MARK + (b + (CLOSE_MARK + rest))), OPEN_MARK) == Some(|a|) && Find(b + (CLOSE_MARK + rest), CLOSE_MARK) == Some(|b|)
    ensures WithoutBlocks(a + (OPEN_MARK + (b + (CLOSE_MARK + rest)))) == a + WithoutBlocks(rest)
  {
    var inner := b + (CLOSE_MARK + rest);
    var s := a + (OPEN_MARK + inner);
    AfterMark(a, OPEN_MARK, inner);
    AfterMark(b, CLOSE_MARK, rest);
    WithoutStep(s, a, inner, rest);
  }

  lemma AfterMark(a: string, mark: string, rest: string)
    ensures var s := a + (mark + rest); s[..|a|] == a && s[|a| + |mark|..] == rest
  {
  }

  lemma WithoutStep(s: string, head: string, inner: string, tail: string)
    requires Find(s, OPEN_MARK) == Some(|head|) && head == s[..|head|] && inner == s[|head| + |OPEN_MARK|..]
    requires Find(inner, CLOSE_MARK).Some? && tail == inner[Find(inner, CLOSE_MARK).value + |CLOSE_MARK|..]
    ensures WithoutBlocks(s) == head + WithoutBlocks(tail)
  {
  }

  /** What stands outside the blocks is kept verbatim exactly when no opening mark remains there,
      neither an unclosed one nor one that taking out a block has put together. */
  lemma KeptVerbatimIff(text: string)
    ensures Strip(text) == Trim(OutsideOf(text)) <==> !Contains(OutsideOf(text), OPEN_MARK)
  {
    var out := OutsideOf(text);
    BlocksGone(text);
    FindFinds(out, OPEN_MARK);
    if Contains(out, OPEN_MARK) {
      TrimKeepsMark(out);
      FindFinds(Trim(out), OPEN_MARK);
      NothingLeft(text);
    }
  }

  /** What comes out of any text: what stands outside its blocks, up to the first opening mark among that,
      without white space at its ends. */
  lemma StripTells(text: string) returns (p: string, a: string, b: string)
    ensures p == a + (Strip(text) + b) && WhiteOnly(a) && WhiteOnly(b) && Trimmed(Strip(text))
    ensures !Contains(p, OPEN_MARK) && StartsWith(OutsideOf(text), p)
    ensures p == OutsideOf(text) || StartsWith(OutsideOf(text)[|p|..], OPEN_MARK)
  {
    var s := OutsideOf(text);
    BlocksGone(text);
    p := BeforeOpen(s);
    BeforeOpenHasNone(s);
    FindFinds(p, OPEN_MARK);
    a, b := TrimExact(p);
    BeforeOpenIs(s);
  }

  lemma BeforeOpenIs(s: string)
    ensures var p := BeforeOpen(s); StartsWith(s, p) && (p == s || StartsWith(s[|p|..], OPEN_MARK))
  {
    var i := Find(s, OPEN_MARK);
    if i.Some? {
      MidSlice(s, i.value, i.value + |OPEN_MARK|);
    } else {
      assert s[..|s|] == s;
    }
  }

  /** Where taking out a block puts an opening mark together, the answer behind it is lost. */
  lemma PutTogether(head: string, reasoning: string, last: string)
    requires !Contains(head, OPEN_MARK) && !Contains(reasoning, CLOSE_MARK) && NoBlock(last) && StartsWith(head + last, OPEN_MARK)
    ensures var text := head + (OPEN_MARK + (reasoning + (CLOSE_MARK + last))); OutsideOf(text) == head + last && Strip(text) == ""
  {
    var text := head + (OPEN_MARK + (reasoning + (CLOSE_MARK + last)));
    WeaveOne(head, reasoning, last);
    OnlyParts([Piece(head, reasoning)], last);
    BlocksGone(text);
    assert BeforeOpen(head + last) == "";
  }

  lemma WeaveOne(head: string, reasoning: string, last: string)
    ensures var pieces := [Piece(head, reasoning)];
            && Weave(pieces, last) == head + (OPEN_MARK + (reasoning + (CLOSE_MARK + last)))
            && Outside(pieces, last) == head + last
  {
    assert [Piece(head, reasoning)][1..] == [];
  }

  lemma MarkPutTogether()
    ensures OutsideOf("<thi<think>x</think>nk>y") == "<think>y" && Strip("<thi<think>x</think>nk>y") == ""
  {
    MarkTaken();
    MarkJoined();
    PutTogether("<thi", "x", "nk>y");
  }

  lemma MarkTaken()
    ensures "<thi<think>x</think>nk>y" == "<thi" + (OPEN_MARK + ("x" + (CLOSE_MARK + "nk>y")))
  {
  }

  lemma MarkJoined()
    ensures !Contains("<thi", OPEN_MARK) && !Contains("x", CLOSE_MARK) && NoBlock("nk>y")
    ensures "<thi" + "nk>y" == "<think>y" && StartsWith("<thi" + "nk>y", OPEN_MARK)
  {
    ShortHasNone("<thi", OPEN_MARK);
    ShortHasNone("x", CLOSE_MARK);
    ShortHasNone("nk>y", OPEN_MARK);
    assert "<thi" + "nk>y" == "<think>y";
  }

  lemma {:induction false} ShortHasNone(s: string, p: string)
    requires |s| < |p|
    ensures Find(s, p).None? && !Contains(s, p)
  {
    if s != [] {
      ShortHasNone(s[1..], p);
    }
  }

  lemma MarkSolid(s: string)
    ensures StartsWith(s, OPEN_MARK) ==> s[0] == '<'
    ensures StartsWith(s, OPEN_MARK) && |s| == |OPEN_MARK| ==> s[|s| - 1] == '>'
    ensures s == [] ==> Find(s, OPEN_MARK).None?
  {
  }

  /** Trimming cannot remove a mark that has no white space in it. */
  lemma {:induction false} TrimKeepsMark(s: string)
    requires Find(s, OPEN_MARK).Some?
    ensures Find(Trim(s), OPEN_MARK).Some?
    decreases |s|
  {
    MarkSolid(s);
    if s != [] && IsSpace(s[0]) {
      TrimKeepsMark(s[1..]);
    } else if s != [] && IsSpace(s[|s| - 1]) {
      MarkBeforeLast(s);
      TrimKeepsMark(s[..|s| - 1]);
    }
  }

  lemma {:induction false} MarkBeforeLast(s: string)
    requires Find(s, OPEN_MARK).Some? && s != [] && IsSpace(s[|s| - 1])
    ensures Find(s[..|s| - 1], OPEN_MARK).Some?
  {
    var t := s[..|s| - 1];
    MarkSolid(s);
    MarkSolid(s[1..]);
    if StartsWith(s, OPEN_MARK) {
      assert t[..|OPEN_MARK|] == s[..|OPEN_MARK|];
    } else {
      assert t[1..] == s[1..][..|s| - 2];
      MarkBeforeLast(s[1..]);
    }
  }
}
