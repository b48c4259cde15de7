/** Small definitions shared by the other modules. */
module Basics {

  datatype Option<+T> = None | Some(value: T)

  /** White space as Python's `str.strip`, `str.isspace` and the regex class `\s` see it. */
  predicate PySpace(code: int) {
    || 0x09 <= code <= 0x0D
    || 0x1C <= code <= 0x20
    || code == 0x85
    || code == 0xA0
    || code == 0x1680
    || 0x2000 <= code <= 0x200A
    || code == 0x2028
    || code == 0x2029
    || code == 0x202F
    || code == 0x205F
    || code == 0x3000
  }

  predicate IsSpace(c: char) {
    PySpace(c as int)
  }

  predicate IsDigit(c: char) {
    '0' <= c <= '9'
  }

  predicate AllDigits(s: string) {
    forall i | 0 <= i < |s| :: IsDigit(s[i])
  }

  /** Length of the run of digits a text starts with. */
  function DigitRun(s: string): (n: nat)
    ensures n <= |s|
  {
    if s != [] && IsDigit(s[0]) then 1 + DigitRun(s[1..]) else 0
  }

  lemma {:induction false} DigitRunDigits(s: string)
    ensures var n := DigitRun(s); AllDigits(s[..n]) && (n < |s| ==> !IsDigit(s[n]))
  {
    if s != [] && IsDigit(s[0]) {
      DigitRunDigits(s[1..]);
      assert s[..DigitRun(s)] == [s[0]] + s[1..][..DigitRun(s[1..])];
    }
  }

  lemma {:induction false} DigitRunExact(d: string, rest: string)
    requires AllDigits(d) && (rest != [] ==> !IsDigit(rest[0]))
    ensures DigitRun(d + rest) == |d|
  {
    if d == [] {
      assert d + rest == rest;
    } else {
      assert (d + rest)[1..] == d[1..] + rest;
      DigitRunExact(d[1..], rest);
    }
  }

  predicate WhiteOnly(s: string) {
    forall i | 0 <= i < |s| :: IsSpace(s[i])
  }

  /** Length of the run of white space a text starts with. */
  function WhiteRun(s: string): (n: nat)
    ensures n <= |s|
  {
    if s != [] && IsSpace(s[0]) then 1 + WhiteRun(s[1..]) else 0
  }

  /** The text obtained by reading `s` backwards. */
  function Reverse(s: string): (r: string)
    ensures |r| == |s|
  {
    if s == [] then [] else Reverse(s[1..]) + [s[0]]
  }

  predicate StartsWith(s: string, prefix: string) {
    |prefix| <= |s| && s[..|prefix|] == prefix
  }

  predicate Contains(s: string, p: string) {
    StartsWith(s, p) || (s != [] && Contains(s[1..], p))
  }

  predicate OccursAt(s: string, p: string, i: nat) {
    i + |p| <= |s| && s[i..i + |p|] == p
  }

  lemma {:induction false} ContainsIff(s: string, p: string)
    ensures Contains(s, p) <==> exists i: nat :: OccursAt(s, p, i)
  {
    if StartsWith(s, p) {
      assert OccursAt(s, p, 0);
    } else if s != [] {
      ContainsIff(s[1..], p);
      if i: nat :| OccursAt(s, p, i) {
        OccursLater(s, p, i - 1);
      }
      if i: nat :| OccursAt(s[1..], p, i) {
        OccursLater(s, p, i);
      }
    }
  }

  lemma OccursLater(s: string, p: string, i: nat)
    requires s != []
    ensures OccursAt(s, p, i + 1) <==> OccursAt(s[1..], p, i)
  {
    if i + 1 + |p| <= |s| {
      assert s[1..][i..i + |p|] == s[i + 1..i + 1 + |p|];
    }
  }

  // ---------------------------------------------------------------- taking sequences apart

  lemma SplitAt<T>(s: seq<T>, p: nat)
    requires p <= |s|
    ensures s == s[..p] + s[p..]
  {
  }

  lemma HeadTail<T>(s: seq<T>, p: nat)
    requires p < |s|
    ensures s[p..] == [s[p]] + s[p + 1..]
  {
  }

  lemma Assoc<T>(a: seq<T>, b: seq<T>, c: seq<T>)
    ensures (a + b) + c == a + (b + c)
  {
  }

  lemma TakeDrop<T>(a: seq<T>, b: seq<T>)
    ensures (a + b)[..|a|] == a && (a + b)[|a|..] == b
  {
  }

  lemma AtJoin<T>(a: seq<T>, c: T, b: seq<T>)
    ensures var s := a + ([c] + b); |a| < |s| && s[|a|] == c && s[..|a|] == a && s[|a| + 1..] == b
  {
  }

  lemma DropDrop<T>(s: seq<T>, a: nat, b: nat)
    requires a + b <= |s|
    ensures s[a..][b..] == s[a + b..]
  {
  }

  lemma MidSlice<T>(s: seq<T>, a: nat, b: nat)
    requires a <= b <= |s|
    ensures s[a..b] == s[a..][..b - a]
  {
  }

  lemma ConsSlices<T>(c: T, s: seq<T>, k: nat)
    requires k <= |s|
    ensures ([c] + s)[1 + k..] == s[k..] && ([c] + s)[..1 + k] == [c] + s[..k]
  {
  }

  // ---------------------------------------------------------------- composite keys

  /** `a<sep>b` */
  function Pair(a: string, sep: char, b: string): string {
    a + [sep] + b
  }

  /** The part of a key before its first separator. */
  function Before(key: string, sep: char): string {
    if key == [] || key[0] == sep then [] else [key[0]] + Before(key[1..], sep)
  }

  /** The part of a key after its first separator. */
  function After(key: string, sep: char): string {
    if key == [] then [] else if key[0] == sep then key[1..] else After(key[1..], sep)
  }

  lemma {:induction false} PairParts(a: string, sep: char, b: string)
    requires sep !in a
    ensures Before(Pair(a, sep, b), sep) == a && After(Pair(a, sep, b), sep) == b
  {
    if a == [] {
      assert Pair(a, sep, b) == [sep] + b;
    } else {
      assert Pair(a, sep, b)[1..] == Pair(a[1..], sep, b);
      PairParts(a[1..], sep, b);
      HeadTail(a, 0);
    }
  }

  /** Keys whose first parts do not contain the separator are equal only if both parts are. */
  lemma PairInjective(a: string, sep: char, b: string, c: string, d: string)
    requires sep !in a && sep !in c
    ensures Pair(a, sep, b) == Pair(c, sep, d) <==> a == c && b == d
  {
    PairParts(a, sep, b);
    PairParts(c, sep, d);
  }
}
