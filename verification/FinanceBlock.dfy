/**
 The finance block of the prompt (`_finance_block`): amounts under the money keys are rewritten in
 place, everything else stays.
 */
module FinanceBlock {
  import opened Basics
  import opened Numbers
  import opened NumberScan
  import opened Thousands
  import opened Report

  type Record = map<string, Scalar>

  const MONEY_KEYS := {"budget", "expenditure", "committed", "balance"}

  /** `_with_thousands` on a value: a matching one becomes text, any other is left as it is. */
  function Rewrite(v: Scalar): Scalar {
    if IsAmount(Printed(v)) then Text(WithThousands(Printed(v))) else v
  }

  function Rewritten(r: Record): Record {
    map k | k in r :: if k in MONEY_KEYS then Rewrite(r[k]) else r[k]
  }

  function RewrittenAll(lines: seq<Record>): (r: seq<Record>)
    ensures |r| == |lines| && forall i | 0 <= i < |r| :: r[i] == Rewritten(lines[i])
  {
    seq(|lines|, i requires 0 <= i < |lines| => Rewritten(lines[i]))
  }

  class Finance {
    var data: Record
    var lines: seq<Record>

    /** `for key in _MONEY_KEYS & record.keys(): record[key] = _with_thousands(record[key])` */
    method RewriteRecord(r: Record) returns (out: Record)
      ensures out == Rewritten(r)
    {
      out := r;
      var todo := MONEY_KEYS * r.Keys;
      while todo != {}
        invariant todo <= MONEY_KEYS * r.Keys && out.Keys == r.Keys
        invariant forall k | k in r :: out[k] == if k in MONEY_KEYS && k !in todo then Rewrite(r[k]) else r[k]
      {
        var key :| key in todo;
        todo := todo - {key};
        out := out[key := Rewrite(out[key])];
      }
    }

    method RewriteAmounts()
      modifies this
      ensures data == Rewritten(old(data)) && lines == RewrittenAll(old(lines))
    {
      data := RewriteRecord(data);
      for i := 0 to |lines|
        invariant |lines| == |old(lines)| && data == Rewritten(old(data))
        invariant forall j | 0 <= j < |lines| :: lines[j] == if j < i then Rewritten(old(lines)[j]) else old(lines)[j]
      {
        var line := RewriteRecord(lines[i]);
        lines := lines[i := line];
      }
    }
  }

  /** What has its separators is left alone: rewriting a record twice is rewriting it once. */
  lemma RewriteTwice(r: Record)
    ensures Rewritten(Rewritten(r)) == Rewritten(r)
  {
    forall k | k in r ensures Rewrite(Rewrite(r[k])) == Rewrite(r[k]) {
      NoAmountAgain(Printed(r[k]));
    }
  }

  lemma NoAmountAgain(text: string)
    ensures !IsAmount(WithThousands(text))
  {
    if IsAmount(text) {
      var u := Unsigned(text);
      var w, f := u[..DigitRun(u)], u[DigitRun(u)..];
      AmountParts(text);
      StripKeepsDigits(w);
      var d := Significant(w);
      assert GroupThousands("0") == "0";
      var head, groups := GroupedShape(d);
      var negative := |u| < |text| && LStrip(w, '0') != [];
      SignedOut(negative, head, groups, f);
      assert WithThousands(text) == (if negative then "-" else "") + GroupThousands(d) + f;
    }
  }

  lemma SignedOut(negative: bool, head: string, groups: string, f: string)
    requires 1 <= |head| <= 3 && AllDigits(head) && Groups(groups) && IsFraction(f)
    ensures !IsAmount((if negative then "-" else "") + (head + groups) + f)
  {
    var u := head + (groups + f);
    Assoc(head, groups, f);
    ShortRun(head, groups, f);
    if negative {
      assert "-" + (head + groups) + f == ['-'] + u;
      assert Unsigned(['-'] + u) == u by { assert (['-'] + u)[1..] == u; }
    } else {
      assert "" + (head + groups) + f == u;
      assert u[0] == head[0];
    }
  }

  lemma ShortRun(head: string, groups: string, f: string)
    requires 1 <= |head| <= 3 && AllDigits(head) && Groups(groups) && IsFraction(f)
    ensures DigitRun(head + (groups + f)) == |head|
  {
    GroupsStart(groups, f);
    DigitRunExact(head, groups + f);
  }

  /** A money value that is not negative reads back as the number it was. */
  lemma MoneyReadsBack(word: char -> bool, r: Record, k: string)
    requires k == "budget" || k == "expenditure" || k == "committed" || k == "balance"
    requires WordClass(word) && k in r && IsAmount(Printed(r[k])) && Printed(r[k])[0] != '-'
    ensures var out := Printed(Rewritten(r)[k]);
            Scan(word, None, out) == [out] && Normalise(out) == Normalise(Printed(r[k]))
  {
    ThousandsRoundTrip(word, Printed(r[k]));
  }
}
