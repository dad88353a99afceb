/**
 * The GPU selector parser `expand`: a token `cuda:N` or `cuda:A-B`, matched in
 * full by the pattern `GPU_RE`, denotes the indices A up to B; anything
 * else raises `ValueError`, modelled here as `None`.
 */
module Selector {
  import opened Wrappers
  import opened Decimal

  const Prefix: string := "cuda:"

  /** The length of the greedy `\d+` run that starts at position i. */
  function DigitRun(s: string, i: nat): (n: nat)
    requires i <= |s|
    ensures i + n <= |s| && IsDigits(s[i..i + n])
    ensures i + n == |s| || !IsDigit(s[i + n])
    decreases |s| - i
  {
    if i < |s| && IsDigit(s[i]) then
      var n := 1 + DigitRun(s, i + 1);
      assert s[i..i + n] == [s[i]] + s[i + 1..i + n];
      n
    else
      0
  }

  /** The Python range from lo to hi inclusive: lo..hi ascending, empty when hi < lo. */
  function Range(lo: nat, hi: nat): (r: seq<nat>)
    ensures |r| == if lo <= hi then hi - lo + 1 else 0
    ensures forall k :: 0 <= k < |r| ==> r[k] == lo + k
    decreases hi + 1 - lo
  {
    if hi < lo then [] else [lo] + Range(lo + 1, hi)
  }

  /** `expand(spec)`: None stands for the `ValueError` raised on a token the pattern rejects. */
  function Expand(s: string): (r: Option<seq<nat>>)
    ensures r.Some? ==> forall k :: 0 <= k < |r.value| ==> r.value[k] == r.value[0] + k
  {
    if |s| < |Prefix| || s[..|Prefix|] != Prefix then None
    else
      var n1 := DigitRun(s, |Prefix|);
      var end1 := |Prefix| + n1;
      if n1 == 0 then None
      else
        var a := Value(s[|Prefix|..end1]);
        if end1 == |s| then Some(Range(a, a))
        else if s[end1] != '-' then None
        else
          var n2 := DigitRun(s, end1 + 1);
          if n2 == 0 || end1 + 1 + n2 != |s| then None
          else
            assert s[end1 + 1..] == s[end1 + 1..end1 + 1 + n2];
            Some(Range(a, Value(s[end1 + 1..])))
  }

  /** The selector grammar `cuda:<digits>` or `cuda:<digits>-<digits>`, matched in full. */
  ghost predicate WellFormed(s: string) {
    (exists d :: IsNumeral(d) && s == Prefix + d) ||
    (exists d1, d2 :: IsNumeral(d1) && IsNumeral(d2) && s == Prefix + d1 + "-" + d2)
  }

  /** A digit run that fills the rest of the string is consumed whole. */
  lemma {:induction false} DigitRunToEnd(s: string, i: nat)
    requires i <= |s| && IsDigits(s[i..])
    ensures DigitRun(s, i) == |s| - i
  {
  }

  /** A digit run followed by a non-digit stops right there. */
  lemma {:induction false} DigitRunStops(s: string, i: nat, j: nat)
    requires i <= j < |s| && IsDigits(s[i..j]) && !IsDigit(s[j])
    ensures DigitRun(s, i) == j - i
  {
  }

  /** `cuda:N` yields exactly [N]. */
  lemma ExpandSingle(d: string)
    requires IsNumeral(d)
    ensures Expand(Prefix + d) == Some([Value(d)])
  {
    var s := Prefix + d;
    assert s[..|Prefix|] == Prefix;
    assert s[|Prefix|..] == d;
    DigitRunToEnd(s, |Prefix|);
    assert s[|Prefix|..|Prefix| + DigitRun(s, |Prefix|)] == d;
    assert Range(Value(d), Value(d)) == [Value(d)];
    assert Expand(s) == Some(Range(Value(d), Value(d)));
  }

  /** `cuda:A-B` yields range(A, B + 1): A..B ascending, or nothing when B < A. */
  lemma ExpandRange(d1: string, d2: string)
    requires IsNumeral(d1) && IsNumeral(d2)
    ensures Expand(Prefix + d1 + "-" + d2) == Some(Range(Value(d1), Value(d2)))
  {
    var s := Prefix + d1 + "-" + d2;
    var end1 := |Prefix| + |d1|;
    assert s[..|Prefix|] == Prefix;
    assert s[|Prefix|..end1] == d1;
    assert s[end1] == '-';
    DigitRunStops(s, |Prefix|, end1);
    assert s[end1 + 1..] == d2;
    DigitRunToEnd(s, end1 + 1);
  }

  /** Every accepted token has one of the two grammatical forms: no prefix, suffix, blank, sign or list slips through. */
  lemma ExpandOnlyAcceptsGrammar(s: string)
    requires Expand(s).Some?
    ensures WellFormed(s)
  {
    var n1 := DigitRun(s, |Prefix|);
    var end1 := |Prefix| + n1;
    var d1 := s[|Prefix|..end1];
    if end1 == |s| {
      assert s == s[..|Prefix|] + d1;
      assert IsNumeral(d1) && s == Prefix + d1;
    } else {
      var d2 := s[end1 + 1..];
      assert s == s[..|Prefix|] + d1 + [s[end1]] + d2;
      assert IsNumeral(d1) && IsNumeral(d2) && s == Prefix + d1 + "-" + d2;
    }
  }

  /** The parser succeeds exactly on the grammar. */
  lemma ExpandAcceptsExactlyGrammar(s: string)
    ensures Expand(s).Some? <==> WellFormed(s)
  {
    if Expand(s).Some? {
      ExpandOnlyAcceptsGrammar(s);
    } else if WellFormed(s) {
      if d :| IsNumeral(d) && s == Prefix + d {
        ExpandSingle(d);
      } else {
        var d1, d2 :| IsNumeral(d1) && IsNumeral(d2) && s == Prefix + d1 + "-" + d2;
        ExpandRange(d1, d2);
      }
    }
  }
}
