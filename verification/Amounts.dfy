/**
 Amounts travel as canonical decimal text. The verifier compares two of them as text in some
 places and as numbers in others; the lemmas below make the two comparisons the same.
 */
module Amounts {
  import opened Prelude

  predicate IsDecimal(s: string) {
    forall i :: 0 <= i < |s| ==> '0' <= s[i] <= '9'
  }

  /** `int(value)` on decimal text. */
  function DigitsValue(s: string): nat
    requires IsDecimal(s)
  {
    if s == "" then 0 else 10 * DigitsValue(s[..|s| - 1]) + ((s[|s| - 1] - '0') as int)
  }

  /** `digitLimit` is the interpreter's bound on the length of integer text, when one is set. */
  function ParseAmount(text: string, digitLimit: Option<nat>): Option<nat> {
    if text == "" || !IsDecimal(text) || (|text| > 1 && text[0] == '0') then None
    else if digitLimit.Some? && |text| > digitLimit.value then None
    else Some(DigitsValue(text))
  }

  function PrintAmount(n: nat): (s: string)
    ensures s != "" && IsDecimal(s)
    ensures |s| > 1 ==> s[0] != '0'
    ensures s == "0" || s[0] != '0'
  {
    var last := ['0' + (n % 10) as char];
    if n < 10 then last else PrintAmount(n / 10) + last
  }

  lemma {:induction false} PrintedValue(n: nat)
    ensures DigitsValue(PrintAmount(n)) == n
  {
    if n >= 10 {
      PrintedValue(n / 10);
      assert PrintAmount(n)[..|PrintAmount(n)| - 1] == PrintAmount(n / 10);
    } else {
      assert PrintAmount(n)[..0] == "";
    }
  }

  lemma {:induction false} CanonicalTextIsPrinted(s: string)
    requires s != "" && IsDecimal(s) && (|s| > 1 ==> s[0] != '0')
    ensures s == PrintAmount(DigitsValue(s))
  {
    var front, last := s[..|s| - 1], s[|s| - 1];
    var digit := (last - '0') as int;
    assert '0' + digit as char == last;
    if front == "" {
      assert DigitsValue(front) == 0;
    } else {
      CanonicalTextIsPrinted(front);
      PrintedValue(DigitsValue(front));
      assert front[0] != '0';
      assert (10 * DigitsValue(front) + digit) / 10 == DigitsValue(front);
      assert s == front + [last];
    }
  }

  /**
   Parsing accepts exactly the printed forms that fit the limit, and inverts printing: so equal
   accepted texts and equal amounts are one and the same comparison.
   */
  lemma ParseInvertsPrint(text: string, digitLimit: Option<nat>, n: nat)
    ensures ParseAmount(text, digitLimit) == Some(n)
       <==> text == PrintAmount(n) && (digitLimit.Some? ==> |text| <= digitLimit.value)
  {
    PrintedValue(n);
    if ParseAmount(text, digitLimit) == Some(n) {
      CanonicalTextIsPrinted(text);
    }
  }

  lemma AcceptedTextsAgreeWithAmounts(a: string, b: string, digitLimit: Option<nat>)
    requires ParseAmount(a, digitLimit).Some? && ParseAmount(b, digitLimit).Some?
    ensures a == b <==> ParseAmount(a, digitLimit) == ParseAmount(b, digitLimit)
  {
    ParseInvertsPrint(a, digitLimit, ParseAmount(a, digitLimit).value);
    ParseInvertsPrint(b, digitLimit, ParseAmount(b, digitLimit).value);
  }
}
