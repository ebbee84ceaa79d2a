/** White space as the `trim` of strings removes it. */
module Whitespace {

  /** White space and line terminators. */
  predicate Space(c: char) {
    || '\t' <= c <= '\r' || c == ' ' || c == '\U{00A0}' || c == '\U{1680}' || '\U{2000}' <= c <= '\U{200A}'
    || c == '\U{2028}' || c == '\U{2029}' || c == '\U{202F}' || c == '\U{205F}' || c == '\U{3000}' || c == '\U{FEFF}'
  }

  /** Nothing is left of the text once it is trimmed. */
  predicate Blank(text: string) {
    forall i :: 0 <= i < |text| ==> Space(text[i])
  }

  function Trimmed(text: string): (result: string)
    ensures |result| <= |text|
    ensures result == "" <==> Blank(text)
  {
    if text == "" then ""
    else if Space(text[0]) then Trimmed(text[1..])
    else if Space(text[|text| - 1]) then Trimmed(text[..|text| - 1])
    else text
  }

  /** A stretch with nothing but white space around it that neither begins nor ends with any. */
  predicate IsMiddle(text: string, from: nat, to: nat) {
    && from <= to <= |text|
    && (forall i :: 0 <= i < from ==> Space(text[i])) && (forall i :: to <= i < |text| ==> Space(text[i]))
    && (from < to ==> !Space(text[from]) && !Space(text[to - 1]))
  }

  lemma MiddleAfterFirst(text: string, from: nat, to: nat)
    requires text != "" && Space(text[0]) && IsMiddle(text[1..], from, to)
    ensures IsMiddle(text, from + 1, to + 1) && text[1..][from..to] == text[from + 1..to + 1]
  {
    assert forall i :: 0 < i < |text| ==> text[i] == text[1..][i - 1];
  }

  lemma MiddleBeforeLast(text: string, from: nat, to: nat)
    requires text != "" && Space(text[|text| - 1]) && IsMiddle(text[..|text| - 1], from, to)
    ensures IsMiddle(text, from, to) && text[..|text| - 1][from..to] == text[from..to]
  {
  }

  /** Trimming leaves exactly the middle of a text. */
  lemma {:induction false} TrimmedIsMiddle(text: string) returns (from: nat, to: nat)
    ensures IsMiddle(text, from, to) && Trimmed(text) == text[from..to]
  {
    if text == "" {
      from, to := 0, 0;
    } else if Space(text[0]) {
      from, to := TrimmedIsMiddle(text[1..]);
      MiddleAfterFirst(text, from, to);
      from, to := from + 1, to + 1;
    } else if Space(text[|text| - 1]) {
      from, to := TrimmedIsMiddle(text[..|text| - 1]);
      MiddleBeforeLast(text, from, to);
    } else {
      from, to := 0, |text|;
    }
  }
}
