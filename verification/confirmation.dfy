/** The confirmation asked before the destination database is replaced: the
    line read from the operator, with trailing whitespace removed, must be
    exactly "yes". */
module Confirmation {

  /** Unicode White_Space, the characters that trimming removes. */
  predicate IsWhitespace(c: char)
  {
    || c == '\t' || c == '\n' || c == '\U{000B}' || c == '\U{000C}' || c == '\r' || c == ' '
    || c == '\U{0085}' || c == '\U{00A0}' || c == '\U{1680}'
    || ('\U{2000}' <= c <= '\U{200A}')
    || c == '\U{2028}' || c == '\U{2029}' || c == '\U{202F}' || c == '\U{205F}' || c == '\U{3000}'
  }

  /** The input without its trailing whitespace: the longest prefix that does
      not end in whitespace and leaves only whitespace behind it. */
  function TrimEnd(s: string): (r: string)
    ensures r <= s
    ensures r == [] || !IsWhitespace(r[|r| - 1])
    ensures forall i | |r| <= i < |s| :: IsWhitespace(s[i])
    decreases |s|
  {
    if s != [] && IsWhitespace(s[|s| - 1]) then TrimEnd(s[..|s| - 1]) else s
  }

  predicate ConfirmsDrop(input: string)
  {
    TrimEnd(input) == "yes"
  }

  /** The drop is confirmed exactly by "yes" followed by nothing but
      whitespace: case matters and leading whitespace is not removed. */
  lemma ConfirmsDropIff(input: string)
    ensures ConfirmsDrop(input) <==>
      && |input| >= 3
      && input[..3] == "yes"
      && forall i | 3 <= i < |input| :: IsWhitespace(input[i])
  {
  }

  lemma ConfirmationExamples()
    ensures ConfirmsDrop("yes")
    ensures ConfirmsDrop("yes\n")
    ensures ConfirmsDrop("yes \r\n")
    ensures !ConfirmsDrop("Yes\n")
    ensures !ConfirmsDrop("YES")
    ensures !ConfirmsDrop("no\n")
    ensures !ConfirmsDrop("")
    ensures !ConfirmsDrop(" yes\n")
    ensures !ConfirmsDrop("yes please\n")
  {
    ConfirmsDropIff("yes \r\n");
    ConfirmsDropIff(" yes\n");
    ConfirmsDropIff("yes please\n");
    ConfirmsDropIff("Yes\n");
    assert "Yes\n"[..3][0] != "yes"[0];
    ConfirmsDropIff("no\n");
  }
}
