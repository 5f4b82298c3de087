/**
 The character classification the tokenizers rely on: `char.IsWhiteSpace`
 (the separator set used by `string.Split` with a null separator array) and
 `ToLowerInvariant`, as a per-character map.
 */
module Text {

  /** `char.IsWhiteSpace`: the controls U+0009..U+000D and U+0085, and the
      members of the Unicode space, line and paragraph separator categories. */
  predicate IsWhiteSpace(c: char) {
    || ('\t' <= c <= '\r')
    || c == ' '
    || c == '\U{85}'
    || c == '\U{A0}'
    || c == '\U{1680}'
    || ('\U{2000}' <= c <= '\U{200A}')
    || c == '\U{2028}'
    || c == '\U{2029}'
    || c == '\U{202F}'
    || c == '\U{205F}'
    || c == '\U{3000}'
  }

  /** `ToLowerInvariant` on one character, for the ASCII letters. */
  function Lower(c: char): char {
    if 'A' <= c <= 'Z' then (c as int + 32) as char else c
  }

  /** `ToLowerInvariant` on a string: the character map applied position by position. */
  function LowerString(s: string): string {
    seq(|s|, i requires 0 <= i < |s| => Lower(s[i]))
  }

  predicate NoWhitespace(s: string) {
    forall i :: 0 <= i < |s| ==> !IsWhiteSpace(s[i])
  }

  /** `string.IsNullOrWhiteSpace` (a model string is never null). */
  predicate IsNullOrWhiteSpace(s: string) {
    forall i :: 0 <= i < |s| ==> IsWhiteSpace(s[i])
  }

  /** Lowercasing is idempotent and keeps whitespace and non-whitespace apart. */
  lemma LowerStringProperties(s: string)
    ensures |LowerString(s)| == |s|
    ensures LowerString(LowerString(s)) == LowerString(s)
    ensures NoWhitespace(LowerString(s)) <==> NoWhitespace(s)
  {
    var t := LowerString(s);
    assert forall i :: 0 <= i < |s| ==> IsWhiteSpace(t[i]) == IsWhiteSpace(s[i]);
  }
}
