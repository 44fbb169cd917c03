/** Plain text search. */
module Texts {

  /** `text.includes(pattern)` */
  predicate Includes(text: string, pattern: string)
  {
    pattern <= text || (text != "" && Includes(text[1..], pattern))
  }

  /** The pattern stands somewhere in the text. */
  ghost predicate StandsIn(text: string, pattern: string)
  {
    exists i :: 0 <= i <= |text| && pattern <= text[i..]
  }

  lemma {:induction false} IncludesMeans(text: string, pattern: string)
    ensures Includes(text, pattern) <==> StandsIn(text, pattern)
  {
    if pattern <= text {
      assert pattern <= text[0..];
    } else if text != "" {
      IncludesMeans(text[1..], pattern);
      if StandsIn(text, pattern) {
        var i :| 0 <= i <= |text| && pattern <= text[i..];
        assert i > 0 && text[1..][i - 1..] == text[i..];
      }
      if StandsIn(text[1..], pattern) {
        var i :| 0 <= i <= |text[1..]| && pattern <= text[1..][i..];
        assert text[1..][i..] == text[i + 1..];
      }
    }
  }
}
