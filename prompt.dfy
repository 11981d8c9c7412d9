/** The operator's answer to the migration question, passed in as the text
    `input()` returned, and the test `resp.strip().lower() != 'y'`. */
module Prompt {

  /** `str.isspace()` for one character. */
  predicate IsSpace(c: char) {
    || c == ' ' || '\t' <= c <= '\r' || '\U{1C}' <= c <= '\U{1F}'
    || c == '\U{85}' || c == '\U{A0}' || c == '\U{1680}' || '\U{2000}' <= c <= '\U{200A}'
    || c == '\U{2028}' || c == '\U{2029}' || c == '\U{202F}' || c == '\U{205F}' || c == '\U{3000}'
  }

  /** `s.lstrip()`: the suffix left after dropping leading whitespace. */
  function StripStart(s: string): (r: string)
    ensures |r| <= |s| && r == s[|s| - |r|..]
    ensures r != [] ==> !IsSpace(r[0])
    ensures forall i :: 0 <= i < |s| - |r| ==> IsSpace(s[i])
    decreases |s|
  {
    if s != [] && IsSpace(s[0]) then
      var r := StripStart(s[1..]);
      assert forall i :: 1 <= i < |s| - |r| ==> s[i] == s[1..][i - 1];
      r
    else s
  }

  /** `s.rstrip()`: the prefix left after dropping trailing whitespace. */
  function StripEnd(s: string): (r: string)
    ensures r <= s
    ensures r != [] ==> !IsSpace(r[|r| - 1])
    ensures forall i :: |r| <= i < |s| ==> IsSpace(s[i])
    decreases |s|
  {
    if s != [] && IsSpace(s[|s| - 1]) then StripEnd(s[..|s| - 1]) else s
  }

  /** `s.strip()`. */
  function Strip(s: string): string {
    StripEnd(StripStart(s))
  }

  function LowerChar(c: char): char {
    if 'A' <= c <= 'Z' then (c as int + 32) as char else c
  }

  /** `str.lower()` on ASCII letters. */
  function Lower(s: string): (r: string)
    ensures |r| == |s|
  {
    seq(|s|, i requires 0 <= i < |s| => LowerChar(s[i]))
  }

  /** The operator agreed to back up and recreate the database. */
  predicate Confirmed(response: string) {
    Lower(Strip(response)) == "y"
  }

  /** Exactly a lone `y` or `Y`, with any surrounding whitespace, confirms. */
  lemma ConfirmedIff(response: string)
    ensures Confirmed(response) <==> Strip(response) == "y" || Strip(response) == "Y"
  {
    var s := Strip(response);
    if Confirmed(response) {
      assert |s| == 1 && LowerChar(s[0]) == Lower(s)[0];
      assert s == [s[0]];
    }
    if s == "Y" {
      assert Lower(s) == [LowerChar('Y')];
    }
  }

  /** Leading whitespace is exactly what `lstrip` removes. */
  lemma {:induction false} StripStartPadding(pre: string, s: string)
    requires forall i :: 0 <= i < |pre| ==> IsSpace(pre[i])
    requires s != [] && !IsSpace(s[0])
    ensures StripStart(pre + s) == s
    decreases |pre|
  {
    if pre == [] {
      assert pre + s == s;
    } else {
      assert (pre + s)[0] == pre[0];
      assert (pre + s)[1..] == pre[1..] + s;
      StripStartPadding(pre[1..], s);
    }
  }

  /** Trailing whitespace is exactly what `rstrip` removes. */
  lemma {:induction false} StripEndPadding(s: string, post: string)
    requires forall i :: 0 <= i < |post| ==> IsSpace(post[i])
    requires s != [] && !IsSpace(s[|s| - 1])
    ensures StripEnd(s + post) == s
    decreases |post|
  {
    if post == [] {
      assert s + post == s;
    } else {
      var t := s + post;
      assert t[|t| - 1] == post[|post| - 1];
      assert t[..|t| - 1] == s + post[..|post| - 1];
      StripEndPadding(s, post[..|post| - 1]);
    }
  }

  /** Whitespace typed around an answer never changes the decision: a
      word padded on either side confirms exactly when the bare word does,
      which is when it is `y` or `Y`. */
  lemma PaddingIsIgnored(pre: string, word: string, post: string)
    requires forall i :: 0 <= i < |pre| ==> IsSpace(pre[i])
    requires forall i :: 0 <= i < |post| ==> IsSpace(post[i])
    requires word != [] && !IsSpace(word[0]) && !IsSpace(word[|word| - 1])
    ensures Strip(pre + word + post) == word
    ensures Confirmed(pre + word + post) <==> word == "y" || word == "Y"
  {
    assert pre + word + post == pre + (word + post);
    assert (word + post)[0] == word[0];
    StripStartPadding(pre, word + post);
    StripEndPadding(word, post);
    ConfirmedIff(pre + word + post);
  }
}
