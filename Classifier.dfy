/**
 * The content classifier `is_text_page`: a fetched page is kept only when its
 * visible text is long enough and shows readable language, Cyrillic first and
 * Latin as a fallback. The HTML parser that strips script/style/meta/link
 * elements and extracts the trimmed text is outside the model: its output is
 * the `text` argument.
 */
module Classifier {

  /** Below this many characters of visible text a page is never kept. */
  const MIN_TEXT_LENGTH := 100

  /** One character of the Cyrillic block U+0400..U+04FF. */
  predicate IsCyrillic(c: char) {
    0x0400 <= c as int <= 0x04FF
  }

  /** The character class `[a-zA-Z]`. */
  predicate IsAsciiLetter(c: char) {
    'a' <= c <= 'z' || 'A' <= c <= 'Z'
  }

  /** Three ASCII letters in a row start at position i. */
  ghost predicate LatinTripleAt(text: string, i: int) {
    0 <= i && i + 3 <= |text| &&
    IsAsciiLetter(text[i]) && IsAsciiLetter(text[i + 1]) && IsAsciiLetter(text[i + 2])
  }

  /** A regular-expression search for a Cyrillic character succeeds, as a scan from the left. */
  function ContainsCyrillic(text: string): (r: bool)
    ensures r <==> exists i :: 0 <= i < |text| && IsCyrillic(text[i])
  {
    if text == [] then
      false
    else if IsCyrillic(text[0]) then
      true
    else
      var rest := ContainsCyrillic(text[1..]);
      assert forall i :: 1 <= i < |text| ==> text[i] == text[1..][i - 1];
      rest
  }

  /**
   * A regular-expression search for a run of at least three ASCII letters
   * succeeds, as a scan from the left: a run of three or more letters exists
   * exactly when three letters stand in a row.
   */
  function ContainsLatinRun(text: string): (r: bool)
    ensures r <==> exists i :: LatinTripleAt(text, i)
    decreases |text|
  {
    if |text| < 3 then
      false
    else if IsAsciiLetter(text[0]) && IsAsciiLetter(text[1]) && IsAsciiLetter(text[2]) then
      assert LatinTripleAt(text, 0);
      true
    else
      var rest := ContainsLatinRun(text[1..]);
      assert forall i :: 0 <= i ==> (LatinTripleAt(text[1..], i) <==> LatinTripleAt(text, i + 1));
      assert rest ==> exists i :: LatinTripleAt(text, i) by {
        if rest {
          var i :| LatinTripleAt(text[1..], i);
          assert LatinTripleAt(text, i + 1);
        }
      }
      assert (exists i :: LatinTripleAt(text, i)) ==> rest by {
        if exists i :: LatinTripleAt(text, i) {
          var i :| LatinTripleAt(text, i);
          assert LatinTripleAt(text[1..], i - 1);
        }
      }
      rest
  }

  /**
   * `is_text_page`: `html` is the fetched body (empty means falsy in Python)
   * and `text` is the parser's visible text for it.
   */
  function IsTextPage(html: string, text: string): (r: bool)
    ensures r <==>
      html != [] && |text| >= MIN_TEXT_LENGTH &&
      ((exists i :: 0 <= i < |text| && IsCyrillic(text[i])) || (exists i :: LatinTripleAt(text, i)))
  {
    if html == [] then
      false
    else if |text| < MIN_TEXT_LENGTH then
      false
    else if !ContainsCyrillic(text) then
      ContainsLatinRun(text)
    else
      true
  }

  /** Empty content, or visible text shorter than the threshold, is always rejected. */
  lemma ShortTextRejected(html: string, text: string)
    requires html == [] || |text| < MIN_TEXT_LENGTH
    ensures !IsTextPage(html, text)
  {
  }

  /** Tokens written one after another, each followed by a space. */
  function Words(tokens: seq<string>): string {
    if tokens == [] then [] else tokens[0] + " " + Words(tokens[1..])
  }

  /** Tokens of at most two characters, separated by spaces, never show three letters in a row. */
  lemma {:induction false} ShortTokensNoLatinRun(tokens: seq<string>, i: int)
    requires forall k :: 0 <= k < |tokens| ==> |tokens[k]| <= 2
    ensures !LatinTripleAt(Words(tokens), i)
  {
    if tokens != [] {
      var first, rest := tokens[0], Words(tokens[1..]);
      var text := Words(tokens);
      assert text == first + " " + rest;
      if i <= |first| {
        assert text[|first|] == ' ';
      } else {
        var j := i - |first| - 1;
        ShortTokensNoLatinRun(tokens[1..], j);
        if i + 3 <= |text| {
          assert text[i] == rest[j] && text[i + 1] == rest[j + 1] && text[i + 2] == rest[j + 2];
        }
      }
    }
  }

  /**
   * Text made of tokens at most two characters long ("ab cd ef ...") and free
   * of Cyrillic is rejected, however long.
   */
  lemma ShortTokensRejected(html: string, tokens: seq<string>)
    requires forall k :: 0 <= k < |tokens| ==> |tokens[k]| <= 2
    requires forall i :: 0 <= i < |Words(tokens)| ==> !IsCyrillic(Words(tokens)[i])
    ensures !IsTextPage(html, Words(tokens))
  {
    forall i ensures !LatinTripleAt(Words(tokens), i) {
      ShortTokensNoLatinRun(tokens, i);
    }
  }

  /** Long enough text containing "abc" is accepted, with or without Cyrillic. */
  lemma LatinWordAccepted(html: string, text: string, i: nat)
    requires html != [] && |text| >= MIN_TEXT_LENGTH
    requires i + 3 <= |text| && text[i..i + 3] == "abc"
    ensures IsTextPage(html, text)
  {
    assert text[i] == text[i..i + 3][0];
    assert text[i + 1] == text[i..i + 3][1];
    assert text[i + 2] == text[i..i + 3][2];
    assert LatinTripleAt(text, i);
  }

  /** Long enough text containing the Cyrillic word "Новость" is accepted. */
  lemma CyrillicWordAccepted(html: string, text: string, i: nat)
    requires html != [] && |text| >= MIN_TEXT_LENGTH
    requires i + 7 <= |text| && text[i..i + 7] == "Новость"
    ensures IsTextPage(html, text)
  {
    assert text[i] == text[i..i + 7][0];
    assert IsCyrillic(text[i]);
  }
}
