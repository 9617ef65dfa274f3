/** Character classes and per-character rewriting used before a text is
    split into words: ASCII lower-casing, Python's `string.punctuation`
    and the ASCII whitespace recognised by Python's `str.split()`. */
module Chars {

  /** Python's `string.punctuation`: the 32 ASCII punctuation characters. */
  const Punctuation: string := "!\"#$%&'()*+,-./:;<=>?@[\\]^_`{|}~"

  /** Membership in `Punctuation`, by character code: 33-47, 58-64,
      91-96 and 123-126 (see `PunctuationRanges`). */
  predicate IsPunctuation(c: char) {
    33 <= c as int <= 47 || 58 <= c as int <= 64 || 91 <= c as int <= 96 || 123 <= c as int <= 126
  }

  /** ASCII characters for which Python's `str.isspace()` holds, which are
      the separators of `str.split()` with no argument: tab, line feed,
      vertical tab, form feed, carriage return, the four information
      separators 0x1C-0x1F, and space. */
  predicate IsSpace(c: char) {
    9 <= c as int <= 13 || 28 <= c as int <= 32
  }

  predicate IsUpper(c: char) {
    'A' <= c <= 'Z'
  }

  /** `str.lower()` on one ASCII character. */
  function LowerChar(c: char): (d: char)
    ensures !IsUpper(d)
    ensures IsUpper(c) <==> d != c
    // An upper-case letter becomes its own lower-case letter.
    ensures IsUpper(c) ==> 'a' <= d <= 'z' && d as int - 'a' as int == c as int - 'A' as int
  {
    if IsUpper(c) then (c as int + 32) as char else c
  }

  /** `str.lower()` on a whole string. */
  function Lower(s: string): string {
    seq(|s|, i requires 0 <= i < |s| => LowerChar(s[i]))
  }

  /** Python's `s.replace(target, replacement)` for single characters. */
  function ReplaceChar(s: string, target: char, replacement: char): string {
    seq(|s|, i requires 0 <= i < |s| => if s[i] == target then replacement else s[i])
  }

  /** The loop `for p in chars: text = text.replace(p, ' ')`, one
      replacement after another, in the order of `chars`. */
  function ReplaceEach(text: string, chars: string): string
    decreases |chars|
  {
    if chars == [] then text
    else ReplaceEach(ReplaceChar(text, chars[0], ' '), chars[1..])
  }

  /** What a single character becomes once every character of `chars`
      has been replaced by a space. */
  function Blank(c: char, chars: string): char {
    if c in chars then ' ' else c
  }

  /** The text the phrase matcher tokenizes: lower-cased, with every
      punctuation character turned into a space. */
  function Normalize(text: string): (r: string)
    ensures |r| == |text|
  {
    seq(|text|, i requires 0 <= i < |text| =>
      if IsPunctuation(LowerChar(text[i])) then ' ' else LowerChar(text[i]))
  }

  /** The sequential replacement loop is the same as replacing each
      character of `chars` simultaneously, provided the space itself is
      not one of the characters replaced. */
  lemma {:induction false} ReplaceEachIsPointwise(text: string, chars: string)
    requires ' ' !in chars
    ensures |ReplaceEach(text, chars)| == |text|
    ensures forall i :: 0 <= i < |text| ==> ReplaceEach(text, chars)[i] == Blank(text[i], chars)
    decreases |chars|
  {
    if chars != [] {
      var t := ReplaceChar(text, chars[0], ' ');
      ReplaceEachIsPointwise(t, chars[1..]);
      forall i | 0 <= i < |text|
        ensures ReplaceEach(text, chars)[i] == Blank(text[i], chars)
      {
        assert chars == [chars[0]] + chars[1..];
        assert text[i] in chars <==> text[i] == chars[0] || text[i] in chars[1..];
      }
    }
  }

  /** `Punctuation` is exactly the characters with codes 33-47, 58-64,
      91-96 and 123-126. */
  lemma PunctuationRanges(c: char)
    ensures c in Punctuation <==> IsPunctuation(c)
  {
    if IsPunctuation(c) {
      var i := if c as int <= 47 then c as int - 33
               else if c as int <= 64 then c as int - 58 + 15
               else if c as int <= 96 then c as int - 91 + 22
               else c as int - 123 + 28;
      assert Punctuation[i] == c;
    }
  }

  /** Replacing, one after another, every character of a set that is
      exactly the punctuation characters gives the normalised text. */
  lemma BlankingPunctuation(text: string, chars: string)
    requires forall c :: c in chars <==> IsPunctuation(c)
    ensures ReplaceEach(Lower(text), chars) == Normalize(text)
  {
    assert !IsPunctuation(' ');
    ReplaceEachIsPointwise(Lower(text), chars);
  }

  /** The source's normalisation, `text.lower()` followed by one
      `replace(p, ' ')` per character `p` of `string.punctuation`,
      produces `Normalize(text)`. */
  lemma SourceNormalization(text: string)
    ensures ReplaceEach(Lower(text), Punctuation) == Normalize(text)
  {
    forall c
      ensures c in Punctuation <==> IsPunctuation(c)
    {
      PunctuationRanges(c);
    }
    BlankingPunctuation(text, Punctuation);
  }

  /** The normalised text holds no punctuation and no upper-case letter. */
  lemma NormalizeClean(text: string)
    ensures forall i :: 0 <= i < |Normalize(text)| ==>
      !IsPunctuation(Normalize(text)[i]) && !IsUpper(Normalize(text)[i])
  {
  }

  /** Lower-casing is idempotent. */
  lemma LowerIdempotent(s: string)
    ensures Lower(Lower(s)) == Lower(s)
  {
  }

  /** Normalisation ignores case: a text and its lower-cased form
      normalise to the same string. */
  lemma NormalizeIgnoresCase(text: string)
    ensures Normalize(Lower(text)) == Normalize(text)
  {
  }
}
