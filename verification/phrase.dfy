/** The phrase matcher shared by the title and description triggers:
    `PhraseTrigger.is_phrase_in` (project.py) and
    `KeywordTrigger.is_phrase_in` (main_project.py). */
module Phrase {
  import opened Chars
  import opened Words

  /** The word list of a text: lower-cased, punctuation blanked, split. */
  function TextWords(text: string): seq<string> {
    Split(Normalize(text))
  }

  /** The word list of a stored phrase: split only, punctuation kept. */
  function PhraseWords(phrase: string): seq<string> {
    Split(phrase)
  }

  /** The phrase's words occur in `ws` as the contiguous run starting at `i`. */
  predicate OccursAt(ws: seq<string>, pw: seq<string>, i: int) {
    0 <= i && i + |pw| <= |ws| && ws[i..i + |pw|] == pw
  }

  /** The phrase's words occur somewhere in `ws` as a contiguous run. */
  predicate ContainsRun(ws: seq<string>, pw: seq<string>) {
    exists i :: 0 <= i <= |ws| && OccursAt(ws, pw, i)
  }

  /** The index loop of `is_phrase_in`, started at position `i`. */
  function ScanFrom(ws: seq<string>, pw: seq<string>, i: nat): (found: bool)
    ensures found <==> exists j :: i <= j && OccursAt(ws, pw, j)
    decreases |ws| - i
  {
    if i + |pw| > |ws| then false
    else if ws[i..i + |pw|] == pw then assert OccursAt(ws, pw, i); true
    else ScanFrom(ws, pw, i + 1)
  }

  /** `PhraseTrigger.is_phrase_in` of project.py, for the stored
      (already lower-cased) phrase. */
  function IsPhraseIn(phrase: string, text: string): (found: bool)
    ensures found <==> ContainsRun(TextWords(text), PhraseWords(phrase))
  {
    ScanFrom(TextWords(text), PhraseWords(phrase), 0)
  }

  /** The loop `for p in chars: text = text.replace(p, ' ')`. */
  method ReplaceAll(text: string, chars: string) returns (t: string)
    ensures t == ReplaceEach(text, chars)
  {
    t := text;
    var n := 0;
    while n < |chars|
      invariant 0 <= n <= |chars|
      invariant ReplaceEach(t, chars[n..]) == ReplaceEach(text, chars)
    {
      assert chars[n..][1..] == chars[n + 1..];
      t := ReplaceChar(t, chars[n], ' ');
      n := n + 1;
    }
    assert chars[n..] == [];
  }

  /** The first half of `KeywordTrigger.is_phrase_in`: lower-case the
      text, then blank each character of `string.punctuation` in turn. */
  method BlankPunctuation(text: string) returns (t: string)
    ensures t == Normalize(text)
  {
    SourceNormalization(text);
    t := ReplaceAll(Lower(text), Punctuation);
  }

  /** The index loop of `KeywordTrigger.is_phrase_in`: try every start
      position `i` in `range(len(words) - len(phrase_words) + 1)`. */
  method FindRun(words: seq<string>, phraseWords: seq<string>) returns (found: bool)
    ensures found <==> ContainsRun(words, phraseWords)
  {
    var i := 0;
    while i < |words| - |phraseWords| + 1
      invariant 0 <= i
      invariant i == 0 || i <= |words| - |phraseWords| + 1
      invariant forall j :: 0 <= j < i ==> !OccursAt(words, phraseWords, j)
    {
      if phraseWords == words[i..i + |phraseWords|] {
        assert OccursAt(words, phraseWords, i);
        return true;
      }
      i := i + 1;
    }
    return false;
  }

  /** `KeywordTrigger.is_phrase_in` of main_project.py: it gives the same
      answer as the project.py matcher on every phrase and text. */
  method KeywordIsPhraseIn(phrase: string, text: string) returns (found: bool)
    ensures found == IsPhraseIn(phrase, text)
  {
    var t := BlankPunctuation(text);
    var words := Split(t);
    var phraseWords := Split(phrase);
    found := FindRun(words, phraseWords);
  }

  /** A phrase of no words (empty or all whitespace) matches every text,
      the empty text included: position 0 is always tried. */
  lemma EmptyPhraseMatchesEverything(phrase: string, text: string)
    requires forall k :: 0 <= k < |phrase| ==> IsSpace(phrase[k])
    ensures IsPhraseIn(phrase, text)
  {
    SplitBlank(phrase);
    assert OccursAt(TextWords(text), PhraseWords(phrase), 0);
  }

  /** A phrase with more words than the text never matches. */
  lemma LongerPhraseNeverMatches(phrase: string, text: string)
    requires |PhraseWords(phrase)| > |TextWords(text)|
    ensures !IsPhraseIn(phrase, text)
  {
  }

  /** A one-word run occurs exactly where that word does. */
  lemma OneWordRun(ws: seq<string>, w: string)
    ensures ContainsRun(ws, [w]) <==> w in ws
  {
    if w in ws {
      var i :| 0 <= i < |ws| && ws[i] == w;
      assert ws[i..i + 1] == [w];
      assert OccursAt(ws, [w], i);
    }
    if ContainsRun(ws, [w]) {
      var i :| 0 <= i <= |ws| && OccursAt(ws, [w], i);
      assert ws[i] == ws[i..i + 1][0];
    }
  }

  /** Whole-word matching: a one-word phrase matches exactly when it is
      equal to one of the text's words, not when it is a part of one. */
  lemma OneWordPhrase(phrase: string, text: string)
    requires IsWord(phrase)
    ensures IsPhraseIn(phrase, text) <==> phrase in TextWords(text)
  {
    SplitSingleWord(phrase);
    OneWordRun(TextWords(text), phrase);
  }

  /** Matching ignores the case of the text. */
  lemma MatchIgnoresCase(phrase: string, text: string)
    ensures IsPhraseIn(phrase, Lower(text)) == IsPhraseIn(phrase, text)
  {
    NormalizeIgnoresCase(text);
  }

  /** Every word of a run that occurs in `ws` is a word of `ws`. */
  lemma RunWordIsWord(ws: seq<string>, pw: seq<string>, i: int, m: int)
    requires OccursAt(ws, pw, i) && 0 <= m < |pw|
    ensures 0 <= i + m < |ws| && ws[i + m] == pw[m]
  {
    assert ws[i + m] == ws[i..i + |pw|][m];
  }

  /** No word of a normalised text holds a punctuation character. */
  lemma TextWordsUnpunctuated(text: string, c: char)
    requires IsPunctuation(c)
    ensures forall n :: 0 <= n < |TextWords(text)| ==> c !in TextWords(text)[n]
  {
    NormalizeClean(text);
    SplitAvoids(Normalize(text), c);
  }

  /** Punctuation is removed from the text only: a phrase holding a
      punctuation character never matches any text. */
  lemma PunctuatedPhraseNeverMatches(phrase: string, text: string, k: nat)
    requires k < |phrase| && IsPunctuation(phrase[k])
    ensures !IsPhraseIn(phrase, text)
  {
    var c := phrase[k];
    var pw := PhraseWords(phrase);
    var ws := TextWords(text);
    InSomeWord(phrase, c);
    var m :| 0 <= m < |pw| && c in pw[m];
    TextWordsUnpunctuated(text, c);
    if i :| 0 <= i <= |ws| && OccursAt(ws, pw, i) {
      RunWordIsWord(ws, pw, i, m);
      assert false;
    }
  }

  /** Whole words, not substrings: "cat" is not found in "concatenate". */
  lemma CatNotInConcatenate()
    ensures !IsPhraseIn("cat", "concatenate")
  {
    assert Normalize("concatenate") == "concatenate";
    SplitSingleWord("concatenate");
    OneWordPhrase("cat", "concatenate");
  }

  /** The apostrophe of "cat's" becomes a space, so "cat" is a word of
      "the cat's toy". */
  lemma CatInCatsToy()
    ensures TextWords("the cat's toy") == ["the", "cat", "s", "toy"]
    ensures IsPhraseIn("cat", "the cat's toy")
  {
    assert Normalize("the cat's toy") == Join(["the", "cat", "s", "toy"]);
    SplitJoin(["the", "cat", "s", "toy"]);
    OneWordPhrase("cat", "the cat's toy");
  }

  lemma HeadlineNormalized()
    ensures Normalize("Breaking: Election Results!")
         == ("breaking" + " ") + ((" " + "election" + " ") + ("results" + " "))
  {
  }

  lemma HeadlineSplit()
    ensures Split(("breaking" + " ") + ((" " + "election" + " ") + ("results" + " ")))
         == ["breaking", "election", "results"]
  {
    PaddedWord("breaking");
    PaddedWord("election");
    PaddedWord("results");
    SplitAppend(" " + "election" + " ", "results" + " ");
    SplitAppend("breaking" + " ", (" " + "election" + " ") + ("results" + " "));
  }

  /** The colon and the exclamation mark vanish and case is folded. */
  lemma HeadlineWords()
    ensures TextWords("Breaking: Election Results!") == ["breaking", "election", "results"]
  {
    HeadlineNormalized();
    HeadlineSplit();
  }

  /** Multi-word phrases match only in the order the words appear: in a
      text whose words are `a b c`, the phrase "b c" matches and the
      phrase "c b" does not. */
  lemma WordOrderMatters(a: string, b: string, c: string, text: string, forward: string, backward: string)
    requires a != c && b != c
    requires TextWords(text) == [a, b, c]
    requires PhraseWords(forward) == [b, c] && PhraseWords(backward) == [c, b]
    ensures IsPhraseIn(forward, text)
    ensures !IsPhraseIn(backward, text)
  {
    var ws := [a, b, c];
    assert OccursAt(ws, [b, c], 1);
    assert ws[0..2] == [a, b] && ws[1..3] == [b, c];
  }

  lemma HeadlinePhrases()
    ensures PhraseWords("election results") == ["election", "results"]
    ensures PhraseWords("results election") == ["results", "election"]
  {
    assert "election results" == Join(["election", "results"]);
    assert "results election" == Join(["results", "election"]);
    assert AllWords(["election", "results"]) && AllWords(["results", "election"]);
    SplitJoin(["election", "results"]);
    SplitJoin(["results", "election"]);
  }

  /** The headline example: "election results" is found in
      "Breaking: Election Results!", "results election" is not. */
  lemma HeadlineOrder()
    ensures IsPhraseIn("election results", "Breaking: Election Results!")
    ensures !IsPhraseIn("results election", "Breaking: Election Results!")
  {
    HeadlineWords();
    HeadlinePhrases();
    WordOrderMatters("breaking", "election", "results", "Breaking: Election Results!",
                     "election results", "results election");
  }
}
