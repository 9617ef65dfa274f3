/** Python's `str.split()` with no argument: the maximal runs of
    non-whitespace characters of a string, in order. */
module Words {
  import opened Chars

  /** A word as `str.split()` produces it: non-empty, no whitespace. */
  predicate IsWord(w: string) {
    |w| > 0 && forall k :: 0 <= k < |w| ==> !IsSpace(w[k])
  }

  predicate AllWords(ws: seq<string>) {
    forall k :: 0 <= k < |ws| ==> IsWord(ws[k])
  }

  /** The first whitespace position at or after `i`, or `|s|`. */
  function WordEnd(s: string, i: nat): (j: nat)
    requires i <= |s|
    ensures i <= j <= |s|
    ensures forall k :: i <= k < j ==> !IsSpace(s[k])
    ensures j == |s| || IsSpace(s[j])
    decreases |s| - i
  {
    if i == |s| || IsSpace(s[i]) then i else WordEnd(s, i + 1)
  }

  /** `s.split()`. */
  function Split(s: string): (ws: seq<string>)
    ensures AllWords(ws)
    decreases |s|
  {
    if s == [] then []
    else if IsSpace(s[0]) then Split(s[1..])
    else
      var j := WordEnd(s, 1);
      [s[..j]] + Split(s[j..])
  }

  /** The words separated by single spaces; used to state the round trip
      of `Split`. */
  function Join(ws: seq<string>): string {
    if ws == [] then ""
    else if |ws| == 1 then ws[0]
    else ws[0] + " " + Join(ws[1..])
  }

  /** The words glued together, with no separator. */
  function Concat(ws: seq<string>): string {
    if ws == [] then "" else ws[0] + Concat(ws[1..])
  }

  /** The characters of `s` that are not whitespace, in order. */
  function RemoveSpaces(s: string): string {
    if s == [] then ""
    else (if IsSpace(s[0]) then "" else [s[0]]) + RemoveSpaces(s[1..])
  }

  lemma {:induction false} RemoveSpacesAppend(a: string, b: string)
    ensures RemoveSpaces(a + b) == RemoveSpaces(a) + RemoveSpaces(b)
    decreases |a|
  {
    if a != [] {
      assert (a + b)[1..] == a[1..] + b;
      RemoveSpacesAppend(a[1..], b);
    } else {
      assert a + b == b;
    }
  }

  lemma {:induction false} RemoveSpacesOfWord(w: string)
    requires forall k :: 0 <= k < |w| ==> !IsSpace(w[k])
    ensures RemoveSpaces(w) == w
    decreases |w|
  {
    if w != [] {
      RemoveSpacesOfWord(w[1..]);
    }
  }

  /** Splitting loses only whitespace: glued back together, the words
      are exactly the non-whitespace characters of the text, in order. */
  lemma {:induction false} SplitKeepsNonSpace(s: string)
    ensures Concat(Split(s)) == RemoveSpaces(s)
    decreases |s|
  {
    if s != [] {
      if IsSpace(s[0]) {
        SplitKeepsNonSpace(s[1..]);
      } else {
        var j := WordEnd(s, 1);
        SplitKeepsNonSpace(s[j..]);
        assert s == s[..j] + s[j..];
        RemoveSpacesAppend(s[..j], s[j..]);
        RemoveSpacesOfWord(s[..j]);
        assert Split(s)[1..] == Split(s[j..]);
      }
    }
  }

  /** A character lies in some word exactly when it lies in the glued words. */
  lemma {:induction false} InConcat(ws: seq<string>, c: char)
    ensures c in Concat(ws) <==> exists k :: 0 <= k < |ws| && c in ws[k]
    decreases |ws|
  {
    if ws != [] {
      InConcat(ws[1..], c);
      if c in Concat(ws[1..]) {
        var k :| 0 <= k < |ws[1..]| && c in ws[1..][k];
        assert c in ws[k + 1];
      }
      if exists k :: 0 <= k < |ws| && c in ws[k] {
        var k :| 0 <= k < |ws| && c in ws[k];
        if k > 0 {
          assert c in ws[1..][k - 1];
        }
      }
    }
  }

  lemma {:induction false} InRemoveSpaces(s: string, c: char)
    ensures c in RemoveSpaces(s) <==> c in s && !IsSpace(c)
    decreases |s|
  {
    if s != [] {
      InRemoveSpaces(s[1..], c);
      assert c in s <==> c == s[0] || c in s[1..];
    }
  }

  /** Membership of a character in the words of a split: the words hold
      exactly the non-whitespace characters of the text. */
  lemma InSomeWord(s: string, c: char)
    ensures (exists k :: 0 <= k < |Split(s)| && c in Split(s)[k]) <==> c in s && !IsSpace(c)
  {
    SplitKeepsNonSpace(s);
    InConcat(Split(s), c);
    InRemoveSpaces(s, c);
  }

  /** A character absent from the text is absent from all its words. */
  lemma SplitAvoids(s: string, c: char)
    requires c !in s
    ensures forall n :: 0 <= n < |Split(s)| ==> c !in Split(s)[n]
  {
    InSomeWord(s, c);
  }

  /** Leading whitespace is skipped. */
  lemma SplitSkipsSpace(s: string)
    requires |s| > 0 && IsSpace(s[0])
    ensures Split(s) == Split(s[1..])
  {
  }

  /** A word followed by whitespace or the end of the text is split off whole. */
  lemma SplitFirstWord(w: string, rest: string)
    requires IsWord(w)
    requires rest == [] || IsSpace(rest[0])
    ensures Split(w + rest) == [w] + Split(rest)
  {
    var s := w + rest;
    var j := WordEnd(s, 1);
    assert forall k :: 0 <= k < |w| ==> s[k] == w[k];
    assert |w| == |s| || s[|w|] == rest[0];
    assert j == |w|;
    assert s[..j] == w;
    assert s[j..] == rest;
  }

  /** Round trip: splitting the space-joined words gives the words back. */
  lemma {:induction false} SplitJoin(ws: seq<string>)
    requires AllWords(ws)
    ensures Split(Join(ws)) == ws
    decreases |ws|
  {
    if ws == [] {
    } else if |ws| == 1 {
      SplitFirstWord(ws[0], "");
      assert ws[0] + "" == ws[0];
    } else {
      var rest := " " + Join(ws[1..]);
      assert ws[0] + " " + Join(ws[1..]) == ws[0] + rest;
      SplitFirstWord(ws[0], rest);
      SplitSkipsSpace(rest);
      assert rest[1..] == Join(ws[1..]);
      SplitJoin(ws[1..]);
      assert ws == [ws[0]] + ws[1..];
    }
  }

  /** Whitespace separates `a` from `b`: one of them is empty, `a` ends
      in whitespace, or `b` starts with it. */
  predicate SpaceBoundary(a: string, b: string) {
    a == [] || b == [] || IsSpace(a[|a| - 1]) || IsSpace(b[0])
  }

  /** Appending text after a word boundary does not move that boundary. */
  lemma WordEndAppend(a: string, b: string, i: nat)
    requires i <= |a|
    requires WordEnd(a, i) < |a| || b == [] || IsSpace(b[0])
    ensures WordEnd(a + b, i) == WordEnd(a, i)
  {
    var j := WordEnd(a, i);
    var s := a + b;
    assert forall k :: 0 <= k < |a| ==> s[k] == a[k];
    assert j == |s| || IsSpace(s[j]);
  }

  /** Splitting distributes over concatenation at a whitespace boundary. */
  lemma {:induction false} SplitAppend(a: string, b: string)
    requires SpaceBoundary(a, b)
    ensures Split(a + b) == Split(a) + Split(b)
    decreases |a|
  {
    if a == [] {
      assert a + b == b;
    } else if b == [] {
      assert a + b == a;
    } else if IsSpace(a[0]) {
      assert (a + b)[1..] == a[1..] + b;
      SplitAppend(a[1..], b);
    } else {
      var j := WordEnd(a, 1);
      WordEndAppend(a, b, 1);
      assert (a + b)[..j] == a[..j];
      assert (a + b)[j..] == a[j..] + b;
      SplitAppend(a[j..], b);
    }
  }

  /** A word padded with one space on either side splits to itself. */
  lemma PaddedWord(w: string)
    requires IsWord(w)
    ensures Split(w + " ") == [w]
    ensures Split(" " + w + " ") == [w]
  {
    SplitFirstWord(w, " ");
    SplitBlank(" ");
    assert (" " + w + " ")[1..] == w + " ";
  }

  /** A text that is a single word splits into that word alone. */
  lemma SplitSingleWord(w: string)
    requires IsWord(w)
    ensures Split(w) == [w]
  {
    SplitJoin([w]);
  }

  /** A text of only whitespace (or the empty text) has no words. */
  lemma {:induction false} SplitBlank(s: string)
    requires forall k :: 0 <= k < |s| ==> IsSpace(s[k])
    ensures Split(s) == []
    decreases |s|
  {
    if s != [] {
      SplitBlank(s[1..]);
    }
  }
}
