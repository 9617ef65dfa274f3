/** Applying a trigger list to a batch of stories: `filter_stories`
    (project.py) and `filter_articles` (main_project.py). */
module Filter {
  import opened Triggers

  /** At least one trigger of the list fires on the story. */
  predicate Accepted(triggers: seq<Trigger>, s: Story) {
    exists i :: 0 <= i < |triggers| && Evaluate(triggers[i], s)
  }

  /** `a` can be obtained from `b` by deleting elements: the elements of
      `a` appear in `b` in the same relative order. */
  ghost predicate IsSubsequence<T>(a: seq<T>, b: seq<T>)
    decreases |b|
  {
    if a == [] then true
    else if b == [] then false
    else (a[0] == b[0] && IsSubsequence(a[1..], b[1..])) || IsSubsequence(a, b[1..])
  }

  /** `filter_stories`: the list comprehension keeping each story that
      some trigger accepts. The result is an order-preserving selection
      of the input holding every accepted story as often as the input
      does and no other story. */
  function FilterStories(stories: seq<Story>, triggers: seq<Trigger>): (r: seq<Story>)
    ensures IsSubsequence(r, stories)
    ensures forall s :: multiset(r)[s] == if Accepted(triggers, s) then multiset(stories)[s] else 0
  {
    if stories == [] then []
    else
      var rest := FilterStories(stories[1..], triggers);
      assert stories == [stories[0]] + stories[1..];
      if Accepted(triggers, stories[0]) then [stories[0]] + rest else rest
  }

  /** Filtering distributes over concatenation of batches. */
  lemma {:induction false} FilterConcat(a: seq<Story>, b: seq<Story>, triggers: seq<Trigger>)
    ensures FilterStories(a + b, triggers) == FilterStories(a, triggers) + FilterStories(b, triggers)
    decreases |a|
  {
    if a == [] {
      assert a + b == b;
    } else {
      assert (a + b)[1..] == a[1..] + b;
      FilterConcat(a[1..], b, triggers);
    }
  }

  /** An empty trigger list keeps nothing. */
  lemma NoTriggersKeepNothing(stories: seq<Story>)
    ensures FilterStories(stories, []) == []
  {
  }

  /** A story is kept exactly when it is in the input and accepted. */
  lemma KeptIffAccepted(stories: seq<Story>, triggers: seq<Trigger>, s: Story)
    ensures s in FilterStories(stories, triggers) <==> s in stories && Accepted(triggers, s)
  {
    var r := FilterStories(stories, triggers);
    assert s in r <==> multiset(r)[s] > 0;
    assert s in stories <==> multiset(stories)[s] > 0;
  }

  /** Filtering one more story extends the result by that story exactly
      when it is accepted. */
  lemma FilterSnoc(a: seq<Story>, x: Story, triggers: seq<Trigger>)
    ensures FilterStories(a + [x], triggers)
         == FilterStories(a, triggers) + (if Accepted(triggers, x) then [x] else [])
  {
    FilterConcat(a, [x], triggers);
    assert [x][1..] == [];
  }

  /** The inner loop of `filter_articles`: scan the triggers in order and
      stop at the first one that fires. */
  method FirstFiring(triggers: seq<Trigger>, article: Story) returns (matched: bool)
    ensures matched <==> Accepted(triggers, article)
  {
    matched := false;
    var j := 0;
    while j < |triggers|
      invariant 0 <= j <= |triggers|
      invariant forall k :: 0 <= k < j ==> !Evaluate(triggers[k], article)
    {
      if Evaluate(triggers[j], article) {
        matched := true;
        break;
      }
      j := j + 1;
    }
  }

  /** `filter_articles`: for each article, append it once if some trigger
      fires. It returns exactly what `filter_stories` returns. */
  method FilterArticles(articles: seq<Story>, triggers: seq<Trigger>) returns (filtered: seq<Story>)
    ensures filtered == FilterStories(articles, triggers)
  {
    filtered := [];
    var n := 0;
    while n < |articles|
      invariant 0 <= n <= |articles|
      invariant filtered == FilterStories(articles[..n], triggers)
    {
      var article := articles[n];
      var matched := FirstFiring(triggers, article);
      FilterSnoc(articles[..n], article, triggers);
      assert articles[..n + 1] == articles[..n] + [article];
      if matched {
        filtered := filtered + [article];
      }
      n := n + 1;
    }
    assert articles[..n] == articles;
  }
}
