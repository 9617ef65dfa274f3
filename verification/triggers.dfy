/** News items and the closed family of triggers evaluated on them. */
module Triggers {
  import opened Chars
  import opened Phrase

  /** `NewsStory` (project.py) and `NewsArticle` (main_project.py): five
      fields, with the publication time as a count of seconds in one
      reference time zone. */
  datatype Story = Story(guid: string, title: string, description: string, link: string, pubdate: int)

  /** The trigger classes of both source files. A phrase trigger stores
      its phrase already lower-cased, as the constructor does. */
  datatype Trigger =
    | Title(phrase: string)
    | Description(phrase: string)
    | Before(time: int)
    | After(time: int)
    | Not(inner: Trigger)
    | And(left: Trigger, right: Trigger)
    | Or(left: Trigger, right: Trigger)

  /** `TitleTrigger(phrase)` / `TitleKeywordTrigger(phrase)`. */
  function TitleTrigger(phrase: string): (t: Trigger)
    ensures t.Title? && |t.phrase| == |phrase|
    // The stored phrase is the argument with every letter in lower case.
    ensures forall i :: 0 <= i < |phrase| ==> t.phrase[i] == LowerChar(phrase[i])
  {
    Title(Lower(phrase))
  }

  /** `DescriptionTrigger(phrase)` / `DescriptionKeywordTrigger(phrase)`. */
  function DescriptionTrigger(phrase: string): (t: Trigger)
    ensures t.Description? && |t.phrase| == |phrase|
    ensures forall i :: 0 <= i < |phrase| ==> t.phrase[i] == LowerChar(phrase[i])
  {
    Description(Lower(phrase))
  }

  /** `trigger.evaluate(story)`. */
  function Evaluate(t: Trigger, s: Story): (r: bool)
    // A phrase trigger fires iff its words occur as a contiguous run of
    // the normalised words of its field.
    ensures t.Title? ==> (r <==> ContainsRun(TextWords(s.title), PhraseWords(t.phrase)))
    ensures t.Description? ==>
      (r <==> ContainsRun(TextWords(s.description), PhraseWords(t.phrase)))
  {
    match t
    case Title(p) => IsPhraseIn(p, s.title)
    case Description(p) => IsPhraseIn(p, s.description)
    case Before(b) => s.pubdate < b
    case After(b) => s.pubdate > b
    case Not(u) => !Evaluate(u, s)
    case And(l, r) => Evaluate(l, s) && Evaluate(r, s)
    case Or(l, r) => Evaluate(l, s) || Evaluate(r, s)
  }

  /** The story fields a trigger can look at. */
  datatype Field = TitleField | DescriptionField | PubdateField

  /** The fields a trigger's leaves read. */
  function Reads(t: Trigger): set<Field> {
    match t
    case Title(_) => {TitleField}
    case Description(_) => {DescriptionField}
    case Before(_) => {PubdateField}
    case After(_) => {PubdateField}
    case Not(u) => Reads(u)
    case And(l, r) => Reads(l) + Reads(r)
    case Or(l, r) => Reads(l) + Reads(r)
  }

  /** Two stories agree on every field of `fs`. */
  predicate Agree(s1: Story, s2: Story, fs: set<Field>) {
    && (TitleField in fs ==> s1.title == s2.title)
    && (DescriptionField in fs ==> s1.description == s2.description)
    && (PubdateField in fs ==> s1.pubdate == s2.pubdate)
  }

  /** Evaluation is a pure function of the fields the trigger reads:
      stories that agree on those fields get the same verdict. */
  lemma {:induction false} EvaluateReadsOnly(t: Trigger, s1: Story, s2: Story)
    requires Agree(s1, s2, Reads(t))
    ensures Evaluate(t, s1) == Evaluate(t, s2)
  {
    match t
    case Title(_) =>
    case Description(_) =>
    case Before(_) =>
    case After(_) =>
    case Not(u) =>
      EvaluateReadsOnly(u, s1, s2);
    case And(l, r) =>
      EvaluateReadsOnly(l, s1, s2);
      EvaluateReadsOnly(r, s1, s2);
    case Or(l, r) =>
      EvaluateReadsOnly(l, s1, s2);
      EvaluateReadsOnly(r, s1, s2);
  }

  /** A title trigger ignores every field but the title, and a
      description trigger every field but the description. */
  lemma PhraseTriggersReadOneField(p: string, s: Story, other: Story)
    ensures s.title == other.title ==> Evaluate(Title(p), s) == Evaluate(Title(p), other)
    ensures s.description == other.description ==>
      Evaluate(Description(p), s) == Evaluate(Description(p), other)
  {
    if s.title == other.title {
      EvaluateReadsOnly(Title(p), s, other);
    }
    if s.description == other.description {
      EvaluateReadsOnly(Description(p), s, other);
    }
  }

  /** Phrase triggers are case-insensitive on both sides: the phrase is
      lower-cased when the trigger is built, the text when it is matched. */
  lemma PhraseTriggersIgnoreCase(p: string, s: Story)
    ensures TitleTrigger(Lower(p)) == TitleTrigger(p)
    ensures DescriptionTrigger(Lower(p)) == DescriptionTrigger(p)
    ensures Evaluate(TitleTrigger(p), s) == Evaluate(TitleTrigger(p), s.(title := Lower(s.title)))
    ensures Evaluate(DescriptionTrigger(p), s)
         == Evaluate(DescriptionTrigger(p), s.(description := Lower(s.description)))
  {
    LowerIdempotent(p);
    MatchIgnoresCase(Lower(p), s.title);
    MatchIgnoresCase(Lower(p), s.description);
  }

  /** A phrase holding punctuation yields a trigger that never fires:
      lower-casing keeps the punctuation, and the text loses all of it. */
  lemma PunctuatedTriggerNeverFires(p: string, k: nat, s: Story)
    requires k < |p| && IsPunctuation(p[k])
    ensures !Evaluate(TitleTrigger(p), s)
    ensures !Evaluate(DescriptionTrigger(p), s)
  {
    PunctuatedPhraseNeverMatches(Lower(p), s.title, k);
    PunctuatedPhraseNeverMatches(Lower(p), s.description, k);
  }

  /** Time triggers compare strictly; at the boundary itself neither fires. */
  lemma TimeTriggers(b: int, s: Story)
    ensures Evaluate(Before(b), s) <==> s.pubdate < b
    ensures Evaluate(After(b), s) <==> s.pubdate > b
    ensures s.pubdate == b ==> !Evaluate(Before(b), s) && !Evaluate(After(b), s)
    ensures !(Evaluate(Before(b), s) && Evaluate(After(b), s))
  {
  }

  /** For t1 < t2, an item published at t2 is after t1 and one published
      at t1 is before t2. */
  lemma TimeWindow(t1: int, t2: int, s: Story)
    requires t1 < t2
    ensures Evaluate(After(t1), s.(pubdate := t2))
    ensures Evaluate(Before(t2), s.(pubdate := t1))
  {
  }

  /** The combinators are negation, conjunction and disjunction, and
      double negation is the identity. */
  lemma Combinators(a: Trigger, b: Trigger, s: Story)
    ensures Evaluate(Not(a), s) == !Evaluate(a, s)
    ensures Evaluate(And(a, b), s) == (Evaluate(a, s) && Evaluate(b, s))
    ensures Evaluate(Or(a, b), s) == (Evaluate(a, s) || Evaluate(b, s))
    ensures Evaluate(Not(Not(a)), s) == Evaluate(a, s)
    ensures Evaluate(Not(And(a, b)), s) == Evaluate(Or(Not(a), Not(b)), s)
  {
  }
}
