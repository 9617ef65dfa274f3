# RSS feed filter: trigger engine

A Dafny model of the trigger engine of a small RSS news filter written in
Python. The repository holds two near-identical programs, `main_project.py`
and `project.py`. Both define the same core:

- a news item record (`NewsArticle` / `NewsStory`);
- phrase triggers on the title or the description. A phrase matches when its
  words occur as a contiguous run of the item's words. Before splitting, the
  item text is lower-cased and every punctuation character becomes a space;
- time triggers (`BeforeTrigger`, `AfterTrigger`) comparing the publication
  time strictly against a boundary;
- the `Not`, `And` and `Or` combinators;
- a filter keeping, in order, each item that some trigger accepts;
- in `project.py` only, `read_trigger_config`, which compiles configuration
  lines into a name-to-trigger registry and a list of active triggers.

Module layout:

| file | module | what it models |
|---|---|---|
| `results.dfy` | `Results` | `Option` and `Result` wrappers |
| `chars.dfy` | `Chars` | ASCII `str.lower()`, `string.punctuation`, `str.isspace()`, the punctuation-blanking loop |
| `words.dfy` | `Words` | `str.split()` with no argument, with a join used to state its round trip |
| `phrase.dfy` | `Phrase` | both `is_phrase_in` matchers |
| `triggers.dfy` | `Triggers` | the story record, the `Trigger` datatype and `Evaluate` |
| `filter.dfy` | `Filter` | `filter_stories` and `filter_articles` |
| `fields.dfy` | `Fields` | `str.split(',')`, with a join used to state its round trip |
| `config.dfy` | `Config` | the line loop of `read_trigger_config` |

Modelling choices:

- One `Trigger` datatype serves both files. `TitleKeywordTrigger` and
  `TitleTrigger` are the same variant, and so are the two description
  triggers. A phrase trigger stores its phrase lower-cased, as both
  constructors do.
- Each file's phrase matcher and filter is modelled in its own shape, and the
  two are proved equal. In `project.py` they are the functions
  `IsPhraseIn`/`ScanFrom` and `FilterStories`. In `main_project.py` they are
  the loop methods `KeywordIsPhraseIn` and `FilterArticles`.
- Publication times and time boundaries are integers. The AFTER/BEFORE
  argument of a configuration line is parsed by a parameter
  `parse: string -> Option<int>`. `None` stands for `strptime` raising
  `ValueError`.
- The configuration loop raises Python exceptions, which become
  `ConfigError` values:
  - `IndexError`: a missing field;
  - `KeyError(name)`: a name that is not yet defined;
  - `ValueError(text)`: a time argument that does not parse.

  The first exception ends the whole load, so no partial trigger list
  exists (`FailClosed`).
- A stricter compiler would reject duplicate names and report each error
  with its line number. The code does neither: a redefinition silently
  overwrites the registry entry, and the exceptions carry no line number. The
  model follows the code (`RedefinitionOverwrites`, `ConfigError`).
- Cycles between named triggers cannot arise: in the code a name can only
  refer to earlier definitions, and in the model triggers are finite
  datatype values.
- A type token outside TITLE/DESCRIPTION/AFTER/BEFORE/NOT/AND/OR leaves the
  state unchanged, because the `if`/`elif` chain has no `else`. Extra fields
  after the ones a type reads are ignored. Fields are read, and names looked
  up, in the order Python evaluates them. So for `x,AND,y` with `y` defined,
  the error is `IndexError`, and with `y` undefined it is `KeyError(y)`.

## Model

| member | source | states |
|---|---|---|
| Chars.LowerChar | main_project.py:92 | lower-casing maps each letter `A`-`Z` to the matching `a`-`z`, leaves every other character unchanged, and yields no upper-case letter |
| Chars.PunctuationRanges | main_project.py:96 | `string.punctuation` is exactly the ASCII characters with codes 33-47, 58-64, 91-96 and 123-126 |
| Chars.ReplaceEachIsPointwise | project.py:60-61 | replacing characters by a space one `str.replace` after another is the same as blanking every listed character at once |
| Chars.BlankingPunctuation | project.py:59-61 | lower-casing and then blanking a character set that is exactly the punctuation gives the normalised text |
| Chars.SourceNormalization | main_project.py:95-97 | `text.lower()` followed by one `replace(p, ' ')` per punctuation character yields the normalised text, character by character |
| Chars.NormalizeClean | project.py:59-61 | the normalised text contains no punctuation character and no upper-case letter |
| Chars.LowerIdempotent | main_project.py:92 | lower-casing twice is lower-casing once |
| Chars.NormalizeIgnoresCase | main_project.py:95 | a text and its lower-cased form normalise identically |
| Words.Split | main_project.py:98-99 | every word produced by `split()` is non-empty and free of whitespace |
| Words.SplitKeepsNonSpace | main_project.py:98 | the words glued together are exactly the text's non-whitespace characters in order |
| Words.InSomeWord | project.py:62 | a character lies in some word iff it is in the text and is not whitespace |
| Words.SplitAvoids | project.py:62 | a character absent from the text is absent from every word |
| Words.SplitJoin | project.py:62-63 | round trip: splitting well-formed words joined by single spaces gives the words back |
| Words.SplitAppend | project.py:62 | splitting distributes over concatenation at a whitespace boundary |
| Words.SplitFirstWord | main_project.py:98 | a leading word followed by whitespace or the end of the text is split off whole |
| Words.SplitSingleWord | main_project.py:98-99 | a text that is one word splits into exactly that word |
| Words.SplitBlank | main_project.py:99 | an empty or all-whitespace string splits into no words |
| Phrase.ScanFrom | project.py:65-68 | the index loop from position `i` is true iff the phrase words occur as a contiguous run at some position at or after `i` |
| Phrase.IsPhraseIn | project.py:58-68 | `is_phrase_in` is true iff the phrase's words equal some contiguous slice of the normalised text's words |
| Phrase.ReplaceAll | main_project.py:96-97 | the loop over the characters yields the sequential replacement |
| Phrase.BlankPunctuation | main_project.py:95-97 | the lower-case-and-blank prefix of the method yields the normalised text |
| Phrase.FindRun | main_project.py:100-103 | the `range(len(words) - len(phrase_words) + 1)` loop returns true iff a contiguous run matches |
| Phrase.KeywordIsPhraseIn | main_project.py:94-103 | `KeywordTrigger.is_phrase_in` returns the same answer as `PhraseTrigger.is_phrase_in` for every phrase and text |
| Phrase.EmptyPhraseMatchesEverything | main_project.py:99-102 | a phrase with no words (empty or all whitespace) matches every text, the empty one included |
| Phrase.LongerPhraseNeverMatches | main_project.py:100-103 | a phrase with more words than the text never matches |
| Phrase.OneWordRun | project.py:65-67 | a one-word run occurs iff that word is one of the words |
| Phrase.OneWordPhrase | main_project.py:98-102 | a one-word phrase matches iff it equals a whole word of the text, not a part of one |
| Phrase.MatchIgnoresCase | main_project.py:95 | lower-casing the text beforehand does not change the verdict |
| Phrase.RunWordIsWord | project.py:66 | each word of an occurring run is the corresponding word of the text |
| Phrase.TextWordsUnpunctuated | project.py:60-62 | no word of the tokenised text contains a punctuation character |
| Phrase.PunctuatedPhraseNeverMatches | main_project.py:96-99 | a phrase containing a punctuation character matches no text, since only the text is stripped |
| Phrase.CatNotInConcatenate | main_project.py:96-103 | phrase "cat" does not match the text "concatenate" |
| Phrase.CatInCatsToy | main_project.py:96-103 | "the cat's toy" tokenises to `[the, cat, s, toy]`, so "cat" matches |
| Phrase.HeadlineNormalized | project.py:59-61 | "Breaking: Election Results!" normalises to lower case with the colon and exclamation mark blanked |
| Phrase.HeadlineSplit | project.py:62 | that normalised headline splits into `[breaking, election, results]` |
| Phrase.HeadlineWords | project.py:59-62 | "Breaking: Election Results!" tokenises to `[breaking, election, results]` |
| Phrase.WordOrderMatters | project.py:65-67 | in a text with words `a b c`, the phrase `b c` matches and `c b` does not |
| Phrase.HeadlinePhrases | project.py:63 | the two example phrases split into their two words |
| Phrase.HeadlineOrder | project.py:65-68 | "election results" matches the headline and "results election" does not |
| Triggers.TitleTrigger | project.py:55-56 | the trigger is a title trigger whose phrase is, character by character, the argument's `str.lower()` (each `A`-`Z` becomes its `a`-`z`, everything else is kept) |
| Triggers.DescriptionTrigger | project.py:55-56 | the same for a description trigger |
| Triggers.Evaluate | project.py:71-78 | a title or description trigger fires iff its phrase's words occur as a contiguous run of the field's normalised words |
| Triggers.EvaluateReadsOnly | project.py:71-122 | stories that agree on the fields a trigger reads get the same verdict |
| Triggers.PhraseTriggersReadOneField | main_project.py:108-117 | a title trigger reads only the title, a description trigger only the description |
| Triggers.PhraseTriggersIgnoreCase | project.py:55-59 | the phrase is lower-cased at construction and the text at matching, so case never matters |
| Triggers.PunctuatedTriggerNeverFires | main_project.py:91-99 | a trigger built from a phrase with punctuation never fires |
| Triggers.TimeTriggers | project.py:88-94 | BEFORE fires iff pubdate < boundary, AFTER iff pubdate > boundary; at equality neither fires |
| Triggers.TimeWindow | main_project.py:135-141 | for t1 < t2, an item at t2 is after t1 and an item at t1 is before t2 |
| Triggers.Combinators | main_project.py:148-175 | Not, And and Or are negation, conjunction and disjunction of their children; double negation is identity |
| Filter.FilterStories | project.py:129-130 | the result is an order-preserving subsequence holding each accepted story as often as the input does and no rejected story |
| Filter.FilterConcat | project.py:130 | filtering two batches back to back equals filtering their concatenation |
| Filter.NoTriggersKeepNothing | project.py:130 | an empty trigger list yields an empty result |
| Filter.KeptIffAccepted | project.py:130 | a story is in the result iff it is in the input and some trigger accepts it |
| Filter.FilterSnoc | project.py:130 | one more story extends the result by that story iff it is accepted |
| Filter.FirstFiring | main_project.py:187-190 | the inner loop with `break` reports true iff some trigger accepts the article |
| Filter.FilterArticles | main_project.py:184-191 | `filter_articles` returns exactly what `filter_stories` returns |
| Fields.SplitOn | project.py:144 | `split(',')` returns at least one field and no field contains a comma |
| Fields.JoinSplitOn | project.py:144 | joining the fields with commas gives the line back |
| Fields.SplitOnPrefix | project.py:144 | a comma-free prefix is glued onto the first field |
| Fields.SplitOnJoin | project.py:144 | splitting comma-free fields joined by commas gives the fields back |
| Config.Build | project.py:149-163 | exactly the unknown type tokens build nothing; every known type reads a third field; the only failures are a missing field, an undefined operand named on the line, or an unparseable time argument |
| Config.ResolveAll | project.py:146-147 | the ADD lookups succeed iff every name is defined and then yield the bound triggers in order; otherwise the first undefined name is reported |
| Config.CompileLine | project.py:144-163 | ADD appends and defines nothing; other lines never touch the result; unknown types change nothing; TITLE, DESCRIPTION, AFTER, BEFORE, NOT, AND and OR each bind the line's name to their own trigger, built from the argument, the parsed time or the current bindings of the operands, overwriting any earlier binding; missing fields, undefined names and bad times are errors |
| Config.Run | project.py:143-163 | no line removes a binding, and each name listed on an ADD line appends exactly one trigger |
| Config.Compile | project.py:143-165 | a successful load returns one trigger per name listed on the ADD lines, duplicates kept |
| Config.RunAppend | project.py:143-165 | running two blocks of lines is running the first and then the second; an exception in the first ends the load |
| Config.FailClosed | project.py:143-165 | once any line raises, the whole load raises that error and returns no triggers |
| Config.ActiveOnlyGrows | project.py:145-147 | triggers appended by earlier ADD lines remain, in place, in the result |
| Config.NoAddLeavesActive | project.py:148-163 | without ADD lines the result list is unchanged |
| Config.NoAddNoTriggers | project.py:165 | a configuration with no ADD line compiles to no triggers |
| Config.UnknownLineIsIgnored | project.py:150-163 | deleting a line with an unknown type token does not change the outcome |
| Config.LineParts | project.py:144 | a line built from comma-free fields splits back into them |
| Config.UndefinedReference | project.py:158-159 | `x,NOT,y` with `y` undefined raises `KeyError(y)` and produces no trigger |
| Config.TitleLine | project.py:150-151 | `x,TITLE,p` binds `x` to the title trigger of `p` |
| Config.DescriptionLine | project.py:152-153 | `x,DESCRIPTION,p` binds `x` to the description trigger of `p` |
| Config.AndLine | project.py:160-161 | `x,AND,y,z` binds `x` to the conjunction of the current bindings of `y` and `z` |
| Config.AddOneLine | project.py:145-147 | `ADD,y` appends the trigger currently named `y` |
| Config.AddTwoLine | project.py:145-147 | `ADD,y,z` appends the triggers named `y` and `z`, in that order |
| Config.RunStep | project.py:143 | after one successful line the loop continues from the new state |
| Config.ForwardReferenceFails | project.py:158-159 | referring to a name defined only on a later line is a `KeyError` |
| Config.RedefinitionOverwrites | project.py:145-151 | redefining a name is seen by later ADD lines, while earlier appended triggers are unchanged |
| Config.SampleDefinitions | project.py:150-161 | the sample's definition lines build the expected registry |
| Config.CompileSample | project.py:143-165 | any configuration of the sample's shape compiles to `[Title(w1), And(Description(w2), Description(w3))]` |
| Config.SampleConfiguration | project.py:200-204 | the sample lines compile to the list the main thread builds by hand |

## Left out

- Feed retrieval and HTML unescaping (`fetch_rss_feed`, `process`, `translate_html`): network I/O and external libraries.
- The Tk window, the polling thread, `time.sleep` and the guid de-duplication of displayed stories (`main_thread` in both files): GUI, threads and clocks. In `main_project.py`, `main_thread` also refers to names that file does not define.
- Reading the configuration file and dropping blank and `//` comment lines, and the `rstrip()` of each kept line (project.py:140-141): file I/O. The model starts from the lines as they are after that filtering and `rstrip()`: a line given to it with trailing whitespace keeps that whitespace in its last field (`ADD,t1 ` looks up `t1 `), where the source would have stripped it. `read_trigger_config` in `main_project.py` only prints its lines and is not modelled.
- Timestamp parsing and time zones: `strptime` with month names, the `pytz` localisation of `DateTimeTrigger`, and the `replace(tzinfo=EST)` label substitution in `main_project.py`'s time triggers. Times are integers in one reference zone. In `project.py` the boundary is a naive `datetime` while `process` can return an offset-aware `pubdate` (its `%z` fallback), and comparing the two raises `TypeError`; integer times never raise, so the model does not have that exception. The time argument of a configuration line goes through the `parse` parameter.
- Non-ASCII text: `str.lower()` is modelled on ASCII letters only, `str.split()` on ASCII whitespace only (tab, line feed, vertical tab, form feed, carriage return, 0x1C-0x1F, space). Non-ASCII characters are neither lowered nor treated as separators.
- The abstract `Trigger.evaluate` that raises `NotImplementedError`: the closed `Trigger` datatype has no such variant.
- The getters of the story record: they are the datatype's fields.
