# Night-coast survey starfield — a Dafny model of its core

The application shows the answers to a three-question survey about a night
walk along the coast as a starfield. Each star is a keyword taken from a fixed
vocabulary, and clicking a star opens the full answer it came from. This
project models the logic behind that:

- **Normalisation.** Every raw survey row (question wording → answer) becomes a
  `Response` with three texts. A missing answer becomes the empty text
  (`RawData`).
- **Keyword extraction.** Every answer of every response is scanned for every
  vocabulary term, in that nesting order. The scan builds a map from term to
  three things: a count, the set of response indices and the set of questions.
  The map becomes a list of keywords, stably sorted by descending frequency
  (`Keywords`, `KeywordOrder`). The fixed list of 117 terms, and the proof that
  it lists no term twice, are in `Lexicon`.
- **Star generation.** The keyword list is walked in order. Each keyword gets
  at most one star, placed on the first answer that contains it and is not
  already shown. Answers are tried response by response, then question by
  question. The walk stops at seventy stars (`FloatingWords`).
- **Poetry phrases.** Each response's three answers are joined with spaces and
  cut at the sentence marks `。，、！？` and the newline. Each trimmed piece is
  kept when its length lies strictly between 3 and 50 (`Phrases`).
- **The home page's state** (`Session.Home`), as a class whose methods are the
  page's event handlers:
  - selecting a star and closing its paragraph;
  - collecting and uncollecting a paragraph, and removing a collection entry;
  - pause, speed, category filter, and showing the collection.
- **The starfield component** (`Starfield`): the category filter over the
  stars, and the map of starting positions built from the filtered stars.

JavaScript built-ins the core relies on are written out in `Text`:

- `includes` on strings;
- `trim`, with JavaScript's whitespace set;
- `split` on a character class;
- the decimal rendering of a counter in a template literal.

Code that works step by step is modelled as methods with loops:

- the extraction's three nested `forEach` loops;
- the generator's `while` loop with its nested `for`/`break` search;
- the phrase loop;
- the positions loop.

Each of these methods is proved equal to a specification function, and the
properties the application relies on are proved about those functions.

`Math.random` is not modelled as randomness. The four draws for the star with
counter `k` are a parameter, `rand(k)`. The dataset file is not part of this
model; its rows are a parameter of `Session.Home.Load`.

Where the written description of the application and its code differ, the
model follows the code:

- Closing the paragraph dialog always resumes the sky (`isPaused := false`).
  It does not restore the pause state from before the star was clicked.
- The `frequency >= 1` filter in `extractKeywords` removes nothing.
  `Keywords.AtLeastOnceKeepsAll` proves this, because every map entry is
  created together with its first count.

## Model

| member | source | states |
|---|---|---|
| Types.QuestionsCoverFields | lib/dataProcessor.ts:51-55 | The three questions scanned per response are all the answer fields there are. |
| RawData.ProcessRawData | lib/dataProcessor.ts:5-11 | One response per row, in row order. Each question's text is the row's answer under that question's wording, or the empty text when the row lacks it. |
| RawData.NormalizeRowOf | lib/dataProcessor.ts:5-11 | Round trip: a row built from a response's three answers normalises back to that very response. |
| RawData.NormalizeIgnoresOtherKeys | lib/dataProcessor.ts:6-10 | Two rows that agree on the three question keys give the same response; every other column is ignored. |
| RawData.KeysDistinct | lib/dataProcessor.ts:7-9 | The three question wordings are pairwise different, so each answer lands in its own field. |
| Text.Contains | lib/dataProcessor.ts:57 | `includes`. A text that includes a term is at least as long as it, and a text includes every prefix of itself; `ContainsIff` states the full meaning. |
| Text.OccursShift | lib/dataProcessor.ts:57 | An occurrence in a text without its first character is an occurrence one position later in the whole text. |
| Text.ContainsIff | lib/dataProcessor.ts:57 | `includes` holds exactly when the term occurs at some position of the text. |
| Text.ContainsSlice | lib/dataProcessor.ts:57 | Every slice of a text is included in it. |
| Text.ContainsTransitive | lib/dataProcessor.ts:57 | If `a` includes `b` and `b` includes `c`, then `a` includes `c`. |
| Text.LeadingSpaceMaximal | lib/dataProcessor.ts:155 | The prefix that `trim` drops is all whitespace and is followed by a non-space character, if any. |
| Text.TrailingSpaceMaximal | lib/dataProcessor.ts:155 | The suffix that `trim` drops is all whitespace and is preceded by a non-space character, if any. |
| Text.Trim | lib/dataProcessor.ts:155 | `trim`. The result is never longer than the text, and it has the same length exactly when the text neither starts nor ends with whitespace; `TrimSpec` states the full meaning. |
| Text.TrimSpec | lib/dataProcessor.ts:155 | A trimmed text neither starts nor ends with whitespace, and it is a contiguous slice of the original. |
| Text.TrimTrimmed | lib/dataProcessor.ts:155 | Trimming an already trimmed text changes nothing. |
| Text.TrimInside | lib/dataProcessor.ts:155 | The original text includes its trimmed form. |
| Text.Split | lib/dataProcessor.ts:152 | Splitting gives one more piece than the text has sentence marks, and no piece holds a mark. |
| Text.SplitUnsplit | lib/dataProcessor.ts:152 | Round trip: joining the pieces back with the marks they were cut at gives the original text. |
| Text.SplitInside | lib/dataProcessor.ts:152 | The original text includes every piece. |
| Text.SplitFirstIsPrefix | lib/dataProcessor.ts:152 | The first piece is a prefix of the text. |
| Text.DigitChar | lib/dataProcessor.ts:121 | Every digit value renders as a character between '0' and '9'. |
| Text.NatToString | lib/dataProcessor.ts:121 | A counter renders as a non-empty string of decimal digits with no leading zero. |
| Text.ParseNatToString | lib/dataProcessor.ts:121 | Round trip: reading the rendered digits gives the counter back. |
| Text.NatToStringInjective | lib/dataProcessor.ts:121 | Different counters render differently. |
| KeywordOrder.SortByFrequency | lib/dataProcessor.ts:81 | The sort keeps the length of the list; `SortPermutes`, `SortNonIncreasing` and `SortRanked` state that it is a stable sort by descending frequency. |
| KeywordOrder.InsertMembers | lib/dataProcessor.ts:81 | Inserting a keyword adds it and keeps every other entry. |
| KeywordOrder.InsertPermutes | lib/dataProcessor.ts:81 | Inserting adds exactly one occurrence of the keyword to the multiset. |
| KeywordOrder.SortPermutes | lib/dataProcessor.ts:81 | The sort is a permutation: the same entries with the same multiplicities. |
| KeywordOrder.InsertNonIncreasing | lib/dataProcessor.ts:81 | Inserting into a list sorted by descending frequency keeps it sorted. |
| KeywordOrder.SortNonIncreasing | lib/dataProcessor.ts:81 | The result is ordered by descending frequency. |
| KeywordOrder.InsertRanked | lib/dataProcessor.ts:81 | Inserting a keyword that arrived before every entry keeps ties in arrival order. |
| KeywordOrder.SortRanked | lib/dataProcessor.ts:81 | Stability: entries of equal frequency keep the order they arrived in. |
| Lexicon.VocabularyDistinct | lib/dataProcessor.ts:18-47 | The fixed list of 117 terms lists no term twice. |
| Keywords.FieldHitsMembers | lib/dataProcessor.ts:56-67 | The scan of one answer reports a term exactly when the vocabulary holds it and the answer includes it. |
| Keywords.ResponseHitsMembers | lib/dataProcessor.ts:51-68 | The scan of one response reports (term, question) exactly when the question is scanned, the term is listed and the answer includes it. |
| Keywords.ScanHitsMembers | lib/dataProcessor.ts:49-70 | The whole scan reports (response, question, term) exactly when the term is listed and that answer includes it. |
| Keywords.ScanHitsOrdered | lib/dataProcessor.ts:49-70 | The scan visits responses in ascending index order. |
| Keywords.FirstPos | lib/dataProcessor.ts:58-66 | The position of a term's first report. It lies before the end exactly when the term is reported, the report there names the term, and no earlier report does. |
| Keywords.HasTermIff | lib/dataProcessor.ts:57-66 | A term is reported somewhere exactly when some report names it. |
| Keywords.FieldsOfIff | lib/dataProcessor.ts:65 | The questions recorded for a term are exactly those of its reports. |
| Keywords.IndicesOfIff | lib/dataProcessor.ts:64 | The response indices recorded for a term are exactly those of its reports. |
| Keywords.CountTermAppend | lib/dataProcessor.ts:63 | The count of a term over joined reports is the sum of the counts. |
| Keywords.NoTermNoCount | lib/dataProcessor.ts:63 | A term with no report has count zero. |
| Keywords.Record | lib/dataProcessor.ts:58-66 | One report's update of the map: the term gets an entry, its count goes up by one (from zero for a new term), and its response index and question are among those recorded; `AccumulateTally` states what the updates add up to. |
| Keywords.AccumulateSnoc | lib/dataProcessor.ts:58-66 | The map built from the reports plus one more is the map built from the reports, updated by that one report. |
| Keywords.AddIndexIncreasing | lib/dataProcessor.ts:64 | Adding a response index no smaller than any recorded keeps the recorded indices strictly increasing. |
| Keywords.AccumulateCount | lib/dataProcessor.ts:58-66 | A term's entry counts its reports, at least one, and records the questions of its reports, at least one. |
| Keywords.AccumulateIndices | lib/dataProcessor.ts:58-66 | A term's entry records exactly the response indices of its reports. |
| Keywords.AccumulateIncreasing | lib/dataProcessor.ts:58-66 | When reports come in response order, a term's recorded response indices are strictly increasing. |
| Keywords.AccumulateKeys | lib/dataProcessor.ts:58-66 | A term has a map entry exactly when it was reported. |
| Keywords.AccumulateTally | lib/dataProcessor.ts:58-66 | A term has a map entry exactly when it was reported. The entry's count, response indices and questions are those of its reports. |
| Keywords.AccumulateOrderKeys | lib/dataProcessor.ts:58-66 | The key order names exactly the keys of the map. |
| Keywords.AccumulateOrder | lib/dataProcessor.ts:58-66 | The map's key order lists each key once, in order of first report. |
| Keywords.OrderByFirstPos | lib/dataProcessor.ts:66 | An earlier key in the order was first reported earlier. |
| Keywords.MatchingFieldsRange | lib/dataProcessor.ts:51-55 | One response adds between zero and three matching answers for a term, and at least one exactly when one of its answers includes the term. |
| Keywords.MatchPairsAtMost | lib/dataProcessor.ts:49-70 | A term matches at most three answers per response. |
| Keywords.MatchPairsAtLeast | lib/dataProcessor.ts:49-70 | A term that some answer includes matches at least one answer. |
| Keywords.CountFieldHits | lib/dataProcessor.ts:56-67 | Scanning one answer counts a term once per vocabulary listing when the answer includes it, and otherwise zero times. |
| Keywords.CountResponseHits | lib/dataProcessor.ts:51-69 | Scanning one response counts a term once per matching answer per listing. |
| Keywords.CountScanHits | lib/dataProcessor.ts:49-70 | A term's count is the number of (response, question) answers that include it, times the number of times the vocabulary lists it. |
| Keywords.ScanHasTerm | lib/dataProcessor.ts:49-70 | A term is reported exactly when it is in the vocabulary and some answer includes it. |
| Keywords.ScanFields | lib/dataProcessor.ts:65 | The questions recorded for a term are exactly the questions some response's answer to which includes it. |
| Keywords.ScanIndices | lib/dataProcessor.ts:64 | The responses recorded for a term are exactly those with an answer that includes it. |
| Keywords.TwoElements | lib/dataProcessor.ts:77 | A set holding two different questions has at least two elements. |
| Keywords.SingleField | lib/dataProcessor.ts:77 | A non-empty set with at most one question holds exactly one of the three. |
| Keywords.TwoFields | lib/dataProcessor.ts:77 | A set of questions has size above one exactly when it holds two different questions. |
| Keywords.Collapse | lib/dataProcessor.ts:77 | The category is `all` exactly when the term was found under more than one question; otherwise it is the one question it was found under. |
| Keywords.Entries | lib/dataProcessor.ts:73-79 | One keyword per map key, in key order, each the summary of its entry. |
| Keywords.AtLeastOnceKeepsAll | lib/dataProcessor.ts:80 | The `frequency >= 1` filter keeps every keyword whose frequency is at least one. |
| Keywords.AccumulateSettled | lib/dataProcessor.ts:58-66 | Every key of the built map has a count of at least one and a non-empty set of questions. |
| Keywords.EntryDescribes | lib/dataProcessor.ts:73-79 | Each map entry, turned into a keyword, describes its term truthfully. The frequency is the count of matching answers times the listing multiplicity. The category is `all` exactly when two questions match, otherwise the one matching question. The response indices are strictly increasing and are exactly the responses that match. |
| Keywords.ExtractedMembers | lib/dataProcessor.ts:73-81 | The extracted list holds the same keywords as the unsorted map entries. |
| Keywords.EntryAtDescribes | lib/dataProcessor.ts:73-79 | Each unsorted entry describes its term truthfully, in the sense of `EntryDescribes`. |
| Keywords.ExtractedDescribes | lib/dataProcessor.ts:73-81 | Every extracted keyword describes its term truthfully, in the sense of `EntryDescribes`. |
| Keywords.EntriesArrive | lib/dataProcessor.ts:73-79 | The unsorted entries arrive in order of each term's first match in the scan. |
| Keywords.EntriesDistinct | lib/dataProcessor.ts:73-79 | The unsorted entries have pairwise different texts. |
| Keywords.ExtractedRanked | lib/dataProcessor.ts:81 | The result is ordered by descending frequency. Ties are ordered by the point of the scan at which each term was first matched. |
| Keywords.ExtractedDistinct | lib/dataProcessor.ts:73-81 | No term is listed twice. |
| Keywords.EntriesList | lib/dataProcessor.ts:73-79 | The unsorted entries name exactly the vocabulary terms that occur somewhere. |
| Keywords.ExtractedLists | lib/dataProcessor.ts:73-81 | The extracted keywords name exactly the vocabulary terms that some answer includes, each once. |
| Keywords.ExtractedSpec | lib/dataProcessor.ts:14-82 | The whole promise of `extractKeywords`: exactly the occurring terms, each once, each described truthfully, ranked by frequency with scan-order ties. |
| Keywords.ExtractedFrequencyRange | lib/dataProcessor.ts:49-81 | Every keyword's frequency is at least one. It is at most three per response times the number of times the vocabulary lists the term. |
| Keywords.ExtractedFrequency | lib/dataProcessor.ts:49-81 | A keyword's term is in the vocabulary; its frequency is the number of answers that include the term times the number of times the vocabulary lists it, and that number of answers is between 1 and three per response. |
| Keywords.ExtractedFrequencyDistinct | lib/dataProcessor.ts:49-81 | For a vocabulary without repeats, a keyword's frequency is exactly the number of (response, question) answers that include its term, between 1 and three per response. |
| Keywords.VocabularyFrequency | lib/dataProcessor.ts:18-81 | For the fixed vocabulary, a keyword's frequency is exactly the number of answers that include its term, between 1 and three per response. |
| Keywords.VocabularyFrequencies | lib/dataProcessor.ts:18-81 | The same for every keyword extracted with the fixed vocabulary. |
| Keywords.FieldHitsStep | lib/dataProcessor.ts:56 | One turn of the innermost loop adds the report for that term, if the answer includes it. |
| Keywords.ResponseHitsStep | lib/dataProcessor.ts:51-55 | One turn of the question loop adds the reports for that answer. |
| Keywords.ScanStep | lib/dataProcessor.ts:56-67 | Examining one more vocabulary term updates the map by `Record` for that term when the answer includes it, and otherwise leaves it as it was. |
| Keywords.ScanText | lib/dataProcessor.ts:56-68 | The innermost loop, over the vocabulary, updates the map one `Record` at a time. It leaves the map and its key order as recording that answer's reports. |
| Keywords.ScanResponse | lib/dataProcessor.ts:51-69 | The loop over the three questions leaves the map as recording the response's reports. |
| Keywords.ExtractKeywordsFrom | lib/dataProcessor.ts:14-82 | The loops and the final pipeline compute `Extracted`. The result lists exactly the occurring terms, each described truthfully, ranked by frequency with scan-order ties. |
| Keywords.ExtractKeywords | lib/dataProcessor.ts:14-82 | The result is `Extracted` for the fixed vocabulary of 117 terms, so `ExtractedSpec` states what it means. Each keyword's frequency is the number of (response, question) answers that include its term, between 1 and three per response. |
| FloatingWords.FirstField | lib/dataProcessor.ts:115-136 | No question is chosen exactly when no answer includes the keyword and is still unshown. A chosen question's answer fits. |
| FloatingWords.FirstFieldEarliest | lib/dataProcessor.ts:115-136 | The chosen question is the first fitting one. |
| FloatingWords.FirstPick | lib/dataProcessor.ts:105-139 | No pick exactly when none of the keyword's responses has a fitting answer. A pick names a listed response and a fitting answer of it. |
| FloatingWords.FirstPickEarliest | lib/dataProcessor.ts:105-139 | The pick is the earliest: no response listed before it has a fitting answer, and its question is the first fitting one. |
| FloatingWords.AdvanceCounted | lib/dataProcessor.ts:98-100 | One turn of the outer loop keeps the count bounds: at most seventy stars, at most one per keyword, origins increasing. |
| FloatingWords.AdvanceShown | lib/dataProcessor.ts:120-131 | One turn keeps every star showing its keyword through a fitting answer, drawn with its own counter's draws. |
| FloatingWords.ShownAppend | lib/dataProcessor.ts:120-131 | A new last star that shows the last keyword and took the next draw keeps every star showing its keyword. |
| FloatingWords.AdvanceUsedOnce | lib/dataProcessor.ts:116-118 | One turn keeps the shown-answer set equal to the stars' answers, with no answer shown twice. |
| FloatingWords.UsedOnceAppend | lib/dataProcessor.ts:116-131 | Adding a star on an answer not yet shown, and recording that answer, keeps the shown set equal to the stars' answers with none twice. |
| FloatingWords.ExhaustedGrows | lib/dataProcessor.ts:118 | A keyword with no unshown answer stays so as more answers are shown. |
| FloatingWords.PickNoneExhausted | lib/dataProcessor.ts:105-139 | A keyword for which the search finds nothing has no unshown answer that includes it. |
| FloatingWords.AdvanceGreedy | lib/dataProcessor.ts:98-140 | One turn keeps greediness: below seventy stars, every keyword that got no star had no unshown answer left. |
| FloatingWords.PlaceSound | lib/dataProcessor.ts:85-143 | The generated stars satisfy all four properties: the bounds, showing and drawing, no answer twice, and greediness. |
| FloatingWords.PlaceFull | lib/dataProcessor.ts:98 | Once seventy stars exist, later keywords change nothing. |
| FloatingWords.PlaceNext | lib/dataProcessor.ts:98-140 | Placing one more keyword is one more turn of the outer loop. |
| FloatingWords.DistinctIds | lib/dataProcessor.ts:121 | The stars' ids `word-k` are pairwise different. |
| FloatingWords.MakeWord | lib/dataProcessor.ts:120-131 | The star pushed for a keyword is star number `k`, placed by its draws; with draws in [0, 1) it starts inside 7.5–92.5 % of the sky; its size is at least 18. |
| FloatingWords.WordIdInjective | lib/dataProcessor.ts:121 | Different counters give different star ids. |
| FloatingWords.DrawnRanges | lib/dataProcessor.ts:123-127 | With draws in [0, 1), a star lies in 7.5–92.5 % of the sky, drifts at 0.2–0.5 and is 0.5–1.0 opaque. |
| FloatingWords.FindUnusedText | lib/dataProcessor.ts:103-139 | The nested search with `break` finds exactly the earliest fitting pick, or none. |
| FloatingWords.GenerateFloatingWords | lib/dataProcessor.ts:85-143 | The `while` loop produces exactly the stars of the specification `Place`, about which `PlaceSound`, `PlaceFull` and `DistinctIds` are proved. |
| Phrases.AllTextHoldsAnswers | lib/dataProcessor.ts:151 | The joined text includes each of the three answers. |
| Phrases.JoinedHoldsParts | lib/dataProcessor.ts:151 | Each of three texts joined with single spaces is included in the joined text. |
| Phrases.KeepPhrasesAppend | lib/dataProcessor.ts:154-159 | The phrase filter works sentence by sentence. |
| Phrases.KeepPhrasesNext | lib/dataProcessor.ts:154-159 | Examining one more sentence keeps its trimmed form exactly when that passes the length test. |
| Phrases.NonBlankRedundant | lib/dataProcessor.ts:152-157 | The blank-sentence filter changes nothing: a sentence that trims to nothing fails the length test anyway. |
| Phrases.KeepPhrasesIff | lib/dataProcessor.ts:154-159 | A phrase is kept exactly when it is the trimmed form of some sentence and its length lies strictly between 3 and 50. |
| Phrases.TrimNoBreak | lib/dataProcessor.ts:155 | Trimming a piece without sentence marks leaves none. |
| Phrases.ResponsePhraseShape | lib/dataProcessor.ts:151-159 | Every phrase of a response is trimmed, 4–49 characters long, free of sentence marks, and included in the joined answers. |
| Phrases.ResponsePhrasesIff | lib/dataProcessor.ts:151-159 | A response's phrases are exactly the good trimmed pieces of its joined answers. |
| Phrases.FlattenIff | lib/dataProcessor.ts:149-160 | A text is among the joined lists exactly when it is in one of them. |
| Phrases.PhrasesIff | lib/dataProcessor.ts:146-163 | The survey's phrases are exactly the phrases of its responses. |
| Phrases.PhrasesNext | lib/dataProcessor.ts:149-160 | Examining one more response appends its phrases. |
| Phrases.PhrasesShape | lib/dataProcessor.ts:146-163 | Every phrase is trimmed, 4–49 characters long, free of sentence marks, and a piece of some response's joined answers. |
| Phrases.GeneratePoetryPhrases | lib/dataProcessor.ts:146-163 | The two nested loops produce exactly `Phrases`, response by response, about which the lemmas above are proved. |
| Session.RemoveAll | app/page.tsx:57 | The filtered list is no longer than the list. |
| Session.RemoveAllMembers | app/page.tsx:57 | A text remains after the filter exactly when it was in the list and differs from the filtered text. |
| Session.RemoveAllCounts | app/page.tsx:57 | The filter drops every copy of the text and keeps every copy of every other text. |
| Session.RemoveAllAbsent | app/page.tsx:57 | Filtering out an absent text changes nothing. |
| Session.RemoveAllAppend | app/page.tsx:57 | The filter works entry by entry, so it keeps the order of what remains. |
| Session.Toggle | app/page.tsx:53-59 | After the update the text is collected exactly when it was not before; other texts are unaffected. |
| Session.RemoveAllDistinct | app/page.tsx:57 | Filtering keeps a list free of repeats and shortens it by one when the text was there. |
| Session.RemoveAllCutsEntry | app/page.tsx:57 | Filtering out a text that occurs exactly once cuts exactly that entry and keeps the rest in order. |
| Session.ToggleDistinct | app/page.tsx:53-59 | Collecting keeps the list free of repeats and changes its length by exactly one, up or down. |
| Session.ToggleTwice | app/page.tsx:53-59 | Collecting a new text and collecting it again restores the list. |
| Session.ToggleCutsEntry | app/page.tsx:56-57 | Uncollecting cuts out exactly the text's one entry and keeps the rest in order. |
| Session.RemoveAt | app/page.tsx:63 | The filter by position shortens the list by one when the index names an entry, and otherwise keeps its length; `RemoveAtSpec` states which entry goes. |
| Session.RemoveAtSpec | app/page.tsx:62-64 | Removing position `i` cuts exactly that entry when it exists, and changes nothing otherwise. |
| Session.RemoveAtDistinct | app/page.tsx:62-64 | Removing an entry keeps the list free of repeats. |
| Session.ExtractedIndicesValid | app/page.tsx:33-34 | Every response index the extraction lists names a loaded response, so the generator can read it. |
| Session.LoadSurvey | app/page.tsx:31-38 | The loading pipeline: the responses are the normalised rows, every response index of the extracted keywords names a response, and the stars are those `Place` gives for the extracted keywords. |
| Session.Home.constructor | app/page.tsx:15-28 | The initial state: no data, not paused, speed 0.6, filter `all`, no star open, nothing collected, collection closed. |
| Session.Home.Load | app/page.tsx:31-38 | Loading normalises the rows, extracts the keywords with the fixed vocabulary and generates the stars from them. Every response index the keywords list names a loaded response. Only the responses and the stars change. |
| Session.Home.WordClick | app/page.tsx:41-44 | The clicked star's paragraph is open and the sky is paused. Nothing else changes. |
| Session.Home.CloseModal | app/page.tsx:47-50 | No paragraph is open and the sky runs, whatever the pause state was. Nothing else changes. |
| Session.Home.Collect | app/page.tsx:53-59 | The collection is toggled for the text. It stays free of repeats, and its count grows or shrinks by one. For the open paragraph, `isCollected` flips. Nothing else changes. |
| Session.Home.RemoveCollection | app/page.tsx:62-64 | The entry at the index is cut out when it exists, and otherwise nothing changes. The list stays free of repeats. |
| Session.Home.TogglePause | app/page.tsx:101 | The pause flag flips. Nothing else changes. |
| Session.Home.SetSpeed | app/page.tsx:103 | The speed becomes the given one. Nothing else changes. |
| Session.Home.SetFilter | app/page.tsx:105 | The category filter becomes the given one. Nothing else changes. |
| Session.Home.SetShowCollection | app/page.tsx:107 | The collection dialog opens or closes as requested. Nothing else changes. |
| Session.Home.SelectedResponse | app/page.tsx:73-76 | There is a response exactly when a star is open and its index names a loaded response, and it is that response. |
| Session.Home.IsCollected | app/page.tsx:67-70 | A paragraph is open and some entry of the collection is its full text; then the collection is not empty. `Collect` flips it for the open paragraph. |
| Session.Home.CollectedCount | app/page.tsx:106 | The count shown is at least the number of different collected paragraphs, and exactly that number while the collection has no repeats. |
| Starfield.FilterWords | components/StarfieldPoetry.tsx:28-32 | There are no more filtered stars than stars. |
| Starfield.FilterMembers | components/StarfieldPoetry.tsx:28-32 | A star is kept exactly when it is among the stars and the filter is `all` or the star's own category. |
| Starfield.FilterAll | components/StarfieldPoetry.tsx:29-30 | With `all`, nothing is filtered out. |
| Starfield.FilterAppend | components/StarfieldPoetry.tsx:31 | The filter works star by star and keeps their order. |
| Starfield.FilterCounts | components/StarfieldPoetry.tsx:28-32 | Every shown star is kept as often as it occurs, and every other star is dropped. |
| Starfield.PositionsKeys | components/StarfieldPoetry.tsx:35-41 | The map has a key exactly for the ids of the stars. |
| Starfield.PositionsValue | components/StarfieldPoetry.tsx:35-41 | A star with no later star of the same id gives its id its own starting position. |
| Starfield.PositionsOfSpec | components/StarfieldPoetry.tsx:35-41 | The map has one key per star id, and each id maps to the position of the last star carrying it. |
| Starfield.PositionsOfDistinct | components/StarfieldPoetry.tsx:35-41 | Stars with pairwise different ids each keep their own starting position. |
| Starfield.FilteredIdsDistinct | components/StarfieldPoetry.tsx:28-32 | Filtering keeps ids pairwise different. |
| Starfield.InitialPositions | components/StarfieldPoetry.tsx:35-41 | The loop builds exactly the map `PositionsOf` of the filtered stars. |
| Starfield.GeneratedPositions | components/StarfieldPoetry.tsx:28-41 | End to end: for any category, every generated star that passes the filter starts at its own drawn position. |

## Left out

- `Math.random` is a parameter `rand: nat -> Draw`, the four draws for the star with counter `k`. The model says nothing about the distribution of the values.
- The dataset file `data.json` is not part of this model. Its rows are a parameter of `Session.Home.Load`. Row values are modelled as texts; a non-text value in a row is not modelled.
- String lengths: a Dafny character is a Unicode code point, while JavaScript's `length` counts UTF-16 units. The two differ only for characters outside the Basic Multilingual Plane, so the 3 < length < 50 test can disagree on texts that hold such characters.
- `trim` strips the ECMAScript standard's whitespace and line-terminator characters, with the space separators of current Unicode listed explicitly. A change in Unicode's space-separator category is not followed.
- FloatingWords.GenerateFloatingWords: requires every response index a keyword lists to name a response. The page only passes keywords from `extractKeywords`, whose indices always do (`Session.ExtractedIndicesValid`). With an out-of-range index the page would fail reading an absent response.
- FloatingWords.GenerateFloatingWords: floating-point arithmetic on the positions, speed, size and opacity is modelled with exact reals.
- Session.Home.CloseModal: the written description says closing restores the earlier pause state. The code always resumes, and the model follows the code.
- Session.Home.SetSpeed: the control panel's range of offered speeds is not modelled; any real is accepted.
- `Session.Home` models React state as fields updated in place. The batching of state updates and re-rendering are not modelled.
- Keyword order inside the map is modelled as an explicit sequence of keys in insertion order, which is what `Map.prototype.entries` yields.
- The drifting animation of the stars (`requestAnimationFrame`, time deltas, pause and speed applied per frame), the particle background and the background music are not modelled. They are rendering and timing code with no state the core reads back.
- The rendering components (ParagraphModal, CollectionModal, ControlPanel), the page layout and the Next.js configuration are not modelled; they only display state.
- The clustering types declared after `FloatingWord` in the types file are not used by the core and are not modelled.
