# Translation annotator: a verified model

This project models the `TranslationAnnotator` class of the translation
annotator (`script.js`), without its DOM, its storage and its randomness.
An annotator loads a CSV corpus. Each row holds an id, a source sentence
and candidate translations. The annotator is handed sessions of up to five
sentences it has not completed yet, and ranks each sentence's candidates by
dragging them into order. Once every sentence of a session has been
reordered, the annotator submits it. The session is appended to a log, its
ids join the completed list, and a new session is drawn.

Modules, one file each:

- `TextUtil` (`text.dfy`): `trim`, `split('\n')`, the blank-line filter and
  decimal rendering of numbers.
- `Csv` (`csv.dfy`): `parseCSVLine`, plus the row and candidate
  construction of `parseCSV`.
- `Ranking` (`ranking.dfy`): live candidates, `addTranslation`'s
  `|| null` provenance, `updateRanks`, `splice`, and the saved and invented
  ranking records.
- `Shuffle` (`shuffle.dfy`): the random sorts, modelled as a permutation
  drawn from a seed, and the drop reorder by a permutation of positions.
- `Corpus` (`corpus.dfy`):
  - corpus entries, as objects;
  - `getAvailableSentences` and `selectRandomSentences`;
  - the merge of session ids into the completed list.
- `Export` (`export.dfy`): the session record, the log archive and the
  corpus snapshot.
- `Annotator` (`annotator.dfy`): the class itself. Its fields are updated
  in place by methods with `modifies` clauses. `Valid()` is the invariant
  every method keeps:
  - corpus and session are duplicate-free;
  - the cursor stays inside a non-empty session, which holds at most five sentences;
  - for a non-empty session, tracked ids belong to the session;
  - live and saved ranks are `1..k`.

Corpus entries are Dafny objects. A session holds references to corpus
entries, so a shuffle or a saved ranking written through the session is
seen by the corpus snapshot, as in the program.

Things the model takes as parameters:

- A random sort is a sequence of numbers, the seed. `Shuffled` turns it into
  a permutation. Every seed gives a permutation
  (`Shuffle.ShuffledPermutes`), and every permutation comes from some seed
  (`Shuffle.ShuffledReachesEvery`).
- Timestamps and session ids are plain values.
- A `confirm` dialog is a boolean.
- The stored CSV text, the completed list and the log are read from
  `localStorage`.

Facts worth knowing:

- A session in which two sentences share an id can never be submitted
  (`Annotator.DuplicateIdsBlockSubmit`). Only one of the two ids can be
  tracked, so the interacted count stays below the session length.
- An empty selection sets the session to empty but keeps the old cursor,
  interaction set and live list.
- Going back to a sentence reloads its shuffle, not its saved ranking.
- The completed ids equal the ids of the logged sessions whenever they did before a submit or a reset. The constructor takes the two stored lists as given, so the model promises this only from a state where it holds.
- Every logged session holds at most five sentences whenever this held before a submit or a reset, because a session never holds more. Then the archive counts at most five records per session (`LoggedRecordsBound`). The stored log is taken as given here too.

## Model

| member | source | states |
|---|---|---|
| TextUtil.TrimStartShape | script.js:607-610 | leading-trim leaves a suffix that does not start with whitespace, and only whitespace was removed |
| TextUtil.TrimEndShape | script.js:607-610 | trailing-trim leaves a prefix that does not end with whitespace, and only whitespace was removed |
| TextUtil.TrimShape | script.js:607-610 | `trim` gives an infix with whitespace-free ends, cutting only whitespace on both sides |
| TextUtil.TrimIdempotent | script.js:607-610 | trimming twice is trimming once |
| TextUtil.TrimBlank | script.js:591 | a line is dropped by the blank filter exactly when all its characters are whitespace |
| TextUtil.SplitLines | script.js:591 | `split('\n')` yields at least one piece, and no piece contains a newline |
| TextUtil.SplitJoinRoundTrip | script.js:591 | joining the pieces of `split('\n')` with newlines gives back the text |
| TextUtil.NonBlankLines | script.js:591 | the filter keeps only non-blank lines of the input, and keeps every non-blank line |
| TextUtil.NatToString | script.js:611 | decimal rendering: at least one digit, all digits, no leading zero |
| TextUtil.NatToStringRoundTrip | script.js:1024 | reading the rendered digits back gives the number, so the rendering is injective |
| Csv.ScanMeaning | script.js:568-588 | after any prefix: the quote flag is the quote-count parity, the closed fields are the commas outside quotes, no field holds a quote, and the joined fields are the prefix without quotes |
| Csv.ParseCsvLine | script.js:568-588 | the loop computes the fields; joined with `,` they give the line with every `"` removed; there is one more field than commas outside quotes; no field contains `"` |
| Csv.CandidatesFrom | script.js:609-614 | kept candidates come from cells at or after the start, in strictly increasing `originalIndex` |
| Csv.HeaderFor | script.js:611 | definition: a header cell that exists and is not the empty string gives its trim, otherwise `Col<k+2>` |
| Csv.CandidatesExact | script.js:609-614 | every kept candidate is exactly the one read from its own non-blank cell |
| Csv.CandidatesWellFormed | script.js:609-614 | every kept candidate has non-empty trimmed text, `originalColumn == originalIndex + 2`, and increasing `originalIndex` |
| Csv.CandidatesComplete | script.js:609-614 | no non-blank cell is dropped |
| Csv.ParseRow | script.js:605-621 | a line gives no row exactly when it has fewer than 3 fields; otherwise trimmed id and source and well-formed candidates |
| Csv.KeptRows | script.js:604-623 | at most one row per data line, each with well-formed candidates |
| Csv.KeptRowsStep | script.js:604-623 | proof helper: one more data line appends its row exactly when the line yields one |
| Ranking.DataOf | script.js:864-872 | typed text has no provenance; for a candidate, header, column and index become null exactly when they are falsy (`""`, `0`), and otherwise keep the candidate's value |
| Ranking.Renumbered | script.js:926-930 | renumbering keeps the entries and their order and makes ranks `1..k` |
| Ranking.RenumberDenseIsIdentity | script.js:926-930 | renumbering already-dense ranks changes nothing |
| Ranking.Loaded | script.js:481-484 | loading a shuffle gives one entry per candidate, in order, with ranks `1..k` |
| Ranking.LoadedProvenance | script.js:868-870 | loading keeps every candidate's text, non-empty header, non-zero column and non-zero index, and turns index 0 into null |
| Ranking.Snapshot | script.js:853-860 | one saved record per live entry, in list order; the entry can be read back from the record; dense live ranks give dense saved ranks |
| Ranking.IdentityRanking | script.js:1021-1028 | the invented ranking follows the original order with ranks `1..k`, keeps provenance as read, and uses ids `original_<id>_<position>` |
| Ranking.IdentityRankingIdsDistinct | script.js:1024 | the invented ids of one sentence are pairwise distinct |
| Ranking.SpliceStart | script.js:919 | definition: `splice`'s start: an in-range index is itself, a negative one counts from the end clamped at 0, a large one is clamped to the length |
| Ranking.SpliceOne | script.js:919 | `splice(index, 1)` removes one entry exactly when the list is non-empty and the index is below its length; the other entries keep their order |
| Shuffle.Pick | script.js:390 | the drawn position is always inside the list |
| Shuffle.Shuffled | script.js:390 | a shuffle has the length of its input |
| Shuffle.ShuffledPermutes | script.js:395 | every shuffle is a permutation of its input |
| Shuffle.SeedFor | script.js:395 | for every rearrangement there is a seed that yields it |
| Shuffle.ShuffledReachesEvery | script.js:390 | every permutation is a possible outcome of the random sort |
| Shuffle.ShuffledDistinct | script.js:390 | shuffling a duplicate-free list gives a duplicate-free list |
| Shuffle.Apply | script.js:140-142 | `newOrder.map(i => translations[i])`: element i of the result is the one at `order[i]` |
| Shuffle.PermutationLength | script.js:137 | a permutation of n positions has n entries |
| Shuffle.ApplyPermutation | script.js:140-142 | reordering by a permutation of positions keeps every element as often as before |
| Corpus.Sentence.constructor | script.js:616-621 | a new entry carries its row, with no rankings and no shuffle |
| Corpus.IdSeqIds | script.js:743-747 | proof helper: the id list and the id set hold the same ids |
| Corpus.IdsCount | script.js:455-461 | there are at most as many distinct ids as sentences, and as many only when no id repeats |
| Corpus.AvailableSentences | script.js:378-380 | the filter returns at most as many entries as the corpus has |
| Corpus.AvailableMembers | script.js:379 | an entry is available exactly when it is in the corpus and its id is not completed |
| Corpus.AvailableConcat | script.js:379 | filtering works entry by entry, so it keeps corpus order |
| Corpus.AvailableNoneCompleted | script.js:379 | with no corpus id completed, the whole corpus is available |
| Corpus.AvailableDistinct | script.js:379 | filtering a duplicate-free corpus gives duplicate-free entries |
| Corpus.PrefixMultiset | script.js:391 | a prefix of a list takes each element at most as often as the list has it |
| Corpus.SelectRandomSentences | script.js:382-392 | returns `min(count, available)` entries, all available, with no repeats; empty exactly when count is 0 or nothing is available |
| Corpus.SelectionFromAvailable | script.js:390-391 | drawing is without replacement: no entry is selected more often than it is available |
| Corpus.SelectionReachesEvery | script.js:390-391 | any arrangement of the available entries, cut to `count`, is a possible selection |
| Corpus.MergeIds | script.js:743-747 | the new completed list holds exactly the old ids and the session ids, with the old list as a prefix |
| Corpus.MergeIdsDistinct | script.js:743-747 | merging adds no duplicate |
| Corpus.MergeIdsKnown | script.js:744 | merging ids that are all completed already changes nothing |
| Corpus.MergeIdsIdempotent | script.js:743-747 | merging the same session twice is merging it once |
| Corpus.SessionsDisjoint | script.js:743-757 | after a session's ids are merged, no sentence with one of those ids can be selected again |
| Export.SessionRecordOf | script.js:726-736 | the session record: one entry per session sentence, in order, with its candidates, shuffle and rankings |
| Export.SessionRecordSaving | script.js:723-736 | the record after the sentence on screen saved its rankings: that entry carries the saved ranking, the others are unchanged |
| Export.TotalAnnotationsConcat | script.js:798 | the sentence-record total of a split log is the sum of the parts' totals |
| Export.TotalAnnotations | script.js:798 | definition: the reduce summing each session's sentence count |
| Export.LoggedIds | script.js:729-735 | definition: the sentence ids held by the records of a log |
| Export.LoggedIdsAppend | script.js:739 | proof helper: appending a record adds exactly its ids to those of the log |
| Export.MergeKeepsLoggedIds | script.js:739-747 | when the completed ids are exactly the logged ids, logging a session and merging its ids keeps them equal |
| Export.TotalAnnotationsBound | script.js:798 | sessions of at most k sentences give at most k times as many records as sessions |
| Annotator.TranslationAnnotator.LoggedRecordsBound | script.js:798 | while every logged session has at most five sentences, the archive's record count is at most five per session |
| Export.ArchiveOf | script.js:789-800 | no archive exactly when the log is empty; otherwise the whole log with its session count and sentence-record total |
| Export.ExportedRankings | script.js:1020-1028 | definition: a sentence exports its saved rankings if it has any, and otherwise the invented original-order ranking |
| Export.SnapshotOf | script.js:1012-1030 | the snapshot lists every corpus sentence in corpus order, numbered from 1 |
| Export.SnapshotRanksDense | script.js:1012-1030 | when saved rankings are dense, every exported ranking has ranks `1..k`, of the saved length or else the candidate count |
| Annotator.GateAgreement | script.js:461-469 | while tracked ids belong to the session: the `<` gate of submit passes exactly when the `===` gate of the button does, and only when every sentence was tracked and no id repeats |
| Annotator.CorpusRows | script.js:591-603 | definition: no rows under two non-blank lines; otherwise the kept rows of the data lines under the header line's translation headers |
| Annotator.DuplicateIdsBlockSubmit | script.js:718 | a session with a repeated id can never pass the submit gate |
| Annotator.ReorderKeepsCandidates | script.js:136-145 | a drop keeps every candidate exactly as often as before, places them in the dropped order, and renumbers ranks to `1..k` |
| Annotator.BuildCorpus | script.js:604-623 | the data-line loop builds one fresh, distinct entry per kept row, in order, with nothing saved or shuffled |
| Annotator.FreshEntries | script.js:616 | proof helper: entries created by the call are fresh at every position |
| Annotator.TranslationAnnotator.constructor | script.js:10-20 | no corpus and no session; completed list and log as stored; user mode |
| Annotator.TranslationAnnotator.CheckForExistingData | script.js:234-242 | a stored corpus text is loaded as `parseCSV` loads one, with no saved rankings; without one, nothing changes |
| Annotator.TranslationAnnotator.StartNewSession | script.js:398-429 | no corpus or owner mode: nothing changes; else the session is the seed's selection of uncompleted sentences, an empty one keeping cursor, interactions and live list, a non-empty one started; only selected entries are reshuffled |
| Annotator.TranslationAnnotator.BeginSession | script.js:417-424 | a non-empty selection becomes the session: cursor 0, interactions cleared, each sentence shuffled by its seed, first shuffle on screen |
| Annotator.TranslationAnnotator.ShuffleSession | script.js:418-420 | each session sentence gets its seed's shuffle; no other entry's shuffle changes |
| Annotator.TranslationAnnotator.ParseCsv | script.js:590-631 | the corpus becomes fresh entries for exactly the rows of the text, none with saved rankings, and a session starts as `startNewSession` starts one |
| Annotator.TranslationAnnotator.LoadCorpus | script.js:590-623 | the corpus becomes fresh entries for exactly the rows of the text, with nothing saved or shuffled; under two non-blank lines it is empty |
| Annotator.TranslationAnnotator.InstallCorpus | script.js:604-623 | proof helper: the corpus becomes the given duplicate-free entries, the invariant kept |
| Annotator.TranslationAnnotator.StartFromLoaded | script.js:625-630 | a session starts as `startNewSession` starts one when the corpus is not empty; the entries keep their empty rankings |
| Annotator.TranslationAnnotator.SubmitSession | script.js:716-763 | refused exactly when fewer sentences were tracked than the session has (for a non-empty session, exactly when the button is disabled), and then nothing changes: no field, no saved ranking, no shuffle; else the on-screen sentence gets the live snapshot as its rankings, the log grows by exactly the session's record, completed ids are merged without duplicates, completed ids stay equal to logged ids if they were, every logged session stays within five sentences if it was, and a new session, sharing no id with this one in user mode, starts only if sentences remain; corpus shuffles change only for the new session's sentences, and none changes when nothing remains or in owner mode |
| Annotator.TranslationAnnotator.AcceptSession | script.js:723-763 | past the gate: the save, the record, the merge and the two log invariants as for a submit, then a new session only when sentences remain; corpus shuffles change only for the new session's sentences, and none changes when nothing remains or in owner mode |
| Annotator.TranslationAnnotator.ContinueSessions | script.js:751-762 | after the merge: when sentences remain, a session as `startNewSession` starts one, which in user mode shares no id with the submitted one; otherwise the session fields unchanged; shuffles change only for the new session's sentences, and none changes when nothing remains or in owner mode |
| Annotator.TranslationAnnotator.RecordSession | script.js:723-747 | the on-screen sentence gets the live snapshot as its rankings; exactly one record of the session, as it is after that save, is appended; the session ids are merged into the completed list; completed ids stay equal to logged ids if they were; every logged session stays within five sentences if it was |
| Annotator.TranslationAnnotator.LogSession | script.js:723-739 | the on-screen sentence gets the live snapshot as its rankings, and exactly one record of the session, as it is after that save, is appended; a session of at most five sentences logs a record of at most five |
| Annotator.TranslationAnnotator.MergeSessionIds | script.js:743-747 | the loop pushes exactly the missing session ids, in session order, adding no duplicate |
| Annotator.TranslationAnnotator.AddTranslation | script.js:864-874 | appends the candidate's data with rank length + 1; ranks stay `1..k` |
| Annotator.TranslationAnnotator.UpdateRanks | script.js:926-930 | the loop leaves the list renumbered: same entries, rank of each = position + 1 |
| Annotator.TranslationAnnotator.DeleteTranslation | script.js:917-923 | once confirmed, splices one entry out and renumbers; ranks stay `1..k`; unconfirmed, nothing changes |
| Annotator.TranslationAnnotator.MarkSentenceAsInteracted | script.js:440-446 | adds the id of the sentence on screen, and nothing when there is no session |
| Annotator.TranslationAnnotator.DropReorder | script.js:131-148 | the live list becomes the renumbered reorder, keeping its candidates, and the sentence on screen is marked |
| Annotator.TranslationAnnotator.SaveCurrentRankings | script.js:850-862 | the sentence on screen gets a snapshot of the live list as its rankings; the cursor stays in range |
| Annotator.TranslationAnnotator.LoadCurrentSessionSentence | script.js:472-488 | the loop rebuilds the live list from the on-screen sentence's shuffle |
| Annotator.TranslationAnnotator.PreviousSentence | script.js:669-675 | steps back unless on the first sentence, never below 0; saves the sentence being left and loads the new one; on the first sentence nothing changes, saved rankings included; with an empty session the live list is kept |
| Annotator.TranslationAnnotator.NextSentence | script.js:677-687 | steps forward unless on the last sentence, never past the end; saves the sentence on screen either way; on the last one, stays put with the live list unchanged |
| Annotator.TranslationAnnotator.ResetAllData | script.js:836-848 | once confirmed, clears the corpus, the completed list and the log, so completed ids equal logged ids and no logged session is too long; unconfirmed, changes nothing |
| Annotator.TranslationAnnotator.SubmitEnabled | script.js:461 | definition: the `===` test that enables the submit button |
| Annotator.TranslationAnnotator.StartedShufflesPermute | script.js:417-420 | in a session just started, each sentence's shuffle holds exactly its candidates, each as often as before |
| Annotator.TranslationAnnotator.SwitchMode | script.js:300-312 | owner mode only when authenticated, otherwise nothing changes; user mode drops the authentication |
| Annotator.TranslationAnnotator.Authenticate | script.js:283-298 | a matching password authenticates and switches to owner mode; a wrong one drops the authentication; a cancel changes nothing |
| Annotator.TranslationAnnotator.ExportAnnotations | script.js:1003-1030 | nothing without a corpus; otherwise saves the rankings on screen and returns the snapshot of the corpus, which includes that save |

## Left out

- DOM rendering, visibility toggles, progress text, modals, `alert`, `confirm` and `prompt`. These are UI; a confirmation is a boolean parameter.
- The progress percentage. It is floating point output.
- Drag gesture geometry (`getDragAfterElement`). The model takes the resulting permutation of positions as the drop's input.
- `localStorage` and JSON persistence. Stored values are parameters of the constructor and of `CheckForExistingData`, and saves are not modelled.
- `FileReader` upload and Blob downloads. These are I/O. The upload path reduces to `ParseCsv` on the file text.
- `Date.now()`, `Math.random()` ids and ISO timestamps. These are opaque values. Timestamps and session ids are parameters, and a live candidate's random id is recorded as `Generated`.
- The password comparison of `promptOwnerPassword` and the prompt itself. `Authenticate` takes the answer as given: cancelled, matching or not.
- `saveTranslation`, the edit modal, `clearAllTranslations`, `showExportSummary`, `escapeHtml` and keyboard shortcuts. These are UI paths outside this model.
- The superseded first `parseCSV` and first `setupEventListeners`, `loadCurrentSentence`/`updateNavigation`, and `resetAllProgress`. They are dead or never wired to an event.
- JavaScript strings are UTF-16 code-unit sequences. They are modelled as sequences of code points, and `trim`'s whitespace set is taken from ECMAScript.
- `Corpus.Sentence`'s `rankings` is always a list, so the `rankings || []` fallback at script.js:734 has no case to model.
- Annotator.TranslationAnnotator.constructor: `init` runs `checkForExistingData` at construction. The model splits this into the constructor followed by a call to `CheckForExistingData`.
- Annotator.TranslationAnnotator.ParseCsv: the contract does not restate that the entries outside the new session have no shuffle. `LoadCorpus` states it for the corpus before the session starts.
- Shuffle.Shuffled: the random comparator sort is modelled as an arbitrary permutation chosen by a seed, not as the distribution the engine's sort produces.
- Annotator.TranslationAnnotator.SubmitSession: the gate stays tied to the button only for a non-empty session. An empty selection keeps the old interaction set, so the two can disagree once the session is empty.
