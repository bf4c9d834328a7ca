# Jeopardy trainer: the board and clue engine in Dafny

This project models the game logic of the Jeopardy trainer, a single-page
browser app (`app.js`). Its parts:

- **Import parser.** `parseDelimited` is the quote-aware splitter behind CSV and TSV import.
- **Board builder.**
  - `eligibleForBoard` keeps first-round clues with a ladder value, a clue text and a response.
  - `groupByCategoryAndValue` groups clues by trimmed category, then by value.
  - `shuffle` is the copy-and-swap shuffle.
  - `buildBoard` picks N complete categories and one clue per ladder value, then resets the session.
- **Session.** The `state` object and the events that change it:
  - opening a clue;
  - the narration and the countdown that waits for it;
  - the buzz window with its single-buzz guard;
  - the blank delay;
  - "Got it" / "Missed" scoring and the skipped outcome when the window expires;
  - `markCellUsed`, with the end of the board;
  - both "Back to board" buttons, the settings and the bank import.
- **Results.** The counting part of `renderResults`:
  - the totals;
  - the per-category counters;
  - the cards ordered by accuracy and cut to six;
  - the review list.
- **Helpers:** `clampNum`, `normalizeCategory`, `estimateSpeechMs` and `escapeHtml`.

The modules, one per file, in dependency order:

- `Wrappers`: Option and Result.
- `Text`: trim, clamp, category normalisation, the speech-length estimate and the decimal rendering of a value.
- `Escape`: escapeHtml.
- `Delimited`: parseDelimited.
- `Board`: eligibility, grouping, shuffle and the board plan.
- `Results`: outcomes, score and results screen.
- `Session`: the `Trainer` class holding the `state` object.

Modelling choices:

- **Randomness.** `Math.random` is replaced by draws the caller supplies. The shuffle uses `catDraw(i) % (i + 1)` at step `i`. The clue of column `k` and value `v` is `options[clueDraw(k, v) % |options|]`. Every board property therefore holds for every draw.
- **Time.** Time is an integer number of milliseconds carried by each event (`now`).
- **Narration.** The speech engine's end or error event and the fallback timer are one event, `NarrationEnds`. The `done` flag makes every call after the first a no-op. `FallbackAt` stands on its own: it bounds the time the fallback timer gives `NarrationEnds`, which the class takes as a parameter.
- **Numbers read from input fields.** A value that is not a number (NaN) is `None`.
- **Whitespace.** `Text.IsSpace` lists the characters `trim()` and `\s` remove.
- **Where the code and the design differ, the model follows the code:**
  - The grouping key is the trimmed category, compared case-sensitively (app.js:98, 288). It is not case-insensitive.
  - The narrated text is "category. For value. clue" (app.js:427), not the clue alone.
  - `finalizeBuzzResult` has no "already resolved" guard (app.js:512-529).
  - The results cards are every category with an outcome, ordered by accuracy and cut to six (app.js:557-561, 581). There is no "attempted ≥ 2" filter.
  - Opening a clue cancels the previous clue's animation frame (`resetClueUI`, app.js:397, 416), and starting its narration cancels the previous utterance (app.js:253). It does not cancel the previous clue's blank-delay timer (app.js:502-509).
  - A buzz is accepted whenever the window is open. If the click lands at or after the deadline before an animation frame has closed the window, it still counts (app.js:444-468).
  - The top "Back to board" button uses up the cell without logging an outcome (app.js:666-673). So the number of outcomes need not equal the number of cells, and nothing here claims it does.

## Model

| member | source | states |
|---|---|---|
| Text.Trim | app.js:98 | the result is the slice of the input between its leading and trailing white space, and it neither starts nor ends with white space |
| Text.TrimIdempotent | app.js:98 | trimming twice is trimming once |
| Text.ToUpper | app.js:279 | each character is upper-cased in place and the length is kept |
| Text.ClampNum | app.js:92-96 | NaN gives the fallback; any number lands in [lo, hi]; a number already inside is unchanged; one below lo gives lo; one above hi gives hi |
| Text.NormalizeCategory | app.js:98 | empty gives "UNKNOWN", anything else is trimmed; a non-empty result has no white space at either end |
| Text.CategoryKeyIsTrimOnly | app.js:98 | " Art " and "Art" share a key while "Art" and "ART" do not: the key is trim-only and case-sensitive |
| Text.NormalizeCategoryStable | app.js:98 | normalising a normalised category changes nothing, unless it trimmed to empty, which then becomes "UNKNOWN" |
| Text.Words | app.js:244 | every word of the split-on-white-space list is non-empty |
| Text.WordsCoverText | app.js:244 | the words, concatenated, are exactly the non-white-space characters of the text, and no word contains white space |
| Text.WordsOfTrim | app.js:244 | trimming first does not change the word list |
| Text.EstimateSpeechMs | app.js:243-247 | 400 ms per word clamped to 1200..12000: under 3 words gives 1200, over 30 gives 12000, otherwise 400 times the word count |
| Text.IntToStringRoundTrip | app.js:427 | the decimal text of a value has a leading '-' exactly when the value is negative, and the digits after it are decimal digits that read back to the magnitude |
| Text.NatToStringRoundTrip | app.js:427 | reading the digits back gives the number |
| Escape.EscapeHtmlPerChar | app.js:630-637 | the five replaceAll passes, ampersand first, equal escaping each character on its own |
| Escape.EscapeHtmlChar | app.js:630-637 | a single character is escaped to its own entity: the later passes never touch the entity an earlier pass produced |
| Escape.EscapeHtmlAppend | app.js:630-637 | escaping distributes over concatenation |
| Escape.EscapeHtmlSafe | app.js:630-637 | no '<', '>', '"' or ''' survives escaping |
| Escape.EscapeHtmlRoundTrip | app.js:630-637 | decoding the five entities gives the original text back |
| Delimited.ParseDelimited | app.js:116-142 | the character loop over index, field, row and quote mode computes Parse, and it always returns at least one row |
| Delimited.RunQuotedBody | app.js:126-129 | inside quotes a doubled quote adds one '"', and delimiters and newlines are field content, up to the closing quote |
| Delimited.RunQuotedField | app.js:126-131 | a quoted field adds its unescaped text to the current field |
| Delimited.RunDelimiter | app.js:132 | outside quotes a delimiter ends the field |
| Delimited.RunNewline | app.js:133 | outside quotes '\n' ends the field and the row |
| Delimited.RunCarriageReturn | app.js:134 | outside quotes '\r' is dropped |
| Delimited.RunOrdinary | app.js:135 | any other character outside quotes joins the field |
| Delimited.RunRowCount | app.js:123-141 | from any parser state, the rows are those already pushed, plus one per newline outside quotes, plus the final row |
| Delimited.ParseRowCount | app.js:116-142 | rows = newlines outside quotes + 1 |
| Delimited.ParseJoinTable | app.js:116-142 | parsing a table written with every field quoted gives the table back |
| Delimited.ParsePlainText | app.js:116-142 | on quote-free text the parse is: drop '\r', split on '\n', split each line on the delimiter |
| Board.FirstRoundExamples | app.js:279-280 | "j", " 1 " and "J" are first-round round names; "2" is not |
| Board.EligibleExamples | app.js:278-283 | a first-round ladder clue with text is eligible; round "2", value 300 or an empty clue is not |
| Board.EligibleClues | app.js:310 | the filter keeps exactly the eligible clues of the bank, each with a ladder value |
| Board.CategoryOrder | app.js:285-295 | the categories in first-seen order, without repeats |
| Board.CategoryOrderKeys | app.js:285-295 | every clue's key is listed, and every listed key is some clue's |
| Board.BucketMembers | app.js:285-295 | a bucket holds exactly the clues of its trimmed category and value |
| Board.GroupByCategoryAndValue | app.js:285-295 | the nested-Map loop builds keys in first-seen order, each bucket equal to Bucket of the input, clues in input order |
| Board.GroupStep | app.js:287-293 | one pass of the loop keeps the Map equal to the grouping of the clues read so far |
| Board.BucketsPartition | app.js:285-295 | the bucket sizes over all categories and ladder values add up to the number of clues: each clue is in exactly one bucket |
| Board.CompleteInMembers | app.js:313-317 | the filter keeps exactly the categories with a clue for every ladder value, in order and without repeats |
| Board.CompleteCategories | app.js:313-317 | the complete categories: distinct, each the key of some clue and complete |
| Board.HasEveryValueIff | app.js:315 | VALUES.every on the Map agrees with completeness on the clues |
| Board.CollectComplete | app.js:313-317 | the loop over the Map entries collects CompleteIn of the key order |
| Board.PassesPermutation | app.js:297-304 | the swap passes keep the multiset |
| Board.Shuffle | app.js:297-304 | the in-place swaps on the copy produce Shuffled, a permutation of the input (same length, same multiset); the input is a value and is left as it was |
| Board.PermutationDistinct | app.js:323 | a permutation of a repeat-free list is repeat-free and has the same members |
| Board.CategoryCount | app.js:307 | the category count is in 3..6, 4 for NaN, and the input itself when already inside |
| Board.Pick | app.js:330 | the drawn clue is one of the options |
| Board.ColumnMapValues | app.js:328-332 | the value map has exactly the ladder values as keys, each mapped to the draw from its bucket |
| Board.Column | app.js:325-334 | a column keeps the category name, has nothing used, and holds for every ladder value a clue of its own bucket |
| Board.FillColumn | app.js:326-333 | the loop over VALUES builds Column |
| Board.FillColumns | app.js:325-334 | the map over the picked names builds Columns |
| Board.Picked | app.js:323 | shuffle(completeCats).slice(0, n) gives n distinct complete categories |
| Board.ColumnsAt | app.js:325 | column k of the board is the column of the k-th picked name |
| Board.PlanIsBoard | app.js:323-334 | whatever the draws, the planned board has n columns with distinct complete categories, nothing used, and a clue from each column's own bucket for every ladder value |
| Board.BoardForCases | app.js:307-334 | an empty bank is EmptyDataset; otherwise fewer complete categories than the clamped count is InsufficientCategories(n, found); otherwise the result is a board for the eligible clues |
| Board.PlanBoard | app.js:306-334 | the grouping, collecting, shuffling and filling steps together compute BoardFor |
| Results.ScoreAppend | app.js:512-524 | logging an outcome changes the score by its Delta |
| Results.ScoreIsCorrectMinusWrong | app.js:512-524 | score = sum of correct values − sum of wrong values |
| Results.CountsAddUp | app.js:542-545 | correct + wrong + skipped = number of outcomes, and buzzed = correct + wrong |
| Results.ReviewMembers | app.js:592 | the review list holds exactly the wrong and skipped outcomes, one per such outcome |
| Results.ReviewAppend | app.js:592 | the review list of a longer log extends that of the shorter one, so it keeps log order |
| Results.ReviewEmpty | app.js:592 | the review list is empty exactly when every outcome was correct |
| Results.TallyCounts | app.js:547-555 | a category's counters are the status counts of its outcomes, and total is their number |
| Results.TallyAddsUp | app.js:547-555 | correct + wrong + skipped = total for each category |
| Results.CatOrderMembers | app.js:547-549 | byCat's keys are distinct, in first-seen order, and are exactly the categories with outcomes |
| Results.TotalsPartition | app.js:547-555 | the category totals add up to the number of outcomes |
| Results.TallyStep | app.js:548-554 | one pass of the byCat loop keeps the Map equal to the tallies of the outcomes read so far |
| Results.TallyByCategory | app.js:547-555 | the counting loop yields the keys in first-seen order and each category's Tally |
| Results.AccuracyOfCard | app.js:557-560 | a category's accuracy lies in [0, 1]; it is 0 exactly when nothing in it was answered correctly, and 1 exactly when something was attempted and nothing answered wrong |
| Results.AccLeTotal | app.js:561 | any two cards compare by accuracy |
| Results.AccLeTrans | app.js:561 | the accuracy order is transitive |
| Results.InsertSorted | app.js:561 | inserting a card into a sorted list keeps it sorted |
| Results.SortByAccuracyCorrect | app.js:561 | the sorted cards are ascending by accuracy and a permutation of the input |
| Results.Top | app.js:581 | slice(0, 6) is the first min(6, n) cards |
| Results.SummaryAddsUp | app.js:540-592 | the results screen: counts add up, buzzed = correct + wrong, at most six cards ascending by accuracy, each card's counters are its category's tally with total > 0, and the review list size is wrong + skipped |
| Results.RenderResults | app.js:540-592 | the counting loop and card building compute Summarize |
| Session.ValueSetIsLadder | app.js:60 | the ladder as a set has five values |
| Session.UsedTotalUpdate | app.js:380-385 | replacing one column changes the used-cell total by the change in that column's used set |
| Session.UsedTotalBound | app.js:380-388 | with used sets inside the ladder, at most five cells per column are used |
| Session.UsedTotalFresh | app.js:333-336 | a fresh board has no used cells |
| Session.NarrationText | app.js:427 | the narrated text is, piece by piece, the normalised category, ". For ", the decimal value, ". " and the clue text |
| Session.FallbackAt | app.js:266 | the fallback fires between 1.7 s and 12.5 s after the narration starts, 500 ms after the length estimate |
| Session.ResultsHiddenAsWritten | app.js:526-527 | as written, the results screen is shown after the last cell but the board is the screen left showing, whether or not the board ended, which differs from the intended screen |
| Session.ViewAfterCellResolved | app.js:533-536 | the intended screen after a cell is resolved: the results exactly when the board ended, else the board; never the clue screen |
| Session.PlannedBoardOk | app.js:333-337 | a planned board with nothing used satisfies the bookkeeping: used count 0, five cells per column, ladder keys |
| Session.BuiltBoardOk | app.js:306-337 | the board buildBoard builds satisfies the same bookkeeping |
| Session.Trainer.constructor | app.js:62-80 | the initial state: empty bank and board, no active cell, score 0, window 5000 ms, blank delay 2000 ms, board screen |
| Session.Trainer.UsedWithinBoard | app.js:380-388 | 0 ≤ usedCount ≤ totalCells in every valid state |
| Session.Trainer.LoadBank | app.js:695-697 | an import with no clues is an error and keeps the old bank; otherwise the bank is replaced |
| Session.Trainer.ApplySettings | app.js:641-644 | the window is the clamped seconds × 1000 (1000..15000 ms) and the blank delay is clamped to 250..5000 ms |
| Session.Trainer.BuildBoard | app.js:306-344 | on an error the board, counts, log and score are unchanged and the second New Board button still shows the board; on success the board is BoardFor's, with usedCount 0, totalCells = n × 5, an empty log and score 0 |
| Session.Trainer.Install | app.js:325-342 | the success half: new board, counts reset, log cleared, score 0, board screen, and the invariant kept |
| Session.Trainer.MarkCellUsed | app.js:380-388 | the value joins the column's used set; usedCount goes up by one exactly when it was new, so a repeated call changes nothing; the board ends exactly when usedCount ≥ totalCells, and then endBoard shows the results screen |
| Session.Trainer.ResolveCell | app.js:526-527 | the cell is used as by markCellUsed, and the board screen is the one left showing, even after the last cell |
| Session.Trainer.EndBoard | app.js:533-536 | the results are Summarize of the log, the cell count and the score, and the score shown equals the log's score |
| Session.Trainer.OpenClue | app.js:406-428 | from a cell not yet used (the board disables used ones), the cell becomes active with its board clue and the clue screen shows; with speech on the narration starts, otherwise the window opens at once with deadline now + window |
| Session.Trainer.NarrationEnds | app.js:259-270 | only the first resolution opens the window, with deadline now + window; a later one changes nothing |
| Session.Trainer.Tick | app.js:456-487 | once the deadline has passed the window expires and one skipped outcome is logged with no score change; before it nothing changes |
| Session.Trainer.LogOutcome | app.js:512-524 | one outcome is appended and the score moves by its Delta |
| Session.Trainer.Buzz | app.js:442-451 | a buzz is accepted only in an open window, not yet buzzed, after the narration has resolved, even at or after the deadline when no tick has closed the window yet; a second buzz changes nothing |
| Session.Trainer.BlankElapsed | app.js:502-508 | after the blank delay the response and the scoring buttons show |
| Session.Trainer.FinalizeBuzzResult | app.js:512-529 | "Got it" adds the value and "Missed" subtracts it, exactly one correct or wrong outcome is logged, the value joins the active column's used set with usedCount counting it once, and the board is left showing even after the last cell |
| Session.Trainer.AcknowledgeNoBuzz | app.js:488-491 | "Back to board" after an expiry adds the value to the active column's used set, counts it once, and leaves the board showing even after the last cell |
| Session.Trainer.BackToBoardTop | app.js:666-673 | the top button uses the active cell (used set and count as above) with no outcome logged and no score change, and leaves the board showing even after the last cell; with no active cell it only shows the board; a column the board no longer has changes nothing |

## Left out

- DOM work is not modelled: `renderBoard`, `renderReviewCard`, the HTML of the results screen, status lines and progress bars. Views are the `View` value only.
- The Web Speech API is not modelled: voices, `speechSynthesis`, `localStorage`. Narration is the event `NarrationEnds`.
- `requestAnimationFrame`, `performance.now` and `setTimeout` become events carrying an integer `now`. Fractions of a millisecond are not modelled.
- The file-import front end is not modelled: `f.text()`, `JSON.parse`, `normalizeClueObj` with `crypto.randomUUID`, the CSV and TSV header mapping, and `detectTSVByContent`. `LoadBank` receives the cleaned clue list.
- `buildExplanation` and `encodeURIComponent` are regex and URL library calls. The review card text is not modelled.
- `pct` and floating-point accuracy: accuracies are compared exactly by cross-multiplying counts.
- Session.Trainer.ApplySettings: the window field is taken as whole seconds (`Option<int>`, with `None` for NaN). A fractional entry such as 2.5 s, which the source rounds to whole milliseconds, is not modelled.
- Board.CategoryCount: the count field comes through `parseInt`, so a non-number is `None`. The text-to-integer parse itself is not modelled.
- Text.ToUpper: only ASCII letters are upper-cased. The rounds are only compared with "1", "J" and "JEOPARDY". The only non-ASCII characters that upper-case to one ASCII letter are 'ı' and 'ſ', which become 'I' and 'S'. None of those three words contains either letter, so the comparison gives the same answer as with full case mapping.
- Results.SortByAccuracyCorrect: proves that the cards are sorted and a permutation, but not that the sort is stable for equal accuracies, which Array.prototype.sort is.
- Session.Trainer.OpenClue: the previous clue's blank-delay timer is not cancelled, so it can still reveal the old response and offer the scoring buttons for the new active cell. The model has one phase, and opening a clue replaces it.
- Session.Trainer.NarrationEnds: a narration left pending by the top "Back to board" button is cut short when the next clue's narration cancels the speech (app.js:253, 268). The old `runClueFlow` then opens a buzz window for the new clue while its narration still plays (app.js:428). The model keeps one pending narration, which `OpenClue` replaces, so it does not capture this early window.
- A `runClueFlow` rejection (app.js:419-422) is not modelled. It only shows an error text and the no-buzz buttons.
- A JavaScript string is a sequence of UTF-16 code units. Here a string is a sequence of Unicode characters. The two differ only for characters outside the Basic Multilingual Plane, and no comparison modelled here depends on them.

## Findings

| source | as written | input that shows it | evidently intended | confidence | as-written member | corrected member |
|---|---|---|---|---|---|---|
| app.js:526-527 | `markCellUsed` (line 387) calls `endBoard`, which shows the results view (line 534). Every caller then calls `showView(ui.boardView)`: `finalizeBuzzResult` here, and the two back buttons at lines 489-490 and 669-671. `Session.Trainer.ResolveCell` and its three callers model this as written. | Resolve the last unused cell of a board (usedCount reaches totalCells) by "Got it", "Missed" or either "Back to board" button. The results screen is hidden again at once, and the board screen is left showing. | After the last cell the results screen stays visible; after any other cell the board shows. | high, not executed | Session.ResultsHiddenAsWritten | Session.ViewAfterCellResolved |
