# Recognition of logical document structures: a verified model of the text scripts

The repository segments German literary text into a hierarchy of text (`(t`),
segments (`(seg`), sentences (`(s`), words (`(w word)`) and characters
(`(c x)`), written as bracket strings that a recurrent neural network grammar
(RNNG) parses. This project models, in Dafny, the five scripts that produce,
repair, split and score those bracket strings:

- `text_to_network_input.py` (module `TextToNetworkInput`): the encoder that turns
  raw text into the network's input line `(t (w ...) (c ...) ...)`.
- `prediction_to_XML.py` (module `PredictionToXml`): the assembly of the network
  input and network answer streams, `get_clips` and `get_full_prediction`, which
  puts the real words back in place of the network's `(XX guess)` terminals.
- `gram_to_sentences.py` (module `GramToSentences`): the splitter that cuts a
  bracket file into one tree per line.
- `evaluation.py` and `evaluation_fab.py` (modules `Extraction`, `Scoring`,
  `Evaluation`): span extraction from the ground-truth and predicted streams,
  and `eval_char`, which selects the records of a category, matches predicted
  records greedily one-to-one against a copy of the ground truth and reports
  two guarded percentages. The two files hold the same algorithm line for
  line; it is modelled once and both are cited. Lines 10-57 of
  `evaluation_fab.py` are lines 7-54 of `evaluation.py` three lines down, and
  its lines 59-119 are lines 70-144 without the blocks inside triple quotes, so
  a row citing one file holds for the same code in the other.

Module `Text` holds the Python string and list operations the scripts use
(`in` on strings, `str.count`, `split(" ")`, `" ".join`, slicing), the `Result`
type whose `IndexError` case stands for Python's out-of-range exception, and
`FindFirst`, the search loop for the first `(t` of a prediction line.

Every loop of the scripts is a Dafny `method` with a `while` loop proved
against a recursive specification function; the properties the scripts rely
on are proved about those functions as lemmas. The scripts keep their state in
local lists and strings, never in objects, so the model has no classes: local
lists become local `seq` variables. Files are modelled as the sequence of their
lines.

Main results:

- `PredictionToXml.CorrectionRestoresGold`: when the network answers the
  structure of a parse with `(XX guess` in place of every terminal,
  `get_full_prediction` on the streams exactly as the script assembles them
  returns the intended parse with its tokens joined by single spaces.
- `PredictionToXml.RepairFails`: the correction raises IndexError exactly when
  there are more `(XX` slots than collected pairs, or an `(XX` is the last token.
- `TextToNetworkInput.TokenizeUnique` and `TextToNetworkInput.WordRoundTrip`:
  the encoder's cut of a word is the only maximal one. Reading its token
  contents back gives the word.
- `GramToSentences.MakeSentences` with `PiecesAtCuts`, `CutsExact` and
  `TailDropped`: a piece is emitted exactly at each `)` that brings the depth
  to 0. Pieces are ordered, do not overlap and end with `)`.
- `Scoring.EvalChar` with `ScoreBounds`, `BucketMeaning`, `BucketsExclusive`
  and `PerfectPrediction`: matches never exceed either total and the
  percentages stay within 0 to 100. The buckets are exclusive, and a
  prediction equal to the ground truth scores 100.
- `Evaluation.ReportOutcome` and `Evaluation.ReportStopped`: the evaluation
  script raises IndexError in exactly the situations listed, and otherwise
  prints one row per category. When a record with seven `)` in a row stops it
  at `T6`, it has already printed the rows of the nine categories before.

Where the code and its design description disagree, the model follows the code:

- The key of a closing record is the whole token, content included. In the
  ground-truth stream `(t (s (w Hi) (c !)))` the record is `("!)))", 2, 2)`,
  not `(")))", 1, 2)`. The token `!)))` is walked after the `(c` before it
  has already moved the counter past `!`.
- "precision" is `100 * matches / gt_total` and "recall" is
  `100 * matches / pred_total`, as in the code (`Scoring.Score`).
- `t_list` has six entries. The test for `T6` reads `t_list[6]` once a record
  holds seven `)` in a row, so `T6` either raises IndexError or selects
  nothing (`Scoring.LastBucketEmpty`). A closer of depth 6 is therefore in no
  bucket: the buckets are pairwise exclusive, but a depth-6 record is not in
  exactly one of them.
- Among the categories only `T6` can fail. A ground truth that ends in `(c`, or an empty record
  list (read by `list_gt[-1]` / `list_pred[-1]`), also stops the script with
  IndexError, before any row is printed (`Evaluation.ReportOutcome`,
  `Evaluation.ReportStopped`).
- The prediction reader of `prediction_to_XML.py` first drops the last
  character of each line, then keeps the words after the first exact `(t`
  (`split[help_+1:]`). `evaluation.py` splits the whole line and keeps that
  `(t` as well (`split[help_:]`). So the two readers agree only up to the
  dropped character; `PredictionToXml.KeptAfterTextTag` states the relation on
  the shortened line.
- `gram_str.replace("  ", " ")` in `text_to_network_input.py` discards its
  result, so it has no effect and is not modelled.
- The encoder writes both `(` and `[` as `[`, and both `)` and `]` as `]`, so
  decoding is exact only for words without square brackets
  (`TextToNetworkInput.BracketsCollide`).

## Model

| member | source | states |
|---|---|---|
| Text.FindFirst | RNNG/scripts/evaluation.py:98-102 | the search loop stops at the first word equal to `(t`: it returns the number of words before it, or all of them when there is none |
| Text.Split | RNNG/scripts/evaluation.py:51 | defines Python's `split(" ")`: the pieces between single separators, empty ones kept, never an empty list |
| Extraction.CloserHasTwo | RNNG/scripts/evaluation.py:84-88 | a token holding `))` holds at least two `)`, so the weight of a closing record is at least 1 |
| Extraction.Weight | RNNG/scripts/evaluation.py:82-88 | a record's weight is at least 1; for a token that is not a `(t`/`(s`/`(seg` tag it is the number of its `)` minus one |
| Extraction.ClosingWeight | RNNG/scripts/evaluation.py:84-88 | the counting loop started at -1 ends at the number of `)` minus one, which is at least 1 for a closing token |
| Extraction.CharContentAdvance | RNNG/scripts/evaluation.py:74-79 | after `(c` the counter moves by 1 when the content holds `»`, `«` or `€`, else by the number of its characters other than `)` |
| Extraction.CharAdvance | RNNG/scripts/evaluation.py:75-79 | defines the move after `(c`: 1 when the content holds `»`, `«` or `€`, else the number of its characters other than `)` |
| Extraction.GtAdvance | RNNG/scripts/evaluation.py:74-81 | defines the counter's move at a ground-truth token: `(c` by its content, `(w` by 1, any other token not at all |
| Extraction.GtReadable | RNNG/scripts/evaluation.py:74-78 | defines when the walk reaches the end: the last token does not hold `(c`, whose content `gt[i+1]` would be read past the end |
| Extraction.GtSpans | RNNG/scripts/evaluation.py:73-90 | defines `list_gt` after the first `n` tokens: a token holding neither `(c` nor `(w` but `(t`, `(s`, `(seg` or `))` appends a record at the counter's position, weighted by its text |
| Extraction.GtToken | RNNG/scripts/evaluation.py:74-90 | one ground-truth token: `(c` moves the counter by its content, `(w` by 1, others not at all; the record list becomes that of one more token |
| Extraction.ExtractGroundTruth | RNNG/scripts/evaluation.py:70-90 | raises IndexError exactly when the last token holds `(c`; otherwise returns the records of the whole stream, in non-decreasing position order, each weighted by its own text |
| Extraction.RecordAt | RNNG/scripts/evaluation.py:82-90 | a token appends at most one record, at the position the counter stands at |
| Extraction.GtPosGrows | RNNG/scripts/evaluation.py:73-81 | the ground-truth counter never goes down |
| Extraction.GtSorted | evaluation_fab.py:62-79 | ground-truth record positions are non-decreasing, and none lies past the counter |
| Extraction.GtWellWeighted | RNNG/scripts/evaluation.py:82-88 | every ground-truth record carries the weight its text gives, so equal texts carry equal weights |
| Extraction.PredToken | RNNG/scripts/evaluation.py:116-128 | one prediction token: only `(XX` moves the counter, by 1; other tokens append their record at the current position |
| Extraction.PredSpans | RNNG/scripts/evaluation.py:113-128 | defines `list_pred` after the first `n` tokens: a token holding `(XX` moves the counter by 1; any other token holding `(t`, `(s`, `(seg` or `))` appends its record at the counter |
| Extraction.ExtractPrediction | evaluation_fab.py:94-109 | returns the records of the whole prediction stream, in non-decreasing position order, each weighted by its text |
| Extraction.PredSorted | evaluation_fab.py:97-109 | prediction record positions are non-decreasing, and none lies past the counter |
| Extraction.PredWellWeighted | evaluation_fab.py:100-107 | every prediction record carries the weight its text gives |
| Extraction.ReadGroundTruth | RNNG/scripts/evaluation.py:48-51 | the ground-truth stream is every line split on single spaces, in order |
| Extraction.GtTokens | RNNG/scripts/evaluation.py:48-51 | defines `gt`: every line split on single spaces, in order |
| Extraction.FromTextTag | RNNG/scripts/evaluation.py:98-103 | a line keeps the suffix of its words that starts at its first exact `(t`; no earlier word is `(t`; nothing is kept when there is none |
| Extraction.PredTokensStep | RNNG/scripts/evaluation.py:96-103 | reading one more line appends the words it keeps |
| Extraction.PredTokens | RNNG/scripts/evaluation.py:94-103 | defines `pred`: of every line split on single spaces, the words from its first exact `(t` on, in order |
| Extraction.ReadPrediction | evaluation_fab.py:83-92 | the prediction stream is the kept part of every line, in order |
| Scoring.AnyFailsSome | RNNG/scripts/evaluation.py:14-16 | a selection loop fails exactly when some record makes the category test fail |
| Scoring.SelectFails | RNNG/scripts/evaluation.py:15-16 | defines when the category test raises: a bucket test that finds `t_list[n-1]` and then reads `t_list[n]` past the end, which only `T6` does |
| Scoring.Selects | RNNG/scripts/evaluation.py:14-18 | defines the category test that does not raise: a bucket holds `t_list[n-1]` and not `t_list[n]`; a tag equals the text, or is `))` and occurs in it |
| Scoring.AnyFails | RNNG/scripts/evaluation.py:14-28 | defines when a selection loop raises: some record of the list makes the test raise |
| Scoring.AnyFailsPrefix | RNNG/scripts/evaluation.py:14-28 | a failure within the records read so far is a failure of the whole loop |
| Scoring.HasRun | RNNG/scripts/evaluation.py:16 | `k` `)` in a row occur in a text exactly when its longest run of `)` is at least `k` |
| Scoring.TListRuns | RNNG/scripts/evaluation.py:12 | entry `n` of `t_list` is a run of `n + 2` `)` |
| Scoring.BucketMeaning | RNNG/scripts/evaluation.py:15-17 | `Tn` selects exactly the texts whose longest run of `)` is `n + 1`, for `n` below 6; it fails exactly for `T6` on a run of seven or more |
| Scoring.BucketsExclusive | evaluation_fab.py:18-20 | no record is selected by two buckets |
| Scoring.TagMeaning | RNNG/scripts/evaluation.py:18 | a tag other than `))` selects only its exact text (`(s` never counts a `(seg` record); `))` selects every text with two `)` in a row |
| Scoring.WeighAppend | RNNG/scripts/evaluation.py:17-19 | the total of a concatenation is the sum of the totals |
| Scoring.Unit | RNNG/scripts/evaluation.py:16-19 | defines what one selected record adds to a total: 1 in a bucket, its weight otherwise |
| Scoring.Weigh | RNNG/scripts/evaluation.py:14-27 | defines `chars_gt`/`chars_pred`: the sum of the units of the selected records |
| Scoring.Selected | RNNG/scripts/evaluation.py:21-28 | defines `char_list`: the records of the list the category test selects, in list order |
| Scoring.SelectedSublist | RNNG/scripts/evaluation.py:21-28 | `char_list` takes records of the list, each at most as often as it occurs there |
| Scoring.SelectedFilter | RNNG/scripts/evaluation.py:21-28 | `char_list` holds only selected records, and every selected record of the list |
| Scoring.SelectedAppend | RNNG/scripts/evaluation.py:21-28 | selecting from a concatenation selects from each part, in order |
| Scoring.FirstMatch | RNNG/scripts/evaluation.py:32-33 | the index of the first remaining record with the candidate's text and position, or the pool size; no earlier record has that key |
| Scoring.FirstMatchFinds | RNNG/scripts/evaluation.py:32-33 | a candidate present in the pool is always found |
| Scoring.Credit | RNNG/scripts/evaluation.py:34-37 | a hit's credit is at most both records' units, and equals the candidate's unit exactly in a bucket or when its weight is not larger |
| Scoring.RemoveAt | RNNG/scripts/evaluation.py:38 | `pop` shortens the pool by one |
| Scoring.RemoveAtParts | RNNG/scripts/evaluation.py:38 | `pop` takes exactly the one record at that index out of the pool |
| Scoring.MatchConsumes | RNNG/scripts/evaluation.py:30-39 | each candidate consumes at most one record, and only records of the pool |
| Scoring.Match | RNNG/scripts/evaluation.py:30-39 | defines the greedy matching: each candidate in turn takes the first remaining record with its text and position, earns its credit, and that record leaves the pool |
| Scoring.MatchWithinCandidates | RNNG/scripts/evaluation.py:31-39 | the credit never exceeds the candidates' own total |
| Scoring.RemoveSelected | RNNG/scripts/evaluation.py:38 | popping a selected record takes its unit out of the pool's selected total |
| Scoring.MatchWithinPool | evaluation_fab.py:33-42 | the credit of selected candidates never exceeds the selected total of the ground truth |
| Scoring.MatchAll | RNNG/scripts/evaluation.py:31-39 | when every candidate is still in the pool and weights follow texts, every candidate earns its full unit |
| Scoring.Percent | evaluation_fab.py:47-48 | 0 on a zero total; between 0 and 100 when the credit is at most the total; 100 when they are equal |
| Scoring.ScoreBounds | RNNG/scripts/evaluation.py:30-45 | matches are at most both totals, and both percentages lie between 0 and 100 |
| Scoring.ScoreOf | RNNG/scripts/evaluation.py:7-45 | defines what `eval_char` computes: IndexError when a record of either list makes the test raise, else both totals, the credit and the two guarded percentages |
| Scoring.PerfectPrediction | RNNG/scripts/evaluation.py:7-45 | a prediction equal to the ground truth fails only where the ground truth fails, and otherwise matches both totals exactly, scoring 100 on each percentage when there is anything to count |
| Scoring.LastBucketSelectsNothing | RNNG/scripts/evaluation.py:12-16 | the `T6` test never selects a record |
| Scoring.LastBucketEmpty | evaluation_fab.py:15-31 | `T6` raises IndexError exactly when a record of either list fails its test; otherwise its row is all zeros |
| Scoring.SelectStep | RNNG/scripts/evaluation.py:21-28 | one record of a selection loop either fails the whole loop, or extends the selected records and their total, or leaves both alone |
| Scoring.Classify | RNNG/scripts/evaluation.py:15-18 | the category test on one record fails exactly when `T6` reads past `t_list`, and otherwise selects exactly the texts the category names |
| Scoring.SelectCategory | RNNG/scripts/evaluation.py:21-28 | raises IndexError exactly when some record fails the test; otherwise returns the selected records in list order and their total |
| Scoring.GreedyMatch | RNNG/scripts/evaluation.py:30-39 | the matching loop computes the greedy one-to-one credit, which never exceeds the candidates' total |
| Scoring.EvalChar | evaluation_fab.py:10-48 | `eval_char` computes the category's score; matches are at most both totals and both percentages lie between 0 and 100 |
| Evaluation.Rows | RNNG/scripts/evaluation.py:143-144 | defines the printed rows: one `eval_char` per category in order, stopping at the first that raises, with the rows printed before it |
| Evaluation.RowsStep | RNNG/scripts/evaluation.py:143-144 | one more category appends its row, raises after the rows so far, or prints nothing once the script has stopped |
| Evaluation.RowsFailStays | RNNG/scripts/evaluation.py:143-144 | once a category raises, later categories print nothing |
| Evaluation.RowsShape | RNNG/scripts/evaluation.py:143-144 | row `k` is the score of category `k`; the script stops exactly when some category fails, and the first category without a row is one that fails |
| Evaluation.RowsRunThrough | RNNG/scripts/evaluation.py:143-144 | when no category fails, every category prints its row |
| Evaluation.StopsAtLast | RNNG/scripts/evaluation.py:143-144 | when only the last category can fail, a stopped run has printed the rows of all the others |
| Evaluation.OnlyLastBucketFails | RNNG/scripts/evaluation.py:12-28 | only `T6` can fail, and exactly on a record with seven `)` in a row |
| Evaluation.LeadingRunThrough | RNNG/scripts/evaluation.py:5-28 | the nine categories before `T6` never raise |
| Evaluation.RowsFail | RNNG/scripts/evaluation.py:143-144 | the category loop stops exactly when a record of either list has seven `)` in a row |
| Evaluation.RowsBounds | RNNG/scripts/evaluation.py:30-45 | every printed row has matches within both totals and percentages between 0 and 100 |
| Evaluation.RowsComplete | RNNG/scripts/evaluation.py:143-144 | a run that does not stop prints one row per category, and the `T6` row is all zeros |
| Evaluation.RowsStopAtLast | RNNG/scripts/evaluation.py:5-46 | a run that stops has printed exactly the nine rows of the categories before `T6` |
| Evaluation.Report | RNNG/scripts/evaluation.py:70-144 | defines the whole run: IndexError with nothing printed on an unreadable ground truth or an empty record list, else the category rows |
| Evaluation.ReportOutcome | RNNG/scripts/evaluation.py:48-144 | the script raises IndexError exactly when the ground truth ends in `(c`, either record list is empty, or a record has seven `)` in a row; otherwise it prints ten rows |
| Evaluation.ReportStopped | RNNG/scripts/evaluation.py:136-144 | a run stopped by an unreadable ground truth or an empty record list has printed no row; one stopped at `T6` has printed the nine rows before it |
| Evaluation.Evaluate | evaluation_fab.py:51-119 | the script's top level prints exactly the rows of the run and raises exactly when it does: read, extract, read the last records, one `eval_char` per category |
| PredictionToXml.GetClips | RNNG/scripts/prediction_to_XML.py:18-25 | the clips are made only of `)`: one fewer than the token's `)`, none when it has none |
| PredictionToXml.Clips | RNNG/scripts/prediction_to_XML.py:18-25 | defines `get_clips`: one `)` for every `)` of the token after the first |
| PredictionToXml.ClipsIgnoresOthers | RNNG/scripts/prediction_to_XML.py:21-24 | characters other than `)` around a token do not change its clips |
| PredictionToXml.ClipsOfRun | RNNG/scripts/prediction_to_XML.py:18-25 | a guess without `)` followed by `d + 1` `)` yields `d` of them |
| PredictionToXml.CollectWordsAndChars | RNNG/scripts/prediction_to_XML.py:51-56 | the first loop of `get_full_prediction` computes `w_and_c`, or its IndexError |
| PredictionToXml.WordsAndChars | RNNG/scripts/prediction_to_XML.py:51-56 | defines `w_and_c`: every `(w`/`(c` token joined by a space to the token after it, or IndexError when such a token is last |
| PredictionToXml.WordsAndCharsFails | RNNG/scripts/prediction_to_XML.py:54-56 | collecting `w_and_c` fails exactly when the last network token holds `(w` or `(c` |
| PredictionToXml.WordsAndCharsCount | RNNG/scripts/prediction_to_XML.py:54-56 | when collecting succeeds there is one pair per `(w`/`(c` token |
| PredictionToXml.NetworkLeaf | RNNG/scripts/prediction_to_XML.py:54-56 | a terminal opener and its word become one pair, opener, space and word |
| PredictionToXml.NetworkPairs | RNNG/scripts/prediction_to_XML.py:54-56 | the pairs of a parse's network input are its terminals, in order |
| PredictionToXml.WordsAndCharsPlain | RNNG/scripts/prediction_to_XML.py:54-56 | a token that opens no terminal adds no pair |
| PredictionToXml.DropTwo | RNNG/scripts/prediction_to_XML.py:71 | `[:-2]` removes the last two characters, and leaves nothing of a shorter string |
| PredictionToXml.RepairSlotStep | RNNG/scripts/prediction_to_XML.py:64-67 | at an `(XX` the loop writes the next pair and the clips of the next token and skips that token, or fails when either is missing |
| PredictionToXml.RepairCopyStep | RNNG/scripts/prediction_to_XML.py:68-69 | any other token is copied, followed by one space |
| PredictionToXml.Repair | RNNG/scripts/prediction_to_XML.py:58-69 | defines the second loop: at `(XX` the next pair and the clips of the next token, which is skipped; every other token copied; each followed by a space; IndexError when pairs or tokens run out |
| PredictionToXml.FullPrediction | RNNG/scripts/prediction_to_XML.py:46-71 | defines `get_full_prediction`: collect the pairs, correct the prediction, drop the last two characters, passing on either IndexError |
| PredictionToXml.GetFullPrediction | RNNG/scripts/prediction_to_XML.py:46-71 | `get_full_prediction`: both loops and the final `[:-2]`, with their IndexErrors |
| PredictionToXml.RepairCopies | RNNG/scripts/prediction_to_XML.py:68-69 | without `(XX` the correction copies the prediction token by token, each followed by a space |
| PredictionToXml.RepairFails | RNNG/scripts/prediction_to_XML.py:58-67 | the correction fails exactly when there are more `(XX` slots than pairs, or an `(XX` is the last token |
| PredictionToXml.RepairNode | RNNG/scripts/prediction_to_XML.py:68-69 | a structural token is copied in front of the rest of the correction |
| PredictionToXml.RepairLeaf | RNNG/scripts/prediction_to_XML.py:64-67 | an `(XX` and its guess become the next pair with the guess's brackets beyond the first |
| PredictionToXml.RepairRestores | RNNG/scripts/prediction_to_XML.py:58-69 | correcting the network's answer with the pairs of its input writes the intended parse, token by token |
| PredictionToXml.CloseLast | RNNG/scripts/prediction_to_XML.py:32 | `ts[-1] += ")"` changes only the last token, by one `)` |
| PredictionToXml.NetworkSide | RNNG/scripts/prediction_to_XML.py:27-56 | the pairs of the network input as the script assembles it are the parse's terminals, the last with the extra `)` |
| PredictionToXml.PredictedSide | RNNG/scripts/prediction_to_XML.py:34-44 | the network's answer as the script assembles it ends with one more `)` on the last guess |
| PredictionToXml.CorrectionRestoresGold | RNNG/scripts/prediction_to_XML.py:27-71 | given the streams as assembled, the corrected string is the intended parse joined by single spaces; the extra `)` on the last token is what `[:-2]` removes |
| PredictionToXml.NetworkTokensStep | RNNG/scripts/prediction_to_XML.py:29-31 | one more network-input line appends the tokens of `line[3:-1]` |
| PredictionToXml.Inner | RNNG/scripts/prediction_to_XML.py:31 | defines `line[3:-1]`: the line without its first three characters and its last, empty when shorter than four |
| PredictionToXml.NetworkTokens | RNNG/scripts/prediction_to_XML.py:29-31 | defines the tokens the loop adds: `line[3:-1]` split on single spaces, for every line in order |
| PredictionToXml.NetworkStream | RNNG/scripts/prediction_to_XML.py:27-32 | defines `network_input`: `(t`, the tokens of every line, and one more `)` on the last token |
| PredictionToXml.ReadNetworkInput | RNNG/scripts/prediction_to_XML.py:27-32 | `network_input` is `(t`, the tokens of every line, and one more `)` on the last token |
| PredictionToXml.PredictionTokensStep | RNNG/scripts/prediction_to_XML.py:36-43 | one more prediction line appends the words after its first exact `(t` |
| PredictionToXml.AfterTextTag | RNNG/scripts/prediction_to_XML.py:37-43 | defines what the `pred` loop keeps of one line: the line without its last character, split on single spaces, from the word after the first exact `(t` |
| PredictionToXml.PredictionTokens | RNNG/scripts/prediction_to_XML.py:36-43 | defines the tokens the `pred` loop adds: the kept words of every line, in order |
| PredictionToXml.PredictionStream | RNNG/scripts/prediction_to_XML.py:34-44 | defines `pred`: `(t`, the kept words of every line, and one more `)` on the last token |
| PredictionToXml.ReadPredictionLine | RNNG/scripts/prediction_to_XML.py:36-43 | one line of the `pred` loop: drop its last character, split, keep the words after the first exact `(t` |
| PredictionToXml.ReadPredictionStream | RNNG/scripts/prediction_to_XML.py:34-44 | `pred` is `(t`, the kept words of every line, and one more `)` on the last token |
| PredictionToXml.StreamsShape | RNNG/scripts/prediction_to_XML.py:27-44 | both streams are non-empty, the network input starts with `(t` once there is a line, and both end in `)` |
| PredictionToXml.KeptAfterTextTag | RNNG/scripts/prediction_to_XML.py:37-43 | of a line without its last character, the correction keeps what `FromTextTag` keeps of that shortened line less its leading `(t`, and nothing when the shortened line has no `(t` |
| TextToNetworkInput.ExtendRun | RNNG/scripts/text_to_network_input.py:20-26 | an alphabet character extends the open run |
| TextToNetworkInput.Step | RNNG/scripts/text_to_network_input.py:20-26 | defines one step of the inner loop: a character outside the alphabet is a token of its own, an alphabet character extends the open run or starts one |
| TextToNetworkInput.Tokenize | RNNG/scripts/text_to_network_input.py:18-28 | defines the tokens of one word: the steps over all its characters |
| TextToNetworkInput.Escape | RNNG/scripts/text_to_network_input.py:24 | defines the content of a `(c` token: `(` as `[`, `)` as `]`, any other character as itself |
| TextToNetworkInput.Render | RNNG/scripts/text_to_network_input.py:22-24 | defines the text written for one token: ` (w run)` or ` (c x)` with `x` escaped |
| TextToNetworkInput.Encoded | RNNG/scripts/text_to_network_input.py:15-28 | defines the text written for a list of words: the tokens of each word, in order; an empty word writes nothing |
| TextToNetworkInput.GramLine | RNNG/scripts/text_to_network_input.py:13-47 | defines the line the script writes: `(t`, the tokens of every word of the text split on single spaces, and `)` |
| TextToNetworkInput.CloseRun | RNNG/scripts/text_to_network_input.py:21-25 | another character closes the open run and becomes a token of its own |
| TextToNetworkInput.WordStart | RNNG/scripts/text_to_network_input.py:18-19 | at the start of a word nothing of it is written |
| TextToNetworkInput.AlphaStep | RNNG/scripts/text_to_network_input.py:20-26 | at an alphabet character the written text stays and the run grows |
| TextToNetworkInput.MarkStep | RNNG/scripts/text_to_network_input.py:21-25 | at another character the run, if any, and the character are written and a new run starts after it |
| TextToNetworkInput.EndStep | RNNG/scripts/text_to_network_input.py:27-28 | at the end of a word the open run is its last token |
| TextToNetworkInput.RunText | RNNG/scripts/text_to_network_input.py:22-23 | a run is written as ` (w run)` when it is not empty, and not at all otherwise |
| TextToNetworkInput.EncodeChar | RNNG/scripts/text_to_network_input.py:20-26 | one step of the inner loop keeps the written text equal to the tokens of the characters read |
| TextToNetworkInput.FinishWord | RNNG/scripts/text_to_network_input.py:27-28 | after the loop the trailing run completes the word's tokens |
| TextToNetworkInput.AppendWord | RNNG/scripts/text_to_network_input.py:18-28 | the inner loop appends exactly the word's tokens |
| TextToNetworkInput.EncodedStep | RNNG/scripts/text_to_network_input.py:15-28 | one more word appends its tokens after those of the words before it |
| TextToNetworkInput.EncodeText | RNNG/scripts/text_to_network_input.py:13-47 | the written line is `(t`, the tokens of every word of the text split on spaces, and `)` |
| TextToNetworkInput.OriginalStep | RNNG/scripts/text_to_network_input.py:20-26 | every step of the tokenizer accounts for exactly the character it reads |
| TextToNetworkInput.TokensUpToOriginal | RNNG/scripts/text_to_network_input.py:20-28 | the tokens of a prefix stand for that prefix, in character order |
| TextToNetworkInput.TokenizeOriginal | RNNG/scripts/text_to_network_input.py:18-28 | the tokens of a word stand for the word: no character is lost, added or reordered |
| TextToNetworkInput.StepMaximal | RNNG/scripts/text_to_network_input.py:21-25 | a step keeps every run non-empty, made of alphabet characters, and never next to another run |
| TextToNetworkInput.TokensUpToMaximal | RNNG/scripts/text_to_network_input.py:20-26 | the tokens of every prefix are maximal runs and single other characters |
| TextToNetworkInput.TokenizeMaximal | RNNG/scripts/text_to_network_input.py:20-28 | the tokens of a word are maximal runs and single other characters, the trailing run included |
| TextToNetworkInput.TokenizeAppendRun | RNNG/scripts/text_to_network_input.py:27-28 | a run of alphabet characters at the end of a word becomes one run token |
| TextToNetworkInput.TokenizeUnique | RNNG/scripts/text_to_network_input.py:20-28 | maximal tokens are exactly the tokens of the characters they stand for: the encoder's cut is the only maximal one |
| TextToNetworkInput.ContentRoundTrip | RNNG/scripts/text_to_network_input.py:23-24 | reading back one token's content gives its characters, when those hold no square bracket |
| TextToNetworkInput.ContentsRoundTrip | RNNG/scripts/text_to_network_input.py:20-28 | reading back the contents of a token list gives the characters it stands for |
| TextToNetworkInput.WordRoundTrip | RNNG/scripts/text_to_network_input.py:20-28 | concatenating a word's token contents and turning `[`/`]` back into `(`/`)` gives the word |
| TextToNetworkInput.BracketsCollide | RNNG/scripts/text_to_network_input.py:24 | `(` and `[` are different tokens but written with the same content `[` |
| TextToNetworkInput.ContentNoParens | RNNG/scripts/text_to_network_input.py:21-24 | no token content holds `(` or `)` when the alphabet holds neither |
| TextToNetworkInput.RenderBrackets | RNNG/scripts/text_to_network_input.py:23-24 | a written token opens one bracket and closes one |
| TextToNetworkInput.RenderAllBrackets | RNNG/scripts/text_to_network_input.py:20-28 | the tokens of a word open and close one bracket each |
| TextToNetworkInput.EncodedBalanced | RNNG/scripts/text_to_network_input.py:15-28 | the tokens of the whole text are bracket-balanced |
| TextToNetworkInput.GramLineBalanced | RNNG/scripts/text_to_network_input.py:14-47 | the written line opens with `(t`, ends with `)` and its brackets balance |
| GramToSentences.DepthCounts | gram_to_sentences.py:9-13 | the depth is the number of `(` minus the number of `)` read so far |
| GramToSentences.Depth | gram_to_sentences.py:9-13 | defines `sentence_help` after the first `n` characters: up by one at each `(`, down by one at each `)` |
| GramToSentences.Closes | gram_to_sentences.py:12-14 | defines a cut: an index holding a `)` after which the depth is 0 |
| GramToSentences.CutsUpTo | gram_to_sentences.py:9-15 | defines the cuts among the first `n` characters, left to right |
| GramToSentences.DepthBeforeClose | gram_to_sentences.py:12-14 | just before a closing `)` the depth is 1 |
| GramToSentences.SeparatedStep | gram_to_sentences.py:14-16 | a new cut lies at least two past the previous one, so the next piece starts at or before it |
| GramToSentences.CutsUpToSpec | gram_to_sentences.py:9-16 | every cut is a `)` bringing the depth to 0, each at least two past the one before |
| GramToSentences.CutsUpToComplete | gram_to_sentences.py:12-15 | no `)` that brings the depth to 0 is missed |
| GramToSentences.CutsExact | gram_to_sentences.py:12-15 | a piece ends at index `i` exactly when `i` holds a `)` that brings the depth to 0 |
| GramToSentences.CutsOrdered | gram_to_sentences.py:15-16 | later cuts lie further right: a piece starts at least two past every earlier cut |
| GramToSentences.PiecesAtCuts | gram_to_sentences.py:9-16 | piece `k` runs from two past the previous cut to cut `k` and ends with `)`; pieces do not overlap |
| GramToSentences.Pieces | gram_to_sentences.py:9-16 | defines `gram_sentences`: the slice from `start` to each cut, `start` moving two past the cut |
| GramToSentences.TailDropped | gram_to_sentences.py:14-16 | text after the last cut holds no closing index, so it is never emitted |
| GramToSentences.WrittenAppend | gram_to_sentences.py:19-21 | the written pieces of a concatenation are those of each part, in order |
| GramToSentences.Kept | gram_to_sentences.py:20 | defines the writing test: the piece does not begin with `(c` |
| GramToSentences.Written | gram_to_sentences.py:19-21 | defines what is written: the kept pieces, in order |
| GramToSentences.WrittenMembers | gram_to_sentences.py:19-21 | a piece is written exactly when it is one of the pieces and does not begin with `(c` |
| GramToSentences.ScanStart | gram_to_sentences.py:6-8 | before the loop nothing is read: depth 0, start 0, no pieces |
| GramToSentences.ScanOther | gram_to_sentences.py:10-13 | a character that does not close a piece only moves the depth |
| GramToSentences.ScanCut | gram_to_sentences.py:12-16 | a `)` bringing the depth to 0 appends `string[start:i+1]` and moves the start two past it |
| GramToSentences.ScanChar | gram_to_sentences.py:9-16 | one character of the loop keeps the pieces equal to the slices at the cuts so far |
| GramToSentences.KeepSentences | gram_to_sentences.py:19-21 | the writing loop writes exactly the pieces that do not begin with `(c`, in order |
| GramToSentences.MakeSentences | gram_to_sentences.py:5-21 | `make_sentences` cuts exactly the pieces between the cuts and writes the kept ones |
| GramToSentences.JoinLines | gram_to_sentences.py:25-28 | the lines are concatenated, each followed by one space |
| GramToSentences.SplitFile | gram_to_sentences.py:24-30 | the script writes the kept pieces of the joined lines |

## Left out

- File I/O and argument parsing: opening, reading and writing files and
  `argparse` are not modelled. A file read is a parameter holding its lines;
  a file written is the method's result.
- Printing in `evaluation.py` and `evaluation_fab.py`: the `#Ground Truth`
  count, the two `list_gt[-1][1]` / `list_pred[-1][1]` lines (only the
  IndexError they raise on an empty list is modelled), the file name, the
  header and the formatted rows. Renaming `))` to `)` only changes the
  printed label.
- Scoring.Percent: the percentages are exact rationals (`real`); binary
  floating-point rounding and the `{:.3f}` format are not modelled.
- `create_xml` in `prediction_to_XML.py` (building the TEI tree with lxml, the
  timestamp and the file write) is not part of this model. It calls a library
  and the clock.
- `deepcopy` in `eval_char` and in `make_sentences`: the model works on
  immutable values, so a copy is the value itself and the ground truth is
  unchanged across `eval_char` calls by construction.
- Code inside triple-quoted strings (the `help1`/`help2` checks and the
  encoder's self-check) is never executed and is not modelled.
- The encoder's alphabet is a parameter (`alpha`). The lemmas about brackets
  assume it holds neither `(` nor `)`, as the script's alphabet does not. The
  character encoding of the literal is not modelled.
- TextToNetworkInput.WordRoundTrip: holds for words without `[` or `]`, because
  the encoder writes `(` and `[` alike (`BracketsCollide`).
- PredictionToXml.WordsAndCharsCount: states the number of pairs for any
  input. Their contents are stated only for network inputs built from a
  parse (`NetworkPairs`).
- PredictionToXml.CorrectionRestoresGold: stated for a network answer with the
  same structure as the parse, ending in a terminal, where only the guesses
  differ. For any other answer the model gives the exact result of the
  correction (`GetFullPrediction`), and `RepairFails` gives its failure
  cases, but no closed form.
