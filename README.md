# AI trainer dataset store, exporters and statistics in Dafny

This project models the core of a small web tool for building fine-tuning
datasets. The tool keeps datasets of training examples, where each example is a
list of system, user and assistant messages. The model covers four parts:

- The dataset store of `lib/store.ts` (`store.dfy`): a `TrainerStore` class whose
  fields `datasets` and `activeDatasetId` are reassigned by its actions
  (`createDataset`, `deleteDataset`, `setActiveDataset`, `addExample`,
  `updateExample`, `deleteExample`). It also has the getters `getDatasetById` and
  `getActiveDataset`. Each action states its whole new state in terms of the old
  one: `addExample`, `updateExample`, `deleteExample` and `deleteDataset` through
  specification functions on datasets, `createDataset` and `setActiveDataset`
  directly. Every action except `updateExample` keeps the store's id invariant;
  `updateExample` keeps it when the update leaves the example's id alone.
- The quality heuristic `calculateScore` (`scoring.dfy`): a step-by-step
  method. It is proved equal to an additive specification of role and length
  checks, and that specification is proved bounded and monotone.
- The three exporters of `lib/utils.ts` (`export.dfy`):
  - JSON Lines of `{role, content}` messages;
  - CSV with the first message of each role;
  - Alpaca `{instruction, input, output}` lines.

  Each exporter has a reader written beside it, and lemmas prove that the reader
  recovers what was exported. The pieces of `JSON.stringify` and of JavaScript
  strings and numbers they need are in `json.dfy` and `text.dfy`.
- `getDatasetStats` (`stats.dfy`): the example count, the average score
  rounded half up, and the token count of `split(/\s+/)`. The estimated cost is
  not modelled.

`types.dfy` holds the records of `lib/store.ts` (`Message`, `TrainingExample`,
`Dataset`) and the `Option` type the readers and getters return.

Ids from `nanoid()` and timestamps from `new Date().toISOString()` are
parameters of the actions. A precondition says that a new id is fresh.

Two behaviours of the code worth knowing:

- `totalTokens` counts every piece of `split(/\s+/)`, the empty pieces left by
  leading or trailing whitespace included, so empty content counts one token
  (Stats.TokenCountBlank).
- The assistant reply "I am doing well, thank you for asking!" in
  Scoring.ScoreExample has 38 characters; with a system prompt and a
  22-character question the example scores 70.

## Model

| member | source | states |
|---|---|---|
| Types.RoleFromName | lib/store.ts:7 | a text names a role exactly when it is that role's name |
| Scoring.Score | lib/store.ts:153-172 | the additive score of the three role parts lies in [0,100] and is 0 for no messages |
| Scoring.OfRole | lib/store.ts:158 | the filtered list holds exactly the messages of that role and is no longer than the input |
| Scoring.FilteredAgree | lib/store.ts:158-171 | filtering by role, then testing for emptiness or for a long message, agrees with testing role and length on the whole list |
| Scoring.CalculateScore | lib/store.ts:149-175 | the step-by-step score equals the sum of the system, user and assistant parts, lies in [0,100], and is 0 for no messages |
| Scoring.ScoreMonotone | lib/store.ts:153-172 | a message list that covers another (each message matched by one of the same role, at least as long) scores at least as much |
| Scoring.ScoreAppend | lib/store.ts:153-172 | appending a message never lowers the score |
| Scoring.ScoreLengthen | lib/store.ts:153-172 | lengthening one message's content never lowers the score |
| Scoring.ScoreExample | lib/store.ts:153-172 | a system prompt, a 22-character question and a 38-character answer score 70 |
| Store.Find | lib/store.ts:135 | the lookup is empty exactly when no element has the id; otherwise it is the first element with the id |
| Store.Without | lib/store.ts:74 | the filter keeps exactly the elements whose id differs, and returns the list itself when none matches |
| Store.WithoutAppend | lib/store.ts:74 | the filter distributes over concatenation, so the kept elements stay in their order |
| Store.UniqueIdsWithout | lib/store.ts:74 | filtering keeps ids unique |
| Store.UniqueIdsWhere | lib/store.ts:93-97 | rewriting the matching elements without changing their ids keeps ids unique |
| Store.FindUnique | lib/store.ts:138-140 | with unique ids, looking up an element's id finds that element |
| Store.Merge | lib/store.ts:109 | the merged example's updatedAt is the current time; each of id, messages, tags, score and createdAt is the update's value when supplied and the old value otherwise |
| Store.MergeOverridesUpdatedAt | lib/store.ts:109 | an updatedAt supplied by the update is always overridden |
| Store.MergeKeepsStaleScore | lib/store.ts:109 | new messages in an update leave the old score in place, even when it no longer matches the messages |
| Store.WithExampleAdded | lib/store.ts:95 | the dataset gains the example at the end and the new updatedAt; its other fields are unchanged |
| Store.WithExampleUpdated | lib/store.ts:105-113 | each example with the id is merged and the others are unchanged; updatedAt is refreshed even when nothing matched |
| Store.WithoutExample | lib/store.ts:123-127 | exactly the examples without that id remain, in order; updatedAt is refreshed even when nothing was removed |
| Store.TrainerStore.constructor | lib/store.ts:51-52 | the store starts with no datasets and no active dataset, and satisfies the id invariant |
| Store.TrainerStore.GetDatasetById | lib/store.ts:138-140 | null exactly when no dataset has the id; otherwise the first dataset with that id, which under the id invariant is the one dataset with it |
| Store.TrainerStore.GetActiveDataset | lib/store.ts:133-136 | null when no id is active or no dataset has it; otherwise the first dataset with the active id, which under the id invariant is the one dataset with it |
| Store.TrainerStore.CreateDataset | lib/store.ts:54-70 | one empty dataset stamped now is appended after the unchanged old ones; it becomes active and its id is returned; the invariant is kept |
| Store.TrainerStore.DeleteDataset | lib/store.ts:72-77 | exactly the datasets with another id remain, in order; the active id is cleared exactly when it was the deleted id; the id no longer resolves |
| Store.TrainerStore.SetActiveDataset | lib/store.ts:79-81 | the active id becomes the argument, with no existence check, and the datasets are unchanged |
| Store.TrainerStore.AddExample | lib/store.ts:83-99 | each dataset with the id gains an example scored by the scoring specification and stamped now; the others are untouched; with no match nothing changes |
| Store.TrainerStore.UpdateExample | lib/store.ts:101-117 | only the matching dataset changes, by merging the update into its matching examples; ids stay unique when the update leaves the id alone |
| Store.TrainerStore.DeleteExample | lib/store.ts:119-131 | only the matching dataset changes, by dropping the examples with the id and refreshing updatedAt |
| Text.Join | lib/utils.ts:36-41 | joining no parts gives "" and one part gives that part |
| Text.JoinSnoc | lib/utils.ts:41 | joining one more part appends the separator and that part |
| Text.SplitJoinLines | lib/utils.ts:21 | splitting a "\n"-join of newline-free lines gives back exactly those lines |
| Text.JoinLinesNewlines | lib/utils.ts:21 | n newline-free lines joined by "\n" hold exactly n - 1 newlines, with no trailing newline |
| Text.NatToString | lib/utils.ts:37 | the decimal text is non-empty, all digits, and has no leading zero |
| Text.IntToString | lib/utils.ts:37 | the text is non-empty; a non-negative score is all digits, a negative one a minus sign followed by digits |
| Text.IntToStringRoundTrip | lib/utils.ts:37 | reading the score column's decimal text gives back the score, negative ones included |
| Json.EscapeChar | lib/utils.ts:19 | an escaped character is non-empty, holds no control character and does not start with a double quote |
| Json.Quote | lib/utils.ts:19 | a JSON string literal holds no control character and no raw newline, and is delimited by double quotes |
| Json.ParseEscapedChar | lib/utils.ts:19 | reading an escaped character back gives that character |
| Json.ParseQuote | lib/utils.ts:19 | reading a JSON string literal back gives the original string and leaves the following text |
| Export.FirstContent | lib/utils.ts:28-30 | the content of the first message of the role, or "" when there is none |
| Export.TurnJson | lib/utils.ts:14-17 | a message object has no raw newline and starts with "{" |
| Export.ParseTurnJson | lib/utils.ts:14-17 | a message object reads back as the same role and content |
| Export.ParseTurnItemsJoin | lib/utils.ts:14-19 | comma-separated message objects followed by "]" read back as the same turns in order |
| Export.ParseTurnsJson | lib/utils.ts:14-19 | an array of message objects, empty or not, reads back as the same turns in order |
| Export.JsonlLineRoundTrip | lib/utils.ts:12-19 | a JSON Lines line reads back as exactly its example's role and content pairs, in order |
| Export.JsonlLineHasNoNewline | lib/utils.ts:19 | a JSON Lines line holds no raw newline |
| Export.ExportJsonl | lib/utils.ts:10-22 | no examples export as "" |
| Export.JsonlRoundTrip | lib/utils.ts:10-22 | the export splits into exactly one line per example with one newline fewer, and line k reads back as example k's messages |
| Export.DoubleQuotes | lib/utils.ts:33-35 | the doubled text is longer than the content by exactly its number of double quotes |
| Export.CsvRow | lib/utils.ts:27-40 | a row starts with the id and a comma and ends with a comma and createdAt |
| Export.ExportCsv | lib/utils.ts:25-42 | the export is the header line, a newline and the rows joined by newlines; no examples export as the header alone |
| Export.CsvAppend | lib/utils.ts:27-41 | one more example adds exactly its row as a new last line |
| Export.ParseQuoteField | lib/utils.ts:33-35 | undoing the quote doubling of a text column recovers the content, quotes included |
| Export.CsvRowTextColumns | lib/utils.ts:28-39 | a row starts with the id and a comma, followed by the first system, user and assistant contents, each read back through its quotes |
| Export.CsvTailColumns | lib/utils.ts:36-38 | with no double quote in a tag, the last three columns read back as the tags joined by ", ", the score and createdAt |
| Export.CsvRowRoundTrip | lib/utils.ts:27-40 | with no comma in the id and no double quote in a tag, a row reads back as the id, the three first contents, the joined tags, the score and createdAt |
| Export.CsvTagQuoteUnescaped | lib/utils.ts:36 | a tag holding a double quote does not read back, because tags are quoted without escaping |
| Export.AlpacaJson | lib/utils.ts:52-56 | an Alpaca object holds no raw newline |
| Export.ParseAlpacaJson | lib/utils.ts:52-56 | an Alpaca object reads back as its instruction, input and output |
| Export.AlpacaLineRoundTrip | lib/utils.ts:47-57 | a line reads back with instruction = first user content, input = first system content, output = first assistant content, "" for a missing role |
| Export.ExportAlpaca | lib/utils.ts:45-59 | no examples export as "" |
| Export.AlpacaRoundTrip | lib/utils.ts:45-59 | the export splits into exactly one line per example, and line k reads back as example k's record |
| Stats.RoundedQuotient | lib/utils.ts:88 | the result r satisfies r - 1/2 <= sum / n < r + 1/2, which is rounding half up |
| Stats.SumScoresAppend | lib/utils.ts:88 | the summing reduce splits at any point: the sum over two lists is the sum of their sums |
| Stats.AvgScore | lib/utils.ts:86-89 | the average is 0 for no examples, and otherwise the mean of the scores rounded half up |
| Stats.SumScoresBounds | lib/utils.ts:88 | n scores within [lo, hi] sum to within [n * lo, n * hi] |
| Stats.AvgScoreBounds | lib/utils.ts:86-89 | scores within [lo, hi] give an average within [lo, hi], so scores in [0,100] average into [0,100] |
| Stats.AvgScoreConstant | lib/utils.ts:88 | equal scores average to that score |
| Stats.AvgScoreHalfUp | lib/utils.ts:88 | the scores 1 and 2 average to 2: an exact half rounds up |
| Stats.Pieces | lib/utils.ts:91 | the whitespace split yields at least one piece, and no piece contains whitespace |
| Stats.PiecesRuns | lib/utils.ts:91 | the split yields one piece more than there are whitespace runs, and the pieces laid end to end are the non-whitespace characters |
| Stats.TokenCountBlank | lib/utils.ts:91 | "" counts one token, " " two and "a b" two |
| Stats.TokenCount | lib/utils.ts:91 | a content counts one token more than it has whitespace runs |
| Stats.MessageTokens | lib/utils.ts:91 | an example's messages count at least one token each |
| Stats.TotalTokens | lib/utils.ts:90-92 | the token total is at least the number of messages, and 0 for no examples |
| Stats.GetDatasetStats | lib/utils.ts:84-97 | the count is the number of examples; no examples give 0 and 0; otherwise the average r satisfies r - 1/2 <= sum / n < r + 1/2 (the mean rounded half up); scores in [0,100] give an average in [0,100]; the token total is at least the message count |

## Left out

- Persistence: the store is saved to browser storage under `ai-trainer-storage` (lib/store.ts:142-144). The model keeps the state in the class alone.
- Id and time sources: `nanoid()` and `new Date().toISOString()` are parameters. The uniqueness `nanoid` gives in practice is a precondition that the id is fresh.
- One action, one `now`: the source reads the clock separately for an example's createdAt and updatedAt and for the dataset's updatedAt (lib/store.ts:89-95, 109-112). The model uses one `now` per action, so it does not capture timestamps that differ by a few milliseconds.
- Store.TrainerStore.UpdateExample: `Partial<TrainingExample>` is modelled as one optional value per field. An explicit `undefined` field value, which the spread would copy over the old value, is not modelled.
- Store.TrainerStore.UpdateExample: the id invariant is stated only for updates that leave the id alone, because the source accepts an update that changes an example's id to a taken one.
- Scoring.Score: lengths count Unicode scalar values, whereas JavaScript's `length` counts UTF-16 code units. The two agree only for text inside the Basic Multilingual Plane.
- Text and strings: strings are sequences of Unicode scalar values, so lone surrogates cannot occur. The escaping `JSON.stringify` applies to lone surrogates is not modelled.
- `JSON.stringify` is modelled only for strings and for the fixed object shapes the exporters build. The reader also accepts the escapes the writer never emits, such as `\/`.
- Export.ExportCsv: the whole CSV export is not read back line by line, because a quoted text column may itself contain newlines. Its structure is stated by Export.ExportCsv and Export.CsvAppend, and each row by Export.CsvRowRoundTrip.
- Export.CsvRowRoundTrip: requires that the id holds no comma and no tag holds a double quote. The source writes the id and the tags without escaping, so other rows are ambiguous (Export.CsvTagQuoteUnescaped).
- Text.IntToString: scores are integers. JavaScript's formatting of fractional scores and of exponent notation (magnitudes of 10^21 and above) is not modelled.
- Stats.AvgScore: the average is computed by exact rational rounding, not by floating-point division followed by `Math.round`.
- `estimatedCost` (lib/utils.ts:98): floating-point arithmetic and `toFixed`.
- `downloadFile` (lib/utils.ts:62-72): browser file download.
- `formatDate` (lib/utils.ts:75-81): locale-dependent date formatting.
- `cn` (lib/utils.ts:5-7): a wrapper over CSS class-name libraries.
- The pages under `app/`: React rendering and UI flow. This includes the builder's save filter, its tag de-duplication and the export filename.
