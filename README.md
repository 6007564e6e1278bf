# TradeFlow import pipeline, in Dafny

TradeFlow is a browser trading journal. This project models the pure core of it:

- **Broker import.** A broker's CSV export becomes a list of trades:
  - `parseCSV`, a line splitter with a quote-toggling field scanner;
  - the TopstepX parser, one trade per row;
  - the Tradovate parser, a per-contract signed-position state machine over time-sorted fills;
  - `getBroker`.
- **Trade merging.**
  - `mergeScaleOuts` folds partial exits of one position (same symbol, direction and day) into one trade.
  - The import page has a manual merge (`mergeTrades`, `canMerge`, the validation message, `handleMerge`) and an unmerge that splices the original trades back in. Before import, the bookkeeping fields are stripped.
- **Helpers and output.**
  - The duration helpers of `trade-utils.js`.
  - The CSV export (`escapeCSV` and the row layout of `exportAsCSV`).
  - The text summary handed to the AI assistant (`computeStreaks`, `buildSymbolBreakdown`, and the layout of `buildTradeContext`).

## Structure

The model keeps the shape of each source file:
- Where JavaScript loops and mutates, the Dafny has methods with loop invariants. These are the character scanner, the fill loop, the grouping loops, the merge splice and the streak loop. Each method is proved equal to a reference function, and the properties are lemmas about that function.
- Where JavaScript is filter/map/reduce, the Dafny has functions and lemmas.

| file | models |
|---|---|
| `js.dfy` | the JavaScript runtime pieces the core uses: `trim`, `split`/`join`, the string `or`, `Math.round`, `String(n)`; `Env`, the host functions left abstract |
| `grouping.dfy` | insertion-ordered grouping (a JS object filled key by key) and the stable `sort` by a numeric key |
| `trade_model.dfy` | the trade record and its optional bookkeeping keys (`_tradeDay`, `_account`, `_merged`, `_originalTrades`) |
| `csv_tokenizer.dfy` | `parseCSV` |
| `broker_common.dfy` | `toISO`, `parseFloat` falling back to 0, the futures multiplier table, `toLowerCase() === 'buy'` |
| `topstepx.dfy`, `tradovate.dfy`, `tradovate_props.dfy` | the two broker parsers and the state machine's invariants |
| `broker_registry.dfy` | `BROKERS`, `getBroker` |
| `trade_utils.dfy` | `computeDurationSeconds`, `formatDuration` |
| `trade_merge.dfy` | the merge rule shared by `mergeScaleOuts` and `mergeTrades` |
| `scale_out_merge.dfy` | `mergeScaleOuts` |
| `bulk_import.dfy` | `mergeTrades`, `canMerge`, `mergeValidationMessage`, `handleMerge`, `handleUnmerge`, `handleImport` |
| `export_utils.dfy` | `escapeCSV`, the rows of `exportAsCSV`, and what `parseCSV` reads back from them |
| `trade_context.dfy` | `computeStreaks`, `buildSymbolBreakdown`, `buildTradeContext` |

### How the model represents the source

- **Numbers.** Prices, pnl, fees and commissions are exact reals. Quantities and durations are integers. `Math.round(x * 100) / 100` is `Round2`, which rounds halves toward +∞ as JavaScript does.
- **Host functions.** Parsing dates (`new Date(s).getTime()`), formatting ISO dates (`toISOString().slice(0, 19)`), `parseFloat`, `parseInt`, `String(x)` and `toFixed` are fields of `Js.Env`. The model states only what the core itself decides about them: `''` stays `''`, an unparsable date is kept unchanged, and a failed number parse gives 0.
- **Absent values.** A trade's optional keys are `Option`s, and `pnl` is `Option<real>`. A missing CSV field reads as `''`.
- **Objects used as dictionaries** (`byContract`, `groups`, the symbol map) keep keys in insertion order. The function `Keys` lists the keys and `Members` gives the members of one key.
- **The import page.** A selection is a duplicate-free sequence of row indices, standing for a `Set` in insertion order. React state setters become the returned lists.

### Behaviours of the code worth knowing

- **A merged trade's exit date.** The code (`src/lib/merge-scale-outs.js:29,46`) takes it from the member with the latest *entry*, which need not be the member that exited last. `TradeMerge.MergeGroupFacts` states this rule.
- **Import timestamps.** `toISO` uses `toISOString`, so imported timestamps are UTC, not local time. The model keeps that conversion abstract.
- **Merge then unmerge.** Merging and then unmerging restores the original list only when the selected rows are contiguous:
  - `BulkImport.MergeThenUnmerge` proves the contiguous case.
  - `BulkImport.GappedSelectionReorders` shows that a gapped selection comes back reordered.

## Model

| member | source | states |
|---|---|---|
| Js.Or | src/lib/broker-parsers.js:69 | JavaScript's `or` on strings is empty only when both sides are; a non-empty left side wins |
| Js.TrimIsTrimmed | src/lib/broker-parsers.js:43 | a trimmed value has no whitespace at either end, and trimming again changes nothing |
| Js.TrimSubstring | src/lib/broker-parsers.js:43 | trimming never adds characters |
| Js.Split | src/lib/broker-parsers.js:31 | splitting on `\n` gives one more piece than there are newlines, and no piece holds a newline |
| Js.SplitJoin | src/lib/export-utils.js:55 | splitting a newline-joined text gives the lines back when no line holds a newline |
| Js.JoinSplit | src/lib/broker-parsers.js:31 | joining the pieces of a split restores the text |
| Js.DatePart | src/lib/broker-parsers.js:83 | `s.split('T')[0]` is the longest prefix of `s` without a `T`, and it stops at a `T` or at the end |
| Js.RoundHalfUp | src/lib/trade-utils.js:4 | `Math.round` lands within half a unit of its argument, halves going up |
| Js.Round2 | src/lib/merge-scale-outs.js:53 | `Math.round(x * 100) / 100` is a whole number of cents within half a cent of `x` |
| Js.Round2Cents | src/lib/merge-scale-outs.js:57 | an amount already in whole cents is not changed by the rounding |
| Js.Round2Idempotent | src/lib/merge-scale-outs.js:57 | rounding to cents twice is rounding once |
| Js.DecimalValue | src/lib/export-utils.js:52 | the digits `String(n)` prints read back as `n` |
| Grouping.Keys | src/lib/merge-scale-outs.js:6-11 | the group keys are distinct, every element's key is among them, and each comes from some element |
| Grouping.Members | src/lib/merge-scale-outs.js:9-10 | a group holds only elements with its key |
| Grouping.GroupBy | src/lib/merge-scale-outs.js:6-11 | the grouping loop yields exactly the keys in first-appearance order and, for each, its members in input order |
| Grouping.GroupedSnoc | src/lib/broker-parsers.js:109-112 | the loop body `if (!g[k]) g[k] = []; g[k].push(x)` keeps the grouping exact for one more element |
| Grouping.MembersNonEmpty | src/lib/merge-scale-outs.js:16 | a key has members exactly when it is one of the group keys, so no group is empty |
| Grouping.SingleKey | src/pages/BulkImport.jsx:268 | a `Set` of keys has size 1 exactly when the list is non-empty and all share the first element's key |
| Grouping.SortBy | src/lib/merge-scale-outs.js:27 | the sort returns a permutation of its input |
| Grouping.SortBySorted | src/lib/merge-scale-outs.js:27 | the sorted list is ordered by the key |
| Grouping.SortByStable | src/lib/broker-parsers.js:106 | the sort is stable: elements with equal keys keep their input order |
| Grouping.SortByFirstIsLeast | src/lib/merge-scale-outs.js:28 | `sorted[0]` carries the least key |
| Grouping.SortByLastIsGreatest | src/lib/merge-scale-outs.js:29 | `sorted[sorted.length - 1]` carries the greatest key |
| Grouping.SumIntSortBy | src/lib/merge-scale-outs.js:31 | sorting does not change a sum of sizes |
| Grouping.SumRealSortBy | src/lib/merge-scale-outs.js:32-34 | sorting does not change a sum of pnl, fees or commissions |
| Grouping.GroupTotalIsSum | src/lib/merge-scale-outs.js:16-67 | adding a quantity up group by group gives its total over the whole input |
| CsvTokenizer.UnquoteNoQuote | src/lib/broker-parsers.js:39 | after the scanner drops quotes, no `"` is left in a value |
| CsvTokenizer.SegmentsLength | src/lib/broker-parsers.js:40 | a line has one more raw field than it has commas outside quotes |
| CsvTokenizer.SplitRowShape | src/lib/broker-parsers.js:38-43 | a data line's values: one per unquoted comma plus one, none holding `"`, each trimmed; the raw pieces rejoin into the line |
| CsvTokenizer.SegmentsJoin | src/lib/broker-parsers.js:40 | the raw fields joined with commas are the line again, so no character is lost or moved |
| CsvTokenizer.TokenizeLine | src/lib/broker-parsers.js:35-43 | the character loop over `current`/`inQuotes`/`values` computes exactly the line's values |
| CsvTokenizer.ScanChar | src/lib/broker-parsers.js:39-41 | one loop step: `"` flips the quote state, an unquoted comma pushes the trimmed value, anything else is appended |
| CsvTokenizer.SegmentsSnoc | src/lib/broker-parsers.js:38-42 | the scanner's state after one more character follows from its state before it |
| CsvTokenizer.SegmentsAfterSeparator | src/lib/broker-parsers.js:40 | after a comma outside quotes the scan starts afresh |
| CsvTokenizer.SegmentsSingle | src/lib/broker-parsers.js:40 | a line whose every comma is inside quotes is one value |
| CsvTokenizer.HeaderCells | src/lib/broker-parsers.js:33 | the header is split on every comma, quoted or not: one cell per comma plus one, none holding a comma |
| CsvTokenizer.HeaderCell | src/lib/broker-parsers.js:33 | a header cell only loses characters (trim, one outer `"` each side) |
| CsvTokenizer.MakeRow | src/lib/broker-parsers.js:44-46 | a row has exactly the header keys; each header's value is the value in its column, or `''` past the end; surplus values are dropped; a repeated header keeps its last column |
| CsvTokenizer.ParseCsv | src/lib/broker-parsers.js:30-49 | fewer than two lines after trimming gives no headers and no rows; otherwise one row per line after the header, blank lines included, each with exactly the header keys, and no header holds a comma |
| CsvTokenizer.DataRows | src/lib/broker-parsers.js:34-47 | one row per data line, in order, each built from that line's values |
| CsvTokenizer.ParseCsvRow | src/lib/broker-parsers.js:34-46 | cell `k` of row `i` is value `k` of line `i + 1`, or `''` when the line is short |
| BrokerCommon.Field | src/lib/broker-parsers.js:64 | a missing CSV field reads as `''` |
| BrokerCommon.ToIso | src/lib/broker-parsers.js:51-56 | `''` stays `''`, an unparsable date is returned unchanged, and a parsable one becomes its ISO text |
| BrokerCommon.ParseFloatOr0 | src/lib/broker-parsers.js:71 | an empty or unparsable number reads as 0 |
| BrokerCommon.ParseIntOr0 | src/lib/broker-parsers.js:75 | an empty or unparsable integer reads as 0 |
| BrokerCommon.Multiplier | src/lib/broker-parsers.js:155 | a known product's multiplier comes from the table, an unknown product gets 1, and every multiplier is positive |
| BrokerCommon.MultiplierExamples | src/lib/broker-parsers.js:3-28 | sample entries of the table (MNQ 2, ES 50, MYM 0.5, NG 10000), and a month-coded contract such as MNQZ4 falling back to 1 |
| BrokerCommon.LowerAscii | src/lib/broker-parsers.js:70 | lower-casing keeps the length and maps each character on its own |
| BrokerCommon.BuyWordCases | src/lib/broker-parsers.js:70 | `toLowerCase() === 'buy'` holds exactly for the three letters b, u, y in any case |
| BrokerRegistry.Find | src/lib/broker-parsers.js:209 | `find` returns the first broker with that name, or nothing when none has it |
| BrokerRegistry.GetBroker | src/lib/broker-parsers.js:206-210 | `getBroker` finds exactly the names `topstepx` and `tradovate`, and returns a registered broker with that name |
| BrokerRegistry.GetBrokerExamples | src/lib/broker-parsers.js:58-60 | `getBroker('TopstepX')` (the label, not the name) finds nothing |
| BrokerRegistry.Parse | src/pages/BulkImport.jsx:207-208 | `broker.parse(text)` runs the parser of the broker's kind |
| TopstepX.KeptRows | src/lib/broker-parsers.js:64 | the filter keeps only rows naming a contract, and only rows of the input |
| TopstepX.KeptRowsAppend | src/lib/broker-parsers.js:64 | the filter keeps the input order |
| TopstepX.KeptRowsSingle | src/lib/broker-parsers.js:64 | a row is kept exactly when its `ContractName` is non-empty |
| TopstepX.RowToTrade | src/lib/broker-parsers.js:65-84 | symbol is `ContractName`; long exactly when the trimmed `Type` is "buy" in any case; no tags, take-profits or notes; `_tradeDay` is `TradeDay`, else the entry's date part; dates through `toISO`; duration from those dates; entry and exit price, size, pnl, fees and commissions are the parsed fields, 0 when missing or not a number |
| TopstepX.Parse | src/lib/broker-parsers.js:61-86 | one trade per kept row, in row order, so never more trades than rows |
| TopstepX.ParsedSymbol | src/lib/broker-parsers.js:64-69 | every parsed trade has a non-empty symbol |
| Tradovate.FilledRows | src/lib/broker-parsers.js:96 | only rows whose trimmed `Status` is exactly `Filled` are kept, and only rows of the input |
| Tradovate.FilledOrdersFacts | src/lib/broker-parsers.js:95-106 | the filled orders are a permutation of the mapped rows, sorted by fill time, and fills with the same time keep their row order |
| Tradovate.Advance | src/lib/broker-parsers.js:127-152 | after one fill the net position moves by the fill's signed quantity (the other fields: `TradovateProps.FillUpdate`) |
| Tradovate.Close | src/lib/broker-parsers.js:154-191 | emitted trade: symbol is the contract, size `entryQty`, entry price and date kept; exit date is the last exit fill's; pnl is `Σ diff × qty × multiplier` to the cent; exit price the quantity-weighted exit average to the cent; take-profits listed only for two or more exits; no fees; direction is the opening direction; duration from the entry date and exit date; no merge or import bookkeeping |
| Tradovate.Step | src/lib/broker-parsers.js:126-198 | one iteration: a trade is emitted and the state reset exactly when the fill takes the position from non-zero to zero; otherwise no trade |
| Tradovate.ReplayContract | src/lib/broker-parsers.js:117-199 | the fill loop over one contract's orders computes that contract's trades |
| Tradovate.ApplyFill | src/lib/broker-parsers.js:127-152 | the loop's variable updates for one fill are the position update |
| Tradovate.ReplaySnoc | src/lib/broker-parsers.js:126 | replaying one more fill is one more loop step |
| Tradovate.ReplayAll | src/lib/broker-parsers.js:108-200 | contracts are grouped in first-appearance order and each is replayed on its own fills, its trades following the previous contract's |
| Tradovate.ParseText | src/lib/broker-parsers.js:92-203 | the whole parser computes its reference function: filter, map, sort, group, replay |
| TradovateProps.ReplayConsistent | src/lib/broker-parsers.js:117-197 | every reachable state is coherent: a flat position has no direction, exits, quantity or entry; an open one has a direction |
| TradovateProps.StepConsistent | src/lib/broker-parsers.js:131-197 | one fill keeps the state coherent |
| TradovateProps.EmissionHasExits | src/lib/broker-parsers.js:164-166 | when a trade is emitted there is at least one exit fill, so the average exit divides by a non-empty list |
| TradovateProps.EmittedTradeWellFormed | src/lib/broker-parsers.js:164-180 | an emitted trade's direction is the opening direction and its exit date is the last exit fill's |
| TradovateProps.AdvanceBalanced | src/lib/broker-parsers.js:127-151 | with non-negative quantities one fill keeps net = ±(entryQty − Σ exit quantities) |
| TradovateProps.ReplayBalanced | src/lib/broker-parsers.js:126-198 | with non-negative quantities every reachable state satisfies net = ±(entryQty − Σ exit quantities), even after a fill crosses zero |
| TradovateProps.EmittedSize | src/lib/broker-parsers.js:165-181 | an emitted trade's size equals the exit fills' total quantity and is positive; its take-profit legs add up to it |
| TradovateProps.ReplayNet | src/lib/broker-parsers.js:127-129 | the net position is the running sum of signed fill quantities; emitting a trade loses none |
| TradovateProps.TradeCount | src/lib/broker-parsers.js:154 | one trade per fill that lands the running total on zero from non-zero; an open position at the end or a crossing without landing emits nothing |
| TradovateProps.ReplaySymbols | src/lib/broker-parsers.js:175 | every trade of a contract carries that contract as its symbol |
| TradovateProps.EntryPriceIsWeightedAverage | src/lib/broker-parsers.js:131-150 | after buys only, the entry price times the held quantity is the buys' notional: a volume-weighted average |
| TradovateProps.BuyStep | src/lib/broker-parsers.js:148-151 | a buy on a long position opened by buys emits nothing and keeps the weighted-average invariant |
| TradovateProps.FillUpdate | src/lib/broker-parsers.js:131-151 | from flat a fill opens a position in its direction at its price and size, and a zero fill changes nothing; a fill against the entry direction appends an exit and leaves entry price, size, direction, date and account alone; any other fill adds its size to the entry, keeps the exits, and sets the entry price to the volume-weighted average |
| TradovateProps.AverageStep | src/lib/broker-parsers.js:150 | line 150's average keeps price × quantity equal to the notional |
| TradovateProps.ScaleOutScenario | src/lib/broker-parsers.js:126-198 | buy 2 at 100 and sell 1 at 101 and 1 at 102 on MNQ gives one long trade of 2 with pnl 6, exit 101.5 and two take-profit legs |
| TradovateProps.FlipThroughZero | src/lib/broker-parsers.js:139-154 | long 1 then sell 2 crosses zero without a trade and stays marked long; buying 1 back emits one long trade of size 2 at an averaged entry |
| TradeMerge.Legs | src/lib/merge-scale-outs.js:40-44 | one take-profit leg per member, with the member's exit price, size and exit date |
| TradeMerge.LegsQuantity | src/lib/merge-scale-outs.js:40-56 | the legs' quantities add up to the merged size |
| TradeMerge.WeightedExitOrderFree | src/lib/merge-scale-outs.js:36-38 | the weighted exit price does not depend on the members' order |
| TradeMerge.WeightedSumBetween | src/lib/merge-scale-outs.js:37 | with positive sizes, Σ exit × size lies between the total size priced at the lowest exit and at the highest |
| TradeMerge.WeightedExitBetween | src/lib/merge-scale-outs.js:36-38 | with positive sizes, the weighted exit lies between the lowest and the highest member exit |
| TradeMerge.MergeGroupFacts | src/lib/merge-scale-outs.js:27-64 | members sorted by entry (a permutation); entry taken from the earliest member; exit date from the latest-entry member; size, pnl, fees and commissions summed, the money rounded to cents; exit price the weighted average; legs in entry order adding up to the size; no tags, notes or bookkeeping keys |
| TradeMerge.MergeSingle | src/lib/merge-scale-outs.js:27-64 | the merge rule applied to one trade keeps its dates and size and gives one leg (no code path merges a single trade) |
| ScaleOutMerge.MergedOf | src/lib/merge-scale-outs.js:16-67 | one output trade per key |
| ScaleOutMerge.MergeGroups | src/lib/merge-scale-outs.js:6-67 | the two loops compute one result per group in first-appearance order, and the scale-out count |
| ScaleOutMerge.EmitNext | src/lib/merge-scale-outs.js:16-67 | one pass of the second loop appends the group's result and adds its share to the count |
| ScaleOutMerge.EmitGroup | src/lib/merge-scale-outs.js:17-26 | a group's result and whether it counts: always for a multi-member group, and for a singleton with more than one take-profit |
| ScaleOutMerge.MergeScaleOuts | src/lib/merge-scale-outs.js:3-70 | `mergeScaleOuts` groups by symbol, direction and day and returns the results and the count |
| ScaleOutMerge.OutputStep | src/lib/merge-scale-outs.js:16-67 | each key's group is non-empty, and one more key adds exactly its result and its count |
| ScaleOutMerge.GroupedCount | src/lib/merge-scale-outs.js:16-69 | never more output trades than input trades, and none exactly when there is no input |
| ScaleOutMerge.GroupedNoHints | src/lib/merge-scale-outs.js:19-64 | no output trade keeps `_tradeDay` or `_account` |
| ScaleOutMerge.MergeScaleOutsShape | src/lib/merge-scale-outs.js:3-70 | one result per group in first-appearance order; a lone trade passes through with only `_tradeDay` and `_account` removed |
| ScaleOutMerge.MergedSize | src/lib/merge-scale-outs.js:31-56 | the output sizes add up group by group |
| ScaleOutMerge.SizeConserved | src/lib/merge-scale-outs.js:31-56 | the output's total size equals the input's: no contract is lost or invented |
| ScaleOutMerge.CountBounds | src/lib/merge-scale-outs.js:14-26 | the count is at most the number of groups, and 0 exactly when no group counts |
| ScaleOutMerge.ScaleOutCountBounds | src/lib/merge-scale-outs.js:14-26 | `scaleOutCount` is at most the number of output trades, and 0 exactly when no group is a scale-out |
| ScaleOutMerge.MembersIn | src/lib/merge-scale-outs.js:9-10 | a group's members are input trades |
| ScaleOutMerge.KeyDetermines | src/lib/merge-scale-outs.js:8 | with symbols that hold no vertical bar, equal keys mean equal symbols and directions |
| ScaleOutMerge.GroupsAreHomogeneous | src/lib/merge-scale-outs.js:8-51 | with symbols that hold no vertical bar, each output trade has the symbol and direction of every member of its group |
| ScaleOutMerge.LeadOf | src/lib/merge-scale-outs.js:18-51 | the output copies its symbol and direction from one member of the group |
| BulkImport.SelectedTrades | src/pages/BulkImport.jsx:266 | one selected trade per selected index |
| BulkImport.MoreThanOneKey | src/pages/BulkImport.jsx:267-268 | a `Set` of the selected rows' values has more than one element exactly when they do not all agree |
| BulkImport.SelectedSameKey | src/pages/BulkImport.jsx:267-269 | a `Set` of the selected rows' values has size 1 exactly when every selected row has the first row's value |
| BulkImport.OneSymbolIff | src/pages/BulkImport.jsx:267-269 | one symbol among the selected rows exactly when they all have the first row's symbol |
| BulkImport.OneDirectionIff | src/pages/BulkImport.jsx:268-269 | one direction among the selected rows exactly when they all have the first row's direction |
| BulkImport.CanMergeIff | src/pages/BulkImport.jsx:264-270 | `canMerge` holds exactly when two or more rows share one symbol and one direction |
| BulkImport.AgreeOnFields | src/pages/BulkImport.jsx:274-278 | the selected rows agree on symbol, and on direction, exactly as their fields say |
| BulkImport.KeyCheckCases | src/pages/BulkImport.jsx:272-280 | no refusal for fewer than two rows or full agreement; a symbol mismatch is reported before a direction mismatch, each with the distinct values |
| BulkImport.ValidationMessageCases | src/pages/BulkImport.jsx:272-280 | the message is null exactly when fewer than two rows are selected or they can merge; otherwise it names the symbols if they differ, else the directions |
| BulkImport.MergeTrades | src/pages/BulkImport.jsx:142-183 | `mergeTrades` is the shared merge rule, plus `_merged` and `_originalTrades` holding the inputs in the order given |
| BulkImport.SortedIndices | src/pages/BulkImport.jsx:288 | sorting the indices keeps their number and adds no index |
| BulkImport.SortedIndicesFacts | src/pages/BulkImport.jsx:288-293 | the sorted indices are the same selection, strictly increasing |
| BulkImport.LowestIndex | src/pages/BulkImport.jsx:288 | the first sorted index is the lowest selected one |
| BulkImport.MergedTradeOf | src/pages/BulkImport.jsx:289-290 | the merged trade is marked and holds the selected trades in index order |
| BulkImport.HandleMerge | src/pages/BulkImport.jsx:282-310 | a selection that cannot merge leaves the list unchanged and sets the message, else the default text |
| BulkImport.Splice | src/pages/BulkImport.jsx:292-304 | the index loop, with its `inserted` flag, builds the rebuilt list |
| BulkImport.RebuiltLayout | src/pages/BulkImport.jsx:292-304 | the rebuilt prefix is the unselected rows before the lowest index, the merged trade, then the later unselected rows |
| BulkImport.KeptLength | src/pages/BulkImport.jsx:296-302 | for each range, the unselected rows kept plus the selected rows skipped add up to its length |
| BulkImport.SpliceLayout | src/pages/BulkImport.jsx:292-304 | the rebuilt list has n − k + 1 rows: the rows before the lowest selected index, the merged trade, then the unselected rows after it in order |
| BulkImport.MergedListLayout | src/pages/BulkImport.jsx:282-310 | after a valid merge, the list has n − k + 1 rows and the merged trade sits at the lowest selected index; the unselected rows keep their relative order |
| BulkImport.Unmerged | src/pages/BulkImport.jsx:312-328 | not merged, or no `_originalTrades`: nothing changes; otherwise length n − 1 + the originals' length |
| BulkImport.HandleUnmerge | src/pages/BulkImport.jsx:312-328 | the index loop splices the originals in place of the one row |
| BulkImport.MergeThenUnmerge | src/pages/BulkImport.jsx:282-328 | merging a contiguous selection and unmerging the result restores the original list exactly |
| BulkImport.ContiguousIndices | src/pages/BulkImport.jsx:288 | a contiguous selection, sorted, is `lo, lo + 1, …`, and its lowest index is `lo` |
| BulkImport.GappedSelectionReorders | src/pages/BulkImport.jsx:282-328 | merging rows 0 and 2 of `[a, b, c]` and unmerging gives `[a, c, b]`, not the original |
| BulkImport.GappedSplice | src/pages/BulkImport.jsx:292-323 | the splice and unmerge loops on that three-row example |
| BulkImport.CleanForImport | src/pages/BulkImport.jsx:332-335 | a cleaned trade has no bookkeeping key and carries the chosen account id |
| BulkImport.HandleImport | src/pages/BulkImport.jsx:330-338 | nothing is imported exactly when the list is empty |
| BulkImport.HandleImportFacts | src/pages/BulkImport.jsx:331-335 | each trade is cleaned in place: same length; the four bookkeeping keys removed; the account id set; every other field kept; cleaning twice is cleaning once |
| TradeUtils.ComputeDurationSeconds | src/lib/trade-utils.js:1-5 | null exactly when a date is empty or the exit is not after the entry; otherwise the gap to the nearest second, never negative |
| TradeUtils.SubSecondGapIsZero | src/lib/trade-utils.js:3-4 | a positive gap under half a second gives a duration of 0, not null |
| TradeUtils.ToUnits | src/lib/trade-utils.js:9-12 | d·86400 + h·3600 + m·60 + s equals the seconds, with h < 24, m < 60 and s < 60 |
| TradeUtils.UnitsSum | src/lib/trade-utils.js:9-12 | the `Math.floor`/`%` arithmetic adds back up to the input |
| TradeUtils.FormatDuration | src/lib/trade-utils.js:7-18 | the placeholder appears exactly for null or a non-positive duration |
| TradeUtils.FormatLeadingUnit | src/lib/trade-utils.js:14-17 | the two largest units from the first non-zero one: `Xd Yh`, `Xh Ym`, `Xm Ys`, or `Xs` below a minute |
| ExportUtils.DoubleQuotes | src/lib/export-utils.js:22 | doubling quotes adds only `"` characters |
| ExportUtils.UndoubleDoubleQuotes | src/lib/export-utils.js:22 | reading `""` as `"` undoes the doubling |
| ExportUtils.DoubleQuotesCount | src/lib/export-utils.js:22 | doubling exactly doubles the number of quotes |
| ExportUtils.EscapeCsv | src/lib/export-utils.js:19-25 | null becomes `''`; a value without `,`, `"` or newline is unchanged; any other is wrapped in quotes, and its inside with `""` read as `"` is the value |
| ExportUtils.DoubleQuotesUnquote | src/lib/export-utils.js:22 | dropping quotes after doubling is dropping quotes from the original |
| ExportUtils.EscapedPiece | src/lib/export-utils.js:19-25 | an escaped value leaves the importer's scanner outside quotes, and every comma in it is read as quoted |
| ExportUtils.JoinOutsideQuotes | src/lib/export-utils.js:55 | escaped values joined with commas leave the scanner outside quotes |
| ExportUtils.SegmentsOfJoin | src/lib/export-utils.js:55 | the scanner splits a joined line back into exactly the escaped values |
| ExportUtils.SegmentsOfJoinStep | src/lib/export-utils.js:55 | one more escaped value after a comma is one more field |
| ExportUtils.ReadBackLine | src/lib/export-utils.js:55 | importing an exported line gives one value per cell: the cell with its quotes dropped, trimmed |
| ExportUtils.RoundTripPlain | src/lib/export-utils.js:19-55 | cells without `"` and without surrounding whitespace survive export and import unchanged, commas included |
| ExportUtils.QuotesAreLost | src/lib/export-utils.js:22 | a cell holding `"` loses every quote on import, so the export/import round trip is not exact |
| ExportUtils.LoneQuoteReadsBackEmpty | src/lib/export-utils.js:22 | the value `"` itself is imported as `''` |
| ExportUtils.NameOf | src/lib/export-utils.js:28-29 | the name of the first record with a matching id, `''` when there is none or it has no name |
| ExportUtils.HeadersPlain | src/lib/export-utils.js:31-35 | there are 15 header names, and none needs quoting |
| ExportUtils.HeaderLinePlain | src/lib/export-utils.js:31-55 | the header line is the names joined with commas, and no name holds a newline |
| ExportUtils.RowCells | src/lib/export-utils.js:37-53 | every row has 15 cells, like the header |
| ExportUtils.RowCellFacts | src/lib/export-utils.js:38-52 | the date cell is the date part; the tags cell is the tags joined with `; `; pnl is `'0'` when missing; a missing strategy is empty; TP Count is the take-profit count |
| ExportUtils.RowReadBack | src/lib/export-utils.js:52-55 | importing a row gives each cell back, quotes dropped and trimmed, and TP Count reads back as the number of take-profit legs |
| ExportUtils.DecimalPlain | src/lib/export-utils.js:52 | a printed count has no quotes or surrounding whitespace to lose |
| ExportUtils.ExportLines | src/lib/export-utils.js:55 | the export has one header line plus one line per trade |
| ExportUtils.TradeLines | src/lib/export-utils.js:37-55 | line `i` of the rows is trade `i`'s cells escaped and joined |
| ExportUtils.ExportSplitsIntoLines | src/lib/export-utils.js:55 | when no cell holds a newline, splitting the file on `\n` gives the header line and one line per trade |
| ExportUtils.LinesWithout | src/lib/export-utils.js:55 | no exported line holds a newline when no cell does |
| TradeContext.Max | src/lib/trade-context.js:18-19 | `Math.max` is the larger of the two |
| TradeContext.RunAtEnd | src/lib/trade-context.js:18-20 | the current streak is never longer than the trades seen |
| TradeContext.LongestRun | src/lib/trade-context.js:15-23 | the longest streak is never longer than the trades |
| TradeContext.ComputeStreaks | src/lib/trade-context.js:15-23 | the loop returns the longest run of pnl > 0 trades and of pnl < 0 trades |
| TradeContext.RunAtEndIsRun | src/lib/trade-context.js:18-20 | the current streak consists of same-side trades and cannot be extended to the left |
| TradeContext.RunAtEndBound | src/lib/trade-context.js:18-20 | no same-side run reaching the end is longer than the current streak |
| TradeContext.LongestRunWitness | src/lib/trade-context.js:15-23 | some stretch of consecutive same-side trades is as long as the maximum |
| TradeContext.LongestRunBound | src/lib/trade-context.js:15-23 | no stretch of consecutive same-side trades is longer than the maximum |
| TradeContext.RunAfterBreak | src/lib/trade-context.js:18-20 | a trade of the other kind resets the current streak |
| TradeContext.BreakevenSplitsRuns | src/lib/trade-context.js:20 | a zero-pnl trade splits the streaks: the longest run is the larger of the two sides' longest runs |
| TradeContext.CountSide | src/lib/trade-context.js:100-101 | there are never more wins, or losses, than trades |
| TradeContext.WinsAndLosses | src/lib/trade-context.js:100-126 | wins plus losses are at most all trades, so the breakeven count is not negative |
| TradeContext.RunsWithinCount | src/lib/trade-context.js:107-131 | no streak is longer than the number of trades on its side |
| TradeContext.PnlSplits | src/lib/trade-context.js:102-104 | total pnl is wins' pnl plus losses' pnl; the first is at least 0, and positive exactly when a win exists; the second is at most 0, and negative exactly when a loss exists |
| TradeContext.WithSymbol | src/lib/trade-context.js:28 | trades without a symbol are skipped |
| TradeContext.WithSymbolKeeps | src/lib/trade-context.js:28 | every trade with a symbol is kept |
| TradeContext.MembersWithSymbol | src/lib/trade-context.js:28 | skipping trades without a symbol does not change any symbol's group |
| TradeContext.AddTradeStep | src/lib/trade-context.js:30-33 | the loop's update of one symbol's figures equals the figures of its group with one more trade |
| TradeContext.SymbolRows | src/lib/trade-context.js:26-35 | one entry per symbol, in first-appearance order, holding its group's count, pnl, wins and losses |
| TradeContext.BuildSymbolBreakdown | src/lib/trade-context.js:25-36 | the loop filling the map, then the sort, gives the symbol lines |
| TradeContext.Visit | src/lib/trade-context.js:27-34 | one loop pass keeps the map exact for the trades seen so far |
| TradeContext.Tally | src/lib/trade-context.js:29-33 | creating the entry if missing and updating it keeps the map exact |
| TradeContext.Rows | src/lib/trade-context.js:35 | `Object.entries` lists the entries in insertion order |
| TradeContext.TalliedRows | src/lib/trade-context.js:35 | the entries of the finished map are the symbol rows |
| TradeContext.SymbolLinesAreGroups | src/lib/trade-context.js:25-36 | one line per distinct non-empty symbol, each holding its group's figures |
| TradeContext.SymbolLineIsGroup | src/lib/trade-context.js:28-36 | every line has a non-empty symbol and the figures of all trades with that symbol |
| TradeContext.SymbolLinesCover | src/lib/trade-context.js:28-36 | every trade with a symbol has its symbol's line |
| TradeContext.SymbolLinesOrdered | src/lib/trade-context.js:35-36 | the lines run from the largest total pnl to the smallest |
| TradeContext.Durations | src/lib/trade-context.js:109 | the durations kept are at most the trades, and there are none exactly when no trade has one |
| TradeContext.SummaryFacts | src/lib/trade-context.js:99-110 | summary: total is the trade count; wins plus losses at most the total; streaks at most the win or loss counts; the win and loss totals are non-negative, and positive exactly when such trades exist; the gross total is the wins' pnl minus the losses' magnitude; the average duration is absent exactly when no trade has one |
| TradeContext.Assemble | src/lib/trade-context.js:118-149 | the fixed sections, then the older-trades section only when there is one, then the recent trades, last |
| TradeContext.RecentWindow | src/lib/trade-context.js:3-116 | the recent trades are the last min(n, 50); the older count is positive exactly when n > 50, and then it is n − 50, the trades before them |
| TradeContext.EmptyContext | src/lib/trade-context.js:95-97 | no trades gives the fixed sentence |
| TradeContext.ContextLayout | src/lib/trade-context.js:99-151 | trades are sorted by entry date (a permutation), and the sections are joined by a blank line |
| TradeContext.SectionsByCount | src/lib/trade-context.js:120-149 | 7 sections above 50 trades (the older section holds the first n − 50), else 6; the recent section holds the last min(n, 50) |
| TradeContext.SectionsLayout | src/lib/trade-context.js:141-149 | the older section appears exactly when the older count is positive and covers those trades; recent trades come last |

## Left out

- IEEE-754 arithmetic. Prices, pnl and averages are exact reals, and `Math.round(x * 100) / 100` is exact rounding. Float round-off and NaN are not modelled. A NaN pnl cannot arise, because a missing pnl is `Option.None`.
- JavaScript dates and time zones. `new Date(s).getTime()` and `toISOString().slice(0, 19)` are the abstract `Js.Env.dateMs` and `Js.Env.isoOf`. `dateMs` is total, so the `Invalid Date` (NaN) that would make the sort comparators inconsistent is not modelled.
- Number parsing and printing: `parseFloat`, `parseInt`, `String(x)` of a price, `toFixed(2)` and `toFixed(1)`. These are the abstract `Js.Env` functions `parseFloat`, `parseInt`, `numStr`, `fixed2` and `fixed1`. Only the integer printing of `String(n)` for counts is modelled, as `Js.Decimal`.
- BrokerCommon.LowerAscii: `toLowerCase` is modelled for ASCII letters only, because Unicode case mapping is outside the model. No non-ASCII character lower-cases to `b`, `u` or `y`, so the `'buy'` test is unaffected.
- Object key order. A JS object enumerates integer-like keys (a contract named `123`, say) first, in numeric order, before the others. The model keeps every key in insertion order.
- Keys that collide with `Object.prototype` names (a symbol called `constructor`) are not modelled.
- BulkImport.MergeTrades, TradeMerge.MergeGroupFacts, TradeContext.SummaryFacts, TradeContext.SymbolRows, TradeContext.BuildSymbolBreakdown and TradeContext.Assemble: a missing `pnl` counts as 0 in a sum. In JavaScript it adds NaN in `trade-context.js`, and 0 in the merges (`t.pnl || 0`).
- Tradovate.Close: the exit-price average, like the entry-price average of `Tradovate.Advance`, divides through `Div`, which returns 0 for a zero divisor. JavaScript gives `Infinity` or `NaN` there. A zero divisor can occur only with zero or negative fill quantities: `TradovateProps.EmittedSize` proves the exit total is positive whenever quantities are non-negative.
- TradovateProps.ReplayBalanced and TradovateProps.EmittedSize require non-negative fill quantities. `parseInt` of a negative `Filled Qty` would break the balance, and the source does not say what such a row means.
- ScaleOutMerge.KeyDetermines and ScaleOutMerge.GroupsAreHomogeneous require symbols without `|`. A symbol holding `|` can make two different symbol/direction pairs share a group key, and the merged trade then copies only the earliest member's symbol.
- `buildStrategyBreakdown`, `buildDirectionBreakdown`, `buildDayOfWeekBreakdown` and `formatTrade` are fields of `TradeContext.Renderer`, and their text is not modelled. They are display formatting over floats and the weekday of a date. The model states where their sections go.
- `fmtMoney(null)` and `fmtPct(null)` (`'N/A'`): every figure the model passes to them is a number. The profit factor, average win/loss ratio and win rate lines are text through the abstract `fixed2` and are not stated.
- `buildTradeContext(null)`: a list is never null in the model. The empty list gives the fixed sentence.
- The `try`/`catch` around `parser.parse` on the import page, and the file reading, drag-and-drop, previews and React state (`setSelected`, `setExpandedRows`, `setImported`) of `src/pages/BulkImport.jsx`. HandleImport returns the cleaned list that `importTrades` (the database write) would receive.
- `triggerDownload`, `todayStamp`, the `Blob`, and the zip export and import of `src/lib/export-utils.js` and `src/lib/import-utils.js`: DOM, clock and archive I/O.
- Everything outside the import pipeline: rendering, persistence (`src/db.js`, `src/stores/*`), the OpenAI client (`src/lib/openai.js`), and the dashboard statistics.
