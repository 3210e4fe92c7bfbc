# prols ranking core in Dafny

prols lists the files under the current directory, best first, for a fuzzy
finder. This project models what happens after the directory scan. A
configuration is validated, and the scanned `File` records are then ranked
by a fixed sequence of stages (main.go:93-120):

- the presort by the configured keys (path, depth);
- the rule scores;
- a stable sort by score;
- dropping the leading negative scores, when enabled;
- adding per-directory totals and sorting again, when enabled;
- an in-place reversal, when enabled.

The model also covers the rule engine these stages use, the memoised depth
of a record, and the scanner's decision whether it must detect binary files.

Module by module:

- `Files`: the record, a class whose `depth` field caches `Depth`.
- `Rules`: a rule's depth filter (`Init`), `Pass`, and the text rewriting
  `ParseRule` does before YAML decoding.
- `Configs`: `LoadConfig`'s checks on an already decoded configuration.
- The stages themselves, each a method on an `array<File>`, Go's `[]*File`:
  - `PreSorting` for the presort;
  - `ScoreSort` for the score sort;
  - `Ranking` for the rules, the negatives, the directory totals, the
    reversal and the detection decision.
- `Pipeline`: the stages chained as `main` chains them (`Pipeline.Rank`).
- `Sorting`: the stable insertion sort the two sort stages are proved
  against. For up to twenty elements, Go's `sort.SliceStable` is exactly
  this insertion sort.
- `Snapshots`: the values of records taken before a stage, so that a
  contract can speak about the records' old values.
- `GoStrings`: the `strings`/`strconv` functions the core calls.

Where the code behaves differently from what its comments and option names
suggest, the model follows the code:

- A depth presort without `Reverse` puts deeper files first, and with
  `Reverse` shallower files first.
- The presort comparator says "before" as soon as any key does. It is not
  the lexicographic combination of the keys (`PreSorting.MultiKeyBothBefore`).
- There is no modification-time key: any key whose field is neither
  `depth` nor `path` makes the comparator panic.

## Model

| member | source | states |
|---|---|---|
| Files.PathDepth | file.go:24 | The depth of a path is the number of `/` in it plus one, so it is at least 1. |
| Files.JoinPathDepth | scanner.go:44-48 | An entry the scanner names directly under the root has depth 1; an entry under directory `dir` is one deeper than `dir`. |
| Files.File.constructor | scanner.go:73-76 | A new record has the given path, score 0 and an empty depth cache. |
| Files.File.Depth | file.go:22-28 | Depth returns what the record reported before the call. The first call computes `Count(path, "/") + 1` and caches it; later calls return the cache. Afterwards the cache is non-zero and equals the result. Only the `depth` field changes. |
| Files.CurrentDepthOfAgreeingCache | file.go:22-28 | With an empty or consistent cache, Depth reports the depth of the path, which is at least 1. |
| Files.StaleCacheExample | file.go:23 | The cache is keyed only on `depth == 0`. After `a/b` has been asked for its depth and the path changes to `a` (depth 1), Depth still returns 2. |
| GoStrings.IndexOf | main.go:271 | strings.Index for one character: -1 exactly when the character is absent; otherwise the position of its first occurrence. |
| GoStrings.CountIsMultiplicity | file.go:24 | strings.Count of one character equals the number of times it occurs. |
| GoStrings.Atoi | rule.go:74-88 | strconv.Atoi: a result is in the 64-bit range and ends in a digit; the empty text and a lone sign are rejected. |
| GoStrings.AtoiItoa | rule.go:74-88 | Atoi reads back every 64-bit integer as Itoa prints it. |
| GoStrings.TrimSpace | rule.go:38 | strings.TrimSpace returns the text between the leading and the trailing white space, and it neither starts nor ends with white space. |
| GoStrings.TrimSpaceOfTrimmed | rule.go:38 | Trimming text that is already trimmed, even with white space put in front of it, gives that text back. |
| GoStrings.JoinSplit | rule.go:27 | Joining the parts strings.Split returns, with the same separator, gives back the original text. |
| GoStrings.SplitJoin | rule.go:42 | Splitting a join of separator-free parts gives back the parts. |
| GoStrings.SplitCount | rule.go:27 | A text with k separators splits into k + 1 parts. |
| GoStrings.LexLessTotal | main.go:224-229 | Go's string `<` orders any two different strings one way or the other. |
| GoStrings.LexNotLessTransitive | main.go:224-229 | "Not before" on strings is transitive, so path order is a strict weak order. |
| Rules.Init | rule.go:62-99 | An empty depth filter leaves the rule unchanged. A bare `<` or `>` is rejected. Otherwise the filter is accepted exactly when Atoi accepts its numeric part. On success the value is the parsed integer, the comparison is the leading sign or stays as it was, and no other field changes. |
| Rules.ComparedDepthMeaning | rule.go:114-131 | A filter `<k` or `>k` with k non-zero is accepted. It then passes exactly the depths below k, respectively above k. |
| Rules.ExactDepthMeaning | rule.go:114-131 | A filter `k` with no sign is accepted. It then passes exactly depth k, or every depth when k is 0. |
| Rules.Pass | rule.go:101-140 | Pass is true exactly when the prefix, suffix, depth and binary filters all hold, with an empty prefix or suffix always holding. The depth Depth reports is unchanged. The cache is filled only when prefix and suffix passed and the depth filter is on. |
| Rules.UnfilteredRuleMatchesAll | rule.go:101-139 | A rule with no filter set passes every file. |
| Rules.GainConcat | main.go:253-261 | The score collected from two lists of rules is the sum of the scores collected from each. |
| Rules.GainOrderIndependent | main.go:253-261 | Listing the rules in any other order gives the same score. |
| Rules.FormatPartOfLine | rule.go:28-38 | A part already written `key: value` with trimmed sides and a colon-free key is rewritten to itself. |
| Rules.FormatPartIdempotent | rule.go:28-38 | Rewriting an already rewritten part changes nothing. |
| Rules.FormatAllIdempotent | rule.go:27-40 | The rewritten lines all keep a colon, and rewriting them again gives the same lines. |
| Rules.ParseRuleText | rule.go:23-42 | The text stage succeeds exactly when every comma-separated part has a colon. It then returns the rewritten parts joined by newlines; otherwise it reports the first part without a colon. |
| Rules.ParsedTextLines | rule.go:27-42 | For a rule text without newlines, splitting the produced text at newlines gives back exactly one rewritten line per part. |
| Configs.Flag | config.go:44-55 | `depth` sets the depth flag and `path` sets the path flag, leaving the other fields alone. Any other field is rejected. |
| Configs.FirstBadRule | config.go:33-41 | There is no failing rule exactly when every rule's Init succeeds. Otherwise the result is the first failing rule and its error. |
| Configs.FirstBadPreSort | config.go:43-58 | There is no bad presort exactly when every field is `depth` or `path`. Otherwise the result is the first one that is neither. |
| Configs.Loaded | config.go:26-61 | Loading succeeds exactly when every rule's Init succeeds and every presort field is known. On success the rules come back as decoded, and the presorts come back flagged, at the same index and in the same order. Otherwise the error names the first failing rule, or the first bad presort when all rules passed. |
| Configs.LoadConfig | config.go:26-61 | The loops return exactly Loaded: they stop at the first failing rule, then at the first bad presort, and write each flagged presort back in place. |
| Configs.FirstBadRuleIs | config.go:33-41 | The first failing rule is the one the rule loop stops at. |
| Configs.FirstBadPreSortIs | config.go:43-58 | The first unknown presort field is the one the presort loop stops at. |
| Configs.LoadedDepthFiltersInert | config.go:33-34 | As written, a loaded rule keeps its `depth` text but has no parsed depth, so its depth filter passes every depth. |
| Configs.DepthTwoExample | config.go:33-34 | The rule `depth: 2` loads, yet the loaded rule passes a file at depth 3. The corrected loader's rule does not pass it, but passes depth 2. |
| Configs.LoadedFixed | config.go:33-41 | The corrected loader accepts and rejects the same configurations. On success it returns every rule as its Init left it. |
| Configs.LoadedFixedComparedDepth | config.go:33-41 | With the corrected loader, a rule written `<k` or `>k` passes exactly the depths below, respectively above, k. |
| Sorting.InsertionSort | main.go:245-247 | The stable sort yields a permutation of its input of the same length. |
| Sorting.InsertionSortSorted | main.go:245-247 | Under a strict weak order, no element of the sorted output ranks before an element to its left. |
| Sorting.InsertionSortStable | main.go:245-247 | Under a strict weak order, the elements equivalent to any key keep their input order. |
| Sorting.NeverLessKeepsOrder | main.go:238 | A comparator that never says "before" leaves the sequence as it is. |
| Sorting.NeverBadNeverPanics | main.go:233-235 | A comparator that never panics never makes the sort panic. |
| Sorting.AlwaysBadPanics | main.go:233-235 | A comparator that always panics makes the sort panic once there are two elements. |
| Sorting.SortPanicsGrows | main.go:233-235 | Once sorting a prefix panics, sorting the whole sequence panics. |
| Sorting.ReversedAt | main.go:115-120 | Position i of the reversal holds element n-1-i. |
| Sorting.ReversedTwice | main.go:115-120 | Reversing twice restores the sequence. |
| ScoreSort.ScoreSorted | main.go:244-249 | The score sort yields a permutation of the records in ascending score order, with equal scores in their input order. |
| ScoreSort.SortScore | main.go:244-249 | applySortScore leaves the array holding the records in the order of the stable score sort of their old values. |
| PreSorting.PreCompareTrue | main.go:210-238 | The comparator says "before" exactly when some key ranks i before j and every key ahead of it has a flag. |
| PreSorting.PreCompareNone | main.go:233-235 | The comparator panics exactly when it reaches a key without a flag before any key has ranked i before j. |
| PreSorting.PreCompareFlagged | main.go:210-238 | With every key flagged, the comparator never panics and says "before" exactly when at least one key does. |
| PreSorting.PreLess | main.go:209-240 | The comparator closure on two records returns the verdict of the keys on their paths and reported depths. It fills depth caches but changes no reported depth. |
| PreSorting.PreSortFiles | main.go:208-242 | applyPreSort panics exactly when the stable sort of the old records reaches a panicking comparison. Otherwise the array holds the records in that sort's order, and no reported depth changes. |
| PreSorting.SingleKeyBefore | main.go:211-231 | With one flagged key the comparator is that key's order and never panics. |
| PreSorting.SingleKeyOrder | main.go:211-231 | One flagged key is a strict weak order. |
| PreSorting.SingleKeyTies | main.go:211-231 | A depth key ties exactly the records of equal depth, and a path key exactly those of equal path. |
| PreSorting.PreSortSingleKey | main.go:208-242 | With one flagged key the presort never panics and yields a permutation. A depth key puts deeper files first, or shallower with Reverse. A path key sorts paths ascending, or descending with Reverse. Tied records keep their input order. |
| PreSorting.LoadedNeverPanics | main.go:233-235 | The presorts of a configuration Loaded accepts are all flagged, so the presort never panics. |
| PreSorting.UnflaggedPanics | main.go:233-235 | A first key with neither flag makes the presort panic once two records are compared. |
| PreSorting.NoKeysKeepOrder | main.go:238 | With no keys the presort never panics and keeps the input order. |
| PreSorting.MultiKeyBothBefore | main.go:210-238 | With a depth key and then a path key, each of two records ranks before the other. |
| Ranking.ApplyRulesToFile | main.go:253-261 | The record's score grows by the scores of exactly the rules it passes, and its reported depth is unchanged. |
| Ranking.AccumulatedIsProduct | main.go:252-263 | A record listed several times collects its gain once per occurrence. |
| Ranking.DistinctOccursOnce | main.go:252 | In a slice of distinct records, each occurs once. |
| Ranking.ApplyRules | main.go:251-266 | The slice is not reordered. Each record's score grows by the sum of the scores of the rules it passes, once per time it is listed. Each record's reported depth is unchanged. |
| Ranking.ApplyRulesDistinct | main.go:251-266 | With distinct records, the rule stage adds to each record exactly the summed score (`Gain`) of the rules it passes. |
| Ranking.DropNegativesAt | main.go:147-164 | Dropping the leading run of negative scores cuts the slice exactly at the index RemoveNegative returns. |
| Ranking.RemoveNegative | main.go:147-164 | The kept suffix starts after exactly the leading run of negative scores. An empty slice, or one whose first score is not negative, is kept whole. |
| Ranking.RemoveNegativeSorted | main.go:148-163 | On scores sorted ascending, a record is kept exactly when its score is not negative. |
| Ranking.BaseIsIndexPrefix | main.go:270-277 | getBase returns "." when strings.Index finds no slash, and otherwise the path up to the first slash, slash included. |
| Ranking.BaseMeaning | main.go:270-277 | The base of a path with a slash is a prefix of the path that ends in its first slash; a path without a slash has base ".". |
| Ranking.BaseOfNested | main.go:270-277 | Every path under top-level directory `d` has base `d/`. |
| Ranking.DirTotalConcat | main.go:290-292 | A directory's total over two runs of records is the sum of its totals over each. |
| Ranking.DirTotalOrderIndependent | main.go:290-292 | A directory's total does not depend on the order of the slice. |
| Ranking.WriteStep | main.go:279-288 | One `write` extends the map's per-base totals from the records before the current one to the records up to and including it. |
| Ranking.DirTotals | main.go:290-292 | After the first loop, the map holds the base of every listed path, each mapped to the summed score of the records with that base. |
| Ranking.AddDirTotal | main.go:294-296 | The record's score grows by what the map holds for its base. |
| Ranking.ApplyScoreDirs | main.go:268-299 | The slice is not reordered. Each record's score grows by the summed old score of all records with the same base, itself included, once per time it is listed. |
| Ranking.ScoreDirsKeepsDifference | main.go:294-296 | With distinct records, two records with the same base keep the difference between their scores. |
| Ranking.ReverseFiles | main.go:115-120 | The reversal loop leaves element n-1-i at position i. |
| Ranking.ShouldDetectType | main.go:180-186 | Detection is needed exactly when some rule sets the binary filter. |
| Ranking.GainIgnoresBinary | main.go:180-186 | When no rule sets the binary filter, a file's score does not depend on its binary flag, so skipping detection is safe. |
| Pipeline.ReversedPermutes | main.go:115-120 | The reversal keeps every element, with its multiplicity. |
| Pipeline.RescoredFiles | main.go:251-299 | The rule scores and the directory totals change scores only: the same records stay in the same order. |
| Pipeline.DropNegativesSuffix | main.go:147-164 | What removeNegative keeps is a suffix; every record before it is negative, and its first record is not. |
| Pipeline.DropNegativesShape | main.go:147-164 | On records in ascending score order, removeNegative keeps some of the records, still ascending, none of them negative. |
| Pipeline.DirTotalNonNegative | main.go:290-292 | A directory total over non-negative scores is non-negative. |
| Pipeline.DirsAppliedNonNegative | main.go:268-299 | When no score is negative, adding the directory totals leaves no score negative. |
| Pipeline.ScoreSortShape | main.go:244-249 | The score sort keeps the records, orders them ascending, and keeps non-negative scores non-negative. |
| Pipeline.ReversedShape | main.go:115-120 | Reversing keeps the records, turns ascending scores into descending ones, and keeps non-negative scores non-negative. |
| Pipeline.FinishedShape | main.go:105-120 | From records in ascending score order, the later stages return some of them, all of them unless negatives are hidden. They come ascending by final score, or descending under Reverse. With HideNegative no final score is negative, with or without ScoreDirs. |
| Pipeline.RankedShape | main.go:93-120 | From any scanned records, the ranking returns some of them, all unless negatives are hidden. They come ascending by final score, or descending under Reverse, and none is negative under HideNegative. |
| Pipeline.SortedByScoreFiles | main.go:93-95 | The presort, the rule scores and the score sort keep the records with their multiplicity. |
| Pipeline.SortedByScoreStable | main.go:93-95 | After the score sort, records with equal scores keep the order the presort gave them. |
| Pipeline.SortedByScoreGains | main.go:93-95 | With distinct records, each scanned record appears after the score sort with its old score plus exactly the scores of the rules it passes. |
| Pipeline.PreSortStage | main.go:93 | applyPreSort panics exactly when the stable presort of the records' values reaches a panicking comparison. Otherwise the array holds, in that sort's order, records whose values are the sort's output, all of them from the input. |
| Pipeline.RulesStage | main.go:94 | applyRules keeps the order and leaves each record with its score plus its rule gains (`Ranking.RulesApplied`). |
| Pipeline.SortScoreStage | main.go:95 | applySortScore leaves the records in the order of the stable score sort of their values. |
| Pipeline.SortStages | main.go:93-95 | The first three stages panic exactly when the presort does. Otherwise they leave the presorted, rescored records stably sorted by score. |
| Pipeline.HideNegatives | main.go:105-107 | The output holds the input's records after the leading run of negative scores, in order, with their values. |
| Pipeline.DirsStage | main.go:110 | applyScoreDirs keeps the order and adds to each record its directory's total (`Ranking.DirsApplied`). |
| Pipeline.RescoreStage | main.go:109-112 | With ScoreDirs, the directory totals are added and the records re-sorted by score; without it nothing changes. |
| Pipeline.ReverseStage | main.go:115-120 | Position k ends up holding the record from position n-1-k, its values unchanged. |
| Pipeline.OrientStage | main.go:115-120 | The records are reversed exactly when Reverse is set. |
| Pipeline.Finish | main.go:105-120 | The output holds what dropping negatives (under HideNegative), directory totals with a re-sort (under ScoreDirs) and the reversal (under Reverse) make of the records' values. |
| Pipeline.RankStages | main.go:93-120 | The ranking panics exactly when the presort does; otherwise the output holds the ranked values of the input records. |
| Pipeline.RankedSlice | main.go:93-120 | An array holding the ranked values of the input has only input records, all of them unless negatives are hidden. It is ordered by final score, descending under Reverse, with no negative score under HideNegative. |
| Pipeline.Rank | main.go:93-120 | main's ranking panics exactly when the presort does. Otherwise the output holds exactly the ranked values of the input records. It keeps only input records, all of them unless negatives are hidden, ordered by final score (descending under Reverse), and none negative under HideNegative. |

## Left out

- scanner.go: the directory walk, symbolic links, the gitignore matcher and the mutex-guarded append are file-system I/O and shared state. Only the path join at scanner.go:44-48 (`Files.JoinPath`) and the record the walk creates are modelled.
- scheduler.go: bounded goroutine fan-out is concurrency; the order in which the scan yields records is an input to the model.
- detectType (file.go:30-57): file I/O and `http.DetectContentType`, a library outside the repository. The binary flag is an input.
- main's option parsing, logging, profiling, debug output and `writeResult`: I/O.
- YAML decoding (`ko.Load`, `yaml.Unmarshal`) and `Rule.String`: foreign code. A decoded `Config` or `Rule` is an input. `Rules.ParseRuleText` returns the text that would be handed to `yaml.Unmarshal`, and ParseRule's final `init` call is `Rules.Init`.
- `ModTime`: the scanner stores it, but no stage reads it.
- The error values: `karma.Format` messages become error values of a datatype (`DepthError`, `ParseError`, `ConfigError`).
- The composition in `main` (main.go:93-120) is `Pipeline.Rank`. `ScoreDirs` is not a field of `Config` in the source, so it is a separate input.
- Text: Go strings are byte sequences, while the model's `string` is a sequence of code points. The two agree on valid UTF-8 text: the characters the core looks for (`/`, `,`, `:`, newline) are ASCII, UTF-8 byte order is code-point order, and `TrimSpace` trims the same white space. On invalid UTF-8 they can differ, and positions are code-point indices rather than byte offsets.
- Pipeline.HideNegatives: Go re-slices the slice, sharing its backing array; the model copies the kept records into a new array.
- `sort.SliceStable` on more than twenty records: Go sorts blocks of twenty and merges them, while the model sorts the whole slice by insertion. The two agree whenever the comparator is a strict weak order, as the score sort and a single-key presort are. With several presort keys, or a panicking key, on more than twenty records, the order of comparisons may differ.
- PreSorting.PreSortFiles: sortedness and stability are proved only for a single key (`PreSorting.PreSortSingleKey`). With several keys the comparator is not an order, and only the permutation and the panic condition are stated.
- Ranking.ApplyRules: scores are unbounded integers; Go's `int` wraps around at 64 bits on overflow.
- Ranking.ApplyScoreDirs: scores are unbounded integers; Go's `int` wraps around at 64 bits on overflow.
- Ranking.RemoveNegative: returns the index where the kept suffix starts instead of re-slicing the slice.
- Ranking.DirTotals: does not state that the map holds no keys other than the bases of the listed paths.

## Findings

| source | as written | input that shows it | evidently intended | confidence | as-written member | corrected member |
|---|---|---|---|---|---|---|
| config.go:33-34 | `init` runs on the range variable, a copy of the rule, so the parsed `depthValue`/`depthComparison` never reach `config.Rules`; every loaded rule's depth filter is off | a configuration with the rule `depth: "2"`: it loads, and its rule passes a file at depth 3 | each rule is written back as its `init` left it, as the presort loop does with `config.PreSort[i] = presort` | not executed | Configs.DepthTwoExample | Configs.LoadedFixedComparedDepth |
