# ruby-perf-optim, the algorithms inside the benchmarks

ruby-perf-optim is a collection of Ruby scripts that time, profile and
measure the memory of small workloads. Most of each script drives the
garbage collector, a profiler, a database or `ps`. The workloads themselves
are small algorithms with behaviour that can be stated exactly, and this
Dafny project models those algorithms and proves what they compute.

- **Statistical comparator** (`016_statistics.rb`):
  - the two product benchmarks, `not_optimal` (an `inject` fold) and `optimal` (an `each` loop);
  - the decimal `round`, which rounds half to even on exact ties;
  - the OPTIMIZED / REGRESSION / UNCHANGED verdict, taken from an interval two errors wide on each side.
- **People-file parsing** (`011_rp_rep.rb`, `012_profiling.rb`, `014_stackprof.rb`):
  - `parse_data`;
  - the generic `parse_row` (split, then classify each column);
  - the optimized `parse_row` (fixed slices of the third field);
  - `parse_col` (digits, then a date shape, then the string itself);
  - `find_youngest`, which overwrites the caller's array with each row's date and takes the maximum.
- **Group rank** (`009_db/group_rank.rb`): the in-application loop that numbers the records of each department 1, 2, 3, …
- **CSV building**: the `map`/`join` expression of `001_gc.rb` and the nested append loop of `002_memory.rb`. Both are proved to give the same string.
- **Title-casing** (`003_wrapper_ex.rb`): `downcase` followed by `gsub(/\b('?[a-z])/) { $1.capitalize }`, and the written `output.join('\n')`.
- **Destructive iteration** (`007_iter_1.rb`): `Array#each!`, the `shift` drain loop, and plain `each`.
- **Deferred and immediate loggers** (`006_callbacks_1.rb`, `006_callbacks_2.rb`). The first stores the logged blocks and replays them in `play`; the second applies each block at once. Both give the same lines.

Ruby library behaviour these scripts depend on is written out in `ruby_text.dfy`:

- `String#split` drops trailing empty fields, and `"".split(c)` is `[]`;
- `Array#join` puts no separator at the ends;
- `String#to_i` reads the leading digits;
- `String#[start, len]` answers nil past the end;
- `Integer#to_s`.

Ruby integers are unbounded, like Dafny's `int`. Ruby's `/` and `%` floor, which for the positive divisors used (100, 10, 2) is Dafny's Euclidean division.

Modules:

| file | module | models |
|---|---|---|
| options.dfy | Options | nil as `Option` |
| ruby_text.dfy | RubyText | split, join, to_i, slicing, to_s |
| statistics.dfy | Statistics | 016_statistics.rb |
| row_parsing.dfy | RowParsing | parse_data, parse_row, parse_col |
| youngest.dfy | Youngest | find_youngest and Array#max |
| group_rank.dfy | GroupRank | 009_db/group_rank.rb |
| csv_building.dfy | CsvBuilding | 001_gc.rb, 002_memory.rb |
| title_case.dfy | TitleCase | 003_wrapper_ex.rb |
| draining.dfy | Draining | 007_iter_1.rb |
| log_events.dfy | LogEvents | the block both loggers log |
| deferred_logger.dfy | DeferredLogger | 006_callbacks_1.rb |
| immediate_logger.dfy | ImmediateLogger | 006_callbacks_2.rb, and the equivalence with the deferred logger |

Where the source does work in place, the model does too:

- `optimal`, the CSV append loop, the group-rank loop, `each!` and the drain loop are methods with loop invariants;
- `find_youngest` overwrites an `array`;
- the `Logger` modules and Ruby's `Array` are classes whose methods update fields.

The expression-only code is functions, with lemmas about them.

## Model

| member | source | states |
|---|---|---|
| Statistics.NotOptimal | 016_statistics.rb:4-6 | the `inject(1)` fold is the product of the elements, and 1 for an empty array |
| Statistics.InjectIsScaledProduct | 016_statistics.rb:5 | folding `prod * i` from the left with seed acc gives acc times the product |
| Statistics.Optimal | 016_statistics.rb:8-14 | the `prod *= i` loop computes the product of the elements, the same value as `not_optimal` for every integer array (1 when empty) |
| Statistics.ProductOfTens | 016_statistics.rb:57-59 | for `Array.new(elements) { 10 }` both products are exactly 10^elements |
| Statistics.KeptFraction | 016_statistics.rb:43-49 | the kept digits are `roundables / 100` or one more. `100*fractions - roundables` lies in [-50, 50], strictly inside unless the dropped digits are exactly 50. On that tie the kept value is even |
| Statistics.RoundDecisionTable | 016_statistics.rb:44-48 | below 50 truncates, above 50 increments, and exactly 50 increments iff the last kept digit is odd |
| Statistics.NearestEvenIsUnique | 016_statistics.rb:43-49 | any value within half a unit, and even on a tie, is the one `round` keeps, so the rule is round-half-to-even |
| Statistics.Round | 016_statistics.rb:40-51 | the integer part plus the kept digits scaled back: times 10^digits, the part past `unit` is exactly the kept digits, and for a fraction in [0, 1) (`0 <= roundables < 10^(digits+2)`) the result lies between `unit` and `unit + 1`. Its closeness is RoundIsClose; the float steps are under Left out |
| Statistics.ScaledDigits | 016_statistics.rb:51 | adding k/10^digits to `unit` adds exactly k units of the last kept place, and at most 1 when 0 <= k <= 10^digits |
| Statistics.RoundIsClose | 016_statistics.rb:43-51 | the fraction `round` returns, scaled by 10^(digits+2), is within 50 of `roundables`, and strictly within unless the dropped digits are exactly 50: half a unit of the last kept digit |
| Statistics.NearestHundred | 016_statistics.rb:43-49 | with roundables = 100·fractions + last, the increment rule lands on the nearest multiple of 100, the even one on a tie |
| Statistics.LastDigitParity | 016_statistics.rb:45 | `fractions % 10` has the parity of `fractions`, so `last_fraction.odd?` tests whether the kept value is odd |
| Statistics.ConfidenceInterval | 016_statistics.rb:87 | the interval is centred on `mo`, contains it, and is 4·err wide |
| Statistics.Decide | 016_statistics.rb:96-103 | exactly one verdict: OPTIMIZED iff the interval starts above 0; REGRESSION iff it does not and ends below 0; UNCHANGED otherwise |
| Statistics.Compare | 016_statistics.rb:83-103 | OPTIMIZED iff mx - my > 2·err. REGRESSION iff my - mx > 2·err. With err ≥ 0, OPTIMIZED implies mx > my and REGRESSION implies mx < my. Equal means give UNCHANGED |
| RubyText.Join | 001_gc.rb:19 | `Array#join` is as long as the parts plus one separator between each neighbouring pair |
| RubyText.JoinSnoc | 002_memory.rb:18-22 | appending a separator and a part to a join is the join of the longer list |
| RubyText.JoinEndsWithLast | 001_gc.rb:18-19 | a join whose last part is not empty ends with that part's last character |
| RubyText.JoinFlatten | 003_wrapper_ex.rb:13 | joining an array of non-empty arrays joins all their cells in row-major order with the same separator |
| RubyText.CountJoin | 001_gc.rb:18-20 | a one-character separator occurs exactly once fewer than there are parts, when no part holds it |
| RubyText.JoinAvoids | 011_rp_rep.rb:17-18 | a character in no part and not in the separator does not occur in the join |
| RubyText.SplitAll | 012_profiling.rb:23 | the fields between separators hold no separator, there is at least one, and joining them gives the string back |
| RubyText.DropTrailingEmpty | 012_profiling.rb:23 | the trailing empty fields `split` discards are all and only those after the last non-empty field |
| RubyText.Split | 012_profiling.rb:23 | `String#split(c)` is a prefix of the fields, holds no separator, and never ends in an empty field |
| RubyText.SplitAllJoin | 012_profiling.rb:18-23 | splitting a join of separator-free parts at every separator gives the parts back |
| RubyText.SplitJoin | 011_rp_rep.rb:17-26 | `split` undoes `join` when no part holds the separator and the last part is not empty |
| RubyText.LeadingDigits | 012_profiling.rb:35 | the digits `to_i` reads are a prefix of the string, all digits, and followed by a non-digit or the end |
| RubyText.ToI | 012_profiling.rb:35 | `to_i` of a string of digits is its decimal value |
| RubyText.Slice | 012_profiling.rb:38-40 | `s[start, len]` is nil iff start is past the end; otherwise it is the at most len characters from start |
| RubyText.IntToS | 011_rp_rep.rb:17 | `Integer#to_s` is a non-empty string of digits with no leading zero whose value is the integer |
| RubyText.ToIOfIntToS | 011_rp_rep.rb:17-31 | `to_i` reads back what `to_s` wrote |
| RowParsing.Lines | 012_profiling.rb:58 | a column with no newline is a single line for the `^`/`$` anchors |
| RowParsing.FirstDateLine | 012_profiling.rb:60 | the regexp captures from a date-shaped line of the column. There is no match iff no line has the date shape |
| RowParsing.ParseCol | 012_profiling.rb:57-65 | a run of digits becomes its integer value, a `\d{4}-\d{2}-\d{2}` string becomes the date of its three groups, and any other string is returned unchanged |
| RowParsing.ParseRowGeneric | 011_rp_rep.rb:25-27 | the generic `parse_row` gives one value per comma-separated field |
| RowParsing.ParseRowFixed | 012_profiling.rb:32-43 | the optimized `parse_row` fails iff the row has fewer than three fields. Otherwise it answers exactly three values: an integer, a string and a date |
| RowParsing.SliceDate | 012_profiling.rb:37-41 | the year is `to_i` of the first four characters; the month is 0 when the field has at most five characters and the day 0 when it has at most eight, as a nil or empty slice reads as 0 |
| RowParsing.SliceDateOfDateShaped | 012_profiling.rb:37-41 | on a `YYYY-MM-DD` field the slices `[0,4]`, `[5,2]`, `[8,2]` read year, month and day |
| RowParsing.ParseDataGeneric | 011_rp_rep.rb:21-23 | one parsed row per line of the data |
| RowParsing.ParseRowsGeneric | 011_rp_rep.rb:22 | the rows stay in line order, one per line |
| RowParsing.ParseRowsFixed | 014_stackprof.rb:19-21 | with the optimized parser the data parses iff every line does, giving that line's row at the same position |
| RowParsing.ParseDataFixed | 012_profiling.rb:22-24 | the optimized `parse_data` succeeds iff every line has at least three comma-separated fields, and then gives one `[Integer, String, Date]` row per line |
| RowParsing.DateShapedHasNoSeparators | 011_rp_rep.rb:17 | a generated date holds neither a comma nor a newline |
| RowParsing.IntToSHasNoSeparators | 011_rp_rep.rb:17 | a generated id holds no separator and is not date-shaped |
| RowParsing.ParseGeneratedLine | 011_rp_rep.rb:25-37 | on a line shaped like the generator's output, the generic and the optimized `parse_row` both give `[id, name, date]` |
| RowParsing.SplitGeneratedData | 012_profiling.rb:13-23 | splitting the generated data at newlines gives back the generated lines |
| RowParsing.ParseGeneratedLines | 012_profiling.rb:23 | each generated line parses to its person's row, in order, with either parser |
| RowParsing.ParseGeneratedData | 012_profiling.rb:80-84 | generated data parses to exactly one `[Integer, String, Date]` row per person, in order, with either parser |
| Youngest.DateCmp | 012_profiling.rb:68 | `Date#<=>` is positive iff the first date is later, and zero iff the dates are equal |
| Youngest.StrCmp | 012_profiling.rb:68 | `String#<=>` answers -1, 0 or 1, and 0 iff the strings are equal |
| Youngest.Cmp | 012_profiling.rb:68 | `<=>` answers a value iff both sides are integers, strings, dates or nil; that value is -1, 0 or 1, and 0 iff the two are equal |
| Youngest.StrCmpAntisymmetric | 012_profiling.rb:68 | comparing two strings the other way round negates the answer |
| Youngest.CmpAntisymmetric | 012_profiling.rb:68 | `b <=> a` is nil iff `a <=> b` is, and otherwise its negation |
| Youngest.MaxFrom | 012_profiling.rb:68 | `max` from a running maximum never reports an empty array, and its answer is the start or one of the remaining values |
| Youngest.RubyMax | 012_profiling.rb:68 | `max` is nil iff the array is empty, and otherwise, when every comparison succeeds, one of its elements |
| Youngest.MaxFromDates | 012_profiling.rb:68 | over dates the running maximum of `max` succeeds with one of the dates, no earlier than any of them |
| Youngest.MaxOfDates | 012_profiling.rb:87-91 | `max` of a non-empty array of dates is one of them and `>=` every one |
| Youngest.FindYoungest | 012_profiling.rb:67-69 | each slot of `people` is overwritten by its row's third value and the length is unchanged. The answer is `max` of those values; when they are dates it is `>=` every slot |
| GroupRank.RunRank | 009_db/group_rank.rb:20-25 | a record's rank is between 1 and its 1-based index |
| GroupRank.AssignRanks | 009_db/group_rank.rb:18-26 | the loop completes iff the array is empty or the first `department_id` is not nil. When it completes, each record's `rank` is its run rank and every other field, the count and the order are unchanged. When it fails, nothing has changed |
| GroupRank.RankIsRunPosition | 009_db/group_rank.rb:18-26 | the rank is the 1-based position in the run of equal `department_id`. The rank-1 records before it share its department and the one before them does not, so a run starts at 1 and rises by 1 |
| GroupRank.OrderedIsGrouped | 009_db/group_rank.rb:16 | input ordered by department keeps each department together |
| GroupRank.CountInAbsent | 009_db/group_rank.rb:20-21 | with no earlier record of a department, its count so far is 0 |
| GroupRank.RankCountsEarlierInDepartment | 009_db/group_rank.rb:18-26 | when departments stand together, a rank is one more than the number of earlier records of its department, so a department of k records is ranked 1..k |
| GroupRank.RankFollowsSalary | 009_db/group_rank.rb:16-26 | under `order(:department_id, :salary)`, a later record of the same department has a rank higher by exactly its distance and a salary at least as high |
| CsvBuilding.CsvText | 001_gc.rb:18-20 | the text is as long as the joined rows plus one newline between each pair |
| CsvBuilding.Window | 002_memory.rb:16-18 | the part of `data` the indexed loops read |
| CsvBuilding.WindowOfExactTable | 002_memory.rb:8-10 | on a table of the generated shape the loops read every cell |
| CsvBuilding.AppendStep | 002_memory.rb:18-22 | appending a part, then a separator unless it is the last, extends the buffer from k parts to k+1 |
| CsvBuilding.BuildCsv | 002_memory.rb:15-23 | the append loop builds exactly the text of 001_gc.rb (rows joined with "," and then with newlines) from the cells it reads, which is all of them for a `num_rows` × `num_cols` table. Only `data` is read |
| CsvBuilding.SeparatorCounts | 001_gc.rb:18-20 | a row of n cells carries n-1 commas; the text carries one newline fewer than there are rows |
| CsvBuilding.NoTrailingSeparator | 001_gc.rb:18-20 | a row whose last cell is not empty does not end in a comma, and the text does not end in a newline when its last row ends in a non-empty cell |
| CsvBuilding.LastOfRow | 001_gc.rb:18 | a row ending in a non-empty plain cell joins to a string that ends in neither a comma nor a newline |
| CsvBuilding.EmptyLastCellTrails | 001_gc.rb:18 | an empty last cell does leave a trailing comma: `["a", ""].join(',')` is `"a,"` |
| CsvBuilding.RoundTrip | 001_gc.rb:18-20 | splitting the text at newlines and then at commas gives back the rows and cells in row-major order |
| CsvBuilding.GeneratedTable | 001_gc.rb:10-12 | the generated table has `num_rows` rows of `num_cols` cells |
| CsvBuilding.TotalLengthUniform | 001_gc.rb:11 | n parts of length m have total length n·m |
| CsvBuilding.GeneratedLength | 002_memory.rb:5-23 | the generated table's text has `num_rows*(num_cols*1000 + num_cols - 1) + num_rows - 1` characters |
| TitleCase.Lower | 003_wrapper_ex.rb:8 | ASCII downcase of one character: never upper case, letters stay letters, non-letters are unchanged |
| TitleCase.Upper | 003_wrapper_ex.rb:8 | ASCII upcase of one character: never lower case, letters stay letters, non-letters are unchanged |
| TitleCase.LowerUpper | 003_wrapper_ex.rb:8 | upcasing a lower letter makes it upper case, and downcasing gives it back |
| TitleCase.Downcase | 003_wrapper_ex.rb:8 | `downcase` keeps the length and downcases each character in place |
| TitleCase.GsubFrom | 003_wrapper_ex.rb:8 | the `gsub` scan emits exactly one character per input character |
| TitleCase.Transform | 003_wrapper_ex.rb:8 | the transformed column has the input's length |
| TitleCase.GsubFromAt | 003_wrapper_ex.rb:8 | from every position the scan reaches, each output character is the input character, upper-cased exactly where a word starts |
| TitleCase.TransformAt | 003_wrapper_ex.rb:8 | each output character is the downcased input character, upper-cased exactly where a word starts: at the start, or after a non-word character that is not an apostrophe following a word character |
| TitleCase.OnlyCaseChanges | 003_wrapper_ex.rb:8 | non-letters are preserved in place and letters stay the same letter. A letter is upper case iff it starts a word, so letters after a digit, an underscore, or an apostrophe that follows a word character stay lower case |
| TitleCase.DowncaseTransform | 003_wrapper_ex.rb:8 | the output has the same downcased form as the input |
| TitleCase.TransformIdempotent | 003_wrapper_ex.rb:8 | transforming an output again changes nothing |
| TitleCase.RockAndRoll | 003_wrapper_ex.rb:8 | `rock'n'roll` becomes `Rock'n'roll` |
| TitleCase.TransformRows | 003_wrapper_ex.rb:6-10 | each row keeps its number of columns and each column its length, in order |
| TitleCase.OutputText | 003_wrapper_ex.rb:13 | `output.join('\n')` of no rows is empty and of one row is that row's cells joined with backslash-n. With no empty row it is the flat join (OutputIsFlatJoin) |
| TitleCase.OutputIsFlatJoin | 003_wrapper_ex.rb:13 | with no empty row, the written text is every cell in row-major order separated by the two characters backslash and n |
| TitleCase.OutputHasNoNewline | 003_wrapper_ex.rb:13 | the written text holds a real newline only where a cell does |
| Draining.RubyArray.Count | 007_iter_1.rb:20 | `count` is the number of elements |
| Draining.RubyArray.Shift | 007_iter_1.rb:23 | `shift` removes and answers the first element; on an empty array it answers nil and changes nothing |
| Draining.RubyArray.EachBang | 007_iter_1.rb:33-39 | `each!` yields the original elements once each, in order, as many times as the initial count, and leaves the array empty; each step removes one element, so the loop ends |
| Draining.RubyArray.Each | 007_iter_1.rb:41 | `each` yields the elements in order and leaves the array unchanged |
| Draining.DrainWithProbe | 007_iter_1.rb:20-24 | the drain loop empties the array front-first; the `count == 500` probe fires once iff the array starts with at least 500 elements |
| Draining.EachWithIndexProbe | 007_iter_1.rb:6-9 | the index-500 probe fires once iff there are more than 500 elements |
| Draining.DrainThousand | 007_iter_1.rb:17-24 | for the script's 1000 elements the probe fires exactly once and the array ends empty |
| LogEvents.Line | 006_callbacks_1.rb:20 | the logged line is "created thing " followed by digits that read back as the id |
| LogEvents.LineInjective | 006_callbacks_2.rb:18 | different ids log different lines |
| LogEvents.Apply | 006_callbacks_1.rb:20 | calling a block appends exactly its line at the end of the output |
| LogEvents.Replay | 006_callbacks_1.rb:13 | replaying the blocks, `log_actions.each` calling each on `output`, only appends: the output keeps its start and grows by one line per block |
| LogEvents.ReplayAppendsLines | 006_callbacks_1.rb:13 | replaying the blocks in order appends their lines in order |
| LogEvents.Things | 006_callbacks_1.rb:25 | `do_something` logs 1000 blocks, for things 0 to 999 |
| LogEvents.ThingLines | 006_callbacks_2.rb:18-23 | the lines of things 0..n-1 are "created thing 0" .. "created thing n-1", in id order |
| DeferredLogger.Logger.constructor | 006_callbacks_1.rb:4 | both accessors start nil |
| DeferredLogger.Logger.Log | 006_callbacks_1.rb:6-9 | `log` creates the list on first use and appends exactly one block at its end; `output` is untouched |
| DeferredLogger.Logger.Play | 006_callbacks_1.rb:11-15 | `play` fails when nothing was logged. Otherwise its loop gives the replay of the blocks in insertion order on a fresh list, which is their lines, joined with newlines. It changes nothing |
| DeferredLogger.Thing.constructor | 006_callbacks_1.rb:18-22 | `Thing.new(id)` logs the block for its id |
| DeferredLogger.DoSomething | 006_callbacks_1.rb:24-26 | the blocks of things 0..999 are appended in order |
| DeferredLogger.Script | 006_callbacks_1.rb:28-30 | after `do_something`, the list holds 1000 blocks, `play` gives "created thing 0" .. "created thing 999" one per line, and `output` is still nil |
| DeferredLogger.PlayFirst | 006_callbacks_1.rb:13 | `play` before any `log` fails |
| ImmediateLogger.Logger.constructor | 006_callbacks_2.rb:4 | `output` starts nil |
| ImmediateLogger.Logger.Log | 006_callbacks_2.rb:6-9 | `log` creates `output` on first use and appends the block's one line at once |
| ImmediateLogger.Logger.Play | 006_callbacks_2.rb:11-13 | `play` fails when nothing was logged; otherwise it answers the lines joined with newlines, leaving `output` as it is |
| ImmediateLogger.Thing.constructor | 006_callbacks_2.rb:16-20 | `Thing.new(id)` appends "created thing id" |
| ImmediateLogger.DoSomething | 006_callbacks_2.rb:22-24 | `output` gains "created thing 0" .. "created thing 999" in id order |
| ImmediateLogger.Script | 006_callbacks_2.rb:26-28 | `play` after `do_something` gives those 1000 lines |
| ImmediateLogger.PlayFirst | 006_callbacks_2.rb:12 | `play` before any `log` fails |
| ImmediateLogger.SameLines | 006_callbacks_2.rb:6-13 | for any sequence of logged blocks, the immediate logger plays the same text as the deferred one of 006_callbacks_1.rb. Both fail exactly when nothing was logged |

## Left out

- Measurement and process plumbing:
  - `measure` in wrapper.rb and in 016_statistics.rb (fork, pipes, `Benchmark.realtime`, `ps`, `GC.stat`, `ObjectSpace`);
  - every `GC.start` / `GC.disable`;
  - the `ObjectSpace.each_object` counts;
  - every `puts`, `ap` and file write.

  These are runtime introspection and I/O. Where a script prints a value, the model returns it instead.
- The float statistics of 016_statistics.rb (means, Bessel-corrected SD, `Math.sqrt`), because they are floating point. The verdict takes `mx`, `my` and `err ≥ 0` as real inputs.
- Statistics.Round: takes the two integers `unit` (`num.to_i`, line 41) and `roundables` (line 42) as its inputs, so the float-to-integer steps that compute them from `num` are not modelled. The last line's division is exact real arithmetic, and its final `Float#round(digits)` is not modelled. The proved bound is about those exact values.
- `gen_test_data`, because it uses `rand`, `sample` and `Time.at`. A generated person is an arbitrary (id, name, date string) whose name holds no separator and is neither digits nor date-shaped.
- The Date library, because it is foreign code. `Date.new` and `Date.parse` validation (month and day ranges, the errors they raise) is not modelled: a date is a (year, month, day) triple. `Date.parse` of 011_rp_rep.rb is read as taking the same three numbers as the captured groups in 012_profiling.rb.
- RubyText.ToI: signs, leading whitespace and underscores, which `String#to_i` accepts, are not modelled. Only leading decimal digits are read, which covers every string these scripts pass to it.
- `map!` on the freshly split arrays inside `parse_data` and `parse_row` is modelled as a pure map, because no other reference to those arrays exists. The `map!` in `find_youngest`, which overwrites the caller's array, is modelled in place.
- Youngest.Cmp: `<=>` is modelled for two integers, two strings, two dates and two nils; every other pair is a failed comparison. Ruby's `Date <=> Numeric` and `Array#<=>` are not modelled, and neither is `String#<=>` beyond character codes.
- The ActiveRecord objects of 009_db/group_rank.rb are an array of records. Fetching them through SQL and the SQL `rank()` query are left out. The loop is not claimed to match that query, which orders by salary descending and gives ties equal ranks.
- TitleCase.Transform: only ASCII is modelled. Ruby's Unicode `downcase` and the Unicode word characters of `\b` are not. `CSV.open` reading, the nil cells it yields for empty fields, and the file write are left out.
- `Array.new(1000) { Thing.new }` objects and their garbage collection: arrays hold arbitrary values, and only their order and count are modelled.
- The module-level `Logger` (`extend self`) is an object passed to `Thing` and `do_something`, not a global. A logged block is represented by the id it captures, the only block the scripts log.
