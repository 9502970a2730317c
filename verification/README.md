# Verified model of the Hazelcast command line client

This project models the self-contained cores of the Hazelcast command line client in Dafny 4.11
and proves what they promise. `dafny verify dfyconfig.toml` checks the whole project.

Code that works step by step is modelled step by step: classes with the fields of the source,
methods with its loops, arrays where it fills arrays. Each such method is proved against a
function on values, and the lemmas say what that function means: a round trip, a conserved
quantity, an independent simple form, or the exact condition under which a promise holds.

| file | models |
|---|---|
| `Frames.dfy`, `Bytes.dfy` | messages as frames with a forward cursor, and little-endian two's complement numbers |
| `Codec.dfy`, `JobCodec.dfy` | `internal/proto/codec`: fields at fixed offsets, strings, lists, maps and structures as frames |
| `Nesting.dfy`, `WireFormat.dfy` | nested structures by their grammar, and which byte or frame holds what |
| `ConfigTree.dfy` | `clc/config`: dotted keys to nested maps and back |
| `ConfigYaml.dfy`, `ConfigReading.dfy`, `ConfigText.dfy` | the YAML text of the same keys, and reading it by indentation |
| `MetricKeys.dfy`, `MetricStore.dfy` | `clc/metrics` over `clc/store`: counting, persisting, reporting, deleting |
| `LogFixer.dfy`, `LogSplits.dfy`, `LogPrefix.dfy` | the log stream with reconnects of `viridian_log_stream.go`, when a write may be split, and its prefix |
| `OrderedSets.dfy`, `TableRows.dfy`, `Widths.dfy`, `TablePrinting.dfy` | `internal/output` and `internal/table`: columns of heterogeneous rows, widths, wrapped lines |
| `Shells.dfy`, `ShellLines.dfy`, `ShellsAgree.dfy` | how the two shells assemble statements, which lines end one, and when they agree |
| `Sse.dfy` | server-sent events |
| `Upload.dfy` | the batched upload of a job |
| `JobIds.dfy` | job IDs and their text |
| `Args.dfy` | checking and binding positional arguments |
| `Versions.dfy`, `Precedence.dfy` | version ordering, and how far it is that of Semantic Versioning |
| `Text.dfy`, `Integers.dfy`, `Sequences.dfy`, `Sorting.dfy`, `Wrappers.dfy` | what is used of Go's strings, strconv and slices packages, and the option type |

A Go panic is the value `None` (`Panic` for a frame parser). Where Go visits a map, the model
visits it in any order, and results are proved not to depend on the order or state it as an outcome.

## What does not hold

Where the code falls short of what its documentation, its comments or a standard promise, the
code is modelled as it is, and the exact condition or a counterexample is proved.

- A blank string that is not empty is decoded as the empty string (`JobCodec.LosslessExactly`).
- The section map of dotted keys panics when a key is a proper prefix of a later one
  (`ConfigTree.FailsExactly`); after the text has been written the keys are sorted, so
  `config add` panics for such keys in any order (`ConfigText.AddConfig`).
- A key that starts with a dot loses the dot when it is loaded (`ConfigTree.NameOfKey`): all options
  are found under their own keys exactly when none of these starts with a dot
  (`ConfigTree.FlattenBuilt`).
- Counters under a name that the report has no field for are deleted unreported, and one bad
  entry hides the rest of its day, which is deleted too (`MetricStore.SettledConserves`).
- A log record without one of the documented fields shows the field of an earlier line, but only
  if both arrive in one write (`LogFixer.MissingFieldLeaks`). So the output can depend on how the
  stream is cut into writes; it does not exactly when no line that is shown lacks a field set
  before the cut, and no JSON `null` before the cut makes a later line panic
  (`LogSplits.SplitIsSafeExactly`).
- A log connection cut in the middle of a line glues the rest to the next session's first line.
  When the result is not JSON, an entry is lost exactly when that session resumes at the first
  unshown one; inside the very first line the broken text is shown instead (`LogFixer.CutLine`).
- A JSON value that is not an object is broken out into a part without a name, which is meant to
  appear under the name of the column but is overwritten: of the parts of a column exactly those
  with a name are shown (`TableRows.PartIsShownExactly`).
- Cutting off `this.` can give two columns the same header (`TableRows.SameLook`).
- A streamed table with an unnamed column panics for certain console widths (`Widths.PanicsExactly`).
- The separator line is as long as the lines of the table exactly when the header takes one line;
  it is repeated for every line of a wrapped one (`TablePrinting.MakeSeparator`).
- The lines of a streamed table do not fit the console when the names of flexible columns exceed
  their share by more than the division left over (`Widths.LinesFitExactly`).
- A space behind a backslash continues a command in one shell and ends it in the other
  (`ShellsAgree.SplitCommandEnds`); the shells end their statements with the same lines exactly
  when no statement starts with such a line (`ShellsAgree.SameCuts`), and pass on the same ones
  exactly when, besides, first lines are trimmed and no text is left over (`ShellsAgree.TwoShells`).
- Events with the line ends `\r\n` are not told apart; such a stream reads as its events exactly
  when it is one event without a value (`Sse.CrlfReadsWellExactly`; section 9.2.5 of the HTML
  standard).
- What the end of the stream cuts off is handed on, even a truncated value; the payloads are those
  of the finished events exactly when nothing with a payload is cut off (`Sse.CutOffExactly`,
  `Sse.CutOffInsideAValue`; section 9.2.6 of the HTML standard).
- A payload loses the line breaks at its end (`Sse.PayloadComesBack`).
- A job upload ends well with part of the file when the reader needs more reads than there are
  parts, or delivers the last bytes together with the end of the file (`Upload.ArrivesExactly`,
  `Upload.ShortReadsLoseData`).
- The text of a negative job ID reads back without the sign, and printing the smallest ones
  panics (`JobIds.IdRoundTrip`); a job whose name reads as another ID is not found by its name
  (`JobIds.JobIsFound`).
- The least numbers of arguments are added without looking at overflow, so that a sum above the
  largest integer is not enforced (`Args.CheckArgs`).
- The comments in `makeKeywordArgs` say that its arity errors cannot happen after the check; one
  happens for every command whose last argument must be left out, or whose least count overflowed
  (`Args.ArityErrorExactly`).
- Two pre-releases of one version are equal whatever their identifiers, unlike in item 11 of
  Semantic Versioning 2.0.0; all other numeric versions are in its order
  (`Precedence.ComparedWellExactly`, `Precedence.AlphaAndBeta`).
- Loose equality can be turned around exactly when the parts it did not look at are zero
  (`Versions.LooselyIsSymmetricExactly`).

## Model

| member | source | states |
|---|---|---|
| Codec.EncodeBoolean | internal/proto/codec/builtin.go:62-68 | writes one byte at the offset and leaves all others |
| Codec.EncodeInt | internal/proto/codec/builtin.go:108-110 | writes the four little-endian bytes at the offset and leaves all others |
| Codec.EncodeLong | internal/proto/codec/builtin.go:39-41 | writes the eight little-endian bytes at the offset and leaves all others |
| Codec.IntRoundTrip | internal/proto/codec/builtin.go:108-114 | every int32, negative ones included, is read back from its bytes at any offset |
| Codec.LongRoundTrip | internal/proto/codec/builtin.go:116-118 | every int64, negative ones included, is read back from its bytes at any offset |
| Codec.EncodeUUID | internal/proto/codec/builtin.go:214-223 | the buffer after writing a UUID; the default one changes only the flag byte |
| Codec.UUIDRoundTrip | internal/proto/codec/builtin.go:214-235 | every UUID, the default one included, is read back over any earlier bytes, and no byte outside its seventeen changes |
| WireFormat.BooleanIs | internal/proto/codec/builtin.go:62-68 | true is the byte one and false the byte zero |
| Bytes.LittleEndianAt | internal/proto/codec/builtin.go:108-110 | the bytes of a number stand in the order of their weights, the lowest one first |
| WireFormat.IntBytesAre | internal/proto/codec/builtin.go:108-110 | byte i of an int is digit i to the base 256 of its two's complement |
| WireFormat.LongBytesAre | internal/proto/codec/builtin.go:39-41 | byte i of a long is digit i to the base 256 of its two's complement |
| WireFormat.UUIDIs | internal/proto/codec/builtin.go:214-223 | a flag that is one for the default UUID only, then the upper half and the lower half |
| Codec.EncodeNullableForString | internal/proto/codec/builtin.go:128-134 | appends a null frame for a blank string, otherwise the string |
| Codec.DecodeNullableForString | internal/proto/codec/builtin.go:20-33 | reads one frame, a null frame as the empty string, and leaves the cursor behind it |
| Codec.NullableStringRoundTrip | internal/proto/codec/builtin.go:20-25 | a nullable string comes back unchanged exactly when it is empty or not blank |
| WireFormat.BlankExactly | internal/proto/codec/builtin.go:128-134 | the bytes of a text are blank exactly when all its runes are spaces |
| WireFormat.NullableFrameIs | internal/proto/codec/builtin.go:128-134 | a blank string is a null frame without content, any other one a plain frame with its bytes |
| Codec.FastForwardToEndFrame | internal/proto/codec/builtin.go:136-146 | terminates on every input; result and cursor are those of the bracket matching, a panic when the frames run out |
| Codec.FastForwardExact | internal/proto/codec/builtin.go:136-146 | skipping stops behind frame n exactly when n frames are the shortest prefix that closes the structure |
| Codec.SkipsUnknownFrames | internal/proto/codec/builtin.go:136-146 | any well-nested frames before the end frame are skipped, and nothing behind it |
| Nesting.PassesOver | internal/proto/codec/builtin.go:136-146 | frames nested by the grammar leave the number of open structures as it was |
| Nesting.SkipsNested | internal/proto/codec/builtin.go:136-146 | skipping passes over any nested frames and stops just behind the end frame of the structure |
| Nesting.NestedExactly | internal/proto/codec/builtin.go:136-146 | counting frames and the grammar agree: frames are well nested exactly when they have a nested structure |
| Nesting.ListsNested | internal/proto/codec/builtin.go:74-170 | lists and maps of strings, and lists of nested parts, are nested |
| Nesting.JobNested | internal/proto/codec/job_and_sql_summary_codec.go:36-54 | the frames of every job are one nested structure |
| Nesting.SkipsWhatEncodersWrite | internal/proto/codec/builtin.go:136-146 | a whole job and any nested frames behind it are skipped where this reader does not know them |
| Codec.EncodeListMultiFrameForString | internal/proto/codec/builtin.go:164-170 | appends begin frame, one frame for each string, end frame |
| Codec.DecodeListMultiFrameForString | internal/proto/codec/builtin.go:172-180 | result and cursor are those of the list grammar, with the panics |
| Codec.StringListRoundTrip | internal/proto/codec/builtin.go:164-180 | every list of strings is read back, and the cursor is just behind its end frame |
| Codec.ListReadBack | internal/proto/codec/builtin.go:249-257 | a list of parts that each read as a value reads as the list of the values, for any element decoder |
| Codec.EncodeMapForStringAndString | internal/proto/codec/builtin.go:74-81 | appends the entries in some order of the keys |
| Codec.DecodeMapForStringAndString | internal/proto/codec/builtin.go:89-99 | result and cursor are those of the map grammar, with the panics |
| Codec.MapRoundTrip | internal/proto/codec/builtin.go:74-99 | the map is read back whatever order its entries were written in |
| WireFormat.MapFramesAre | internal/proto/codec/builtin.go:74-81 | a key and its value are two frames in turn between a begin and an end frame |
| JobCodec.EncodeSqlSummary | internal/proto/codec/sql_summary_codec.go:30-39 | appends the frames of a summary |
| JobCodec.DecodeSqlSummary | internal/proto/codec/sql_summary_codec.go:41-54 | result and cursor are those of the grammar of a SQL summary, with the panics |
| JobCodec.EncodeInitialFrame | internal/proto/codec/job_and_sql_summary_codec.go:38-45 | the fields written at the chained offsets do not overlap: the buffer is their bytes one after the other |
| JobCodec.EncodeJobAndSqlSummary | internal/proto/codec/job_and_sql_summary_codec.go:36-54 | appends exactly the frames of the job |
| WireFormat.JobFramesAre | internal/proto/codec/job_and_sql_summary_codec.go:24-54 | the ten frames of a job and the place of each fixed field in its thirty-eight bytes |
| JobCodec.DecodeJobAndSqlSummary | internal/proto/codec/job_and_sql_summary_codec.go:56-93 | result and cursor are those of the grammar of a job, with the panics on short frames and missing frames |
| JobCodec.DecodeListMultiFrameForJobAndSqlSummary | internal/proto/codec/builtin.go:249-257 | result and cursor are those of the grammar of a list of jobs |
| JobCodec.HeaderRoundTrip | internal/proto/codec/job_and_sql_summary_codec.go:59-69 | all fixed fields come back; an older frame without the last byte reads as not cancelled, and newer bytes behind the fields are ignored |
| JobCodec.DecodesAnyVersion | internal/proto/codec/job_and_sql_summary_codec.go:56-93 | a job of any older or newer peer decodes with its known fields unchanged, and the cursor stops exactly behind its end frame |
| JobCodec.ListDecodesAnyVersions | internal/proto/codec/builtin.go:249-257 | a list may mix jobs of all these versions: every element decodes, and the cursor stops behind the list |
| JobCodec.RoundTrip | internal/proto/codec/job_and_sql_summary_codec.go:36-93 | every list of jobs is read back, blank nullable strings as empty ones |
| JobCodec.LosslessExactly | internal/proto/codec/job_and_sql_summary_codec.go:49-51 | a job comes back unchanged exactly when neither nullable string is blank but not empty |
| ConfigTree.Walk | clc/config/config.go:53-73 | the pointer walk fails exactly when a leaf is in the way; otherwise the objects form the tree with the missing sections and nothing else |
| ConfigTree.SetLeaf | clc/config/config.go:74-76 | assigning the leaf replaces what was there and leaves the rest of the tree |
| ConfigTree.InsertOption | clc/config/config.go:52-77 | one option turns the objects of a tree into those of the tree with the option |
| ConfigTree.ConvertKeyValuesToMap | clc/config/config.go:50-79 | the linked maps form exactly the tree built from the options, and no two of its sections share a map |
| ConfigTree.LeavesExactly | clc/config/config.go:50-79 | the leaves are exactly the options that no later option overwrites, each with its value, for any keys |
| ConfigTree.FailsExactly | clc/config/config.go:62-65 | the type assertion fails exactly when some option is a leaf at a proper prefix of a later option |
| ConfigTree.TraverseMap | clc/config/file_provider.go:188-203 | writes exactly the leaves below the map under their dotted names, in any order of visiting, and touches nothing else |
| ConfigTree.NameOfKey | clc/config/file_provider.go:188-196 | a key keeps its name exactly when it does not start with a dot |
| ConfigTree.FlattenBuilt | clc/config/file_provider.go:188-203 | all surviving options of a built tree are found under their own keys, with their values, exactly when none of these keys starts with a dot; then there is nothing else |
| ConfigTree.NestThenFlatten | clc/config/config.go:50-79 | for prefix-free keys without empty segments no assertion fails, and flattening gives the last-wins map |
| ConfigTree.LoadConverted | clc/config/file_provider.go:188-203 | building the objects and loading them fails exactly on a clash; all options are found exactly when no surviving key starts with a dot, and for clean options the result is the last-wins map |
| ConfigTree.FileProvider.Get | clc/config/file_provider.go:140-155 | what has been loaded hides what has been set |
| ConfigTree.FileProvider.Set | clc/config/file_provider.go:95-100 | one value is set, and nothing that has been loaded changes |
| ConfigTree.FileProvider.All | clc/config/file_provider.go:102-113 | every value that can be looked up, whatever order the keys were visited in |
| ConfigTree.LoadAndSet | clc/config/file_provider.go:95-155 | after any values have been set, clean options that were loaded hide them, and all others are the last ones set |
| ConfigYaml.SortInPlace | clc/config/config.go:261-263 | the array ends up sorted by key |
| Text.LessExactly | clc/config/config.go:261-263 | of two keys the first position at which they differ decides the order, or the length when there is none |
| ConfigYaml.LineTextIs | clc/config/config.go:289-325 | a line is indented by two spaces for each level, and its value stands behind a colon and a space |
| ConfigYaml.Partition | clc/config/config.go:267-288 | options without a dot are leaves, the others are grouped by their first segment, which is cut off |
| ConfigYaml.SectionNames | clc/config/config.go:301-313 | the sorted names, whatever order the map was visited in |
| ConfigYaml.CopySection | clc/config/config.go:260-317 | the recursion terminates, sorts its array in place and appends exactly the lines of the section |
| ConfigYaml.CreateYAML | clc/config/config.go:253-258 | the text is that of the lines of the options, and the caller's options end up sorted |
| ConfigReading.ReadBody | clc/config/config.go:295-316 | lines written at any level and read by indentation add exactly the options of the section, whatever follows |
| ConfigReading.BuiltAdds | clc/config/config.go:50-79 | for unique, prefix-free keys without empty segments the tree holds exactly the options and the sections above them |
| ConfigReading.LinesHoldTheTree | clc/config/config.go:253-325 | for such keys the lines read by indentation give exactly the tree that ConvertKeyValuesToMap builds |
| ConfigReading.OrderIgnored | clc/config/config.go:261-263 | the lines are the same for every order of options with unique keys |
| ConfigText.LineRoundTrip | clc/config/config.go:319-325 | a line is read back with its level, name and value |
| ConfigText.TextRoundTrip | clc/config/config.go:289-300 | every text of plain lines is read back as those lines |
| ConfigText.TextHoldsTheTree | clc/config/config.go:253-325 | the text of plain options reads back as exactly the tree that ConvertKeyValuesToMap builds |
| ConfigText.SortedClashes | clc/config/config.go:261-263 | once sorted, the options clash exactly when one key is a proper prefix of another |
| ConfigText.SameTree | clc/config/config.go:50-79 | sorting does not change the tree of proper options |
| ConfigText.AddConfig | base/commands/config/config_add.go:69-75 | writing both files panics exactly on a prefix conflict in any order; otherwise text and map hold the same tree |
| MetricKeys.KeyRoundTrip | clc/metrics/key.go:56-93 | a key is read back exactly when no field holds the separator; otherwise it cannot be read at all |
| MetricKeys.ReadUnderPrefix | clc/metrics/key.go:73-94 | what can be read under the prefix of a date is a clean key of that date, and the only one with these bytes |
| MetricKeys.CleanDate | clc/metrics/key.go:34-36 | a key has the prefix of a date exactly when it is of that date |
| MetricKeys.MarshalInjective | clc/metrics/key.go:56-67 | no other key has the bytes of a clean key |
| MetricKeys.MarshalIs | clc/metrics/key.go:34-67 | the seven fields of a key in their order, and the prefix of a date |
| MetricKeys.YearIs | clc/metrics/key.go:78-81 | the dates that can be read are those of the calendar: a year has 366 days exactly when it is a leap year |
| MetricKeys.DateIs | clc/metrics/key.go:78-81 | a date written out with four, two and two digits can be read exactly when the calendar has it |
| MetricKeys.OnlyDates | clc/metrics/key.go:78-81 | nothing but such a text is read as a date |
| MetricStore.Store.SetEntry | clc/store/store.go:97-106 | one entry is set and no other changed |
| MetricStore.Store.UpdateEntry | clc/store/store.go:149-173 | one entry becomes the function of what was there, or of nothing, and no other changes |
| MetricStore.Store.GetKeysWithPrefix | clc/store/store.go:127-145 | exactly the keys with the prefix, once each, in byte order |
| MetricStore.Store.DeleteEntriesWithPrefixes | clc/store/store.go:203-209 | exactly the entries with one of the prefixes are gone |
| MetricStore.CollectDate | clc/metrics/query_generator.go:27-45 | collects a counter of the date exactly when no bad entry of the date comes before it, with its stored value, and no group of attributes without a counter |
| MetricStore.DateQueries | clc/metrics/query_generator.go:46-81 | one query for each group of attributes, so that no counter is reported twice, with the attributes of the program |
| MetricStore.GenerateQueries | clc/metrics/query_generator.go:24-84 | the queries report exactly the counters of the dates that are recognised and not behind a bad entry: one for each date and group that has such a counter, and no other |
| MetricStore.QueryCounts | clc/metrics/query_generator.go:51-79 | each recognised name has its own field in a query, and no other name is reported |
| MetricStore.QueryFields | clc/metrics/query_generator.go:46-81 | each of the fields of a query by its name: those of the program, of the group, and the nineteen counts |
| MetricStore.FirstPingFields | clc/metrics/query_generator.go:11-24 | the first ping has the attributes of the program and the session and reports no counts |
| MetricStore.GroupFields | clc/metrics/query_generator.go:27-52 | the query about the group of a key carries the names of the key |
| MetricStore.ReportedBy | clc/metrics/query_generator.go:46-81 | where there is one query for each group, the one about the group of a key reports its count, and no other |
| MetricStore.MetricStore.Increment | clc/metrics/metric_store.go:129-137 | every part of a dotted name is counted as often as it occurs, and nothing else changes |
| MetricStore.NewKeyFields | clc/metrics/key.go:38-54 | an increment goes to the key with the names of the caller and of the session |
| MetricStore.AddedIs | clc/metrics/metric_store.go:129-137 | an increment adds as many as the parts of the dotted name that lead to the key |
| MetricStore.MetricStore.StoreValue | clc/metrics/metric_store.go:119-127 | each part of the dotted name has the value, and no other value or counter changes |
| MetricStore.MetricStore.PersistIncrementMetrics | clc/metrics/metric_store.go:200-231 | each counter is added to its entry, whatever order the map is visited in, and the memory is emptied |
| MetricStore.MetricStore.PersistStoreMetrics | clc/metrics/metric_store.go:233-248 | each value replaces its entry, and the memory is emptied |
| MetricStore.MetricStore.PersistMetrics | clc/metrics/metric_store.go:180-185 | stored counters grow by what was in memory, set values replace what was stored, and nothing is left in memory |
| MetricStore.MetricStore.FindDatesToSend | clc/metrics/metric_store.go:250-259 | exactly the dates of the readable keys under the prefix, except today |
| MetricStore.MetricStore.DeleteSentDates | clc/metrics/metric_store.go:261-268 | exactly the counters of the dates are gone |
| MetricStore.MetricStore.Send | clc/metrics/metric_store.go:139-178 | counters are persisted in any case; the outcome is exactly determined: nothing to send exactly when it is not the first time and no counter of another day is visible, otherwise the transmission is tried; what is sent is one query for each group of such counters, or the first ping; they are deleted and today's are not; reported, persisted and counted stay the same in sum |
| MetricStore.TwelveHours | clc/metrics/metric_store.go:270-274 | the next try is twelve hours later, in nanoseconds |
| MetricStore.SettledConserves | clc/metrics/metric_store.go:165-175 | a transmission loses nothing of a counter exactly when it is today's, zero, or recognised and not behind a bad entry |
| MetricStore.TidyShowsAll | clc/metrics/query_generator.go:29-45 | in a store without bad entries no counter is hidden |
| MetricStore.Apply | clc/metrics/metric_store.go:119-178 | every step keeps the store tidy and the total of a counter, except for the increments it makes |
| MetricStore.Run | clc/metrics/metric_store.go:119-178 | over any run, with any transmissions failing, reported, persisted and in-memory counts equal the increments made |
| LogFixer.Fixer.Advance | base/commands/viridian/viridian_log_stream.go:101-103 | the time of the last line shown becomes the time to resume from |
| LogFixer.Fixer.Observe | base/commands/viridian/viridian_log_stream.go:140-183 | the effect of one line on the shared map, the times and the output, with its panics |
| LogPrefix.PrefixMakesNoDifference | base/commands/viridian/viridian_log_stream.go:140-142 | a line with the prefix `data:` does what it does without it |
| LogPrefix.BlankLines | base/commands/viridian/viridian_log_stream.go:140-146 | an empty line, or just the prefix, is skipped |
| LogPrefix.OtherTextIsShown | base/commands/viridian/viridian_log_stream.go:147-155 | before any time is known, a line that is not JSON is shown as a message of level DEBUG without time, thread and logger |
| LogPrefix.UntimedLine | base/commands/viridian/viridian_log_stream.go:147-177 | a line without a time that can be read is shown before any time is known and skipped after that |
| LogPrefix.LinePanics | base/commands/viridian/viridian_log_stream.go:147-158 | what panics: text behind a JSON `null`, and a time that is not a string |
| LogPrefix.RecordIsShown | base/commands/viridian/viridian_log_stream.go:155-183 | a record is shown exactly when it is later than the time to resume from, and then sets the next one |
| LogFixer.Fixer.Write | base/commands/viridian/viridian_log_stream.go:105-186 | the effect of one chunk: its complete lines are observed and the partial one is kept |
| LogFixer.TwoWrites | base/commands/viridian/viridian_log_stream.go:105-186 | two writes are one write of both chunks when every line is self-contained |
| LogFixer.ChunksDoNotMatter | base/commands/viridian/viridian_log_stream.go:105-186 | any split of the stream gives the output, the partial line and the times of one write |
| LogFixer.MissingFieldLeaks | base/commands/viridian/viridian_log_stream.go:110-148 | an object that lacks a field shows that of a line that is not JSON before it when both are in one write at the start of a stream, and not when they are written one by one |
| LogSplits.SplitIsSafeExactly | base/commands/viridian/viridian_log_stream.go:110-186 | for any writer and any two pieces: writing them one by one is the same as at once, under every template that shows the five fields, exactly when no line shown after the cut lacks such a field that the lines completed before it have set, a `null` line forgetting them, and the single write does not panic on a line that is not JSON after such a `null` |
| LogSplits.SafeExactly | base/commands/viridian/viridian_log_stream.go:110-160 | in particular, cutting between a line that is not JSON and an object is safe exactly when the object has all five fields |
| LogFixer.ReplaySteps | base/commands/viridian/viridian_log_stream.go:164-177 | entries shown before are skipped, the others are shown, and the time of the last one is kept |
| LogFixer.OneSession | base/commands/viridian/viridian_log_stream.go:64-75 | a session that starts no later than the first unshown entry shows exactly the unshown ones |
| LogFixer.NoGapNoDuplicate | base/commands/viridian/viridian_log_stream.go:62-75 | over any number of reconnects a gap-free, duplicate-free run of the log is shown, and the time never decreases |
| LogFixer.CutLine | base/commands/viridian/viridian_log_stream.go:134-139 | a partial line left by a lost connection is glued to the next session's first line; when the result is not JSON, this costs an entry exactly when that session resumes at the first unshown one, and inside the very first line the glued text is shown as it is |
| LogFixer.Stream | base/commands/viridian/viridian_log_stream.go:64-77 | a lost session advances the time and is followed by the next one; any other ends the loop without advancing |
| LogFixer.StreamIsSessions | base/commands/viridian/viridian_log_stream.go:64-77 | how the last session ends makes no difference but for the time that is not advanced |
| LogFixer.StreamShows | base/commands/viridian/viridian_log_stream.go:62-77 | the whole loop shows a gap-free, duplicate-free run of the log, however its last session ends |
| LogPrefix.PrefixedStreamShows | base/commands/viridian/viridian_log_stream.go:62-77 | the whole loop shows of a log with the prefix on every entry what it shows of the log without it |
| LogFixer.StreamSession | base/commands/viridian/viridian_log_stream.go:65-65 | one session is its chunks in order |
| OrderedSets.OrderedSet.Add | internal/output/ordered_set.go:18-25 | appends an item that is not there, otherwise changes nothing; says which |
| OrderedSets.OrderedSet.Delete | internal/output/ordered_set.go:27-34 | removes the item and keeps the order of the others; says whether it was there |
| OrderedSets.OrderedSet.Contains | internal/output/ordered_set.go:36-39 | true exactly for the live items |
| OrderedSets.OrderedSet.Items | internal/output/ordered_set.go:41-49 | the live items in order, without duplicates |
| OrderedSets.OrderedSet.Len | internal/output/ordered_set.go:51-53 | the number of items that Items gives |
| OrderedSets.IndexedIsSet | internal/output/ordered_set.go:41-53 | list, tombstones and table stand for a duplicate-free sequence with as many items as the table |
| OrderedSets.LiveWithTombstone | internal/output/ordered_set.go:27-34 | a new tombstone removes just that item from the sequence |
| OrderedSets.MixedRuns | internal/output/ordered_set.go:18-34 | after any mix of additions and deletions there are no duplicates, and an item is there exactly when its last operation added it |
| OrderedSets.Perform | internal/output/ordered_set.go:18-34 | any run of operations on the object is that run on the sequence |
| OrderedSets.FirstComesFirst | internal/output/ordered_set.go:18-25 | the items stand in the order in which they were first added |
| TableRows.Write | internal/output/utils.go:46-50 | one entry adds its name to the header set and replaces the cell under it |
| TableRows.WriteColumn | internal/output/utils.go:19-55 | a column contributes itself, its parts and a skip mark, or a mark that it was not decoded |
| TableRows.BrokenOutExactly | internal/output/utils.go:19-55 | JSON, portable and compact values are broken out unless they are the key or were not decoded, and nothing else is |
| TableRows.SubNameIs | internal/output/utils.go:40-45 | a part stands under the name of the whole, a dot and its own name |
| TableRows.BreakOut | internal/output/utils.go:15-58 | each row map holds the last column written under each name, and the header set has all names |
| TableRows.TakeHeader | internal/output/utils.go:59-71 | the header is the standard names that occur, then the others |
| TableRows.FillRow | internal/output/utils.go:82-101 | a row of the output has its cell or a nil column for each header; widths grow, and the first row sets the alignment |
| TableRows.MakeTableFromRows | internal/output/utils.go:14-112 | the rows are replaced in place by one cell for each header, and each column has the trimmed header, the first row's alignment and the longest width, bounded by the console |
| TableRows.HeaderText | internal/output/utils.go:102-110 | what stands above a column is its name without the prefix `this.` |
| TableRows.CellIsLast | internal/output/utils.go:84-90 | the cell is the column written last under its name, and a nil column with that name when there is none |
| TableRows.HeaderOrder | internal/output/utils.go:59-71 | the header has every name once: standard names in their order, then the others as they first occurred |
| TableRows.StandardRanks | internal/output/utils.go:59-71 | the key, its type, the value and its type come first, in this order, and all other names behind them |
| TableRows.HeaderIsComplete | internal/output/utils.go:15-58 | the header has exactly the names contributed by some row |
| TableRows.KeyStaysWhole | internal/output/utils.go:20-26 | the key of a row is shown whole, whatever its type and whatever the other columns contribute |
| TableRows.PartIsShownExactly | internal/output/utils.go:38-55 | for parts with distinct names and unless a later column writes under the name, a part is shown in the row exactly when it has a name; one without leaves the skip mark |
| TableRows.LaterColumnWins | internal/output/utils.go:38-55 | otherwise the cell is what the later column writes |
| TableRows.SameLook | internal/output/utils.go:102-110 | two columns get the same header exactly when a name also occurs behind the prefix that is cut off |
| TableRows.MinPositive | internal/output/utils.go:114-131 | the smaller of the positive arguments, or zero when there is none |
| TableRows.HeadFits | internal/output/utils.go:104-110 | a column is as wide as its longest text unless the console is narrower, and has no width exactly when everything is empty |
| TablePrinting.SplitLines | internal/table/table.go:168-198 | the loop over the reused buffer is the simple form: split at line breaks, cut, drop an empty last paragraph; it panics exactly on widths that are not positive |
| TablePrinting.WidthLimit | internal/table/table.go:168-175 | no column is cut into lines of more than 65535 runes |
| TablePrinting.PiecesAppend | internal/table/table.go:180-192 | how one more rune changes the lines and the buffer |
| TablePrinting.LinesHoldTheText | internal/table/table.go:168-198 | no line is wider than the column, and the lines joined are the text without its line breaks |
| TablePrinting.OnlyTheEmptyTextHasNoLine | internal/table/table.go:193-197 | only the empty text gives no line |
| TablePrinting.PrintLine | internal/table/table.go:130-142 | a printed line is as long as the widths and padding of its columns |
| TablePrinting.LineIs | internal/table/table.go:130-142 | a line is its cells with bars between them and a space at each end |
| TablePrinting.FillIs | internal/table/table.go:88-98 | a cell is filled with spaces up to its width, on the left when it stands to the right |
| TablePrinting.ShortCellsAreBlank | internal/table/table.go:130-142 | a cell that has fewer lines than its row is blank in the others |
| TablePrinting.WPrintRow | internal/table/table.go:115-148 | a row is as high as its highest cell, all its lines are equally long, and the size counts all of them; it panics exactly on a column without width |
| TablePrinting.MakeSeparator | internal/table/table.go:100-109 | the separator is repeated as often as the size of all lines of the header asks for; for a separator of any length not above that of a line, it is as long as a line exactly when the header takes one line |
| TablePrinting.OneLineExactly | internal/table/table.go:168-198 | a text takes at most one line exactly when it fits the width and only its last rune may be a line break |
| TablePrinting.HeightIsOne | internal/table/table.go:117-128 | a header takes one line exactly when each of its texts does and not all are empty |
| Widths.DefaultWidthForFlexibleColumns | internal/output/utils.go:194-220 | the flexible columns share what is left equally, and less than one rune for each remains |
| Widths.ShareExactly | internal/output/utils.go:194-220 | the share is the room divided by the number of flexible columns without the padding, and one where there is no room |
| Widths.FixedWidths | internal/output/utils.go:171-192 | which types have a fixed width, and how long their longest texts are |
| Widths.MakeTableHeaderFromRow | internal/output/utils.go:139-157 | every column gets the width of its type or the share, capped at 1000 |
| Widths.NumbersStandRight | internal/output/utils.go:159-169 | numbers stand at the right of their column, everything else at the left |
| Widths.LineTakes | internal/output/utils.go:171-192 | what a line takes: the fixed widths, the share of each flexible column, the padding, and what long names exceed their share by |
| Widths.LinesFit | internal/output/utils.go:171-220 | names within the share fit exactly when there was room for all padding, and nothing is wasted without the cap; an excess of one rune for each flexible column never fits |
| Widths.LinesFitExactly | internal/output/utils.go:171-220 | the lines fit the console exactly when there was room for all padding and the names exceed their share by no more than the sharing left over |
| Widths.PanicsExactly | internal/output/utils.go:215-219 | a column has no width, and printing panics, exactly for an unnamed flexible column and a console with room for the padding but not for one more rune each |
| Shells.EndLine.Call | base/commands/shell_script_common.go:27-48 | what a line adds, whether it ends the statement, and the flag; between statements an earlier flag does not matter |
| ShellLines.CommandExactly | base/commands/shell_script_common.go:30-31 | a line is a command exactly when its first rune that is not space is a backslash |
| ShellLines.EndsExactly | base/commands/shell_script_common.go:40-46 | outside a command a line ends the statement exactly when its last rune that is not space is a semicolon or its text behind leading space starts with help |
| ShellLines.TakeExactly | base/commands/shell_script_common.go:27-48 | what a line adds and where it leaves the shell, by its characters |
| ShellLines.HasInk | clc/shell/oneshot_shell.go:79-82 | every line that is not all space has a first and a last rune that is not space |
| ShellLines.AsciiSpaces | clc/shell/oneshot_shell.go:79-82 | which of the first 128 characters are spaces |
| ShellLines.SkippedExactly | clc/shell/oneshot_shell.go:79-87 | between statements a line with text is skipped exactly when it starts with the comment |
| ShellLines.SpaceIsSkipped | clc/shell/oneshot_shell.go:79-87 | a line of space is skipped between statements and ends none |
| Shells.OneshotShell.Pass | clc/shell/oneshot_shell.go:96-104 | one statement is echoed and passed on, and its error counts unless errors are ignored |
| Shells.OneshotShell.ReadTextBasic | clc/shell/oneshot_shell.go:55-116 | the texts passed on are those of the statements, up to the first error that is not ignored, with the unfinished one at the end; each is echoed with the number of its first line |
| ShellsAgree.RunScript | clc/shell/oneshot_shell.go:55-116 | a whole script: what is passed on and in which order, that it stops at the first error unless errors are ignored, and what is echoed |
| Shells.Shell.ReadTextReadline | clc/shell/shell.go:118-149 | reads just past the end of one statement; an interrupt drops what was typed |
| Shells.Shell.Start | clc/shell/shell.go:87-116 | the texts passed on are the statements that are not empty, up to the one that exits |
| ShellsAgree.RunSession | clc/shell/shell.go:87-116 | a whole session: every statement that is not empty is passed on, up to the first call that asks to exit |
| ShellsAgree.TakesAlike | base/commands/shell_script_common.go:30-38 | trimming a first line changes where the statement ends exactly for a command whose last backslash is followed by space |
| ShellsAgree.SameCuts | clc/shell/oneshot_shell.go:73-105 | over any input both shells end their statements with the same lines exactly when no statement starts with such a line |
| ShellsAgree.SplitCommandEnds | base/commands/shell_script_common.go:30-38 | at such a line one shell ends the statement and the other goes on |
| ShellsAgree.SameRun | clc/shell/shell.go:130-138 | trimming the first lines changes nothing when they have no space around them |
| ShellsAgree.TwoShells | clc/shell/oneshot_shell.go:55-116 | both shells pass on the same statements that are not empty, with the same line numbers, exactly when all first lines are trimmed and no unfinished text is left |
| ShellsAgree.RunBoth | clc/shell/shell.go:87-149 | the two shells on the same lines, when no call fails: what each has passed on, and that these are the same texts, up to empty ones, exactly when no text is left over, given trimmed first lines |
| Shells.ScriptsCompose | clc/shell/oneshot_shell.go:73-105 | after an input that ends between statements a shell reads on as if just started: scripts compose, with shifted line numbers |
| Shells.InterruptDrops | clc/shell/shell.go:93-96 | the interrupt key drops the unfinished statement and nothing else |
| Shells.QueryRoundTrip | base/commands/shell_script_common.go:40-46 | a query written over several lines is read as one statement with its line breaks, numbered by its first line |
| ShellLines.WrittenQueryIsRead | base/commands/shell_script_common.go:40-46 | lines of which only the last ends with a semicolon, and none is a command, are one statement with its line breaks |
| Shells.CommandRoundTrip | base/commands/shell_script_common.go:31-39 | a command continued with backslashes is read as one line |
| Sse.Event.Unmarshal | internal/sse/event.go:23-43 | the data are the values of the data lines, each with a line break, without those at the end |
| Sse.ReturnVanishes | internal/sse/event.go:25-26 | a carriage return behind a line break vanishes, wherever it is |
| Sse.IndexOfBlankStays | internal/sse/event.go:78-80 | bytes that arrive later do not move the first blank line |
| Sse.EventScanner.Scan | internal/sse/event.go:71-92 | gives the first piece of what is left of the stream, however it is cut into chunks, and leaves the other pieces; a failed read ends the stream like its end does |
| Sse.EventScanner.ReadEvent | internal/sse/event.go:94-109 | the reading of that piece, nothing for a piece without data, then the end or the error of the failed read |
| Sse.SubscribeWithCallback | internal/sse/client.go:36-46 | hands on the readings of all pieces in order, up to the first failure of the callback, and says how the stream ended |
| Sse.ReadsBack | internal/sse/event.go:23-65 | a printed event with other fields and comments between its data lines reads as its payload without the line breaks at its end |
| Sse.DataLineForms | internal/sse/event.go:45-65 | one space behind the colon is no part of the value and may be missing; without a colon there is no value |
| Sse.TightLines | internal/sse/event.go:54-65 | leaving out that space anywhere changes nothing |
| Sse.StreamRoundTrip | internal/sse/event.go:71-109 | printed events are read back one by one, however the stream is cut into chunks |
| Sse.PayloadComesBack | internal/sse/event.go:40-42 | a payload comes back as it was exactly when it is not empty and does not end in a line break |
| Sse.PiecesAre | internal/sse/event.go:71-92 | the pieces of any stream are those that a blank line ends, and what stands behind the last one unless it is empty |
| Sse.CutOffExactly | internal/sse/event.go:81-84 | for any stream, the payloads handed on are those of the finished pieces exactly when nothing is cut off, or nothing with a payload |
| Sse.BehindEvents | internal/sse/event.go:71-92 | behind any printed events a rest without a blank line is what is cut off |
| Sse.CutOffEventIsRead | internal/sse/event.go:81-84 | behind any printed events, an event cut off at the end of a line is handed on, with or without the break of that line |
| Sse.CutOffInsideAValue | internal/sse/event.go:81-84 | cut off inside a value, the event is handed on with the truncated value |
| Sse.CrlfStreamIsOnePiece | internal/sse/event.go:78-80 | a stream with carriage returns before its line breaks is a single piece |
| Sse.CrlfStreamReadsAs | internal/sse/event.go:23-43 | any events with such line ends are read as one event: the values of all of them, each with its carriage return, or nothing when there is no value |
| Sse.CrlfReadsWellExactly | internal/sse/event.go:23-43 | that is the reading of the events exactly for one event without a value |
| Sse.OneLineReadsAs | internal/sse/event.go:23-65 | a stream without a line feed, such as one with bare carriage returns, is one line of one event |
| Upload.BinBatch.Next | internal/jet/util.go:98-109 | the next bytes of the file are in the buffer, and the reader moves on by them |
| Upload.PartCountIsLeast | internal/jet/util.go:137-143 | the part count is the least number of parts that hold the size |
| Upload.SendPart | internal/jet/job.go:87-102 | one batch is read, numbered, hashed and sent; says how it went |
| Upload.PartIs | internal/jet/job.go:87-102 | a part has its number, its own bytes and their hash, of which the workaround cuts off exactly the zeros at the start |
| Upload.TrimZerosIs | internal/jet/job.go:96-98 | only zeros are cut off, and all of those at the start |
| Upload.SubmitJob | internal/jet/job.go:67-107 | the parts that arrive and how the upload ends are those of the specification, for any reader, failures and refusals included |
| Upload.HowItEnds | internal/jet/job.go:67-107 | an upload that does not end well has met a failing read or a refused part, and says which |
| Upload.PartsArePieces | internal/jet/job.go:86-104 | with any reader the parts are numbered, fit the buffer and are consecutive pieces of the file |
| Upload.SmoothParts | internal/jet/job.go:86-104 | with a reader that fills its buffer the k-th part is the k-th piece of the file |
| Upload.UploadIsComplete | internal/jet/job.go:67-104 | then as many parts arrive as announced, all but the last full, and together they are the file exactly when it has not outgrown the part count |
| Upload.Reader.Read | internal/jet/util.go:99 | the reader of the library: any number of bytes that fits, an error, or the last bytes together with the end of the file |
| Upload.ArrivesExactly | internal/jet/job.go:86-104 | with any reader that does not fail, the upload ends well, and what arrives is the file exactly when it takes no more reads than there are parts and the last bytes do not come together with the end |
| Upload.SteadyReads | internal/jet/util.go:98-109 | a reader that delivers g bytes at a time needs as many reads as there are parts of that size |
| Upload.ShortReadsLoseData | internal/jet/util.go:98-109 | with such a reader the file arrives whole exactly when that many parts were announced; otherwise the upload still ends well |
| Upload.SingleBytes | internal/jet/util.go:98-109 | with single bytes the file arrives whole exactly when it has no more bytes than parts were announced |
| JobIds.IdToString | base/commands/job/common.go:47-59 | the in-place fill gives sixteen padded digits in four groups, never overwrites a dash, and panics exactly when there are more than sixteen characters |
| JobIds.PrintedIsNotDecimal | base/commands/job/common.go:168-170 | the printed form never reads as a decimal number |
| JobIds.IdRoundTrip | base/commands/job/common.go:168-180 | an ID is read back from its text exactly when it is not negative; otherwise the sign is lost, and printing panics for the smallest IDs |
| JobIds.DecimalIdIsRead | base/commands/job/common.go:168-180 | an ID may also be given as a decimal number, with a sign for a negative one |
| Integers.DecimalIsRead | base/commands/job/common.go:168-180 | a number is read from its decimal digits, also behind a sign, exactly when it fits into 64 bits |
| Integers.DigitsAre | base/commands/job/common.go:168-180 | the values of the sixteen digits, of either case |
| JobIds.JobsInfo.constructor | base/commands/job/common.go:126-138 | names of jobs that have not ended, and all IDs; the last job wins |
| JobIds.EndedIs | base/commands/job/common.go:131-134 | running and suspended jobs have not ended; failed and completed ones have |
| JobIds.NameLeadsToLastLive | base/commands/job/common.go:126-138 | a name leads to the last job with it that has not ended |
| JobIds.NoLiveJobNoName | base/commands/job/common.go:131-134 | a name leads somewhere exactly when such a job exists |
| JobIds.JobIsFound | base/commands/job/common.go:153-166 | a job is found by its printed ID, and by its name exactly when that does not read as another ID |
| Args.CheckArgs | clc/cmd/command_context.go:194-223 | accepts exactly the counts between the sums of the limits, with saturated maxima; where the minima wrap around, any count that leaves out at most the last argument; names the first missing argument |
| Args.AcceptedExactly | clc/cmd/command_context.go:194-223 | one argument for each spec but the last, and as many as the last one takes; without a largest count where its least one overflows |
| Args.AddedAreValid | clc/cmd/command_context.go:86-134 | the specs are exactly those that can be added, apart from slices of numbers |
| Args.LastMayRange | clc/cmd/command_context.go:198-206 | only the last spec may take another number of arguments than one |
| Args.AddWithOverflow | clc/cmd/command_context.go:225-233 | the sum, or the largest integer when it does not fit |
| Args.ConvertSliceArg | clc/cmd/exec_context.go:361-389 | converts all values or none; an entry without a key stays empty |
| Args.MakeKeywordArgs | clc/cmd/exec_context.go:303-345 | the loop is its specification, error cases included, and never reads past the arguments |
| Args.RangeMustBeLast | clc/cmd/exec_context.go:309-327 | a range anywhere but at the end is an error |
| Args.BindErrors | clc/cmd/exec_context.go:303-345 | the error for each way in which binding fails |
| Args.BindAccepted | clc/cmd/exec_context.go:303-345 | for accepted arguments: the first value that cannot be converted, or a last argument that must be left out or whose least count never fits, or all keywords |
| Args.ArityErrorExactly | clc/cmd/exec_context.go:328-343 | after the check an arity error occurs exactly for a last argument that must be left out or can never be given often enough, when all others convert |
| Args.EveryArgumentIsBound | clc/cmd/exec_context.go:303-345 | the texts bound in spec order concatenate to the arguments |
| Args.EveryKeyIsBound | clc/cmd/exec_context.go:333-337 | every key has the value converted from its own texts |
| Args.BoundValues | clc/cmd/exec_context.go:303-389 | a text is bound as it is, a number that was written out as the number, and a slice as its texts, numbers or pairs in their order |
| Args.PairIs | internal/str/str.go:29-35 | the key stands before the first equals sign and the value behind it |
| Args.PairIsTrimmed | internal/str/str.go:29-35 | the space around key and value is cut off |
| Args.NoPair | clc/cmd/exec_context.go:377-386 | an entry without a key stays empty |
| Args.FixedSliceNeverBinds | clc/cmd/exec_context.go:309-336 | a last slice with a fixed number of values can never be given |
| Versions.BeforeIsTransitive | internal/version.go:41-75 | the order is transitive, also together with equality |
| Versions.BeforeIsTotal | internal/version.go:41-75 | of two versions exactly one comes first, or they are equal |
| Versions.SuffixComesBefore | internal/version.go:63-74 | a version with a suffix comes just before the one without it |
| Versions.MissingPartsAreZero | internal/version.go:47-52 | a missing part counts as zero |
| Versions.EqualizeVersions | internal/version.go:117-127 | the shorter list filled up with zeros |
| Versions.CompareVersions | internal/version.go:41-75 | the first parts that differ decide, then the suffixes; it panics exactly when a part that is not a number follows parts that agree; between numeric versions the sign is the order |
| Versions.SignIsOrder | internal/version.go:41-75 | between numeric versions the first part that differs and then the suffixes give the order |
| Versions.WrittenIsParsed | internal/version.go:98-114 | numbers written out with dots are read back, with or without a suffix |
| Versions.ComparesNumbers | internal/version.go:41-75 | of versions written out as numbers the first numbers that differ decide: -1, 0 or 1 as the left one is less, absent or greater |
| Versions.BadPartPanics | internal/version.go:53-96 | behind equal numbers a part that is not a number makes a comparison panic on either side, and loose equality on the right side only |
| Versions.OperatorsAre | internal/version.go:20-39 | the six operators compare the sign with zero |
| Versions.MeaningIsSign | internal/version.go:20-39 | between numeric versions an operator means the same by the order and by the sign |
| Precedence.ComparedWellExactly | internal/version.go:41-75 | the comparison of numeric versions is the precedence of Semantic Versioning 2.0.0 exactly when they are not two different pre-releases of one version; these are equal to it |
| Precedence.SuffixesAreEqual | internal/version.go:63-74 | any two suffixes of any numeric version are equal, whatever their precedence |
| Precedence.AlphaAndBeta | internal/version.go:63-74 | 1.0.0-alpha precedes 1.0.0-beta, but the comparison says equal |
| Precedence.OneComesFirst | internal/version.go:63-74 | of two different lists of identifiers exactly one has the lower precedence |
| Versions.LooselyEqual | internal/version.go:78-96 | equal as far as the right version goes, suffixes aside; it panics exactly when a part that is not a number follows parts that agree within that length |
| Versions.LooseMeaning | internal/version.go:77-96 | between numeric versions the outcome is equality as far as the right version goes |
| Versions.LooselyExactly | internal/version.go:77-96 | a version that is no shorter is loosely equal exactly when it starts with the numbers of the other |
| Versions.CheckVersion | internal/version.go:20-39 | all operators agree with the order, and with the sign of the comparison on versions that are not numeric, panicking when it panics; any other operator always panics |
| Versions.EqualIsLooselyEqual | internal/version.go:20-39 | equal versions are loosely equal in both directions |
| Versions.LooselyIsSymmetricExactly | internal/version.go:77-96 | loose equality can be turned around exactly when the parts of the left version behind those of the right one are zero |

## Left out

- Frames.ForwardFrameIterator.Next: the frame, message and iterator types belong to the Go client, which is not part of this model; they are a content, a set of flags and a cursor that panics past the end.
- Codec.EncodeListMultiFrameForString: the other request and response codecs repeat this pattern and would add only easy members.
- ConfigYaml.SortInPlace: keeps options with equal keys in their order, which Go's sort leaves open.
- ConfigYaml.CopySection: does not model the branch for `sect`, which no option can reach; the order of lines of equal keys is that of the stable sort.
- ConfigYaml.CreateYAML: the order of lines of equal keys is that of the stable sort; with unique keys the order does not matter (`ConfigReading.OrderIgnored`).
- ConfigText.AddConfig: does not model the JSON encoding of the map, directories or files.
- ConfigText.TextHoldsTheTree: reads the text by indentation, without quoting or other YAML syntax; values must be plain.
- MetricStore.Store.SetEntry: does not model the time to live of an entry.
- MetricStore.Store.UpdateEntry: does not model expiry; the source computes an entry with a time to live there and then stores one without it.
- MetricStore.MetricStore.Send: store operations succeed, and the queries are sent as a whole or not at all; increments in memory are lost when the process ends, and a key of today is recognised by its date text.
- MetricStore.MetricStore.PersistIncrementMetrics: does not model integer overflow of a counter or store operations that fail.
- MetricStore.MetricStore.PersistStoreMetrics: does not model store operations that fail.
- LogFixer.Fixer.Write: JSON, times and templates are functions; lines fit the scanner's limit of 64 KB, and writing the output succeeds.
- LogFixer.Fixer.Observe: a decoder error leaves the shared map as it was; templates and the output do not fail.
- LogFixer.CutLine: assumes that the glued text is not JSON; one that is JSON is handled as the record it reads as.
- LogFixer.MissingFieldLeaks: says it for two lines at the start of a stream; `LogSplits.SplitIsSafeExactly` covers any.
- LogSplits.SplitIsSafeExactly: templates depend only on the five fields; which other fields a template shows is not part of the model.
- TableRows.MakeTableFromRows: does not model how values are broken out or turned to text; the length of a text is its number of elements.
- TablePrinting.PrintLine: every rune is one column wide and one byte long.
- TablePrinting.WPrintRow: every rune is one column wide and one byte long.
- TablePrinting.MakeSeparator: every rune is one column wide and one byte long.
- Printed sizes of the fixed column types (Widths.dfy): takes the printed forms of the largest values of the fixed types as given.
- Shells.Shell.Start: does not model history, prompts, signals during a call or errors of the line reader other than the interrupt and the end of the input.
- Shells.Shell.ReadTextReadline: does not model errors of the line reader other than the interrupt and the end of the input.
- ShellsAgree.TwoShells: a comment must not start with a backslash; the comments of the source start with `--`.
- Shells.OneshotShell.ReadTextBasic: the scanner's errors and its limit for a line are not part of the model.
- Sse.EventScanner.Scan: pieces fit the scanner's limit of 64 KB.
- Sse.EventScanner.ReadEvent: pieces fit the scanner's limit of 64 KB.
- Sse.CrlfStreamReadsAs: streams that mix line ends are covered by `Sse.PiecesAre` and `Sse.CutOffExactly` only.
- ConfigTree.FileProvider.Get: does not model bound flags, locks, the client configuration or values that are not texts; the key that stands for the path of the file has no value.
- MetricStore.MetricStore.PersistMetrics: does not model store operations that fail.
- Upload.BinBatch.Next: the hash is a function of the bytes and is taken where the part is sent; hashing does not fail.
- Upload.PartCountIsLeast: does not model the rounding of floating-point division for files above 2^53 bytes.
- Upload.SubmitJob: does not model opening the file, a missing connection, the metadata request, progress, or numbers of parts above 32 bits.
- The search for a job's state (`EnsureJobState` in `internal/jet/job.go`) would add only an easy member.
- Numbers in texts (ParseInt in JobIds.dfy): None stands for every error of the library function.
- Args.CheckArgs: the specs are those that the Add methods can make, with limits that are not negative; on other lists the source panics before the check exists.
- Network calls, the Viridian REST client, git and zip files, secrets, prompts, spinners and colours are input and output over libraries that cannot be seen.
- Index and mapping commands, value-to-text tables and generated code would add only easy members.
- Goroutines, tickers and signal handling of blocking calls depend on scheduling and are not modelled.
