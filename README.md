# boang utility core in Dafny

A model of the core of the `T.Utility` libraries (C#).

- **Snowflake id generator (`SnowflakeHelper`).**
  - The 64-bit id layout: one sign bit, a 41-bit millisecond offset from the epoch constant `1609430400000`, a 5-bit center id, a 5-bit worker id and a 12-bit sequence.
  - The generator state and its three-way clock rule.
  - The spin loop that waits for the next millisecond, `FixLastTimestamp`, the decoder `Analyze`, and the two id-range helpers.
- **Edit-distance similarity** (`StringExtensions.Similarity`): the dynamic-programming table over an `(m+1) x (n+1)` array, then the ratio `(max - d) / max`.
- **HTTP request builder** (`HttpExtensions`): the fluent methods that fill an `HttpRequestContext` in place, and the relative URI composed from its segments and query parameters.
- **Object-storage url rules.**
  - `OssHelper.TryDecodeUrl`.
  - The first-match intranet rewrite of `OssHelper.ProxyDownload`.
  - The object url that `AliyunAdapter.PutObject` reports and `AliyunAdapter.GetObjectKey` takes apart.
- **Small value logic.**
  - The bounding-box getters of the recognition results and `MulticlassContent.Name`.
  - `ImagePoint`, `ImageSize` and `ImageRect`.
  - The `ICollectionExtensions` null/empty tests.
  - The inner-exception walk of `ExceptionExtensions`.
  - The `ActionContent` constructors.

Conventions used throughout:

- **Integers.** C# `int` and `long` are `Int32` and `Int64`. Unchecked wrap-around is written out with `Wrap32` and `Wrap64` in `Machine.dfy`.
- **Shifts and masks.** `x << k` is `Wrap64(x * 2^k)`. The arithmetic `x >> k` is Dafny's `/` by `2^k`. A mask `x & (2^k - 1)` is `%`.
- **Null and exceptions.** A reference that may be `null` is an `Option`. An exception the source catches is modelled by the value its `catch` block produces. An exception that escapes is a `Failure` of a `Result`.
- **Dictionaries.** A `Dictionary<string, object>` is a sequence of key/value pairs in insertion order, because a .NET dictionary that is only added to enumerates in that order. Each value stands for the text the request shows for it.
- **Clock.** The clock is a parameter. `Next(now, ticks)` receives the reading taken at the start of the call, followed by the readings the spin loop would see in turn.

The state the source updates in place is kept in place in the model:

- `SnowflakeHelper` is a class with the fields `sequence` and `lastSequenceTimestamp`. Its methods are proved against the state functions `Step` and `Fix`, and the properties are proved about those functions. `Next` returns a `Result`: when the settled timestamp lies past the range of `DateTimeOffset`, `FromUnixTimeMilliseconds` throws after the new state has been stored, and the model returns `Failure(ArgumentOutOfRange)` with that state in place.
- `HttpRequestContext` is a class. Each builder `modifies` it and states the whole new state.
- The edit-distance table is a two-dimensional `array` filled by nested `for` loops.
- The exception walk and the intranet rewrite are `while` loops proved against recursive definitions.

Places where the documentation, or what a name and its use suggest, and the code disagree; the model follows the code:

- **`TryDecodeUrl` result.** No comment says when the method answers `true`. Its name and its caller in `OssController.cs:100` suggest that it answers `true` exactly for the File adapter: the caller replaces the url only then. In the code a `null` endpoint or url throws inside the `try`, the exception is caught, and the method then returns `false` with the url unchanged.
- **The epoch.** A comment calls the constant "2021-01-01 00:00:00". The value is that instant at UTC+8, that is 2020-12-31T16:00:00Z, and the model keeps the value.
- **The second `GetIdentiferRange` overload.** It subtracts the zone offset from an instant that `new DateTimeOffset(dateTime)` has already converted to UTC. It therefore does not agree with the first overload on the same wall-clock bounds.

## Model

| member | source | states |
|---|---|---|
| Machine.Wrap32 | src/T.Utility.Protocol/Drawing/ImageRect.cs:35 | the unchecked `int` result is congruent to the mathematical result modulo 2^32, and equals it when it fits |
| Machine.Wrap64 | src/T.Utility.Snowflake/Helper/SnowflakeHelper.cs:179 | the unchecked `long` result is congruent to the mathematical result modulo 2^64, and equals it when it fits |
| Machine.Wrap32Congruent | src/T.Utility.Protocol/Drawing/ImageRect.cs:35 | results that agree modulo 2^32 wrap to the same `int` |
| Machine.Wrap32AddBack | src/T.Utility.Algorithms/Models/MulticlassResponse.cs:173 | adding an unchecked difference `b - a` back to `a` gives `b`, overflow or not |
| SnowflakeBits.NextSequence | src/T.Utility.Snowflake/Helper/SnowflakeHelper.cs:145-160 | `(x + 1) & 4095` stays in [0, 4095]; for a valid sequence it is 0 exactly when the sequence was 4095, and otherwise it is `x + 1` |
| SnowflakeBits.Analyze | src/T.Utility.Snowflake/Helper/SnowflakeHelper.cs:223-240 | the decoded flake keeps the id it was given |
| SnowflakeBits.Compose | src/T.Utility.Snowflake/Helper/SnowflakeHelper.cs:179 | the id layout `offset << 22 | center << 17 | worker << 12 | sequence` on a wrapped `long`: the definition `AnalyzeCompose`, `ComposeAnalyze`, `ComposeNonNegative` and `ComposeOrdered` are about |
| SnowflakeBits.AnalyzeXorSteps | src/T.Utility.Snowflake/Helper/SnowflakeHelper.cs:230-236 | on 64 bits the XOR-and-shift steps of `Analyze` keep exactly bits 21..17, bits 16..12 and bits 11..0 |
| SnowflakeBits.AnalyzeInstantRepresentable | src/T.Utility.Snowflake/Helper/SnowflakeHelper.cs:227-228 | the decoded instant of every `long` id lies in the millisecond range `DateTimeOffset` accepts, so `Analyze` never throws |
| SnowflakeBits.AnalyzeFieldsInRange | src/T.Utility.Snowflake/Helper/SnowflakeHelper.cs:227-237 | for every `long` id the decoded center, worker and sequence lie within 5, 5 and 12 bits, and `id >> 22` lies in [-2^41, 2^41) |
| SnowflakeBits.AnalyzeCompose | src/T.Utility.Snowflake/Helper/SnowflakeHelper.cs:223-240 | decoding an encoded id gives back its center, worker, sequence and time offset, and the instant `offset + epoch` |
| SnowflakeBits.ComposeAnalyze | src/T.Utility.Snowflake/Helper/SnowflakeHelper.cs:223-240 | for every `long`, decoding then re-encoding gives the id back, and the decoded fields fit their widths |
| SnowflakeBits.ComposeNonNegative | src/T.Utility.Snowflake/Helper/SnowflakeHelper.cs:179 | with a time offset in [0, 2^41) the id is non-negative and equals `offset*2^22 + center*2^17 + worker*2^12 + sequence` |
| SnowflakeBits.ComposeOrdered | src/T.Utility.Snowflake/Helper/SnowflakeHelper.cs:179 | for a fixed node, one id is smaller than another exactly when its (offset, sequence) pair is lexicographically smaller |
| Snowflake.FirstAfter | src/T.Utility.Snowflake/Helper/SnowflakeHelper.cs:195-203 | the value the spin loop returns is later than the last timestamp, and it is the first reading that is |
| Snowflake.Fix | src/T.Utility.Snowflake/Helper/SnowflakeHelper.cs:122-128 | `FixLastTimestamp` keeps the sequence and sets the last timestamp past the instant encoded in the id |
| Snowflake.FixStaysInRange | src/T.Utility.Snowflake/Helper/SnowflakeHelper.cs:122-128 | for every `long` id the last timestamp `FixLastTimestamp` sets lies in the `DateTimeOffset` range, so only an earlier step past the maximum leaves one beyond it |
| Snowflake.Step | src/T.Utility.Snowflake/Helper/SnowflakeHelper.cs:140-172 | the three-way rule of `Next` (clock ahead, equal, behind) on the state: the definition `StepProperties`, `StepBranches` and `StepInstantInRange` are about |
| Snowflake.FlakeOf | src/T.Utility.Snowflake/Helper/SnowflakeHelper.cs:177-184 | the flake built from the settled state: the composed id, the node ids, the timestamp and the sequence; `AnalyzeFlakeOf` is about it |
| Snowflake.NextResult | src/T.Utility.Snowflake/Helper/SnowflakeHelper.cs:175-184 | `Next` throws exactly when the settled timestamp lies outside the range `FromUnixTimeMilliseconds` accepts, and otherwise returns `FlakeOf` the state |
| Snowflake.StepInstantInRange | src/T.Utility.Snowflake/Helper/SnowflakeHelper.cs:157-182 | the settled timestamp is never below the `DateTimeOffset` minimum, and passes the maximum exactly when the clock is behind a last timestamp beyond the maximum, or at it with the sequence exhausted |
| Snowflake.EndOfRangeScenario | src/T.Utility.Snowflake/Helper/SnowflakeHelper.cs:157-182 | with the clock behind a last timestamp at the maximum and sequence 4095, the step settles on maximum + 1 with sequence 0 and `Next` throws |
| Snowflake.StepProperties | src/T.Utility.Snowflake/Helper/SnowflakeHelper.cs:140-175 | after `Next` the sequence stays in [0, 4095] and the (timestamp, sequence) pair grows strictly; the timestamp is never before the reading; a later reading is taken as it is with sequence 0; a new timestamp restarts the sequence; the same timestamp increments it |
| Snowflake.StepBranches | src/T.Utility.Snowflake/Helper/SnowflakeHelper.cs:145-172 | a reading behind the last timestamp stays on it with the next sequence, or after 4095 moves to last + 1 with sequence 0; a reading on it increments the sequence, or after 4095 takes the first later reading with sequence 0 |
| Snowflake.StepIncreasesId | src/T.Utility.Snowflake/Helper/SnowflakeHelper.cs:140-179 | one `Next` call returns a larger id than the state it started from, while both timestamps fit the 41-bit field |
| Snowflake.RunIdsIncreasing | src/T.Utility.Snowflake/Helper/SnowflakeHelper.cs:134-188 | under every series of clock behaviours the ids of successive `Next` calls grow strictly, and exceed the id of the starting state, while every timestamp fits the 41-bit field |
| Snowflake.FixThenStepExceeds | src/T.Utility.Snowflake/Helper/SnowflakeHelper.cs:122-179 | after `FixLastTimestamp(id)` the next id is larger than `id` |
| Snowflake.AnalyzeFlakeOf | src/T.Utility.Snowflake/Helper/SnowflakeHelper.cs:177-184 | the flake `Next` returns decodes through `Analyze` to itself: the same id, center, worker, instant and sequence |
| Snowflake.IdentifierRange | src/T.Utility.Snowflake/Helper/SnowflakeHelper.cs:271-276 | the ids of this node with sequence 0 at the least and 4095 at the greatest bound, shifted by the zone offset: the definition `IdentifierRangeShape` and `IdentifierRangeCovers` are about |
| Snowflake.RangeBetween | src/T.Utility.Snowflake/Helper/SnowflakeHelper.cs:285-296 | the second overload, which converts to UTC and then still subtracts the base offset: the definition `RangeBetweenSubtractsTwice` is about |
| Snowflake.IdentifierRangeShape | src/T.Utility.Snowflake/Helper/SnowflakeHelper.cs:271-276 | the minimum id carries this node's center and worker with sequence 0, the maximum id carries them with sequence 4095, and each time field is `bound - epoch - offset` |
| Snowflake.IdentifierRangeCovers | src/T.Utility.Snowflake/Helper/SnowflakeHelper.cs:273-274 | an id this node encodes for timestamp `ts` lies in [minId, maxId] exactly when `ts` lies in [minTs - offset, maxTs - offset], whatever its sequence |
| Snowflake.RangeBetweenSubtractsTwice | src/T.Utility.Snowflake/Helper/SnowflakeHelper.cs:285-296 | the second overload subtracts the zone offset twice, and its minimum id agrees with the first overload's only at offset 0 |
| Snowflake.FrozenClockScenario | src/T.Utility.Snowflake/Helper/SnowflakeHelper.cs:140-179 | on a frozen clock a fresh node 0/0 returns sequence 0 and then sequence 1, and the second id is the first plus one |
| Snowflake.SnowflakeHelper.constructor | src/T.Utility.Snowflake/Helper/SnowflakeHelper.cs:87-116 | in-range settings are stored, and the sequence and last timestamp start at 0 |
| Snowflake.SnowflakeHelper.Create | src/T.Utility.Snowflake/Helper/SnowflakeHelper.cs:103-116 | construction fails exactly when the center or the worker id lies outside [0, 31]; otherwise it yields a valid fresh generator holding both ids, with state (0, 0) |
| Snowflake.SnowflakeHelper.FixLastTimestamp | src/T.Utility.Snowflake/Helper/SnowflakeHelper.cs:122-128 | the new state is `Fix` of the old one, and the sequence invariant holds |
| Snowflake.SnowflakeHelper.Next | src/T.Utility.Snowflake/Helper/SnowflakeHelper.cs:134-188 | the new state is `Step` of the old one and the readings, kept even when the call throws; the result is `NextResult` of the new state: the flake with the composed id, the node's ids, the new timestamp and sequence, or `ArgumentOutOfRange` past the `DateTimeOffset` range; the sequence invariant holds |
| Snowflake.SnowflakeHelper.GetNextTimestamp | src/T.Utility.Snowflake/Helper/SnowflakeHelper.cs:195-203 | the loop returns `FirstAfter`, the first reading later than the last timestamp |
| StringExtensions.ToLower | src/T.Utility/Extensions/StringExtensions.cs:39-40 | lower-casing keeps the length and maps each character on its own |
| StringExtensions.Table | src/T.Utility/Extensions/StringExtensions.cs:49-69 | the table cell as the source fills it, borders and the copy on equal characters included: the definition `TableIsLev` equates with `Lev` |
| StringExtensions.Lev | src/T.Utility/Extensions/StringExtensions.cs:59-69 | the textbook Levenshtein recurrence: the independent reference the `Lev*` lemmas are about |
| StringExtensions.SimilarityOf | src/T.Utility/Extensions/StringExtensions.cs:18-76 | the value of `Similarity` stated with `Lev`: the definition the `Similarity*` lemmas are about |
| StringExtensions.TableIsLev | src/T.Utility/Extensions/StringExtensions.cs:53-69 | the table the source fills, which copies the diagonal on equal characters, equals the textbook Levenshtein distance at every cell |
| StringExtensions.LevBounds | src/T.Utility/Extensions/StringExtensions.cs:59-72 | the distance lies between the difference of the lengths and the larger length (`Within`) |
| StringExtensions.LevBoundsStep | src/T.Utility/Extensions/StringExtensions.cs:59-69 | those bounds on the three neighbours of a cell give them on the cell |
| StringExtensions.LevSame | src/T.Utility/Extensions/StringExtensions.cs:64-65 | a string is at distance 0 from itself |
| StringExtensions.LevSymmetric | src/T.Utility/Extensions/StringExtensions.cs:59-69 | the distance does not depend on the order of the two strings |
| StringExtensions.LevSymmetricStep | src/T.Utility/Extensions/StringExtensions.cs:59-69 | when the three neighbours are symmetric, so is the cell |
| StringExtensions.SimilarityInUnitRange | src/T.Utility/Extensions/StringExtensions.cs:72-73 | the similarity lies in [0, 1] for all inputs |
| StringExtensions.SimilarityOfEmpty | src/T.Utility/Extensions/StringExtensions.cs:20-34 | two null-or-empty strings give 1; exactly one null-or-empty string gives 0 |
| StringExtensions.SimilarityOfSame | src/T.Utility/Extensions/StringExtensions.cs:64-73 | a non-empty string has similarity 1 with itself |
| StringExtensions.SimilaritySymmetric | src/T.Utility/Extensions/StringExtensions.cs:18-76 | the similarity is symmetric in its two strings |
| StringExtensions.SimilarityIgnoreCase | src/T.Utility/Extensions/StringExtensions.cs:37-46 | ignoring case is the same as comparing the lower-cased strings with case |
| StringExtensions.Similarity | src/T.Utility/Extensions/StringExtensions.cs:18-76 | the method returns the ratio `(max - Levenshtein) / max`, with 1 or 0 for null-or-empty inputs |
| StringExtensions.EditDistance | src/T.Utility/Extensions/StringExtensions.cs:49-69 | the bottom-right cell of the filled table is the Levenshtein distance |
| Collections.NullOrEmptyComplement | src/T.Utility/Extensions/ICollectionExtensions.cs:17-31 | `IsNullOrEmpty` and `IsNotNullOrEmpty` are exact complements, and `IsNotNullOrEmpty` holds exactly when the collection is non-null and has an element |
| Collections.IsNullOrEmpty | src/T.Utility/Extensions/ICollectionExtensions.cs:17-20 | `collection == null || !collection.Any()`: the definition `NullOrEmptyComplement` is about |
| Collections.IsNotNullOrEmpty | src/T.Utility/Extensions/ICollectionExtensions.cs:28-31 | `collection != null && collection.Any()`: the definition `NullOrEmptyComplement` proves the complement of `IsNullOrEmpty` |
| Strings.Contains | src/T.Utility.OSS/Adapters/OssHelper.cs:247 | ordinal `Contains`: the definition `ContainsAt` equates with an occurrence index |
| Strings.ReplaceAll | src/T.Utility.OSS/Adapters/OssHelper.cs:249 | `Replace` of every non-overlapping occurrence, left to right: the definition `ReplaceAllAbsent` and the `GetObjectKey` lemmas are about |
| Strings.Trim | src/T.Utility/Http/HttpExtensions.cs:48 | `Trim(c)`: the definition `TrimShape` is about |
| Strings.Join | src/T.Utility/Http/HttpExtensions.cs:180 | `string.Join`: the definition `SplitJoin` and `RelativeUriPath` are about |
| Strings.Split | src/T.Utility/Http/HttpExtensions.cs:180 | `Split(c)`, always at least one piece: the inverse `SplitJoin` proves for `Join` |
| Strings.ContainsAt | src/T.Utility.OSS/Adapters/OssHelper.cs:247 | `Contains` holds exactly when the substring occurs at some index |
| Strings.ReplaceAllAbsent | src/T.Utility.OSS/Adapters/AliyunAdapter.cs:243 | `Replace` leaves a string without an occurrence unchanged |
| Strings.TrimShape | src/T.Utility/Http/HttpExtensions.cs:48 | `Trim(c)` gives the slice between the leading and the trailing run of `c`, and the result neither starts nor ends with `c` |
| Strings.SplitJoin | src/T.Utility/Http/HttpExtensions.cs:180-185 | joining with a one-character separator that no item contains loses nothing: splitting gives the items back |
| Http.Lookup | src/T.Utility/Http/HttpExtensions.cs:79 | a key has a value exactly when the dictionary contains it, and that value is stored with the key |
| Http.SetValue | src/T.Utility/Http/HttpExtensions.cs:81 | replacing the value of a present key keeps the keys and their order |
| Http.UpsertLookup | src/T.Utility/Http/HttpExtensions.cs:79-86 | after one upsert the key maps to the new value, every other key keeps its value, existing keys keep their places, and keys stay unique |
| Http.UpsertAllLookup | src/T.Utility/Http/HttpExtensions.cs:77-87 | after upserting a dictionary, each of its keys maps to its value and every other key keeps its value; existing keys keep their places and keys stay unique |
| Http.UpsertAllStep | src/T.Utility/Http/HttpExtensions.cs:77-87 | those three facts carry over when the source grows by one pair with a new key |
| Http.KeysAppend | src/T.Utility/Http/HttpExtensions.cs:85 | `Add` appends the key to the key list |
| Http.LastKeyIsNew | src/T.Utility/Http/HttpExtensions.cs:77-87 | in a dictionary with unique keys the last key is not among the earlier ones |
| Http.Upsert | src/T.Utility/Http/HttpExtensions.cs:79-86 | the indexer-or-`Add` step of the loop: the definition `UpsertLookup` is about |
| Http.UpsertAll | src/T.Utility/Http/HttpExtensions.cs:77-87 | the upsert of every pair in dictionary order: the definition `UpsertAllLookup` and `UpsertEach` are about |
| Http.HeadersAfterLookup | src/T.Utility/Http/HttpExtensions.cs:61-91 | after `WithHeaders`: a given key maps to the given value, overriding any default; otherwise a previous value is kept; otherwise `Accept` is `*/*` and `User-Agent` the browser string; both headers are always present |
| Http.HeadersAfter | src/T.Utility/Http/HttpExtensions.cs:61-91 | the headers after `WithHeaders`: the definition `HeadersAfterLookup` and `WithHeaders` are about |
| Http.QueryParamsAfterLookup | src/T.Utility/Http/HttpExtensions.cs:99-119 | `WithQueryParams(null)` leaves the parameters as they were, even null; otherwise the given keys map to the given values and every other key keeps its value |
| Http.QueryParamsAfter | src/T.Utility/Http/HttpExtensions.cs:99-119 | the parameters after `WithQueryParams`: the definition `QueryParamsAfterLookup` and `WithQueryParams` are about |
| Http.CleanSegment | src/T.Utility/Http/HttpExtensions.cs:48 | `segment.Trim('/').Trim('\\')`: the definition `CleanSegmentShape` is about |
| Http.CleanSegmentShape | src/T.Utility/Http/HttpExtensions.cs:48 | a cleaned segment is a slice of the input with only '/' and '\\' cut away around it, and it neither starts nor ends with '\\' |
| Http.StrippedTwice | src/T.Utility/Http/HttpExtensions.cs:48 | trimming '/' and then '\\' leaves a slice with only those characters around it |
| Http.SegmentsAfterShape | src/T.Utility/Http/HttpExtensions.cs:40-53 | `AppendSegments(null)` changes nothing; otherwise the list (created when null) keeps its elements and grows by exactly the cleaned segments, in order |
| Http.SegmentsAfter | src/T.Utility/Http/HttpExtensions.cs:40-53 | the segment list after `AppendSegments`: the definition `SegmentsAfterShape` and `AppendSegments` are about |
| Http.HttpRequestContext.constructor | src/T.Utility/Http/HttpRequestContext.cs:10-51 | a new context has no segments, query parameters, headers or content |
| Http.AppendSegments | src/T.Utility/Http/HttpExtensions.cs:40-53 | the segments become `SegmentsAfter` of the old ones; the other fields are unchanged; the same context is returned |
| Http.UpsertEach | src/T.Utility/Http/HttpExtensions.cs:77-87 | the foreach loop computes `UpsertAll` |
| Http.WithHeaders | src/T.Utility/Http/HttpExtensions.cs:61-91 | the headers become non-null and equal `HeadersAfter` of the old ones; the other fields are unchanged; the same context is returned |
| Http.WithQueryParams | src/T.Utility/Http/HttpExtensions.cs:99-119 | the query parameters become `QueryParamsAfter` of the old ones; the other fields are unchanged; the same context is returned |
| Http.WithStringContent | src/T.Utility/Http/HttpExtensions.cs:127-134 | a non-null string becomes UTF-8 `application/json` content; null leaves the content; nothing else changes |
| Http.WithEncodedContent | src/T.Utility/Http/HttpExtensions.cs:144-151 | a non-null string becomes content with the given encoding and media type; null leaves the content; nothing else changes |
| Http.WithHttpContent | src/T.Utility/Http/HttpExtensions.cs:159-166 | non-null content replaces the content; null leaves it; nothing else changes |
| Http.QueryPairs | src/T.Utility/Http/HttpExtensions.cs:185 | one `key=value` item per parameter, in dictionary order |
| Http.Path | src/T.Utility/Http/HttpExtensions.cs:176-181 | the segments joined with '/', or "" when they are null or empty: the definition `RelativeUriPath` is about |
| Http.RelativeUri | src/T.Utility/Http/HttpExtensions.cs:176-187 | the path joined with '/' and, with parameters, '?' and the pairs joined with '&': the definition `RelativeUriPath` and `RelativeUriQuery` are about |
| Http.RelativeUriPath | src/T.Utility/Http/HttpExtensions.cs:176-181 | without query parameters the relative URI is "" for no segments; otherwise splitting it at '/' gives the segments back |
| Http.RelativeUriQuery | src/T.Utility/Http/HttpExtensions.cs:183-187 | with query parameters the first '?' ends the path, and the rest splits at '&' into the `key=value` items in order |
| Oss.TryDecodeUrl | src/T.Utility.OSS/Adapters/OssHelper.cs:214-231 | `true` exactly for the File adapter with a non-null endpoint and url; then the result starts with the endpoint without trailing '/' and then '/'; otherwise `false` with the url unchanged |
| Oss.DecodeFileUrl | src/T.Utility.OSS/Adapters/OssHelper.cs:220 | with the File adapter, `file://rest` becomes `<endpoint>/file/rest` when `rest` holds no ":/" |
| Oss.RewriteFirst | src/T.Utility.OSS/Adapters/OssHelper.cs:245-252 | the first matching transform replaces every occurrence of its source, faults included: the definition `RewriteNoMatch`, `RewriteFirstMatch` and `RewriteUrl` are about |
| Oss.Rewrite | src/T.Utility.OSS/Adapters/OssHelper.cs:243-253 | the url after the intranet rewrite, kept without transforms: the definition `RewriteWithoutTransforms` and `RewriteUrl` are about |
| Oss.RewriteUrl | src/T.Utility.OSS/Adapters/OssHelper.cs:243-269 | the loop with `break` computes `Rewrite`, including the faults that send `ProxyDownload` to its `catch` |
| Oss.RewriteWithoutTransforms | src/T.Utility.OSS/Adapters/OssHelper.cs:243 | with a null or empty transform list the url is used as given |
| Oss.RewriteNoMatch | src/T.Utility.OSS/Adapters/OssHelper.cs:245-252 | when no source occurs in the url, the url is used as given |
| Oss.RewriteFirstMatch | src/T.Utility.OSS/Adapters/OssHelper.cs:245-252 | only the first transform whose source occurs applies: all its occurrences are replaced by its target, and later transforms are never consulted |
| Oss.ObjectUrlPrefix | src/T.Utility.OSS/Adapters/AliyunAdapter.cs:239-241 | the prefix `{scheme}://{bucket}.{Endpoint}/` is never empty, so `Replace` on it is defined |
| Oss.PutObjectUrl | src/T.Utility.OSS/Adapters/AliyunAdapter.cs:185 | the url `PutObject` reports, the prefix followed by the key: the definition `GetObjectKeyOfPutObjectUrl` and `GetObjectKeyAsWrittenRoundTrip` invert |
| Oss.GetObjectKeyAsWritten | src/T.Utility.OSS/Adapters/AliyunAdapter.cs:235-250 | the code as written returns "" for a null url or one without the prefix |
| Oss.GetObjectKeyAsWrittenRoundTrip | src/T.Utility.OSS/Adapters/AliyunAdapter.cs:241-243 | as written, the key of the url `PutObject` reports is recovered when the key holds no copy of the prefix |
| Oss.GetObjectKeyAsWrittenLosesPrefixInKey | src/T.Utility.OSS/Adapters/AliyunAdapter.cs:243 | as written, the key "a/http://b.e/" of bucket "b" at endpoint "e" comes back as "a/" |
| Oss.GetObjectKey | src/T.Utility.OSS/Adapters/AliyunAdapter.cs:235-250 | as intended: "" without the prefix; otherwise the url is the prefix followed by the key |
| Oss.GetObjectKeyOfPutObjectUrl | src/T.Utility.OSS/Adapters/AliyunAdapter.cs:241-243 | the intended `GetObjectKey` recovers every key from the url `PutObject` reports |
| Algorithms.Min | src/T.Utility.Algorithms/Models/PlateOcrResponse.cs:209 | `Min` is an element of the list and is at most every element |
| Algorithms.Max | src/T.Utility.Algorithms/Models/PlateOcrResponse.cs:209 | `Max` is an element of the list and is at least every element |
| Algorithms.Box | src/T.Utility.Algorithms/Models/PlateOcrResponse.cs:209 | `new Rectangle(xs.Min(), ys.Min(), xs.Max() - xs.Min(), ys.Max() - ys.Min())` with unchecked differences: the definition `BoxBounds` is about |
| Algorithms.PlateRect | src/T.Utility.Algorithms/Models/PlateOcrResponse.cs:199-211 | the box is `Rectangle.Empty` unless the points are non-null with exactly 8 entries |
| Algorithms.BoxBounds | src/T.Utility.Algorithms/Models/PlateOcrResponse.cs:209 | while both spans fit in an `int`, the box of two coordinate lists is the least box around them (`Encloses`): width and height are not negative, every coordinate lies inside, and a coordinate lies on each edge |
| Algorithms.PlateRectIsBox | src/T.Utility.Algorithms/Models/PlateOcrResponse.cs:206-209 | for 8 entries the plate box is the box of the even-position (x) and odd-position (y) coordinates |
| Algorithms.PlateRectBoundsCorners | src/T.Utility.Algorithms/Models/PlateOcrResponse.cs:206-209 | for 8 coordinates whose spans fit, the box is the least box around the four corners `CornerXs`/`CornerYs`: non-negative size, every corner inside, and a corner on each edge |
| Algorithms.PlateRectWidthOverflow | src/T.Utility.Algorithms/Models/PlateOcrResponse.cs:209 | any plate whose corners have `points[0]` = -2^31 and `points[2]` = 2^31-1 has width -1 |
| Algorithms.CornerRect | src/T.Utility.Algorithms/Models/MulticlassResponse.cs:166-175 | the box is `Rectangle.Empty` unless the points are non-null with exactly 4 entries |
| Algorithms.CornerRectCorners | src/T.Utility.Algorithms/Models/CarModelResponse.cs:166-175 | for 4 coordinates the box starts at the first corner and ends at the second, overflow or not; without overflow width and height are the plain differences, negative when the corners are reversed |
| Algorithms.Digits | src/T.Utility.Algorithms/Models/MulticlassResponse.cs:148 | a number's decimal text is non-empty and made of digits |
| Algorithms.DigitsRoundTrip | src/T.Utility.Algorithms/Models/MulticlassResponse.cs:148 | the decimal text of a number reads back as that number |
| Algorithms.Name | src/T.Utility.Algorithms/Models/MulticlassResponse.cs:148 | `Label.ToString()`: the identifier for 0 to 9, the decimal number otherwise; `NameOfLabel` is about it |
| Algorithms.NameOfLabel | src/T.Utility.Algorithms/Models/MulticlassResponse.cs:148 | a defined label shows its enum identifier, distinct for distinct labels; any other value shows its number, which is never an identifier |
| Drawing.NewImagePoint | src/T.Utility.Protocol/Drawing/ImagePoint.cs:26 | the parameterless point is empty |
| Drawing.NewImageSize | src/T.Utility.Protocol/Drawing/ImageSize.cs:34 | the parameterless size is empty |
| Drawing.NewImageRect | src/T.Utility.Protocol/Drawing/ImageRect.cs:53 | the parameterless rectangle and its size are empty |
| Drawing.ImagePoint.IsEmpty | src/T.Utility.Protocol/Drawing/ImagePoint.cs:42-45 | both coordinates are 0: the definition `PointEquality` and `NewImagePoint` are about |
| Drawing.ImagePoint.Equals | src/T.Utility.Protocol/Drawing/ImagePoint.cs:52-55 | a non-null other point with the same coordinates: the definition `PointEquality` is about |
| Drawing.ImageSize.IsEmpty | src/T.Utility.Protocol/Drawing/ImageSize.cs:26-29 | width and height are 0: the definition `SizeEquality`, `NewImageSize` and `RectEmptyHasEmptySize` are about |
| Drawing.ImageSize.Equals | src/T.Utility.Protocol/Drawing/ImageSize.cs:52-55 | a non-null other size with the same width and height: the definition `SizeEquality` is about |
| Drawing.ImageRect.IsEmpty | src/T.Utility.Protocol/Drawing/ImageRect.cs:42-48 | all four edges are 0: the definition `RectSize`, `NewImageRect` and `RectEmptyHasEmptySize` are about |
| Drawing.ImageRect.Size | src/T.Utility.Protocol/Drawing/ImageRect.cs:31-37 | the unchecked `Right - Left` by `Bottom - Top`: the definition `RectSize` and `RectEmptyHasEmptySize` are about |
| Drawing.PointEquality | src/T.Utility.Protocol/Drawing/ImagePoint.cs:33-55 | `Equals` holds exactly for a non-null point with the same coordinates, never for null; `IsEmpty` holds exactly at the origin |
| Drawing.SizeEquality | src/T.Utility.Protocol/Drawing/ImageSize.cs:26-55 | `Equals` holds exactly for a non-null size with the same width and height, never for null; `IsEmpty` holds exactly for 0 x 0 |
| Drawing.RectSize | src/T.Utility.Protocol/Drawing/ImageRect.cs:31-37 | the size is the plain difference of the edges when it fits; it is empty exactly when opposite edges coincide; adding it back to left and top gives right and bottom |
| Drawing.RectEmptyHasEmptySize | src/T.Utility.Protocol/Drawing/ImageRect.cs:42-48 | an empty rectangle has an empty size, but (1, 1, 1, 1) has an empty size and is not empty |
| Exceptions.Chain | src/T.Utility/Extensions/ExceptionExtensions.cs:20-25 | the chain is non-empty and starts with the given exception |
| Exceptions.ChainShape | src/T.Utility/Extensions/ExceptionExtensions.cs:21-25 | each later element is the inner exception of the one before, and the last has no inner exception |
| Exceptions.ChainIsUnique | src/T.Utility/Extensions/ExceptionExtensions.cs:21-25 | any sequence that starts at the exception, steps inward and stops at the first exception without an inner one is the chain |
| Exceptions.ChainOfWrapper | src/T.Utility/Extensions/ExceptionExtensions.cs:21-40 | wrapping an exception puts the wrapper in front of its chain and keeps the innermost exception |
| Exceptions.RouteExceptions | src/T.Utility/Extensions/ExceptionExtensions.cs:16-26 | the do-while yields exactly the chain |
| Exceptions.InnerMessage | src/T.Utility/Extensions/ExceptionExtensions.cs:33-43 | the loop returns the message of the last exception of the chain |
| Protocol.DescOrEmpty | src/T.Utility.Protocol/ActionContent.cs:46 | a non-null description is kept, and null becomes "" |
| Protocol.NewContent | src/T.Utility.Protocol/ActionContent.cs:27 | the parameterless constructor leaves state 0 and the description null |
| Protocol.ContentOf | src/T.Utility.Protocol/ActionContent.cs:33-37 | `ActionContent(state)` sets the state and the description "" |
| Protocol.ContentWith | src/T.Utility.Protocol/ActionContent.cs:44-48 | `ActionContent(state, desc)` sets the state and a non-null description |
| Protocol.ContentOfStatus | src/T.Utility.Protocol/ActionContent.cs:54-58 | the status-code constructor sets the state to the code's number and the description "" |
| Protocol.ContentWithStatus | src/T.Utility.Protocol/ActionContent.cs:65-69 | the status-code constructor with a description sets the code's number and a non-null description |
| Protocol.NewValueContent | src/T.Utility.Protocol/ActionContent.cs:87 | the generic parameterless constructor is the base one, with the value unset (`None`, standing for `default(T)`) |
| Protocol.ValueContentOf | src/T.Utility.Protocol/ActionContent.cs:93 | the generic `(state)` constructor is the base one, with the value unset (`None`, standing for `default(T)`) |
| Protocol.ValueContentWith | src/T.Utility.Protocol/ActionContent.cs:100 | the generic `(state, desc)` constructor is the base one, with the value unset (`None`, standing for `default(T)`) |
| Protocol.ValueContentWithValue | src/T.Utility.Protocol/ActionContent.cs:108-111 | the generic `(state, desc, value)` constructor is the base one, and it stores the value |
| Protocol.ValueContentOfStatus | src/T.Utility.Protocol/ActionContent.cs:117 | the generic status-code constructor is the base one, with the value unset (`None`, standing for `default(T)`) |
| Protocol.ValueContentWithStatus | src/T.Utility.Protocol/ActionContent.cs:124 | the generic `(statusCode, desc)` constructor is the base one, with the value unset (`None`, standing for `default(T)`) |
| Protocol.ValueContentWithStatusValue | src/T.Utility.Protocol/ActionContent.cs:132-135 | the generic `(statusCode, desc, value)` constructor is the base one, and it stores the value |
| Protocol.DescriptionNeverNull | src/T.Utility.Protocol/ActionContent.cs:27-69 | only the parameterless constructor leaves the description null; every other one sets the given description, or "" for null |
| Protocol.StatusCodeIsState | src/T.Utility.Protocol/ActionContent.cs:54-69 | a status-code constructor is the state constructor applied to the code's number |

## Left out

- The `lock` around `Next` (SnowflakeHelper.cs:136): concurrency. The generator is modelled as a sequential object.
- `DateTimeOffset.Now` is not modelled; the clock readings are parameters.
- The local `DateTime` of a `Flake` is kept as the Unix-millisecond instant. The conversion to local calendar time is not modelled.
- `AnalyzeDateTime` (SnowflakeHelper.cs:210-216) is not modelled; it is only that time conversion.
- The calendar snapping of `GetIdentiferRange` (year, month and day boundaries, SnowflakeHelper.cs:253-269, 287-288) is not modelled. The boundary milliseconds and the zone's conversion offsets are parameters.
- `TimeZoneInfo.Local.BaseUtcOffset` is likewise a parameter of `IdentifierRange` and `RangeBetween`.
- Snowflake.RunIdsIncreasing: the strict increase is proved only while every timestamp the generator settles on fits the 41-bit field. Past 2^41 ms the time field wraps into the sign bit.
- Snowflake.SnowflakeHelper.Next: the readings at the start of the call and inside the spin loop lie in the range `DateTimeOffset` represents (the `UnixMs` type). In the spinning case the clock must eventually pass the last timestamp; without that, the source spins forever.
- Snowflake.SnowflakeHelper.constructor: it requires in-range settings. The failing case is `Create`, which returns `Failure(ArgumentOutOfRange)` where the source throws.
- The `long` overflow of `_lastSequenceTimestamp + 1` and of `(id >> 22) + epoch + 1` is not modelled. Both stay far from 2^63 for every `DateTimeOffset` instant.
- `SnowflakeExtensions` (dependency-injection registration) is not modelled.
- StringExtensions.ToLower: lower-cases only the ASCII letters. The culture-sensitive Unicode case mapping of `String.ToLower()` is not modelled.
- StringExtensions.Similarity: a Dafny `string` counts Unicode scalar values, where .NET's `Length` and indexer count UTF-16 code units. The lengths, the distance and the ratio therefore differ for characters outside the Basic Multilingual Plane, which .NET sees as two surrogate units; the same holds for `StringExtensions.EditDistance` and `StringExtensions.SimilarityOf`.
- Protocol.NewValueContent: the unset `Value` of `ActionContent<T>` is `None`, standing for `default(T)`. That is `null` only for a reference or nullable `T`; for a value type such as `bool` it is the type's zero value (`false`), which the model does not tell apart from an explicitly stored one. The same holds for `ValueContentOf`, `ValueContentWith`, `ValueContentOfStatus` and `ValueContentWithStatus`.
- The `double` result of `Similarity` is a `real`; floating-point rounding is not modelled.
- `Strings.StartsWith` compares char by char (ordinal). .NET's `string.StartsWith(string)` is culture-sensitive; that difference is not modelled.
- A `null` element of the `segments` array, and a `null` key or value in a header or query dictionary, are not modelled. An element is a `string` and a value is its text.
- The rest of `CreateHttpRequestMessage` is not modelled: resolving the relative URI against `BaseUri` (`new Uri`), the method, the emission of headers and content, and the client.
- The send, retry and backoff path of `HttpExtensions` and `HttpResult`/`HttpResponseContext` are not modelled: network I/O.
- The download after the intranet rewrite in `ProxyDownload` is not modelled (network I/O). The model stops at the url it downloads from, or at the fault that sends it to its `catch`.
- The logger calls in the `catch` blocks are not modelled.
- `AccessKey`, `SecretKey` and `Bucket` of `OssSettings`, the OSS SDK calls and the other storage adapters are not modelled.
- `PlateOcrContent.Angle` (`Math.Atan2`) is not modelled: floating point.
- The HTTP client of the algorithms package is not modelled.
- A `null` exception passed to `RouteExceptions` or `InnerMessage` is not modelled. The receiver is an `Exception` value.
- The lazy `yield` of `RouteExceptions` is modelled as the whole sequence it yields. Because exceptions are finite values, every chain ends; cyclic chains cannot be expressed.
- The unused local `routeExceptions` list inside `RouteExceptions` is not modelled.
- The UTF-8 encoding object of `WithContent(string)` is not modelled; it is its name `utf-8`.

## Findings

| source | as written | input that shows it | evidently intended | confidence | as-written member | corrected member |
|---|---|---|---|---|---|---|
| src/T.Utility.OSS/Adapters/AliyunAdapter.cs:243 | for a url that starts with the prefix, returns `url.Replace(prefix, "")`, which removes every occurrence of the prefix | bucket "b", endpoint "e", SSL off, key "a/http://b.e/": the url `http://b.e/a/http://b.e/` gives "a/" | cut the prefix off the front once, so that the key of every url `PutObject` reports comes back | not executed; high that the code behaves this way, low that such keys occur in practice | Oss.GetObjectKeyAsWritten, Oss.GetObjectKeyAsWrittenLosesPrefixInKey | Oss.GetObjectKey, Oss.GetObjectKeyOfPutObjectUrl |
