# APRS compressed-position chunker and CLI run summary, in Dafny

This project models two pure pieces of the Karps/ack APRS packet library.

- **The compressed-position chunker** (`CompressedPositionChunker.popChunk`) splits the front of a
  packet body into the 13-character compressed position of chapter 9 of the APRS 1.01 protocol
  specification. Character 0 is the symbol table id. Characters 1–4 are the latitude and 5–8 the
  longitude. Character 9 is the symbol code and 10–12 the extension. The chunker hands each field to
  its decoder and returns a `Chunk` holding the decoded `PositionReport.Compressed` and the rest of
  the input.
- **The summary of a CLI test run** (`ParserState.Complete`) counts the lines that passed, failed
  or decoded to an unknown payload. It is meant to group the unknown payloads by the first character
  of their body, sort the groups by decreasing count and keep the first five. As written, the
  grouping step keeps nothing, so `unidentifiedIdentifiers` is always empty (see "Findings"). The
  model proves that about the code as written, and proves the grouped summary about the corrected
  `Intended…` members.

Files:

- `wrappers.dfy`: `Result`, the value-or-error outcome that stands for a Kotlin call that may throw.
- `chunk.dfy`: `Chunk<T>`, a decoded value plus `remainingData`.
- `compressed_position_chunker.dfy`: the chunker. The field layout is written as a table of fields
  and widths. `PopChunk` is proved against that table.
- `grouping.dfy`: the Kotlin collection steps the summary uses. These are `groupBy` with a count per
  group, the stable `sortedByDescending` and `subList(0, min(n, size))`. Each step is proved against
  a reference definition: multiset counts, first-occurrence index and the per-count subsequence.
- `parser_state.dfy`: `ParserState`, `LineStatus` and the derived values of `Complete`.

The decoders that `popChunk` calls are fields of a `Decoders` value, and their result types are
opaque. These decoders are the base-91 coordinate transformer, the extension codec and `symbolOf`.
A decoder that throws is one that returns `Err`. `PopChunk` passes on the first such error in the
order the source calls the decoders: latitude, then longitude, then extension.

## Model

| member | source | states |
|---|---|---|
| `CodecPosition.PopChunk` | codec/src/commonMain/kotlin/com/inkapplications/ack/codec/position/CompressedPositionChunker.kt:12-26 | It succeeds exactly when the latitude, longitude and extension decoders all succeed. The latitude decoder gets the latitude field, the longitude decoder the longitude field and the extension decoder the 3-character extension field. Each field is the slice `FieldOf` cuts at the field's offset and width in the layout table. Coordinates are paired (latitude, longitude). The symbol is `symbolOf(code id, table id)`. The remainder is the input after its first 13 characters, of length `|data| - 13`. On failure the error is the first failing decoder's error, in call order. |
| `CodecPosition.LayoutOffsets` | codec/src/commonMain/kotlin/com/inkapplications/ack/codec/position/CompressedPositionChunker.kt:13-25 | The table id is at 0, the latitude starts at 1, the longitude at 5, the code id is at 9 and the extension starts at 10. The whole position is 13 characters wide. |
| `CodecPosition.LayoutPartitionsChunk` | codec/src/commonMain/kotlin/com/inkapplications/ack/codec/position/CompressedPositionChunker.kt:13-25 | Each field starts where the previous one ends, and the last ends at 13. Concatenating the five fields in order gives exactly the first 13 characters: no overlap and no gap. |
| `CodecPosition.ResultDependsOnChunkOnly` | codec/src/commonMain/kotlin/com/inkapplications/ack/codec/position/CompressedPositionChunker.kt:12-26 | Two inputs with the same first 13 characters both succeed or both fail. They decode to the same position or fail with the same error. |
| `CodecPosition.FieldsThenRemainderRebuildInput` | codec/src/commonMain/kotlin/com/inkapplications/ack/codec/position/CompressedPositionChunker.kt:25 | The decoded fields followed by the remainder rebuild the input: the chunker consumes the five fields and nothing else. |
| `Grouping.GroupCounts` | cli/src/main/kotlin/com/inkapplications/ack/cli/parse/ParserState.kt:22-25 | `groupBy` followed by the count per group gives one entry per distinct key, each present key is covered, and keys come in order of first occurrence. Each count equals the key's number of occurrences, and the counts sum to the number of keys. |
| `Grouping.Tally` | cli/src/main/kotlin/com/inkapplications/ack/cli/parse/ParserState.kt:22-25 | Counting one more key adds exactly one to the sum of the counts. `TallyExisting` and `TallyNew` state its shape: the entry of a key already present goes up by one, and a new key is appended with count 1. |
| `Grouping.InsertByCount` | cli/src/main/kotlin/com/inkapplications/ack/cli/parse/ParserState.kt:26 | Inserting an entry gives a permutation of the list plus that entry. |
| `Grouping.InsertByCountSorted` | cli/src/main/kotlin/com/inkapplications/ack/cli/parse/ParserState.kt:26 | Inserting an entry into a list of non-increasing counts keeps the counts non-increasing. |
| `Grouping.SortByCountDescending` | cli/src/main/kotlin/com/inkapplications/ack/cli/parse/ParserState.kt:26 | `sortedByDescending { it.second }` returns a permutation of its input with non-increasing counts. |
| `Grouping.SortIsStable` | cli/src/main/kotlin/com/inkapplications/ack/cli/parse/ParserState.kt:26 | For every count `c`, the entries with count `c` appear in the same order before and after sorting. |
| `Grouping.SortKeepsTotal` | cli/src/main/kotlin/com/inkapplications/ack/cli/parse/ParserState.kt:26 | Sorting keeps the sum of the counts. |
| `Grouping.GroupedByCountDescending` | cli/src/main/kotlin/com/inkapplications/ack/cli/parse/ParserState.kt:22-26 | After grouping, counting and sorting, keys are distinct and every key is present. Each count is the key's number of occurrences and at least 1, and the counts sum to the number of keys. Counts are non-increasing, and entries of equal count keep first-occurrence order. |
| `Grouping.Top` | cli/src/main/kotlin/com/inkapplications/ack/cli/parse/ParserState.kt:27 | `subList(0, min(n, size))` is a prefix of length `min(n, size)`. On a list sorted by decreasing count, no entry kept has a smaller count than an entry left out. |
| `Grouping.TotalOfPrefix` | cli/src/main/kotlin/com/inkapplications/ack/cli/parse/ParserState.kt:27 | A prefix of a group list holds at most the total count of the whole list. |
| `CliParse.PassedPackets` | cli/src/main/kotlin/com/inkapplications/ack/cli/parse/ParserState.kt:16 | `filterIsInstance<LineStatus.Passed>()` keeps at most as many entries as there are lines. A packet is kept exactly when a `Passed` line carries it. |
| `CliParse.PassedPacketsMultiplicity` | cli/src/main/kotlin/com/inkapplications/ack/cli/parse/ParserState.kt:16 | Each packet is kept once for every `Passed` line that carries it. |
| `CliParse.PassedCount` | cli/src/main/kotlin/com/inkapplications/ack/cli/parse/ParserState.kt:16 | `passed` plus `failed` is the number of lines. |
| `CliParse.FailedCount` | cli/src/main/kotlin/com/inkapplications/ack/cli/parse/ParserState.kt:17 | `failed` is the number of `Failed` lines, so it is at most the number of lines. |
| `CliParse.PassedAndFailedCoverAllLines` | cli/src/main/kotlin/com/inkapplications/ack/cli/parse/ParserState.kt:16-17 | `passed + failed` equals the number of lines: the two counts are disjoint and cover every line. |
| `CliParse.WithUnknownData` | cli/src/main/kotlin/com/inkapplications/ack/cli/parse/ParserState.kt:18 | The filter `it.packet.data is PacketData.Unknown` keeps exactly the packets with an unknown payload, and no more packets than it is given. |
| `CliParse.WithUnknownDataMultiplicity` | cli/src/main/kotlin/com/inkapplications/ack/cli/parse/ParserState.kt:18 | A packet with an unknown payload is kept once for each time it occurs. Any other packet is dropped. |
| `CliParse.UnknownCount` | cli/src/main/kotlin/com/inkapplications/ack/cli/parse/ParserState.kt:18 | `unknown` is the number of passed lines with an unknown payload, counted line by line. It is at most `passed`, and it is positive exactly when some passed line has an unknown payload. |
| `CliParse.FilteringTwiceCountsLines` | cli/src/main/kotlin/com/inkapplications/ack/cli/parse/ParserState.kt:18 | Filtering the passed lines and then their unknown payloads counts the same lines as testing each line for both at once. |
| `CliParse.AsInstances` | cli/src/main/kotlin/com/inkapplications/ack/cli/parse/ParserState.kt:20 | `.map { it.packet }` gives one value per passed line, and every value is a packet. |
| `CliParse.UnknownInstances` | cli/src/main/kotlin/com/inkapplications/ack/cli/parse/ParserState.kt:21 | `filterIsInstance<PacketData.Unknown>()` keeps exactly the values that are themselves unknown payloads. |
| `CliParse.UnidentifiedIdentifiers` | cli/src/main/kotlin/com/inkapplications/ack/cli/parse/ParserState.kt:19-26 | As written: the keys are distinct and the counts are non-increasing. The counts sum to the number of values the line-21 filter keeps. |
| `CliParse.UnknownInstancesMultiplicity` | cli/src/main/kotlin/com/inkapplications/ack/cli/parse/ParserState.kt:21 | Each value that is an unknown payload is kept once for each time it occurs. Nothing else is kept. |
| `CliParse.NoPacketIsAPayload` | cli/src/main/kotlin/com/inkapplications/ack/cli/parse/ParserState.kt:20-21 | A list holding only packets has no value that passes the line-21 filter. |
| `CliParse.UnidentifiedIdentifiersAreEmpty` | cli/src/main/kotlin/com/inkapplications/ack/cli/parse/ParserState.kt:19-27 | As written, `unidentifiedIdentifiers` and `topUnidentified` are empty for every run. |
| `CliParse.TopUnidentified` | cli/src/main/kotlin/com/inkapplications/ack/cli/parse/ParserState.kt:27 | `topUnidentified` is a prefix of `unidentifiedIdentifiers` of length `min(5, size)`. No entry kept has a smaller count than an entry left out. |
| `CliParse.UnknownLineIsNotGrouped` | cli/src/main/kotlin/com/inkapplications/ack/cli/parse/ParserState.kt:18-21 | A run with one passed line whose payload is unknown has `unknown == 1` and an empty `unidentifiedIdentifiers`. |
| `CliParse.DataOf` | cli/src/main/kotlin/com/inkapplications/ack/cli/parse/ParserState.kt:18-20 | One payload per packet, in order: payload `i` is the payload of packet `i`. A payload occurs exactly when a packet carries it. |
| `CliParse.DataOfMultiplicity` | cli/src/main/kotlin/com/inkapplications/ack/cli/parse/ParserState.kt:18-20 | Each payload occurs once for every packet that carries it. |
| `CliParse.UnknownPayloads` | cli/src/main/kotlin/com/inkapplications/ack/cli/parse/ParserState.kt:18-20 | There are exactly `unknown` unknown payloads among the passed lines, and they are exactly the unknown payloads of `Passed` lines. |
| `CliParse.PayloadsCons` | cli/src/main/kotlin/com/inkapplications/ack/cli/parse/ParserState.kt:16-20 | The unknown payloads of a run are the first line's payload, if that line passed with an unknown payload, followed by those of the remaining lines. So the payloads come in file order. |
| `CliParse.UnknownPayloadsMultiplicity` | cli/src/main/kotlin/com/inkapplications/ack/cli/parse/ParserState.kt:18-20 | Each unknown payload occurs once for every `Passed` line that carries it. No other payload occurs. |
| `CliParse.UnknownPayloadBodies` | cli/src/main/kotlin/com/inkapplications/ack/cli/parse/ParserState.kt:22 | When every unknown body of a passed line is non-empty, every payload to group is unknown and has a first character. |
| `CliParse.LeadersInLineOrder` | cli/src/main/kotlin/com/inkapplications/ack/cli/parse/ParserState.kt:20-22 | The grouping keys are the leading body characters of the passed lines with an unknown payload, line by line in file order. |
| `CliParse.LeadersAreLeadingCharacters` | cli/src/main/kotlin/com/inkapplications/ack/cli/parse/ParserState.kt:22 | A character is a key exactly when some unknown payload's body starts with it. |
| `CliParse.IntendedUnidentifiedIdentifiers` | cli/src/main/kotlin/com/inkapplications/ack/cli/parse/ParserState.kt:19-26 | With the payloads grouped: each entry's key is a leading character, and its count is at least 1 and equals the number of unknown payloads that start with that character. The counts are non-increasing. |
| `CliParse.IntendedGroupsCountUnknownLines` | cli/src/main/kotlin/com/inkapplications/ack/cli/parse/ParserState.kt:18-26 | With the payloads grouped, keys are distinct and every leading character has an entry. Each count is the number of unknown payloads that start with its key, and at least 1. The counts sum to `unknown` and are non-increasing. For every count, the entries with that count are in the order in which their character first leads an unknown line of the file. |
| `CliParse.IntendedKeysAreUnknownLeaders` | cli/src/main/kotlin/com/inkapplications/ack/cli/parse/ParserState.kt:22-25 | With the payloads grouped, the keys are exactly the first characters of the unknown bodies. |
| `CliParse.IntendedTopUnidentified` | cli/src/main/kotlin/com/inkapplications/ack/cli/parse/ParserState.kt:27 | The top of the corrected grouping is a prefix of length `min(5, size)`. No entry kept has a smaller count than one left out. |
| `CliParse.IntendedTopWithinUnknown` | cli/src/main/kotlin/com/inkapplications/ack/cli/parse/ParserState.kt:27 | The top entries of the corrected grouping account for at most `unknown` lines. |
| `CliParse.IntendedGroupingListsUnknownLine` | cli/src/main/kotlin/com/inkapplications/ack/cli/parse/ParserState.kt:18-26 | With the payloads grouped, one passed line with body `}abc` gives the single entry `('}', 1)`. |

## Left out

- The decoders `popChunk` calls are not part of this model: `CompressedPositionStringTransformer.decodeLatitude`/`decodeLongitude`, `CompressedExtraStringCodec.decodeExtra` and `symbolOf`. They are parameters, so nothing is claimed about base-91 decoding, extension kinds or symbol lookup.
- `CodecPosition.PopChunk`: requires at least 13 characters. `popChunk` has no length check, and a shorter input fails with an index exception from `data[0]`, `substring` or `slice`, unless a decoder called before the first out-of-range index fails first. Inputs of 5 to 12 characters reach the latitude decoder, and inputs of 9 to 12 characters also reach the longitude decoder. Those short-input paths are not modelled.
- `Chunk`, `Chunker`, `GeoCoordinates` and `PositionReport` keep only the fields `popChunk` fills. The other chunkers and the packet dispatcher are not part of this model.
- `structures/.../GeoLine.kt` is not modelled because it is floating-point arithmetic. In particular its degrees/minutes/seconds conversion is not claimed to invert its decimal value.
- `structures/.../AprsPacket.kt` and the temperature units are not modelled. The packet is reduced to its payload (`data`), and only `PacketData.Unknown` is told apart.
- The `LineStatus` and `PacketData` sources are not part of this model. `LineStatus` is taken to have exactly two cases, `Passed(packet)` and `Failed`. With a third case, `passed + failed` would only be at most the number of lines.
- `ParserState`: `File` and `Duration` are opaque and only carried. `Initializing` and `Running` have no derived values, and `complete`/`total` are unconstrained.
- Kotlin indexes strings by UTF-16 code unit, while a Dafny `char` is a Unicode scalar value. A body or packet containing a character outside the Basic Multilingual Plane would be sliced and keyed differently. The model covers the ASCII alphabet of the APRS protocol, where the two agree.
- Kotlin's library sort is replaced by an insertion sort. Both are stable sorts on the same key, so they give the same list.

## Findings

| source | as written | input that shows it | evidently intended | confidence | as-written member | corrected member |
|---|---|---|---|---|---|---|
| cli/src/main/kotlin/com/inkapplications/ack/cli/parse/ParserState.kt:20-21 | maps each passed line to its packet, then keeps the values that are instances of `PacketData.Unknown`; a packet is not a payload, so nothing is kept and the report is always empty | one `Passed` line whose payload is `Unknown("}abc")`: `unknown` is 1 but `unidentifiedIdentifiers` is empty | map to `it.packet.data`, the value line 18 tests, and group those payloads | likely (the packet class is not part of this model); not executed | `CliParse.UnknownLineIsNotGrouped` | `CliParse.IntendedGroupsCountUnknownLines` |

`UnidentifiedIdentifiers` and `TopUnidentified` model the source as written. The `Intended…`
members give the corrected grouping, with its properties proved.
