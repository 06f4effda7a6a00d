# Verified models of rekuiper

A Dafny model of the algorithmic cores of rekuiper, an edge stream engine: what its
connectors do to bytes, registers, rows and templates, and how its rule manager keeps rules,
tasks and the store together. Every statement below is proved for all inputs, all runs or all
reachable states; where a property the code seems to promise is false, there is a lemma with
a failing input and an if-and-only-if that says exactly when it holds (see below).

`dafny verify dfyconfig.toml` checks everything.

| file | models |
|---|---|
| `ModbusCoalesce.dfy`, `Sorting.dfy` | the register coalescer |
| `ModbusSnapshot.dfy` | reading through coalesced ranges against reading one by one |
| `ModbusCrc.dfy`, `ModbusCrcPeriod.dfy` | the RTU checksum and what it detects; its period |
| `ModbusTcp.dfy` | the TCP client as a state machine over its awaits |
| `Protobuf.dfy`, `ProtobufWire.dfy` | the protobuf wire codec; its bytes as numbers |
| `Delimited.dfy` | the delimited codec |
| `Manager.dfy` | the rule lifecycle over the key-value store |
| `TemplatePipeline.dfy`, `TemplateAction.dfy`, `TemplateBlock.dfy` | the template parser |
| `Jpeg.dfy` | the streaming JPEG splitter |
| `OpcUa.dfy`, `OpcUaValues.dfy`, `OpcUaWire.dfy` | the ReadResponse parser against OPC UA Part 6; its bytes as numbers |
| `SqlPoll.dfy`, `SqlInsert.dfy` | incremental polling and batched inserts |
| `Mqtt.dfy` | the publish drain with its metadata cache |
| `Common.dfy` | options, bytes, little-endian words, sequence facts |

Loops of the source are methods with invariants, each proved equal to a function; the
properties are lemmas about those functions. `RuleManager`, `StreamBuffer`, `SqlSource` and
the MQTT `Source` are classes because the source updates them in place.

Round trips and refinements leave open what both sides share: a type code, a wire type, a seed,
a limit, a key. Beside them there are therefore statements that spell such things out as
numbers, bytes and names, without the tables of the model.

## What turned out to be false, and when it holds

- A register that shares a coalesced range and whose last word is address 65535 is silently
  dropped, because ends saturate (`LastAddressIsLost`, `SnapshotIsExactIff`).
- A Modbus TCP reply that declares fewer bytes than it has is returned cut short, and the next
  call reads what was left as its own answer (`TruncationIsReturned`, `StaleBytesAreReturned`,
  `StepKeepsPromiseIff`, `RunKeepsPromiseIff`).
- A frame that is cut more than the buffer cap after its start is lost or loses its beginning
  (`LongFramesDependOnReads`, `FramesUnaffectedIff`).
- The delimited codec does not quote numbers and booleans, so a delimiter that occurs in one
  cuts it (`NegativeNumberIsCut`, `EncodedRecordSplits`); the double quote as delimiter works
  only for some cells (`EmptyCellsMerge`, `RoundTripIff`).
- The engine writes the status "error" into a rule behind the manager's back. Then memory and
  store disagree (`StoreMatchesMemory`), and the next task handle makes `set_rule_handle` drop
  the old one without aborting it (`ErrorStatusLosesATask`, `StepKeepsTasksIff`,
  `RunsKeepTasksIff`).
- Rows inserted at or below the polling index are never seen (`StepKeepsInvIff`,
  `PassedRowsAreLost`). Under a limit several index columns lose rows (`TwoColumnsLoseRows`,
  `NothingLostIff`); without one they lose none (`ExactlyOnceUnlimited`).
- Without configured fields, batched inserts store null where single inserts leave a column's
  default (`MissingFieldsBecomeNull`, `UnsetFieldsAgreeIff`).
- A plain template pipeline that begins with `end`, `else`, `if` or `range` reads as that
  keyword's action (`EndIsAKeyword`, `ActionRoundTripIff`), and pipelines have spellings other
  than the printed one (`TrailingPipeIsTolerated`, `PipelinePrintsBack`).
- A compact OPC UA response whose bytes also form a standard header is read as standard
  (`CompactIsMisread`, `CompactIsReadIff`).
- `EdgeXCodec::decode` merges MQTT metadata into its own, but the caller then overwrites the
  merged value (`DeviceNameIsLost`, `MergedMetaSurvivesIff`).
- A field mask makes the MQTT source accept payloads that are refused without one: with bytes
  after the object, or with a skipped member such as `1e999` that is no value
  (`TrailingBytesAreAccepted`, `SkippedValueIsNotChecked`, `JsonRowsIff`).
- Malformed protobuf bytes decode to null, which encodes to nothing and comes back as an empty
  object (`NormalFormIff`).

## Assumptions

- Third-party functions are parameters with the laws they need: base64, float narrowing
  on finite values and lossy UTF-8 decoding being idempotent (`Protobuf.Lib`), JSON parsing and
  the other payload decoders (`Mqtt.Lib`, where the general parser accepts an object exactly
  if its members parse and white space follows), the register decoder (`ModbusSnapshot`),
  sorting a set of names (`SqlInsert`). Serialising a rule and reading it back is taken to be
  faithful.
- Protobuf: buffers are shorter than 2^64 bytes; the groups of a varint are disjoint bits, so
  the source's `|=` is written as addition. Floats are their bit patterns.
- Modbus TCP: the peer answers each request at most once. Header fields, the length included,
  are arbitrary.
- Rule store: a failed write leaves the store as it was, and `load_from_kv` runs at start-up.
  Readable entries are stored under their own id, as the manager writes them.
- SQL: the database gives any answer the query allows; index values are integers and null
  ones never match. Deletions and failed polls may happen at any time.

## Model

| member | source | states |
|---|---|---|
| `ModbusCoalesce.GreedyIsBatching` | crates/rekuiper-connectors/src/modbus.rs:409-463 | the greedy runs cut the sorted registers into consecutive runs that respect the gap and span limits (a lone register always may), leaving none out |
| `ModbusCoalesce.GreedyIsOptimal` | crates/rekuiper-connectors/src/modbus.rs:409-463 | no other such cut uses fewer runs, overlapping registers included |
| `ModbusCoalesce.PlanIsOptimal` | crates/rekuiper-connectors/src/modbus.rs:391-468 | for every function, the ranges planned are as few as any valid batching of its registers |
| `ModbusCoalesce.HashOrderDoesNotMatter` | crates/rekuiper-connectors/src/modbus.rs:399-467 | the final stable sort gives one result whatever order the hash map yields the groups in |
| `ModbusCoalesce.PairIsMergedIff` | crates/rekuiper-connectors/src/modbus.rs:423-451 | two registers of one function share a range exactly if the second starts at most `gap` past the end of the first and both end within 2000 bits or 125 words of its start, ends counted up to 65535; with the ranges that result |
| `ModbusCoalesce.PlanStaysInLimits` | crates/rekuiper-connectors/src/modbus.rs:391-468 | every planned request is for the unit asked for, starts at its first register, and if shared asks for at most 2000 bits or 125 words |
| `ModbusCoalesce.PlanIsInOrder` | crates/rekuiper-connectors/src/modbus.rs:466-467 | the plan is in the order coils, discrete inputs, holding and input registers, by address within each |
| `ModbusCoalesce.CoalesceGroup` | crates/rekuiper-connectors/src/modbus.rs:414-462 | the loop with its open range appends exactly the greedy ranges of the group |
| `ModbusCoalesce.CoalesceFunction` | crates/rekuiper-connectors/src/modbus.rs:409-463 | one group: sorting by address and then the loop |
| `ModbusCoalesce.CollectRanges` | crates/rekuiper-connectors/src/modbus.rs:403-463 | the loop over the groups collects each group's ranges in hash order |
| `ModbusCoalesce.CoalesceRegisters` | crates/rekuiper-connectors/src/modbus.rs:391-468 | the whole function returns the plan, independent of hash order |
| `Sorting.SortCorrect` | crates/rekuiper-connectors/src/modbus.rs:411-412 | the stable sort by key is a sorted permutation that keeps the order of equal keys |
| `Sorting.StableSortIsUnique` | crates/rekuiper-connectors/src/modbus.rs:466-467 | two sorted lists that agree key by key are equal, so a stable sort has one result |
| `ModbusSnapshot.ReadRange` | crates/rekuiper-connectors/src/modbus.rs:744-818 | the response checks and the two unpacking loops compute the parsed words or fail |
| `ModbusSnapshot.ReadsTheDevice` | crates/rekuiper-connectors/src/modbus.rs:744-818 | unpacking a conforming response gives exactly the device's cells, bits and words alike; an exception response fails |
| `ModbusSnapshot.RequestReads` | crates/rekuiper-connectors/src/modbus.rs:725-735 | the request is function code 1, 2, 3 or 4, then address and quantity, high bytes first |
| `ModbusSnapshot.ResponseIsTakenIff` | crates/rekuiper-connectors/src/modbus.rs:743-793 | a response is taken exactly if it has the function's own code and as many bytes as it announces |
| `ModbusSnapshot.ResponseBits` | crates/rekuiper-connectors/src/modbus.rs:795-818 | for coils and discrete inputs, cell `k` is bit `k % 8` of data byte `k / 8`, and zero past the end |
| `ModbusSnapshot.ResponseWords` | crates/rekuiper-connectors/src/modbus.rs:795-818 | for holding and input registers, cells are the announced bytes two by two, high byte first |
| `ModbusSnapshot.SliceIsExact` | crates/rekuiper-connectors/src/modbus.rs:976-981 | slicing a range gives a register the words a separate read would, exactly unless it shares the range and its end saturates |
| `ModbusSnapshot.LastAddressIsLost` | crates/rekuiper-connectors/src/modbus.rs:423-451 | failing input: of two neighbours at 65534 and 65535 the second gets nothing |
| `ModbusSnapshot.PlanHoldsEveryRegister` | crates/rekuiper-connectors/src/modbus.rs:391-468 | the plan holds every register exactly as often as it was configured |
| `ModbusSnapshot.SnapshotRefinesSeparateReads` | crates/rekuiper-connectors/src/modbus.rs:972-1004 | for every device memory, decoder, gap and register list with distinct names whose shared ends fit, the batched snapshot equals separate reads, failures included |
| `ModbusSnapshot.SnapshotIsExactIff` | crates/rekuiper-connectors/src/modbus.rs:972-1004 | when separate reads succeed, the two snapshots are equal if and only if no register that shares a range reaches address 65535 |
| `ModbusSnapshot.MissingSlicesArePassedOver` | crates/rekuiper-connectors/src/modbus.rs:976-1000 | a register whose words were not read is passed over in silence, and the others are recorded as without it |
| `ModbusSnapshot.RecordRegisters` | crates/rekuiper-connectors/src/modbus.rs:976-1000 | the loop over the registers of a range |
| `ModbusSnapshot.ReadSnapshot` | crates/rekuiper-connectors/src/modbus.rs:972-1004 | the loop over ranges computes the snapshot |
| `ModbusCrc.FeedByteLoop` | crates/rekuiper-connectors/src/modbus.rs:74-83 | one byte and eight shift rounds |
| `ModbusCrc.ModbusCrc16` | crates/rekuiper-connectors/src/modbus.rs:72-85 | the checksum loop over all bytes |
| `ModbusCrc.RoundBits` | crates/rekuiper-connectors/src/modbus.rs:76-81 | a round shifts down and flips bits 0, 13 and 15 if the lowest bit was set |
| `ModbusCrc.SeedRunsAlong` | crates/rekuiper-connectors/src/modbus.rs:72-85 | the checksum is that of the data from zero, XORed with sixteen set bits run on for as many rounds |
| `ModbusCrc.LeadingZerosIff` | crates/rekuiper-connectors/src/modbus.rs:72-85 | zero bytes in front of an accepted frame go unnoticed if and only if the register, from sixteen set bits, is back at them after as many rounds |
| `ModbusCrc.LeadingZeroIsNoticed` | crates/rekuiper-connectors/src/modbus.rs:905-929 | what the seed is for: one zero byte put in front of an accepted frame, or taken from its front, makes the check fail |
| `ModbusCrc.ShortFramesAreRefused` | crates/rekuiper-connectors/src/modbus.rs:914-918 | frames of fewer than four bytes are refused |
| `ModbusCrc.RunIsBitSerial` | crates/rekuiper-connectors/src/modbus.rs:72-85 | the byte-wise checksum equals the bit-serial one, for data of any length |
| `ModbusCrc.RunBitsLinear` | crates/rekuiper-connectors/src/modbus.rs:72-85 | the checksum state is linear over XOR of states and of data |
| `ModbusCrc.AcceptsIffZero` | crates/rekuiper-connectors/src/modbus.rs:905-929 | a frame passes the trailer check exactly when the checksum over the whole frame is zero |
| `ModbusCrc.SentFramesAreAccepted` | crates/rekuiper-connectors/src/modbus.rs:905-929 | payload plus its little-endian checksum is accepted and has remainder zero |
| `ModbusCrc.UndetectedIffZeroRemainder` | crates/rekuiper-connectors/src/modbus.rs:905-929 | an error pattern goes unnoticed if and only if its own remainder is zero |
| `ModbusCrc.BurstsAreDetected` | crates/rekuiper-connectors/src/modbus.rs:905-929 | every error within sixteen consecutive bits, single bits included, makes the check fail |
| `ModbusCrc.OddErrorsAreDetected` | crates/rekuiper-connectors/src/modbus.rs:905-929 | every error that flips an odd number of bits makes the check fail |
| `ModbusCrc.TwoBitErrorsCancelIff` | crates/rekuiper-connectors/src/modbus.rs:905-929 | an error of two bits goes unnoticed if and only if the register comes back from 1 to 1 in as many steps as they are apart |
| `ModbusCrcPeriod.RegisterReturnsIff` | crates/rekuiper-connectors/src/modbus.rs:72-85 | the register comes back from 1 to 1 exactly after multiples of 32767 steps |
| `ModbusCrcPeriod.TwoBitErrorsUndetectedIff` | crates/rekuiper-connectors/src/modbus.rs:905-929 | an error of two bits goes unnoticed if and only if their distance is a multiple of 32767 bits, for frames of any length |
| `ModbusCrcPeriod.TwoBitErrorsAreDetected` | crates/rekuiper-connectors/src/modbus.rs:905-929 | every error of two bits in a frame of up to 4095 bytes makes the check fail; RTU frames have at most 256 |
| `ModbusTcp.StepKeepsPromiseIff` | crates/rekuiper-connectors/src/modbus.rs:831-899 | a step of the client, its peer or its socket keeps every Ok an answer to its request, and idle connections quiet, if and only if it does not read a body that the length field declares shorter than the reply is |
| `ModbusTcp.RunKeepsPromiseIff` | crates/rekuiper-connectors/src/modbus.rs:703-899 | over every run, with any replies, failures and wrapping ids, that promise holds in all states if and only if no such body is read |
| `ModbusTcp.EveryOkAnswersItsRequest` | crates/rekuiper-connectors/src/modbus.rs:703-899 | in particular it holds if no reply that matches its request is declared too short: each PDU returned as Ok is the peer's whole answer to the request just sent, and an open idle connection has nothing outstanding |
| `ModbusTcp.FirstCallAwaits` | crates/rekuiper-connectors/src/modbus.rs:831-850 | the first call reaches a state that awaits its reply, as the next two statements need |
| `ModbusTcp.RequestReads` | crates/rekuiper-connectors/src/modbus.rs:841-849 | the frame written spells the transaction id, protocol 0, a length that counts unit and PDU, the unit and the PDU |
| `ModbusTcp.SocketsAreDropped` | crates/rekuiper-connectors/src/modbus.rs:719-721 | a call that fails at any await, and a disconnect, close the socket and keep the results |
| `ModbusTcp.TruncationIsReturned` | crates/rekuiper-connectors/src/modbus.rs:883-887 | from every state that awaits it, a reply that declares too few bytes is returned cut short as Ok, with the rest left on an open connection |
| `ModbusTcp.StaleBytesAreReturned` | crates/rekuiper-connectors/src/modbus.rs:851-899 | the next call then takes the rest for its own answer and returns a forged byte as Ok while the peer still owes it a reply |
| `ModbusTcp.StaleReplyPassesTheHeaderChecks` | crates/rekuiper-connectors/src/modbus.rs:851-887 | why the forced disconnect is needed: 65536 failed calls bring the transaction id round, and a reply to the first passes every header check of the next call |
| `Protobuf.VarintRoundTrip` | crates/rekuiper-connectors/src/codec.rs:531-558 | reading a written varint gives back any 64-bit value and its exact length, ten-byte ones included |
| `Protobuf.ReadVarintAt` | crates/rekuiper-connectors/src/codec.rs:531-542 | the loop over at most ten bytes computes the varint and advances the position within bounds |
| `Protobuf.AppendVarint` | crates/rekuiper-connectors/src/codec.rs:544-553 | the loop appends the varint |
| `Protobuf.DecodeAppend` | crates/rekuiper-connectors/src/codec.rs:631-668 | if `a` decodes, decoding `a + b` continues with `b` from what `a` gave |
| `Protobuf.DecodingComposes` | crates/rekuiper-connectors/src/codec.rs:631-668 | decoding `a + b` is the merge of both decodings: singular values replace, repeated ones append |
| `Protobuf.UnknownRecordsAreInvisible` | crates/rekuiper-connectors/src/codec.rs:640-708 | a record under an unknown number and skippable wire type, at any record boundary, changes nothing |
| `Protobuf.RecordRoundTrip` | crates/rekuiper-connectors/src/codec.rs:714-974 | the bytes written for one value are one record that stores exactly that value |
| `Protobuf.RoundTrip` | crates/rekuiper-connectors/src/codec.rs:625-974 | for every schema with unique names and numbers, nested to any depth, and every well-typed object with non-empty arrays, decoding the encoding gives it back |
| `Protobuf.MessageIsTyped` | crates/rekuiper-connectors/src/codec.rs:631-816 | whatever the bytes, every object the decoder returns is well typed, nested ones included |
| `Protobuf.NormalFormIff` | crates/rekuiper-connectors/src/codec.rs:625-974 | for any bytes, encoding what they decode to and decoding again gives the first result if and only if they decode at all |
| `Protobuf.DecodedIffWellTyped` | crates/rekuiper-connectors/src/codec.rs:625-974 | the well-typed objects are exactly those that some bytes decode to |
| `ProtobufWire.VarintWire` | crates/rekuiper-connectors/src/codec.rs:720-752 | tag 8n and any varint below 2^64 store, by type, its low 32 or all 64 bits with or without sign, its zigzag reading, or whether it is not zero |
| `ProtobufWire.VarintBytes` | crates/rekuiper-connectors/src/codec.rs:852-888 | an integer in range is written as tag 8n and itself, its two's complement on 64 bits, or twice its size less one if negative and zigzag |
| `ProtobufWire.BooleanBytes` | crates/rekuiper-connectors/src/codec.rs:889-894 | a truth value is written as tag 8n and 1 or 0 |
| `ProtobufWire.FourByteWire` | crates/rekuiper-connectors/src/codec.rs:775-801 | tag 8n + 5 and four little-endian bytes store the number they hold, its two's complement, or the float if finite |
| `ProtobufWire.FourByteBytes` | crates/rekuiper-connectors/src/codec.rs:895-940 | and these are the bytes written for the four-byte types |
| `ProtobufWire.EightByteWire` | crates/rekuiper-connectors/src/codec.rs:775-801 | the same for tag 8n + 1 and eight bytes |
| `ProtobufWire.EightByteBytes` | crates/rekuiper-connectors/src/codec.rs:906-928 | and these are the bytes written for the eight-byte types |
| `ProtobufWire.SizedWire` | crates/rekuiper-connectors/src/codec.rs:765-816 | tag 8n + 2, a length and as many bytes store the text, the base64, or the nested message if the schema has it and it decodes |
| `ProtobufWire.SizedBytes` | crates/rekuiper-connectors/src/codec.rs:941-974 | and these are the bytes written for texts, bytes and messages |
| `ProtobufWire.OthersArePassedOver` | crates/rekuiper-connectors/src/codec.rs:631-708 | a record of an unknown number, or of a wire type its field is not read from, is passed over: a varint for 0, eight bytes for 1, a length and bytes for 2, four bytes for 5 |
| `ProtobufWire.BadPayloadsFail` | crates/rekuiper-connectors/src/codec.rs:676-708 | wire types 3, 4, 6 and 7 and payloads cut short fail the whole message, whatever the number |
| `ProtobufWire.LongLengthFails` | crates/rekuiper-connectors/src/codec.rs:692-716 | and so does a length that goes past the end |
| `ProtobufWire.FirstFieldCounts` | crates/rekuiper-connectors/src/codec.rs:638-638 | of two schema fields with one number the first counts |
| `ProtobufWire.CoercedToInteger` | crates/rekuiper-connectors/src/codec.rs:560-606 | truth values, floats and texts that stand for an integer are written like it |
| `ProtobufWire.WideIntegers` | crates/rekuiper-connectors/src/codec.rs:852-940 | integers beyond 32 bits are written whole as unsigned varints and modulo 2^32 otherwise |
| `ProtobufWire.CoercedToOthers` | crates/rekuiper-connectors/src/codec.rs:608-622 | numbers go into a truth value as not being zero, and integers into floats by conversion |
| `ProtobufWire.SpelledFloats` | crates/rekuiper-connectors/src/codec.rs:895-916 | a text that is no integer goes into a float field as the float it spells, or not at all |
| `ProtobufWire.CoercedToText` | crates/rekuiper-connectors/src/codec.rs:941-962 | texts and bytes take any value but null: text that is not base64 as it is, the rest as its JSON |
| `ProtobufWire.UnfitValuesAreLeftOut` | crates/rekuiper-connectors/src/codec.rs:849-974 | null, and values that a field of the type cannot hold, write nothing |
| `ProtobufWire.FieldsAreInOrder` | crates/rekuiper-connectors/src/codec.rs:832-848 | the encoding follows the order of the schema |
| `ProtobufWire.ValuesAreInOrder` | crates/rekuiper-connectors/src/codec.rs:836-845 | and that of an array |
| `ProtobufWire.OneField` | crates/rekuiper-connectors/src/codec.rs:836-845 | a field writes the items of its array if it repeats, else its one value, and nothing if it is missing |
| `Protobuf.DecodeInner` | crates/rekuiper-connectors/src/codec.rs:631-668 | the record loop terminates and computes the decoding |
| `Protobuf.AppendValues` | crates/rekuiper-connectors/src/codec.rs:836-845 | the loop over one field's values appends their encodings |
| `Protobuf.EncodeObject` | crates/rekuiper-connectors/src/codec.rs:832-848 | the loop over schema fields computes the encoding |
| `Delimited.SplitOfLine` | crates/rekuiper-connectors/src/codec.rs:69-119 | splitting a joined line gives the fields of each cell in order: verbatim if quoted, trimmed if not, one per piece for a raw cell |
| `Delimited.RoundTripIff` | crates/rekuiper-connectors/src/codec.rs:69-119 | splitting the joined quoted cells gives one field a cell if and only if the delimiter is not the double quote, or every cell but the last is neither blank nor in need of quotes |
| `Delimited.EncodedRecordSplits` | crates/rekuiper-connectors/src/codec.rs:171-186 | an encoded record splits into one field a header if and only if no number or boolean contains the delimiter; then field by field, verbatim or trimmed |
| `Delimited.EncodedValues` | crates/rekuiper-connectors/src/codec.rs:171-186 | value by value: nothing comes back as an empty field, truth values as `true` and `false`, texts verbatim and marked as quoted if they hold the delimiter, a double quote or a line break, the rest trimmed |
| `Delimited.TrimIs` | crates/rekuiper-connectors/src/codec.rs:95-110 | trimming takes white space off both ends, all of it and nothing else |
| `Delimited.SpacesAre` | crates/rekuiper-connectors/src/codec.rs:89-110 | white space is exactly the 25 characters of the Unicode property |
| `Delimited.QuotedByHand` | crates/rekuiper-connectors/src/codec.rs:75-110 | white space before an opening quote is dropped, text after the closing one is joined on, and without one the text goes on to the end |
| `Delimited.QuoteInside` | crates/rekuiper-connectors/src/codec.rs:89-110 | a double quote after other text is an ordinary character |
| `Delimited.NegativeNumberIsCut` | crates/rekuiper-connectors/src/codec.rs:177-178 | failing input: with a minus as delimiter a negative number becomes two fields |
| `Delimited.EmptyCellsMerge` | crates/rekuiper-connectors/src/codec.rs:89-93 | failing input: two empty cells joined by a double quote are read as one |
| `Delimited.SplitQuoted` | crates/rekuiper-connectors/src/codec.rs:69-111 | the character loop computes the split |
| `Manager.PlanAgrees` | crates/rekuiper-core/src/manager.rs:720-810 | what an operation writes to the store agrees with what it then does to memory |
| `Manager.NextKeepsPersistInv` | crates/rekuiper-core/src/manager.rs:683-1124 | every step, `set_rule_handle` in the middle of an operation and failed writes included, keeps the store in agreement with memory before the write and after it |
| `Manager.StoreMatchesMemory` | crates/rekuiper-core/src/manager.rs:683-1124 | in every reachable state with no operation under way, reloading would give exactly the catalog in memory if and only if no status is "error", which error-free runs never reach |
| `Manager.CrashIsAtomic` | crates/rekuiper-core/src/manager.rs:720-1124 | from every reachable state, a crash anywhere inside an operation followed by a reload restores the rules after it once the write is stored and before it otherwise, up to statuses of "error", and exactly if there are none |
| `Manager.StepKeepsTasksIff` | crates/rekuiper-core/src/manager.rs:974-989 | a step keeps live tasks and handles in one-to-one agreement if and only if it is not `set_rule_handle` on a rule that holds a handle without running |
| `Manager.RunsKeepTasksIff` | crates/rekuiper-core/src/manager.rs:756-1083 | over every run, status writes of the engine included, live tasks are exactly the handles in the end if and only if no such step came after the last crash |
| `Manager.TaskSafety` | crates/rekuiper-core/src/manager.rs:756-1083 | over every interleaving without such status writes, a task handed over is aborted or is the single handle of a present, running rule |
| `Manager.ErrorStatusLosesATask` | crates/rekuiper-server/src/engine/mod.rs:1027-1032 | failing input: after the engine writes status "error", the next handle makes the first task run on, held by nobody |
| `Manager.OperationsMean` | crates/rekuiper-core/src/manager.rs:720-1083 | a completed operation does what was asked to its rule in memory and store, touches no other, and leaves no live task for a rule it stopped, halted, restarted or deleted; a refused or failed one changes nothing |
| `Manager.RefusedChangesNothing` | crates/rekuiper-core/src/manager.rs:720-1083 | creating an existing rule and anything else on a missing one is refused; that and a failed write change nothing |
| `Manager.OperationEffects` | crates/rekuiper-core/src/manager.rs:720-1083 | from every state, "error" statuses included: the definition and status each operation leaves in memory and in the store, and that other rules stay |
| `Manager.OperationTasks` | crates/rekuiper-core/src/manager.rs:756-1083 | stop, halt, restart, delete and update of a running rule abort its task and let it go; the others keep it; no other task is touched |
| `Manager.AttachedTask` | crates/rekuiper-core/src/manager.rs:974-989 | a running rule takes the task it is given, which is live, and the one it held is aborted; otherwise the new one is aborted; nothing else changes |
| `Manager.LiveTaskIsLast` | crates/rekuiper-core/src/manager.rs:756-1083 | over every run a rule holds no task but the last handed over for it since the last crash, and that is its live task if none was lost |
| `Manager.LoadAllIsLoad` | crates/rekuiper-core/src/manager.rs:1089-1124 | the load loop over any listing of a well-keyed store restores exactly its readable entries, unknown statuses as stopped |
| `Manager.LoadedRules` | crates/rekuiper-core/src/manager.rs:1089-1124 | entry by entry: the stored definition, no task, and "running" if that is stored, "stopped" for any other status |
| `Manager.LastEntryWins` | crates/rekuiper-core/src/manager.rs:1089-1124 | whatever the keys, a rule goes under its own id and the last entry wins; corrupt ones are skipped |
| `Manager.RuleManager.PersistRule` | crates/rekuiper-core/src/manager.rs:683-689 | the store write, a no-op without a store |
| `Manager.RuleManager.CreateRule` | crates/rekuiper-core/src/manager.rs:720-750 | the method performs the create steps of the machine, refusal and store failure included |
| `Manager.RuleManager.UpdateRule` | crates/rekuiper-core/src/manager.rs:756-781 | the method performs the update steps and reports whether the rule was running |
| `Manager.RuleManager.UpdateRuleTags` | crates/rekuiper-core/src/manager.rs:783-810 | the method performs the retag steps |
| `Manager.RuleManager.HaltRuleWithError` | crates/rekuiper-core/src/manager.rs:947-972 | the method performs the halt steps |
| `Manager.RuleManager.SetRuleHandle` | crates/rekuiper-core/src/manager.rs:974-989 | the method performs the lock-free handle step |
| `Manager.RuleManager.StartRule` | crates/rekuiper-core/src/manager.rs:991-1011 | the method performs the start steps |
| `Manager.RuleManager.StopRule` | crates/rekuiper-core/src/manager.rs:1013-1036 | the method performs the stop steps |
| `Manager.RuleManager.RestartRule` | crates/rekuiper-core/src/manager.rs:1040-1061 | the method performs the restart steps |
| `Manager.RuleManager.DeleteRule` | crates/rekuiper-core/src/manager.rs:1063-1083 | the method performs the delete steps |
| `Manager.RuleManager.LoadFromKv` | crates/rekuiper-core/src/manager.rs:1089-1124 | the load loop; from an empty manager it restores the store's readable entries |
| `TemplatePipeline.RoundTrip` | crates/rekuiper-connectors/src/data_template.rs:503-577 | printing any pipeline without empty commands, parenthesised to any depth, and parsing the tokens gives it back |
| `TemplatePipeline.CommandsBalanced` | crates/rekuiper-connectors/src/data_template.rs:528-545 | the depth scan passes over printed text: it always finds the matching close |
| `TemplatePipeline.ParsedIsGood` | crates/rekuiper-connectors/src/data_template.rs:555-577 | whatever parses has no empty command at any depth |
| `TemplatePipeline.PipelinePrintsBack` | crates/rekuiper-connectors/src/data_template.rs:503-577 | printing what was parsed gives the tokens back if and only if they hold no empty field path and every pipe is followed by a token other than a closing parenthesis, at any depth |
| `TemplatePipeline.TrailingPipeIsTolerated` | crates/rekuiper-connectors/src/data_template.rs:567-570 | other spellings exist: a pipe at the very end is swallowed |
| `TemplatePipeline.ScanToClose` | crates/rekuiper-connectors/src/data_template.rs:528-541 | the loop finds the closing parenthesis |
| `TemplatePipeline.ReadTerm` | crates/rekuiper-connectors/src/data_template.rs:503-553 | reads one term off the front |
| `TemplatePipeline.ReadTerms` | crates/rekuiper-connectors/src/data_template.rs:560-563 | the inner loop reads terms up to the next pipe |
| `TemplatePipeline.ReadPipeline` | crates/rekuiper-connectors/src/data_template.rs:555-577 | the loop over commands computes the pipeline |
| `TemplateAction.ActionRoundTripIff` | crates/rekuiper-connectors/src/data_template.rs:579-656 | an action survives printing and parsing if and only if its pipeline has no empty command and, if plain, does not begin with a keyword |
| `TemplateAction.ParsedActionIsGood` | crates/rekuiper-connectors/src/data_template.rs:579-656 | every action the parser returns is such an action |
| `TemplateAction.EndIsAKeyword` | crates/rekuiper-connectors/src/data_template.rs:584-587 | failing input: a pipeline that calls a function named `end` |
| `TemplateAction.KeywordsHideTheRest` | crates/rekuiper-connectors/src/data_template.rs:584-605 | `end`, and `else` without `if`, read the same whatever follows them |
| `TemplateAction.OnlyVariablesCount` | crates/rekuiper-connectors/src/data_template.rs:606-656 | whatever stands before the first `:=`, only its variables count, in order: for `range` one or two, for an assignment all |
| `TemplateAction.AssignmentNeedsAVariable` | crates/rekuiper-connectors/src/data_template.rs:630-656 | a `:=` without a variable before it is refused |
| `TemplateBlock.ParsesExactlyFlattenings` | crates/rekuiper-connectors/src/data_template.rs:658-826 | the top-level parser returns a tree if and only if the items are its flattening: acceptance of precisely the well-nested lists, with a unique tree |
| `TemplateBlock.BlockRoundTrip` | crates/rekuiper-connectors/src/data_template.rs:658-820 | a flattened block in front of whatever may follow it parses to the block and stops there |
| `TemplateBlock.BlockIsFlattened` | crates/rekuiper-connectors/src/data_template.rs:658-820 | what a block parsed from is its flattening, and what follows may follow a block |
| `TemplateBlock.TemplateRoundTripIff` | crates/rekuiper-connectors/src/data_template.rs:579-826 | a tree survives printing down to tokens and parsing if and only if it is well nested with printable actions |
| `TemplateBlock.ParsedTemplateIsGood` | crates/rekuiper-connectors/src/data_template.rs:822-826 | every accepted template gives such a tree, whose printed form stands for the same tree |
| `TemplateBlock.ReadBlock` | crates/rekuiper-connectors/src/data_template.rs:658-820 | the item loop, parsing each action when it is reached |
| `TemplateBlock.ReadNode` | crates/rekuiper-connectors/src/data_template.rs:665-811 | one item with the blocks it opens |
| `TemplateBlock.ReadBranch` | crates/rekuiper-connectors/src/data_template.rs:702-706 | one else-if with its block |
| `TemplateBlock.ReadChain` | crates/rekuiper-connectors/src/data_template.rs:694-743 | the loop after the first branch of an if |
| `TemplateBlock.ReadOtherwise` | crates/rekuiper-connectors/src/data_template.rs:707-732 | an optional else block and the end |
| `TemplateBlock.ReadTemplate` | crates/rekuiper-connectors/src/data_template.rs:822-826 | the whole template after scanning |
| `Jpeg.ChunkInvariance` | crates/rekuiper-connectors/src/video.rs:175-236 | every way of cutting a stream no longer than the cap into chunks gives the frames of one call on it all |
| `Jpeg.SplitAppend` | crates/rekuiper-connectors/src/video.rs:175-236 | frames of `a + b` are those of `a`, then those of the kept bytes followed by `b` |
| `Jpeg.SplitReads` | crates/rekuiper-connectors/src/video.rs:175-236 | every stream is SOI-free garbage and the splitter's frames in turn, then a tail that ends in the residue |
| `Jpeg.ReadingIsUnique` | crates/rekuiper-connectors/src/video.rs:175-236 | however a stream is read as garbage, frames and tail, the frames are those the splitter cuts |
| `Jpeg.FramesAreJpegs` | crates/rekuiper-connectors/src/video.rs:173-236 | only 0xFF 0xD8 up to the first 0xFF 0xD9 is cut out, and after bytes without a start such a frame is cut out whole and first |
| `Jpeg.BufferStays` | crates/rekuiper-connectors/src/video.rs:191-231 | what stays: at most 20 MiB, a last 0xFF of bytes without a start, or the frame that began |
| `Jpeg.KeptWithinCap` | crates/rekuiper-connectors/src/video.rs:175-236 | the buffer never exceeds the cap between reads |
| `Jpeg.FramesUnaffectedIff` | crates/rekuiper-connectors/src/video.rs:473-498 | the frames are those of the whole stream if and only if every chunk that ends inside one of them ends at most `cap` bytes after its start |
| `Jpeg.LongFramesDependOnReads` | crates/rekuiper-connectors/src/video.rs:473-498 | past the cap the reads matter: a frame four bytes over 20 MiB survives reads of 16384 bytes each and is lost if one more byte is delivered before them |
| `Jpeg.StreamBuffer.SplitJpegs` | crates/rekuiper-connectors/src/video.rs:175-236 | the draining loop leaves the frames and residue of the specification, capped |
| `Jpeg.StreamBuffer.Feed` | crates/rekuiper-connectors/src/video.rs:473-498 | one turn of the read loop: append, then split |
| `OpcUa.TextSkips` | crates/rekuiper-connectors/src/opcua.rs:830-844 | skipping a string consumes exactly its encoding, null included |
| `OpcUa.StringTableSkips` | crates/rekuiper-connectors/src/opcua.rs:847-859 | skipping a string table consumes exactly its encoding |
| `OpcUa.NodeIdSkips` | crates/rekuiper-connectors/src/opcua.rs:862-917 | skipping a NodeId consumes exactly its encoding, for all six kinds with URI and server index |
| `OpcUa.ExtensionObjectSkips` | crates/rekuiper-connectors/src/opcua.rs:920-932 | skipping an ExtensionObject consumes exactly its encoding |
| `OpcUa.DiagnosticInfoSkips` | crates/rekuiper-connectors/src/opcua.rs:794-827 | skipping a DiagnosticInfo consumes exactly its encoding, at any nesting depth |
| `OpcUaWire.StringSkips` | crates/rekuiper-connectors/src/opcua.rs:830-844 | a string is skipped with its signed length, and refused past the end |
| `OpcUaWire.ShortStringsFail` | crates/rekuiper-connectors/src/opcua.rs:830-851 | fewer than four bytes hold no string and no table |
| `OpcUaWire.TableSkips` | crates/rekuiper-connectors/src/opcua.rs:847-859 | a table is a signed count and strings |
| `OpcUaWire.RefusedHeaders` | crates/rekuiper-connectors/src/opcua.rs:904-932 | NodeId kinds from 6 on and ExtensionObject bodies from 3 on are refused |
| `OpcUa.SkipStringAt` | crates/rekuiper-connectors/src/opcua.rs:830-844 | the new position leaves what the skip leaves and never passes the buffer end |
| `OpcUa.SkipStringTableAt` | crates/rekuiper-connectors/src/opcua.rs:847-859 | the loop over strings, likewise |
| `OpcUa.SkipDiagnosticFieldsAt` | crates/rekuiper-connectors/src/opcua.rs:801-821 | the loop over the Int32 bits, the string and the status, likewise |
| `OpcUa.SkipDiagnosticInfoAt` | crates/rekuiper-connectors/src/opcua.rs:794-827 | the whole structure with its nested one, likewise |
| `OpcUaValues.ScalarReads` | crates/rekuiper-connectors/src/opcua.rs:1004-1143 | decoding an encoded scalar of any supported type gives its value and the bytes after it |
| `OpcUaWire.OneByteCodes` | crates/rekuiper-connectors/src/opcua.rs:1015-1030 | type codes 2 and 3 read one byte, with and without sign |
| `OpcUaWire.TwoByteCodes` | crates/rekuiper-connectors/src/opcua.rs:1031-1046 | codes 4 and 5 read two bytes, low first |
| `OpcUaWire.FourByteCodes` | crates/rekuiper-connectors/src/opcua.rs:1047-1085 | codes 6, 7 and 10 read four |
| `OpcUaWire.EightByteCodes` | crates/rekuiper-connectors/src/opcua.rs:1063-1121 | codes 8, 9, 11 and 13 read eight |
| `OpcUaWire.NullAndBoolean` | crates/rekuiper-connectors/src/opcua.rs:1006-1014 | code 0 reads nothing, and code 1 a byte of which only zero is false |
| `OpcUaWire.TextCodes` | crates/rekuiper-connectors/src/opcua.rs:1095-1141 | codes 12 and 15 read a signed length and as many bytes; below zero null and empty; past the end refused |
| `OpcUaWire.RefusedScalars` | crates/rekuiper-connectors/src/opcua.rs:1004-1143 | other codes and too few bytes are refused, inside arrays too |
| `OpcUaValues.VariantReads` | crates/rekuiper-connectors/src/opcua.rs:1168-1206 | an encoded scalar decodes to its value and an array to its last element |
| `OpcUaWire.ScalarVariants` | crates/rekuiper-connectors/src/opcua.rs:1168-1206 | a first byte below 128 is a scalar's type code on six bits |
| `OpcUaWire.ArrayVariants` | crates/rekuiper-connectors/src/opcua.rs:1172-1190 | from 128 on a signed count follows, at or below zero nothing, and as many elements |
| `OpcUaWire.DimensionedVariants` | crates/rekuiper-connectors/src/opcua.rs:1191-1203 | and from 192 on the dimensions, four bytes each after a signed count |
| `OpcUaValues.ValueReads` | crates/rekuiper-connectors/src/opcua.rs:1156-1261 | a DataValue with any optional fields gives value, status and source timestamp; the swapped skips are harmless |
| `OpcUaValues.ParsingInvertsEncoding` | crates/rekuiper-connectors/src/opcua.rs:937-1263 | for every well-formed response header and list of DataValues, parsing gives each name what was encoded for it |
| `OpcUaValues.BoundAt` | crates/rekuiper-connectors/src/opcua.rs:1252-1259 | each name holds the value of its last occurrence, its own when names are distinct |
| `OpcUaValues.CompactIsReadIff` | crates/rekuiper-connectors/src/opcua.rs:967-1002 | a compact response is located and read as what it encodes if and only if its bytes do not also form a standard header with the same count, for which twelve are needed |
| `OpcUaValues.CompactIsMisread` | crates/rekuiper-connectors/src/opcua.rs:967-1002 | failing inputs: for every value there is a compact response with one empty value that is read as that value |
| `OpcUaValues.FaultsAreErrors` | crates/rekuiper-connectors/src/opcua.rs:937-965 | short bodies, service faults and bad service results are errors whatever follows |
| `OpcUaWire.StandardComesFirst` | crates/rekuiper-connectors/src/opcua.rs:967-1002 | a standard header is tried first, then a count right after the prefix |
| `OpcUaWire.RefusedResponses` | crates/rekuiper-connectors/src/opcua.rs:937-1002 | no names or no body is nothing to read; short bodies and wrong counts are refused |
| `OpcUaValues.ReadElementsLoop` | crates/rekuiper-connectors/src/opcua.rs:1184-1189 | the loop over array elements keeps the last |
| `OpcUaValues.ReadVariantAt` | crates/rekuiper-connectors/src/opcua.rs:1168-1206 | the variant branch, array and dimensions included |
| `OpcUaValues.ParseReadResponse` | crates/rekuiper-connectors/src/opcua.rs:1146-1263 | the loop over nodes computes the parse |
| `SqlPoll.ExactlyOnce` | crates/rekuiper-connectors/src/sql.rs:951-999 | for any index columns in which rows are comparable, over every run of polls, failed polls, deletions and insertions above the index, whatever the limit: emission strictly ascends in every column and every row above the start is emitted or still above the index |
| `SqlPoll.ExactlyOnceUnlimited` | crates/rekuiper-connectors/src/sql.rs:259-310 | without a limit, for any rows and any non-empty index, over every such run: rows are emitted in the order of the query, none twice, and every row above the start is emitted or still above the index |
| `SqlPoll.StepKeepsUnlimitedInvIff` | crates/rekuiper-connectors/src/sql.rs:951-999 | without a limit a step keeps that invariant if and only if it does not insert an unseen row at or below the index |
| `SqlPoll.DistinctIsChain` | crates/rekuiper-connectors/src/sql.rs:274-289 | with one index column, distinct values make rows comparable |
| `SqlPoll.StepKeepsInvIff` | crates/rekuiper-connectors/src/sql.rs:951-999 | a step keeps that invariant if and only if it does not insert an unseen row at or below the index |
| `SqlPoll.ShortPollDrains` | crates/rekuiper-connectors/src/sql.rs:259-296 | a poll not cut off by the limit leaves no row of the table behind |
| `SqlPoll.PassedRowsAreLost` | crates/rekuiper-connectors/src/sql.rs:274-280 | with any index columns, a row not above the index is emitted in no later run |
| `SqlPoll.NothingLostIff` | crates/rekuiper-connectors/src/sql.rs:274-310 | no poll, whatever the limit and the database's choice, can put a row out of reach unreturned if and only if of any two rows above the index one is below the other in every index column |
| `SqlPoll.IncomparableRowsAreLost` | crates/rekuiper-connectors/src/sql.rs:274-310 | otherwise a limit and an answer that lose a row |
| `SqlPoll.TwoColumnsLoseRows` | crates/rekuiper-connectors/src/sql.rs:274-289 | failing input: with two index columns a row later in the order is passed over for good |
| `SqlPoll.AdvanceIndex` | crates/rekuiper-connectors/src/sql.rs:302-310 | the nested loops move the index in place, last row winning |
| `SqlPoll.IndexFollowsRows` | crates/rekuiper-connectors/src/sql.rs:302-310 | each index column goes to its value in the last row that has it, and stays if none does |
| `SqlPoll.SqlSource.PollOnce` | crates/rekuiper-connectors/src/sql.rs:951-999 | a poll emits its rows and moves the index; a failed one does neither |
| `SqlInsert.BatchRefinesSingles` | crates/rekuiper-connectors/src/sql.rs:532-671 | with configured fields a batch is refused exactly when single inserts are, and otherwise inserts the same rows in the same order, placeholder n bound to value n |
| `SqlInsert.FailureLeavesAPrefix` | crates/rekuiper-connectors/src/sql.rs:573-671 | stopping after any number of statements leaves exactly the records of the first chunks |
| `SqlInsert.BatchesStayInLimits` | crates/rekuiper-connectors/src/sql.rs:581-582 | every statement has at most 256 rows, and at most 900 parameters if there are at most 900 fields |
| `SqlInsert.ChunkInserts` | crates/rekuiper-connectors/src/sql.rs:585-655 | a multi-row statement in either placeholder style inserts one row a record |
| `SqlInsert.BatchStoresValues` | crates/rekuiper-connectors/src/sql.rs:573-671 | cell by cell: row `i` of the executed batch has value `v` in a column exactly if record `i` has `v` under that field, and null otherwise |
| `SqlInsert.BatchIsRefusedIff` | crates/rekuiper-connectors/src/sql.rs:532-585 | a batch with configured fields is refused exactly if it is not empty and the scheme, the table or a field name is bad |
| `SqlInsert.NamesAre` | crates/rekuiper-connectors/src/sql.rs:381-393 | a name is letters, digits and underscores, at least one, not a digit first |
| `SqlInsert.PlaceholdersAre` | crates/rekuiper-connectors/src/sql.rs:638-653 | SQLite gets question marks and PostgreSQL numbers, in either case null written out |
| `SqlInsert.OwnColumns` | crates/rekuiper-connectors/src/sql.rs:441-528 | without configured fields a record names exactly its keys that do not start with two underscores, with their values |
| `SqlInsert.ChunkSizes` | crates/rekuiper-connectors/src/sql.rs:581-582 | how many records go into a statement, for some numbers of fields |
| `SqlInsert.UnsetFieldsAgreeIff` | crates/rekuiper-connectors/src/sql.rs:545-579 | without configured fields the two agree if and only if all records have the same fields |
| `SqlInsert.MissingFieldsBecomeNull` | crates/rekuiper-connectors/src/sql.rs:545-579 | failing input: two records with different fields |
| `SqlInsert.BuildRow` | crates/rekuiper-connectors/src/sql.rs:638-653 | the column loop with its running parameter number |
| `SqlInsert.BuildChunk` | crates/rekuiper-connectors/src/sql.rs:631-655 | the record loop of a chunk |
| `SqlInsert.BuildBatch` | crates/rekuiper-connectors/src/sql.rs:582-662 | the loop over chunks |
| `Mqtt.PickedIff` | crates/rekuiper-connectors/src/codec.rs:1391-1407 | the masked reader succeeds on an object if and only if every member it keeps parses; skipped ones are not looked into |
| `Mqtt.PickedIsProjected` | crates/rekuiper-connectors/src/codec.rs:1391-1407 | picking members one by one gives the projection of the whole object, repeated names included |
| `Mqtt.JsonRowsIff` | crates/rekuiper-connectors/src/mqtt.rs:705-763 | the rows are those of the general parser, an object's projected by the mask, if and only if there is no mask, no object, a kept value that does not parse, or else all members parse and only white space follows; otherwise the payload is accepted although the general parser refuses it |
| `Mqtt.GeneralRows` | crates/rekuiper-connectors/src/mqtt.rs:735-763 | an object is one row; an array a row for each item, or refused if one is no object; anything else is refused |
| `Mqtt.PickedFields` | crates/rekuiper-connectors/src/codec.rs:1391-1407 | a masked row has exactly the members named in the mask, `error` and `__error`, each with its last value |
| `Mqtt.MetaIsAttached` | crates/rekuiper-connectors/src/mqtt.rs:787-796 | metadata is the value under `__meta__` in every row, and the rest of the row stays |
| `Mqtt.OtherFormats` | crates/rekuiper-connectors/src/mqtt.rs:764-786 | binary payloads are one row with the text under `self`; delimited and protobuf ones a row of their decoder; EdgeX events their readings with the merged metadata, incoming over own |
| `Mqtt.MetaFields` | crates/rekuiper-connectors/src/mqtt.rs:802-808 | metadata is attached if asked for: topic, quality of service and packet id, the numbers in decimal |
| `Mqtt.SkippedValueIsNotChecked` | crates/rekuiper-connectors/src/codec.rs:1391-1407 | failing input: with a mask, an object is accepted whose skipped member is no value |
| `Mqtt.TrailingBytesAreAccepted` | crates/rekuiper-connectors/src/mqtt.rs:705-733 | failing input: with a mask, a closing brace after the object is accepted |
| `Mqtt.MergedMetaSurvivesIff` | crates/rekuiper-connectors/src/mqtt.rs:784-796 | an EdgeX row keeps the merged metadata if and only if there is no incoming metadata or it names all of the event's own |
| `Mqtt.DeviceNameIsLost` | crates/rekuiper-connectors/src/codec.rs:1198-1211 | failing input: the device name of an event is overwritten when the topic is attached |
| `Mqtt.Source.DecodeObject` | crates/rekuiper-connectors/src/codec.rs:1391-1407 | the loop over members keeps exactly the picked ones |
| `Mqtt.Source.PushEvent` | crates/rekuiper-connectors/src/codec.rs:1198-1211 | merges the metadata and pushes a row if there are readings |
| `Mqtt.LongestIsUnique` | crates/rekuiper-connectors/src/mqtt.rs:926-938 | there is one longest prefix of publishes taken while the batch is below the limit |
| `Mqtt.DrainStops` | crates/rekuiper-connectors/src/mqtt.rs:926-938 | each event taken found the batch below the limit, and the next is no publish or finds it full |
| `Mqtt.DrainsCompose` | crates/rekuiper-connectors/src/mqtt.rs:916-939 | two drains in a row give the rows and the refusals of exactly the events they took, in order, and the second stops only at a full batch or where no publish is next |
| `Mqtt.Source.PushItems` | crates/rekuiper-connectors/src/mqtt.rs:744-758 | the array loop adds all objects, or nothing if one item is not an object |
| `Mqtt.Source.PushJson` | crates/rekuiper-connectors/src/mqtt.rs:705-763 | the JSON branch with its fast path adds the decoded rows or nothing |
| `Mqtt.Source.DecodePayloadInto` | crates/rekuiper-connectors/src/mqtt.rs:695-798 | a payload adds its rows, each with the metadata, or leaves the batch as it was |
| `Mqtt.Source.LookUpMeta` | crates/rekuiper-connectors/src/mqtt.rs:833-856 | metadata by way of the cache is what would be computed afresh |
| `Mqtt.Source.PushDecoded` | crates/rekuiper-connectors/src/mqtt.rs:824-866 | one publish adds its rows, or none and one exception |
| `Mqtt.Source.Drain` | crates/rekuiper-connectors/src/mqtt.rs:916-939 | takes exactly the longest such prefix, adds the rows of repeated single decoding in arrival order, and counts each refused payload once |

## Left out

- Sockets, TLS, HTTP, broker clients, FFmpeg, files, SQLite, timers and `select!` loops: only the bytes, rows and steps they deliver are modelled.
- The command line, servers, dashboard, configuration loading and documentation: thin wrappers.
- The SQL parser, evaluator, windows and the stream bus: not part of this model.
- JSON text, base64, UTF-8 and serde: parameters with laws. OPC UA strings stay bytes, so lossy replacement of invalid UTF-8 is not modelled there; in protobuf it is a parameter.
- Floating-point arithmetic: register scaling, `div` and `printf` in templates.
- The template scanner and evaluator: the parser starts from raw text and token lists, and the tree is not evaluated.
- The Modbus client is a state machine on values, not a class: update in place of its socket field is not captured, while every interleaving with its peer is. Writing registers and RTU framing over partial reads are left out.
- Checksum words are sequences of sixteen bits rather than integers.
- The rule manager's counters, dead-letter queue, timestamps, messages and checkpoints; the caller's function, sorting and deduplication in `update_rule_tags` are one new tag list; cancelling an operation between its store write and its memory update.
- Locks of the rule manager appear as atomic steps; each class method runs one operation from lock to unlock, while the state machine interleaves handle attachment between its steps.
- `MemKvStore`, transactions and the keyed-state cache: the store is a map.
- SQL text: queries and statements are their clauses, columns, placeholders and bound values; template queries, identifier checks of the source and JSON-to-bind conversion are left out.
- EdgeX, Influx, TDengine and IoTDB formats, Parquet inference, image pruning, latency tracking and table rows: mostly easy members.
- OPC UA requests, writes and matching replies to request handles; null arrays (encoded with length -1) are read like empty ones and have no encoder here.
- `DelimitedCodec::decode` beyond splitting: number parsing of fields.
- `.proto` schema parsing: schemas are given.
