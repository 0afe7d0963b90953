# RoboCRISP in Dafny

A model of the RoboCRISP protocol stack: what its nodes put on the wire, what they take off it, and
what its concurrent parts keep under every interleaving. Code that the repository writes as
expressions is written as functions here, code that updates objects in place as classes whose methods
are tied to those functions, and code whose point is concurrency as machines of atomic steps.

- **Error detection** (`Register`, `Crc32`, `ErrorDetection`). The table-driven CRC-32 of ITU-T V.42
  (section 8.1.1.6.2) with its 256 literal entries, equal to bit-serial division on all inputs; its
  algebra; detection of every burst of at most 32 bits, and a 33-bit one that goes unnoticed.
- **Codec** (`Bytes`, `Declarations`, `NamedRecords`, `Configurations`, `Comparing`, `Layouts`, `Reencoding`,
  `Truncations`, `Building`, `Emission`, `Buffers`, `Objects`). Configuration, module, input, sensor and declaration,
  bit-packed fields included. `Layouts` says what stands where on the wire, and `Comparing` that records compare
  equal exactly when they go out as the same bytes, but for the two fields that the program does not compare. For
  every level: decoding what was encoded, followed by anything, gives back what compares equal and
  stops at what follows. `Canonical...` functions say what exactly the peer holds; `Same...`
  predicates are the program's own `operator==`. Conversely, bytes on which no read falls short are the
  encoding of what they decode to. On buffers, decoding is proved on arbitrary bytes and encoding on any room.
- **Module controls** (`InputMasks`, `ModuleControls`, `ControlCodec`, `ControlObjects`). The bitmask,
  the sorted value list and the module it is decoded against.
- **Messages and framing** (`Messages`, `Dispatching`, `Receiving`, `Transceiving`). Headers, bodies,
  checksums, and the receive loop, which decodes control messages against the node's configuration as it
  dispatches them. On every byte stream the loop dispatches exactly the frames of the bytes it consumed,
  however the stream arrives in pieces; of what a peer sends it dispatches, in order, everything before the
  first message it cannot dispatch.
- **Both nodes together** (`EndToEnd`). The configuration goes to the peer; a control built there on the
  decoded copy comes back and is decoded against the original with its meaning intact.
- **Handshake, halting, queue, send loop** (`Handshakes`, `Halting`, `SharedQueues`, `SendLoops`, and the
  last three joined in `Shutdowns`). State machines over any number of steps in any order, each with an inductive invariant.
- **Periodic actions** (`Slots`, `Scheduling`) and the growable array (`SArrays`).

Assertions are taken as enabled. Where the program would fail one or step outside an array, the model
returns `AssertionFailed` or `OutOfBounds`. Times, sockets and thread scheduling are the choice of the
next step; roles, versions, protocols, message contents and ids are arbitrary.

Where the program does less than its comments or names promise, the model follows the program, and the
exact condition is proved:

- `next_module_id` is not restored by decoding (`Building.AddAfterDecode`).
- `header.length` wraps at 16 bits (`Messages.LengthFieldLimit`).
- A received SYNC cannot be encoded again (`Messages.ReencodeReceived`).
- `clear` refuses while values are set, but nothing refuses a value set on a clear control: it does not
  travel (`ControlCodec.ClearRoundTrip`), and such a control cannot be compared
  (`ControlCodec.ClearControlComparison`, `ControlObjects.SetAfterClear`).
- A message that its receiver cannot dispatch ends the receive loop: ERROR, SENSOR_DATA, and a control whose
  values are for inputs that the receiver's configuration does not have (`Receiving.StreamFraming`,
  `ControlCodec.DecodesIff`).
- Encoding an array value writes no element count, and decoding reads one: array values do not arrive
  (`ControlCodec.ValueArrivesIff`).
- Encoding reports success although a header, a name or parts of a message did not fit
  (`Emission.ModuleSuccess`, `Emission.ConfigurationSuccess`, `Emission.ControlSuccess`, `Emission.MessageEmitted`).
- Reading an input that was never set inserts a zero value (`ControlObjects.ControlObject.Get`).
- A successful handshake does not always stop the halt timer: it can still halt a node in sync exactly when its
  handler is already queued, or the ACK was handled before `launch` had set the timer
  (`Handshakes.TimerHaltsIff`). Both happen (`Handshakes.LateAckIsPossible`, `Handshakes.EarlyAckIsPossible`).
- `stopped` can be taken back (`Halting.StoppedTakenBack`, `Halting.StoppedFlickers`), and a consumer between
  the lock-free test of `next` and its mutex may go to sleep after `halt`, exactly when nobody was counted as
  waiting (`SharedQueues.HaltMayMissConsumer`, `SharedQueues.ConsumerSleepsThroughHalt`).
- Between two armings of a slot an action is called at most once exactly when it has no more than one handler
  or wait left (`Slots.AtMostOneCallIff`), and it may have two (`Slots.LateHandlerCallsTwice`).
- Assigning an `SArray` to itself empties it (`SArrays.SArray.Assign`).

## Model

| member | source | states |
|---|---|---|
| `Crc32.UpdateCrc32` | src/util/checksum.cc:47-58 | the do-while loop leaves the register that bit-serial division of the bytes leaves, from every starting register |
| `Crc32.ComputeCrc32` | src/util/checksum.cc:64-67 | the checksum is the complement of bit-serial division started from all ones |
| `Crc32.CheckValue` | src/util/checksum.cc:8-67 | the digits 1 to 9 have the checksum 0xcbf43926 |
| `Crc32.UpdateIsSerial` | src/util/checksum.cc:47-58 | table-driven and bit-serial registers agree on every byte string and starting register |
| `Register.TableCorrect` | src/util/checksum.cc:8-42 | each of the 256 literal entries is eight register steps of its index |
| `Register.TableStepIsShift8` | src/util/checksum.cc:55 | one pass of the loop is eight bit steps of the register with the byte added |
| `Register.TableStepLinear` | src/util/checksum.cc:55 | one pass is linear in register and byte together |
| `Register.UnshiftShift` | src/util/checksum.cc:47-58 | the register step has a left inverse, so it loses nothing |
| `Register.ShiftUnshift` | src/util/checksum.cc:47-58 | the same inverse from the other side: the step is a bijection |
| `Crc32.UpdateConcat` | src/util/checksum.cc:47-58 | running over a concatenation is composition |
| `Crc32.UpdateLinear` | src/util/checksum.cc:47-58 | update(c^d, a^b) = update(c, a) ^ update(d, b) for equal lengths |
| `Crc32.ChecksumCombine` | src/util/checksum.cc:64-67 | the checksum of a concatenation follows from the two checksums and the second length alone |
| `ErrorDetection.BurstDetected` | src/util/checksum.cc:47-67 | strings of one length that differ, but only inside 32 consecutive bits at any bit position, leave different registers |
| `ErrorDetection.ChecksumDetectsBurst` | src/util/checksum.cc:64-67 | the same for the checksum |
| `ErrorDetection.BurstBoundIsSharp` | src/util/checksum.cc:47-67 | 32 cannot be raised: a 33-bit difference, the generator itself, goes unnoticed from every register |
| `ErrorDetection.ResidueIffChecksum` | src/util/checksum.cc:64-67 | message and four trailing bytes reach one fixed residue exactly when the trailer is the checksum |
| `ErrorDetection.TrailerDetectsBurst` | src/util/checksum.cc:64-67 | a burst of at most 32 bits over message and trailer together makes them disagree |
| `Buffers.MemoryEncodeBuffer.constructor` | src/comms/Buffer.cc:26-31 | a new buffer is empty, with the given room |
| `Buffers.MemoryEncodeBuffer.Write` | src/comms/Buffer.cc:50-58 | all of the bytes are appended if they fit, otherwise nothing changes |
| `Buffers.DecodeBuffer.constructor` | include/crisp/comms/Buffer.hh:36-49 | reading starts at the given offset; the buffer is fit to be read exactly when that is not past the end |
| `Buffers.DecodeBuffer.Read` | include/crisp/comms/Buffer.hh:51-57 | all of the bytes asked for are taken from the front of what is left if they are there, otherwise nothing changes |
| `Declarations.HeaderRoundTrip` | include/crisp/comms/DataDeclarationBase.hh:341-387 | the bit-packed three bytes give back type, width, flags and array-size width |
| `Declarations.HeaderLayout` | include/crisp/comms/DataDeclarationBase.hh:341-379 | the three header bytes, least significant first, are the fields 6, 5, 1, 1, 1, 1, 1 and 8 bits wide in order from the lowest bit |
| `NamedRecords.SensorLayout` | include/crisp/comms/Sensor.hh:99-101 | the first two bytes, least significant first, are 10 bits of id, 5 of type and 1 of mode from the lowest bit |
| `Layouts.TailLayout` | include/crisp/comms/DataDeclarationBase.hh:91-106 | the present bounds stand one after the other, neutral value, minimum, maximum, each as wide as the type |
| `Truncations.ShortTail` | include/crisp/comms/DataDeclarationBase.hh:153-169 | a tail of which not all is there is not read at all, even where a bound would fit |
| `Layouts.InputLayout` | include/crisp/comms/decl-defn-macros.hh:103-123 | byte by byte: id, name length, packed declaration, bounds, name |
| `Layouts.SensorRecordLayout` | include/crisp/comms/decl-defn-macros.hh:103-123 | byte by byte: packed id, type and mode, name length, packed declaration, bounds, name |
| `Declarations.TailRoundTrip` | include/crisp/comms/DataDeclarationBase.hh:91-106 | header and tail give back the declaration, whatever follows, and decoding stops there |
| `Declarations.CanonicalDetermines` | src/comms/DataDeclaration.cc:13-21 | declarations with the same decoded form compare equal |
| `Declarations.CanonicalIsSame` | src/comms/DataDeclaration.cc:13-21 | a declaration compares equal to its decoded form, and decoding adds nothing the second time |
| `RecordTranscoding.EncodeTailTo` | include/crisp/comms/DataDeclarationBase.hh:91-106 | the bounds that are present go out in order until one does not fit, which is reported |
| `RecordTranscoding.DecodeTailFrom` | include/crisp/comms/DataDeclarationBase.hh:151-169 | on any bytes, the tail is filled as the value-level decoder says; too few bytes for all bounds change nothing |
| `NamedRecords.InputRoundTrip` | include/crisp/comms/decl-defn-macros.hh:103-147 | an input comes back whole, whatever follows, and its encoding has the announced size |
| `NamedRecords.SensorRoundTrip` | include/crisp/comms/decl-defn-macros.hh:103-147 | likewise a sensor |
| `NamedRecords.SizesWithoutName` | include/crisp/comms/decl-defn-macros.hh:70-101 | without a name no letters are written; the announced size of a sensor allows for that, and that of an input does not |
| `NamedRecords.CanonicalInputDetermines` | include/crisp/comms/ModuleInput.hh:34-39 | inputs with the same decoded form compare equal |
| `NamedRecords.CanonicalInputIsSame` | include/crisp/comms/ModuleInput.hh:34-39 | an input compares equal to its decoded form |
| `NamedRecords.CanonicalSensorDetermines` | include/crisp/comms/Sensor.hh:47-62 | sensors with the same decoded form compare equal |
| `NamedRecords.CanonicalSensorIsSame` | include/crisp/comms/Sensor.hh:47-62 | a sensor compares equal to its decoded form |
| `Comparing.DeclComparison` | src/comms/DataDeclaration.cc:13-21 | declarations have equal encodings exactly when they compare equal and agree in array flag and array-size width, which are not compared |
| `Comparing.InputComparison` | include/crisp/comms/ModuleInput.hh:34-39 | inputs have equal encodings exactly when they compare equal and agree in the two fields that are not compared |
| `Comparing.SensorComparison` | include/crisp/comms/Sensor.hh:47-62 | likewise sensors |
| `RecordTranscoding.EncodeInputTo` | include/crisp/comms/decl-defn-macros.hh:103-126 | the whole input is appended exactly when there is room for it; otherwise nothing is written |
| `RecordTranscoding.DecodeInputFrom` | include/crisp/comms/decl-defn-macros.hh:128-147 | on any bytes, the input and the rest are those of the value-level decoder |
| `RecordTranscoding.EncodeSensorTo` | include/crisp/comms/decl-defn-macros.hh:103-126 | the whole sensor is appended exactly when there is room for it; otherwise nothing is written |
| `RecordTranscoding.DecodeSensorFrom` | include/crisp/comms/decl-defn-macros.hh:128-147 | on any bytes, the sensor and the rest are those of the value-level decoder |
| `Records.ListsDelimit` | src/comms/Module.cc:221-243 | records that mark their own end make lists that do |
| `Configurations.ModuleRoundTrip` | src/comms/Module.cc:212-291 | decoding an encoded module, into any module, rebuilds it and stops exactly where it ends |
| `Configurations.CanonicalModuleIsSame` | src/comms/Module.cc:179-197 | a module compares equal to its decoded form, which is again well formed |
| `Configurations.CanonicalModuleDetermines` | src/comms/Module.cc:179-197 | modules with the same decoded form compare equal |
| `Configurations.ConfigurationRoundTrip` | src/comms/Configuration.cc:87-118 | decoding an encoded configuration followed by anything succeeds, gives a configuration that compares equal, and stops at what follows |
| `Bytes.LowEightBits` | include/crisp/comms/Configuration.hh:78-90 | a count kept in a byte is the count modulo 256 |
| `Configurations.ConfigurationCodeIsPrefixFree` | src/comms/Configuration.cc:61-118 | streams that are equal and start with two encodings start with equal configurations and go on equally |
| `Comparing.ModuleComparison` | src/comms/Module.cc:179-197 | modules have equal encodings exactly when they compare equal and their declarations agree in the fields that are not compared |
| `Comparing.ConfigurationComparison` | src/comms/Configuration.cc:61-77 | so for configurations: comparing equal and going out as the same bytes are one and the same, but for those two fields |
| `Layouts.ModuleLayout` | src/comms/Module.cc:212-251 | byte by byte: id, counts of inputs and sensors, name length, name; and the length of it all |
| `Layouts.InputInModule` | src/comms/Module.cc:212-251 | each input stands behind the name and the inputs before it |
| `Layouts.SensorInModule` | src/comms/Module.cc:212-251 | each sensor stands behind all inputs and the sensors before it |
| `Layouts.ConfigurationLayout` | src/comms/Configuration.cc:87-99 | the number of modules, then each module behind those before it |
| `Truncations.ShortRecord` | include/crisp/comms/decl-defn-macros.hh:125-147 | without a whole header an input or a sensor is blank, and nothing is read |
| `Truncations.ShortName` | include/crisp/comms/decl-defn-macros.hh:65-71 | a name of which not all is there is left unfilled, and its bytes are read for what follows |
| `Truncations.BlankDeclaration` | include/crisp/comms/DataDeclarationBase.hh:252-265 | a blank declaration has every field at zero |
| `Truncations.ShortModule` | src/comms/Module.cc:159-177 | without a whole header a module is what reset leaves, and its name what its remaining length asks for |
| `Truncations.AfterReset` | src/comms/Module.cc:159-177 | reset empties the module and keeps its id; an owned name goes, with its length, and another stays |
| `Truncations.CountersAfterDecoding` | src/comms/Module.cc:254-290 | whatever the bytes, a decoded module owns its name exactly when it has one, and its counters go on where its last input and sensor end, in eight bits |
| `Truncations.ShortConfiguration` | src/comms/Configuration.cc:101-118 | a missing count is the one failure that is reported |
| `Objects.ModuleObject.constructor` | src/comms/Module.cc:27-38 | the null-constructed module |
| `Objects.ModuleObject.Named` | src/comms/Module.cc:76-100 | a new module has its name, no inputs and no sensors |
| `Objects.ModuleObject.Reset` | src/comms/Module.cc:159-176 | lists and counters are emptied; the name length is zeroed only with an owned name; the id stays |
| `Objects.ModuleObject.AddInput` | include/crisp/comms/Module.hh:108-117 | the input is appended with the next id and the counters move on |
| `Objects.ModuleObject.AddSensor` | include/crisp/comms/Module.hh:92-101 | the sensor is appended, the element the counter points at gets the next id, and the counters move on; a counter that points outside the array steps outside |
| `Objects.ModuleObject.FindInput` | include/crisp/comms/Module.hh:120-126 | the first input with that name, or past the end when no input has it |
| `Objects.ModuleObject.EncodedSize` | src/comms/Module.cc:199-210 | the size is the length of the encoding |
| `Objects.ModuleObject.Encode` | src/comms/Module.cc:212-251 | whatever the room, what is written and reported is what the value-level emission says |
| `Objects.ModuleObject.Decode` | src/comms/Module.cc:254-291 | on any bytes, short or bad ones too, fields and rest are those of the value-level decoder |
| `Objects.ConfigurationObject.constructor` | src/comms/Configuration.cc:13-17 | an empty configuration |
| `Objects.ConfigurationObject.AddModule` | include/crisp/comms/Configuration.hh:64-73 | a fresh module with the next id is appended and returned; the others stay |
| `Objects.ConfigurationObject.EncodedSize` | src/comms/Configuration.cc:79-86 | the size is the length of the encoding |
| `Objects.ConfigurationObject.Encode` | src/comms/Configuration.cc:87-99 | whatever the room, what is written and reported is what the value-level emission says |
| `Objects.ConfigurationObject.Decode` | src/comms/Configuration.cc:101-118 | on any bytes, result, contents and rest are those of the value-level decoder |
| `Emission.TailSuccess` | include/crisp/comms/DataDeclarationBase.hh:91-106 | encoding a tail reports success exactly when there is room for all of it, and then all of it is written |
| `Emission.ModuleSuccess` | src/comms/Module.cc:212-251 | the whole module is written exactly when there is room for it; success is reported exactly when inputs and sensors fit behind what fits of header and name |
| `Emission.NameLostUnnoticed` | src/comms/Module.cc:215-218 | so success can be reported for a module whose name was left out |
| `Emission.HeaderLostUnnoticed` | src/comms/Module.cc:212-218 | and a short name is written where the header did not fit |
| `Emission.ModuleOrder` | src/comms/Module.cc:212-251 | in any room: what fits of header and name, the inputs before the first that does not fit, and if they all did, the sensors likewise |
| `Emission.ConfigurationSuccess` | src/comms/Configuration.cc:87-99 | written whole exactly when there is room; success reported exactly when, module by module, inputs and sensors fit behind what fitted of what is before |
| `Emission.ModulesLostUnnoticed` | src/comms/Configuration.cc:87-99 | modules without inputs and sensors are left out with success reported, however many |
| `Emission.ControlSuccess` | src/comms/ModuleControl.cc:174-187 | the whole control is written exactly when there is room for it; success is reported exactly when its values fit behind what fits of the header |
| `Emission.MessageEmitted` | src/comms/Message.cc:136-164 | a message is written whole exactly when there is room for it, though success is reported in any case |
| `Emission.PartsLostUnnoticed` | src/comms/Message.cc:136-164 | part by part: a body that does not fit is left out and the checksum goes out straight behind the header |
| `Reencoding.TailBytes` | include/crisp/comms/DataDeclarationBase.hh:151-169 | a tail that is there is the encoding of what it decodes to |
| `Reencoding.InputBytes` | include/crisp/comms/decl-defn-macros.hh:103-147 | complete bytes of an input are the encoding of the well-formed input they decode to, and the rest |
| `Reencoding.SensorBytes` | include/crisp/comms/decl-defn-macros.hh:103-147 | likewise a sensor |
| `Reencoding.ModuleBytes` | src/comms/Module.cc:212-291 | likewise a module |
| `Reencoding.ReencodeDecoded` | src/comms/Configuration.cc:87-118 | when no read falls short and no bound is wider than its array, encoding the decoded configuration gives back the bytes consumed |
| `Reencoding.CompleteIffEncoding` | src/comms/Configuration.cc:87-118 | those byte streams are exactly the ones that start with the encoding of a well-formed configuration |
| `Building.AddInputDense` | include/crisp/comms/Module.hh:108-117 | adding an input appends it with its index as id, changes nothing else, and keeps ids dense exactly until the byte-sized counter wraps |
| `Building.AddSensorDense` | include/crisp/comms/Module.hh:92-101 | adding a sensor succeeds, appends it with its index as id and keeps ids dense exactly until the byte-sized counter wraps |
| `Building.AddModuleDense` | include/crisp/comms/Configuration.hh:64-73 | adding a module appends it with its index as id and keeps ids dense exactly until the byte-sized counter wraps |
| `Building.ApplyAdds` | include/crisp/comms/Configuration.hh:64-73 | one addition: a module with its name and nothing in it, or the input or sensor given, with its index as id, at the end of its module; nothing that was there changes |
| `Building.RunOnlyAdds` | include/crisp/comms/Configuration.hh:64-73 | over any run of additions names, ids, inputs and sensors that are there stay |
| `Building.RunKeepsSound` | include/crisp/comms/Configuration.hh:64-73 | after any run of adds within the limits, the configuration is well formed and ids are dense at every level |
| `Building.BuiltIsSound` | include/crisp/comms/Configuration.hh:64-73 | so is whatever is built from an empty configuration |
| `Building.DecodedModuleStaysDense` | src/comms/Module.cc:283-288 | decoding restores the input and sensor counters, so later adds get fresh ids |
| `Building.AddAfterDecode` | src/comms/Configuration.cc:101-118 | decoding does not restore the module counter: a module added afterwards has a free id exactly when there were no modules |
| `InputMasks.SameBits` | include/crisp/comms/ModuleControl.hh:156-169 | a mask is determined by its sixteen bits |
| `InputMasks.MaskIsBit` | src/comms/ModuleControl.cc:106-121 | input i has bit i, counted from the lowest |
| `Layouts.ControlLayout` | src/comms/ModuleControl.cc:174-187 | byte by byte: the module id, a byte for inputs 0 to 7 and one for 8 to 15, each from its lowest bit, and nothing more in the clear form |
| `Layouts.ValueInControl` | src/comms/ModuleControl.cc:174-187 | each value stands behind the header and the values before it |
| `ModuleControls.SortingAppendedIsInserting` | src/comms/ModuleControl.cc:156-164 | appending and sorting by id is insertion in order: any sorted permutation is that list |
| `ModuleControls.NewIsValid` | src/comms/ModuleControl.cc:30-43 | a new control keeps the invariant and says nothing |
| `ModuleControls.TouchKeepsValid` | src/comms/ModuleControl.cc:143-171 | `value_for` keeps mask, sorted list and module together, adding at most one zero value |
| `ModuleControls.SetKeepsValid` | include/crisp/comms/ModuleControl.hh:108-117 | `set` keeps the invariant and changes the meaning at its input only, low bytes first |
| `ModuleControls.HistoryKeepsValid` | include/crisp/comms/ModuleControl.hh:108-117 | after any history of `set`s the invariant holds and the control means what the history says |
| `ModuleControls.NumValuesIsLength` | include/crisp/comms/ModuleControl.hh:156-163 | the count of value bits is the length of the list |
| `ModuleControls.MeaningDetermines` | src/comms/ModuleControl.cc:143-171 | two controls of one module that say the same are the same, byte for byte |
| `ControlCodec.DecodesIff` | src/comms/ModuleControl.cc:190-215 | a control decodes exactly on a header cut short, the clear form, an empty mask, or a module that is there with every input of the mask; otherwise the assertion fails or memory outside the modules or inputs is read, as stated |
| `ControlCodec.ShortControl` | src/comms/ModuleControl.cc:190-197 | a header cut short leaves an empty control on the module that its first byte addresses, there or not |
| `ControlCodec.ValueArrivesIff` | src/comms/DataValue.cc:16-64 | what a value encodes to decodes to that value with nothing else touched exactly when its type is no array or has no width |
| `ControlCodec.ArrayArrives` | src/comms/DataValue.cc:16-32 | what decoding an array expects: its element count, low byte first, in as many bytes as an element has, then the elements; and what it makes of too few |
| `ControlCodec.SizesWrap` | src/comms/DataValue.cc:26-29 | an array whose bytes come to more than the address space wraps |
| `ControlCodec.PlainValueArrives` | src/comms/DataValue.cc:16-32 | other values are as wide as their type, or zeros without being read |
| `ControlCodec.ControlRoundTrip` | src/comms/ModuleControl.cc:174-215 | a control built on one module and decoded where another of the same layout has its id arrives whole, and decoding stops where the encoding does |
| `ControlCodec.ControlArrives` | src/comms/ModuleControl.cc:174-215 | the received control keeps the invariant on its own module and has the same input-to-bytes map |
| `ControlCodec.ClearRoundTrip` | src/comms/ModuleControl.cc:174-215 | the clear form carries its mask and no values, whether or not the receiver has the module |
| `ControlCodec.HistoriesEncodeAlike` | src/comms/ModuleControl.cc:174-187 | two histories encode to the same bytes exactly when they leave the same last value on every input |
| `ControlCodec.SameControlIffSameMeaning` | src/comms/ModuleControl.cc:88-103 | controls with values on one module compare equal exactly when they say the same |
| `ControlCodec.ClearControlComparison` | src/comms/ModuleControl.cc:88-103 | comparing a clear control with itself fails the assertion exactly when it carries values |
| `ControlCodec.ComparisonOutcome` | src/comms/ModuleControl.cc:88-103 | how a comparison comes out on any two controls: the failed assertion, reading past the values, true or false |
| `Comparing.PairComparison` | src/comms/ModuleControl.cc:229-235 | values on any two modules compare equal exactly when inputs, types and bytes go out the same, but for the fields that are not compared |
| `ControlObjects.ClearedIff` | src/comms/ModuleControl.cc:115-121 | a control in order can be cleared exactly when it has no values or is clear already, and exactly bit 15 and the input bit are added |
| `ControlObjects.WritingInNumbers` | src/comms/ModuleControl.cc:174-187 | writing values in any room: when it ends for want of room, when it is done, and when it reads outside |
| `ControlObjects.SetAfterClear` | src/comms/ModuleControl.cc:115-171 | such a control arises from clearing one input and setting another: its value is not encoded, and comparing it with itself fails; setting the cleared input changes nothing |
| `ControlObjects.SortById` | src/comms/ModuleControl.cc:161-163 | the library sort: a sorted permutation |
| `ControlObjects.ControlObject.constructor` | src/comms/ModuleControl.cc:30-43 | a control on a module, nothing set |
| `ControlObjects.ControlObject.Blank` | src/comms/ModuleControl.cc:21-27 | a control on no module |
| `ControlObjects.TouchesIsTouch` | src/comms/ModuleControl.cc:143-171 | with mask and list in step, what `value_for` may leave behind is one state only |
| `ControlObjects.ControlObject.GetNumValues` | include/crisp/comms/ModuleControl.hh:156-163 | the loop counts the set bits 0 to 14, and none on a clear control |
| `ControlObjects.ControlObject.ValueFor` | src/comms/ModuleControl.cc:143-171 | on any state: fails the assertion exactly without a module or for an input it does not count; else the bit and a zero value, sorted in, when the bit was clear, and the index of the value; on a control in order, only that input changes |
| `ControlObjects.ControlObject.Set` | include/crisp/comms/ModuleControl.hh:108-117 | on any state: fails as `value_for` does, steps outside when the value is wider than the one it overwrites, else overwrites its low bytes; on a control in order it succeeds for every input of the module, and the control then means what it meant with that input overlaid |
| `ControlObjects.ControlObject.Get` | include/crisp/comms/ModuleControl.hh:119-128 | on any state: fails as `value_for` does, else the value of the input; on a control in order, what was set last or zeros, which are then set |
| `ControlObjects.ControlObject.Clear` | src/comms/ModuleControl.cc:115-121 | refused while values are set; otherwise bit 15 and the bit of the input are added |
| `ControlObjects.ControlObject.EncodedSize` | src/comms/ModuleControl.cc:78-86 | the size is the length of the encoding when the values are as long as their types are wide, and three bytes and the widths in any case; a mask that counts more values than there are steps outside |
| `ControlObjects.ControlObject.Encode` | src/comms/ModuleControl.cc:174-187 | whatever the room and state, what is written and reported is what the value-level emission says; where values are missing or shorter than their types, it ends for want of room or steps outside |
| `ControlObjects.ControlObject.Decode` | src/comms/ModuleControl.cc:190-215 | on any bytes, the control and the rest, or the failed assertion or range error, are those of the value-level decoder |
| `ControlObjects.ControlObject.DecodeValueFrom` | src/comms/DataValue.cc:16-32 | a value of the declared width, for an array an element count and as many elements; zeros when the bytes are not there |
| `EndToEnd.ValuesSurvive` | src/comms/ModuleControl.cc:143-215 | set on the decoded copy by any history, encoded, decoded against the original: same module, invariant, and exactly the values of the history |
| `EndToEnd.ArrivalComparesEqual` | src/comms/ModuleControl.cc:88-103 | the control that arrives compares equal to the one that was sent, across the two configurations |
| `EndToEnd.ClearsSurvive` | src/comms/ModuleControl.cc:105-121 | likewise the clear form: the same inputs of the same module, no values |
| `EndToEnd.ClearReachesHome` | include/crisp/comms/bits/BasicNode.tcc:276-353 | the clear form too goes the whole way through framed and dispatched streams: exactly the inputs cleared on the copy, and no values |
| `EndToEnd.ControlReachesHome` | include/crisp/comms/bits/BasicNode.tcc:276-353 | the whole way through framed and dispatched streams, after any messages welcome at the receiver and before any at all |
| `EndToEnd.BodyArrives` | include/crisp/comms/bits/BasicNode.tcc:276-353 | a wrapped body that makes a welcome message arrives whole and in its place, after welcome messages and before any others |
| `Messages.LengthField` | include/crisp/comms/Message.hh:79-88 | for every message that can be constructed, the length field is the effective body plus checksum, and the encoded size is three more |
| `Messages.EncodeGivesWireForm` | src/comms/Message.cc:136-164 | such a message encodes without failing an assertion, to as many bytes as announced |
| `Messages.WrappedBytes` | src/comms/Message.cc:22-30 | byte by byte, by type number: length low byte first, type, body, and for types 3, 5, 6 and 7 the CRC-32 of all that; none for types 0 and 1 |
| `Messages.BareBytes` | src/comms/Message.cc:22-30 | SYNC is 04 00 02 53 59 4e 43 and CONFIGURATION_QUERY 00 00 04 |
| `Messages.ChecksumBytes` | src/comms/Message.cc:136-164 | a checksum goes out low byte first |
| `Messages.EncodingFails` | src/comms/Message.cc:136-164 | which messages fail an assertion when encoded or when their checksum is computed, by type number |
| `Messages.AnnouncedSize` | src/comms/Message.cc:90-114 | the announced size of any message, by type number |
| `Messages.DecodingFails` | src/comms/Message.cc:116-134 | which bytes fail to decode: a type of 8 or more, or a protected type with a length below four; fewer than three bytes read as an empty handshake |
| `Messages.CutShort` | src/comms/Message.cc:116-134 | a body that is cut short is read as zeros, and its bytes are taken for the checksum |
| `Messages.MessageRoundTrip` | src/comms/Message.cc:116-164 | decoding gives its header, effective body and a checksum that holds, and stops where the message ends |
| `Messages.ReencodeReceived` | src/comms/Message.cc:136-164 | a received message encodes to the bytes it came from exactly when it is not a SYNC |
| `Messages.LengthFieldLimit` | include/crisp/comms/Message.hh:79-88 | a wrapped body is cut back where it ends exactly when body and checksum fit the 16-bit length |
| `Messages.FrameProtection` | include/crisp/comms/Message.hh:134-139 | of a message of type 3, 5, 6 or 7, any non-zero burst of at most 32 bits in body and checksum makes `checksum_ok` false after decoding |
| `Transceiving.ComputeMessageChecksum` | src/comms/Message.cc:216-235 | zero without a checksum, a range error without a body, else the CRC-32 of header and body |
| `Transceiving.EncodeTo` | src/comms/Message.cc:136-164 | whatever the room, each part is written if it fits and success reported; the assertions fail as they do there |
| `Transceiving.DecodeFrom` | src/comms/Message.cc:116-134 | on any bytes, the message and the rest, or the failure, are those of the value-level decoder |
| `Transceiving.StaleBytesIgnored` | include/crisp/comms/bits/BasicNode.tcc:304-345 | what longer messages left behind the frame in the read buffer is never read |
| `Transceiving.DispatchTo` | include/crisp/comms/bits/MessageDispatcher.tcc:267-306 | ERROR, SENSOR_DATA and a missing body throw; a control is decoded against the configuration of the node and fails as decoding does |
| `Dispatching.HandledIff` | include/crisp/comms/bits/MessageDispatcher.tcc:267-306 | dispatching succeeds exactly on the types that are handled, with a body if one is taken, and for a control with bytes that decode against the configuration |
| `Dispatching.DispatchReasons` | include/crisp/comms/bits/MessageDispatcher.tcc:267-306 | why dispatching fails, by type number: 3, 6 and a missing body throw; a control fails the assertion or reads outside as its bytes say |
| `Receiving.ObjectionOf` | include/crisp/comms/bits/MessageDispatcher.tcc:267-306 | the reason as the sender can tell it from the message |
| `Receiving.CutReasons` | include/crisp/comms/bits/BasicNode.tcc:287-347 | why no message is cut off a stream, byte by byte and by type number, and how many bytes are taken when one is |
| `Receiving.LongestSync` | include/crisp/comms/bits/BasicNode.tcc:280-321 | a SYNC of length 8190 or more overruns the first buffer |
| `Receiving.WelcomeIff` | include/crisp/comms/bits/MessageDispatcher.tcc:267-306 | of what a peer can send, exactly the messages other than ERROR, SENSOR_DATA and controls that do not decode here are dispatched |
| `Transceiving.ReceiveLoop` | include/crisp/comms/bits/BasicNode.tcc:276-353 | the loop with its growing read buffer and its dispatcher dispatches what the stream-level function says and stops for the same reason |
| `Receiving.ReceiveFrames` | include/crisp/comms/bits/BasicNode.tcc:276-353 | frames that the node can dispatch, at the head of a stream, are dispatched first, whatever follows them |
| `Receiving.ReceivedIsTheStream` | include/crisp/comms/bits/BasicNode.tcc:276-353 | on every byte stream, good or bad, the dispatched messages are exactly the frames of the bytes consumed |
| `Receiving.ReceiveInvertsFrames` | include/crisp/comms/bits/BasicNode.tcc:276-353 | a stream is received whole as a list of messages exactly when it is the frames of that list and the node can dispatch each of them |
| `Receiving.StreamThenStop` | include/crisp/comms/bits/BasicNode.tcc:276-353 | of messages followed by bytes on which the loop stops, exactly those before the first that is not welcome are dispatched, and everything from it on is left |
| `Receiving.StreamFraming` | include/crisp/comms/bits/BasicNode.tcc:276-353 | of any list that a peer can send exactly the messages before the first that is not welcome are dispatched, in order; the whole list, with nothing left over, if and only if each is neither ERROR nor SENSOR_DATA nor a control that does not decode here |
| `Receiving.DamageStopsReception` | include/crisp/comms/bits/BasicNode.tcc:345-353 | a frame of type 3, 5, 6 or 7 damaged within 32 bits stops the loop, with what was sent before it dispatched as it is on its own |
| `Receiving.ArrivalInPieces` | include/crisp/comms/bits/BasicNode.tcc:276-353 | it makes no difference how a stream is cut into pieces on arrival |
| `Handshakes.TransitAfter` | include/crisp/comms/bits/BasicNode.tcc:202-255 | a step moves notes along; only launches, handlers, SYNC ticks and a closed connection change what is in transit |
| `Handshakes.NotesInOrder` | include/crisp/comms/bits/BasicNode.tcc:202-255 | notes go out in the order they were sent and come in in the order they went out |
| `Handshakes.HandlersAfter` | include/crisp/comms/bits/BasicNode.tcc:342-352 | a dispatched note becomes a handler, which runs once |
| `Handshakes.TimerSteps` | src/util/ScheduledAction.cc:54-98 | which steps set, run out and cancel the halt timer, queue its handler and run it |
| `Handshakes.AlwaysPossible` | include/crisp/comms/bits/MessageDispatcher.tcc:210-211 | a node can send a SYNC exactly when it has scheduled one, and the connection can always close |
| `Handshakes.StepKeepsSide` | include/crisp/comms/bits/MessageDispatcher.tcc:164-216 | every step keeps the single token of each handshake and the verdicts that follow the judgement |
| `Handshakes.JudgementsAgree` | include/crisp/comms/bits/MessageDispatcher.tcc:177-184 | both sides judge alike, reason included, and accept exactly when roles differ and protocol and version are equal |
| `Handshakes.HandshakeAgreement` | include/crisp/comms/bits/MessageDispatcher.tcc:164-216 | in every reachable state: at most one verdict a side, SYNC only between compatible nodes, a rejection only between incompatible ones, and every answer in transit carries the one judgement and, when it accepts, the role of its sender |
| `Handshakes.NoSplitVerdict` | include/crisp/comms/bits/MessageDispatcher.tcc:189-216 | never is one direction accepted and the other rejected |
| `Handshakes.BothSidesSettle` | include/crisp/comms/bits/MessageDispatcher.tcc:164-216 | when both handshakes have run their course, both sides have exactly one verdict, SYNC if and only if compatible |
| `Handshakes.TimerSurvivesIffEarly` | include/crisp/comms/bits/MessageDispatcher.tcc:200-209 | in every reachable state the timer handler has called halt at most once, and the halt timer of a node in sync is set or yet to be set if and only if the ACK was handled before the timer was set and the timer has not run out |
| `Handshakes.TimerHaltsIff` | src/util/ScheduledAction.cc:54-80 | a continuation in which the timer handler calls halt on a node in sync exists exactly when that handler is queued, or the ACK was handled before the timer was set and the timer has not run out |
| `Handshakes.LateAckIsPossible` | src/util/ScheduledAction.cc:54-80 | the first happens on either side of any two compatible nodes: a timer that has run out is not recalled by a later ACK |
| `Handshakes.EarlyAckIsPossible` | include/crisp/comms/bits/BasicNode.tcc:81-104 | so does the second: the ACK can be handled before launch sets the timer |
| `Handshakes.TimelyAckIsPossible` | include/crisp/comms/bits/MessageDispatcher.tcc:200-209 | and an ACK handled while the timer runs is never followed by its halt |
| `Halting.StepKeepsInv` | include/crisp/comms/bits/BasicNode.tcc:108-184 | every step of every call keeps flag, mutex, `stopped` and signal consistent |
| `Halting.HaltSafety` | include/crisp/comms/bits/BasicNode.tcc:108-184 | in every reachable state at most one call has returned true, one disconnect signal at most, `stopped` only under the halting flag, and no unforced worker has halted the node |
| `Halting.StoppedForGood` | include/crisp/comms/bits/BasicNode.tcc:112-123 | once a call has passed the can-halt test, `stopped` stays set |
| `Halting.LateCallsReturnFalse` | include/crisp/comms/bits/BasicNode.tcc:110-183 | and every call that tests the flag after that returns false and changes nothing |
| `Halting.UndisturbedCall` | include/crisp/comms/bits/BasicNode.tcc:108-184 | a call that finds the flag clear and the mutex free and is not disturbed returns true, the node stopped and the signal sent, exactly when its thread is no worker or it is forced; otherwise it returns false and leaves everything as it was |
| `Halting.StoppedTakenBack` | include/crisp/comms/bits/BasicNode.tcc:115-123 | before that, `stopped` is taken back by exactly one kind of step, a backing-off worker |
| `Halting.StoppedFlickers` | include/crisp/comms/bits/BasicNode.tcc:112-123 | and that happens: a run of one worker thread reaches a node that is stopped and, a step later, is not |
| `SharedQueues.NoLostWakeups` | include/crisp/util/SharedQueue.hh:81-176 | whenever a thread sleeps there are at least as many woken threads as items; once aborted nobody sleeps; the waiter count is exact |
| `SharedQueues.FirstInFirstOut` | include/crisp/util/SharedQueue.hh:109-132 | what was taken out is a prefix of what was pushed, and the rest is queued |
| `SharedQueues.NextTakesFront` | include/crisp/util/SharedQueue.hh:140-176 | `next` hands out exactly the front item, and only when not aborted |
| `SharedQueues.PlaceAfter` | include/crisp/util/SharedQueue.hh:81-176 | where each thread is after each step: entering, asleep, woken, or back with an item or the abort |
| `SharedQueues.QueueAfter` | include/crisp/util/SharedQueue.hh:81-176 | pushed at the back, taken from the front, aborted for good |
| `SharedQueues.WayThroughNext` | include/crisp/util/SharedQueue.hh:140-176 | a run of one thread: asleep, woken for nothing, asleep, woken by a push, back with the item |
| `SharedQueues.NothingTakenAfterAbort` | include/crisp/util/SharedQueue.hh:140-176 | after an abort `next` takes nothing out, in any continuation |
| `SharedQueues.HaltMayMissConsumer` | include/crisp/comms/bits/BasicNode.tcc:130-135 | a thread past the lock-free test goes to sleep in some continuation of `halt` exactly when nobody was counted as waiting, whatever was queued; when someone was, nobody sleeps in any continuation |
| `SharedQueues.HaltMissesAtOnce` | include/crisp/comms/bits/BasicNode.tcc:130-135 | taking the mutex straight after `halt`, it does so exactly when also nothing is queued |
| `SharedQueues.SleepsUntilRoused` | include/crisp/util/SharedQueue.hh:81-176 | a sleeping thread sleeps on in every continuation without a push to it, an abort or a spurious wake-up |
| `SharedQueues.ConsumerSleepsThroughHalt` | include/crisp/util/SharedQueue.hh:140-176 | a run from the start in which a consumer falls asleep after the halt, the queue not aborted |
| `SendLoops.NothingLostOrMade` | include/crisp/comms/bits/BasicNode.tcc:202-255 | every copy of every message is in exactly one place: queued, in flight, sent or dropped |
| `SendLoops.SentInOrder` | include/crisp/comms/bits/BasicNode.tcc:202-255 | without requeues and encoding failures, what was sent is a prefix of what was submitted |
| `SendLoops.NothingSentBehindFailure` | include/crisp/comms/bits/BasicNode.tcc:245-246 | nothing is sent behind a message that the dispatcher of the sender fails on |
| `SendLoops.LoopEndsWhen` | include/crisp/comms/bits/BasicNode.tcc:207-250 | the loop ends exactly when it finds the node stopped, the queue aborted or a write failed, and goes on after everything else |
| `SendLoops.QueueMoves` | include/crisp/comms/bits/BasicNode.tcc:207-250 | how the loop and the senders touch the queue, move by move |
| `Shutdowns.NothingSentAfterHalt` | include/crisp/comms/bits/BasicNode.tcc:108-255 | once a call of `halt` has passed its test, the send loop sends no more than the message it is writing and takes no more than one it is waiting for, in any continuation |
| `Shutdowns.HaltWakesSleepers` | include/crisp/comms/bits/BasicNode.tcc:130-150 | the step that sends the signal wakes every sleeper and aborts the queue if anyone was counted as waiting; no other step of a call touches the queue |
| `Shutdowns.CallsAreUndisturbed` | include/crisp/comms/bits/BasicNode.tcc:108-184 | the calls of halt go through their steps as if there were no send loop |
| `Shutdowns.SendingOne` | include/crisp/comms/bits/BasicNode.tcc:207-249 | a run in which the loop takes a queued message, writes it and tests again |
| `Shutdowns.SubmitAndStop` | include/crisp/comms/bits/BasicNode.tcc:186-213 | submitting comes before that, and a stopped node ends the loop at its next test |
| `Slots.StepKeepsInv` | src/util/PeriodicScheduleSlot.cc:45-107 | every step keeps the slot alive, every wait accounted for, and the list free of repetitions |
| `Slots.SlotNeverDies` | src/util/PeriodicScheduleSlot.cc:45-107 | at most one slot wait is pending, and while there are actions there is one or a handler that will arm again |
| `Slots.EveryWaitAccounted` | src/util/PeriodicScheduleSlot.cc:90-107 | per arming: exactly the listed active actions have a wait, it is in one place, and it leads to at most one call |
| `Slots.CallsExactlyWhen` | src/util/PeriodicAction.cc:17-22 | a handler calls its function exactly when the expiry succeeded and the action is active; nothing else calls |
| `Slots.SilencedAtOnce` | src/util/PeriodicAction.cc:17-40 | from any reachable state, after pause or cancel the function is not called in any continuation without unpause, handlers already queued included |
| `Slots.ActiveAfter` | src/util/PeriodicAction.cc:24-40 | an action is active from when it is scheduled or unpaused until it is paused or cancelled |
| `Slots.ListAfter` | src/util/PeriodicScheduleSlot.cc:45-79 | the list after each step: scheduled in front, taken out by its removal, the others in order |
| `Slots.RemovalTakesOut` | src/util/PeriodicScheduleSlot.cc:70-79 | a posted removal of a listed action always takes it out |
| `Slots.RemovalsAfter` | src/util/PeriodicAction.cc:33-40 | removals are posted by cancel, one each, and used up by running |
| `Slots.PendingAfter` | src/util/PeriodicScheduleSlot.cc:90-107 | after an arming exactly the listed and active actions and the slot have a wait, all new; nothing is pending after an expiry or when the list is emptied |
| `Slots.ReadyAfter` | src/util/PeriodicScheduleSlot.cc:81-107 | which handlers there are to run after each step, and which of them are successful |
| `Slots.HistoryAfter` | src/util/PeriodicScheduleSlot.cc:81-107 | an arming records the actions it hangs waits for, and each handler what it did |
| `Slots.LifeOfAnAction` | src/util/PeriodicScheduleSlot.cc:45-107 | a run from the start: scheduled, paused, unpaused, called, cancelled and removed |
| `Slots.NeverWhileInactive` | src/util/PeriodicAction.cc:24-40 | a paused or cancelled action is not called until it is unpaused |
| `Slots.RemovedCallsRunOut` | src/util/PeriodicScheduleSlot.cc:70-79 | after its removal an action has at most as many calls left as handlers, for ever |
| `Slots.CallsBetweenArms` | src/util/PeriodicScheduleSlot.cc:90-107 | until the next arming an action is called at most once for its pending wait and once for each late handler |
| `Slots.BoundIsReached` | src/util/PeriodicScheduleSlot.cc:90-107 | and that bound is reached, by an active action and by a paused one that is unpaused |
| `Slots.AtMostOneCallIff` | src/util/PeriodicScheduleSlot.cc:90-107 | an action is called at most once before the next arming, in every continuation, if and only if it has at most one such wait |
| `Slots.LateHandlerCallsTwice` | src/util/PeriodicScheduleSlot.cc:81-107 | for any action, a reachable state where that fails: its handler is overtaken by the one that arms again |
| `Scheduling.PeriodicScheduleSlot.constructor` | src/util/PeriodicScheduleSlot.cc:9-15 | an empty slot |
| `Scheduling.PeriodicScheduleSlot.ResetTimer` | src/util/PeriodicScheduleSlot.cc:90-107 | the loop hangs exactly the waits of one arming on the timer, after cancelling those pending |
| `Scheduling.PeriodicScheduleSlot.Emplace` | include/crisp/util/bits/PeriodicScheduleSlot.tcc:10-21 | the action goes to the front; the timer is armed exactly when the list was empty |
| `Scheduling.PeriodicScheduleSlot.RunRemoval` | src/util/PeriodicScheduleSlot.cc:70-79 | the action leaves the list; the timer is cancelled when the list is empty |
| `Scheduling.PeriodicScheduleSlot.RunHandler` | src/util/PeriodicScheduleSlot.cc:81-88 | a successful slot handler arms again; a successful handler of an active action calls its function |
| `Scheduling.PeriodicScheduleSlot.Pause` | src/util/PeriodicAction.cc:24-26 | the action is inactive, all else as before |
| `Scheduling.PeriodicScheduleSlot.Unpause` | src/util/PeriodicAction.cc:28-30 | the action is active, all else as before |
| `Scheduling.PeriodicScheduleSlot.Cancel` | src/util/PeriodicAction.cc:32-40 | the action is inactive and its removal is posted |
| `Scheduling.Scheduler.Schedule` | src/util/Scheduler.cc:37-66 | the action joins the slot of its interval, made when missing; no other slot changes |
| `SArrays.PushingFromNothing` | include/crisp/util/SArray.hh:99-117 | n pushes from nothing: capacity n, or n + 1 for even n, and the square of n / 2 elements carried over by reallocations |
| `SArrays.CapacityStaysClose` | include/crisp/util/SArray.hh:99-117 | from any capacity, pushing keeps it within the larger of that and one more than the size |
| `SArrays.EqualSteps` | include/crisp/util/SArray.hh:99-117 | a request beyond the capacity makes room for as large a step again, exactly |
| `SArrays.SArray.constructor` | include/crisp/util/SArray.hh:140-148 | an empty array of the given capacity |
| `SArrays.SArray.EnsureCapacity` | include/crisp/util/SArray.hh:99-117 | contents stay; capacity follows the growth rule |
| `SArrays.SArray.Push` | include/crisp/util/SArray.hh:59-92 | the contents grow by the value; `emplace` is the same |
| `SArrays.SArray.Clear` | include/crisp/util/SArray.hh:121-130 | no contents, same capacity |
| `SArrays.SArray.Copy` | include/crisp/util/SArray.hh:191-198 | the same contents in storage of its own, with no room to spare |
| `SArrays.SArray.Assign` | include/crisp/util/SArray.hh:209-219 | the contents of the other array, unless it is the same array: then, exactly if there were any, they are lost |
| `SArrays.PushAll` | include/crisp/util/SArray.hh:73-92 | elements pushed one by one give the sequence, within the bounds on capacity and carried elements |

## Left out

- Resynchronization after a bad checksum: the receive loop of the model stops there.
- Stopping the receive loop from outside: the model's loop runs until its stream ends or it stops itself.
- A partly received header or body: the model leaves its bytes unread, where the program has consumed them and ends the loop.
- Sockets, coroutines, signal masks, thread joins and diagnostics; `WorkerObject` is reduced to whether the caller is a worker.
- Liveness of `run`, `halt` and the queue: only safety is claimed, for there are schedules that block.
- `NodeServer`, `APIElement`, `DataStructure`, `DataField`, the input-device classes and the command-line tools.
- Typed declarations and their conversion to generic ones: the model starts from generic declarations.
- Arrays whose elements are wider than eight bytes: reading their element count overwrites the stack, so such configurations are excluded (`Countable`, `CountFits`). `size_t` has eight bytes, and every allocation succeeds.
- Round trips of controls with array-typed inputs (`Controllable` excludes them): by `ControlCodec.ValueArrivesIff` no array value arrives as it was sent.
- The elements of an array of which at least one but not all were received: the program leaves them uninitialised; the model has zeros.
- Widths over 16: the bounds live in 16-byte arrays and a wider declaration would overflow them (`WellFormed`), also in a received configuration; the decoders of the model cut such a bound at its array.
- Names whose bytes could not be read: the program leaves the memory uninitialised; the model has the value `Unfilled`.
- Raw memory: ownership, reference counts, moved-from objects, references that dangle after an array grows or an action is destroyed. Arrays of records are sequences here, and `SArray` itself is a class.
- The move constructor of `Message` zeroes the checksum; the model takes the returned message as built in place.
- `m_num_waiters` is not initialised in the program; the model takes it as zero.
- Two `launch` calls racing for one node, and `SYNC` handling beyond sending it.
- Unlocked races inside a slot (a handler against a `schedule`): every handler and call is one step.
- One-shot timers other than the halt timer of the handshake.
- What `halt` does to the handshake: a rejection and the handler of the halt timer call it, and the nodes of `Handshakes` go on; `Halting`, `SharedQueues`, `SendLoops` and `Shutdowns` have its effects. That an ACK's cancelled action is destroyed while its handler is queued is left out with the other dangling references.
- Several send loops on one queue: `SendLoops` has the one consumer that the node has.
- `clear` by name: the model clears by input; by an unknown name the program sets bit 15 only.
- ControlObjects.ControlObject.Decode: configurations with arrays of elements wider than eight bytes are excluded, because reading the element count then overwrites the stack.
- ControlObjects.ControlObject.DecodeValueFrom: arrays of elements wider than eight bytes are excluded for the same reason.
- Reading a value that is shorter than its type when comparing it: only a decoded array without elements is.
- Values wider than the declared type: the program writes past the value's memory; `ControlObject.Set` reports `OutOfBounds`, and histories of `set`s are taken within the widths (`InRange`).
- Handshake bodies too short for their fields, which the program then leaves uninitialised; the handshake carries identities as values.
