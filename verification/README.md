# Model of the sensor, arm and Bluetooth programs

This project models five machines of the repository and proves what they keep over every input and every run.

- **The Sensor wire codec** (`WireFormat`, `WireGrammar`, `SensorMessage`, `SensorGrammar`, `SensorCodec`). Five
  floats, kept as 32-bit patterns, in the protocol buffer wire format. `SensorMessage.Parse` reads a tag, dispatches
  on it and repeats; the generated parser, with its jumps from one argument straight to the next and its hints about
  what is buffered, is a method over a mutable stream proved to do the same. Whether a hint says yes depends on how
  much happens to be buffered, which is arbitrary here, so the proof covers every answer. `WireGrammar` says without a
  parser what varints, tags and payloads are, and `SensorGrammar` what each field does to the message.
- **The sensor pipeline** (`Lines`, `Pipeline`, `SensorLoop`, `SensorText`). The endless loop of `main.cpp` that
  cleans up serial text, picks a line, sets the sensor field by field and sends a buffer that may be stale; and its
  counterpart in `Server.cpp`. Replacing 0 by -1 in front of a codec that drops zeros is what makes every frame 25
  bytes long.
- **The arm-pose state machine** (`Rotations`, `ArmPose`, `ArmRuns`, `ArmRoll`, `MotorCommand`). Zones, reference
  capture, heading and speed from orientation samples, in exact reals. Rotations about the vertical axis are pairs of
  cosine and sine; `atan2`, `sin`, `cos` and pi are a parameter with the laws in `Maths.Lawful`.
- **The BGAPI framers and encoders** (`BgapiPort`, `BgapiResponses`, `BgapiEvents`, `BgapiScan`, `BgapiScanner`,
  `BgapiUuids`, `BgapiCommands`). Loops that read a byte at a time from the port and collect packets, the splitting of
  advertising data and service UUIDs, and the command encoders.
- **Ownership in the protobuf headers** (`ArenaString`, `Metadata`, `SymbolIndex`). String fields over an explicit
  heap with separate ledgers for what arenas, callers and deletions account for; the tagged metadata word; and the
  two-step symbol lookup with the proof its comment gives in prose.

Each machine the source updates in place is a class whose methods are proved against functions on values; the laws are
then proved about those functions.

The model follows the code where it does something its names and comments would not lead one to expect:

- `find` in the scan-response function is set by any whole packet, of whatever class (`BgapiScanner.FoundIffPacket`).
- Manufacturer data always raises, because its printing calls `chr` on a list; a flags or power-level field without a
  value raises too (`BgapiScanner.FieldsRaiseIff`).
- The response functions for writing and for reading by type unpack the connection into a variable they do not return
  (`BgapiResponses.WriteCommandResponse`).
- An event with a payload of 0x80 bytes is never recognised (`BgapiEvents.EventsAreReadIff`).
- `chn_errcode` renders a response that is a bare header whole, and one that was cut off inside its header by its last
  bytes, unless at most half of the header arrived (`BgapiPort.ErrcodeRightIff`).
- A heading offset shows in theta when the arm is in the middle with a heading while the reference in force was taken
  straight up or down, and only then (`ArmRuns.TraceOffsetInvisibleIff`); zone and speed never show it.

To verify the whole project: `dafny verify dfyconfig.toml`.

## Model

| member | source | states |
|---|---|---|
| WireFormat.LittleEndianRoundTrip | install/include/google/protobuf/wire_format_lite_inl.h:139-146 | the four wire bytes of a float give back its bit pattern |
| WireGrammar.WordIsBytes | install/include/google/protobuf/wire_format_lite_inl.h:139-146 | the number read from four bytes is what they spell in base 256, first byte least |
| WireGrammar.DecodeVarintIff | install/include/google/protobuf/io/coded_stream.h:949-988 | a value is read off the front of a byte string if and only if a varint of at most ten bytes stands there and spells it, seven bits a byte |
| WireGrammar.VarintValueAppend | install/include/google/protobuf/io/coded_stream.h:949-988 | each byte of a varint weighs 128 times the one before it |
| SensorGrammar.VarintExample | install/include/google/protobuf/io/coded_stream.h:1071-1080 | 300 is written AC 02 |
| WireGrammar.EncodeIsShortest | install/include/google/protobuf/io/coded_stream.h:1071-1080 | what is written for a value is its one shortest varint |
| WireGrammar.EncodeIsVarint | install/include/google/protobuf/io/coded_stream.h:1071-1080 | and it is a varint of that value |
| WireGrammar.TagDecodes | install/include/google/protobuf/io/coded_stream.h:949-988 | the tag read is the low 32 bits of the varint in front, in any spelling |
| WireGrammar.NoTagIff | install/include/google/protobuf/io/coded_stream.h:949-988 | no tag is read if and only if no varint stands in front |
| WireGrammar.SkipFieldIff | install/include/google/protobuf/wire_format_lite.h:86-93 | what is skipped behind a tag is exactly a payload of its wire type: a varint, eight bytes, a length with that many bytes, four bytes, or a group of such fields closed by the next tag number up, nested no deeper than allowed; nothing else is skipped |
| WireFormat.SkipFieldExtends | install/include/google/protobuf/wire_format_lite.h:160-164 | skipping an unknown field looks at no byte behind it, whatever follows |
| WireFormat.SkipFieldCut | install/include/google/protobuf/wire_format_lite.h:160-164 | cutting the input off behind the bytes skipped does not change how many they are, nested groups included |
| SensorGrammar.RecordIff | MyoNucMotor/MyoNucMotor/data.pb.cc:284-293 | a field is complete if and only if its tag is a varint other than 0 and its payload one of the grammar for that tag |
| SensorGrammar.UnknownField | MyoNucMotor/MyoNucMotor/data.pb.cc:284-293 | a field with any other tag than the five is skipped whole, whatever its payload holds |
| SensorGrammar.StringIsSkipped | MyoNucMotor/MyoNucMotor/data.pb.cc:284-293 | a string field that looks like an argument inside leaves a cleared message cleared |
| SensorGrammar.ArgField | MyoNucMotor/MyoNucMotor/data.pb.cc:209-281 | a field with the tag of an argument, in any spelling, sets that argument to the number its four bytes spell |
| SensorGrammar.EndTag | MyoNucMotor/MyoNucMotor/data.pb.cc:285-289 | a tag of 0 or one that ends a group ends the parse in front of what follows, and is the last tag |
| SensorGrammar.NoTagEnds | MyoNucMotor/MyoNucMotor/data.pb.cc:285-289 | so does a place where no tag stands, cleanly only at the end of the input |
| SensorGrammar.BadPayload | MyoNucMotor/MyoNucMotor/data.pb.cc:291-291 | a payload that is not there in full, or is none of the grammar, fails the parse |
| SensorGrammar.FullFrame | MyoNucMotor/MyoNucMotor/data.pb.cc:305-334 | a message without zeros is 25 bytes: tags 0D, 15, 1D, 25 and 2D in this order, each with its argument, least significant byte first |
| SensorGrammar.ZerosAreNotWritten | MyoNucMotor/MyoNucMotor/data.pb.cc:305-334 | zeros of either sign are not written |
| SensorGrammar.OneFrame | MyoNucMotor/MyoNucMotor/data.pb.cc:200-334 | 1.0 as the first argument is 0D 00 00 80 3F, and is read back |
| SensorGrammar.NonZeroIff | MyoNucMotor/MyoNucMotor/data.pb.cc:308-308 | the test against 0 tells exactly the finite patterns that stand for the number 0 |
| SensorMessage.ParseRecords | MyoNucMotor/MyoNucMotor/data.pb.cc:200-303 | a run of complete fields is read field by field: each argument ends with the value of its last occurrence, unknown and wrong-wire-type fields change nothing |
| SensorMessage.CleanParseIffWholeFields | MyoNucMotor/MyoNucMotor/data.pb.cc:200-303 | a parse succeeds at the true end of the input if and only if the input is a concatenation of complete fields, and then the message is those fields applied in order |
| SensorMessage.ParseAppliesRecords | MyoNucMotor/MyoNucMotor/data.pb.cc:200-303 | on every byte string, also one that fails to parse, the message ends up with the complete fields the string begins with, applied in order |
| SensorMessage.ParseOkIff | MyoNucMotor/MyoNucMotor/data.pb.cc:200-303 | a parse succeeds if and only if the input is complete fields followed by the end, a zero or malformed tag or one that ends a group |
| SensorMessage.SerializeIsRecords | MyoNucMotor/MyoNucMotor/data.pb.cc:305-366 | a serialization is a run of complete fields in strictly increasing order |
| SensorMessage.ArgRecordsValue | MyoNucMotor/MyoNucMotor/data.pb.cc:305-366 | it holds exactly the non-zero arguments, each with its value |
| SensorMessage.SerializeLength | MyoNucMotor/MyoNucMotor/data.pb.cc:368-400 | the serialized length is five times the number of non-zero arguments |
| SensorMessage.ParseSerialized | MyoNucMotor/MyoNucMotor/data.pb.cc:200-334 | parsing a serialization with anything behind it merges the message, then parses the rest |
| SensorMessage.RoundTrip | MyoNucMotor/MyoNucMotor/data.pb.cc:200-400 | parsing what was written into a cleared message gives the message back bit for bit, -0.0 turned into +0.0, and ends cleanly |
| SensorMessage.SerializeInjective | MyoNucMotor/MyoNucMotor/data.pb.cc:305-366 | two messages have the same wire form if and only if they differ in signs of zeros at most |
| SensorMessage.ConcatenationIsMerge | MyoNucMotor/MyoNucMotor/data.pb.cc:200-334 | parsing two serializations one behind the other is merging one message and then the other |
| SensorCodec.CodedInputStream.ReadTagWithCutoff | install/include/google/protobuf/io/coded_stream.h:949-988 | both fast paths and the slow path read the same tag, and the cutoff answer is exact for every tag but 0 |
| SensorCodec.CodedInputStream.ExpectTag | install/include/google/protobuf/io/coded_stream.h:998-1019 | says yes only when the next tag is the expected one, and then takes it; says no without moving, however much is buffered |
| SensorCodec.CodedInputStream.ExpectAtEnd | install/include/google/protobuf/io/coded_stream.h:1042-1055 | says yes only at the end of the input, leaving what reading tag 0 there would leave |
| SensorCodec.CodedInputStream.ReadFloat | install/include/google/protobuf/wire_format_lite_inl.h:139-146 | reads four bytes or fails when fewer are left |
| SensorCodec.Sensor.Clear | MyoNucMotor/MyoNucMotor/data.pb.cc:184-198 | all five arguments are zero, the cached size is kept |
| SensorCodec.Sensor.MergePartialFromCodedStream | MyoNucMotor/MyoNucMotor/data.pb.cc:200-303 | on every input, start message, buffering and hint answer, the goto-threaded parser succeeds or fails and leaves fields, last tag, end flag and position as the plain read-tag-and-dispatch loop does, partial merges before a failure included |
| SensorCodec.Sensor.SwitchTarget | MyoNucMotor/MyoNucMotor/data.pb.cc:206-294 | the cutoff test and the switch pick the argument whose tag was read, and nothing else |
| SensorCodec.Sensor.HandleUnusual | MyoNucMotor/MyoNucMotor/data.pb.cc:284-293 | any other tag ends the parse or skips one field, as in the plain loop |
| SensorCodec.Sensor.ParseArgsFrom | MyoNucMotor/MyoNucMotor/data.pb.cc:209-283 | entering at any jump target and falling through the following ones is the plain parse from there |
| SensorCodec.Sensor.ReadArgThenExpect | MyoNucMotor/MyoNucMotor/data.pb.cc:211-267 | one case: store the float, then either the next tag is taken or the plain parse goes on |
| SensorCodec.Sensor.SerializeWithCachedSizes | MyoNucMotor/MyoNucMotor/data.pb.cc:305-334 | appends the serialization to the stream |
| SensorCodec.Sensor.SerializeWithCachedSizesToArray | MyoNucMotor/MyoNucMotor/data.pb.cc:336-366 | writes the same bytes at the target, changes no other byte, returns the end |
| SensorCodec.WriteFloatToArray | install/include/google/protobuf/wire_format_lite_inl.h:732-737 | overwrites exactly the tag, as a varint, and the little-endian value, for every field number |
| SensorCodec.WriteVarint32ToArray | install/include/google/protobuf/io/coded_stream.h:1071-1080 | the loop overwrites exactly the shortest varint of the value |
| WireFormat.TagRoundTrip | install/include/google/protobuf/io/coded_stream.h:1071-1080 | a tag written as a varint reads back as itself, whatever follows |
| SensorCodec.Sensor.ByteSize | MyoNucMotor/MyoNucMotor/data.pb.cc:368-400 | returns and caches the length of the serialization |
| SensorCodec.Sensor.MergeFrom | MyoNucMotor/MyoNucMotor/data.pb.cc:414-431 | takes over the arguments the other message has set |
| SensorCodec.Sensor.CopyFrom | MyoNucMotor/MyoNucMotor/data.pb.cc:439-443 | the other message with -0.0 turned into +0.0; copying onto itself changes nothing |
| Lines.UniqueNewlines | MyoNucMotor/MyoNucMotor/main.cpp:168-169 | the in-place pass leaves exactly the text without newlines that follow newlines |
| Lines.CollapseLaws | MyoNucMotor/MyoNucMotor/main.cpp:168-169 | no adjacent newlines are left, all other characters are kept in order, and text without adjacent newlines is left alone |
| Lines.CollapseTwice | MyoNucMotor/MyoNucMotor/main.cpp:168-169 | collapsing is idempotent |
| Lines.CollapseDrops | MyoNucMotor/MyoNucMotor/main.cpp:168-169 | of two newlines in a row the second is dropped, wherever they stand |
| Lines.BeforeAndAfter | MyoNucMotor/MyoNucMotor/main.cpp:172-172 | cutting at the first delimiter gives what stands before and behind it; without one both are the whole text |
| Lines.OccursIff | MyoNucMotor/MyoNucMotor/main.cpp:177-177 | the search finds the word if and only if the text is something, the word, and something |
| Lines.ChosenLineIs | MyoNucMotor/MyoNucMotor/main.cpp:172-178 | of the first two lines of the collapsed text the second is taken if "set" stands anywhere in it, the first if not |
| Lines.NoLineIff | MyoNucMotor/MyoNucMotor/main.cpp:174-174 | no line is taken if and only if the collapsed text has fewer than two newlines |
| Lines.FieldOfJoin | MyoNucMotor/MyoNucMotor/main.cpp:185-253 | the fields of pieces joined by commas are these pieces, the last one repeated |
| Lines.PiecesSplit | MyoNucMotor/MyoNucMotor/main.cpp:185-190 | the pieces of a line contain no comma and join back to the line |
| Lines.PiecesUnique | MyoNucMotor/MyoNucMotor/main.cpp:185-190 | and nothing else does |
| Lines.RestIsField | MyoNucMotor/MyoNucMotor/main.cpp:185-253 | cutting off field after field finds exactly the comma pieces, the last one repeated when there are fewer than five |
| SensorLoop.FieldStep | MyoNucMotor/MyoNucMotor/main.cpp:185-197 | the branch for a line without commas takes the same field as the branch-free cut |
| Pipeline.SerializeFull | MyoNucMotor/MyoNucMotor/data.pb.cc:368-400 | a serialization has at most 25 bytes, and 25 if and only if no argument is zero |
| Pipeline.DeliverKeepsFrames | MyoNucMotor/MyoNucMotor/main.cpp:182-267 | one parsed line, complete or thrown out of half way, keeps the frame invariant |
| Pipeline.RunKeepsFrames | MyoNucMotor/MyoNucMotor/main.cpp:146-272 | over every run every send after the first complete parse is exactly 25 bytes and the serialization of the latest complete reading; before that every send is shorter |
| Pipeline.ReceiveFrames | MyoNucMotor/MyoNucMotor/main.cpp:263-263 | cutting a stream of frames every 25 bytes and parsing each gives the readings back |
| Pipeline.StreamReadsReadings | MyoNucMotor/MyoNucMotor/main.cpp:146-272 | a receiver from the first complete parse on reads exactly the completely parsed readings, in order, one for every send |
| SensorText.ZeroBecomesMinusOne | MyoNucMotor/MyoNucMotor/main.cpp:187-187 | a reading of 0, of either sign, becomes -1; every other number is kept |
| SensorText.FiveNumbersAreSent | MyoNucMotor/MyoNucMotor/main.cpp:172-263 | a text whose chosen line is five numbers sends one more frame: 25 bytes with the five tags and the five numbers, -1 for 0 |
| SensorText.ThrowKeepsBuffer | MyoNucMotor/MyoNucMotor/main.cpp:182-267 | when a field does not convert, the ones before it are set, the buffer stays, and as much of it is sent as the arguments take now |
| SensorText.NoLineNothingSent | MyoNucMotor/MyoNucMotor/main.cpp:174-268 | a text with fewer than two lines changes nothing and sends nothing |
| SensorLoop.SensorSender.TakeField | MyoNucMotor/MyoNucMotor/main.cpp:185-197 | one block sets one argument to the next field of the line with zero replaced by -1, or throws and sets nothing |
| SensorLoop.SensorSender.ParseLine | MyoNucMotor/MyoNucMotor/main.cpp:182-260 | the arguments are overwritten with as many fields as convert; complete only when all five do |
| SensorLoop.SensorSender.Iterate | MyoNucMotor/MyoNucMotor/main.cpp:165-268 | the loop body over arrays and objects is one step of the specification |
| SensorLoop.SensorSender.RunAll | MyoNucMotor/MyoNucMotor/main.cpp:146-272 | so is every run of it |
| SensorLoop.ServerSender.TakeField | NUCServer/NUCServer/Server.cpp:135-149 | the branch-free form takes the same fields and leaves zeros alone |
| SensorLoop.ServerSender.Iterate | NUCServer/NUCServer/Server.cpp:127-164 | a line that does not parse completely sends nothing and leaves the fields before the throw set; otherwise the frame just parsed is sent, full if and only if no value is zero |
| SensorText.ServerLineIs | NUCServer/NUCServer/Server.cpp:127-131 | the server takes the second line of what was read, to its end if it has no newline, and everything if there is no newline at all |
| SensorLoop.ParseWithBoth | NUCServer/NUCServer/Server.cpp:134-149 | run on the same line from equal arguments, the two programs complete or throw alike and set the same arguments, except that main.cpp replaces the zeros it reads |
| Rotations.FromVerticalAngleIsTurn | MyoNucMotor/MyoNucMotor/include/myo/cxx/Quaternion.hpp:95-101 | the quaternion from a vertical axis and an angle turns by that angle |
| Rotations.RotateAxis | MyoNucMotor/MyoNucMotor/include/myo/cxx/Quaternion.hpp:107-115 | rotating (-1, 0, 0) by a unit quaternion gives the negated heading and drop |
| Rotations.RotateLevel | MyoNucMotor/MyoNucMotor/include/myo/cxx/Quaternion.hpp:107-115 | rotating by a level quaternion turns the horizontal plane and keeps the height |
| Rotations.TurnedPose | MyoNucMotor/MyoNucMotor/include/myo/cxx/Quaternion.hpp:60-68 | a heading offset on the left turns the heading and keeps height and roll of every pose |
| ArmPose.PositionOf | MyoNucMotor/MyoNucMotor/DataCollector.cpp:54-56 | the three rotations in a row are the heading relative to the reference and the height |
| ArmPose.DataCollector.OnOrientationData | MyoNucMotor/MyoNucMotor/DataCollector.cpp:21-70 | one sample changes zone, references, position, theta and speed as one step of the state machine |
| ArmPose.DataCollector.RunAll | MyoNucMotor/MyoNucMotor/DataCollector.cpp:13-70 | a collector fed any samples one after the other is the run of the state machine |
| ArmRuns.ReferenceIsLatestCapture | MyoNucMotor/MyoNucMotor/DataCollector.cpp:28-45 | the first sample takes the references; at any time they are those of the latest Down-to-Mid step, and no other step touches them |
| ArmRuns.ZoneIs | MyoNucMotor/MyoNucMotor/DataCollector.cpp:28-44 | the zone is Mid after the first sample and from then on that of the height of the sample before |
| ArmRuns.CaptureStartsAtZero | MyoNucMotor/MyoNucMotor/DataCollector.cpp:34-66 | at a capturing step the speed is less than 1 either way, and theta is 0 if and only if the arm does not point straight up or down or atan2 takes the origin to 0 |
| ArmRuns.RunShadow | MyoNucMotor/MyoNucMotor/DataCollector.cpp:14-70 | on every run, whatever the captures, a heading offset leaves zone, height, speed and roll reference alone; the reference turns along, or, if it was taken straight up or down, the position turns instead |
| ArmRuns.TraceOffsetInvisibleIff | MyoNucMotor/MyoNucMotor/DataCollector.cpp:14-70 | the sequences of zone, theta and speed are identical under a heading offset if and only if the offset is none or no sample of the run has a heading in the middle zone under a reference taken straight up or down, which the samples alone decide |
| ArmRuns.ThetaAgreesIff | MyoNucMotor/MyoNucMotor/DataCollector.cpp:58-59 | theta goes on to agree at a step if and only if the offset is none or that step is no such moment |
| ArmRuns.HeadingOffsetInvisible | MyoNucMotor/MyoNucMotor/DataCollector.cpp:14-70 | in particular nothing but the reference changes, in state and trace, on a run that never takes a reference straight up or down |
| ArmRuns.CaptureFollowsIff | MyoNucMotor/MyoNucMotor/DataCollector.cpp:34-39 | at one capturing step the reference turns along with the offset if and only if the sample is not vertical or the offset is none |
| ArmRuns.VerticalCaptureShows | MyoNucMotor/MyoNucMotor/DataCollector.cpp:34-59 | a run of three samples with a vertical capture after which every offset but none shows in theta |
| ArmRoll.AxisHeights | MyoNucMotor/MyoNucMotor/include/myo/cxx/Quaternion.hpp:107-115 | height, side and top of a pose are the heights its rotated axes have |
| ArmRoll.ZoneIsHeight | MyoNucMotor/MyoNucMotor/DataCollector.cpp:28-34 | a pose is up, down or in the middle as the rotated arm is above 0.5, below -0.5 or between |
| ArmRoll.RolledAxisStays | MyoNucMotor/MyoNucMotor/include/myo/cxx/Quaternion.hpp:60-68 | a turn about the own axis, on the right, keeps heading and height of every pose |
| ArmRoll.RolledSidesTurn | MyoNucMotor/MyoNucMotor/DataCollector.cpp:63-64 | and turns the two arguments of the roll angle by just that turn |
| ArmRoll.LevelHasNoRoll | MyoNucMotor/MyoNucMotor/DataCollector.cpp:63-65 | a level pose has roll 0 |
| ArmRoll.RollIsSides | MyoNucMotor/MyoNucMotor/DataCollector.cpp:63-65 | a tenth of the roll is the angle of the vector (up, side), whenever that is not 0 |
| ArmRoll.RollFollows | MyoNucMotor/MyoNucMotor/DataCollector.cpp:63-65 | turning the arm about its own axis turns the roll angle along |
| ArmRoll.ThetaOfRun | MyoNucMotor/MyoNucMotor/DataCollector.cpp:58-59 | over every run, in the middle the reference turned by theta degrees is the heading; in the other zones theta stays |
| ArmRoll.SpeedOfRun | MyoNucMotor/MyoNucMotor/DataCollector.cpp:58-69 | over every run the speed in the middle is the roll at the latest capture, truncated, less the roll now; down it is 0, up it stays |
| ArmRoll.SpeedFollowsRoll | MyoNucMotor/MyoNucMotor/DataCollector.cpp:35-66 | after a level capture a tenth of the speed, with the sign changed, is the angle the arm has been turned about its own axis since, full turns aside |
| ArmPose.TruncateIs | MyoNucMotor/MyoNucMotor/DataCollector.cpp:66-66 | the conversion to int rounds towards zero, on both sides |
| MotorCommand.SpeedBound | MyoNucMotor/MyoNucMotor/DataCollector.cpp:40-69 | in every reachable state the speed stays within 62.416 either way and is 0 when the arm is down |
| MotorCommand.CommandFits | MyoNucMotor/MyoNucMotor/main.cpp:151-158 | the command stays within 3120, its text fits the seven bytes, and the text sent reads back as the command |
| MotorCommand.CommandIs | MyoNucMotor/MyoNucMotor/main.cpp:152-152 | the command is fifty times the speed, cut off towards zero |
| MotorCommand.DecimalExamples | MyoNucMotor/MyoNucMotor/main.cpp:152-152 | -3120, 0 and 47 in decimal |
| MotorCommand.DecimalRoundTrip | MyoNucMotor/MyoNucMotor/main.cpp:152-152 | decimal text reads back as the number, for every integer |
| BgapiPort.ChnErrcode | bledComm/bledAPI.py:8-14 | the hexadecimal digits of the bytes behind the header, last byte first, if there are any; for a bare header and for a read that ended inside it, those of bytes of the header, or none when the read was at most half of it |
| BgapiPort.ErrcodeSlice | bledComm/bledAPI.py:9-9 | which bytes the slice takes, for every length of response and header |
| BgapiPort.ErrcodeRightIff | bledComm/bledAPI.py:8-14 | it takes exactly the bytes behind the header if and only if there are any or the response is at most half as long as the header |
| BgapiPort.ErrcodeIsWord | bledComm/bledAPI.py:8-14 | a two-byte code comes out as the number it is |
| BgapiPort.HexPair | bledComm/bledAPI.py:675-675 | the bytewise rendering of a reversed pair is the four-digit rendering of its 16-bit value |
| BgapiPort.HexDigitIs | bledComm/bledAPI.py:12-12 | the digits are those of "0123456789ABCDEF" |
| BgapiPort.HexOfAt | bledComm/bledAPI.py:11-12 | every byte takes two digits, in order |
| BgapiPort.HexReadsBack | bledComm/bledAPI.py:212-212 | four-digit rendering reads back as the number |
| BgapiResponses.ResponseLanguage | bledComm/bledAPI.py:194-214 | a recogniser returns a response on exactly the streams that start with pairs whose second byte is neither 00 nor 03, then any byte, 03 and five more, and takes exactly those |
| BgapiResponses.FindInformationResponse | bledComm/bledAPI.py:188-216 | takes exactly that prefix, else the whole stream; unpacks three payload bytes as handle and result |
| BgapiResponses.WriteCommandResponse | bledComm/bledAPI.py:397-425 | the same, but the handle stays 0 |
| BgapiResponses.ConnectDirectResponse | bledComm/bledAPI.py:653-678 | the same with the result in front of the handle |
| BgapiEvents.AttributeValueEvent | bledComm/bledAPI.py:432-475 | one call on any stream: what it takes, what it returns, and when it raises |
| BgapiEvents.EventIsRead | bledComm/bledAPI.py:432-475 | a whole event in front is taken alone and read back, unless its payload length is 0x80 |
| BgapiEvents.AttributeKinds | bledComm/bledAPI.py:450-475 | a whole packet in front is a value for command 05 and an end for 01, raises when shorter than five bytes of payload, and for any other command swallows the stream |
| BgapiEvents.PartialPacket | bledComm/bledAPI.py:437-449 | a packet that is not there in full is waited for, by both framers |
| BgapiEvents.EventsAreReadIff | bledComm/bledAPI.py:432-475 | back-to-back events are read one per call and in order if and only if no payload length is 0x80 |
| BgapiEvents.GroupFoundEvent | bledComm/bledAPI.py:526-565 | one call on any stream: the groups it prints, why it stops, and what it takes |
| BgapiEvents.GroupKinds | bledComm/bledAPI.py:541-565 | a whole packet in front that is no group ends the call: as over, as too short to unpack, or by taking in everything |
| BgapiEvents.GroupsThenCompletion | bledComm/bledAPI.py:526-565 | groups followed by a completion are printed in order and taken exactly through it with true returned, if no payload length is 0x80; otherwise the call swallows everything |
| BgapiScan.SplitEncoded | bledComm/bledAPI.py:807-817 | encoded fields split back into exactly themselves, with any padding between them and any truncated field behind |
| BgapiScan.EveryDataIsEncoded | bledComm/bledAPI.py:807-817 | every byte string is such an encoding, so this says what every splitting is |
| BgapiScan.ServicesTile | bledComm/bledAPI.py:823-859 | the backward slices tile a service field from its end without its type byte; turned round they are the field in wire order |
| BgapiScanner.TakeServices | bledComm/bledAPI.py:826-829 | the two loops collect exactly those slices, and the last one turned round is the UUID returned |
| BgapiScanner.ServiceFieldUuid | bledComm/bledAPI.py:823-859 | a service field makes its first UUID, in wire order, the one returned |
| BgapiScanner.FoundUuid | bledComm/bledAPI.py:745-888 | a call that raises nothing returns the UUID that stands first, in wire order, in the last service field of all its packets that holds a whole one |
| BgapiScanner.FoundSender | bledComm/bledAPI.py:768-771 | and the address and address type in the last scan response |
| BgapiScanner.HandleField | bledComm/bledAPI.py:819-878 | the chain of ifs: which fields raise, and what the service fields add |
| BgapiScanner.SplitAndHandle | bledComm/bledAPI.py:799-878 | the incremental loop does what handling the split fields one by one does |
| BgapiScanner.FieldsRaiseIff | bledComm/bledAPI.py:819-878 | handling raises if and only if some field is a flag or power field without value or manufacturer data |
| BgapiScanner.ScanResponse | bledComm/bledAPI.py:745-888 | on every stream the framer with its stale expected length does what handling the packets of the pure splitting does, raises when that does, and then leaves on the port what stands behind the packet that raised |
| BgapiScanner.StopsWhereItRaises | bledComm/bledAPI.py:752-887 | a call stops at the first byte with which the stream so far raises, and takes in everything if there is none |
| BgapiScanner.PacketsOfStream | bledComm/bledAPI.py:752-763 | whole packets come out of the splitting whatever lies between them, and the beginning of one at the end does not |
| BgapiScanner.FoundIffPacket | bledComm/bledAPI.py:762-887 | the call raises if and only if some packet does; otherwise it reports a find if and only if there was a whole packet, of whatever class |
| BgapiUuids.FirstOfService | bledComm/bledAPI.py:823-859 | types 02 and 03 list UUIDs of 2 bytes, 04 and 05 of 4, 06 and 07 of 16; such a field stands for the first whole one in it |
| BgapiUuids.NoUuid | bledComm/bledAPI.py:823-859 | without a whole one, and for every other type, it stands for none |
| BgapiUuids.LastServiceCounts | bledComm/bledAPI.py:823-859 | the last field that stands for a UUID gives the one returned |
| BgapiUuids.RaisingTypes | bledComm/bledAPI.py:819-878 | types 01 and 0A raise without a value and FF raises always; nothing else does |
| BgapiUuids.OtherTypesChangeNothing | bledComm/bledAPI.py:819-878 | a field of any other type than the service lists leaves UUID and services alone |
| BgapiUuids.PacketFound | bledComm/bledAPI.py:752-888 | a scan response alone on the stream, laid out byte by byte: find, the first UUID of its last service list that has one, sender and address type |
| BgapiUuids.OtherPackets | bledComm/bledAPI.py:767-771 | a packet of another class counts as found and says nothing more; a scan response with less than eleven bytes of payload raises |
| BgapiCommands.PackIs | bledComm/bledAPI.py:42-43 | packing each encoder's values by its format characters raises if and only if a value is out of the range of its character, and gives the packed command otherwise |
| BgapiCommands.Send | bledComm/bledAPI.py:261-265 | an encoder whose pack call or address raises writes nothing; otherwise the packed command is appended |
| BgapiCommands.LengthByte | bledComm/bledAPI.py:261-265 | every encoder writes the number of bytes behind its four-byte header |
| BgapiCommands.UnpackPacked | bledComm/bledAPI.py:641-648 | a packed command can be told from every other and says all its values, the address cut to six bytes |
| BgapiCommands.CommandsAreRecovered | bledComm/bledAPI.py:387-391 | commands written back to back are recovered, all and in order, by their length bytes |
| ArenaString.StepMovesOwner | install/include/google/protobuf/arenastring.h:57-198 | every operation hands strings between field, arena, caller and deletion exactly as the header's comments say, and leaves every string with one owner |
| ArenaString.TextAfter | install/include/google/protobuf/arenastring.h:57-273 | which strings each operation allocates, deletes and writes; every other string is live with its text as before |
| ArenaString.LedgersAfter | install/include/google/protobuf/arenastring.h:57-273 | which string each operation deletes and which it registers with which arena, and that it does so once and touches no other ledger entry |
| ArenaString.StepKeeps | install/include/google/protobuf/arenastring.h:57-273 | each string is live until deleted, owned once, and shown by one field at most, after every allowed operation |
| ArenaString.RunKeeps | install/include/google/protobuf/arenastring.h:57-273 | over every run each heap string keeps exactly one owner, none is deleted twice, and the defaults are never written or deleted |
| ArenaString.StartIsGood | install/include/google/protobuf/arenastring.h:189-198 | fields reset to their defaults with nothing on the heap are where such runs start |
| ArenaString.Program.Perform | install/include/google/protobuf/arenastring.h:57-273 | each call on real field objects that share a heap is one step of the specification |
| ArenaString.Program.RunAll | install/include/google/protobuf/arenastring.h:57-273 | and any allowed sequence of them is its run |
| ArenaString.OperandsLive | install/include/google/protobuf/arenastring.h:57-273 | no operation reads, writes or deletes a string that is dead |
| ArenaString.NothingLeaks | install/include/google/protobuf/arenastring.h:153-159 | once the fields off the arenas are destroyed and the caller holds nothing, every string was deleted once or belongs to exactly one arena |
| ArenaString.StepShows | install/include/google/protobuf/arenastring.h:57-198 | the visible contents change as plain optional strings would; what a caller makes of a mutable string is made of the text shown, or of the default |
| ArenaString.RunShows | install/include/google/protobuf/arenastring.h:57-273 | so they do over every run |
| ArenaString.HandedOutText | install/include/google/protobuf/arenastring.h:83-112 | releasing hands out the text shown in a string no field shows any more, the caller's own unless an arena owns it; NULL when the field is unset |
| ArenaString.HandedInShows | install/include/google/protobuf/arenastring.h:114-130 | a string the caller makes and hands to a field is what the field shows |
| ArenaString.UnshownKeptByRun | install/include/google/protobuf/arenastring.h:79-112 | a string in the caller's hands keeps its text over every run that does not pass it in |
| ArenaString.UnsafeSetDefaultIff | install/include/google/protobuf/arenastring.h:189-198 | resetting keeps conservation if and only if the field answers for no heap string |
| ArenaString.SetAllocatedIff | install/include/google/protobuf/arenastring.h:114-130 | handing over a pointer is safe if and only if it is NULL, a string the caller holds, or off the arenas the default itself |
| ArenaString.UnsafeArenaSetAllocatedIff | install/include/google/protobuf/arenastring.h:132-143 | pointing the field at a string is safe if and only if it shows that already, or on an arena the string is the default or one of that arena no field shows |
| ArenaString.DestroyNoArenaIff | install/include/google/protobuf/arenastring.h:251-256 | destroying without an arena is safe if and only if the field is on none or unset |
| ArenaString.SwapIff | install/include/google/protobuf/arenastring.h:145-150 | swapping pointers is safe if and only if both fields are on the same arena or neither is set |
| ArenaString.ArenaStringPtr.CreateInstance | install/include/google/protobuf/arenastring.h:286-297 | allocates a string with the initial text, registered with the arena if there is one |
| ArenaString.ArenaStringPtr.Set | install/include/google/protobuf/arenastring.h:57-64 | the field shows the value afterwards, in a new string if and only if it was unset |
| ArenaString.ArenaStringPtr.Get | install/include/google/protobuf/arenastring.h:67-69 | the default while unset, the field's own text otherwise |
| ArenaString.ArenaStringPtr.Mutable | install/include/google/protobuf/arenastring.h:71-77 | a string of the field's own that reads as the field did before: the default's text if it was unset |
| ArenaString.ArenaStringPtr.Release | install/include/google/protobuf/arenastring.h:79-98 | NULL when unset, a copy on an arena, the string itself otherwise |
| ArenaString.ArenaStringPtr.UnsafeArenaRelease | install/include/google/protobuf/arenastring.h:100-112 | the string itself on an arena too |
| ArenaString.ArenaStringPtr.SetAllocated | install/include/google/protobuf/arenastring.h:114-130 | the old string is deleted off the arenas only; the new one is registered with the arena |
| ArenaString.ArenaStringPtr.Swap | install/include/google/protobuf/arenastring.h:145-150 | exchanges the two pointers |
| ArenaString.ArenaStringPtr.Destroy | install/include/google/protobuf/arenastring.h:152-159 | deletes the string off the arenas only, leaves the default |
| ArenaString.ArenaStringPtr.ClearToEmpty | install/include/google/protobuf/arenastring.h:161-172 | the field shows the empty string afterwards if and only if it was set or its default is empty, and keeps its string |
| ArenaString.ArenaStringPtr.ClearToDefault | install/include/google/protobuf/arenastring.h:174-187 | the field shows the default's text afterwards, and keeps its string |
| ArenaString.ArenaStringPtr.SetNoArena | install/include/google/protobuf/arenastring.h:207-214 | Set for no arena |
| ArenaString.ArenaStringPtr.MutableNoArena | install/include/google/protobuf/arenastring.h:222-227 | Mutable for no arena |
| ArenaString.ArenaStringPtr.ReleaseNoArena | install/include/google/protobuf/arenastring.h:229-237 | Release for no arena |
| ArenaString.ArenaStringPtr.SetAllocatedNoArena | install/include/google/protobuf/arenastring.h:239-249 | SetAllocated for no arena |
| ArenaString.ArenaStringPtr.DestroyNoArena | install/include/google/protobuf/arenastring.h:251-256 | Destroy for no arena, except that it leaves NULL |
| Metadata.TagRoundTrip | install/include/google/protobuf/metadata.h:116-137 | tag and address of a word can be told apart, and a plain arena address has tag 0 |
| Metadata.WithContainerKeeps | install/include/google/protobuf/metadata.h:80-86 | creating the container lazily changes no arena and no unknown fields |
| Metadata.StepMeans | install/include/google/protobuf/metadata.h:59-153 | every operation does to the word what it would do to a plain pair of arena and unknown fields; Swap exchanges the unknown fields alone in all four combinations and either order of evaluation |
| Metadata.RunKeeps | install/include/google/protobuf/metadata.h:59-153 | over every run no two words share a container, containers off the arenas keep their word, and none is deleted twice |
| Metadata.StartIsGood | install/include/google/protobuf/metadata.h:61-63 | an empty heap without messages is where such runs start |
| Metadata.ArenaConstant | install/include/google/protobuf/metadata.h:59-153 | over every run the arena of a message stays what it was constructed with |
| Metadata.NothingLeaks | install/include/google/protobuf/metadata.h:65-70 | once every message is destructed each container was deleted once or is in the charge of exactly one arena |
| Metadata.InternalMetadataWithArena.Destroy | install/include/google/protobuf/metadata.h:65-70 | deletes the container if and only if there is one and no arena |
| Metadata.InternalMetadataWithArena.UnknownFields | install/include/google/protobuf/metadata.h:72-78 | the unknown fields, empty without a container |
| Metadata.InternalMetadataWithArena.Arena | install/include/google/protobuf/metadata.h:88-94 | the arena from either form of the word |
| Metadata.InternalMetadataWithArena.MutableUnknownFields | install/include/google/protobuf/metadata.h:80-86 | a container holding what the word meant before; nothing else changes |
| Metadata.InternalMetadataWithArena.MutableUnknownFieldsSlow | install/include/google/protobuf/metadata.h:145-153 | a fresh container that remembers the arena |
| Metadata.InternalMetadataWithArena.Swap | install/include/google/protobuf/metadata.h:100-110 | exchanges the unknown fields, each side keeps its arena, no other container changes, nothing is created when neither has any |
| SymbolIndex.LastLessOrEqualIsGreatest | install/include/google/protobuf/descriptor_database.h:236-239 | step one finds the greatest key not above the name |
| SymbolIndex.IsSubSymbolIff | install/include/google/protobuf/descriptor_database.h:185-187 | a name is matched by itself and by what stands in front of one of its dots: foo.bar for foo.bar.baz but not for foo.barbaz |
| SymbolIndex.LessEqIff | install/include/google/protobuf/descriptor_database.h:236-239 | the order of the keys: a prefix, or the lesser character at the first difference |
| SymbolIndex.MatchIsFound | install/include/google/protobuf/descriptor_database.h:203-228 | the argument of the comment: if a match exists, step one finds it |
| SymbolIndex.AtMostOneMatch | install/include/google/protobuf/descriptor_database.h:185-191 | at most one key is the name or a parent of it |
| SymbolIndex.FindSymbolFindsTheMatch | install/include/google/protobuf/descriptor_database.h:193-234 | with valid symbols the two-step lookup returns a key if and only if it is the name or its parent, for every name |
| SymbolIndex.LookupRightIff | install/include/google/protobuf/descriptor_database.h:220-223 | without the restriction on symbol characters the lookup is right for every name if and only if no key stands in front of another one's character below the dot |

## Left out

- Serial ports, sockets, `hub.run`, the console, sleeps and busy waits: inputs are byte or character sequences, outputs
  an appended log. What the scan and group functions print is modelled only as far as it can raise or names groups.
- `std::stof` is a parameter, a partial function from text to bit patterns; `_itoa_s` is its decimal text.
- Binary rounding in the pose computation, and `z_theta`, which is computed and never used.
- `CodedInputStream` refills, `ReadTagFallback` and `SkipField`: their bodies are not part of the repository, so they
  follow the public description of the Protocol Buffers encoding. Where a stream stands after a malformed tag is not
  specified by anything shown; the model leaves it in front of the tag.
- `UnknownFieldSet` beyond being a value that can be assigned and swapped, and `Arena` beyond owning what it is given:
  the death of an arena is not modelled, only that it has each string or container to delete once.
- The five blocks of `main.cpp` that differ in the argument they set are one method called five times; so are the five
  steps of `Server.cpp`.
- Wrap-around of `int` in `ByteSize` and in buffer sizes: nothing reaches it.
- A call of `SerializeToArray` is its body's serializer; descriptor registration, reflection and default instances are
  glue around the codec.
- The second copy of the generated codec, and the blocks of `main.cpp` compiled out under other platforms.
- The pipeline sends before the first complete parse are modelled by length only, because the buffer is uninitialized.
- `ble_rsp_attclient_read_by_group_type` and `ble_rsp_attclient_read_by_handle` have the body of
  `ble_rsp_attclient_find_information`, and `ble_rsp_attclient_read_by_type` that of `ble_rsp_attclient_write_command`.
- `ble_rsp_attributes_read`, `ble_rsp_attributes_read_type`, `ble_rsp_attclient_indicate_confirm`,
  `ble_msg_connection_status_evt_t` and `ble_evt_attclient_find_information_found`: framers like the ones modelled.
- Packets cut across two calls of a framer: each call starts with an empty buffer, so the model states what each call
  takes and leaves nothing pending.
- BgapiEvents.Event: handles and lengths are the ones the wire has room for; nothing else can be sent.
- `GetNoArena`, `ClearToEmptyNoArena` and `ClearToDefaultNoArena` have the bodies of the forms for arenas;
  `AssignWithDefault` is only declared; `UnsafeRawStringPointer` hands out the field's address.
- ArenaString.RunKeeps: addresses are never used again after a deletion, which tells strings apart that an allocator
  might put in the same place.
- `raw_arena_ptr` of the metadata word hands out the word itself.
- The insertion side of the symbol index (`AddSymbol` and the like): only declared, so that no key is a parent of
  another is a premise of the lookup here.
