# A verified model of the DL/T 645-2007 meter gateway

The gateway polls electricity meters over a serial line, turns the bytes that arrive into frames and
readings, and publishes the readings over MQTT. This project models that stack in Dafny, layer by layer, and
proves what each layer promises; the theorems of a layer rest on those of the layer below.

| file | what it models |
|---|---|
| `Bytes.dfy` | bytes, optional values, sequence operations |
| `BcdCodec.dfy` | BCD in 64-bit arithmetic, guard and wrap-around included, and the 0x33 masking |
| `Address.dfy` | six-byte BCD addresses and their twelve-digit text |
| `FrameCodec.dfy` | the frame of section 5.2 of DL/T 645-2007, the leading FE bytes of section 5.3, the checksum |
| `FrameTransceiver.dfy` | the receive buffer: accumulate, decode, consume, trim |
| `Reassembly.dfy` | theorems about every fragmentation of the byte stream |
| `DataItem.dfy`, `MeterReader.dfy` | identifiers, values, and one read transaction |
| `JsonText.dfy`, `JsonRoundTrip.dfy` | JSON string escapes (section 7 of RFC 8259), the substring-search field reader, and why the two fit |
| `Topics.dfy`, `MqttPayload.dfy` | topic names (section 4.7 of MQTT 3.1.1) and payload texts |
| `MqttReporter.dfy`, `ReporterGuarantees.dfy` | the reporter as a state machine of its critical sections, and what holds in every run |
| `Reporter.dfy` | the reporter object, proved to move as that state machine |
| `Scheduler.dfy` | the polling loop under a stop that may come at any moment |
| `Gateway.dfy` | all layers together, from the bytes of a meter to the answer of a query |

`dafny verify dfyconfig.toml` checks everything.

## How the source is modelled

* A loop or an object with fields is a method or a class, proved equal to a specification function or to a
  specification stated outright; the lemmas are about the specification. Bytes are integers below 256 with
  every reduction modulo 256 or 2^64 written out; `b >> 4`, `b & 0x0F` and `(hi << 4) | lo` are `/ 16`,
  `% 16` and `hi * 16 + lo`.
* The channel is the sequence of chunks that its `receive` returns, one for each pass of the receive loop
  before the deadline; any chunk may be empty or longer than the 256 bytes asked for, and the deadline is where the
  sequence ends. Whether the channel is open and accepts what is sent are parameters.
* `char` stands for one byte of a `std::string`. Bytes of 0x80 and above pass through the writer and the reader
  unchanged; the Chinese error names are written as characters above 255, which pass unchanged in the same way, and
  stand for their UTF-8 bytes. White space is that of the C locale.
* Values are reals and powers of ten are exact, so the scale is always positive; `PointMoved` says what a scaled value
  is without them. Time stamps, the printed form of a value and the resolved text of a command are parameters.
* In the reporter each mutex region is one event. A report has two of them, so other threads can come in between;
  connecting, publishing and the arrival of commands are arbitrary. In the scheduler the log of actions is the
  clock, and the stop comes before an arbitrary position of it.

## Where the code falls short of what one might expect

* `encode` truncates the length to one byte, so frames come back exactly when they hold at most 255 data bytes
  (`RoundTripIffLengthFits`).
* `decode` is exact exactly on BCD whose value fits in 64 bits (`DecodeExactIffFits`), as nine bytes always do
  (`NineBytesFit`). Beyond that it yields 0, except when some front part stands for exactly 184467440737095516 and a
  pair of 16 or more follows: the guard lets it through and what is left of the number without 2^64 at that pair comes
  out (`OverflowReads`; `OverflowCanWrap` is an instance). A read then reports `kSuccess` with that value
  (`ReplyExactIffFits`).
* A single wrong byte of a frame is not always detected. It can be accepted, with the right bytes behind it, if and only
  if it is the length byte, or the first byte turned into FE, and all checks that fall inside the altered frame still
  pass (`SingleByteErrorPassesIff`; `LengthErrorCanPass` and `StartErrorCanPass` are instances).
* `kDecodeFailed` is described as a failed decoding, but it is returned for short replies only: a value that is not
  BCD reads as 0 with `kSuccess` (`InvalidDigitsReadAsZero`).
* Control characters other than \b \f \n \r \t are written as `\u` escapes, which the field reader drops; a field
  comes back unchanged exactly without them (`UnchangedIffReadable`).
* A query whose identifier contains `|` can be answered with another meter's reading (`PipeInQueryCollides`);
  without one it never is (`QueryAgreesWithHistory`). With reports from the scheduler the answer is always the right one
  if and only if there is no `|` or what stands behind the last one is not the text of an identifier
  (`AlwaysAgreesIff`).
* `frame.h` describes an error response by two bits of the control code; the code compares with 0xD1, and
  `validate_response` treats every code but 0x91 alike. `design.md` says that the masking keeps delimiters out of
  the data; they are in it exactly when the data hold 0x35 or 0xE3 (`MaskedDelimiters`). The model follows the code.
* `mqtt-reporting-plan.md` has every result reported on its own; `main` hands over batches only. Both kinds of report
  are in the model.
* `kMaxRecvBufferSize` is where trimming starts, not a maximum: a pass leaves at most 1024 bytes exactly when no start
  byte stops the trim early (`BufferFitsIff`), and the buffer can grow beyond any bound (`BufferHasNoBound`). Recovery
  behind noise takes at most `Patience` non-empty chunks (`Resynchronises`).

## Model

| member | source | states |
|---|---|---|
| BcdCodec.DecodeBytes | src/protocol/bcd_codec.cpp:21-34 | the accumulation loop, with its early exits and 64-bit wrap, computes `Decode` |
| BcdCodec.DecodeFloatBytes | src/protocol/bcd_codec.cpp:36-54 | the low-byte-first loop yields `Decode` of the reversed field over the power of ten, zero on early exit included, for all byte strings |
| BcdCodec.Pow10IsPower | src/protocol/bcd_codec.cpp:49-53 | the scale is 10 for one digit, and exponents add up, negative ones included |
| BcdCodec.ScaledIsMoved | src/protocol/bcd_codec.cpp:49-53 | dividing by the scale moves the decimal point: said by factors of 100 and 10 alone, for even and odd, positive and negative counts of digits |
| BcdCodec.FloatOfNineBytes | src/protocol/bcd_codec.cpp:36-54 | a low-byte-first field of up to nine bytes reads as its decimal digits, byte by byte, with the point moved, and as 0 when any digit is not decimal |
| BcdCodec.DecodeExactIffFits | src/protocol/bcd_codec.cpp:21-34 | on BCD of any length the result is the positional value if and only if that value fits in 64 bits, and exactly then no step trips the guard or wraps |
| BcdCodec.InvalidDigitGivesZero | src/protocol/bcd_codec.cpp:25-27 | a non-BCD byte anywhere makes the result 0 |
| BcdCodec.OverflowReads | src/protocol/bcd_codec.cpp:21-34 | every BCD field, of any length, whose number does not fit reads as 0, unless a front part stands for exactly 184467440737095516 and a pair of 16 or more follows; then decoding starts afresh behind that pair and yields the number less 2^64 at its weight exactly when that fits |
| BcdCodec.NineBytesFit | src/protocol/bcd_codec.cpp:21-34 | BCD fields of up to nine bytes are always decoded exactly |
| BcdCodec.OverflowCanWrap | src/protocol/bcd_codec.cpp:28-31 | an instance: behind 184467440737095516 every pair from 16 on decodes to the pair less 16 |
| BcdCodec.EncodeValue | src/protocol/bcd_codec.cpp:56-68 | the digit loop fills the buffer from its end with `Encode` |
| BcdCodec.EncodedValue | src/protocol/bcd_codec.cpp:56-68 | an encoded field is BCD and its positional value is the last `len` digit pairs of the number |
| BcdCodec.DecodeEncode | src/protocol/bcd_codec.cpp:21-68 | decode after encode is the value modulo 100^len for every 64-bit value and every length, without wrap or guard |
| BcdCodec.MaskData | src/protocol/bcd_codec.cpp:70-78 | adds 0x33 to every byte modulo 256 |
| BcdCodec.UnmaskData | src/protocol/bcd_codec.cpp:80-88 | subtracts 0x33 from every byte modulo 256 |
| BcdCodec.MaskingInverts | src/protocol/bcd_codec.cpp:70-88 | masking and unmasking undo each other in both orders |
| FrameCodec.MaskedDelimiters | src/protocol/bcd_codec.cpp:70-78 | the masked data hold a start byte exactly when the data hold 0x35, and an end byte exactly when they hold 0xE3 |
| Address.FromString | src/protocol/address.cpp:36-59 | the parsing loops compute `Parse` |
| Address.ParsesExactlyTwelveDigits | src/protocol/address.cpp:36-59 | exactly the twelve-character decimal strings are accepted |
| Address.ToString | src/protocol/address.cpp:71-79 | the printing loop computes `Text` |
| Address.TextDigits | src/protocol/address.cpp:71-79 | which hexadecimal digit of which byte each of the twelve characters is, in upper case |
| Address.ParseThenText | src/protocol/address.cpp:36-79 | printing undoes parsing |
| Address.TextThenParse | src/protocol/address.cpp:36-79 | parsing a printed address gives it back exactly when all six bytes are BCD, and fails otherwise |
| Address.IsBroadcast | src/protocol/address.cpp:81-89 | true exactly when every byte is 0x99 |
| Address.BroadcastIffNines | src/protocol/address.cpp:71-89 | the broadcast address is the one printed as twelve nines |
| FrameCodec.CalcChecksum | src/protocol/frame_codec.cpp:118-124 | the sum of all bytes modulo 256 |
| FrameCodec.EncodeFrame | src/protocol/frame_codec.cpp:7-48 | appends four FE bytes and the wire form of the frame, length byte truncated |
| FrameCodec.EncodedBytes | src/protocol/frame_codec.cpp:7-48 | an encoded frame is FE FE FE FE and then, byte by byte, 68, address, 68, control, length, data plus 0x33, the byte sum of all that from 68 on, 16 |
| FrameCodec.DecodeBytes | src/protocol/frame_codec.cpp:50-116 | the cursor-based parser computes `Decode` with all its failure branches |
| FrameCodec.DecodeAt | src/protocol/frame_codec.cpp:57-115 | the same behind the leading FE bytes, byte by byte with the cursor |
| FrameCodec.DecodeIsCanonical | src/protocol/frame_codec.cpp:50-116 | a frame and a count are returned exactly when that many first bytes are FE..FE followed by the wire form of the frame |
| FrameCodec.DecodesIffOnWire | src/protocol/frame_codec.cpp:50-116 | the same byte by byte: a frame and a count are returned if and only if that many bytes are bytes FE and then the frame's bytes on the wire, its byte sum included |
| FrameCodec.RoundTripIffLengthFits | src/protocol/frame_codec.cpp:7-116 | decode undoes encode exactly for frames of at most 255 data bytes |
| FrameCodec.ConsumedWithinInput | src/transport/frame_transceiver.cpp:58-65 | the consumed count never exceeds the input, so the clearing branch is dead |
| FrameCodec.DecodeIsPrefixStable | src/protocol/frame_codec.cpp:50-116 | appended bytes never change a successful decoding |
| FrameCodec.StrictPrefixDecodesToNothing | src/protocol/frame_codec.cpp:57-90 | no strict prefix of FE..FE and a wire form decodes |
| FrameCodec.AcceptedIffSumsAgree | src/protocol/frame_codec.cpp:97-107 | altered contents between kept delimiters and length are accepted exactly when body sum and checksum byte moved alike modulo 256, whatever follows |
| FrameCodec.SingleByteErrorPassesIff | src/protocol/frame_codec.cpp:50-116 | for every frame, position and wrong byte: some continuation is accepted if and only if the byte is the length byte or a first byte turned into FE and every check that falls inside the altered frame passes |
| FrameCodec.SingleByteErrorRejected | src/protocol/frame_codec.cpp:50-107 | any other single wrong byte is rejected whatever follows |
| FrameCodec.LengthErrorCanPass | src/protocol/frame_codec.cpp:84-107 | an instance: for every frame, every length byte that asks for at least two bytes more |
| FrameCodec.StartErrorCanPass | src/protocol/frame_codec.cpp:51-107 | an instance: a frame whose contents hold another frame is accepted without its first start byte |
| FrameTransceiver.Transceiver.SendFrame | src/transport/frame_transceiver.cpp:33-37 | empties the buffer and its history and hands the encoded frame to the channel |
| FrameTransceiver.Transceiver.TrimToNextFrameStart | src/transport/frame_transceiver.cpp:15-26 | drops everything before the next start byte after the first position |
| FrameTransceiver.Transceiver.BufferChunk | src/transport/frame_transceiver.cpp:54-72 | one pass of the loop moves the buffer as `Absorb` says |
| FrameTransceiver.Transceiver.AbsorbChunk | src/transport/frame_transceiver.cpp:54-72 | the same, with the received bytes still accounted for |
| FrameTransceiver.Transceiver.ReceiveFrame | src/transport/frame_transceiver.cpp:39-76 | the loop returns the frame, buffer and segments of `Receive`, and what was received stays accounted for |
| FrameTransceiver.AbsorbConserves | src/transport/frame_transceiver.cpp:54-72 | buffer and chunk equal what left the buffer followed by what stays, and consumed bytes are FE..FE and the returned frame |
| Reassembly.ChunkingIndependence | src/transport/frame_transceiver.cpp:15-76 | for every frame, preamble length, tail and split into chunks, empty ones included, the frame is returned at the chunk that completes it and exactly that chunk's rest stays |
| Reassembly.TrimIsLossless | src/transport/frame_transceiver.cpp:15-26 | when a trim fires, the frames of the buffer in every continuation are exactly those of the trimmed buffer |
| Reassembly.PassLeaves | src/transport/frame_transceiver.cpp:15-26 | a pass that returns nothing drops nothing from up to 1024 bytes, and from more exactly the first byte and what comes before the next 68 |
| Reassembly.BufferFitsIff | src/transport/frame_transceiver.cpp:54-72 | a pass that returns nothing leaves at most 1024 bytes exactly when no start byte lies among those that would have to go |
| Reassembly.BufferHasNoBound | src/transport/frame_transceiver.cpp:47-73 | reads of start bytes make the buffer grow without bound and return nothing |
| Reassembly.Resynchronises | src/transport/frame_transceiver.cpp:47-73 | behind any noise the frame or a valid one starting earlier is returned within a bound from the start bytes ahead of it and the room left |
| Reassembly.ResynchronisesInStream | src/transport/frame_transceiver.cpp:47-73 | the same for a frame that is still arriving |
| Reassembly.ReturnedFrameAt | src/transport/frame_transceiver.cpp:57-67 | a returned frame lies contiguously in the bytes seen |
| Reassembly.ReceiveConserves | src/transport/frame_transceiver.cpp:39-76 | one call neither loses, adds nor reorders bytes, and its consumed segment is the returned frame |
| Reassembly.RunConserves | src/transport/frame_transceiver.cpp:33-76 | over any number of calls the received bytes are the segments in order and then the buffer, and the consumed segments are the frames returned, in order |
| DataItem.EncodeIdentifier | src/protocol/data_item.cpp:6-14 | four bytes whose sum with weights 1, 2^8, 2^16 and 2^24 is the identifier |
| DataItem.IdentifierBijection | src/protocol/data_item.cpp:6-14 | identifiers and four-byte strings correspond one to one |
| DataItem.ValueReadBack | src/protocol/data_item.cpp:16-21 | a value below 100^length written in low-byte-first BCD is read back as exactly value / 10^decimals |
| DataItem.ValueExactIffFits | src/protocol/data_item.cpp:16-21 | a BCD field reads as its number / 10^decimals if and only if that number fits in 64 bits, as it does in nine bytes; otherwise as 0 or the wrapped number |
| DataItem.InvalidValueIsZero | src/protocol/data_item.cpp:16-21 | a field with a non-BCD byte reads as zero |
| MeterReader.ValidateResponse | src/app/meter_reader.cpp:86-115 | address, control code, length and identifier are checked in this order |
| MeterReader.Reader.ReadData | src/app/meter_reader.cpp:34-76 | the transaction puts the encoded request on the wire and yields `Read`, independent of earlier exchanges |
| MeterReader.RequestReadsBack | src/app/meter_reader.cpp:78-84 | decoding the request gives the address, code 0x11 and exactly the identifier asked for |
| MeterReader.RequestBytes | src/app/meter_reader.cpp:78-84 | the twenty bytes of a request: FE FE FE FE 68, address, 68 11 04, the identifier low byte first plus 0x33, byte sum, 16 |
| MeterReader.ReadIsSound | src/app/meter_reader.cpp:48-75 | success implies that the bytes received since the request contain a valid reply to it and that the result is the value of its first `data_length` bytes |
| MeterReader.SucceedsIffAnswered | src/app/meter_reader.cpp:52-75 | success exactly when the received frame has the address, code 0x91, the identifier and enough bytes |
| MeterReader.FailureReasons | src/app/meter_reader.cpp:48-75 | every error code is returned for exactly its cause, the first in the order of the checks, and a result exactly on success |
| MeterReader.ReadEndToEnd | src/app/meter_reader.cpp:34-76 | for every address, item, value, preamble, fragmentation and tail the meter's reply yields exactly value / 10^decimals: the value sent with its point moved |
| MeterReader.ReplyBytesAreRead | src/app/meter_reader.cpp:34-76 | the same from the bytes alone, for every reply with code 0x91, whatever its value bytes: up to nine of them read as their decimal digits with the point moved, or as 0 |
| MeterReader.ReplyExactIffFits | src/app/meter_reader.cpp:52-75 | a reply with a BCD value succeeds, with exactly the number sent / 10^decimals if and only if it fits in 64 bits, and otherwise with 0 or the wrapped number |
| MeterReader.InvalidDigitsReadAsZero | src/app/meter_reader.cpp:69-75 | a reply with a non-BCD value succeeds with 0 |
| JsonText.EscapeString | src/app/mqtt_reporter.cpp:60-97 | the escaping loop computes `Escape` |
| JsonText.SkipSpaceFrom | src/app/mqtt_query_payload.cpp:14-18 | moves the cursor behind the white space |
| JsonText.GetString | src/app/mqtt_query_payload.cpp:79-144 | the search with its retries computes `Lookup` |
| JsonText.ReadString | src/app/mqtt_query_payload.cpp:98-141 | the unescaping loop computes `Unescape` |
| JsonRoundTrip.UnescapeEscape | src/app/mqtt_query_payload.cpp:99-141 | an escaped string followed by a quote and anything reads back as its visible part |
| JsonRoundTrip.WritesJson | src/app/mqtt_reporter.cpp:60-97 | every escaped string is a string of RFC 8259 that means exactly the string given, character by character |
| JsonRoundTrip.ReadsJson | src/app/mqtt_query_payload.cpp:99-141 | every string of RFC 8259 is read as what it means, up to \u escapes, and nothing is read when its closing quote is missing |
| JsonRoundTrip.ReadsOtherText | src/app/mqtt_query_payload.cpp:107-141 | escape letters that JSON does not have stand for themselves, and text without a quote is no string |
| JsonRoundTrip.VisibleIffReadable | src/app/mqtt_query_payload.cpp:128-132 | a string reads back unchanged exactly when its only control characters have a short escape |
| JsonRoundTrip.EscapeHidesQuotes | src/app/mqtt_reporter.cpp:60-97 | every quote in an escaped string follows a backslash |
| JsonRoundTrip.SkipString | src/app/mqtt_query_payload.cpp:82-92 | the search passes over any JSON string, even one that contains the quoted key |
| JsonRoundTrip.SpacedField | src/app/mqtt_query_payload.cpp:14-18 | blanks, tabs, line feeds, vertical tabs, form feeds and carriage returns before the key and around the colon do not matter |
| JsonRoundTrip.LookupInSpacedObject | src/app/mqtt_query_payload.cpp:79-144 | in every flat JSON object, laid out with any white space, the search answers with exactly the first field of the key, or nothing |
| JsonRoundTrip.LookupInObject | src/app/mqtt_query_payload.cpp:79-144 | in particular in every object that the gateway writes |
| MqttPayload.BuildPayload | src/app/mqtt_reporter.cpp:169-193 | the appended text is the object of the payload's fields in order |
| MqttPayload.PayloadText | src/app/mqtt_reporter.cpp:169-193 | the whole text of a payload, field by field: head, item, outcome, time |
| MqttPayload.BuildBatchPayload | src/app/mqtt_reporter.cpp:195-228 | the appended text is the head, and the items separated by commas |
| MqttPayload.BatchText | src/app/mqtt_reporter.cpp:195-228 | the whole text of a batch: head, time, and as many objects as items, the kth with the fields of the kth item |
| MqttPayload.IntTextReadsBack | src/app/mqtt_reporter.cpp:188-190 | integers are printed in decimal digits that stand for them, without leading zeros |
| MqttPayload.ErrorTexts | src/app/mqtt_reporter.cpp:39-58 | number and name of every error code |
| MqttPayload.PayloadRoundTrip | src/app/mqtt_reporter.cpp:169-193 | every text field is read back for its key whatever the fields contain; the unit exactly in success payloads, the error name exactly in the others |
| MqttPayload.UnchangedIffReadable | src/app/mqtt_query_payload.cpp:107-136 | a field comes back unchanged exactly when its only control characters have a short escape |
| MqttPayload.PayloadBegins | src/app/mqtt_reporter.cpp:179-190 | the outcome and the printed value or error number stand in the payload as given |
| MqttPayload.BatchHeadRoundTrip | src/app/mqtt_reporter.cpp:204-207 | gateway, meter, address and time stamp are read back from a batch whatever its items contain |
| Topics.TopicSegment | src/app/mqtt_reporter.cpp:23-37 | letters, digits, '_', '-' and '.' stay, everything else becomes '_', and the empty name becomes x |
| Topics.SegmentIsSafe | src/app/mqtt_reporter.cpp:23-37 | segments are non-empty and free of separators and wildcards, safe names stay as they are, and the operation is idempotent |
| Topics.ItemTopicShape | src/app/mqtt_reporter.cpp:148-154 | an item topic has exactly its six intended levels |
| Topics.BatchTopicShape | src/app/mqtt_reporter.cpp:156-161 | a batch topic has exactly its five intended levels |
| Topics.CommandTopicShapes | src/app/mqtt_reporter.cpp:163-167 | command and response topics have exactly their four and five levels |
| Topics.SameLevels | src/app/mqtt_reporter.cpp:148-167 | topics with the same levels are the same |
| Topics.TopicsAreSeparate | src/app/mqtt_reporter.cpp:148-167 | no published topic equals a command topic of any gateway, and the kinds of topics never coincide |
| MqttReporter.StepKeepsInv | src/app/mqtt_reporter.cpp:230-296 | every step of every thread keeps the bound, the order, the fates of the jobs, a clean exit and the cache |
| MqttReporter.RunKeepsInv | src/app/mqtt_reporter.cpp:448-477 | so does every run |
| ReporterGuarantees.QueueSafety | src/app/mqtt_reporter.cpp:249-293 | in every reachable state the queue is bounded, accepted is dequeued then queued, each dequeued job is published, lost or in flight, and published jobs are an in-order subsequence of accepted ones |
| ReporterGuarantees.JobsConserved | src/app/mqtt_reporter.cpp:240-293 | in every run the jobs that the reports built are exactly those accepted, dropped or not yet offered |
| ReporterGuarantees.MessagesSayReports | src/app/mqtt_reporter.cpp:230-296 | every message accepted, dropped, published or lost in a run has the topic levels and, field by field, the text of one of its reports or batches |
| ReporterGuarantees.DropsOnlyWhenFull | src/app/mqtt_reporter.cpp:251-257 | a job is dropped only by a full queue, which stays as it is |
| ReporterGuarantees.ExitMeansDrained | src/app/mqtt_reporter.cpp:451-454 | a worker that is gone has taken every accepted job if none was accepted after the shutdown |
| ReporterGuarantees.WorkerStaysUntilShutdown | src/app/mqtt_reporter.cpp:124-140 | an enabled reporter runs exactly until the shutdown, and its worker never leaves before |
| ReporterGuarantees.ShutdownDrains | src/app/mqtt_reporter.cpp:448-477 | from any moment after the shutdown, with anything in between and whatever fails: the worker takes at most five steps for each job queued or still accepted and five more, can always go on until it leaves, and has then taken every job accepted by that moment |
| ReporterGuarantees.TurnIsRun | src/app/mqtt_reporter.cpp:449-475 | a turn with any commands is a run that takes the oldest job and publishes or loses it, or ends the worker, and answers the first message, and without a job the second one, if they are text on the command topic that names a pair |
| ReporterGuarantees.TurnAgreesWithHistory | src/app/mqtt_reporter.cpp:416-475 | in every reachable state a connected turn answers a message exactly when its topic has the levels prefix, gateway, cmd, query and its text names a pair, with the answer that the history calls for, and nothing else |
| ReporterGuarantees.KeyInjective | src/app/mqtt_reporter.cpp:19-21 | keys of pairs with pipe-free identifiers are different for different pairs |
| ReporterGuarantees.QueryAgreesWithHistory | src/app/mqtt_reporter.cpp:377-414 | in every reachable state a query is answered with the payload of the latest report of the run for exactly that pair, its job dropped or not, or with no_cache |
| ReporterGuarantees.AnswersAgreeWithHistory | src/app/mqtt_reporter.cpp:377-414 | over a whole run the answers sent are, in order, those that the reports made before each command call for |
| ReporterGuarantees.PipeInQueryCollides | src/app/mqtt_reporter.cpp:394-413 | every identifier with a pipe can be answered with a reading of a different pair |
| ReporterGuarantees.NoCacheReadBack | src/app/mqtt_reporter.cpp:403-407 | a miss is answered with the message no_cache and the names asked for |
| ReporterGuarantees.NoCacheText | src/app/mqtt_reporter.cpp:398-409 | the topic levels and the whole text of a miss, field by field |
| ReporterGuarantees.NoSelfCommands | src/app/mqtt_reporter.cpp:400-439 | in no run is anything queued or answered on the command topic |
| ReporterGuarantees.CommandIsQuery | src/app/mqtt_reporter.cpp:384-392 | a flat JSON object, laid out in any way, is a query for its first meter and its first di, and none without both |
| ReporterGuarantees.CommandEndToEnd | src/app/mqtt_reporter.cpp:377-414 | such a command for readable names is answered as the history calls for, and the answer names the same pair |
| Reporter.Reporter.constructor | src/app/mqtt_reporter.cpp:124-131 | a new reporter is in the initial state |
| Reporter.Reporter.CacheJob | src/app/mqtt_reporter.cpp:240-247 | the first critical section is the event `CacheReport`, and the job built is that of the report |
| Reporter.Reporter.OfferJob | src/app/mqtt_reporter.cpp:249-259 | the second one, at any later moment, is the event `OfferReport` of its job |
| Reporter.Reporter.Report | src/app/mqtt_reporter.cpp:230-261 | both without interruption; nothing when disabled |
| Reporter.Reporter.ReportBatch | src/app/mqtt_reporter.cpp:263-296 | a batch refreshes the cache of every item and offers one job; nothing when disabled or empty |
| Reporter.Reporter.TakeOne | src/app/mqtt_reporter.cpp:450-461 | the worker leaves, takes the oldest job, or takes none |
| Reporter.Reporter.TryConnect | src/app/mqtt_reporter.cpp:463-465 | a failed connection loses the job in hand, and the state moves by `Connect` |
| Reporter.Reporter.HandleIncoming | src/app/mqtt_reporter.cpp:416-446 | a message is answered from the cache exactly when its topic has the levels prefix, gateway, cmd, query, its text is resolved and names a pair, and the answer gets out; the state moves by `Command` |
| Reporter.Reporter.PublishJob | src/app/mqtt_reporter.cpp:469-470 | the job in hand is published or lost, and the state moves by `Finish` |
| Reporter.Reporter.Serve | src/app/mqtt_reporter.cpp:467-474 | one look for commands before a job, two without one, then the job |
| Reporter.Reporter.WorkerTurn | src/app/mqtt_reporter.cpp:449-475 | a turn of the loop, commands included, is the run `TurnEvents`, and hands the broker exactly the job and the answers of `TurnAnswers` |
| Reporter.Reporter.Stop | src/app/mqtt_reporter.cpp:137-140 | clears the running flag and nothing else |
| Reporter.Reporter.HandleQuery | src/app/mqtt_reporter.cpp:384-413 | the answer is the one of `CommandResponse` on the current cache |
| Scheduler.DiHexFaithful | src/app/scheduler.cpp:60-63 | identifier texts have eight upper-case hexadecimal digits, determine the identifier and contain no pipe |
| Scheduler.Scheduler.Look | src/app/scheduler.cpp:36-38 | a look at the flag fails exactly from the stop on |
| Scheduler.Scheduler.ReadItem | src/app/scheduler.cpp:60-76 | one read and its item callback |
| Scheduler.Scheduler.PollMeter | src/app/scheduler.cpp:51-81 | all item callbacks and the batch of a meter, or those of some first items when the stop is seen |
| Scheduler.Scheduler.PollOnce | src/app/scheduler.cpp:34-83 | the callbacks are a prefix of the undisturbed poll, all of it unless the stop was seen, and the poll is over within four actions of the stop |
| Scheduler.PartIsPrefix | src/app/scheduler.cpp:51-77 | what was reported when a poll stops inside a meter is a prefix of the undisturbed poll |
| Scheduler.Scheduler.Wait | src/app/scheduler.cpp:22-24 | the pause is exactly the configured number of looks, one second each, or ends at the first look after the stop, and reports nothing |
| Scheduler.Scheduler.Run | src/app/scheduler.cpp:15-28 | complete rounds and a prefix of the next, over within six actions of the stop; until then round follows round, each bounded in length and with the whole pause behind it |
| Scheduler.AtMostOneReadAfterStop | src/app/scheduler.cpp:52-65 | whenever the stop comes, at most one read completes after it |
| Scheduler.BatchRepeatsItems | src/app/scheduler.cpp:67-81 | in every trace, wherever it was stopped, each batch comes right behind the item callbacks of exactly its items, at least one, with the same meter and address, and behind the end of the batch before |
| Gateway.ReportsAreReads | src/main.cpp:80-84 | in every run fed by a scheduler's trace, stopped anywhere, the reports are one by one and in order those of the first reads of enabled items of served meters |
| Gateway.RunIdsExactly | src/app/scheduler.cpp:34-83 | these reads are those of enabled items of enabled meters with a reader, each once, in the order poll, meter, item |
| Gateway.BatchesCarryReads | src/app/mqtt_reporter.cpp:195-228 | every message that such a run queues, drops, publishes or loses is the batch of one meter in one poll: its topic, head and then one object for each enabled item, in order, with the outcome of exactly that read |
| Gateway.FedReportsUseIdentifiers | src/app/scheduler.cpp:60-63 | in every such run all reports use eight-digit identifiers only |
| Gateway.AlwaysAgreesIff | src/app/mqtt_reporter.cpp:394-413 | a query agrees with the history in every such run if and only if its identifier has no pipe or what stands behind the last one is not the text of an identifier |
| Gateway.QueryForIdentifier | src/main.cpp:71-84 | in every state that such a run reaches, queries for any identifier agree with the history |
| Gateway.QueryAnswersRead | src/app/mqtt_reporter.cpp:394-413 | and are answered with the payload of the latest reported read for the meter's name and the identifier, or with no_cache if there is none |
| Gateway.AnswerSaysRead | src/app/mqtt_reporter.cpp:384-413 | the topic levels and the whole text, field by field, of the answer to any command for a reported pair, laid out in any way: names, address and outcome of its latest reported read |
| Gateway.AnswerCarriesValue | src/main.cpp:71-84 | from byte to answer: if the meter sent a value during that read, in any pieces, behind FE bytes and with anything after it, that text carries success, the printed value with its point moved by the item's decimal digits, and the unit |
| Gateway.AnswerIsJustified | src/main.cpp:71-84 | from answer to byte: if the answer reports a value, the bytes received during that read contain a valid reply of the meter for the identifier, and the value is that of its first `data_length` bytes |

## Left out

- Serial port and select calls, the MQTT client library, logging, YAML loading and start-up: input and output without logic of their own.
- `resolve_mqtt_query_json_payload`: trimming, the byte order mark and the reading of local files; commands enter the model as resolved text.
- `Config::validate`, `ResultReporter`, `Frame::error_code`, `operator==` and getters: single checks that would only add easy members.
- Floating point: rounding, infinities and the printed form of a value; a printed value is any non-empty text of digits, points and signs.
- BcdCodec.Pow10: exact for every exponent, so the source's branch for a scale of zero or less, reachable only through underflow, does not occur.
- Negative `data_length`: used unchecked by the source, where it is undefined behaviour; the model takes a natural number, and overflow of `4 + data_length` is not modelled.
- Waiting on the condition variable: the worker may wake at any time, which includes time-outs and spurious wake-ups; which wake-up happens when is not modelled.
- Reporter.Reporter.Report: no other thread comes in between its two critical sections; those are `CacheJob` and `OfferJob`, and the state machine's runs interleave them with everything else.
- Reporter.Reporter.WorkerTurn: no other thread comes in between its steps; each step alone is a method, and the state machine's runs interleave these with everything else.
- Delivery: a job that was taken while connecting or publishing fails is lost, as in the source; at-least-once delivery is not claimed.
- Nested lookups: that a key of an item inside a batch's `items` array is found is not stated, as nothing reads it.
