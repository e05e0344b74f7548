# Verified model of an MQTT and device-shadow SDK

The satellite client carries its telemetry over an MQTT 3.1.1 client with a JSON "device shadow" layer
(`satclient/release/src/io/mqtt/aws-iot-sdk-2-1-1`).  This project models that SDK in Dafny and proves what its
parts promise each other.

`Wrappers`, `SizeT` and `ReturnCodes` (in `Common.dfy`) hold what several modules share.

- **Tokenizer** (`JsonTokens`, `Jsmn`, `JsmnStack`, `JsmnAccept`, `JsmnResume`, `JsmnSizes`, `JsmnParents`). jsmn
  tokenizes JSON in place, without a stack and without allocation.  The class `Parser` updates the fields and the
  token array as the code does and is proved against a step function; that function refines a machine with an explicit
  stack of typed brackets.  From it follow the nesting of tokens, the exact language accepted, the agreement of
  counting mode, exact resumption after running out of tokens or input, and what the size fields count.  `Dialect`
  selects the default build of the 2-1-1 tree or the older strict tokenizer of the `mbedtls` tree.
- **Wire layer** (`Wire`, `PacketReader`, `Publish`, `TopicRequests`, `Connect`, `TopicMatch`).  Serializers write
  into arrays through an advancing index and are proved to write exactly one packet and nothing beyond it; reference
  parsers written from the standard recover the fields.  The reader frames any stream of packets.  Topic matching is
  compared with the level-wise relation of section 4.7 of MQTT 3.1.1.
- **Client state machine** (`HandlerTable`, `ClientSpec`, `ClientCalls`, `ClientTurns`, `Client`, `ClientRuns`).  The
  class `Client` runs against a script of what the network, the clock and the application do: replies, failures,
  elapsed time, and API calls made by callbacks, nested to any depth.  `ClientSpec` says what each call promises, from
  the state it finds to the one it leaves; the calls that callbacks make, and the callbacks run, are recorded, and
  each has kept its promise.  Every call keeps the state discipline; keep-alive and reconnect back-off are stated over
  whole histories.  The table of handlers is part of the client: deliveries, subscriptions and resubscriptions work on
  it.
- **Shadow layer** (`ShadowJson`, `ShadowReader`, `ShadowBuilder`, `ShadowTopics`, `ShadowTable`, `ShadowRecords`).
  Documents are built in a character buffer and parsed back by the tokenizer, and a reader of tokens recovers the keys
  and values.  The table of shared subscriptions is tied to the list of waiting acknowledgements by reference counts.

What comes from outside is a parameter: the bytes of the stream, whether a write, a subscribe or a publish succeeds,
the time, the text of a message, the calls of a callback.  Sizes that the code keeps in 8, 16, 32 or 64 bits and that
can wrap are reduced explicitly (subscription counts, token lengths, sequence numbers, back-off intervals, the
streamed remaining length, the payload length).

Where the code falls short of what it sets out to do, the model keeps the code and the theorem states exactly when
the intent is met:

- the streamed length decoder has no effective limit on length bytes (`PacketReader.DecodersAgree`);
- the receive check compares only the body with the buffer (`PacketReader.StoredPacketFits`, `PacketReader.LargestBodies`,
  `PacketReader.OverrunsBuffer`);
- a QoS 1 message without room for its id gets a wrapped payload length (`Publish.PayloadInside`);
- one granted code more than expected is accepted (`TopicRequests.SubackCodes`), and the session flag of CONNACK is
  read from the wrong bit (`Connect.ConnackRoundTrip`);
- the serializers accept requests that the standard calls malformed (`TopicRequests.ParseEncode`, `Connect.ParseEncode`);
- wildcards do not match empty levels and `#` does not include the parent level (`TopicMatch.DecidesLevels`,
  `TopicMatch.Departures`);
- a handler that connects anew while a connect waits for its reply decides the keep-alive interval of both
  (`ClientRuns.HandlerReconnects`);
- a reconnect resubscribes the slots before the first unused one, and unsubscribing leaves unused slots
  (`HandlerTable.RenewsAll`, `HandlerTable.ClearLeavesHole`, `ClientRuns.ReconnectRenews`, `ClientRuns.ForgetsTopic`);
- continuing a parse is exact unless the cut splits a bare primitive (`JsmnResume.ResumeAfterMore`);
- documents of more than 120 tokens are built but not accepted, and an earlier string that spells the key is taken for
  it (`ShadowJson.ExtractsWhatWasBuilt`, `ShadowJson.TakesEarlierKey`, `ShadowJson.TooManyFields`);
- a rejection is taken for an acceptance exactly when "accepted" occurs in the thing name or after the topic
  (`ShadowTopics.StatusIsRight`, `ShadowTopics.MistakesRejection`);
- a client token may be longer than the buffers it is extracted to (`ShadowBuilder.TokenFits`, `ShadowBuilder.TokenOverflows`);
- a field may be reported as written beyond the end of its document (`ShadowBuilder.FieldSucceeds`,
  `ShadowBuilder.SectionSucceeds`, `ShadowBuilder.FieldOverruns`);
- a packet that fills the write buffer is never sent (`Publish.NeverSent`);
- an action whose publish fails keeps its reference, a failed subscribe keeps an entry, and a full table is reported as
  success (`ShadowRecords.Records.InternalAction`, `ShadowRecords.Records.SubscribeToActionAcks`).

Checking everything: `dafny verify dfyconfig.toml`.

## Model

| member | source | states |
|---|---|---|
| JsonTokens.ScanString | satclient/release/src/io/mqtt/aws-iot-sdk-2-1-1/external_libs/jsmn/jsmn.c:114-176 | A string scan that succeeds stops on a closing quote inside the text. |
| JsonTokens.ScanPrimitive | satclient/release/src/io/mqtt/aws-iot-sdk-2-1-1/external_libs/jsmn/jsmn.c:65-109 | A bare primitive consists of printable characters up to a delimiter or, outside strict mode, the end of the input. |
| JsonTokens.Lex | satclient/release/src/io/mqtt/aws-iot-sdk-2-1-1/external_libs/jsmn/jsmn.c:188-319 | What one iteration of the main loop sees: atoms lie inside the text and advance the position, and lexical errors are INVAL or PART. |
| JsonTokens.CharactersLexed | satclient/release/src/io/mqtt/aws-iot-sdk-2-1-1/external_libs/jsmn/jsmn.c:188-319 | White space is the four characters of section 2 of RFC 8259, and each of its six structural characters has its own lexeme. |
| JsonTokens.StringsAreScanned | satclient/release/src/io/mqtt/aws-iot-sdk-2-1-1/external_libs/jsmn/jsmn.c:114-176 | A string ends at a given quote if and only if what stands before it is a string body of section 7 of RFC 8259: eight escaped characters, or four hexadecimal digits after a u; control characters but the NUL are let through. |
| JsonTokens.PrimitivesAreScanned | satclient/release/src/io/mqtt/aws-iot-sdk-2-1-1/external_libs/jsmn/jsmn.c:65-109 | A bare primitive ends at an index if and only if it has only printable characters, none of them a delimiter, up to there, and a delimiter or the end follows. |
| JsonTokens.StrictPrimitives | satclient/release/src/io/mqtt/aws-iot-sdk/mbedtls/external_libs/jsmn/jsmn.c:230-330 | The older tokenizer rejects a primitive if and only if its first character is not a minus, a digit, t, f or n, or its scan fails. |
| Jsmn.StepValid | satclient/release/src/io/mqtt/aws-iot-sdk-2-1-1/external_libs/jsmn/jsmn.c:188-319 | One iteration keeps -1 <= toksuper < toknext, keeps kind, start and, once closed, end of every earlier token, emits at most one token, advances the position, and fails only with a negative code. |
| Jsmn.RunValid | satclient/release/src/io/mqtt/aws-iot-sdk-2-1-1/external_libs/jsmn/jsmn.c:181-330 | Every call of the tokenizer, whatever its input and outcome, keeps that invariant. |
| Jsmn.Parser.AllocToken | satclient/release/src/io/mqtt/aws-iot-sdk-2-1-1/external_libs/jsmn/jsmn.c:36-49 | Takes the next unused array entry and resets its fields, or reports a full array and changes nothing. |
| Jsmn.Parser.EmitToken | satclient/release/src/io/mqtt/aws-iot-sdk-2-1-1/external_libs/jsmn/jsmn.c:54-60 | Appends one filled token to the used prefix of the array, or reports a full array and changes nothing. |
| Jsmn.Parser.SkipPrimitive | satclient/release/src/io/mqtt/aws-iot-sdk-2-1-1/external_libs/jsmn/jsmn.c:65-92 | The scanning loop ends where the scan function says, and puts the position back on failure. |
| Jsmn.Parser.SkipHex | satclient/release/src/io/mqtt/aws-iot-sdk-2-1-1/external_libs/jsmn/jsmn.c:155-165 | Up to four hexadecimal digits after \u; another character fails. |
| Jsmn.Parser.SkipString | satclient/release/src/io/mqtt/aws-iot-sdk-2-1-1/external_libs/jsmn/jsmn.c:114-176 | The scanning loop ends on the closing quote, or puts the position back and says whether the string was bad or cut short. |
| Jsmn.Parser.ParseAtom | satclient/release/src/io/mqtt/aws-iot-sdk-2-1-1/external_libs/jsmn/jsmn.c:93-109 | Emitting a string or primitive in place is the step function on the used prefix of the array; entries beyond it are untouched, and on a full array nothing changes. |
| Jsmn.Parser.FindOpen | satclient/release/src/io/mqtt/aws-iot-sdk-2-1-1/external_libs/jsmn/jsmn.c:223-242 | The backward scan returns the last open token, or -1. |
| Jsmn.Parser.FindOpenContainer | satclient/release/src/io/mqtt/aws-iot-sdk-2-1-1/external_libs/jsmn/jsmn.c:255-275 | The scan at a comma returns the last open object or array, or -1. |
| Jsmn.Parser.BumpSuper | satclient/release/src/io/mqtt/aws-iot-sdk-2-1-1/external_libs/jsmn/jsmn.c:246-248 | Exactly the size of the current parent is incremented. |
| Jsmn.Parser.OpenBracket | satclient/release/src/io/mqtt/aws-iot-sdk-2-1-1/external_libs/jsmn/jsmn.c:194-212 | The case of an opening bracket, in place, is the step function. |
| Jsmn.Parser.CloseBracket | satclient/release/src/io/mqtt/aws-iot-sdk-2-1-1/external_libs/jsmn/jsmn.c:213-243 | The case of a closing bracket, in place, is the step function: it closes the innermost open token if the types agree and fails otherwise. |
| Jsmn.Parser.Dispatch | satclient/release/src/io/mqtt/aws-iot-sdk-2-1-1/external_libs/jsmn/jsmn.c:188-319 | Every case of the loop body, in place, is the step function. |
| Jsmn.Parser.Parse | satclient/release/src/io/mqtt/aws-iot-sdk-2-1-1/external_libs/jsmn/jsmn.c:181-330 | The whole in-place call leaves the parser fields, the used tokens and the return code that the run function defines, from any valid state; unused entries are untouched. |
| Jsmn.Parser.CountTokens | satclient/release/src/io/mqtt/aws-iot-sdk-2-1-1/external_libs/jsmn/jsmn.c:181-330 | A call without a token array returns the counting run, changes no token, and moves toksuper exactly when it comes past a colon. |
| JsmnStack.ScanIsTop | satclient/release/src/io/mqtt/aws-iot-sdk-2-1-1/external_libs/jsmn/jsmn.c:223-242 | The backward scan for an open token finds the top of the stack, and scanning on below it the rest. |
| JsmnStack.StepRefines | satclient/release/src/io/mqtt/aws-iot-sdk-2-1-1/external_libs/jsmn/jsmn.c:188-319 | One iteration of the tokenizer is one move of a machine with an explicit stack of typed brackets. |
| JsmnStack.RunRefines | satclient/release/src/io/mqtt/aws-iot-sdk-2-1-1/external_libs/jsmn/jsmn.c:181-330 | From any valid state a whole call is a run of the stack machine: same return code, same token kinds and intervals, and the open tokens in index order are exactly the stack. |
| JsmnStack.ExecuteNests | satclient/release/src/io/mqtt/aws-iot-sdk-2-1-1/external_libs/jsmn/jsmn.c:188-330 | The stack machine keeps its tokens nested, from any nested state. |
| JsmnStack.TokensNest | satclient/release/src/io/mqtt/aws-iot-sdk-2-1-1/external_libs/jsmn/jsmn.c:36-60 | For every input and outcome, token starts increase with the index, any two intervals are disjoint or nested, and each token sits on its own delimiters; on success all lie within the input and the return code is their number. |
| JsmnStack.ExecuteCount | satclient/release/src/io/mqtt/aws-iot-sdk-2-1-1/external_libs/jsmn/jsmn.c:321-330 | A non-negative return code is the number of tokens, and then no container is open. |
| JsmnAccept.ReduceIsDyck | satclient/release/src/io/mqtt/aws-iot-sdk-2-1-1/external_libs/jsmn/jsmn.c:213-243 | Reducing a bracket word on a typed stack ends empty if and only if the word is balanced in the sense of the usual grammar. |
| JsmnAccept.ExecuteVerdict | satclient/release/src/io/mqtt/aws-iot-sdk-2-1-1/external_libs/jsmn/jsmn.c:188-330 | With room for every token, the rest of a run returns what the brackets still to come and the lexical ending call for. |
| JsmnAccept.AcceptsExactly | satclient/release/src/io/mqtt/aws-iot-sdk-2-1-1/external_libs/jsmn/jsmn.c:181-330 | With enough tokens a parse never runs out; it succeeds if and only if lexing reaches the end and the brackets outside strings are balanced; INVAL and PART are characterised likewise. |
| JsmnAccept.CountIsWanted | satclient/release/src/io/mqtt/aws-iot-sdk-2-1-1/external_libs/jsmn/jsmn.c:181-330 | The counting call returns the number of tokens the input asks for, or its lexical error. |
| JsmnAccept.ExecuteShort | satclient/release/src/io/mqtt/aws-iot-sdk-2-1-1/external_libs/jsmn/jsmn.c:98-102 | With fewer tokens than the input asks for no parse succeeds. |
| JsmnAccept.CountingAgrees | satclient/release/src/io/mqtt/aws-iot-sdk-2-1-1/external_libs/jsmn/jsmn.c:181-330 | Token mode returning n >= 0 makes counting mode return n; if counting returns n, a parse with at least n tokens is never out of tokens and one with fewer never succeeds. |
| JsmnResume.RunRoom | satclient/release/src/io/mqtt/aws-iot-sdk-2-1-1/external_libs/jsmn/jsmn.c:98-102 | A call that did not run out of tokens gives the same with a larger array. |
| JsmnResume.ResumeAfterNomem | satclient/release/src/io/mqtt/aws-iot-sdk-2-1-1/external_libs/jsmn/jsmn.c:131-135 | Continuing after NOMEM with a larger array equals having had that array from the start. |
| JsmnResume.RetryIsFresh | satclient/release/src/io/mqtt/aws-iot-sdk-2-1-1/external_libs/jsmn/jsmn.c:181-330 | However often a parse runs out of tokens, growing the array ends in the result, parser state and tokens of one fresh parse with the largest array. |
| JsmnResume.StringStable | satclient/release/src/io/mqtt/aws-iot-sdk-2-1-1/external_libs/jsmn/jsmn.c:114-176 | More input changes the scan of a string only if it was cut short. |
| JsmnResume.PrimitiveStable | satclient/release/src/io/mqtt/aws-iot-sdk-2-1-1/external_libs/jsmn/jsmn.c:65-109 | More input changes the scan of a primitive only if it ran to the end of the input and the next character continues it. |
| JsmnResume.LexStable | satclient/release/src/io/mqtt/aws-iot-sdk-2-1-1/external_libs/jsmn/jsmn.c:188-319 | More input changes a lexeme only in those two cases. |
| JsmnResume.ResumeAfterMore | satclient/release/src/io/mqtt/aws-iot-sdk-2-1-1/external_libs/jsmn/jsmn.c:174-176 | Continuing a parse, whatever it returned, on the extended input equals one parse of the whole input if and only if the cut does not split a bare primitive. |
| JsmnResume.CutsNumber | satclient/release/src/io/mqtt/aws-iot-sdk-2-1-1/external_libs/jsmn/jsmn.c:65-109 | A concrete cut that splits a primitive: the number 12 after its first digit. |
| JsmnResume.FeedIsFresh | satclient/release/src/io/mqtt/aws-iot-sdk-2-1-1/external_libs/jsmn/jsmn.c:181-330 | Input arriving in any number of pieces, where no cut splits a bare primitive of the call before it, gives the parse of the whole; cuts inside strings, which end a call with PART, are allowed. |
| JsmnSizes.StepConserves | satclient/release/src/io/mqtt/aws-iot-sdk-2-1-1/external_libs/jsmn/jsmn.c:186-210 | Every emitted token is either counted in exactly one size field or emitted while toksuper is -1. |
| JsmnSizes.SizesConserved | satclient/release/src/io/mqtt/aws-iot-sdk-2-1-1/external_libs/jsmn/jsmn.c:246-287 | Over any run, sum of sizes plus rootless tokens grows by exactly the number of tokens emitted. |
| JsmnSizes.NewParent | satclient/release/src/io/mqtt/aws-iot-sdk/mbedtls/external_libs/jsmn/jsmn.c:200-260 | For the older tokenizer, a token read now has the innermost open container as its innermost enclosing one. |
| JsmnSizes.StepCounts | satclient/release/src/io/mqtt/aws-iot-sdk/mbedtls/external_libs/jsmn/jsmn.c:200-320 | One iteration of the older tokenizer keeps toksuper on the innermost open container and sizes equal to child counts. |
| JsmnSizes.StrictSizesCountChildren | satclient/release/src/io/mqtt/aws-iot-sdk/mbedtls/external_libs/jsmn/jsmn.c:193-332 | For every input and outcome of the older tokenizer, toksuper is the innermost open container or -1, a container's size is the number of tokens whose innermost enclosing container it is, and strings and primitives have size 0. |
| JsmnParents.StepParented | satclient/release/src/io/mqtt/aws-iot-sdk-2-1-1/external_libs/jsmn/jsmn.c:246-287 | For the default tokenizer, one iteration keeps toksuper on the parent the text gives to what comes next, and each size equal to the number of tokens whose parent the token is. |
| JsmnParents.RunParented | satclient/release/src/io/mqtt/aws-iot-sdk-2-1-1/external_libs/jsmn/jsmn.c:182-319 | So does any run. |
| JsmnParents.SizesCountByParent | satclient/release/src/io/mqtt/aws-iot-sdk-2-1-1/external_libs/jsmn/jsmn.c:182-319 | For every text parsed by the default tokenizer, the size of a token is the number of tokens whose parent it is: the token before a colon if one precedes, otherwise the innermost open container, found from the text and the token intervals alone. |
| JsmnParents.MemberSizes | satclient/release/src/io/mqtt/aws-iot-sdk-2-1-1/external_libs/jsmn/jsmn.c:267-268 | In the parse of an object with one member the object has size 1, its key 1 and its value 0. |
| Wire.EncodeIsField | satclient/release/src/io/mqtt/aws-iot-sdk-2-1-1/src/aws_iot_mqtt_client_common_internal.c:56-72 | The encoder writes continuation bytes and one final byte, standing for the number encoded. |
| Wire.EncodeIsMinimal | satclient/release/src/io/mqtt/aws-iot-sdk-2-1-1/src/aws_iot_mqtt_client_common_internal.c:56-72 | No other field for the same number is shorter, and none of the same length differs. |
| Wire.EncodeSize | satclient/release/src/io/mqtt/aws-iot-sdk-2-1-1/src/aws_iot_mqtt_client_common_internal.c:56-72 | The encoding has at most k bytes if and only if the number is below 128 to the k. |
| Wire.LengthExamples | satclient/release/src/io/mqtt/aws-iot-sdk-2-1-1/src/aws_iot_mqtt_client_common_internal.c:56-72 | The example of section 2.2.3 of MQTT 3.1.1, and the largest numbers of one to four bytes. |
| Wire.DecodeField | satclient/release/src/io/mqtt/aws-iot-sdk-2-1-1/src/aws_iot_mqtt_client_common_internal.c:80-104 | The buffer decoder returns the value and the length of any field of at most four bytes, and rejects every longer one. |
| Wire.LenRoundTrip | satclient/release/src/io/mqtt/aws-iot-sdk-2-1-1/src/aws_iot_mqtt_client_common_internal.c:56-104 | Decoding undoes encoding with the same byte count for every number up to 268435455, and rejects the encoding of every larger one. |
| Wire.FinalLengthCovers | satclient/release/src/io/mqtt/aws-iot-sdk-2-1-1/src/aws_iot_mqtt_client_common_internal.c:106-119 | For every 32-bit remaining length: the predicted packet length covers the true one if and only if it is at most 268435455, exceeds it there, by one, exactly at 127, 16383 and 2097151, and wraps around to at most 4 for the largest five lengths. |
| Wire.WriteLen | satclient/release/src/io/mqtt/aws-iot-sdk-2-1-1/src/aws_iot_mqtt_client_common_internal.c:56-72 | The in-place loop appends exactly the encoding and changes nothing after it. |
| Wire.WriteUint16 | satclient/release/src/io/mqtt/aws-iot-sdk-2-1-1/src/aws_iot_mqtt_client_common_internal.c:144-150 | Appends the big-endian bytes and changes nothing after them. |
| Wire.BigEndian | satclient/release/src/io/mqtt/aws-iot-sdk-2-1-1/src/aws_iot_mqtt_client_common_internal.c:144-150 | The high byte of a 16-bit number comes first. |
| Wire.TypeCodes | satclient/release/src/io/mqtt/aws-iot-sdk-2-1-1/src/aws_iot_mqtt_client_common_internal.c:187-249 | The packet types have the codes of section 2.2.1. |
| Wire.HeaderBits | satclient/release/src/io/mqtt/aws-iot-sdk-2-1-1/src/aws_iot_mqtt_client_common_internal.c:187-249 | Type, dup, QoS and retain stand at the bits of the header that sections 2.2 and 3.3.1 give them. |
| Wire.WriteUtf8 | satclient/release/src/io/mqtt/aws-iot-sdk-2-1-1/src/aws_iot_mqtt_client_common_internal.c:172-180 | Appends a length-prefixed string and changes nothing after it. |
| Wire.ReadLen | satclient/release/src/io/mqtt/aws-iot-sdk-2-1-1/src/aws_iot_mqtt_client_common_internal.c:80-104 | The decoding loop with its multiplier computes the recursive decoder. |
| PacketReader.ReadsOneFrame | satclient/release/src/io/mqtt/aws-iot-sdk-2-1-1/src/aws_iot_mqtt_client_common_internal.c:348-418 | One call consumes exactly one packet, whatever the length encoding: a body shorter than the buffer is stored with a minimal length, a longer one is drained and reported too long. |
| PacketReader.CutPacket | satclient/release/src/io/mqtt/aws-iot-sdk-2-1-1/src/aws_iot_mqtt_client_common_internal.c:348-418 | A packet of which only a part has arrived is never stored, and the code says exactly how far it came: nothing, an unfinished length, or part of the body. |
| PacketReader.StreamIsFramed | satclient/release/src/io/mqtt/aws-iot-sdk-2-1-1/src/aws_iot_mqtt_client_common_internal.c:348-418 | For any concatenation of packets, as many calls deliver exactly those packets in order and leave what follows. |
| PacketReader.DecodersAgree | satclient/release/src/io/mqtt/aws-iot-sdk-2-1-1/src/aws_iot_mqtt_client_common_internal.c:318-346 | The stream decoder accepts fields of any length; it agrees with the buffer decoder if and only if the field has at most four bytes. |
| PacketReader.DecodersDiffer | satclient/release/src/io/mqtt/aws-iot-sdk-2-1-1/src/aws_iot_mqtt_client_common_internal.c:331-336 | A five-byte field for 0 that the stream decoder accepts and the buffer decoder rejects. |
| PacketReader.StoredPacketFits | satclient/release/src/io/mqtt/aws-iot-sdk-2-1-1/src/aws_iot_mqtt_client_common_internal.c:385-407 | A packet reported as read stays inside the receive buffer if and only if its body leaves the room, a function of the buffer size alone, that header and length need; the code compares the body alone. |
| PacketReader.LargestBodies | satclient/release/src/io/mqtt/aws-iot-sdk-2-1-1/src/aws_iot_mqtt_client_common_internal.c:385-407 | For every buffer size the bodies let through without the packet fitting are a range that ends with the largest body let through; its lower end is in closed form. |
| PacketReader.OverrunsBuffer | satclient/release/src/io/mqtt/aws-iot-sdk-2-1-1/src/aws_iot_mqtt_client_common_internal.c:385-407 | A well-formed packet with a body of 510 bytes is reported as read and takes 513 bytes of a 512-byte buffer. |
| PacketReader.ValueStep | satclient/release/src/io/mqtt/aws-iot-sdk-2-1-1/src/aws_iot_mqtt_client_common_internal.c:318-346 | One more length byte adds its seven bits at the next power of 128, also in 64-bit arithmetic. |
| PacketReader.Reader.ReadInto | satclient/release/src/io/mqtt/aws-iot-sdk-2-1-1/platform/linux/mbedtls/network_mbedtls_wrapper.c:298-330 | A read takes exactly the bytes asked for, or all there are with the reason why they were fewer, and writes only its own part of the buffer. |
| PacketReader.Reader.ReadRemainingLength | satclient/release/src/io/mqtt/aws-iot-sdk-2-1-1/src/aws_iot_mqtt_client_common_internal.c:318-346 | The byte-wise loop consumes exactly one length field and returns its value in 64-bit arithmetic. |
| PacketReader.Reader.Drain | satclient/release/src/io/mqtt/aws-iot-sdk-2-1-1/src/aws_iot_mqtt_client_common_internal.c:385-400 | The drain loop drops exactly the body. |
| PacketReader.Reader.StoreBody | satclient/release/src/io/mqtt/aws-iot-sdk-2-1-1/src/aws_iot_mqtt_client_common_internal.c:403-413 | A body that passed the check is stored right behind the header byte and the re-encoded length. |
| PacketReader.Reader.ReadBody | satclient/release/src/io/mqtt/aws-iot-sdk-2-1-1/src/aws_iot_mqtt_client_common_internal.c:380-413 | A body too long is drained and reported; another is stored whole, or the failure reported. |
| PacketReader.Reader.ReadPacketInto | satclient/release/src/io/mqtt/aws-iot-sdk-2-1-1/src/aws_iot_mqtt_client_common_internal.c:348-418 | The whole in-place reader returns, consumes and stores what the stream function says. |
| Publish.Serialize | satclient/release/src/io/mqtt/aws-iot-sdk-2-1-1/src/aws_iot_mqtt_client_publish.c:87-133 | For every message: fails without writing when the 32-bit predicted length exceeds the buffer, and otherwise writes exactly the packet and nothing beyond it, inside the buffer for messages within the limits of the protocol. |
| Publish.PublishBytes | satclient/release/src/io/mqtt/aws-iot-sdk-2-1-1/src/aws_iot_mqtt_client_publish.c:87-135 | A message of QoS 1 byte by byte. |
| Publish.CheckSuffices | satclient/release/src/io/mqtt/aws-iot-sdk-2-1-1/src/aws_iot_mqtt_client_publish.c:100-110 | The length check is enough for every buffer exactly for messages within the limits of the protocol. |
| Publish.Write | satclient/release/src/io/mqtt/aws-iot-sdk-2-1-1/src/aws_iot_mqtt_client_publish.c:105-131 | The pointer-advancing writes add up to the packet of 1 + length bytes + remaining length. |
| Publish.Deserialize | satclient/release/src/io/mqtt/aws-iot-sdk-2-1-1/src/aws_iot_mqtt_client_publish.c:312-372 | The in-place reader computes the decoding function, error cases included. |
| Publish.DecodeEncode | satclient/release/src/io/mqtt/aws-iot-sdk-2-1-1/src/aws_iot_mqtt_client_publish.c:312-372 | Decoding an encoded message, whatever follows it in memory, gives back topic, payload, flags, QoS and packet id. |
| Publish.PublishRoundTrip | satclient/release/src/io/mqtt/aws-iot-sdk-2-1-1/src/aws_iot_mqtt_client_publish.c:87-372 | A message goes on the wire if and only if its predicted length fits the write buffer and its packet is shorter than it; then, read by the packet reader and deserialized, it comes back as it was if its body is shorter than the receive buffer, and is dropped otherwise; the stream goes on after it. |
| Publish.SendPacket | satclient/release/src/io/mqtt/aws-iot-sdk-2-1-1/src/aws_iot_mqtt_client_common_internal.c:267-316 | Refuses a packet as long as the write buffer; otherwise all of it is written, or the call fails. |
| Publish.Transmit | satclient/release/src/io/mqtt/aws-iot-sdk-2-1-1/src/aws_iot_mqtt_client_publish.c:197-222 | For every message: as many bytes of its packet as its 32-bit length are sent, or the exact reason why not; for messages within the limits of the protocol that is the whole packet. |
| Publish.NeverSent | satclient/release/src/io/mqtt/aws-iot-sdk-2-1-1/src/aws_iot_mqtt_client_common_internal.c:278-280 | A message is serialized but never sent exactly when its packet, its length predicted right, fills the write buffer. |
| Publish.FillsBuffer | satclient/release/src/io/mqtt/aws-iot-sdk-2-1-1/src/aws_iot_mqtt_client_common_internal.c:278-280 | Such a message: topic "a" without payload in a buffer of five bytes. |
| Publish.PayloadInside | satclient/release/src/io/mqtt/aws-iot-sdk-2-1-1/src/aws_iot_mqtt_client_publish.c:362-369 | For any received packet the payload lies inside it if and only if the QoS is 0 or there is room for an id after the topic; otherwise the payload length wraps around. |
| Publish.PayloadWraps | satclient/release/src/io/mqtt/aws-iot-sdk-2-1-1/src/aws_iot_mqtt_client_publish.c:362-369 | A QoS 1 packet that ends with its empty topic gets the payload length 2^64 - 2. |
| Publish.SerializeAck | satclient/release/src/io/mqtt/aws-iot-sdk-2-1-1/src/aws_iot_mqtt_client_publish.c:146-184 | Four bytes of header, length 2 and id, or nothing when there is no room. |
| Publish.AckBytes | satclient/release/src/io/mqtt/aws-iot-sdk-2-1-1/src/aws_iot_mqtt_client_publish.c:146-183 | The four bytes of every acknowledgement, as sections 3.4 to 3.7 and 3.11 give them. |
| Publish.DeserializeAck | satclient/release/src/io/mqtt/aws-iot-sdk-2-1-1/src/aws_iot_mqtt_client_publish.c:384-424 | Reads type, dup and id of any acknowledgement, with its error cases. |
| Publish.AckRoundTrip | satclient/release/src/io/mqtt/aws-iot-sdk-2-1-1/src/aws_iot_mqtt_client_publish.c:146-424 | Every acknowledgement reads back with its type, dup flag and packet id. |
| Publish.SerializeZero | satclient/release/src/io/mqtt/aws-iot-sdk-2-1-1/src/aws_iot_mqtt_client_common_internal.c:650-680 | Two bytes of header and length 0, although four bytes of room are asked for. |
| TopicRequests.Serialize | satclient/release/src/io/mqtt/aws-iot-sdk-2-1-1/src/aws_iot_mqtt_client_subscribe.c:58-103 | For any topic list: no write when the 32-bit predicted length exceeds the buffer, otherwise exactly the packet, inside the buffer within the length limit of the protocol; the same for UNSUBSCRIBE. |
| TopicRequests.CheckSuffices | satclient/release/src/io/mqtt/aws-iot-sdk-2-1-1/src/aws_iot_mqtt_client_subscribe.c:68-80 | The length check is enough for every buffer exactly for requests within the length limit of the protocol. |
| TopicRequests.RemainingLength | satclient/release/src/io/mqtt/aws-iot-sdk-2-1-1/src/aws_iot_mqtt_client_subscribe.c:68-76 | The loop over the topics adds up the remaining length, modulo 2^32. |
| TopicRequests.Write | satclient/release/src/io/mqtt/aws-iot-sdk-2-1-1/src/aws_iot_mqtt_client_unsubscribe.c:56-93 | The loop over the topics writes the items one after another, in order. |
| TopicRequests.ParseEncode | satclient/release/src/io/mqtt/aws-iot-sdk-2-1-1/src/aws_iot_mqtt_client_subscribe.c:58-103 | A reference parser of sections 3.8 and 3.10 of MQTT 3.1.1 recovers id, filters and requested QoS if and only if the request has a nonzero id, at least one filter, no empty filter, no dup flag and a length within the limit; otherwise it finds the packet malformed. |
| TopicRequests.WritesEmptyFilter | satclient/release/src/io/mqtt/aws-iot-sdk-2-1-1/src/aws_iot_mqtt_client_subscribe.c:58-103 | An empty filter is written, and makes the packet malformed. |
| TopicRequests.DeserializeSuback | satclient/release/src/io/mqtt/aws-iot-sdk-2-1-1/src/aws_iot_mqtt_client_subscribe.c:116-170 | Reads id and granted codes, with the error cases. |
| TopicRequests.SubackReads | satclient/release/src/io/mqtt/aws-iot-sdk-2-1-1/src/aws_iot_mqtt_client_subscribe.c:116-170 | A SUBACK packet with up to one code more than expected reads back to its id and its codes. |
| TopicRequests.SubackCodes | satclient/release/src/io/mqtt/aws-iot-sdk-2-1-1/src/aws_iot_mqtt_client_subscribe.c:162-167 | The count is compared before it is incremented, so with one code expected an acknowledgement is accepted exactly when it carries at most two. |
| Connect.Serialize | satclient/release/src/io/mqtt/aws-iot-sdk-2-1-1/src/aws_iot_mqtt_client_connect.c:150-239 | Rejects an empty client id and other versions, fails without writing when there is no room, and otherwise writes exactly the packet. |
| Connect.Write | satclient/release/src/io/mqtt/aws-iot-sdk-2-1-1/src/aws_iot_mqtt_client_connect.c:180-236 | Header, length, protocol name, flags, keep-alive and the optional fields add up to the packet. |
| Connect.PayloadLength | satclient/release/src/io/mqtt/aws-iot-sdk-2-1-1/src/aws_iot_mqtt_client_connect.c:113-141 | The length computed beforehand is the length written. |
| Connect.FlagBits | satclient/release/src/io/mqtt/aws-iot-sdk-2-1-1/src/aws_iot_mqtt_client_connect.c:190-225 | Every connect flag can be read back from the flag byte at its own place. |
| Connect.ParseEncode | satclient/release/src/io/mqtt/aws-iot-sdk-2-1-1/src/aws_iot_mqtt_client_connect.c:113-239 | A reference parser of section 3.1 of MQTT 3.1.1 recovers the options if and only if they conform: a password only with a user name, an empty client id only with a clean session. |
| Connect.WritesLonePassword | satclient/release/src/io/mqtt/aws-iot-sdk-2-1-1/src/aws_iot_mqtt_client_connect.c:204-210 | A password without a user name is written, and makes the packet malformed. |
| Connect.DeserializeConnack | satclient/release/src/io/mqtt/aws-iot-sdk-2-1-1/src/aws_iot_mqtt_client_connect.c:249-322 | Reads the return code and session flag, with the error cases. |
| Connect.ConnackReads | satclient/release/src/io/mqtt/aws-iot-sdk-2-1-1/src/aws_iot_mqtt_client_connect.c:249-322 | What is read from every CONNACK packet of two bytes: the top bit of the first, and the code, with everything above 5 unknown. |
| Connect.ConnackRoundTrip | satclient/release/src/io/mqtt/aws-iot-sdk-2-1-1/src/aws_iot_mqtt_client_connect.c:249-322 | Of the CONNACK packets section 3.2 allows, the return code is read back always, the session flag exactly when it is not set: the code looks at the top bit of its byte. |
| TopicMatch.IsTopicMatched | satclient/release/src/io/mqtt/aws-iot-sdk-2-1-1/src/aws_iot_mqtt_client_common_internal.c:423-457 | The loop over two pointers computes the recursive matcher, for any filter and name. |
| TopicMatch.SkipLevel | satclient/release/src/io/mqtt/aws-iot-sdk-2-1-1/src/aws_iot_mqtt_client_common_internal.c:442-447 | The inner loop stops at the end of the level. |
| TopicMatch.MatchesLevelwise | satclient/release/src/io/mqtt/aws-iot-sdk-2-1-1/src/aws_iot_mqtt_client_common_internal.c:423-457 | For well-formed filters the character-wise matcher is a comparison level by level. |
| TopicMatch.DecidesLevels | satclient/release/src/io/mqtt/aws-iot-sdk-2-1-1/src/aws_iot_mqtt_client_common_internal.c:420-457 | For well-formed filters the matcher says yes if and only if the relation of section 4.7.1 of MQTT 3.1.1 holds and no wildcard stands opposite an empty or missing level. |
| TopicMatch.DecidesPlainNames | satclient/release/src/io/mqtt/aws-iot-sdk-2-1-1/src/aws_iot_mqtt_client_common_internal.c:420-457 | For names without empty levels all that is missing is `#` standing for no level at all. |
| TopicMatch.Departures | satclient/release/src/io/mqtt/aws-iot-sdk-2-1-1/src/aws_iot_mqtt_client_common_internal.c:423-457 | Concrete names on which the matcher departs from section 4.7.1, and `$` topics matched by leading wildcards against section 4.7.2. |
| TopicMatch.CheckSlot | satclient/release/src/io/mqtt/aws-iot-sdk-2-1-1/src/aws_iot_mqtt_client_common_internal.c:480-486 | The condition the delivery loop puts on a slot: in use, with a handler, and a filter that equals or matches the topic. |
| TopicMatch.CalledIff | satclient/release/src/io/mqtt/aws-iot-sdk-2-1-1/src/aws_iot_mqtt_client_common_internal.c:474-491 | The slots a message is delivered to are exactly those that meet the condition. |
| TopicMatch.CalledInOrder | satclient/release/src/io/mqtt/aws-iot-sdk-2-1-1/src/aws_iot_mqtt_client_common_internal.c:474-491 | They are called in the order of the table, each once. |
| TopicMatch.CalledByLevels | satclient/release/src/io/mqtt/aws-iot-sdk-2-1-1/src/aws_iot_mqtt_client_common_internal.c:474-491 | For a well-formed filter a handler is called exactly when the levels match and no wildcard stands opposite an empty level; the extra comparison of names adds nothing. |
| HandlerTable.RenewsAll | satclient/release/src/io/mqtt/aws-iot-sdk-2-1-1/src/aws_iot_mqtt_client_subscribe.c:346-350 | A resubscription, which serves the slots before the first unused one, covers every registered filter if no unused slot stands before one in use, and, when no filter is registered twice, only then. |
| HandlerTable.RegisterFills | satclient/release/src/io/mqtt/aws-iot-sdk-2-1-1/src/aws_iot_mqtt_client_subscribe.c:228-267 | Filling the first unused slot adds one filter and leaves a table without holes without holes. |
| HandlerTable.ClearLeavesHole | satclient/release/src/io/mqtt/aws-iot-sdk-2-1-1/src/aws_iot_mqtt_client_unsubscribe.c:185-194 | Clearing the slots of a filter removes that filter and no other; it leaves a hole in a table without holes if and only if another filter stands behind one of them. |
| ClientSpec.StatesDivide | satclient/release/src/io/mqtt/aws-iot-sdk-2-1-1/src/aws_iot_mqtt_client.c:231-266 | A state is connected or one from which connect is allowed, never both, and neither only while invalid, connecting or disconnecting; a settled client is idle, or may connect. |
| Client.Client.constructor | satclient/release/src/io/mqtt/aws-iot-sdk-2-1-1/src/aws_iot_mqtt_client.c:155-224 | A fresh client is initialized, with auto-reconnect as asked, no keep-alive, no ping outstanding, no outage and an empty history. |
| Client.Client.SetState | satclient/release/src/io/mqtt/aws-iot-sdk-2-1-1/src/aws_iot_mqtt_client.c:94-127 | Compare-and-set: the state changes if and only if it is the expected one, and nothing else changes. |
| Client.Client.GetNextPacketId | satclient/release/src/io/mqtt/aws-iot-sdk-2-1-1/src/aws_iot_mqtt_client.c:226-229 | The next id, wrapping from 65535 to 1. |
| Client.Client.RunCall | satclient/release/src/io/mqtt/aws-iot-sdk-2-1-1/src/aws_iot_mqtt_client_common_internal.c:459-497 | Any API call, whatever the network does and whatever nested callbacks call: it is recorded with the states around it, keeps the promise of its kind, and returns with the state it found or in a settled one. |
| Client.Client.RunCalls | satclient/release/src/io/mqtt/aws-iot-sdk-2-1-1/src/aws_iot_mqtt_client_common_internal.c:459-497 | The same for a sequence of calls: exactly these calls are recorded, in order, each from the state the one before has left. |
| Client.Client.CallHandler | satclient/release/src/io/mqtt/aws-iot-sdk-2-1-1/src/aws_iot_mqtt_client_common_internal.c:479-491 | A slot is called if and only if the message is for it, and then exactly the calls of the next body are made. |
| Client.Client.CallHandlers | satclient/release/src/io/mqtt/aws-iot-sdk-2-1-1/src/aws_iot_mqtt_client_common_internal.c:479-491 | The slots called are those for which the message is when their turn comes, in the table the calls before have left; exactly the calls of as many bodies are made. |
| Client.Client.CallBack | satclient/release/src/io/mqtt/aws-iot-sdk-2-1-1/src/aws_iot_mqtt_client_common_internal.c:459-497 | The handlers run in the callback state, for which the state found before is put back unless they have left it; that alone makes the delivery an error. |
| Client.Client.Deliver | satclient/release/src/io/mqtt/aws-iot-sdk-2-1-1/src/aws_iot_mqtt_client_common_internal.c:459-497 | The record of callbacks ends with the delivery: the slots called, and exactly the calls of their bodies, each of which kept its promise; it succeeds if and only if the last of them left the callback state. |
| Client.Client.HandlePublish | satclient/release/src/io/mqtt/aws-iot-sdk-2-1-1/src/aws_iot_mqtt_client_common_internal.c:499-546 | The message is delivered as recorded; an error of the delivery is the answer, then an acknowledgement that was due and not sent, otherwise success. |
| Client.Client.CycleRead | satclient/release/src/io/mqtt/aws-iot-sdk-2-1-1/src/aws_iot_mqtt_client_common_internal.c:548-613 | One packet: when no callback calls the API the exact code, and the exact state, in which time has passed and a ping answer has cleared the flag and re-armed the timer; a message is delivered as recorded. |
| Client.Client.WaitForRead | satclient/release/src/io/mqtt/aws-iot-sdk-2-1-1/src/aws_iot_mqtt_client_common_internal.c:615-648 | Success or a time-out; success only if a packet of the awaited type arrived, and, when no callback calls the API, if and only if it arrives before the timer expires; nothing changes but what reading changes. |
| Client.Client.StopPing | satclient/release/src/io/mqtt/aws-iot-sdk-2-1-1/src/aws_iot_mqtt_client_common_internal.c:598-602 | No ping is outstanding any more, the timer runs for one interval, and the event is logged. |
| Client.Client.InternalConnect | satclient/release/src/io/mqtt/aws-iot-sdk-2-1-1/src/aws_iot_mqtt_client_connect.c:377-438 | Success only after the TLS connection, the request, a valid reply and acceptance, with the session logged, the ping timer armed and no subscription acknowledged; when no callback calls the API, the exact code, and the interval passed, or that of the options, is stored and in force from the request on. |
| Client.Client.ConnectCall | satclient/release/src/io/mqtt/aws-iot-sdk-2-1-1/src/aws_iot_mqtt_client_connect.c:451-493 | Refused unchanged unless disconnected; otherwise settles, with the promise of the internal connect, idle on success and in error on failure when no callback calls the API. |
| Client.Client.DisconnectCall | satclient/release/src/io/mqtt/aws-iot-sdk-2-1-1/src/aws_iot_mqtt_client_connect.c:495-575 | Disconnected manually on success, the entry state restored on failure, refused when not connected; nothing else changes. |
| Client.Client.Request | satclient/release/src/io/mqtt/aws-iot-sdk-2-1-1/src/aws_iot_mqtt_client_publish.c:197-249 | A request sent and its reply awaited: when no callback calls the API, the exact code. |
| Client.Client.Restore | satclient/release/src/io/mqtt/aws-iot-sdk-2-1-1/src/aws_iot_mqtt_client_publish.c:286-294 | The state an operation is in is left for the one it found; a callback that has moved the client makes a success an error. |
| Client.Client.PublishCall | satclient/release/src/io/mqtt/aws-iot-sdk-2-1-1/src/aws_iot_mqtt_client_publish.c:262-304 | Refused without effect unless idle or in a callback; QoS 0 succeeds if and only if sent; QoS 1 only after a valid PUBACK arrived (its packet id is not compared), and, when no callback calls the API, with the exact code, a fresh packet id, and nothing else changed. |
| Client.Client.SubscribeCall | satclient/release/src/io/mqtt/aws-iot-sdk-2-1-1/src/aws_iot_mqtt_client_subscribe.c:288-320 | Refused without effect unless idle or in a callback; a full table is reported and changes nothing but the packet id; success only with an acknowledgement, and then the slot that was free first holds the filter; when no callback calls the API, the exact code, and just that slot has changed, on success. |
| Client.Client.InternalSubscribe | satclient/release/src/io/mqtt/aws-iot-sdk-2-1-1/src/aws_iot_mqtt_client_subscribe.c:203-270 | The slot is chosen before the request and filled after the reply, whatever callbacks do in between. |
| Client.Client.GetFreeHandlerIndex | satclient/release/src/io/mqtt/aws-iot-sdk-2-1-1/src/aws_iot_mqtt_client_subscribe.c:173-185 | The search finds the first unused slot, or the size of the table. |
| Client.Client.UnsubscribeCall | satclient/release/src/io/mqtt/aws-iot-sdk-2-1-1/src/aws_iot_mqtt_client_unsubscribe.c:213-245 | Refused without effect unless idle or in a callback; fails without a request for a filter not in the table; success only with an acknowledgement, and then no slot holds the filter; when no callback calls the API, the exact code, and just its slots are cleared, on success. |
| Client.Client.IsRegistered | satclient/release/src/io/mqtt/aws-iot-sdk-2-1-1/src/aws_iot_mqtt_client_unsubscribe.c:146-153 | The loop finds out whether some slot holds the filter. |
| Client.Client.ClearSlots | satclient/release/src/io/mqtt/aws-iot-sdk-2-1-1/src/aws_iot_mqtt_client_unsubscribe.c:185-194 | The loop clears every slot of the filter and no other. |
| Client.Client.ResubscribeCall | satclient/release/src/io/mqtt/aws-iot-sdk-2-1-1/src/aws_iot_mqtt_client_subscribe.c:400-433 | Only from the idle state; success only if a request was acknowledged for each slot before the first unused one; when no callback calls the API, the code of the first request to fail, and after a success the filters of just these slots are added to what the server has acknowledged, with as many packet ids used. |
| Client.Client.InternalResubscribe | satclient/release/src/io/mqtt/aws-iot-sdk-2-1-1/src/aws_iot_mqtt_client_subscribe.c:337-385 | One exchange for each slot before the first unused one, one after another until one fails. |
| Client.Client.RenewSlot | satclient/release/src/io/mqtt/aws-iot-sdk-2-1-1/src/aws_iot_mqtt_client_subscribe.c:350-381 | One of these exchanges: it uses the filter the slot holds when its turn comes, and a fresh packet id. |
| Client.Client.AttemptReconnectCall | satclient/release/src/io/mqtt/aws-iot-sdk-2-1-1/src/aws_iot_mqtt_client_connect.c:589-617 | Connect with the options there are, then resubscribe: when no callback calls the API a failed handshake leaves an attempt pending and the back-off alone, and otherwise the code is that of the first request to fail, or reconnected, with the interval of the options in force and the filters of the renewed slots acknowledged. |
| Client.Client.HandleDisconnect | satclient/release/src/io/mqtt/aws-iot-sdk-2-1-1/src/aws_iot_mqtt_client_yield.c:53-71 | The disconnect handler is called in the state the disconnect has left and makes exactly its calls; then the client is in the disconnected-error state, whatever the handler did. |
| Client.Client.KeepAlive | satclient/release/src/io/mqtt/aws-iot-sdk-2-1-1/src/aws_iot_mqtt_client_yield.c:111-159 | Does nothing, sends and logs one ping, or declares the connection lost, as the keep-alive decision function says, with the exact state after the first two; every call that keeps the connection is logged. |
| Client.Client.HandleReconnect | satclient/release/src/io/mqtt/aws-iot-sdk-2-1-1/src/aws_iot_mqtt_client_yield.c:74-109 | Before its delay has run out it changes nothing; a due retry is an attempt and, if that fails, one step of the back-off. |
| Client.Client.TryReconnect | satclient/release/src/io/mqtt/aws-iot-sdk-2-1-1/src/aws_iot_mqtt_client_yield.c:85-100 | An attempt is made only if the link is up; it is a reconnect as above, after which a success goes on yielding, and a failure that has changed the back-off marks it as disturbed. |
| Client.Client.DoubleWait | satclient/release/src/io/mqtt/aws-iot-sdk-2-1-1/src/aws_iot_mqtt_client_yield.c:102-108 | The interval doubles in 32 bits, the retry is recorded, and the delay is armed if the interval does not exceed the maximum. |
| Client.Client.Disconnected | satclient/release/src/io/mqtt/aws-iot-sdk-2-1-1/src/aws_iot_mqtt_client_yield.c:216-233 | The exact state: the disconnect is counted, and with auto-reconnect an outage starts with the minimal interval; without it yield ends. |
| Client.Client.YieldTurn | satclient/release/src/io/mqtt/aws-iot-sdk-2-1-1/src/aws_iot_mqtt_client_yield.c:192-236 | One iteration: while a reconnect is pending, with the interval exhausted only a time-out, before the delay has run out only time passes, and then a retry; otherwise, when no callback calls the API, the exact state after the read and what follows it. |
| Client.Client.ReadTurn | satclient/release/src/io/mqtt/aws-iot-sdk-2-1-1/src/aws_iot_mqtt_client_yield.c:205-236 | The read, with a message delivered as recorded, and then exactly what follows its code. |
| Client.Client.FinishTurn | satclient/release/src/io/mqtt/aws-iot-sdk-2-1-1/src/aws_iot_mqtt_client_yield.c:206-236 | What follows the read: keep-alive after a success, the loss of the connection after a terminal error, and the end of yield after any other, with the exact state unless the disconnect handler calls the API. |
| Client.Client.InternalYield | satclient/release/src/io/mqtt/aws-iot-sdk-2-1-1/src/aws_iot_mqtt_client_yield.c:180-240 | The iterations run are those up to the first that is done or ends with the timer expired, at least one, each from the state the one before has left; the code and the state are those of the last. |
| Client.Client.YieldCall | satclient/release/src/io/mqtt/aws-iot-sdk-2-1-1/src/aws_iot_mqtt_client_yield.c:261-306 | Refused unchanged unless idle or pending; otherwise it runs that loop and settles, idle on success, with the exact code and state that the end of the loop calls for. |
| Client.RetryBacksOff | satclient/release/src/io/mqtt/aws-iot-sdk-2-1-1/src/aws_iot_mqtt_client_yield.c:102-108 | A retry started when its delay has run out keeps the back-off invariant. |
| Client.CheckOnPace | satclient/release/src/io/mqtt/aws-iot-sdk-2-1-1/src/aws_iot_mqtt_client_yield.c:122-128 | A check before the ping timer runs out keeps the pace invariant of keep-alive. |
| Client.PingOnPace | satclient/release/src/io/mqtt/aws-iot-sdk-2-1-1/src/aws_iot_mqtt_client_yield.c:135-156 | So does one that sends a ping: the new timer runs at most two intervals and a gap beyond the last sign of the server. |
| ClientCalls.CalledAtFirst | satclient/release/src/io/mqtt/aws-iot-sdk-2-1-1/src/aws_iot_mqtt_client_common_internal.c:479-491 | Until a handler calls the API the slots called are the matching ones of the table; some slot is called if and only if one matches when the delivery begins. |
| ClientCalls.CalledBefore | satclient/release/src/io/mqtt/aws-iot-sdk-2-1-1/src/aws_iot_mqtt_client_common_internal.c:479-491 | What later handlers call does not change which slots were called. |
| ClientTurns.RetryComesTo | satclient/release/src/io/mqtt/aws-iot-sdk-2-1-1/src/aws_iot_mqtt_client_yield.c:74-109 | When no callback calls the API a due retry reconnects if and only if the link is up and the handshake and the exchanges for the slots before the first unused one succeed in time; then the interval of the options is in force and the server knows the filters of these slots; otherwise the interval has doubled, and the next delay is armed or the time-out reported. |
| ClientRuns.SilenceIsNoticed | satclient/release/src/io/mqtt/aws-iot-sdk-2-1-1/src/aws_iot_mqtt_client_yield.c:111-159 | Keep-alive decisions at bounded gaps with no answer between them find the loss by a deadline computed from the timer and the outstanding flag. |
| ClientRuns.SilentRun | satclient/release/src/io/mqtt/aws-iot-sdk-2-1-1/src/aws_iot_mqtt_client_yield.c:180-240 | Over the iterations of a yield in which no ping is answered and no callback calls the API, the first iteration to declare the loss is the one at which the sequence of keep-alive decisions finds it, and there is one if that comes before the timer expires. |
| ClientRuns.LossInYield | satclient/release/src/io/mqtt/aws-iot-sdk-2-1-1/src/aws_iot_mqtt_client_yield.c:180-306 | A yield with keep-alive interval K, longer than 2K + 2d, in which no ping is answered and iterations come at most d apart, declares the loss at the latest 2K + 2d after it began. |
| ClientRuns.LossFound | satclient/release/src/io/mqtt/aws-iot-sdk-2-1-1/src/aws_iot_mqtt_client_yield.c:261-306 | The same for a call of the yield API by any idle client; that its timer never runs for longer than K is part of the invariant of the client. |
| ClientRuns.IntervalInForce | satclient/release/src/io/mqtt/aws-iot-sdk-2-1-1/src/aws_iot_mqtt_client_connect.c:384-434 | After a successful connect during which no callback calls the API, the interval in force and stored is the one passed, or that of the options, and the ping timer runs for just that long. |
| ClientRuns.IntervalAfterReconnect | satclient/release/src/io/mqtt/aws-iot-sdk-2-1-1/src/aws_iot_mqtt_client_connect.c:589-617 | After such a reconnect it is that of the options. |
| ClientRuns.HandlerReconnects | satclient/release/src/io/mqtt/aws-iot-sdk-2-1-1/src/aws_iot_mqtt_client_connect.c:377-493 | A callback can change it: while a connect waits for its reply, a handler that disconnects and connects with interval k puts k in force, whatever the waiting connect was passed. |
| ClientRuns.ConnectedLossFound | satclient/release/src/io/mqtt/aws-iot-sdk-2-1-1/src/aws_iot_mqtt_client_yield.c:261-306 | A client that connects with interval K and then yields without answers declares the loss at the latest 2K + 2d after the yield began. |
| ClientRuns.LossDeclaredInTime | satclient/release/src/io/mqtt/aws-iot-sdk-2-1-1/src/aws_iot_mqtt_client_yield.c:111-159 | For sequences of keep-alive decisions at gaps of at most d with no answer after T, the loss is found by T + 2K + 2d. |
| ClientRuns.ConnectedIsChecked | satclient/release/src/io/mqtt/aws-iot-sdk-2-1-1/src/aws_iot_mqtt_client_yield.c:111-159 | The last keep-alive check of a client that is still connected came less than two intervals and the longest gap between checks after the server was heard of last. |
| ClientRuns.LateCheckFindsLoss | satclient/release/src/io/mqtt/aws-iot-sdk-2-1-1/src/aws_iot_mqtt_client_yield.c:111-159 | A check that comes two intervals and the longest gap or more after the server was heard of last declares the connection lost, whatever the client did in between. |
| ClientRuns.AnyRun | satclient/release/src/io/mqtt/aws-iot-sdk-2-1-1/src/aws_iot_mqtt_client.c:155-224 | Any run of a new client - any sequence of API calls, any calls by callbacks, any behaviour of the network: the calls are made in order and keep their promises, nothing is left in progress, every ping time-out follows an unanswered ping by an interval, and a client still connected has been checked in time. |
| ClientRuns.DisconnectInHandler | satclient/release/src/io/mqtt/aws-iot-sdk-2-1-1/src/aws_iot_mqtt_client_common_internal.c:459-497 | A handler that disconnects leaves the client manually disconnected, and its delivery fails. |
| ClientRuns.ReconnectRenews | satclient/release/src/io/mqtt/aws-iot-sdk-2-1-1/src/aws_iot_mqtt_client_yield.c:85-97 | A reconnect by yield, with no callback calling the API, puts the interval of the options in force and makes the server know every registered filter if no unused slot stands before one in use, and, when no filter is registered twice, only then. |
| ClientRuns.ForgetsTopic | satclient/release/src/io/mqtt/aws-iot-sdk-2-1-1/src/aws_iot_mqtt_client_yield.c:85-97 | A run in which it does not: subscribe two topics, unsubscribe the first, lose the connection; the reconnect is reported as done, the second topic is still in the table, and nothing is subscribed. |
| ClientRuns.TimeoutMeansSilence | satclient/release/src/io/mqtt/aws-iot-sdk-2-1-1/src/aws_iot_mqtt_client_yield.c:130-133 | In every history of a client, a ping time-out comes at least the keep-alive interval after a ping, with no answer and no new session in between. |
| ClientRuns.DoublingsIsLeast | satclient/release/src/io/mqtt/aws-iot-sdk-2-1-1/src/aws_iot_mqtt_client_yield.c:102-106 | k doublings keep the interval within the maximum if and only if k is below the least number that exceeds it. |
| ClientRuns.BackOffBounds | satclient/release/src/io/mqtt/aws-iot-sdk-2-1-1/src/aws_iot_mqtt_client_yield.c:74-109 | In one outage detected by yield the intervals are min, 2 min, 4 min, ...; armed delays are at most max, no interval exceeds 2 max, there are at most as many attempts as doublings to exceed max, and after that many the interval is exhausted. |
| ClientRuns.RetriesAreSpaced | satclient/release/src/io/mqtt/aws-iot-sdk-2-1-1/src/aws_iot_mqtt_client_yield.c:79-83 | Consecutive retries are separated by at least the delay armed by the first of them. |
| ClientRuns.IdAfterIs | satclient/release/src/io/mqtt/aws-iot-sdk-2-1-1/src/aws_iot_mqtt_client.c:226-229 | The id after n more requests in closed form. |
| ClientRuns.IdsAreDistinct | satclient/release/src/io/mqtt/aws-iot-sdk-2-1-1/src/aws_iot_mqtt_client.c:226-229 | Ids are never 0 and two requests fewer than 65535 apart have different ids. |
| ShadowJson.ReadDocument | satclient/release/src/io/mqtt/aws-iot-sdk-2-1-1/src/aws_iot_shadow_json.c:75-282 | With enough tokens, parsing a built document succeeds and reads back every key, value and section in order. |
| ShadowReader.DigitsOfDecimal | satclient/release/src/io/mqtt/aws-iot-sdk-2-1-1/src/aws_iot_shadow_json.c:288-320 | The digits written for a number stand for it. |
| ShadowReader.IntIsCanonical | satclient/release/src/io/mqtt/aws-iot-sdk-2-1-1/src/aws_iot_shadow_json.c:288-320 | No zero stands before another digit, and a sign only before a negative number. |
| ShadowReader.ValueReadBack | satclient/release/src/io/mqtt/aws-iot-sdk-2-1-1/src/aws_iot_shadow_json.c:288-320 | Every value - integer, boolean or string - is recovered from what is written for it, by a reader that does not know how it was written. |
| ShadowReader.BuiltIsReadBack | satclient/release/src/io/mqtt/aws-iot-sdk-2-1-1/src/aws_iot_shadow_json.c:75-282 | With enough tokens, parsing a built document and reading its tokens gives back the very sections, keys and values it was built from, and the client token. |
| ShadowReader.TokenReadBack | satclient/release/src/io/mqtt/aws-iot-sdk-2-1-1/src/aws_iot_shadow_json.c:225-244 | A client token is the id, a hyphen, and the sequence number as a signed 32-bit integer, all recovered by the reader. |
| ShadowJson.ParseDocument | satclient/release/src/io/mqtt/aws-iot-sdk-2-1-1/src/aws_iot_shadow_json.c:327-350 | The shadow parser accepts a built document if and only if its token count fits the array, and the tokens spell what the document says. |
| ShadowJson.EmptyObject | satclient/release/src/io/mqtt/aws-iot-sdk-2-1-1/src/aws_iot_shadow_json.c:327-350 | The empty object is accepted. |
| ShadowJson.ExtractsAfterKey | satclient/release/src/io/mqtt/aws-iot-sdk-2-1-1/src/aws_iot_shadow_json.c:419-449 | On any built document the extraction returns what follows the first string that spells the key, cut to its length modulo 256, or nothing when the document asks for more than 120 tokens. |
| ShadowJson.ExtractsWhatWasBuilt | satclient/release/src/io/mqtt/aws-iot-sdk-2-1-1/src/aws_iot_shadow_json.c:419-449 | Round trip: extraction returns exactly the client token if and only if the document asks for at most 120 tokens and the token is what follows the first string that spells the key; so always, within that size, if no key and no string value does. |
| ShadowJson.KeyHasText | satclient/release/src/io/mqtt/aws-iot-sdk-2-1-1/src/aws_iot_shadow_json.c:419-449 | The key occurs in every built document, and a string or a primitive follows it. |
| ShadowJson.TakesEarlierKey | satclient/release/src/io/mqtt/aws-iot-sdk-2-1-1/src/aws_iot_shadow_json.c:419-449 | A field called clientToken is taken for the token. |
| ShadowJson.TooManyFields | satclient/release/src/io/mqtt/aws-iot-sdk-2-1-1/src/aws_iot_shadow_json.c:327-350 | A document of 57 fields is built, but not accepted. |
| ShadowJson.KeyAlone | satclient/release/src/io/mqtt/aws-iot-sdk-2-1-1/src/aws_iot_shadow_json.c:419-449 | A text whose last token is the key. |
| ShadowJson.OnlyLastKey | satclient/release/src/io/mqtt/aws-iot-sdk-2-1-1/src/aws_iot_shadow_json.c:419-449 | The key searched for occurs once, before the last item. |
| ShadowBuilder.Snprintf | satclient/release/src/io/mqtt/aws-iot-sdk-2-1-1/src/aws_iot_shadow_json.c:66-73 | At most size - 1 characters and a terminator are stored, nothing else changes, and the full length is returned. |
| ShadowBuilder.InitDocument | satclient/release/src/io/mqtt/aws-iot-sdk-2-1-1/src/aws_iot_shadow_json.c:75-89 | Truncation is reported exactly when the head does not fit. |
| ShadowBuilder.AddField | satclient/release/src/io/mqtt/aws-iot-sdk-2-1-1/src/aws_iot_shadow_json.c:117-140 | For every size: key and value are printed one after the other, each cut to the room there was before the key, and the status says which did not fit. |
| ShadowBuilder.FieldSucceeds | satclient/release/src/io/mqtt/aws-iot-sdk-2-1-1/src/aws_iot_shadow_json.c:117-140 | A field is reported as written if and only if key and value fit that room one by one; then all of it is written, whether or not both together fit. |
| ShadowBuilder.FieldFails | satclient/release/src/io/mqtt/aws-iot-sdk-2-1-1/src/aws_iot_shadow_json.c:117-140 | A field that fails inside the buffer is an error exactly when there is no room for a character, and truncated otherwise. |
| ShadowBuilder.FieldOverruns | satclient/release/src/io/mqtt/aws-iot-sdk-2-1-1/src/aws_iot_shadow_json.c:117-140 | After the head of a document and of its section in a buffer of 31 characters, a field is reported as written that takes the text to 33. |
| ShadowBuilder.AddSection | satclient/release/src/io/mqtt/aws-iot-sdk-2-1-1/src/aws_iot_shadow_json.c:91-215 | For every size and any number of fields, none included: the text and the status that the steps of the code give. |
| ShadowBuilder.SectionSucceeds | satclient/release/src/io/mqtt/aws-iot-sdk-2-1-1/src/aws_iot_shadow_json.c:91-215 | A section with fields reported as written has been written whole; it is so reported and stays inside the buffer if and only if its text and one comma fit. |
| ShadowBuilder.EmptySection | satclient/release/src/io/mqtt/aws-iot-sdk-2-1-1/src/aws_iot_shadow_json.c:91-215 | A section without fields loses its opening brace. |
| ShadowBuilder.BuildingIsSections | satclient/release/src/io/mqtt/aws-iot-sdk-2-1-1/src/aws_iot_shadow_json.c:91-215 | The text after any number of sections, each overwriting the comma before, is the head and the sections separated by commas. |
| ShadowBuilder.TokenFits | satclient/release/src/io/mqtt/aws-iot-sdk-2-1-1/src/aws_iot_shadow_json.c:217-223 | A plain client id gives a plain token; with its terminator it fits the 90 bytes of the buffers it is extracted to if and only if the printed sequence number lies in a range that depends on the length of the id. |
| ShadowBuilder.ShortIdsFit | satclient/release/src/io/mqtt/aws-iot-sdk-2-1-1/src/aws_iot_shadow_actions.c:39 | Client ids of at most 77 characters give tokens that always fit. |
| ShadowBuilder.TokenOverflows | satclient/release/src/io/mqtt/aws-iot-sdk-2-1-1/src/aws_iot_shadow_actions.c:39 | An id of 79 characters with the sequence number 1000000000 gives a token of 90 characters. |
| ShadowBuilder.ExtractsOwnToken | satclient/release/src/io/mqtt/aws-iot-sdk-2-1-1/src/aws_iot_shadow_json.c:217-282 | The token a client appends is the one extracted if and only if the document has the size the parser takes and the token follows the first string that spells its key. |
| ShadowBuilder.ShadowClient.FillWithClientToken | satclient/release/src/io/mqtt/aws-iot-sdk-2-1-1/src/aws_iot_shadow_json.c:217-223 | Appends client id and sequence number, cut to the room, and advances the number modulo 2^32. |
| ShadowBuilder.ShadowClient.FinalizeDocument | satclient/release/src/io/mqtt/aws-iot-sdk-2-1-1/src/aws_iot_shadow_json.c:233-282 | For every size: the text, the status and the use of the token that the three steps of the code give. |
| ShadowBuilder.FinalizeSucceeds | satclient/release/src/io/mqtt/aws-iot-sdk-2-1-1/src/aws_iot_shadow_json.c:233-282 | A document reported as finished is the whole document; when the sections lie inside the buffer it is so reported if and only if the whole document does. |
| ShadowBuilder.FinalizeFails | satclient/release/src/io/mqtt/aws-iot-sdk-2-1-1/src/aws_iot_shadow_json.c:233-282 | Finalizing is an error exactly when there is no room for a character, or the token ends where the buffer has one character left. |
| ShadowBuilder.ShadowClient.BuildDocument | satclient/release/src/io/mqtt/aws-iot-sdk-2-1-1/src/aws_iot_shadow_json.c:75-282 | Init, sections and finalize in a row: reported as finished it is the whole document, and it is whenever the document fits. |
| ShadowBuilder.ShadowClient.BuildAndExtract | satclient/release/src/io/mqtt/aws-iot-sdk-2-1-1/src/aws_iot_shadow_json.c:75-449 | The round trip through the buffer: what is extracted from a document reported as finished is the own token, under the exact condition of the round trip lemma. |
| ShadowBuilder.ShadowClient.ParseReceived | satclient/release/src/io/mqtt/aws-iot-sdk-2-1-1/src/aws_iot_shadow_json.c:327-350 | Parses over the static array and accepts exactly texts with an object at the root. |
| ShadowBuilder.ShadowClient.ExtractClientToken | satclient/release/src/io/mqtt/aws-iot-sdk-2-1-1/src/aws_iot_shadow_json.c:419-449 | Computes the extraction function; when the key is the last token of the text it reads the array entry left over from earlier parses. |
| ShadowTopics.NameIsInjective | satclient/release/src/io/mqtt/aws-iot-sdk-2-1-1/src/aws_iot_shadow_records.c:143-169 | Different (thing, action, acknowledgement) triples have different topics, whatever characters the thing names contain. |
| ShadowTopics.Names | satclient/release/src/io/mqtt/aws-iot-sdk-2-1-1/src/aws_iot_shadow_records.c:143-169 | The six acknowledgement topics of a thing, word for word. |
| ShadowTopics.NameFits | satclient/release/src/io/mqtt/aws-iot-sdk-2-1-1/src/aws_iot_shadow_records.c:143-169 | Names of things that fit their own buffer fit the topic buffer. |
| ShadowTopics.StatusIsRight | satclient/release/src/io/mqtt/aws-iot-sdk-2-1-1/src/aws_iot_shadow_records.c:210-216 | An acceptance is taken for one; a rejection is, if and only if the word "accepted" occurs neither in the thing name nor in what follows the unterminated topic. |
| ShadowTopics.AcceptedOccurs | satclient/release/src/io/mqtt/aws-iot-sdk-2-1-1/src/aws_iot_shadow_records.c:213 | In a rejection topic and what follows it the word occurs only inside the thing name or inside what follows: never in a fixed part nor across a seam. |
| ShadowTopics.MistakesRejection | satclient/release/src/io/mqtt/aws-iot-sdk-2-1-1/src/aws_iot_shadow_records.c:213 | The rejections of a thing called "accepted" are taken for acceptances. |
| ShadowTable.FindsSlot | satclient/release/src/io/mqtt/aws-iot-sdk-2-1-1/src/aws_iot_shadow_records.c:238-248 | The search finds the one entry of a topic, and nothing for a topic without references. |
| ShadowTable.PresentIsReferenced | satclient/release/src/io/mqtt/aws-iot-sdk-2-1-1/src/aws_iot_shadow_records.c:304-330 | Both subscriptions are present if and only if references are held on the pair. |
| ShadowTable.SubscribedTracks | satclient/release/src/io/mqtt/aws-iot-sdk-2-1-1/src/aws_iot_shadow_records.c:332-367 | Taking two free entries for a new pair keeps table and broker in step with the references. |
| ShadowTable.BumpedTracks | satclient/release/src/io/mqtt/aws-iot-sdk-2-1-1/src/aws_iot_shadow_records.c:384-400 | Incrementing both entries is one reference more on the pair. |
| ShadowTable.ReleasedTracks | satclient/release/src/io/mqtt/aws-iot-sdk-2-1-1/src/aws_iot_shadow_records.c:250-288 | Releasing is one reference less on the pair; the last one frees and unsubscribes both entries unless the pair is sticky. |
| ShadowTable.FailedRelease | satclient/release/src/io/mqtt/aws-iot-sdk-2-1-1/src/aws_iot_shadow_records.c:250-288 | When unsubscribing fails nothing is unsubscribed from, and the count goes down by one if more references than one are held. |
| ShadowTable.InUseBound | satclient/release/src/io/mqtt/aws-iot-sdk-2-1-1/src/aws_iot_shadow_records.c:73-74 | At most two entries are in use for each reference. |
| ShadowRecords.AnsweringKeeps | satclient/release/src/io/mqtt/aws-iot-sdk-2-1-1/src/aws_iot_shadow_records.c:180-236 | Answering a request, freeing its record and releasing its reference keeps counts, records, subscriptions and answers consistent. |
| ShadowRecords.SubscribedWhileWaiting | satclient/release/src/io/mqtt/aws-iot-sdk-2-1-1/src/aws_iot_shadow_records.c:250-288 | The client is subscribed exactly to the topics of pairs some record waits on or that are held without one, and every entry counts both. |
| ShadowRecords.PairsWaited | satclient/release/src/io/mqtt/aws-iot-sdk-2-1-1/src/aws_iot_shadow_records.c:421-438 | A pair has a waiting reference if and only if some record waits on it. |
| ShadowRecords.Records.constructor | satclient/release/src/io/mqtt/aws-iot-sdk-2-1-1/src/aws_iot_shadow_records.c:290-302 | Everything is free, nothing subscribed, nothing waiting. |
| ShadowRecords.Records.NextFreeSubscription | satclient/release/src/io/mqtt/aws-iot-sdk-2-1-1/src/aws_iot_shadow_records.c:132-141 | Returns the first free entry and marks it, or says that none is free. |
| ShadowRecords.Records.FindSubscription | satclient/release/src/io/mqtt/aws-iot-sdk-2-1-1/src/aws_iot_shadow_records.c:238-248 | The first entry in use with the topic. |
| ShadowRecords.Records.IsSubscriptionPresent | satclient/release/src/io/mqtt/aws-iot-sdk-2-1-1/src/aws_iot_shadow_records.c:304-330 | True if and only if entries for both acknowledgements are in use. |
| ShadowRecords.Records.SubscribeToActionAcks | satclient/release/src/io/mqtt/aws-iot-sdk-2-1-1/src/aws_iot_shadow_records.c:332-382 | With two free entries and both subscribe calls successful, two entries and two subscriptions are added; if a call fails, exactly one entry more stays in use and no subscription is added; on a full table success is reported, nothing is added, and a topic left over may be unsubscribed from. |
| ShadowRecords.Records.IncrementSubscriptionCnt | satclient/release/src/io/mqtt/aws-iot-sdk-2-1-1/src/aws_iot_shadow_records.c:384-400 | Exactly the entries of the pair are incremented, modulo 256. |
| ShadowRecords.Records.ReleaseTopic | satclient/release/src/io/mqtt/aws-iot-sdk-2-1-1/src/aws_iot_shadow_records.c:263-274 | One entry is freed and unsubscribed, decremented, or left when sticky; when unsubscribing fails it stays as it is. |
| ShadowRecords.Records.UnsubscribeFromAcceptedAndRejected | satclient/release/src/io/mqtt/aws-iot-sdk-2-1-1/src/aws_iot_shadow_records.c:250-288 | Both topics of the record's pair are released. |
| ShadowRecords.Records.Reference | satclient/release/src/io/mqtt/aws-iot-sdk-2-1-1/src/aws_iot_shadow_actions.c:51-58 | With room for the pair and successful subscribe calls, one reference more on it; otherwise the exact effect of a failed call and of a full table. |
| ShadowRecords.Records.AlwaysRoom | satclient/release/src/io/mqtt/aws-iot-sdk-2-1-1/src/aws_iot_shadow_records.c:73-74 | While no reference is held without a record, two free entries exist whenever a new pair needs them, by counting. |
| ShadowRecords.Records.InternalAction | satclient/release/src/io/mqtt/aws-iot-sdk-2-1-1/src/aws_iot_shadow_actions.c:32-76 | An action whose document has a client token, extracted by the shadow parser, and that has a callback waits in the first free record, if there is one and publishing succeeds; if publishing fails its reference stays without a record; a failed subscribe fails it; a full table leaves it waiting without a subscription. |
| ShadowRecords.Records.AckStatusCallback | satclient/release/src/io/mqtt/aws-iot-sdk-2-1-1/src/aws_iot_shadow_records.c:180-236 | The first record waiting with the token extracted from the payload is answered with the status read from the topic, freed and released; otherwise nothing changes. |
| ShadowRecords.Records.HandleExpiredResponseCallbacks | satclient/release/src/io/mqtt/aws-iot-sdk-2-1-1/src/aws_iot_shadow_records.c:453-467 | Exactly the expired records are answered by a time-out, in order, and freed; no other is touched. |
| ShadowRecords.SweepIsExact | satclient/release/src/io/mqtt/aws-iot-sdk-2-1-1/src/aws_iot_shadow_records.c:453-467 | A record is freed, and its request answered by a time-out, if and only if it waits and its deadline is not after the present. |
| ShadowRecords.Records.Run | satclient/release/src/io/mqtt/aws-iot-sdk-2-1-1/src/aws_iot_shadow_records.c:180-467 | In every run of non-sticky published actions, messages and time-outs, with subscribing and unsubscribing successful, each call does just what it should to the list of records, the requests made and the answers given, there is room for each new pair, no reference is lost, and the client is subscribed exactly to the acknowledgements it waits for. |
| ShadowRecords.BuiltActionsAreOrdinary | satclient/release/src/io/mqtt/aws-iot-sdk-2-1-1/src/aws_iot_shadow_actions.c:32-76 | Actions on documents built by a client with an id of at most 77 characters belong to such runs. |

## Left out

- TLS, sockets, mutexes and `gettimeofday`: only their return codes and a clock that never goes back are modelled.
- The threaded build (`_ENABLE_THREAD_SUPPORT_`): the state discipline is a single-threaded claim.
- The rest of the older `aws-iot-sdk/mbedtls` tree: near-duplicate of the modelled one; only its tokenizer differs in what it promises.
- `JSMN_PARENT_LINKS`: not built by default.
- Token positions are unbounded; inputs longer than 2^31 characters are not modelled.
- Null pointer arguments: modelled only where the code does more than return an error (connect options).
- C pointer aliasing: topic and payload are copied, although the code points into the receive buffer while callbacks run.
- Partial writes: the TLS write reports success only for a full write, so the loop of `send_packet`, which would pass the full length again, runs once.
- `set_connect_params` copies the user name into the password; the CONNECT serializer is modelled from its own argument.
- Connect.Serialize: the protocol name, will and credentials are taken as byte strings; `Wf` is the 16-bit width of their length fields.
- Publish.Serialize: QoS 0 and 1 only; the array is modelled with the cells behind the buffer that messages beyond the limits of the protocol are written to.
- TopicRequests.Serialize: the array is modelled with the cells behind the buffer, likewise.
- TopicRequests.DeserializeSuback: the array of granted codes has one cell more than the code expects, because the code may fill it.
- PacketReader.Reader.ReadPacketInto: the receive buffer is modelled with the cells that follow it in memory, because the code may write there.
- Client.Client.RunCall: null checks are not modelled; whether a request fits the write buffer is part of whether it is sent.
- Client.Client.SubscribeCall: granted QoS and the data passed to handlers are not modelled; the table has the five slots of the default configuration.
- Client.Client.RenewSlot: when a callback unsubscribes a slot before its turn, the code passes a null pointer on; here such a request names no filter.
- ClientRuns.LossFound: speaks of a yield whose callbacks call nothing; for runs of several calls, with any callbacks, the bound is the one of `ClientRuns.AnyRun`, in terms of the gaps between checks.
- Client.Client.AttemptReconnectCall: may enter the pending state without initialising the back-off; back-off is stated for outages detected by yield, while no callback disturbs it.
- ClientRuns.IntervalInForce: stated for connects during which no callback calls the API; `ClientRuns.HandlerReconnects` shows that a callback that does can change the interval.
- Client.Client.YieldTurn: of a turn in which callbacks call the API, only what its parts promise is stated, in `Client.Client.ReadTurn`.
- ClientRuns.BackOffBounds: stated for outages in which no callback changes the back-off fields.
- ShadowBuilder.AddSection: at most 127 fields, beyond which the loop counter of the code overflows; the array is modelled with the cells behind the document that the code writes to.
- ShadowBuilder.ShadowClient.ExtractClientToken: a left-over entry that points outside the text reads as the empty string; the code reads memory there.
- Floating point values of shadow fields, and nested JSON values: integers, booleans and strings only.
- Delta messages and version numbers of the shadow layer: a table of keys scanned in order; easy members.
- ShadowRecords.Records.InternalAction: tokens and thing names fit their buffers, as the code demands without checking; after a failed subscribe, a failed unsubscribe, on a full table or with 255 references held, what is promised is the effect of the call itself, not the invariant for the calls after it.
- ShadowRecords.Records.HandleExpiredResponseCallbacks: unsubscribing succeeds; the effect of a failing one is that of `ShadowRecords.Records.ReleaseTopic`.
- ShadowRecords.Records.AckStatusCallback: tokens of messages are shorter than the 110 bytes of their buffer; unsubscribing succeeds; the version number is not read.
- ShadowRecords.Records.Run: subscribing and unsubscribing succeed, callbacks do not start actions, and no delete handler is registered on a topic that acknowledgements also use.
- Thing names of 20 characters and more: their buffer is left without a terminator.
- The settling delay of two seconds after a subscription: waiting only.
- Samples, sensors, AMQP client, configuration headers and logging.
