# afx-cefhud-interop, modelled in Dafny

This project models the native core of the advancedfx CEF HUD interop. The
interop lets a Chromium Embedded Framework browser draw a HUD over the game. It
also lets the browser drive the game engine over a named pipe.

The model covers three parts of the program.

1. **The pipe protocol of `AfxInterop.cpp`.**
   - **The byte codec of `CNamedPipeServer`.**
     - Modules `Wire` and `Pipe`.
     - Fixed-width little-endian integers.
     - Compressed unsigned and signed 32-bit integers.
     - Length-prefixed UTF-8 strings.
     - The chunked `ReadBytes`/`WriteBytes` loops over scripted overlapped completions.
     - The client's whole stream is a ghost value of the pipe. The input left to read is always a tail of it, so the message loop can say where each message was read.
   - **The calc-callback registries** (`CCalcCallbacks`, module `CalcCallbacks`).
     - A map from names to sets of callbacks, with the references the registry holds.
     - The batch request and result exchange, which walks the names in ascending byte order.
   - **The game-event filter settings, their serialisation and the game-event decoder.**
     - Modules `GameEventCodec` and `EngineEvents`.
     - The settings are the allow and deny lists with their pending changes, the enrichments and the transmit flags.
     - Serialisation is `WriteGameEventSettings`. Decoding is `ReadGameEvent`.
   - **The shared connection state machine** (`CInterop::Connection`, `Connected`, `Close`).
   - **The drawing interop's frame-sync exchange** (module `Interop`).
   - **The engine interop's message loop** (module `Engine`).
     - The command-list parser.
     - The FIFO flush of scheduled commands.
     - The calc-callback round.
     - The render-view reply of seven booleans, which ends the loop when all are false.
     - The render-pass and view-override replies.
     - The handshake done on a new connection.
2. **The `afx://file/` scheme handler of `scheme_handler_impl.cpp`** (module `SchemeHandler`).
   - The extension-to-MIME-type table and its lookup.
   - `ends_with`.
   - Turning a request URL into a file path.
   - The offset accounting of `ReadResponse`.
3. **The URL handling of `simple_app.cc`** (module `SimpleApp`).
   - Adding the `afx=` parameter to the first page's URL.
   - Extracting that parameter again in `OnContextCreated`.
   - Choosing the interop factory.

Shared helpers:

- `Order` holds the byte-wise order of `std::string` keys and sorted iteration over sets.
- `Text` holds `find`/`rfind` and prefix/suffix helpers on strings.
- `Wrappers` holds `Option`.

**How the parts are modelled.**

- **The pipe** is a class.
  - `inbox` holds the bytes the client has sent and the server has not read yet.
  - `outbox` holds everything written.
  - Every read method is proved against a pure decoder on `inbox`. Every write method is proved against an encoder on `outbox`.
  - Round-trip lemmas connect each decoder with its encoder.
- **Stateful objects are classes whose methods update their fields.**
  - `PipeServer`, `Registry`, `GameEvents`, `EngineInterop`, `DrawingInterop` and `FileHandler`.
  - Every loop of the source is a `while` loop with its invariants.
- **Foreign callbacks become values.**
  - Callbacks are opaque identifiers.
  - What a callback answers is a parameter.
  - The calls the interop makes into callbacks are returned as a sequence of `Call` or `Delivery` values.

## Model

| member | source | states |
|---|---|---|
| Wire.DecodeEncodeLE | afx-cefhud-interop/AfxInterop.cpp:153-159 | an n-byte little-endian encoding decodes back to the value it encodes |
| Wire.EncodeDecodeLE | afx-cefhud-interop/AfxInterop.cpp:153-159 | every n-byte string is the encoding of the value it decodes to, so fixed-width reads are raw memory copies |
| Wire.DecodeRaw | afx-cefhud-interop/AfxInterop.cpp:92-132 | reading n bytes succeeds exactly when n bytes are available, and splits the input into those n bytes and the rest |
| Wire.BooleanRoundTrip | afx-cefhud-interop/AfxInterop.cpp:134-143 | a written boolean reads back as itself and leaves the following bytes unread |
| Wire.ByteRoundTrip | afx-cefhud-interop/AfxInterop.cpp:145-147 | a written byte reads back as itself |
| Wire.SByteRoundTrip | afx-cefhud-interop/AfxInterop.cpp:149-151 | a written signed byte reads back as itself |
| Wire.Int16RoundTrip | afx-cefhud-interop/AfxInterop.cpp:153-155 | a written 16-bit integer reads back as itself |
| Wire.UInt32RoundTrip | afx-cefhud-interop/AfxInterop.cpp:157-159 | a written unsigned 32-bit integer reads back as itself |
| Wire.Int32RoundTrip | afx-cefhud-interop/AfxInterop.cpp:175-177 | a written signed 32-bit integer reads back as itself, including negative values in two's complement |
| Wire.Int32Canonical | afx-cefhud-interop/AfxInterop.cpp:175-177 | any four bytes decode to a 32-bit integer whose encoding is those four bytes |
| Wire.UInt64RoundTrip | afx-cefhud-interop/AfxInterop.cpp:218-220 | a written 64-bit integer reads back as itself |
| Wire.SingleRoundTrip | afx-cefhud-interop/AfxInterop.cpp:222-224 | a float, as an opaque 4-byte value, reads back as itself |
| Wire.VectorRoundTrip | afx-cefhud-interop/AfxInterop.cpp:488-494 | three floats X, Y, Z read back as the vector written |
| Wire.QAngleRoundTrip | afx-cefhud-interop/AfxInterop.cpp:496-502 | pitch, yaw and roll read back as the angle written |
| Wire.CompressedUInt32Shape | afx-cefhud-interop/AfxInterop.cpp:292-298 | values 0..254 take exactly one byte; every other value takes five bytes and starts with the marker 255 |
| Wire.CompressedUInt32RoundTrip | afx-cefhud-interop/AfxInterop.cpp:161-173 | a compressed unsigned integer reads back as the value written, for every 32-bit value |
| Wire.CompressedInt32RoundTrip | afx-cefhud-interop/AfxInterop.cpp:179-191 | the corrected signed reader gives back every value the writer encodes, -128..126 in one byte and the rest after the marker 127 |
| Wire.CompressedInt32AsWrittenDiffers | afx-cefhud-interop/AfxInterop.cpp:179-191 | the reader as written differs from the intended reader exactly on inputs whose first byte is 0 |
| Wire.CompressedInt32AsWrittenRejectsZero | afx-cefhud-interop/AfxInterop.cpp:183-186 | as written, reading a compressed 0 reports failure, while the intended reader returns 0 |
| Wire.CompressedInt32WriteStatus | afx-cefhud-interop/AfxInterop.cpp:302-308 | the intended writer reports success exactly when the first byte is written and, for values outside -128..126, the 4-byte value as well |
| Wire.CompressedInt32WriteStatusAsWrittenMisreports | afx-cefhud-interop/AfxInterop.cpp:303-304 | as written, the short branch returns no status; the lemma takes that status as indeterminate and shows a successful write of 0 reported as failed |
| Wire.StringRoundTrip | afx-cefhud-interop/AfxInterop.cpp:193-205 | a string shorter than 2^32 bytes reads back as itself: a compressed length followed by exactly those bytes |
| Wire.StringTruncated | afx-cefhud-interop/AfxInterop.cpp:318-323 | a longer string goes out with its length cut to 32 bits and reads back as its prefix of that length |
| Wire.StringsRoundTrip | afx-cefhud-interop/AfxInterop.cpp:416-427 | n strings written one after another read back as the same n strings in order |
| Wire.StringListRoundTrip | afx-cefhud-interop/AfxInterop.cpp:416-427 | a count followed by the strings reads back as the same list |
| Pipe.PipeServer.constructor | afx-cefhud-interop/AfxInterop.cpp:36-64 | a new server starts in the state pipe creation produced, with nothing read or written |
| Pipe.PipeServer.Connect | afx-cefhud-interop/AfxInterop.cpp:75-90 | only a waiting pipe changes state: it becomes connected when the connect event completes and errored when the completion fails; the result is the new state |
| Pipe.PipeServer.ReadBytes | afx-cefhud-interop/AfxInterop.cpp:92-132 | the read succeeds exactly when the completion script lets `length` bytes arrive (`ReadSucceeds`); success means exactly `length` bytes were taken from the front of the input; what did arrive is returned and the input left is what follows it; a failed read took fewer bytes than asked for, or none when none were asked for |
| Pipe.PipeServer.WriteBytes | afx-cefhud-interop/AfxInterop.cpp:226-267 | the write succeeds exactly when the completion script lets all bytes go out (`WriteSucceeds`); success means exactly the given bytes were appended; on failure only a proper prefix of them went out |
| Pipe.ReadNeedsBytes | afx-cefhud-interop/AfxInterop.cpp:92-132 | a read can succeed only when the input holds at least the bytes asked for |
| Pipe.ReadProgresses | afx-cefhud-interop/AfxInterop.cpp:92-132 | when every step transfers at least one byte and the input is long enough, the read succeeds |
| Pipe.WriteProgresses | afx-cefhud-interop/AfxInterop.cpp:226-267 | when every step transfers at least one byte, the write succeeds |
| Pipe.WriteFailsAtFailure | afx-cefhud-interop/AfxInterop.cpp:226-267 | a failed step reached before any byte went out fails a non-empty write |
| Pipe.PipeServer.Flush | afx-cefhud-interop/AfxInterop.cpp:269-274 | success exactly when the next scripted flush result is success |
| Pipe.PipeServer.ReadBoolean | afx-cefhud-interop/AfxInterop.cpp:134-143 | on success the value is the boolean decoded from the front of the input and the rest is left; a failed read stops before the end of the value (`BrokeOff`); the read succeeds exactly when the completion script lets the byte arrive (`ReadSucceeds`) |
| Pipe.PipeServer.ReadByte | afx-cefhud-interop/AfxInterop.cpp:145-147 | on success the value is the decoded byte; a failed read stops before the end of the value (`BrokeOff`); the read succeeds exactly when the completion script lets the byte arrive (`ReadSucceeds`) |
| Pipe.PipeServer.ReadSByte | afx-cefhud-interop/AfxInterop.cpp:149-151 | on success the value is the decoded signed byte; a failed read stops before the end of the value (`BrokeOff`); the read succeeds exactly when the completion script lets the byte arrive (`ReadSucceeds`) |
| Pipe.PipeServer.ReadInt16 | afx-cefhud-interop/AfxInterop.cpp:153-155 | on success the value is the decoded 16-bit integer; a failed read stops before the end of the value (`BrokeOff`); the read succeeds exactly when the completion script lets the 2 bytes arrive (`ReadSucceeds`) |
| Pipe.PipeServer.ReadUInt32 | afx-cefhud-interop/AfxInterop.cpp:157-159 | on success the value is the decoded unsigned 32-bit integer; a failed read stops before the end of the value (`BrokeOff`); the read succeeds exactly when the completion script lets the 4 bytes arrive (`ReadSucceeds`) |
| Pipe.PipeServer.ReadInt32 | afx-cefhud-interop/AfxInterop.cpp:175-177 | on success the value is the decoded signed 32-bit integer; a failed read stops before the end of the value (`BrokeOff`); the read succeeds exactly when the completion script lets the 4 bytes arrive (`ReadSucceeds`) |
| Pipe.PipeServer.ReadUInt64 | afx-cefhud-interop/AfxInterop.cpp:218-220 | on success the value is the decoded 64-bit integer; a failed read stops before the end of the value (`BrokeOff`); the read succeeds exactly when the completion script lets the 8 bytes arrive (`ReadSucceeds`) |
| Pipe.PipeServer.ReadSingle | afx-cefhud-interop/AfxInterop.cpp:222-224 | on success the value is the next four bytes; a failed read stops before the end of the value (`BrokeOff`); the read succeeds exactly when the completion script lets the 4 bytes arrive (`ReadSucceeds`) |
| Pipe.PipeServer.ReadCompressedUInt32 | afx-cefhud-interop/AfxInterop.cpp:161-173 | on success the value is the decoded compressed integer: a byte below 255, or the 4 bytes after 255; a failed read stops before the end of the value (`BrokeOff`); the read succeeds exactly when the script lets the first byte arrive and, after the marker 255, the four bytes after it (`CompressedUInt32Arrives`) |
| Pipe.PipeServer.ReadCompressedInt32 | afx-cefhud-interop/AfxInterop.cpp:179-191 | corrected reader: on success the value is the decoded compressed signed integer; a failed read stops before the end of the value (`BrokeOff`); the read succeeds exactly when the script lets the first byte arrive and, after the marker 127, the four bytes after it (`CompressedInt32Arrives`) |
| Pipe.PipeServer.ReadStringUTF8 | afx-cefhud-interop/AfxInterop.cpp:193-205 | on success the value is the string decoded from a compressed length and that many bytes; on failure (`BrokenString`) it is empty exactly when the length did not arrive in full, otherwise the announced length of zeros with the bytes that did arrive in front (`resize`, then a partial read), and the string itself did not arrive in full unless it is empty; the read succeeds exactly when the script lets the length and then the announced bytes arrive (`StringArrives`) |
| Pipe.StringArrivesNeedsBytes | afx-cefhud-interop/AfxInterop.cpp:193-205 | a string read can succeed only when the input holds its whole length prefix and every byte the length announces |
| Pipe.PipeServer.WriteBoolean | afx-cefhud-interop/AfxInterop.cpp:276-280 | success exactly when the byte 1 or 0 was appended, and exactly when the completion script lets the byte go out (`WriteSucceeds`); on failure only a prefix of them went out |
| Pipe.PipeServer.WriteByte | afx-cefhud-interop/AfxInterop.cpp:282 | success exactly when the byte was appended, and exactly when the completion script lets the byte go out (`WriteSucceeds`); on failure only a prefix of them went out |
| Pipe.PipeServer.WriteSByte | afx-cefhud-interop/AfxInterop.cpp:284-286 | success exactly when the signed byte was appended, and exactly when the completion script lets the byte go out (`WriteSucceeds`); on failure only a prefix of them went out |
| Pipe.PipeServer.WriteUInt32 | afx-cefhud-interop/AfxInterop.cpp:288-290 | success exactly when the 4-byte encoding was appended, and exactly when the completion script lets the 4 bytes go out (`WriteSucceeds`); on failure only a prefix of them went out |
| Pipe.PipeServer.WriteInt32 | afx-cefhud-interop/AfxInterop.cpp:300 | success exactly when the 4-byte encoding was appended, and exactly when the completion script lets the 4 bytes go out (`WriteSucceeds`); on failure only a prefix of them went out |
| Pipe.PipeServer.WriteHandle | afx-cefhud-interop/AfxInterop.cpp:310-314 | success exactly when the handle's 32-bit value was appended, and exactly when the completion script lets the 4 bytes go out (`WriteSucceeds`); on failure only a prefix of them went out |
| Pipe.PipeServer.WriteSingle | afx-cefhud-interop/AfxInterop.cpp:316 | success exactly when the four bytes were appended, and exactly when the completion script lets the 4 bytes go out (`WriteSucceeds`); on failure only a prefix of them went out |
| Pipe.PipeServer.WriteCompressedUInt32 | afx-cefhud-interop/AfxInterop.cpp:292-298 | success exactly when the compressed encoding was appended in full, and exactly when the script lets one byte and, above 254, four more go out (`CompressedUInt32Sent`); on failure only a prefix went out |
| Pipe.PipeServer.WriteCompressedInt32 | afx-cefhud-interop/AfxInterop.cpp:302-308 | corrected writer: success exactly when the compressed signed encoding was appended in full, and exactly when the script lets one byte and, outside -128..126, four more go out (`CompressedInt32Sent`); on failure only a prefix went out |
| Pipe.PipeServer.WriteStringUTF8 | afx-cefhud-interop/AfxInterop.cpp:318-323 | success means the length and the bytes were appended, and happens exactly when the script lets the compressed length and then the bytes go out (`StringSent`); on failure only a prefix of them went out |
| Order.LexLessIsStrictTotalOrder | afx-cefhud-interop/AfxInterop.cpp:416-427 | the byte-wise order on `std::string` keys is a strict total order, so map iteration has one well-defined order |
| Order.SortedIsSortedSeq | afx-cefhud-interop/AfxInterop.cpp:416-427 | a sorted sequence holding the keys of a set is the one ascending listing of that set |
| Order.PickMin | afx-cefhud-interop/AfxInterop.cpp:1649-1659 | `begin()` of an ordered set: the least element |
| Order.NameDrainEnd | afx-cefhud-interop/AfxInterop.cpp:1649-1659 | names taken least-first until none is left come out in ascending order |
| CalcCallbacks.DecodeResult | afx-cefhud-interop/AfxInterop.cpp:466-600 | a decoded result is of the registry's kind and consumes input |
| CalcCallbacks.ResultRoundTrip | afx-cefhud-interop/AfxInterop.cpp:466-600 | the result of each of the six kinds (handle, vec-ang, cam, fov, bool, int) reads back as written |
| CalcCallbacks.VecAngRoundTrip | afx-cefhud-interop/AfxInterop.cpp:488-505 | a vector followed by an angle reads back as a vec-ang result |
| CalcCallbacks.CamRoundTrip | afx-cefhud-interop/AfxInterop.cpp:516-536 | a vector, an angle and a field of view read back as a cam result |
| CalcCallbacks.AnswerRoundTrip | afx-cefhud-interop/AfxInterop.cpp:435-446 | a has-result boolean followed, only when true, by a result reads back as the answer written |
| CalcCallbacks.AnswersRoundTrip | afx-cefhud-interop/AfxInterop.cpp:429-454 | n answers written in sequence read back as the same n answers |
| CalcCallbacks.InsertKeepsRefs | afx-cefhud-interop/AfxInterop.cpp:398-401 | corrected `Add`: the registry keeps one reference per registration, taking a new one only when the pair was not yet registered, and never holds an empty set |
| CalcCallbacks.AddAsWrittenOverCounts | afx-cefhud-interop/AfxInterop.cpp:398-401 | as written, adding a registered pair again leaves one registration holding two references |
| CalcCallbacks.ReleaseKeepsRefs | afx-cefhud-interop/AfxInterop.cpp:403-414 | removing a registered pair releases exactly one reference and keeps the count matching the registrations |
| CalcCallbacks.DropEmptyKeepsRefs | afx-cefhud-interop/AfxInterop.cpp:408-409 | dropping a name whose set became empty releases nothing |
| CalcCallbacks.NoEntriesNoRefs | afx-cefhud-interop/AfxInterop.cpp:387-396 | an empty registry holds no references |
| CalcCallbacks.ReleaseName | afx-cefhud-interop/AfxInterop.cpp:388-394 | emptying one name releases exactly the references its callbacks held and removes the name |
| CalcCallbacks.ReadResult | afx-cefhud-interop/AfxInterop.cpp:466-600 | on success the result is the one decoded for the registry's kind |
| CalcCallbacks.ReadAnswer | afx-cefhud-interop/AfxInterop.cpp:435-446 | on success the answer is the decoded optional result |
| CalcCallbacks.DeliverToAll | afx-cefhud-interop/AfxInterop.cpp:448-451 | the callbacks of a name are called in ascending order, each with the answer |
| CalcCallbacks.ReadAnswers | afx-cefhud-interop/AfxInterop.cpp:429-454 | one answer per registered name is read, names in ascending order; the calls made so far are the deliveries for the names answered, also on failure |
| CalcCallbacks.Registry.constructor | afx-cefhud-interop/AfxInterop.cpp:385-396 | a new registry is empty and holds no references |
| CalcCallbacks.Registry.Add | afx-cefhud-interop/AfxInterop.cpp:398-401 | corrected: afterwards the callback is registered under the name, and a reference is taken only when it was new |
| CalcCallbacks.Registry.Remove | afx-cefhud-interop/AfxInterop.cpp:403-414 | removes only that callback from that name and releases its reference; an absent pair changes nothing and releases nothing; other names keep their callbacks |
| CalcCallbacks.Registry.Dispose | afx-cefhud-interop/AfxInterop.cpp:387-396 | the destructor releases exactly the references held and leaves the registry empty |
| CalcCallbacks.Registry.BatchUpdateRequest | afx-cefhud-interop/AfxInterop.cpp:416-427 | on success it wrote the number of names and then every name in ascending order |
| CalcCallbacks.Registry.BatchUpdateResult | afx-cefhud-interop/AfxInterop.cpp:429-454 | on success it consumed one answer per name in ascending order and delivered each to every callback of its name |
| GameEventCodec.AddName | afx-cefhud-interop/AfxInterop.cpp:833-837 | the name becomes a pending addition and is not a pending deletion; the list's effective set gains the name |
| GameEventCodec.RemoveName | afx-cefhud-interop/AfxInterop.cpp:838-842 | the name becomes a pending deletion and is not a pending addition; the effective set loses the name |
| GameEventCodec.EffectiveEnrichments | afx-cefhud-interop/AfxInterop.cpp:1744-1751 | a pending change of 0 erases the key, any other value sets it, and keys without a change keep their enrichment |
| GameEventCodec.ApplyChange | afx-cefhud-interop/AfxInterop.cpp:1744-1751 | one change: 0 erases the key, any other value sets it, other keys untouched |
| GameEventCodec.ApplyChangeKeepsEffective | afx-cefhud-interop/AfxInterop.cpp:1731-1754 | applying one pending change and dropping it leaves the effective enrichments unchanged, the loop invariant of the drain |
| GameEventCodec.SetChangeEffect | afx-cefhud-interop/AfxInterop.cpp:853-857 | recording a change has the effect of applying it to the effective enrichments |
| GameEventCodec.Committed | afx-cefhud-interop/AfxInterop.cpp:1613-1757 | after a full write nothing is pending, each committed list is its effective set (allow minus deletions plus additions), and the enrichments are the effective ones |
| GameEventCodec.CommittedKeepsEffective | afx-cefhud-interop/AfxInterop.cpp:1613-1757 | committing does not change what the settings mean |
| GameEventCodec.KeyDefsRoundTrip | afx-cefhud-interop/AfxInterop.cpp:1450-1466 | a has-next flagged list of (key, type) definitions reads back as written |
| GameEventCodec.DefinitionRoundTrip | afx-cefhud-interop/AfxInterop.cpp:1434-1466 | an event definition (id, name, keys) reads back as written |
| GameEventCodec.DecodeValue | afx-cefhud-interop/AfxInterop.cpp:1507-1546 | field types 1..7 yield a value of that type; any other type reads nothing and adds no key |
| GameEventCodec.ValueRoundTrip | afx-cefhud-interop/AfxInterop.cpp:1507-1546 | a key value of each of the seven field types reads back as written |
| GameEventCodec.DecodeEnrichment | afx-cefhud-interop/AfxInterop.cpp:1548-1604 | a decoded enrichment never grows the input, and with any of bits 0..4 set it consumes input |
| GameEventCodec.EnrichmentRoundTrip | afx-cefhud-interop/AfxInterop.cpp:1548-1604 | the optional fields announced by bits 0..4 (steam id, origin, angles, eye position, eye angles) read back in that order as written |
| GameEventCodec.DecodeTimes | afx-cefhud-interop/AfxInterop.cpp:1479-1495 | corrected: each presence flag of the time header is set exactly when its transmit flag is on |
| GameEventCodec.TimesAsWrittenMisflags | afx-cefhud-interop/AfxInterop.cpp:1491-1495 | as written, a system time alone is reported as a tick that was never sent and no system time |
| GameEventCodec.ResolveEvent | afx-cefhud-interop/AfxInterop.cpp:1427-1473 | resolving an event id consumes input and adds at most one known event |
| GameEventCodec.DuplicateDefinitionFails | afx-cefhud-interop/AfxInterop.cpp:1438-1442 | a definition for an id already known fails |
| GameEventCodec.UnknownIdFails | afx-cefhud-interop/AfxInterop.cpp:1468-1473 | a non-zero id that is not known fails |
| GameEventCodec.KnownIdResolves | afx-cefhud-interop/AfxInterop.cpp:1468-1473 | a known non-zero id resolves to its definition and changes nothing |
| GameEventCodec.DefinitionRecorded | afx-cefhud-interop/AfxInterop.cpp:1433-1466 | id 0 followed by a new definition records exactly that definition |
| GameEventCodec.DecodeGameEvent | afx-cefhud-interop/AfxInterop.cpp:1427-1611 | a decoded event consumes input and never forgets a known event |
| EngineEvents.SetTransmit | afx-cefhud-interop/AfxInterop.cpp:868-879 | corrected setter: the flag takes the value, and no change is pending only if none was pending and the value did not change |
| EngineEvents.SetTransmitKeepsSync | afx-cefhud-interop/AfxInterop.cpp:868-879 | with the corrected setter, flags without a pending change always equal what the client was last sent |
| EngineEvents.SetTransmitAsWrittenLosesChange | afx-cefhud-interop/AfxInterop.cpp:868-879 | as written, a second setter call that changes nothing clears the pending change of the first, so the client is never told |
| EngineEvents.WriteFlags | afx-cefhud-interop/AfxInterop.cpp:1639-1644 | on success the three transmit flags were written in order |
| EngineEvents.WriteNames | afx-cefhud-interop/AfxInterop.cpp:1668-1671 | on success every name of the set was written in ascending order |
| EngineEvents.WriteDeletions | afx-cefhud-interop/AfxInterop.cpp:1648-1660 | on success the deletions left the committed set and are no longer pending, their count and names having been written in delta mode only; on failure the list still means the same |
| EngineEvents.DrainAdditions | afx-cefhud-interop/AfxInterop.cpp:1673-1679 | on success every pending addition was written in ascending order and joined the committed set |
| EngineEvents.WriteAdditions | afx-cefhud-interop/AfxInterop.cpp:1662-1679 | on success it wrote the count (plus the committed names on a full write) and the additions, which are then committed |
| EngineEvents.WriteList | afx-cefhud-interop/AfxInterop.cpp:1648-1713 | on success the list's committed set becomes its effective set with nothing pending; it always keeps the effective set |
| EngineEvents.WriteEnrichmentEntry | afx-cefhud-interop/AfxInterop.cpp:1723-1728 | on success the event name, property name and bits were written |
| EngineEvents.WriteEntries | afx-cefhud-interop/AfxInterop.cpp:1721-1729 | on success every enrichment was written in ascending key order |
| EngineEvents.WriteChanges | afx-cefhud-interop/AfxInterop.cpp:1731-1754 | on success every pending change was written in key order and folded in (0 erases, other values set); the effective enrichments never change |
| EngineEvents.WriteEnrichments | afx-cefhud-interop/AfxInterop.cpp:1715-1754 | on success the count, the committed entries on a full write, and the changes were written, and nothing is pending |
| EngineEvents.WriteSettingsBody | afx-cefhud-interop/AfxInterop.cpp:1639-1756 | on success the settings are committed and the message written; at every outcome the effective settings are unchanged |
| EngineEvents.WriteSettingsMessage | afx-cefhud-interop/AfxInterop.cpp:1613-1757 | without a callback only `false` is written and nothing changes; in delta mode with nothing pending `true, false` is written and nothing changes; otherwise success commits everything and clears the transmit-changed flag |
| EngineEvents.GameEvents.ReadKeyDefs | afx-cefhud-interop/AfxInterop.cpp:1450-1466 | each key is added to the entry as it arrives: the entry always holds the name and the keys read so far; on success the keys are the decoded key list, and on failure (`BrokenKeys`) they are exactly the keys that arrived in full, the next key or the closing `false` having not |
| GameEventCodec.BrokenKeysStopBefore | afx-cefhud-interop/AfxInterop.cpp:1450-1466 | a key list that broke off after some keys stopped before the end of any longer run of keys |
| GameEventCodec.BrokenKeysDetermine | afx-cefhud-interop/AfxInterop.cpp:1450-1466 | where a key list broke off fixes the keys the entry keeps |
| GameEventCodec.AnnouncedKeysOfList | afx-cefhud-interop/AfxInterop.cpp:1450-1466 | reading a complete key list key by key finds the same keys the list decoder returns |
| EngineEvents.ReadVector | afx-cefhud-interop/AfxInterop.cpp:1566-1573 | on success the vector is the one decoded |
| EngineEvents.ReadQAngle | afx-cefhud-interop/AfxInterop.cpp:1577-1584 | on success the angle is the one decoded |
| EngineEvents.ReadTimes | afx-cefhud-interop/AfxInterop.cpp:1479-1495 | on success the time header is the one decoded under the transmit flags |
| EngineEvents.ReadValue | afx-cefhud-interop/AfxInterop.cpp:1507-1546 | on success the key value is the one decoded for the field type |
| EngineEvents.ReadEnrichment | afx-cefhud-interop/AfxInterop.cpp:1556-1604 | on success the enrichment fields are the ones decoded for the bits |
| EngineEvents.EnrichLast | afx-cefhud-interop/AfxInterop.cpp:1548-1604 | on success the last key carries the enrichment decoded for its (event, key) entry |
| EngineEvents.ReadKeys | afx-cefhud-interop/AfxInterop.cpp:1505-1606 | on success the keys are the ones decoded in definition order, each enriched as configured |
| EngineEvents.GameEvents.constructor | afx-cefhud-interop/AfxInterop.cpp:1371-1425 | new settings are empty, flags off, nothing pending, no known events, no callback |
| EngineEvents.GameEvents.AllowAdd | afx-cefhud-interop/AfxInterop.cpp:833-837 | the allow list's effective set gains the name; the name is pending in exactly one direction |
| EngineEvents.GameEvents.AllowRemove | afx-cefhud-interop/AfxInterop.cpp:838-842 | the allow list's effective set loses the name |
| EngineEvents.GameEvents.DenyAdd | afx-cefhud-interop/AfxInterop.cpp:843-847 | the deny list's effective set gains the name |
| EngineEvents.GameEvents.DenyRemove | afx-cefhud-interop/AfxInterop.cpp:848-852 | the deny list's effective set loses the name |
| EngineEvents.GameEvents.SetEnrichment | afx-cefhud-interop/AfxInterop.cpp:853-857 | the change is recorded and the effective enrichments become those with the change applied |
| EngineEvents.GameEvents.SetTransmitFlag | afx-cefhud-interop/AfxInterop.cpp:868-879 | corrected setter applied to the settings; nothing else changes |
| EngineEvents.GameEvents.SetCallback | afx-cefhud-interop/AfxInterop.cpp:858-866 | the callback is replaced and the old one's reference released |
| EngineEvents.GameEvents.WriteSettings | afx-cefhud-interop/AfxInterop.cpp:1613-1757 | on success the settings message was written and the settings committed; a successful full write with a callback forgets the known events |
| EngineEvents.GameEvents.ReadDefinition | afx-cefhud-interop/AfxInterop.cpp:1436-1466 | on success the id was new and exactly its decoded definition was recorded; the known events grow by at most one; a definition that breaks off after the id leaves the new entry with what the broken name read left and no key, or with the whole name and exactly the keys that arrived in full (`BrokenDefinition`); a failure that adds no entry happened only when the id read itself failed and broke off, or the id was already known |
| GameEventCodec.BrokenDefinitionDetermines | afx-cefhud-interop/AfxInterop.cpp:1436-1466 | where a definition broke off fixes the partial entry it leaves |
| EngineEvents.GameEvents.ReadGameEvent | afx-cefhud-interop/AfxInterop.cpp:1427-1611 | on success the event is the one decoded with the current flags and enrichments; it is delivered exactly when a callback is set; a failed message that adds an entry began with id 0, and the entry is the definition that followed, whole or as far as it arrived (`DefinedOrBroken`) |
| Engine.ReadStrings | afx-cefhud-interop/AfxInterop.cpp:939-948 | on success the arguments are the n strings decoded in order |
| Engine.ReadStringList | afx-cefhud-interop/AfxInterop.cpp:932-948 | on success the arguments are a count and that many strings |
| Engine.CommandListRoundTrip | afx-cefhud-interop/AfxInterop.cpp:932-952 | n commands, each an argument list, read back as written |
| Engine.CommandsRoundTrip | afx-cefhud-interop/AfxInterop.cpp:922-953 | the command block (count, then each command's arguments) reads back as written |
| Engine.ReadCommands | afx-cefhud-interop/AfxInterop.cpp:922-953 | on success the commands are those decoded from the client |
| Engine.SendQueue | afx-cefhud-interop/AfxInterop.cpp:958-965 | on success the scheduled commands were written in FIFO order and the queue is empty; otherwise the queue still holds a suffix, oldest first |
| Engine.QueueSentStep | afx-cefhud-interop/AfxInterop.cpp:962-965 | sending the front command and popping it keeps "what was sent is the queue's prefix" |
| Engine.QueueRoundTrip | afx-cefhud-interop/AfxInterop.cpp:958-965 | the client reads the flushed commands back in scheduling order |
| Engine.SinglesRoundTrip | afx-cefhud-interop/AfxInterop.cpp:1024-1088 | a run of opaque floats reads back as written |
| Engine.ReadSingles | afx-cefhud-interop/AfxInterop.cpp:1024-1088 | on success the floats are the n decoded in order |
| Engine.WriteSingles | afx-cefhud-interop/AfxInterop.cpp:1175-1188 | on success the floats were written in order |
| Engine.ViewRoundTrip | afx-cefhud-interop/AfxInterop.cpp:1290-1366 | a view (x, y, width, height, two 4x4 matrices) reads back as written |
| Engine.RenderInfoRoundTrip | afx-cefhud-interop/AfxInterop.cpp:1012-1088 | render info (frame count, three times, view) reads back as written |
| Engine.ReadView | afx-cefhud-interop/AfxInterop.cpp:1290-1366 | on success the view is the one decoded |
| Engine.ReadRenderInfo | afx-cefhud-interop/AfxInterop.cpp:1012-1088 | on success the render info is the one decoded |
| Engine.PassesRoundTrip | afx-cefhud-interop/AfxInterop.cpp:1111-1124 | the seven render-pass booleans read back as written |
| Engine.WritePasses | afx-cefhud-interop/AfxInterop.cpp:1111-1124 | on success the seven booleans were written in order |
| Engine.OverrideReplyRoundTrip | afx-cefhud-interop/AfxInterop.cpp:1168-1196 | the view-override reply (`false`, or `true` and seven floats) reads back as written |
| Engine.WriteOverrideReply | afx-cefhud-interop/AfxInterop.cpp:1168-1196 | on success the reply was written |
| Engine.Rebind | afx-cefhud-interop/AfxInterop.cpp:690-771 | setting a callback slot changes that slot only |
| Engine.HeldByRebind | afx-cefhud-interop/AfxInterop.cpp:690-771 | rebinding one slot changes the references held by exactly the old callback out and the new one in |
| Engine.SetKeepsBalance | afx-cefhud-interop/AfxInterop.cpp:690-771 | corrected setters keep one reference per set slot |
| Engine.HudBeginAsWrittenLosesReference | afx-cefhud-interop/AfxInterop.cpp:746-751 | as written, setting the hud-begin callback takes no reference, so the interop holds one reference fewer than the slots it fills |
| Engine.ServedFacts | afx-cefhud-interop/AfxInterop.cpp:905-1210 | the loop stops at the first message that ends it; without a render-view-begin callback every render-view reply is all false, so a render view ends the loop |
| Engine.OfferVersion | afx-cefhud-interop/AfxInterop.cpp:1213-1226 | on success the version 7 was written and the client accepted it, then `false` was written for the 32-bit target |
| Engine.EngineInterop.constructor | afx-cefhud-interop/AfxInterop.cpp:671-673 | a new engine interop has no pipe, no commands, no callbacks and six empty registries of the six kinds |
| Engine.EngineInterop.Close | afx-cefhud-interop/AfxInterop.cpp:646-651 | the pipe is gone |
| Engine.EngineInterop.ScheduleCommand | afx-cefhud-interop/AfxInterop.cpp:711-712 | the command joins the back of the queue |
| Engine.EngineInterop.SetCallback | afx-cefhud-interop/AfxInterop.cpp:690-771 | corrected setters: the slot holds the new callback, the other slots are unchanged, and the references swap old for new |
| Engine.EngineInterop.FrameStart | afx-cefhud-interop/AfxInterop.cpp:922-969 | on success the client's commands were read and handed to the commands callback if set, the commands that callback scheduled joined the queue, and the queue was then flushed in FIFO order and emptied; otherwise the queue is unchanged or a suffix of that queue |
| Engine.EngineInterop.SendRequests | afx-cefhud-interop/AfxInterop.cpp:979-990 | on success the six registries' requests were written in order |
| Engine.EngineInterop.UpdateCalcs | afx-cefhud-interop/AfxInterop.cpp:978-1005 | on success the six requests were written before any answer is read |
| Engine.EngineInterop.ReadAllAnswers | afx-cefhud-interop/AfxInterop.cpp:992-1003 | on success the six registries were answered in order, each call tagged with its registry's kind |
| Engine.EngineInterop.Handshake | afx-cefhud-interop/AfxInterop.cpp:1213-1249 | on success the version was offered and accepted, the full settings were sent and committed (`AfterWrite`), the known events are forgotten when a game-event callback is set and kept otherwise, and the new-connection callback is called if set |
| Engine.EngineInterop.RenderView | afx-cefhud-interop/AfxInterop.cpp:1009-1133 | on success the render info was read, the begin callback was asked for the passes if set (all false otherwise), and the seven booleans were written |
| Engine.EngineInterop.ViewOverrideReply | afx-cefhud-interop/AfxInterop.cpp:1168-1200 | on success the override is written only when a callback is set and answers; otherwise `false` |
| Engine.EngineInterop.RenderPassView | afx-cefhud-interop/AfxInterop.cpp:1290-1368 | on success the view was read and passed to the render-pass callback if set |
| Engine.EngineInterop.Serve | afx-cefhud-interop/AfxInterop.cpp:905-1210 | the message loop: the i-th step handled is the int32 message read at the i-th input, the first input is the pipe's input at the start and each later one lies past the previous message (`ReadInOrder`, `ReadUpTo`); each render view's passes are the callback's reply to it, counted from the first render view (`Replied`), and no other message asks for passes; it stops exactly at the first all-false render-view reply or render-view end, and success consumes input |
| Engine.ProgressStep | afx-cefhud-interop/AfxInterop.cpp:905-1210 | handling one more message keeps the loop's account: the inputs stay in order, the replies stay matched to the render views, and the loop is done exactly when that message ends it |
| Engine.RepliedStep | afx-cefhud-interop/AfxInterop.cpp:1097-1109 | a render view handled next receives the reply after those of the earlier render views |
| Engine.ReadInOrderStep | afx-cefhud-interop/AfxInterop.cpp:916-921 | a message read where the handler of the previous one left off keeps the inputs in order |
| Engine.EngineInterop.NextMessage | afx-cefhud-interop/AfxInterop.cpp:916-921 | one turn of the loop: the message handled is the int32 at the front of the input, and the handler leaves the input past it |
| Engine.EngineInterop.Connection | afx-cefhud-interop/AfxInterop.cpp:610-640 | the pipe is opened when absent; a waiting pipe reports success; a connected one runs the handshake once and then the loop; an error closes the pipe and reports failure, a pipe still waiting is kept, still connecting, and reports success; `Connected` holds exactly when the pipe is connected and past the handshake |
| Engine.EngineInterop.Exchange | afx-cefhud-interop/AfxInterop.cpp:620-628 | on success after a new connection, the client's first reply was `true`, accepting the version; every successful exchange consumes input |
| Interop.WrapInt32 | afx-cefhud-interop/AfxInterop.cpp:1851 | the frame difference is the 32-bit wrap of the true difference |
| Interop.InStepIff | afx-cefhud-interop/AfxInterop.cpp:1842-1892 | the texture is offered exactly when there is data and the client's frame count equals the server's |
| Interop.JudgeOrdersFrames | afx-cefhud-interop/AfxInterop.cpp:1851-1872 | for frame counts less than 2^31 apart, the client is ahead (Retry) exactly when its count is larger and behind (Skip) exactly when smaller |
| Interop.JudgeWrapsFarApart | afx-cefhud-interop/AfxInterop.cpp:1851-1853 | for counts further apart the wrapped difference can reverse the verdict |
| Interop.ExchangeWithoutData | afx-cefhud-interop/AfxInterop.cpp:1842-1848 | without data the reply is Skip and the exchange ends successfully |
| Interop.ExchangeRejectsUnknownMessage | afx-cefhud-interop/AfxInterop.cpp:1824-1836 | a message other than the seven drawing messages fails the exchange with nothing written |
| Interop.ExchangeCatchesUp | afx-cefhud-interop/AfxInterop.cpp:1819-1892 | a client lagging behind gets Skip for each lagging frame, then Continue with handle, width, height and format 21 once in step |
| Interop.ServeDrawing | afx-cefhud-interop/AfxInterop.cpp:1818-1893 | on success the bytes read and written are exactly those of the frame-sync exchange |
| Interop.SendReply | afx-cefhud-interop/AfxInterop.cpp:1842-1848 | on success the reply code was written |
| Interop.SendTexture | afx-cefhud-interop/AfxInterop.cpp:1873-1891 | on success Continue, handle, width, height and format were written and the client's finished flag read |
| Interop.DrawingInterop.constructor | afx-cefhud-interop/AfxInterop.cpp:1812-1816 | a new drawing interop has no pipe and no data, frame count -1 |
| Interop.DrawingInterop.Close | afx-cefhud-interop/AfxInterop.cpp:646-651 | the pipe is gone |
| Interop.DrawingInterop.Connection | afx-cefhud-interop/AfxInterop.cpp:610-640 | the shared connection state machine, with the drawing exchange as the loop: a pipe still waiting is kept, still connecting, and reports success; an error closes the pipe and reports failure; a connected pipe stays open exactly when the exchange succeeds |
| Interop.DrawingInterop.ConnectionWithData | afx-cefhud-interop/AfxInterop.cpp:1775-1782 | the texture data is stored, width and height as unsigned 32-bit values, then the connection runs with the same outcomes as `Connection` |
| SchemeHandler.MimeTypeOfKnownExtension | afx-cefhud-interop/scheme_handler_impl.cpp:114-120 | the MIME type is the one the table maps the text from the last `.` to |
| SchemeHandler.MimeTypeDefault | afx-cefhud-interop/scheme_handler_impl.cpp:114-123 | with no `.`, or a suffix not in the table, the type is `application/octet-stream` |
| SchemeHandler.MimeTypeInTable | afx-cefhud-interop/scheme_handler_impl.cpp:33-123 | every answer is a type of the table or the default |
| SchemeHandler.EndsWithIff | afx-cefhud-interop/scheme_handler_impl.cpp:127-131 | true exactly when the ending is no longer than the value and equals its last characters; every value ends with the empty string |
| SchemeHandler.RequestPath | afx-cefhud-interop/scheme_handler_impl.cpp:148-164 | a path exists exactly when the URL starts with `afx://file/`; it follows the prefix and contains neither `?` nor `#` |
| SchemeHandler.RequestPathRoundTrip | afx-cefhud-interop/scheme_handler_impl.cpp:148-164 | the path of prefix + path + a query or fragment is that path |
| SchemeHandler.ReadSize | afx-cefhud-interop/scheme_handler_impl.cpp:209-213 | a read transfers at most `min(bytes_to_read, file_size - offset)` and nothing past the end |
| SchemeHandler.DeliveredInOrder | afx-cefhud-interop/scheme_handler_impl.cpp:200-220 | successive reads deliver the file's bytes consecutively from the offset, up to the end |
| SchemeHandler.FileHandler.constructor | afx-cefhud-interop/scheme_handler_impl.cpp:136 | a new handler has no file and offset 0 |
| SchemeHandler.FileHandler.ProcessRequest | afx-cefhud-interop/scheme_handler_impl.cpp:142-182 | handled exactly when the URL has the prefix and its path names an existing file; then that file is open with its MIME type and size; a prefixed request for a missing file closes the old file |
| SchemeHandler.FileHandler.ReadResponse | afx-cefhud-interop/scheme_handler_impl.cpp:200-220 | returns data exactly when offset < size, delivers the next bytes of the file, and advances the offset by what it delivered, never past the size |
| SimpleApp.StartPageFor | afx-cefhud-interop/simple_app.cc:149-199 | an empty URL gives the inline page; any other URL is rewritten |
| SimpleApp.RewriteKeepsPath | afx-cefhud-interop/simple_app.cc:187-198 | the text before the first `?` (and before any `#`) starts the result, followed by `?` |
| SimpleApp.RewriteWithoutFragment | afx-cefhud-interop/simple_app.cc:178-198 | without `#` the result ends with the parameter `afx=` plus the encoded value |
| SimpleApp.RewriteKeepsFragment | afx-cefhud-interop/simple_app.cc:178-198 | the fragment from the first `#` on ends the result verbatim |
| SimpleApp.RewritePlainUrl | afx-cefhud-interop/simple_app.cc:178-198 | a URL without query or fragment becomes URL + `?afx=` + value |
| SimpleApp.RewriteKeepsQuery | afx-cefhud-interop/simple_app.cc:187-198 | a non-empty query is kept and followed by `&` and the parameter |
| SimpleApp.QueryOfRewrite | afx-cefhud-interop/simple_app.cc:178-198 | the query of the rewritten URL is the old query, joined, plus the parameter |
| SimpleApp.ExtractAfx | afx-cefhud-interop/simple_app.cc:228-235 | nothing when the query holds no `afx=`; otherwise text without `&` |
| SimpleApp.FindAfterQuery | afx-cefhud-interop/simple_app.cc:195-235 | extraction from a joined query plus the parameter gives the encoded value back |
| SimpleApp.ExtractAfterRewrite | afx-cefhud-interop/simple_app.cc:178-235 | extraction inverts the rewrite: the page reads back the value the first URL was given |
| SimpleApp.ChooseFactoryIff | afx-cefhud-interop/simple_app.cc:245-274 | a factory is chosen exactly when `interopType`, `argStr` and `handlerId` are present and `interopType` names it; at most one is chosen |
| SimpleApp.FirstPageGetsIndex | afx-cefhud-interop/simple_app.cc:158-274 | the dictionary the first page is given selects the index interop |
| Text.Find | afx-cefhud-interop/simple_app.cc:230 | `find`: the first position the pattern occurs at, or nothing when it occurs nowhere |
| Text.LastIndexOf | afx-cefhud-interop/scheme_handler_impl.cpp:115 | `rfind`: the last position of the character, or nothing when absent |
| Text.FirstIndexOf | afx-cefhud-interop/scheme_handler_impl.cpp:154 | `find` of one character: its first position, or nothing when absent |

## Left out

- Win32 pipe plumbing is not modelled: `CreateNamedPipeA`, `ConnectNamedPipe`, events, waits, timeouts and handle closing.
  - The pipe is a class with an inbox, an outbox and scripts of overlapped completions and flush results.
  - `Connect` takes the connect event as a parameter.
- The pipe name getter and setter, `AddRef`/`Release` of the interop objects, and the factories `CreateEngineInterop`/`CreateDrawingInterop` are plain forwarders or allocation and are not modelled.
- The engine's `Add*CalcCallback`/`Remove*CalcCallback` forward to the registries and are modelled only as `Registry.Add`/`Registry.Remove`.
- The destructors are not modelled, except the registry's, which is `Registry.Dispose`.
- `ReadHandle` is not modelled; nothing in the protocol calls it.
- Callback objects are opaque identifiers, and what a callback answers is a parameter.
  - A render-view-begin callback answers the seven booleans.
  - A view-override callback answers an optional override.
  - Reference counting is only a multiset of references held.
  - Callbacks do not call back into the interop, with one exception. The commands callback may schedule commands: the `scheduled` parameter of `Engine.EngineInterop.FrameStart`, and `schedules` of `Serve`, `Exchange` and `Connection`. A callback that sets callbacks, changes game-event settings or adds calc callbacks while it runs is not modelled.
- The `CCommands` object passed to the commands callback is the decoded command list.
- Floats are opaque 4-byte values. No arithmetic is done on them.
- `_WIN64` is taken as false, the x86 target, so `OnNewConnection` always writes `false`.
- Game-event field type codes:
  - The `GameEventFieldType` values are not part of this model's source.
  - The codes are taken as 1 = CString, 2 = Float, 3 = Long, 4 = Short, 5 = Byte, 6 = Bool, 7 = Uint64.
  - Any other code reads no value and adds no key. Its enrichment then applies to the key before it, as in the source.
  - When there is no key before it, the source calls `Keys.back()` on an empty vector (AfxInterop.cpp:1553-1600), which is undefined behaviour. `EnrichKey` fails the decode instead, for an enrichment with any of bits 0 to 4 set; without such a bit the source never touches the vector, and neither does the model.
- The failed allocation check after a CString key cannot happen in the model and is left out.
- `RenderPassType_e` values are a datatype of their own. Their numeric values are not modelled.
- CEF helpers are not modelled:
  - `CefURIEncode`/`CefURIDecode` and `CefWriteJSON`/`CefParseJSON`: the encoded parameter value is an input string, and the decoded dictionary is a map.
  - `CefParseURL`: reduced to `SimpleApp.QueryOf`, the text after the first `?` and before the first `#`.
  - `GetDataURI`: the empty-URL page is the inline HTML itself.
- File I/O is simplified:
  - `fopen`/`fseek`/`ftell`/`fread` read a disk map from paths to contents.
  - `fread` always delivers what it is asked for.
  - `long`, `int` and `size_t` widths are unbounded.
- CEF thread checks, `GetResponseHeaders` and `Cancel` are not modelled.
- The browser windows, `simple_handler.cc`, `cefsimple_win.cc` and the JavaScript helpers are not part of this model.
- Engine.EngineInterop.ReadAllAnswers: states only that one call per registry is made, tagged with that registry's kind, not the answers' values. The per-registry values are stated by `CalcCallbacks.ReadAnswers`. Restating them for six registries in one method was too costly to verify.
- Engine.EngineInterop.HandleMessage, Engine.EngineInterop.FrameMessage and Engine.EngineInterop.ViewMessage: state only the loop's bookkeeping (the step taken and the input consumed). What each message does is stated by the methods they dispatch to.
- SchemeHandler.FileHandler.ReadResponse: the offset is not reset when a new file is opened, as in the source. `bytesToRead` is a natural number, so a negative `bytes_to_read` is not modelled.
- Interop.DrawingInterop.ConnectionWithData: the data stays set once given, as in the source. The texture handle is its 32-bit value.

## Findings

| source | as written | input that shows it | evidently intended | confidence | as-written member | corrected member |
|---|---|---|---|---|---|---|
| afx-cefhud-interop/AfxInterop.cpp:187 | `ReadCompressedInt32` returns the decoded short value as its success flag | the compressed value 0 (byte 0x00): the read reports failure | return true after a short value | high, not executed | Wire.CompressedInt32AsWrittenRejectsZero | Wire.CompressedInt32RoundTrip |
| afx-cefhud-interop/AfxInterop.cpp:303-304 | the short branch of `WriteCompressedInt32` falls off the end without a return value | writing 0: the status returned is indeterminate, which the model takes as not reliably true | return the status of `WriteSByte` | high, not executed | Wire.CompressedInt32WriteStatusAsWrittenMisreports | Wire.CompressedInt32WriteStatus |
| afx-cefhud-interop/AfxInterop.cpp:1492 | a transmitted system time sets `HasTick` | transmit flags (false, false, true): the event claims a tick and no system time | set `HasSystemTime` | high, not executed | GameEventCodec.TimesAsWrittenMisflags | GameEventCodec.DecodeTimes |
| afx-cefhud-interop/AfxInterop.cpp:869 | each transmit setter overwrites the changed flag with its own comparison; lines 873 and 877 do the same | turn the tick on, then set the client time to false: no change is pending, so the tick change is never sent | OR the comparison into the flag | high, not executed | EngineEvents.SetTransmitAsWrittenLosesChange | EngineEvents.SetTransmitKeepsSync |
| afx-cefhud-interop/AfxInterop.cpp:399 | `Add` takes a reference even when the callback is already in the name's set | `Add(n, c)` twice: two references, one registration, and one `Remove` releases only one | take a reference only when the insertion happened | medium, not executed | CalcCallbacks.AddAsWrittenOverCounts | CalcCallbacks.InsertKeepsRefs |
| afx-cefhud-interop/AfxInterop.cpp:746-751 | `SetHudBeginCallback` releases the old callback but takes no reference on the new one | set the hud-begin callback to c: c is held with no reference, and the next setter call releases a reference it never took | `AddRef` the new callback as the other setters do | high, not executed | Engine.HudBeginAsWrittenLosesReference | Engine.SetKeepsBalance |
