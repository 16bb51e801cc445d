# OpenVeh SOME/IP: a verified model

This project models three parts of the repository and proves what they promise.

**The parameter generator** (`tools/someip_idl`). A JSON type table becomes C++ classes that encode and decode
messages. The model has a reference codec directed by the type table (`Codec`), the statements that the generator
emits, run on locals, members, an output vector and a reader position with C++ lookup of variable, member and type
names (`GeneratedCode`), the headers with their include lines (`Headers`), the parser of the type table (`IdlParser`),
the byte streams the generated code runs on (`ByteStreams`), and one generated class written out (`VehicleStatus`).
Main results: the generated project of a type table compiles and computes the reference codec if and only if no types
refer to each other in a circle and all names are hygienic, conditions that can be read off the IDL; the decoder
accepts a byte string if and only if it denotes a value; round trips, prefix-freeness, canonicity, termination on
every input.

**Service discovery** (`services/someip_sd_cpp`). The wire format (`SdWire` for what is on the wire, `SdCodec` for the
code that writes and reads it), the daemon with its timed registry (`SdRegistry`, `SdDaemon`), the client
(`SdClient`), both joined by the real encodings (`SdComposition`), whole runs of either side (`SdRuns`), and daemon
and client by the bytes they receive and send (`SdDatagrams`, `SdVerdicts`). Main results: the registry after any run
is the last-writer-wins reading of the history; discovery returns exactly the live matching services, up to 140 of
them and request ids up to 0xFFFF, and nothing beyond; what daemon and client do about any bytes whatever; every limit
is exact.

**The application generator** (`tools/someip_idl/generate_someip_app.py`). The resolver of application IDL
(`AppIdl`), the keys and message types in the emitted header (`AppHeader`), service objects, client objects and the
backend between them (`AppRuntime`), remote calls and events over the generated codecs (`Rpc`), and the two generators
on the same IDL files (`Projects`). Main results: over every history of attaching and detaching, a proxy call returns
exactly what the bound implementation answered, or the default response, and it is stated when which; over every
history of subscribing, a published event reaches exactly the last subscriber; the conditions on ids and on the
sharing of service objects under which this holds are exact.

Files follow this order: `Bytes`, `Schema`, `Codec`, `Denotation`, `CodecTheorems`, `GeneratedCode`, `GeneratedReader`,
`NameClashes`, `GeneratorTheorems`, `Headers`, `GeneratorHygiene`, `IdlParser`, `IdlTheorems`, `IdlWire`, `ParsedTables`,
`CodecSteps`, `ByteStreams`, `VehicleStatus`, `VehicleStatusTheorems`, `ShippedIdl`, `ShippedProject`; `SdWire`,
`SdWireTheorems`, `SdCodec`, `SdRegistry`, `SdDaemon`, `SdClient`, `SdComposition`, `SdRuns`, `SdDatagrams`, `SdVerdicts`,
`SomeIpFrame`; `AppIdl`, `AppHeader`, `AppRecords`, `AppEmitted`, `ShippedApplication`, `AppRuntime`, `Rpc`, `Projects`.
`dafny verify dfyconfig.toml` checks all of them.

Code that changes things step by step is modelled by classes and loops, each proved equal to a function of its
inputs and old state; what the source promises is proved of those functions. Datagrams, clock readings and user
callbacks are parameters. What goes in and comes out is stated once more without those functions: datagrams by literal
offsets and values (`SdDatagrams`, `SdVerdicts`), IDL records by the names and numbers that stand in them (`IdlWire`,
`AppRecords`, `AppEmitted`), and the vehicle node that the repository ships, record by record (`ShippedIdl`,
`ShippedProject`, `ShippedApplication`). Floats are their bit patterns, strings are byte sequences, a host is four octets or any
other text. Integer widths, casts and wrap-around are written out.

What the proofs show the code does, where one might expect otherwise:

- A field beside an array or string whose name is the generator's length variable (`xLen`, `xStrLen`) captures it, and
  two `bool` fields in one type do not compile: `ParsedTables.LengthFieldBesideArray`, `ParsedTables.TwoBools`. The
  IDL documentation states no such restriction. `elem` needs no reservation: C++ evaluates the range of a `for`
  before it declares the loop variable.
- So does an array of a type named `i`, a field named like the type of an array, and a field named like a generated
  method: `ParsedTables.ElementTypeNamedI`, `ParsedTables.FieldNamedLikeElementType`, `ParsedTables.FieldNamedLikeMethod`.
- The parser accepts types that contain themselves by value, and types with arrays of each other, for which the
  headers do not compile: `ParsedTables.ParserAllowsContainmentCycle`, `ParsedTables.ParserAllowsMutualArrays`.
- The endpoint option is 13 bytes with length 9, one reserved byte more than in the IPv4 Endpoint Option of the AUTOSAR
  Service Discovery Protocol Specification. The model follows the code.
- Request ids are 32 bits wide in the client and 16 on the wire. From the 65536th call on, calls report a
  mismatch although the daemon has applied them: `SdComposition.RegisterVerdict`, `SdRuns.CallsThatCorrelate`.
- A discovery that matches more than 140 services reports none: `SdComposition.DiscoveryAllOrNothing`.
- In a list of more than 256 offers, entry i carries the endpoint of service i mod 256:
  `SdWireTheorems.OfferListRoundTrip`.
- Strict prefixes of an encoded packet are rejected unless the payload reaches 4 GiB, where the length field wraps:
  `SdWireTheorems.StrictPrefixesRejectedIff`.
- Instance ids of an application are truncated to 16 bits, so 1 and 65537 are the same instance:
  `AppHeader.Narrow`, `AppRuntime.OwnHandlersIffDistinct`.
- A service object keeps the instance id of its last attaching. One that is attached at two instances and detached
  from the first leaves the first one's handlers registered and removes the second one's:
  `AppRuntime.SharedObjectDetached`. Exactly such detaching is excluded in `AppRuntime.AlwaysOwnedIffNoStray`.
- An object that was detached still publishes, under its last instance id: `Rpc.PublishExact`.

## Model

| member | source | states |
|---|---|---|
| Codec.CastRoundTrip | tools/someip_idl/generate_someip_params.py:211-258 | casting a value of any integer type to its unsigned counterpart and back gives the value, negative ones included |
| Codec.CastBack | tools/someip_idl/generate_someip_params.py:245-258 | every unsigned word cast to its type is in range and casts back to the word |
| Codec.Dec | tools/someip_idl/generate_someip_params.py:357-421 | decoding stops on every byte string and every closed table, tables with arrays of themselves included; what it accepts has consumed at least one byte and never goes past the end |
| Codec.DecAll | tools/someip_idl/generate_someip_params.py:384-421 | a decoded array holds the announced number of elements, and no more than the bytes it consumed |
| CodecTheorems.DecoderExact | tools/someip_idl/generate_someip_params.py:296-302 | a value is decoded from a position to another exactly when the bytes between denote it: they are as long as its encoding and differ from it at most in the non-zero value of bool bytes |
| CodecTheorems.RoundTrip | tools/someip_idl/generate_someip_params.py:195-302 | a value that encodes is read back from behind any prefix and before any suffix, with the cursor exactly behind its bytes |
| CodecTheorems.PrefixFree | tools/someip_idl/generated/someip_codec_support.hpp:113-128 | of two accepted messages of a type neither is a proper prefix of the other, so every truncation and extension is rejected |
| CodecTheorems.Canonical | tools/someip_idl/generate_someip_params.py:371-374 | an accepted message re-serialises to one of equal length that differs only at bool bytes, and is identical iff each bool byte is 0 or 1 |
| CodecTheorems.SerialisableIff | tools/someip_idl/generate_someip_params.py:309-354 | serialisation of a well-typed value succeeds iff every string and array length at every depth fits its length type |
| CodecTheorems.ElementsBelowBytes | tools/someip_idl/generate_someip_params.py:145-148 | because no type is empty, a value has fewer array elements, over all depths, than its encoding has bytes |
| CodecTheorems.DecodedSizeBound | tools/someip_idl/generate_someip_params.py:384-421 | a decoded value has fewer array elements, over all depths, than bytes were consumed |
| CodecTheorems.EmptyMeansFailure | tools/someip_idl/generate_someip_params.py:195-201 | serialize() returns the empty vector iff serializeTo failed; the empty vector is never accepted; serialize then deserialize returns the value or fails, accordingly |
| GeneratedCode.WriteTypeBodies | tools/someip_idl/generate_someip_params.py:465-476 | the generator's two loops over the fields append, in order, the statements of every field |
| GeneratedReader.StepOne | tools/someip_idl/generate_someip_params.py:357-382 | the statements emitted to read one non-array field do what the reference decoder does, change that member only, and declare the locals that hygiene accounts for |
| GeneratedReader.StepMany | tools/someip_idl/generate_someip_params.py:384-421 | the same for an array field, with its length variable, counting loop, temporaries of the element type, looked up by name, and early returns |
| GeneratorTheorems.TypeRead | tools/someip_idl/generate_someip_params.py:472-476 | the body of the emitted deserializeFromReader of a hygienic type computes the reference decoder from any object and position, if deeper calls do |
| GeneratorTheorems.AllRunsMatch | tools/someip_idl/generate_someip_params.py:472-476 | with hygienic names every emitted deserializeFromReader agrees with the reference decoder on verdict, object and position, and leaves the object alone when there is no input left (bodies; the headers around them are the subject of `Headers`) |
| GeneratorTheorems.AllWritesMatch | tools/someip_idl/generate_someip_params.py:465-470 | with hygienic names every emitted serializeTo appends exactly the reference encoding, or fails exactly when that does not exist, and in both cases only appends |
| NameClashes.Unhygienic | tools/someip_idl/generate_someip_params.py:357-421 | reading a field whose own name or element type name is unhygienic does not compile, or does not assign the member what the bytes say |
| GeneratorHygiene.UnhygienicIsWrong | tools/someip_idl/generate_someip_params.py:357-421 | for every type whose declarations compile and that has a field unhygienic to read there is a concrete input and object on which the emitted reader disagrees with the reference decoder, even if all nested calls are right |
| Headers.HeadersCompileIff | tools/someip_idl/generate_someip_params.py:438-495 | in whatever order includes are listed, the aggregate header defines every struct after those it refers to, and so compiles, iff no types refer to each other in a circle and none contains itself; each header then compiles alone, too |
| Headers.MutualReference | tools/someip_idl/generate_someip_params.py:450-452 | two types that refer to each other, be it in arrays only, are not includable |
| GeneratorHygiene.CodeCorrectIffHygienic | tools/someip_idl/generate_someip_params.py:309-421 | over every closed table without by-value cycles, all emitted readers and writers and the inherited serialize() and deserialize() compute the reference codec iff names are hygienic: fields among each other and against generated locals, methods and base class, element types against all names in scope |
| GeneratorHygiene.GeneratorCorrectIffHygienic | tools/someip_idl/generate_someip_params.py:309-495 | for every closed table, with nothing assumed of cycles: the headers compile together and all their code is correct iff the table is includable and all its names are hygienic |
| IdlParser.ParseFieldExact | tools/someip_idl/generate_someip_params.py:58-95 | a field is accepted iff it is properly named, refers to something known and has a proper length type where one applies; it then means what it refers to (names, lengths and signs on the wire: `IdlWire.FieldOnWire`) |
| IdlParser.ScanItemsLoop | tools/someip_idl/generate_someip_params.py:136-148 | the loop over a section's records collects names and pending definitions, or reports the first fault |
| IdlParser.ScanFilesLoop | tools/someip_idl/generate_someip_params.py:122-148 | the loop over the files checks the namespace and the sections of each, types before messages |
| IdlParser.ParseFieldsLoop | tools/someip_idl/generate_someip_params.py:154-154 | all fields of a definition, or the fault of the first bad one |
| IdlParser.ParseIdlSources | tools/someip_idl/generate_someip_params.py:115-157 | the two passes together: definitions in order, or the first fault, as `IdlWire.AcceptedIffProper` and `IdlWire.RecordOnWire` characterise them |
| IdlTheorems.AcceptedIffAcceptable | tools/someip_idl/generate_someip_params.py:115-157 | sources are accepted iff they share one namespace, all sections are lists, names are identifiers and differ over all files, no type is empty, and fields refer to builtin types or types declared anywhere |
| IdlTheorems.AcceptedMeans | tools/someip_idl/generate_someip_params.py:152-157 | the definitions of accepted sources: one per record, in order, with its category, every field resolved against all names |
| IdlTheorems.ParsedTableIsClosed | tools/someip_idl/generate_someip_params.py:146-157 | what is accepted is a closed table of non-empty types in which every definition is found under its name |
| IdlWire.NamesExact | tools/someip_idl/generate_someip_params.py:53-55 | names are accepted iff they consist of letters, digits and underscores, by their codes, and do not start with a digit |
| IdlWire.FieldAcceptedIff | tools/someip_idl/generate_someip_params.py:58-95 | which field records are accepted, by the literal names of types and length types |
| IdlWire.FieldFaultExact | tools/someip_idl/generate_someip_params.py:58-95 | which error a field record that is not accepted gets: that of the first check to fail |
| IdlWire.ItemFaultExact | tools/someip_idl/generate_someip_params.py:138-147 | the same for a type or message record |
| IdlWire.AcceptedIffProper | tools/someip_idl/generate_someip_params.py:115-157 | sources are accepted iff their records are proper, literally, and then have the namespace of the first file |
| IdlWire.FirstBadItemReported | tools/someip_idl/generate_someip_params.py:136-148 | in sources of one namespace the first faulty record, over all files, types before messages, decides the error |
| IdlWire.FirstBadFieldReported | tools/someip_idl/generate_someip_params.py:152-155 | and if there is none, the first field that is not proper |
| IdlWire.ElementOnWire | tools/someip_idl/generate_someip_params.py:309-354 | an element of type u8 to i64, f32, f64 is as many bits as the digits of its name say, signed iff the name starts with i, most significant byte first; a bool is 1 or 0; a string its bytes behind its count |
| IdlWire.FieldOnWire | tools/someip_idl/generate_someip_params.py:58-95 | an accepted field is encoded as its record says: lengthType u8, u16, u32 or none means a count of 1, 2, 4 or 4 bytes, and failure iff it does not fit |
| IdlWire.RecordOnWire | tools/someip_idl/generate_someip_params.py:152-157 | over all accepted sources, an object of a declared type or message is encoded as the fields of its record say, in their order |
| ParsedTables.ParsedGeneratorCorrect | tools/someip_idl/generate_someip_params.py:498-505 | for all accepted sources: the generated project works iff its types are includable and its names hygienic |
| ParsedTables.ParserAllowsContainmentCycle | tools/someip_idl/generate_someip_params.py:92-93 | a type that contains itself by value is accepted |
| ParsedTables.ParserAllowsMutualArrays | tools/someip_idl/generate_someip_params.py:450-452 | two types with arrays of each other are accepted, though no order of headers suits them |
| ParsedTables.LengthFieldBesideArray | tools/someip_idl/generate_someip_params.py:386-389 | an array `x` beside a field `xLen` makes the generated code wrong |
| ParsedTables.TwoBools | tools/someip_idl/generate_someip_params.py:371-374 | two bool fields in one type make the generated code wrong |
| ParsedTables.ElementTypeNamedI | tools/someip_idl/generate_someip_params.py:392-418 | so does an array of a type named like the loop counter, whose name is hidden where the element is declared |
| ParsedTables.FieldNamedLikeElementType | tools/someip_idl/generate_someip_params.py:460-462 | so does a field with the name of a type that the struct refers to |
| ParsedTables.FieldNamedLikeMethod | tools/someip_idl/generate_someip_params.py:195-203 | so does a field named like one of the generated or inherited methods |
| ByteStreams.ByteWriter.WriteIntegralBE | tools/someip_idl/generate_someip_params.py:210-220 | appends the two's complement bytes of the value, most significant first, and changes nothing else in the vector |
| ByteStreams.ByteWriter.WriteBool | tools/someip_idl/generate_someip_params.py:322-323 | appends one byte, 1 or 0 |
| ByteStreams.ByteWriter.WriteString | tools/someip_idl/generate_someip_params.py:313-317 | appends length prefix and bytes, or refuses and leaves the vector alone iff the length does not fit |
| ByteStreams.ByteReader.ReadIntegralBE | tools/someip_idl/generate_someip_params.py:244-258 | reads a word of the type's width and reinterprets it, or consumes nothing when too few bytes remain |
| ByteStreams.ByteReader.ReadBytes | tools/someip_idl/generate_someip_params.py:278-285 | takes exactly n bytes, or nothing when fewer remain |
| ByteStreams.ByteReader.ReadString | tools/someip_idl/generate_someip_params.py:361-366 | length prefix and bytes as the reference decoder reads them |
| ByteStreams.ByteReader.FullyConsumed | tools/someip_idl/generate_someip_params.py:287-287 | tells whether the cursor stands at the end |
| ByteStreams.CopyInto | services/someip_sd_cpp/examples/someip_app_protocol.hpp:48-59 | memcpy by offset: the range holds the source, everything outside is unchanged |
| VehicleStatus.WheelInfo.SerializeTo | tools/someip_idl/generated/WheelInfo.hpp:19-25 | appends the three members in order |
| VehicleStatus.WheelInfo.DeserializeFromReader | tools/someip_idl/generated/WheelInfo.hpp:27-32 | reads the three members in order, or fails |
| VehicleStatus.VehicleStatus.SerializeTo | tools/someip_idl/generated/VehicleStatus.hpp:23-42 | appends the encoding of all members, or fails iff a length does not fit |
| VehicleStatus.VehicleStatus.DeserializeFromReader | tools/someip_idl/generated/VehicleStatus.hpp:44-72 | assigns all members as the input says and leaves the cursor behind them, or fails |
| VehicleStatusTheorems.VehicleTableExists | tools/someip_idl/generated/VehicleStatus.hpp:15-21 | the table with these two types is well-formed, so what follows speaks of something |
| VehicleStatusTheorems.StatusReadIsDec | tools/someip_idl/generated/VehicleStatus.hpp:44-72 | the hand-expanded reader is the reference decoder for its type table, verdict, members and cursor |
| VehicleStatusTheorems.StatusEncodedIsEnc | tools/someip_idl/generated/VehicleStatus.hpp:23-42 | the hand-expanded writer is the reference encoder for its type table |
| VehicleStatusTheorems.StatusRoundTrip | tools/someip_idl/generated/VehicleStatus.hpp:15-73 | what the class writes it reads back, behind any prefix and before any suffix |
| ShippedIdl.MessagesParsed | tools/someip_idl/examples/vehicle_node/message.json:1-58 | the shipped records are accepted and parsed to exactly the seven types and messages with their fields |
| ShippedProject.ShippedWorks | tools/someip_idl/examples/vehicle_node/message.json:1-58 | for that table the generated headers compile, all generated code is correct, and the written-out classes are the ones it describes |
| SdCodec.WriteU16 | services/someip_sd_cpp/src/protocol.cpp:33-36 | appends the two bytes, most significant first |
| SdCodec.WriteU24 | services/someip_sd_cpp/src/protocol.cpp:38-42 | appends the low 24 bits, most significant byte first |
| SdCodec.WriteU32 | services/someip_sd_cpp/src/protocol.cpp:44-49 | appends the four bytes, most significant first |
| SdCodec.ReadU16 | services/someip_sd_cpp/src/protocol.cpp:51-59 | the big-endian word at the position, which moves by two; fails and stays iff fewer bytes remain |
| SdCodec.ReadU32 | services/someip_sd_cpp/src/protocol.cpp:61-71 | the big-endian double word at the position, which moves by four; fails and stays iff fewer bytes remain |
| SdCodec.BuildIpv4EndpointOption | services/someip_sd_cpp/src/protocol.cpp:73-95 | the 13 bytes of the option, loopback for a host that is not a dotted quad |
| SdCodec.BuildServiceEntry | services/someip_sd_cpp/src/protocol.cpp:97-117 | the 16 bytes of an entry, option counts packed in nibbles, TTL clamped to 24 bits |
| SdCodec.ParseEndpointOption | services/someip_sd_cpp/src/protocol.cpp:173-204 | accepts exactly 13-byte UDP endpoint options and returns their address and port |
| SdCodec.TakeEntries | services/someip_sd_cpp/src/protocol.cpp:137-145 | the loop cuts the block into 16-byte entries, or fails iff a rest remains |
| SdCodec.TakeOptions | services/someip_sd_cpp/src/protocol.cpp:155-168 | the loop cuts the block into options of the lengths they state, or fails iff one runs over the end |
| SdCodec.ParseSdBlocks | services/someip_sd_cpp/src/protocol.cpp:119-171 | entries and options of a payload as `SdWireTheorems.ParseBlocksExact` characterises them |
| SdCodec.BuildSdFindPayload | services/someip_sd_cpp/src/protocol.cpp:263-280 | a find payload: any version, instance 0xFFFF when none is given; its bytes are those of `SdDatagrams.FindWritten` |
| SdCodec.BuildSdOfferPayload | services/someip_sd_cpp/src/protocol.cpp:282-305 | an offer payload with one entry and one option, TTL 0 for a stop-offer; its bytes are those of `SdDatagrams.OfferWritten` |
| SdCodec.BuildSdOfferPayloadList | services/someip_sd_cpp/src/protocol.cpp:307-344 | entry i refers to option i through its low 8 bits; both blocks in order; its bytes are those of `SdDatagrams.ListWritten` |
| SdCodec.ParseSdFindPayload | services/someip_sd_cpp/src/protocol.cpp:346-368 | the query in the first entry, if that is a find; 0xFFFF means any instance (offsets: `SdDatagrams.FirstEntryRead`) |
| SdCodec.ParseSdOffers | services/someip_sd_cpp/src/protocol.cpp:370-406 | every offer entry, in order, with the endpoint its option index leads to (offsets: `SdDatagrams.OffersRead`) |
| SdCodec.ParseSdOfferFirst | services/someip_sd_cpp/src/protocol.cpp:408-450 | descriptor and TTL of the first entry, if that is an offer; loopback and port 0 without a readable option (offsets: `SdDatagrams.FirstEntryRead`) |
| SdCodec.EncodePacket | services/someip_sd_cpp/src/protocol.cpp:208-224 | header and payload; the request id keeps its low 16 bits, the return code tells errors |
| SdCodec.DecodePacket | services/someip_sd_cpp/src/protocol.cpp:226-261 | the packet, or the first of the six checks that fails |
| SdWireTheorems.ParseBlocksExact | services/someip_sd_cpp/src/protocol.cpp:119-171 | a payload parses to given blocks iff it is four flag bytes, a length, whole 16-byte entries, a length, and options that state their own lengths; parsing and printing undo each other |
| SdWireTheorems.OfferRoundTrip | services/someip_sd_cpp/src/protocol.cpp:282-305 | an offer is read back up to host and transport normalisation, TTL clamped to 2^24-1, 0 for a stop-offer, and is never taken for a find |
| SdWireTheorems.FindRoundTrip | services/someip_sd_cpp/src/protocol.cpp:263-280 | a query is read back, instance 0xFFFF as the wildcard |
| SdWireTheorems.AcceptedOfferIsFixed | services/someip_sd_cpp/src/protocol.cpp:408-450 | the descriptor and TTL of any accepted offer, foreign ones included, are a fixed point of building and parsing |
| SdWireTheorems.OfferListSize | services/someip_sd_cpp/src/protocol.cpp:307-344 | a list payload for n services is 12 + 29n bytes |
| SdWireTheorems.OfferListRoundTrip | services/someip_sd_cpp/src/protocol.cpp:307-344 | a printed list is accepted iff it has fewer than 2^28 services, and entry i then carries the endpoint of service i mod 256 |
| SdWireTheorems.OfferListFaithfulIff | services/someip_sd_cpp/src/protocol.cpp:370-406 | the list is read back pointwise, up to normalisation, iff every service has the endpoint of the one 8 bits of its index lead to; up to 256 services always |
| SdWireTheorems.PacketRoundTrip | services/someip_sd_cpp/src/protocol.cpp:208-261 | a packet survives with its request id mod 2^16 iff its length fits 32 bits |
| SdWireTheorems.FrameReencoded | services/someip_sd_cpp/src/protocol.cpp:208-261 | re-encoding an accepted frame reproduces every byte except client id and return code |
| SdWireTheorems.FramesPrefixFree | services/someip_sd_cpp/src/protocol.cpp:246-253 | no accepted frame is a proper prefix of another |
| SdWireTheorems.AcceptedPrefix | services/someip_sd_cpp/src/protocol.cpp:246-253 | the only prefix of an encoded packet that can be accepted is the one as long as the 32-bit length says |
| SdWireTheorems.StrictPrefixesRejectedIff | services/someip_sd_cpp/src/protocol.cpp:208-261 | all strict prefixes of an encoded packet are rejected iff its payload is below 4 GiB or its wrapped length is improper |
| SdRegistry.RegistryKeyIsFaithful | services/someip_sd_cpp/src/sd_daemon.cpp:20-22 | two services share a 32-bit key only if they are the same, and every key belongs to one |
| SdRegistry.LastWriterWins | services/someip_sd_cpp/src/sd_daemon.cpp:159-220 | after any history a service is registered with an entry iff some accepted offer stored it and no later offer, stop-offer or cleanup at or after its expiry dropped it |
| SdRegistry.LastOfferDecides | services/someip_sd_cpp/src/sd_daemon.cpp:193-218 | after the last offer for a service it is known until the first cleanup at or after its expiry, and not at all with TTL 0 |
| SdRegistry.KeysAgree | services/someip_sd_cpp/src/sd_daemon.cpp:210-217 | in every reachable registry keys agree with the stored descriptors, which are normalised |
| SdRegistry.BoundedStaleness | services/someip_sd_cpp/src/sd_daemon.cpp:92-102 | with a monotone clock every entry expires after every cleanup made so far |
| SdRegistry.ListingHas | services/someip_sd_cpp/src/sd_daemon.cpp:168-190 | a listing has every matching service once, no other, and no service twice |
| SdDaemon.ListMatches | services/someip_sd_cpp/src/sd_daemon.cpp:168-187 | the two loops yield each matching descriptor once, in whatever order the map is walked |
| SdDaemon.SomeIpSdDaemon.CleanupExpired | services/someip_sd_cpp/src/sd_daemon.cpp:92-102 | erases exactly the entries that have expired, in place |
| SdDaemon.SomeIpSdDaemon.HandlePacket | services/someip_sd_cpp/src/sd_daemon.cpp:159-220 | new registry and answer for every packet: queries list, offers store and echo, stop-offers withdraw and echo, everything else is an error; the request id is echoed (by bytes: `SdDatagrams.DatagramExact`) |
| SdDaemon.SomeIpSdDaemon.ProcessDatagram | services/someip_sd_cpp/src/sd_daemon.cpp:257-293 | a datagram is cut to 4096 bytes, dropped silently if it is not a packet, and answered by the encoded reply otherwise |
| SdDaemon.SomeIpSdDaemon.ServeRound | services/someip_sd_cpp/src/sd_daemon.cpp:238-301 | cleanup, then the UDP socket, then the control socket; the second packet sees what the first one did |
| SdDaemon.SomeIpSdDaemon.ServeLoop | services/someip_sd_cpp/src/sd_daemon.cpp:238-301 | over any number of turns: the registry, and each reply answered from the registry of its moment |
| SdDaemon.RoundsAreOneRun | services/someip_sd_cpp/src/sd_daemon.cpp:238-301 | serving turn after turn is one run over everything that happened |
| SdDaemon.RoundStaleness | services/someip_sd_cpp/src/sd_daemon.cpp:238-301 | no packet handled in a turn finds an entry expired by that turn's cleanup, including entries that the first socket brought and the second one reads |
| SdClient.DedupKeyIsFaithful | services/someip_sd_cpp/src/sd_api.cpp:353-356 | the packed key fits 64 bits and tells (service, instance, port) triples apart |
| SdClient.SomeIpSdApi.AllocateRequestId | services/someip_sd_cpp/src/sd_api.cpp:47-49 | returns the counter and increments it modulo 2^32 |
| SdClient.SomeIpSdApi.DoControlRequest | services/someip_sd_cpp/src/sd_api.cpp:152-180 | sends the encoded request; the response is what decodes from the datagram that came back, if one did |
| SdClient.SomeIpSdApi.RegisterService | services/someip_sd_cpp/src/sd_api.cpp:183-223 | what is sent, and the verdict on any datagram or timeout, checks in order (by bytes: `SdVerdicts.SendsExact`, `SdVerdicts.VerdictExact`) |
| SdClient.SomeIpSdApi.UnregisterService | services/someip_sd_cpp/src/sd_api.cpp:225-267 | the same for a stop-offer of the default descriptor |
| SdClient.SomeIpSdApi.Accumulate | services/someip_sd_cpp/src/sd_api.cpp:352-360 | the inner loop appends the offers with keys not seen before |
| SdClient.SomeIpSdApi.DiscoverServices | services/someip_sd_cpp/src/sd_api.cpp:304-369 | for any arrivals: the find that is sent, the first of each triple among all proper replies, and the last decoding error |
| SdClient.FirstOfEachExact | services/someip_sd_cpp/src/sd_api.cpp:352-360 | the result is the arrival-order subsequence at exactly the positions of first occurrences |
| SdClient.DiscoveredTriples | services/someip_sd_cpp/src/sd_api.cpp:315-366 | no triple is reported twice and none that was offered is missing |
| SdClient.JunkAndDuplicatesIgnored | services/someip_sd_cpp/src/sd_api.cpp:340-366 | a datagram that offers nothing new, anywhere among the arrivals, leaves the list as it is (the error text may be another one) |
| SdClient.DuplicateIsOldNews | services/someip_sd_cpp/src/sd_api.cpp:340-366 | a datagram received before offers nothing new |
| SdComposition.RegisterMeans | services/someip_sd_cpp/src/sd_api.cpp:183-191 | through encoding and buffer, registering reaches the daemon as an offer of the normalised descriptor with the clamped TTL, whatever the request id |
| SdComposition.UnregisterMeans | services/someip_sd_cpp/src/sd_api.cpp:225-235 | unregistering reaches the daemon as a withdrawal |
| SdComposition.FindMeans | services/someip_sd_cpp/src/sd_api.cpp:304-313 | a query leaves the registry alone |
| SdComposition.ZeroTtlUnregisters | services/someip_sd_cpp/src/sd_daemon.cpp:200-208 | registering with TTL 0 does to the registry what unregistering does |
| SdComposition.RegisterVerdict | services/someip_sd_cpp/src/sd_api.cpp:193-222 | the daemon's reply makes registering succeed iff the request id is at most 0xFFFF, and a mismatch otherwise |
| SdComposition.UnregisterVerdict | services/someip_sd_cpp/src/sd_api.cpp:237-266 | the same for unregistering |
| SdComposition.DiscoveryAllOrNothing | services/someip_sd_cpp/src/sd_api.cpp:334-361 | the reply to a query that n services match is 28 + 29n bytes and fits iff n <= 140; the client then has each of them once if its id is at most 0xFFFF, and nothing in every other case |
| SdComposition.ServedIsNormal | services/someip_sd_cpp/src/sd_daemon.cpp:238-301 | the history of every serve loop is one that the run theorems speak of |
| SdComposition.DiscoveryIsHistory | services/someip_sd_cpp/src/sd_daemon.cpp:159-220 | after any history discovery reports a descriptor iff it matches and the history holds it |
| SdComposition.ReportedUntilExpiry | services/someip_sd_cpp/src/sd_daemon.cpp:92-102 | after the last offer for a service, discovery reports it, as offered and under no other endpoint, until the first cleanup at or after its expiry |
| SdComposition.RegisteredIsReported | services/someip_sd_cpp/src/sd_api.cpp:183-223 | a registered service is in the discovery result iff its TTL is positive and no cleanup at or after its expiry came in between, until something else is said of it |
| SdComposition.UnregisteredIsGone | services/someip_sd_cpp/src/sd_api.cpp:225-267 | an unregistered service is in no discovery result, under any endpoint, until it is offered again |
| SdRuns.Session | services/someip_sd_cpp/src/sd_api.cpp:47-49 | over any sequence of calls of any kind on one client: the n-th, counted from 0, sends its request under id (n + 1) mod 2^32 and returns the verdict, or the list and error, that this id gives on what arrives |
| SdRuns.CallsThatCorrelate | services/someip_sd_cpp/src/sd_api.cpp:193-222 | answered by a daemon in any state, the n-th call of a session succeeds, or finds all of up to 140 matching services, iff n mod 2^32 is below 65535 or is 2^32 - 1; otherwise it reports a mismatch or finds nothing |
| SdRuns.RepliedFromHistory | services/someip_sd_cpp/src/sd_daemon.cpp:238-301 | each reply of a fresh daemon, by turn and socket, is given from the registry to which everything before that packet has led |
| SdRuns.LoopReportsRegistered | services/someip_sd_cpp/src/sd_daemon.cpp:238-301 | in every run of the serve loop, a query read after a registration, in whatever turns and on whatever sockets, is answered and gets the service iff the TTL is positive and no cleanup at or after the expiry came between, unless something else was said of the service |
| SdDatagrams.FrameDecodes | services/someip_sd_cpp/src/protocol.cpp:226-261 | bytes are accepted iff they are 0xFFFF8100, a right length, any client id, versions 1 and 1, by offset; session id and type are bytes 10 to 11 and 14; otherwise the error is that of the first check to fail |
| SdDatagrams.FirstEntryRead | services/someip_sd_cpp/src/protocol.cpp:346-450 | a first entry of type 0 is a find, one of type 1 an offer, with service, instance, versions, TTL, address and port at their literal offsets, and of no other type |
| SdDatagrams.OffersRead | services/someip_sd_cpp/src/protocol.cpp:370-406 | all entries of type 1 are read as offers, in order, others skipped |
| SdDatagrams.OfferWritten | services/someip_sd_cpp/src/protocol.cpp:282-305 | the 57 bytes of a single offer, reserved bytes, flags, second index and return code included |
| SdDatagrams.FindWritten | services/someip_sd_cpp/src/protocol.cpp:263-280 | the 44 bytes of a query, version bytes 0xFF and 0xFFFFFFFF included |
| SdDatagrams.ListWritten | services/someip_sd_cpp/src/protocol.cpp:307-344 | the bytes of a reply that lists services, each with TTL 3 and option index i mod 256 |
| SdDatagrams.DatagramExact | services/someip_sd_cpp/src/sd_daemon.cpp:159-293 | for any bytes and any registry: the new registry and the reply are those that the bytes call for, and no other reply is possible |
| SdDatagrams.OthersAreErrors | services/someip_sd_cpp/src/sd_daemon.cpp:160-197 | a frame of another type than 0, or whose first entry is neither a find nor an offer, changes nothing and is answered by 16 bytes with its session id, type 0x81 and return code 9 |
| SdDatagrams.AnswerDatagram | services/someip_sd_cpp/src/sd_daemon.cpp:257-293 | the daemon object does that |
| SdDatagrams.ServeByBytes | services/someip_sd_cpp/src/sd_daemon.cpp:238-301 | a fresh daemon over any turns: each reply is the one its datagram calls for in the registry made by the bytes of all earlier datagrams and by the cleanups |
| SdVerdicts.SendsExact | services/someip_sd_cpp/src/sd_api.cpp:183-313 | the bytes that the n-th call of a session sends, for any descriptor and any int as TTL |
| SdVerdicts.VerdictExact | services/someip_sd_cpp/src/sd_api.cpp:152-222 | what registering and unregistering report on any bytes that arrive, or none, check by check |
| SdVerdicts.ControlSucceedsIff | services/someip_sd_cpp/src/sd_api.cpp:164-222 | a control call succeeds iff a frame comes back with its full 32-bit id, type 0x80 and an offer in its first entry; it reports a timeout iff nothing or an empty datagram does |
| SdVerdicts.DiscoveryExact | services/someip_sd_cpp/src/sd_api.cpp:315-366 | a discovery lists exactly the first offer of each service, instance and port in frames with its id and type 0x80, each once, and reports the fault of the last datagram that is no frame |
| SdVerdicts.SessionByBytes | services/someip_sd_cpp/src/sd_api.cpp:183-369 | any sequence of calls on one client sends and returns all that |
| SomeIpFrame.EncodeSomeIp | services/someip_sd_cpp/examples/someip_app_protocol.hpp:31-62 | fills a buffer of the final size by offset, or refuses a payload above 0xFFFFFFFF - 8 bytes |
| SomeIpFrame.DecodeSomeIp | services/someip_sd_cpp/examples/someip_app_protocol.hpp:64-103 | the message, or the first of the four checks that fails |
| SomeIpFrame.DecodeInvertsEncode | services/someip_sd_cpp/examples/someip_app_protocol.hpp:31-103 | a frame decodes to a message iff the message encodes to that frame |
| SomeIpFrame.SdPacketsAreFrames | services/someip_sd_cpp/src/protocol.cpp:226-261 | the SD decoder accepts exactly the frames with SD identity and interface version 1, and reads them as the frame decoder does |
| SomeIpFrame.FrameByBytes | services/someip_sd_cpp/examples/someip_app_protocol.hpp:31-62 | a message is encoded to exactly these bytes, iff its payload is at most 0xFFFFFFF7 bytes |
| SomeIpFrame.FaultByBytes | services/someip_sd_cpp/examples/someip_app_protocol.hpp:64-90 | bytes are refused iff one of the four checks fails, with the error of the first |
| AppIdl.ResolveMethods | tools/someip_idl/generate_someip_app.py:106-118 | succeeds iff every method has an identifier, a numeric id and known request and response messages, and then has these (in the header: `AppEmitted.HeaderEmitted`) |
| AppIdl.ResolveEvents | tools/someip_idl/generate_someip_app.py:121-130 | succeeds iff every event has an identifier, a numeric id and a known payload message |
| AppIdl.ResolveServices | tools/someip_idl/generate_someip_app.py:180-199 | succeeds iff all services are well-formed over known messages and their names differ, and then lists them in order |
| AppIdl.ResolveServiceInstances | tools/someip_idl/generate_someip_app.py:201-223 | the same for service instances, each of a known service |
| AppIdl.ResolveClient | tools/someip_idl/generate_someip_app.py:228-257 | succeeds iff the client names a known service and only methods and events of that service, which it then gets |
| AppIdl.ResolveClients | tools/someip_idl/generate_someip_app.py:225-259 | the same for clients, whose methods and events are those of their service, the last one of a name |
| AppIdl.ResolveClientInstances | tools/someip_idl/generate_someip_app.py:261-299 | the same for client instances, bound to instances of their client's service |
| AppIdl.MergeFiles | tools/someip_idl/generate_someip_app.py:144-178 | succeeds iff the files agree on one namespace and one application name and all message names are proper, and then joins their sections in order |
| AppIdl.ParseAppIdl | tools/someip_idl/generate_someip_app.py:133-309 | the application, or the first stage that rejects the files, as `AppRecords.FaultExact` and `AppRecords.AcceptedNames` characterise them |
| AppHeader.GenerateHeader | tools/someip_idl/generate_someip_app.py:364-548 | the service classes, proxies, attach points and factories emitted, with their keys and message types |
| AppHeader.AcceptedIsConsistent | tools/someip_idl/generate_someip_app.py:225-299 | in accepted applications all references lead somewhere, clients have only what their service has, and bindings agree on the service |
| AppRecords.AcceptedIffProper | tools/someip_idl/generate_someip_app.py:133-309 | files are accepted iff their records make an application: one namespace, one application name, proper and distinct names, numbers for ids, references to messages, services, methods, events, clients and instances that some record has, and bindings within one service |
| AppRecords.FaultExact | tools/someip_idl/generate_someip_app.py:133-309 | otherwise they are rejected at the first stage whose records are not proper |
| AppRecords.AcceptedNames | tools/someip_idl/generate_someip_app.py:144-178 | namespace, application name and messages are those of the records |
| AppEmitted.HeaderEmitted | tools/someip_idl/generate_someip_app.py:364-548 | for all accepted files, each stub of each class has the name, request, response, payload and ids of its record; each call of a proxy those of the last method of that name in its service; attach points and factories the instance ids of their records |
| AppEmitted.GenerateApplication | tools/someip_idl/generate_someip_app.py:574-583 | the generator gives such a header for every proper application and none for other files |
| AppEmitted.KeyEmitted | tools/someip_idl/generate_someip_app.py:395-408 | the key of a registered method has the service and method ids of the service record and 16 bits of the instance record's id |
| ShippedApplication.ShippedProper | tools/someip_idl/examples/vehicle_node/server.json:1-29 | the four shipped files make an application |
| ShippedApplication.ShippedHeader | tools/someip_idl/generated_app/VehicleNodeApplication.hpp:18-177 | their header has exactly the classes, message types, keys, attach points and factories that the repository has for them |
| AppHeader.LinkingSound | tools/someip_idl/generate_someip_app.py:395-460 | every method key a client instance calls is registered, with the same message types, by the service instance it is bound to; every event key it subscribes to is one that service publishes |
| AppRuntime.MapBackend.RegisterMethodHandler | tools/someip_idl/tests/generated_app/test_generated_app_framework.cpp:68-71 | the handler replaces whatever the key led to |
| AppRuntime.MapBackend.UnregisterMethodHandler | tools/someip_idl/tests/generated_app/test_generated_app_framework.cpp:73-76 | the key leads nowhere afterwards, other keys are untouched |
| AppRuntime.MapBackend.SubscribeEvent | tools/someip_idl/tests/generated_app/test_generated_app_framework.cpp:97-100 | the subscriber replaces whichever the key led to |
| AppRuntime.MapBackend.UnsubscribeEvent | tools/someip_idl/tests/generated_app/test_generated_app_framework.cpp:102-105 | the key leads to no subscriber afterwards, other keys are untouched |
| AppRuntime.ServiceObject.AttachRuntime | tools/someip_idl/generate_someip_app.py:385-389 | the object holds the new instance id from then on |
| AppRuntime.ServiceObject.RegisterWithRuntime | tools/someip_idl/generate_someip_app.py:390-408 | all methods of the class are registered in order, under the id that the object holds; refused before it is first attached |
| AppRuntime.ServiceObject.UnregisterFromRuntime | tools/someip_idl/generate_someip_app.py:409-420 | all methods of the class are unregistered under the id that the object holds |
| AppRuntime.Application.Attach | tools/someip_idl/generate_someip_app.py:510-516 | refuses a null object; otherwise application, backend and all service objects show the state after an attaching: id written into the object, methods registered, object remembered |
| AppRuntime.Application.Detach | tools/someip_idl/generate_someip_app.py:518-523 | they show the state after a detaching: methods unregistered under whatever id the object holds by then, object forgotten; nothing happens when none is attached |
| AppRuntime.ClientObject.Subscribe | tools/someip_idl/generate_someip_app.py:462-476 | a client object made by a factory subscribes under the event key of the instance it was made for |
| AppRuntime.ClientObject.Unsubscribe | tools/someip_idl/generate_someip_app.py:477-483 | and drops whichever subscriber that key leads to |
| AppRuntime.ReachesOwnHandler | tools/someip_idl/generate_someip_app.py:390-420 | with distinct keys, after any history without stray detaching, every key leads to its own method of the object attached there, and nowhere while there is none |
| AppRuntime.AlwaysOwnedIffNoStray | tools/someip_idl/generate_someip_app.py:409-420 | keys lead so at every moment of a history iff no detaching in it meets an object with methods that holds another 16-bit id than the attach point |
| AppRuntime.SharedObjectDetached | tools/someip_idl/generate_someip_app.py:518-523 | one object attached at two instances of its class and detached from the first: the first one's keys still lead to it, the second one's lead nowhere although it is attached there |
| AppRuntime.IdIsLastAttach | tools/someip_idl/generate_someip_app.py:385-389 | an object holds the id of the instance where it was attached last, detached or not |
| AppRuntime.NoSharingNoStray | tools/someip_idl/generate_someip_app.py:510-523 | histories in which no object is attached at instances of different 16-bit ids have no stray detaching |
| AppRuntime.OwnHandlersIffDistinct | tools/someip_idl/generate_someip_app.py:395-406 | with all instances attached, every method is reached under its key iff all keys are distinct |
| AppRuntime.DistinctIdsGiveDistinctKeys | tools/someip_idl/generate_someip_app.py:395-399 | keys are distinct if method ids differ within each service and (service id, 16-bit instance id) pairs differ |
| AppRuntime.ReachesLastSubscriber | tools/someip_idl/generate_someip_app.py:462-483 | with distinct event keys, after any history, an event key leads to the object that subscribed last to that event of that instance, unless someone unsubscribed from it since |
| AppRuntime.OwnSubscribersIffDistinct | tools/someip_idl/generate_someip_app.py:462-483 | that holds of every history and every published event iff events that can be subscribed to share their keys with no others |
| Rpc.TransferExact | tools/someip_idl/generate_someip_params.py:195-203 | a message that one object's serialize() gives and another's deserialize() takes arrives whole iff all lengths fit, and otherwise leaves the receiver as it was |
| Rpc.RpcExact | tools/someip_idl/generate_someip_app.py:447-460 | after any history without stray detaching, a proxy call returns exactly what the implementation attached at the bound instance answers to exactly the request passed, if one is attached and both messages serialise, and the default response in every other case |
| Rpc.BoundInstances | tools/someip_idl/generate_someip_app.py:525-548 | every client instance of a consistent application is bound to the service instance that the IDL names, and each of its calls has its slot there |
| Rpc.AcceptedNamesDistinct | tools/someip_idl/generate_someip_app.py:180-259 | accepted applications have distinct service names and distinct client names |
| Rpc.PublishExact | tools/someip_idl/generate_someip_app.py:371-380 | after any history, what an object publishes reaches the last subscriber to that event of the instance where the object was attached last, as published iff its lengths fit, and is ignored there otherwise; it is refused without a subscriber or if the object was never attached |
| Projects.MessagesAreTypes | tools/someip_idl/generate_someip_app.py:169-174 | every message name that the application resolver takes from the files is a type in the table that the parameter parser takes from them |
| Projects.AcceptedProject | tools/someip_idl/generate_someip_app.py:525-548 | for all files that both parsers accept, the header has a binding of all client instances to which `Rpc.RpcExact` and `Rpc.PublishExact` apply, over messages of the parsed table |

## Left out

- Sockets, poll, multicast options, unix-domain paths and the STOP probe: I/O. Datagrams and clock readings are inputs of the model; a send that fails before anything reaches the network is not modelled.
- Threads: one thread serves, so the mutex never blocks and packets are handled one after the other.
- `inet_pton` and `inet_ntop`: a host is given as four octets or as text that is not a dotted quad.
- Wrap-around of the 64-bit millisecond clock: times are unbounded.
- JSON reading, file collection, include lists, argument parsing, numeric strings of ids: records arrive parsed.
- IdlParser.ParseIdlSources: identifiers are modelled for ASCII letters, digits and underscores; Python also lets other Unicode letters and digits pass. The raw `lengthType` of fields that have no length prefix is dropped, as nothing uses it. JSON values of the wrong type are not modelled beyond lists.
- AppIdl.ParseAppIdl: tells which stage rejects the files, not which of that stage's error texts is raised.
- C++ errors other than those of name lookup in the emitted structs and of the order of their definitions: keywords and macros as names, a namespace that hides something, narrowing of ids above 16 bits in braces. A string field `bytes` compiles, but inserts the vector into itself, which C++ does not define; the model counts it as an error.
- Names in the application header: the generator names members and factories by `_snake(name)`, so instances `fooBar` and `FooBar` of an accepted application declare one member twice. File names that differ in case only.
- Lifetime of service and client objects: closures capture `this`, and objects are taken to live as long as a key leads to them.
- A backend that refuses, an application without a runtime: registering and subscribing always succeed here, and a runtime is there from the start.
- GeneratedCode.RunDeserialize: a fresh nested object holds default values where C++ leaves members indeterminate; a bound on call depth stands for the stack, and the theorems hold whenever it suffices.
- `&in_[pos_]` when an empty string is read at the end of the input, which C++ does not define; the model reads the empty string.
- VehicleStatus.VehicleStatus: the two bodies are split into one method per group of members to keep their proofs small; the order of reads and writes is that of the source. Its vector of wheels holds values, not objects.
- The other generated message headers: instances of the same generator.
- `OfferService`, `StopOfferService` and `DiscoverService` of the application backend: booleans kept beside the handler map.
- AppRuntime.MapBackend: keys are not packed into 64 bits as in the mock backend.
- Demo programs and `application_runtime.hpp`: loops over sockets and one-line forwarding.
