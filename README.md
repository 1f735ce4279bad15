# Nexport core, modelled in Dafny

Nexport is a messaging layer for multiplayer applications. A process acts as a
server or a client over one of several transports, and all of them speak one
wire protocol. This project models five sequential parts of it:

- **`Msg`** (`msg.dfy`, from `Nexport/Msg.cs`). This is the message-type registry.
  - `msgCheck` is the rule every `[Msg]` type must satisfy. A member may carry at most one `MsgKey`. Key 1 belongs to `MessageId` and to nothing else. A keyed `MessageId` must exist.
  - `loopMessages` and `RefreshMessageTypes` rebuild the name → type dictionary. The first registration of a name wins.
  - `Serialize` and `Deserialize` both read the same `UseCompression` flag.
  - `GetMeta` identifies an inbound buffer. It takes the string at element 1 of the decoded MessagePack array and looks that name up in the registry.
  - Reflection is replaced by a record per type (`MsgType`). The MessagePack codec is a record of functions (`Codec`). A `None` from the codec stands for an exception.
- **`SteamIdentifiers`** (`steam_identifier.dfy`, from `Nexport.SteamSockets/SDRClientIdentifier.cs`).
  - Five reliability classes map onto the relay's two send types. `Unknown` throws.
  - The identifier of a relay peer is the decimal rendering of the connection's 32-bit id. `ToSteamId` parses it back.
- **`Instantiator`** (`instantiator.dfy`, from `Nexport/Instantiator.cs`).
  - Picks a transport by a case-insensitive substring test. "kcp" is tested first, then "telepathy".
  - Builds the server or client of that transport. Any other value throws.
- **`BuiltinMessages`** (`builtin_messages.dfy`, from `Nexport/BuiltinMessages/ServerClientChange.cs`). This is the roster snapshot record. Its array is a sequence value, so a later change to the list it was copied from cannot reach it.
- **`SteamServer`** (`steam_server.dfy`, from `Nexport.SteamSockets/SDRServer.cs`). The relay server is a class.
  - Its state is the roster map, the open flag, whether the client manager and relay socket exist, and the optional SteamId filter.
  - An append-only log records every effect: sends, closes, accepts, calls into the client manager, and raised events.
  - The client manager's answers are parameters of the methods that use them: waiting, present, and the connection or identifier it links.
  - The manager's events are methods it calls: `ClientConnected`, `ClientRemoved` and `OnVerificationResult`.
  - Dictionary enumeration order is unspecified. So each method that walks the roster returns the order it used, and the contracts say that order lists every reached member exactly once.

`wrappers.dfy` holds `Option`, `Result` and `Outcome`. `transport.dfy` holds the types the modelled files share with the transport layer: bytes, `MessageChannel` and `ClientIdentifier`.

Three facts about the code shape the model:

- **Identification.** `GetMeta` identifies a buffer by the string at element 1 of the decoded array (`Nexport/Msg.cs:117-129`).
- **Compression.** It follows one process-wide flag, `UseCompression` (`Nexport/Msg.cs:9`, read at lines 91, 99, 109 and 120). The server encodes each roster snapshot through `Msg.Serialize` under the flag as it stands at that moment.
- **Roster.** It is a dictionary with unspecified enumeration order (`Nexport.SteamSockets/SDRServer.cs:9-10`).

Two facts about the code as written:

- `msgCheck` rejects the built-in `ServerClientChange`, because that type has no `MessageId` member (`BuiltinMessages.ServerClientChangeFailsMsgCheck`). The same holds for `DynamicNetworkObject`.
- A refresh whose scan meets such a type therefore ends with that exception. The model keeps the rule as written.

## Model

| member | source | states |
|---|---|---|
| `Msg.MsgCheck` | Nexport/Msg.cs:12-59 | The outcome of walking the properties, then the fields, is the first member's violation (several keys; key 1 off `MessageId` or on another member), else "no MessageId" unless a keyed `MessageId` was seen, else pass. |
| `Msg.CheckAcceptsExactlyWellKeyed` | Nexport/Msg.cs:18-58 | A type passes iff every member has at most one key, a single key is 1 exactly on `MessageId`, and some `MessageId` carries a key. |
| `Msg.UnkeyedMemberIgnored` | Nexport/Msg.cs:17-18 | Inserting a member without `MsgKey` anywhere in the member list never changes the verdict. |
| `Msg.MessageRegistry.constructor` | Nexport/Msg.cs:9-10 | `UseCompression` starts true and the registry starts empty. |
| `Msg.MessageRegistry.LoopMessages` | Nexport/Msg.cs:61-75 | The new registry and outcome are those of `Scan` from the old registry over the assembly's types. A null assembly changes nothing. |
| `Msg.ScanCompletesIffAllPass` | Nexport/Msg.cs:65-74 | A scan ends without an exception iff every `[Msg]` type with a full name passes `msgCheck`. |
| `Msg.ScanKeepsExisting` | Nexport/Msg.cs:71-72 | Every entry present before a scan is still present, with the same type, even if the scan throws part-way. |
| `Msg.ScanRegistersFirstOfEachName` | Nexport/Msg.cs:66-74 | A completed scan leaves the old entries plus, for each new name, the first checked type of that name. |
| `Msg.FirstRegistrationsExact` | Nexport/Msg.cs:68-72 | Each registered name is bound to a `[Msg]` type of the assembly with that full name. Every such type's name is bound. |
| `Msg.MessageRegistry.RefreshMessageTypes` | Nexport/Msg.cs:77-82 | The registry is cleared and rebuilt from the executing assembly, then the entry assembly. The entry assembly is skipped if a check threw. |
| `Msg.RefreshPrefersExecuting` | Nexport/Msg.cs:79-81 | After a completed refresh, the registry is the entry assembly's first registrations overridden by the executing assembly's. On a name clash the executing assembly's type is kept. |
| `Msg.FirstRegistrationWins` | Nexport/Msg.cs:68-72 | A checked type whose name no earlier checked type of the list carries is the type its name is bound to. |
| `Msg.Serialize` | Nexport/Msg.cs:89-95 | The codec runs with the Lz4BlockArray option exactly when `UseCompression` is on, and the buffer decodes back to the value at every type the codec round-trips it for, under the same flag. |
| `Msg.Deserialize` | Nexport/Msg.cs:97-115 | It decodes under the option `UseCompression` selects. It succeeds exactly when the codec yields a value, and with that value. A codec failure is an exception. |
| `Msg.SerializeRoundTrip` | Nexport/Msg.cs:89-115 | Under one `UseCompression` value, deserialising what `Serialize` produced yields the value, given the codec's round-trip property at that type. |
| `Msg.GetMeta` | Nexport/Msg.cs:117-129 | The result is null iff element 1 decodes to an unregistered name. Otherwise it is a meta with the unchanged buffer, that name, its registered type, and the value decoded at that type. A failing decode is an exception. |
| `Msg.GetMetaIdentifiesSerialized` | Nexport/Msg.cs:117-128 | A serialised value whose element 1 is a registered name is identified as exactly that value, name, type and buffer. |
| `SteamIdentifiers.GetSendType` | Nexport.SteamSockets/SDRClientIdentifier.cs:17-31 | `Unknown`, and only `Unknown`, throws. Otherwise the send type is `Reliable` iff the channel guarantees delivery (`Reliable`, `ReliableUnordered`, `ReliableSequenced`), else `Unreliable`. |
| `SteamIdentifiers.NewSdrClientIdentifier` | Nexport.SteamSockets/SDRClientIdentifier.cs:8 | The identifier string is a canonical decimal: only digits, at least one, and no leading zero. |
| `SteamIdentifiers.ToSteamId` | Nexport.SteamSockets/SDRClientIdentifier.cs:9 | Parsing succeeds exactly for a non-empty string of digits whose value fits in a `uint`, with that value. A string that is not a non-empty run of digits is a format error. A value above `uint.MaxValue` is an overflow error. |
| `SteamIdentifiers.ToSteamIdInvertsConstructor` | Nexport.SteamSockets/SDRClientIdentifier.cs:8-9 | `ToSteamId` of the identifier built from `id` is `id`. |
| `SteamIdentifiers.ConstructorInvertsToSteamId` | Nexport.SteamSockets/SDRClientIdentifier.cs:8-9 | An identifier with a canonical decimal string that parses is the one the constructor builds from the parsed id. |
| `SteamIdentifiers.IdentifierInjective` | Nexport.SteamSockets/SDRClientIdentifier.cs:8 | Distinct connection ids give distinct identifiers. |
| `Instantiator.InstantiateServer` | Nexport/Instantiator.cs:10-19 | Succeeds iff the type is KCP or Telepathy, with a server of that transport and the given settings. Any other value throws "Unknown Server". |
| `Instantiator.InstantiateClient` | Nexport/Instantiator.cs:22-31 | Succeeds iff the type is KCP or Telepathy, with a client of that transport and the given settings. Any other value throws the same "Unknown Server". |
| `Instantiator.ContainsIffOccurs` | Nexport/Instantiator.cs:36-39 | The substring test holds iff the word occurs at some position of the string. |
| `Instantiator.GetTransportTypeFromString` | Nexport/Instantiator.cs:34-41 | The result is KCP iff the lower-cased string contains "kcp", so KCP wins when both words occur. It is Telepathy iff "telepathy" occurs and "kcp" does not. Otherwise it throws "Unknown TransportType " followed by the input. |
| `Instantiator.LiteNetLibRejected` | Nexport/Instantiator.cs:40 | "litenetlib", a name the test program offers, throws. |
| `BuiltinMessages.NewServerClientChange` | Nexport/BuiltinMessages/ServerClientChange.cs:6-9 | The default constructor leaves both `ConnectedClients` and `LocalClientIdentifier` null. |
| `BuiltinMessages.FromClients` | Nexport/BuiltinMessages/ServerClientChange.cs:10 | The list constructor yields `ConnectedClients` with the list's length and elements in order, and a null `LocalClientIdentifier`. |
| `BuiltinMessages.WithLocalClient` | Nexport.SteamSockets/SDRServer.cs:63 | Setting `LocalClientIdentifier` leaves the roster in the record unchanged. |
| `BuiltinMessages.ServerClientChangeFailsMsgCheck` | Nexport/BuiltinMessages/ServerClientChange.cs:3-7 | The rule as written rejects this built-in type with "Your Msg must contain a MessageId…". |
| `SteamServer.SdrServer.constructor` | Nexport.SteamSockets/SDRServer.cs:9-21 | The server starts with an empty roster, no client manager or socket, closed, with no SteamId filter and an empty log. |
| `SteamServer.SdrServer.ConnectedClients` | Nexport.SteamSockets/SDRServer.cs:23 | The returned list holds every roster key exactly once, and nothing else. |
| `SteamServer.SdrServer.BroadcastMessage` | Nexport.SteamSockets/SDRServer.cs:25-33 | For a valid channel, exactly one send goes to the connection of each roster member except the excluded one, with the mapped send type, and to nobody else. For `Unknown`, nothing is sent, and the call throws iff some member is not excluded. |
| `SteamServer.BroadcastSendCount` | Nexport.SteamSockets/SDRServer.cs:25-33 | A broadcast sends as many messages as the roster has members, less one when the excluded identifier is a member. |
| `SteamServer.SdrServer.Close` | Nexport.SteamSockets/SDRServer.cs:35-41 | The closing message, if any, is broadcast to every member, then the relay socket is closed if it exists, and the server is no longer open. |
| `SteamServer.SdrServer.KickClient` | Nexport.SteamSockets/SDRServer.cs:43-52 | With no linked connection nothing happens. Otherwise the kick message, if any, is sent reliably, then the connection is closed. |
| `SteamServer.SdrServer.RunTask` | Nexport.SteamSockets/SDRServer.cs:54-81 | The client manager and the relay socket exist and the server is open. The roster is untouched. |
| `SteamServer.SdrServer.ClientConnected` | Nexport.SteamSockets/SDRServer.cs:57-65 | A duplicate identifier throws and changes nothing. Otherwise the roster gains the identifier and `OnConnect` fires once. Every other member then gets one snapshot listing the whole new roster, newcomer included, with no local identifier. If the client manager links the newcomer to a connection, the newcomer gets the same snapshot naming itself. Snapshots are encoded by `Msg.Serialize` under the registry's current `UseCompression`. |
| `SteamServer.SdrServer.ClientRemoved` | Nexport.SteamSockets/SDRServer.cs:66-77 | The connection is closed iff `!wasManualDisconnect`. The identifier leaves the roster iff `!wasWaited`. `OnDisconnect` fires once, followed by one snapshot of the remaining roster to every member, encoded by `Msg.Serialize` under the registry's current `UseCompression`. |
| `SteamServer.SdrServer.SendMessage` | Nexport.SteamSockets/SDRServer.cs:83-90 | With no linked connection nothing happens. Otherwise one send goes out with the mapped send type, or the call throws for `Unknown` and sends nothing. |
| `SteamServer.SdrServer.OnConnected` | Nexport.SteamSockets/SDRServer.cs:92-100 | The connection is handed to the client manager under the identifier built from its id. |
| `SteamServer.SdrServer.OnVerificationResult` | Nexport.SteamSockets/SDRServer.cs:95-99 | A negative verdict closes the connection. A positive one does nothing. |
| `SteamServer.SdrServer.OnConnecting` | Nexport.SteamSockets/SDRServer.cs:102-119 | The connection is accepted iff no filter is set or the filter allows the peer's SteamId. Otherwise it is closed. |
| `SteamServer.SdrServer.OnDisconnected` | Nexport.SteamSockets/SDRServer.cs:121-124 | The drop is reported to the client manager if one exists. |
| `SteamServer.SdrServer.OnMessage` | Nexport.SteamSockets/SDRServer.cs:126-165 | A buffer that fails to decode or names no registered type does nothing, and so does any message before `RunTask`. A waiting connection's message goes to verification, and a throwing verifier closes the connection. A present client's message is raised with channel `Unknown`. Any other connection is closed. |

## Left out

- MessagePack and LZ4 are not modelled. The codec is three abstract functions: serialise, deserialise at a type, and read element 1 as a string. Its round trip appears only as a `requires`.
- Reflection is not modelled. A type is the record of its full name, its `[Msg]` attribute, and its properties and fields with their `MsgKey` identifiers.
- `Msg.MessageRegistry.constructor`: the static constructor's own call of `RefreshMessageTypes` is left to the caller. The model does not capture the `TypeInitializationException` that a throwing refresh would raise there.
- `Msg.Deserialize` stands for both overloads. The generic one is the `Type` overload at `typeof(T)`.
- `Msg.GetMeta`: the distinct exceptions the dynamic decode can raise are not told apart (corrupt data, no element 1, a non-string, a null name). All of them are one failure.
- `Nexport/Compression.cs` and `Nexport/MsgCompress.cs` are not part of this model. The compression level attribute is not read by `Msg.cs`.
- `Nexport/BuiltinMessages/DynamicNetworkObject.cs` is not part of this model. It rehydrates objects through reflection.
- Steamworks is not modelled: creating and closing the relay socket, `Accept`, `Close`, `SendMessage` and the copy of the native buffer. These calls appear only as logged effects, and a failing send is not modelled.
- `SDRClientIdentifier.InitSteamSpacewar` is not modelled. It only initialises the Steam client.
- The `ServerClientManager` is not part of this model. Its queries and links are parameters, and its callbacks are methods. Whether it calls them, when, and with which flags is not modelled.
- `SteamServer.SdrServer.ClientConnected` requires the client manager to exist, because only the manager raises this event.
- Event fields are not modelled. `OnConnect`, `OnDisconnect` and `OnMessage` always count as raised, so the exception a null event field would throw is not modelled.
- `SteamServer.SdrServer.RunTask`: the listening port from the settings is not modelled.
- Identifier equality is by the identifier string. The `ClientIdentifier` base class is not part of this model.
- `SteamIdentifiers.ToSteamId`: only digit strings parse, with a format error otherwise and an overflow error above `uint.MaxValue`. `Convert.ToUInt32` also accepts surrounding white space and a sign, but these identifiers never carry them.
- `Instantiator.GetTransportTypeFromString`: `ToLower` is modelled for the ASCII letters only. Culture-specific mappings are not modelled, such as the Kelvin sign lower-casing to "k".
- A `MessageChannel` or `TransportType` value outside the declared enum members is not modelled. The `TransportType` enum is not part of this model; its other members are `OtherTransport(ordinal)`.
- `Nexport.SteamSockets/SDRClient.cs`, `Nexport/Transports/kcp2k/KCPClient.cs`, `Nexport.Tests/Program.cs` and `Nexport.Tests/UpdateMessage.cs` are not modelled. They are transport wrappers, a console bootstrap and random test data.
- Concurrency is not modelled. Transport callbacks are taken as one sequential stream of method calls.
