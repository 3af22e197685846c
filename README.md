# ToLocalLobby: lobby snapshot merge

This project models `ToLocalLobby` from the lobby/relay sample
(`Assets/Scripts/Lobby/ToLocalLobby.cs`). It converts a lobby record returned
by the lobby service into the game's `LocalLobby` view. The conversion copies
the lobby's scalar fields and decodes three metadata entries. It then builds a
new player table from the snapshot's player list. A player keeps the entry the
game already holds when the *staleness guard* fires: the snapshot's
`UserStatus` parses as an integer past `Connecting` and the player is already
known locally. Every other player gets a fresh entry built from the snapshot.
A second overload converts every lobby of a query response into a new local
lobby.

Layout:

- `Wrappers.dfy`: `Option` (a C# `null` or a missing key) and `Result` (a value or the exception thrown).
- `Int32Parsing.dfy`: `int.Parse` and `int.TryParse` for `NumberStyles.Integer` under the invariant culture. Optional white space surrounds an optional sign and one or more digits. A value outside 32 bits is an overflow; a malformed string is a format error even when it would also overflow. `TryParse` is defined as `Parse` with a rejected string reported as `None` instead of an exception, so the two accept the same strings with the same values.
- `LobbyService.dfy`: the service's `Lobby`, `Player` and `QueryResponse` records. A `Data` dictionary is a `map<string, string>` from key to `Value`, and a null dictionary is `None`.
- `LocalLobby.dfy`: the game's `LobbyData` and `LobbyUser` records. Enum fields hold raw `Int32`s, because a C# cast to an enum is unchecked. `Observed` is the pair handed to `LocalLobby.CopyObserved`.
- `ToLocalLobby.dfy`: the decoding functions, the specification `Merge`, and the three `Convert` overloads as methods proved to compute it. The player loop of `Convert(Lobby, LocalLobby)` is its own method, `BuildUsers`. `Convert` takes `outputToHere.LobbyUsers` as its `priorUsers` argument. It returns what `CopyObserved` receives, or the exception raised before that call.
- `MergeProperties.dfy`: lemmas about `Merge`.
- `Scenarios.dfy`: concrete conversions.

Exceptions are `ConvertError` values, arising in the source's evaluation order:
`State` is decoded before `Color`, a player's `Emote` before its `UserStatus`,
and a player's entry is built before `Dictionary.Add` checks its id.

Three behaviours of the code are worth stating plainly:

- A present but malformed `State`, `Color`, `Emote` or fresh-path `UserStatus` makes `int.Parse` throw; no default is substituted.
- An entry kept by the staleness guard keeps its old `IsHost`; only fresh entries recompute it (`Scenarios.GuardRetainsStaleFields`).
- An unparsable `UserStatus` does not fire the guard, because the guard uses `int.TryParse`; the fresh path's `int.Parse` then throws on the same string.

## Model

| member | source | states |
|---|---|---|
| `Int32Parsing.Parse` | Assets/Scripts/Lobby/ToLocalLobby.cs:23-24 | Definition of `int.Parse`: trim white space, optional sign, one or more digits, else a format error; a value outside 32 bits is an overflow |
| `Int32Parsing.TryParse` | Assets/Scripts/Lobby/ToLocalLobby.cs:31 | Definition of `int.TryParse`: `Parse` with a rejected string giving `None` |
| `LobbyService.Lookup` | Assets/Scripts/Lobby/ToLocalLobby.cs:22 | Definition of `Data?.ContainsKey(key) == true ? Data[key].Value : null`, null `Data` included |
| `ToLocalLobby.DecodeEnum` | Assets/Scripts/Lobby/ToLocalLobby.cs:23-24 | Definition of a metadata enum decode: the default when the key is absent, otherwise `int.Parse` of the entry |
| `ToLocalLobby.ConvertLobbyData` | Assets/Scripts/Lobby/ToLocalLobby.cs:16-25 | Definition of the `LobbyData` initializer: scalar copy, `RelayCode`, then `State` and `Color`, the first failing parse being the exception |
| `ToLocalLobby.IncomingStatus` | Assets/Scripts/Lobby/ToLocalLobby.cs:31 | Definition of the guard's status: present and accepted by `int.TryParse`, else none |
| `ToLocalLobby.KeepsPrior` | Assets/Scripts/Lobby/ToLocalLobby.cs:31-33 | Definition of the staleness guard: status past `Connecting` and the id already in the prior table |
| `ToLocalLobby.FreshUser` | Assets/Scripts/Lobby/ToLocalLobby.cs:42-49 | Definition of the `LobbyUser` initializer: host by id comparison, `DisplayName`, `Emote` then `UserStatus` decoded with their defaults, `ID` |
| `ToLocalLobby.Entry` | Assets/Scripts/Lobby/ToLocalLobby.cs:31-49 | Definition of one player's entry: the prior entry when the guard fires, otherwise the fresh one |
| `ToLocalLobby.UsersOf` | Assets/Scripts/Lobby/ToLocalLobby.cs:27-51 | Specification of the player loop: players taken in order into an empty table, entry built before the duplicate-id check |
| `ToLocalLobby.Merge` | Assets/Scripts/Lobby/ToLocalLobby.cs:14-53 | Specification of one conversion: lobby data first, then the player table, paired as handed to `CopyObserved` |
| `ToLocalLobby.Convert` | Assets/Scripts/Lobby/ToLocalLobby.cs:14-53 | Computes exactly `Merge(lobby, priorUsers)`: the lobby data and player table handed to `CopyObserved`, or the first exception thrown |
| `ToLocalLobby.BuildUsers` | Assets/Scripts/Lobby/ToLocalLobby.cs:27-51 | The `foreach` filling a new dictionary computes exactly the table `UsersOf` specifies for the snapshot's players, or the exception that stops it |
| `ToLocalLobby.ConvertNew` | Assets/Scripts/Lobby/ToLocalLobby.cs:65-70 | Converting into a brand-new local lobby is `Merge` against an empty prior player table |
| `ToLocalLobby.ConvertQuery` | Assets/Scripts/Lobby/ToLocalLobby.cs:58-64 | Succeeds exactly when every result converts. It then returns one local lobby per result, same length, in order, element j being result j converted into a new lobby. Otherwise it throws the exception of the first result that fails, all earlier ones having converted |
| `ToLocalLobby.UsersOfErrPersists` | Assets/Scripts/Lobby/ToLocalLobby.cs:28-51 | An exception thrown for one player ends the whole conversion with that exception |
| `MergeProperties.UsersOfOk` | Assets/Scripts/Lobby/ToLocalLobby.cs:27-51 | The player table is built exactly when the ids are pairwise distinct and every player's entry can be built. Its key set is then exactly the set of listed ids |
| `MergeProperties.UsersOfEntries` | Assets/Scripts/Lobby/ToLocalLobby.cs:27-51 | Every listed player is in the table, under its own id, with the entry the per-player rule builds |
| `MergeProperties.UsersOfErr` | Assets/Scripts/Lobby/ToLocalLobby.cs:28-50 | A failed table points to a first failing player. All earlier players have distinct ids and buildable entries. That player's entry throws (that exception), or else its id repeats an earlier one (`DuplicatePlayerId`) |
| `MergeProperties.MergeOutcome` | Assets/Scripts/Lobby/ToLocalLobby.cs:16-51 | A conversion completes iff `State` and `Color` are absent or parse, ids are distinct and all entries build. A bad `State` throws first, then a bad `Color`, then the first failing player |
| `MergeProperties.EntryOutcome` | Assets/Scripts/Lobby/ToLocalLobby.cs:31-49 | When the guard fires, the entry is the prior one and cannot throw. Otherwise it throws exactly when a present `Emote` or `UserStatus` fails `int.Parse`, and `Emote` is checked first |
| `MergeProperties.MergeKeys` | Assets/Scripts/Lobby/ToLocalLobby.cs:27-51 | The new table's keys are exactly the snapshot's player ids. A player known before but absent from the snapshot is dropped |
| `MergeProperties.MergeKeepsPrior` | Assets/Scripts/Lobby/ToLocalLobby.cs:31-36 | Staleness guard: take a player whose `UserStatus` is present, parses and exceeds `Connecting`, and who is in the prior table. That player's entry is the prior entry unchanged |
| `MergeProperties.MergeFreshEntry` | Assets/Scripts/Lobby/ToLocalLobby.cs:42-50 | When the guard does not fire: `IsHost` is true iff the host id equals the player id, and `ID` is the player id. `DisplayName` is the entry or null, `Emote` the parsed entry or `default`, `UserStatus` the parsed entry or `Connecting` |
| `MergeProperties.MergeStatusesParse` | Assets/Scripts/Lobby/ToLocalLobby.cs:31-47 | In a completed conversion, every player that carries a `UserStatus` entry carries one `int.Parse` accepts |
| `MergeProperties.MergeLobbyData` | Assets/Scripts/Lobby/ToLocalLobby.cs:16-25 | Id, code, privacy, name and capacity are copied. `RelayCode`, `State` and `Color` take the decoded entry when present, otherwise null, `LobbyState.Lobby` and `LobbyColor.None` (also when `Data` is null) |
| `MergeProperties.IdempotentEntry` | Assets/Scripts/Lobby/ToLocalLobby.cs:31-50 | Converted again against the table that the first conversion produced, each player of the same snapshot gets the entry it already has |
| `MergeProperties.MergeIdempotent` | Assets/Scripts/Lobby/ToLocalLobby.cs:14-53 | Converting the same snapshot a second time, against the first result's player table, yields the same result |
| `MergeProperties.MergeFreshLobby` | Assets/Scripts/Lobby/ToLocalLobby.cs:65-70 | Against a new local lobby, every entry is freshly built and carries its own key as id. Exactly the player whose id is the host id is host |
| `MergeProperties.GuardStatusAgrees` | Assets/Scripts/Lobby/ToLocalLobby.cs:31-47 | When the guard fires, the fresh path's `int.Parse` of `UserStatus` would have accepted the entry with the same value the guard's `int.TryParse` compared against `Connecting`, and that value is past `Connecting` |
| `Int32Parsing.ParseInt32ToString` | Assets/Scripts/Lobby/ToLocalLobby.cs:46-47 | The decimal form of any 32-bit `int` (including `int.MinValue`) parses back to that `int` with both `int.Parse` and `int.TryParse` |
| `Int32Parsing.NoDigitIsFormatError` | Assets/Scripts/Lobby/ToLocalLobby.cs:23-24 | A value with no decimal digit makes `int.Parse` throw a format error, and `int.TryParse` rejects it |
| `Scenarios.FirstObservationDefaults` | Assets/Scripts/Lobby/ToLocalLobby.cs:16-51 | Two players without metadata and no prior table: host and non-host entries with `Connecting` status and default emote and name. State and color are unset |
| `Scenarios.GuardRetainsStaleFields` | Assets/Scripts/Lobby/ToLocalLobby.cs:31-36 | A known player reported past `Connecting` keeps its prior display name and prior host flag. A fresh player is still made host by the snapshot |
| `Scenarios.MalformedStateThrows` | Assets/Scripts/Lobby/ToLocalLobby.cs:23 | A non-integer `State` entry makes the conversion throw a format error |
| `Scenarios.DuplicatePlayerThrows` | Assets/Scripts/Lobby/ToLocalLobby.cs:50 | A player id listed twice makes `Dictionary.Add` throw |

## Left out

- `Assets/Scripts/Vivox/VivoxSetup.cs` is not part of this model. It is a thin wrapper over the voice SDK: asynchronous login, token fetching and channel join/leave, whose outcome depends on SDK state.
- `LocalLobby.CopyObserved` and the `LocalLobby` and `LobbyUser` classes are not part of this model. The conversion ends in the value handed to `CopyObserved`, and how that value is applied to `outputToHere` is not modelled. A brand-new `LocalLobby` is taken to hold an empty player table.
- Object identity: the source keeps the same `LobbyUser` object when the guard fires. The model keeps an equal value, so aliasing with the prior table is not captured.
- Nulls other than a null `Data` dictionary are not modelled: a null `response.Results` or a null lobby in it (`foreach` and the field reads in `Convert(QueryResponse)` and `Convert(Lobby, LocalLobby)` throw), a null player list, host id or player id (`foreach`, `Equals`, `Dictionary.Add` throw), a null `DataObject` entry (its `.Value` throws) or a null `Value` (`int.Parse(null)` throws). The scalar strings `Id`, `LobbyCode` and `Name` are copied as they are in the source, null included; the model's `string` cannot be null.
- The numeric values of `UserStatus`, `LobbyState`, `LobbyColor` and `EmoteType` come from enum declarations that are not part of this model. The values used are `Connecting` = 1, `LobbyState.Lobby` = 1, `LobbyColor.None` = 0 and `default(EmoteType)` = 0. Every lemma is stated through the named constants, not their values; the one scenario whose outcome depends on the ordering, `Scenarios.GuardRetainsStaleFields`, reports the status `Connecting + 1` rather than a literal.
- `Int32Parsing.Parse`: culture-specific sign symbols and the trailing NUL characters .NET also accepts are not modelled. The invariant culture is assumed.
- The enumeration order of the produced dictionary is not modelled. The player table is a `map`, and only its keys and entries matter.
