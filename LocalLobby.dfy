/**
 * The game's own view of a lobby: the `LocalLobby.LobbyData` record and the
 * `LobbyUser` entries of its player table, as the conversion fills them in.
 */
module LocalLobby {
  import opened Wrappers
  import opened Int32Parsing

  /**
   * Enum fields hold the raw `int` they were cast from: a C# cast to an enum
   * type is unchecked, so any parsed `int` is stored as it is.
   */
  type UserStatus = Int32
  type EmoteType = Int32
  type LobbyState = Int32
  type LobbyColor = Int32

  /** `UserStatus.Connecting`, the first stage of a player's relay connection. */
  const Connecting: UserStatus := 1
  /** `LobbyState.Lobby`, a lobby waiting for players. */
  const StateLobby: LobbyState := 1
  /** `LobbyColor.None`. */
  const ColorNone: LobbyColor := 0
  /** `default(EmoteType)`, which is the enum's zero value. */
  const EmoteDefault: EmoteType := 0

  /** `LocalLobby.LobbyData`; a null `RelayCode` is `None`. */
  datatype LobbyData = LobbyData(
    lobbyId: string,
    lobbyCode: string,
    isPrivate: bool,
    lobbyName: string,
    maxPlayerCount: Int32,
    relayCode: Option<string>,
    state: LobbyState,
    color: LobbyColor)

  /** `LobbyUser`; a null `DisplayName` is `None`. */
  datatype LobbyUser = LobbyUser(
    isHost: bool,
    displayName: Option<string>,
    emote: EmoteType,
    userStatus: UserStatus,
    id: string)

  /** What the conversion hands to `LocalLobby.CopyObserved`: the lobby data and the new player table. */
  datatype Observed = Observed(info: LobbyData, users: map<string, LobbyUser>)
}
