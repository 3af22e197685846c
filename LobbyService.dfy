/**
 * The records the lobby service returns (`Unity.Services.Lobbies.Models`),
 * reduced to the fields the conversion reads. A `Data` dictionary maps a key
 * to an object whose `Value` is a string; it is modelled as the map from key
 * to that string, and a null dictionary as `None`.
 */
module LobbyService {
  import opened Wrappers
  import opened Int32Parsing

  type Metadata = Option<map<string, string>>

  /** `Player`: its id and its per-player metadata. */
  datatype Player = Player(id: string, data: Metadata)

  /** `Lobby`: the scalar fields, the host's player id, the lobby metadata and the ordered player list. */
  datatype Lobby = Lobby(
    id: string,
    lobbyCode: string,
    isPrivate: bool,
    name: string,
    maxPlayers: Int32,
    hostId: string,
    data: Metadata,
    players: seq<Player>)

  /** `QueryResponse`: the lobbies a search returned, in order. */
  datatype QueryResponse = QueryResponse(results: seq<Lobby>)

  /** `data?.ContainsKey(key) == true`. */
  predicate HasKey(data: Metadata, key: string) {
    data.Some? && key in data.value
  }

  /** `data?.ContainsKey(key) == true ? data[key].Value : null`. */
  function Lookup(data: Metadata, key: string): Option<string> {
    if HasKey(data, key) then Some(data.value[key]) else None
  }
}
