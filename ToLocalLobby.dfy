/**
 * `ToLocalLobby` (Assets/Scripts/Lobby/ToLocalLobby.cs): converts a lobby
 * record from the lobby service into the game's `LocalLobby` view, merging
 * its player list with the player table the game already holds.
 *
 * The pure decoding steps are functions. `Merge` specifies one whole
 * conversion; the methods `Convert`, `ConvertNew` and `ConvertQuery` are the
 * source's loops, proved to compute it.
 */
module ToLocalLobby {
  import opened Wrappers
  import opened Int32Parsing
  import opened LobbyService
  import opened LocalLobby

  /** The exceptions a conversion can throw. */
  datatype ConvertError =
    /** `int.Parse` of the lobby's `State` or `Color` entry threw. */
    | LobbyValueInvalid(key: string, reason: ParseError)
    /** `int.Parse` of a player's `Emote` or `UserStatus` entry threw. */
    | PlayerValueInvalid(playerId: string, key: string, reason: ParseError)
    /** `Dictionary.Add` threw: the lobby lists this player id twice. */
    | DuplicatePlayerId(id: string)

  /** `data?.ContainsKey(key) == true ? (Enum) int.Parse(data[key].Value) : dflt`. */
  function DecodeEnum(data: Metadata, key: string, dflt: Int32): Result<Int32, ParseError> {
    match Lookup(data, key)
    case None => Ok(dflt)
    case Some(s) => Parse(s)
  }

  /** The `LobbyData` initializer: scalar copy, then `RelayCode`, `State` and `Color` in that order. */
  function ConvertLobbyData(lobby: Lobby): Result<LobbyData, ConvertError> {
    var state := DecodeEnum(lobby.data, "State", StateLobby);
    var color := DecodeEnum(lobby.data, "Color", ColorNone);
    if state.Err? then Err(LobbyValueInvalid("State", state.error))
    else if color.Err? then Err(LobbyValueInvalid("Color", color.error))
    else Ok(LobbyData(lobby.id, lobby.lobbyCode, lobby.isPrivate, lobby.name, lobby.maxPlayers,
                      Lookup(lobby.data, "RelayCode"), state.value, color.value))
  }

  /** The status the guard sees: `UserStatus` is present and `int.TryParse` accepts it. */
  function IncomingStatus(player: Player): Option<Int32> {
    match Lookup(player.data, "UserStatus")
    case None => None
    case Some(s) => TryParse(s)
  }

  /** The staleness guard: the player is past `Connecting` and already known locally. */
  predicate KeepsPrior(player: Player, prior: map<string, LobbyUser>) {
    var status := IncomingStatus(player);
    status.Some? && status.value > Connecting && player.id in prior
  }

  /** The `LobbyUser` initializer: a fresh entry built from the snapshot alone. */
  function FreshUser(lobby: Lobby, player: Player): Result<LobbyUser, ConvertError> {
    var emote := DecodeEnum(player.data, "Emote", EmoteDefault);
    var status := DecodeEnum(player.data, "UserStatus", Connecting);
    if emote.Err? then Err(PlayerValueInvalid(player.id, "Emote", emote.error))
    else if status.Err? then Err(PlayerValueInvalid(player.id, "UserStatus", status.error))
    else Ok(LobbyUser(lobby.hostId == player.id, Lookup(player.data, "DisplayName"),
                      emote.value, status.value, player.id))
  }

  /** The entry one player gets: the prior entry when the guard fires, a fresh one otherwise. */
  function Entry(lobby: Lobby, player: Player, prior: map<string, LobbyUser>): Result<LobbyUser, ConvertError> {
    if KeepsPrior(player, prior) then Ok(prior[player.id]) else FreshUser(lobby, player)
  }

  /** The player table built from `players`, taken in order, starting from an empty dictionary. */
  function UsersOf(lobby: Lobby, players: seq<Player>, prior: map<string, LobbyUser>): Result<map<string, LobbyUser>, ConvertError>
    decreases |players|
  {
    if |players| == 0 then Ok(map[])
    else
      var player := players[|players| - 1];
      match UsersOf(lobby, players[..|players| - 1], prior)
      case Err(e) => Err(e)
      case Ok(users) =>
        match Entry(lobby, player, prior)
        case Err(e) => Err(e)
        case Ok(u) => if player.id in users then Err(DuplicatePlayerId(player.id)) else Ok(users[player.id := u])
  }

  /** One conversion of `lobby` against a local lobby whose player table is `prior`. */
  function Merge(lobby: Lobby, prior: map<string, LobbyUser>): Result<Observed, ConvertError> {
    match ConvertLobbyData(lobby)
    case Err(e) => Err(e)
    case Ok(info) =>
      match UsersOf(lobby, lobby.players, prior)
      case Err(e) => Err(e)
      case Ok(users) => Ok(Observed(info, users))
  }

  /** Once a prefix of the players throws, the whole list throws the same exception. */
  lemma {:induction false} UsersOfErrPersists(lobby: Lobby, players: seq<Player>, k: nat, prior: map<string, LobbyUser>)
    requires k <= |players|
    requires UsersOf(lobby, players[..k], prior).Err?
    ensures UsersOf(lobby, players, prior) == UsersOf(lobby, players[..k], prior)
    decreases |players|
  {
    if k < |players| {
      var init := players[..|players| - 1];
      assert init[..k] == players[..k];
      UsersOfErrPersists(lobby, init, k, prior);
    } else {
      assert players[..k] == players;
    }
  }

  /** Taking one more player: its entry is built, then added unless its id is already taken. */
  lemma UsersOfStep(lobby: Lobby, players: seq<Player>, i: nat, prior: map<string, LobbyUser>, users: map<string, LobbyUser>)
    requires i < |players|
    requires UsersOf(lobby, players[..i], prior) == Ok(users)
    ensures Entry(lobby, players[i], prior).Err? ==>
              UsersOf(lobby, players[..i + 1], prior) == Err(Entry(lobby, players[i], prior).error)
    ensures Entry(lobby, players[i], prior).Ok? && players[i].id in users ==>
              UsersOf(lobby, players[..i + 1], prior) == Err(DuplicatePlayerId(players[i].id))
    ensures Entry(lobby, players[i], prior).Ok? && players[i].id !in users ==>
              UsersOf(lobby, players[..i + 1], prior) == Ok(users[players[i].id := Entry(lobby, players[i], prior).value])
  {
    assert players[..i + 1][..i] == players[..i];
  }

  /**
   * The `foreach` over `lobby.Players` in `Convert(Lobby, LocalLobby)`: fills
   * a new dictionary, keeping `priorUsers[id]` where the guard fires.
   */
  method BuildUsers(lobby: Lobby, priorUsers: map<string, LobbyUser>) returns (r: Result<map<string, LobbyUser>, ConvertError>)
    ensures r == UsersOf(lobby, lobby.players, priorUsers)
  {
    var lobbyUsers: map<string, LobbyUser> := map[];
    var i := 0;
    while i < |lobby.players|
      invariant 0 <= i <= |lobby.players|
      invariant UsersOf(lobby, lobby.players[..i], priorUsers) == Ok(lobbyUsers)
    {
      var player := lobby.players[i];
      UsersOfStep(lobby, lobby.players, i, priorUsers, lobbyUsers);
      var user: LobbyUser;
      var status := IncomingStatus(player);
      if status.Some? && status.value > Connecting && player.id in priorUsers {
        user := priorUsers[player.id];
      } else {
        var incoming := FreshUser(lobby, player);
        if incoming.Err? {
          UsersOfErrPersists(lobby, lobby.players, i + 1, priorUsers);
          return Err(incoming.error);
        }
        user := incoming.value;
      }
      if player.id in lobbyUsers {
        UsersOfErrPersists(lobby, lobby.players, i + 1, priorUsers);
        return Err(DuplicatePlayerId(player.id));
      }
      lobbyUsers := lobbyUsers[player.id := user];
      i := i + 1;
    }
    assert lobby.players[..i] == lobby.players;
    return Ok(lobbyUsers);
  }

  /**
   * `Convert(Lobby lobby, LocalLobby outputToHere)`: `priorUsers` is
   * `outputToHere.LobbyUsers`; the result is what is handed to
   * `outputToHere.CopyObserved`, or the exception that stops the conversion
   * before that call.
   */
  method Convert(lobby: Lobby, priorUsers: map<string, LobbyUser>) returns (r: Result<Observed, ConvertError>)
    ensures r == Merge(lobby, priorUsers)
  {
    var info := ConvertLobbyData(lobby);
    if info.Err? {
      return Err(info.error);
    }
    var lobbyUsers := BuildUsers(lobby, priorUsers);
    if lobbyUsers.Err? {
      return Err(lobbyUsers.error);
    }
    return Ok(Observed(info.value, lobbyUsers.value));
  }

  /** The private `Convert(Lobby lobby)`: a conversion into a brand-new `LocalLobby`, whose player table is empty. */
  method ConvertNew(lobby: Lobby) returns (r: Result<Observed, ConvertError>)
    ensures r == Merge(lobby, map[])
  {
    r := Convert(lobby, map[]);
  }

  /**
   * `Convert(QueryResponse response)`: one new local lobby per result, in
   * order; the first conversion that throws ends the whole call.
   */
  method ConvertQuery(response: QueryResponse) returns (r: Result<seq<Observed>, ConvertError>)
    ensures r.Ok? <==> forall j :: 0 <= j < |response.results| ==> Merge(response.results[j], map[]).Ok?
    ensures r.Ok? ==> |r.value| == |response.results|
    ensures r.Ok? ==> forall j :: 0 <= j < |r.value| ==> Merge(response.results[j], map[]) == Ok(r.value[j])
    ensures r.Err? ==> exists k :: 0 <= k < |response.results| && Merge(response.results[k], map[]) == Err(r.error)
                              && forall j :: 0 <= j < k ==> Merge(response.results[j], map[]).Ok?
  {
    var retLst: seq<Observed> := [];
    var i := 0;
    while i < |response.results|
      invariant 0 <= i <= |response.results|
      invariant |retLst| == i
      invariant forall j :: 0 <= j < i ==> Merge(response.results[j], map[]) == Ok(retLst[j])
    {
      var one := ConvertNew(response.results[i]);
      if one.Err? {
        return Err(one.error);
      }
      retLst := retLst + [one.value];
      i := i + 1;
    }
    return Ok(retLst);
  }
}
