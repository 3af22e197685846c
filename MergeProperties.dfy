/**
 * What one conversion promises about the player table it builds, its lobby
 * data and its exceptions, stated over the specification `Merge`.
 */
module MergeProperties {
  import opened Wrappers
  import opened Int32Parsing
  import opened LobbyService
  import opened LocalLobby
  import opened ToLocalLobby

  /** The ids the snapshot lists. */
  function Ids(players: seq<Player>): set<string> {
    set i | 0 <= i < |players| :: players[i].id
  }

  predicate DistinctIds(players: seq<Player>) {
    forall i, j :: 0 <= i < j < |players| ==> players[i].id != players[j].id
  }

  predicate EntriesOk(lobby: Lobby, players: seq<Player>, prior: map<string, LobbyUser>) {
    forall i :: 0 <= i < |players| ==> Entry(lobby, players[i], prior).Ok?
  }

  /** `int.Parse` would accept the entry under `key`, or there is none. */
  predicate ParsesOrAbsent(data: Metadata, key: string) {
    HasKey(data, key) ==> Parse(data.value[key]).Ok?
  }

  /** Appending a player adds its id to the listed ids. */
  lemma IdsSnoc(players: seq<Player>)
    requires |players| > 0
    ensures Ids(players) == Ids(players[..|players| - 1]) + {players[|players| - 1].id}
  {
  }

  /** Appending a player keeps the ids distinct exactly when its id is new. */
  lemma DistinctSnoc(players: seq<Player>)
    requires |players| > 0
    ensures DistinctIds(players) <==>
              DistinctIds(players[..|players| - 1]) && players[|players| - 1].id !in Ids(players[..|players| - 1])
  {
  }

  /** Appending a player keeps every entry buildable exactly when its own entry is. */
  lemma EntriesSnoc(lobby: Lobby, players: seq<Player>, prior: map<string, LobbyUser>)
    requires |players| > 0
    ensures EntriesOk(lobby, players, prior) <==>
              EntriesOk(lobby, players[..|players| - 1], prior) && Entry(lobby, players[|players| - 1], prior).Ok?
  {
  }

  /**
   * The table is built exactly when the ids are distinct and every entry can
   * be built; it then holds exactly the listed ids.
   */
  lemma {:induction false} UsersOfOk(lobby: Lobby, players: seq<Player>, prior: map<string, LobbyUser>)
    ensures UsersOf(lobby, players, prior).Ok? <==> DistinctIds(players) && EntriesOk(lobby, players, prior)
    ensures UsersOf(lobby, players, prior).Ok? ==> UsersOf(lobby, players, prior).value.Keys == Ids(players)
    decreases |players|
  {
    if |players| > 0 {
      var n := |players| - 1;
      var init, player := players[..n], players[n];
      UsersOfOk(lobby, init, prior);
      IdsSnoc(players);
      DistinctSnoc(players);
      EntriesSnoc(lobby, players, prior);
      var before := UsersOf(lobby, init, prior);
      var entry := Entry(lobby, player, prior);
      if before.Ok? && entry.Ok? && player.id !in before.value {
        assert UsersOf(lobby, players, prior) == Ok(before.value[player.id := entry.value]);
      } else {
        assert UsersOf(lobby, players, prior).Err?;
      }
    }
  }

  /** Each listed player's entry in the table is the one `Entry` builds for it. */
  lemma {:induction false} UsersOfEntries(lobby: Lobby, players: seq<Player>, prior: map<string, LobbyUser>)
    requires UsersOf(lobby, players, prior).Ok?
    ensures forall i :: 0 <= i < |players| ==>
              players[i].id in UsersOf(lobby, players, prior).value
              && Entry(lobby, players[i], prior) == Ok(UsersOf(lobby, players, prior).value[players[i].id])
    decreases |players|
  {
    if |players| > 0 {
      var n := |players| - 1;
      var init, player := players[..n], players[n];
      var before := UsersOf(lobby, init, prior).value;
      var entry := Entry(lobby, player, prior).value;
      var users := before[player.id := entry];
      assert UsersOf(lobby, players, prior) == Ok(users);
      UsersOfEntries(lobby, init, prior);
      forall i | 0 <= i < |players| ensures players[i].id in users && Entry(lobby, players[i], prior) == Ok(users[players[i].id]) {
        if i < n {
          assert init[i] == players[i];
          assert players[i].id in before;
        }
      }
    }
  }

  /**
   * When the table cannot be built, the exception comes from the first
   * player whose entry throws or whose id an earlier player already used.
   */
  ghost predicate FirstFailureAt(lobby: Lobby, players: seq<Player>, prior: map<string, LobbyUser>, k: int, e: ConvertError) {
    && 0 <= k < |players|
    && DistinctIds(players[..k])
    && EntriesOk(lobby, players[..k], prior)
    && (Entry(lobby, players[k], prior).Err? || players[k].id in Ids(players[..k]))
    && e == (if Entry(lobby, players[k], prior).Err? then Entry(lobby, players[k], prior).error
             else DuplicatePlayerId(players[k].id))
  }

  lemma {:induction false} UsersOfErr(lobby: Lobby, players: seq<Player>, prior: map<string, LobbyUser>)
    requires UsersOf(lobby, players, prior).Err?
    ensures exists k :: FirstFailureAt(lobby, players, prior, k, UsersOf(lobby, players, prior).error)
    decreases |players|
  {
    var n := |players| - 1;
    var init := players[..n];
    if UsersOf(lobby, init, prior).Err? {
      UsersOfErr(lobby, init, prior);
      var k :| FirstFailureAt(lobby, init, prior, k, UsersOf(lobby, init, prior).error);
      assert init[..k] == players[..k];
      assert init[k] == players[k];
      assert FirstFailureAt(lobby, players, prior, k, UsersOf(lobby, players, prior).error);
    } else {
      UsersOfOk(lobby, init, prior);
      assert players[..n] == init;
      assert FirstFailureAt(lobby, players, prior, n, UsersOf(lobby, players, prior).error);
    }
  }

  /** Whether a conversion completes, and which exception it throws when it does not. */
  lemma MergeOutcome(lobby: Lobby, prior: map<string, LobbyUser>)
    ensures Merge(lobby, prior).Ok? <==>
              && ParsesOrAbsent(lobby.data, "State") && ParsesOrAbsent(lobby.data, "Color")
              && DistinctIds(lobby.players) && EntriesOk(lobby, lobby.players, prior)
    ensures !ParsesOrAbsent(lobby.data, "State") ==>
              Merge(lobby, prior) == Err(LobbyValueInvalid("State", Parse(lobby.data.value["State"]).error))
    ensures ParsesOrAbsent(lobby.data, "State") && !ParsesOrAbsent(lobby.data, "Color") ==>
              Merge(lobby, prior) == Err(LobbyValueInvalid("Color", Parse(lobby.data.value["Color"]).error))
    ensures ParsesOrAbsent(lobby.data, "State") && ParsesOrAbsent(lobby.data, "Color") && Merge(lobby, prior).Err? ==>
              exists k :: FirstFailureAt(lobby, lobby.players, prior, k, Merge(lobby, prior).error)
  {
    UsersOfOk(lobby, lobby.players, prior);
    if ParsesOrAbsent(lobby.data, "State") && ParsesOrAbsent(lobby.data, "Color") && UsersOf(lobby, lobby.players, prior).Err? {
      UsersOfErr(lobby, lobby.players, prior);
    }
  }

  /**
   * One player's entry: kept from the prior table when the guard fires,
   * otherwise built fresh, and then throwing only for a present `Emote` or
   * `UserStatus` that `int.Parse` rejects (`Emote` is decoded first).
   */
  lemma EntryOutcome(lobby: Lobby, player: Player, prior: map<string, LobbyUser>)
    ensures KeepsPrior(player, prior) ==> Entry(lobby, player, prior) == Ok(prior[player.id])
    ensures !KeepsPrior(player, prior) ==>
              (Entry(lobby, player, prior).Ok? <==> ParsesOrAbsent(player.data, "Emote") && ParsesOrAbsent(player.data, "UserStatus"))
    ensures !KeepsPrior(player, prior) && !ParsesOrAbsent(player.data, "Emote") ==>
              Entry(lobby, player, prior) == Err(PlayerValueInvalid(player.id, "Emote", Parse(player.data.value["Emote"]).error))
    ensures !KeepsPrior(player, prior) && ParsesOrAbsent(player.data, "Emote") && !ParsesOrAbsent(player.data, "UserStatus") ==>
              Entry(lobby, player, prior) == Err(PlayerValueInvalid(player.id, "UserStatus", Parse(player.data.value["UserStatus"]).error))
  {
  }

  /**
   * The guard's `int.TryParse` and the fresh path's `int.Parse` read the same
   * `UserStatus`: when the guard fires, `int.Parse` would have accepted the
   * entry with the very value the guard compared against `Connecting`.
   */
  lemma GuardStatusAgrees(player: Player, prior: map<string, LobbyUser>)
    requires KeepsPrior(player, prior)
    ensures DecodeEnum(player.data, "UserStatus", Connecting) == Ok(IncomingStatus(player).value)
    ensures IncomingStatus(player).value > Connecting
  {
  }

  /**
   * The keys of the new table are exactly the ids the snapshot lists: a
   * player known before but missing from the snapshot is dropped.
   */
  lemma MergeKeys(lobby: Lobby, prior: map<string, LobbyUser>)
    requires Merge(lobby, prior).Ok?
    ensures Merge(lobby, prior).value.users.Keys == Ids(lobby.players)
    ensures forall id :: id in prior && id !in Ids(lobby.players) ==> id !in Merge(lobby, prior).value.users
  {
    UsersOfOk(lobby, lobby.players, prior);
  }

  /**
   * The staleness guard: a player whose `UserStatus` parses past
   * `Connecting` and who is already in the prior table keeps the prior
   * entry unchanged, whatever else the snapshot says about them.
   */
  lemma MergeKeepsPrior(lobby: Lobby, prior: map<string, LobbyUser>, i: int)
    requires Merge(lobby, prior).Ok?
    requires 0 <= i < |lobby.players|
    requires HasKey(lobby.players[i].data, "UserStatus")
    requires Parse(lobby.players[i].data.value["UserStatus"]).Ok?
    requires Parse(lobby.players[i].data.value["UserStatus"]).value > Connecting
    requires lobby.players[i].id in prior
    ensures lobby.players[i].id in Merge(lobby, prior).value.users
    ensures Merge(lobby, prior).value.users[lobby.players[i].id] == prior[lobby.players[i].id]
  {
    UsersOfOk(lobby, lobby.players, prior);
    UsersOfEntries(lobby, lobby.players, prior);
  }

  /**
   * When the guard does not fire, the entry is built from the snapshot alone:
   * the host flag is recomputed from the lobby's host id, missing entries take
   * their defaults, and the id is the player's.
   */
  lemma MergeFreshEntry(lobby: Lobby, prior: map<string, LobbyUser>, i: int)
    requires Merge(lobby, prior).Ok?
    requires 0 <= i < |lobby.players|
    requires !KeepsPrior(lobby.players[i], prior)
    ensures lobby.players[i].id in Merge(lobby, prior).value.users
    ensures ParsesOrAbsent(lobby.players[i].data, "Emote") && ParsesOrAbsent(lobby.players[i].data, "UserStatus")
    ensures var player, u := lobby.players[i], Merge(lobby, prior).value.users[lobby.players[i].id];
      && u.isHost == (lobby.hostId == player.id)
      && u.id == player.id
      && u.displayName == (if HasKey(player.data, "DisplayName") then Some(player.data.value["DisplayName"]) else None)
      && u.emote == (if HasKey(player.data, "Emote") then Parse(player.data.value["Emote"]).value else EmoteDefault)
      && u.userStatus == (if HasKey(player.data, "UserStatus") then Parse(player.data.value["UserStatus"]).value else Connecting)
  {
    UsersOfOk(lobby, lobby.players, prior);
    UsersOfEntries(lobby, lobby.players, prior);
  }

  /**
   * A conversion that completes had a parseable `UserStatus` for every player
   * that carries one: on the fresh path `int.Parse` accepted it, and the guard
   * only fires after `int.TryParse` did.
   */
  lemma MergeStatusesParse(lobby: Lobby, prior: map<string, LobbyUser>, i: int)
    requires Merge(lobby, prior).Ok?
    requires 0 <= i < |lobby.players|
    ensures ParsesOrAbsent(lobby.players[i].data, "UserStatus")
  {
    UsersOfOk(lobby, lobby.players, prior);
    UsersOfEntries(lobby, lobby.players, prior);
  }

  /**
   * The lobby data: the scalar fields are copied, and each metadata entry is
   * decoded when present and takes its default when the metadata is null or
   * lacks the key.
   */
  lemma MergeLobbyData(lobby: Lobby, prior: map<string, LobbyUser>)
    requires Merge(lobby, prior).Ok?
    ensures var info := Merge(lobby, prior).value.info;
      && info.lobbyId == lobby.id
      && info.lobbyCode == lobby.lobbyCode
      && info.isPrivate == lobby.isPrivate
      && info.lobbyName == lobby.name
      && info.maxPlayerCount == lobby.maxPlayers
      && info.relayCode == (if HasKey(lobby.data, "RelayCode") then Some(lobby.data.value["RelayCode"]) else None)
      && info.state == (if HasKey(lobby.data, "State") then Parse(lobby.data.value["State"]).value else StateLobby)
      && info.color == (if HasKey(lobby.data, "Color") then Parse(lobby.data.value["Color"]).value else ColorNone)
  {
  }

  /** Against the table a conversion produced, every player of the same snapshot gets the entry it already has. */
  lemma IdempotentEntry(lobby: Lobby, prior: map<string, LobbyUser>, i: int)
    requires UsersOf(lobby, lobby.players, prior).Ok?
    requires 0 <= i < |lobby.players|
    ensures lobby.players[i].id in UsersOf(lobby, lobby.players, prior).value
    ensures var users := UsersOf(lobby, lobby.players, prior).value;
      Entry(lobby, lobby.players[i], users) == Ok(users[lobby.players[i].id])
  {
    var users := UsersOf(lobby, lobby.players, prior).value;
    var player := lobby.players[i];
    UsersOfEntries(lobby, lobby.players, prior);
    if !KeepsPrior(player, users) {
      assert !KeepsPrior(player, prior);
    }
  }

  /**
   * Converting the same snapshot again, against the table the first
   * conversion produced, gives the same result.
   */
  lemma MergeIdempotent(lobby: Lobby, prior: map<string, LobbyUser>)
    requires Merge(lobby, prior).Ok?
    ensures Merge(lobby, Merge(lobby, prior).value.users) == Merge(lobby, prior)
  {
    var users := UsersOf(lobby, lobby.players, prior).value;
    var ps := lobby.players;
    UsersOfOk(lobby, ps, prior);
    forall i | 0 <= i < |ps| ensures Entry(lobby, ps[i], users) == Ok(users[ps[i].id]) {
      IdempotentEntry(lobby, prior, i);
    }
    UsersOfOk(lobby, ps, users);
    UsersOfEntries(lobby, ps, users);
    var again := UsersOf(lobby, ps, users).value;
    forall id | id in again ensures again[id] == users[id] {
      var i :| 0 <= i < |ps| && ps[i].id == id;
    }
    assert again == users;
  }

  /**
   * Converting into a brand-new local lobby never keeps an entry: every
   * entry is fresh, and exactly the player whose id is the host id is host.
   */
  lemma MergeFreshLobby(lobby: Lobby)
    requires Merge(lobby, map[]).Ok?
    ensures forall id :: id in Merge(lobby, map[]).value.users ==>
              Merge(lobby, map[]).value.users[id].id == id
              && (Merge(lobby, map[]).value.users[id].isHost <==> id == lobby.hostId)
    ensures forall i :: 0 <= i < |lobby.players| ==> lobby.players[i].id in Merge(lobby, map[]).value.users
    ensures forall i :: 0 <= i < |lobby.players| ==>
              Ok(Merge(lobby, map[]).value.users[lobby.players[i].id]) == FreshUser(lobby, lobby.players[i])
  {
    var users := Merge(lobby, map[]).value.users;
    UsersOfOk(lobby, lobby.players, map[]);
    UsersOfEntries(lobby, lobby.players, map[]);
    forall id | id in users ensures users[id].id == id && (users[id].isHost <==> id == lobby.hostId) {
      var i :| 0 <= i < |lobby.players| && lobby.players[i].id == id;
      MergeFreshEntry(lobby, map[], i);
    }
  }
}
