/** Concrete conversions that pin the rules to examples. */
module Scenarios {
  import opened Wrappers
  import opened Int32Parsing
  import opened LobbyService
  import opened LocalLobby
  import opened ToLocalLobby
  import opened MergeProperties

  function TwoPlayerLobby(hostId: string, p2Data: Metadata): Lobby {
    Lobby("lobby-1", "ABCD", false, "Room", 4, hostId, None,
          [Player("p1", None), Player("p2", p2Data)])
  }

  /**
   * A first observation with no metadata: both players take the defaults,
   * the host id picks the host, and the lobby state and color are unset.
   */
  lemma FirstObservationDefaults()
    ensures var r := Merge(TwoPlayerLobby("p1", None), map[]);
      && r.Ok?
      && r.value.users.Keys == {"p1", "p2"}
      && r.value.users["p1"] == LobbyUser(true, None, EmoteDefault, Connecting, "p1")
      && r.value.users["p2"] == LobbyUser(false, None, EmoteDefault, Connecting, "p2")
      && r.value.info.state == StateLobby && r.value.info.color == ColorNone && r.value.info.relayCode == None
  {
    var lobby := TwoPlayerLobby("p1", None);
    MergeOutcome(lobby, map[]);
    assert Ids(lobby.players) == {"p1", "p2"};
    MergeKeys(lobby, map[]);
    MergeFreshEntry(lobby, map[], 0);
    MergeFreshEntry(lobby, map[], 1);
  }

  /**
   * A player already known locally whose snapshot status is past
   * `Connecting` keeps the prior entry, including its display name and its
   * host flag, even though the snapshot names another host. The status
   * the snapshot reports is the one just past `Connecting`.
   */
  lemma GuardRetainsStaleFields()
    ensures var prior := map["p2" := LobbyUser(true, Some("old"), EmoteDefault, Connecting + 1, "p2")];
            var lobby := TwoPlayerLobby("p1", Some(map["UserStatus" := Int32ToString(Connecting + 1), "DisplayName" := "new"]));
      && Merge(lobby, prior).Ok?
      && Merge(lobby, prior).value.users.Keys == {"p1", "p2"}
      && Merge(lobby, prior).value.users["p2"] == prior["p2"]
      && Merge(lobby, prior).value.users["p2"].isHost
      && Merge(lobby, prior).value.users["p1"].isHost
  {
    var prior := map["p2" := LobbyUser(true, Some("old"), EmoteDefault, Connecting + 1, "p2")];
    var lobby := TwoPlayerLobby("p1", Some(map["UserStatus" := Int32ToString(Connecting + 1), "DisplayName" := "new"]));
    ParseInt32ToString(Connecting + 1);
    assert lobby.players[1].data.value["UserStatus"] == Int32ToString(Connecting + 1);
    MergeOutcome(lobby, prior);
    assert Ids(lobby.players) == {"p1", "p2"} by {
      assert lobby.players[0].id == "p1" && lobby.players[1].id == "p2";
    }
    MergeKeys(lobby, prior);
    MergeKeepsPrior(lobby, prior, 1);
    MergeFreshEntry(lobby, prior, 0);
  }

  /** A present `State` entry that is not an integer makes the conversion throw. */
  lemma MalformedStateThrows()
    ensures Merge(Lobby("lobby-1", "ABCD", false, "Room", 4, "p1", Some(map["State" := "ready"]), []), map[])
            == Err(LobbyValueInvalid("State", Format))
  {
  }

  /** A snapshot that lists one id twice makes `Dictionary.Add` throw. */
  lemma DuplicatePlayerThrows()
    ensures Merge(Lobby("lobby-1", "ABCD", false, "Room", 4, "p1", None, [Player("p1", None), Player("p1", None)]), map[])
            == Err(DuplicatePlayerId("p1"))
  {
    var lobby := Lobby("lobby-1", "ABCD", false, "Room", 4, "p1", None, [Player("p1", None), Player("p1", None)]);
    var user := LobbyUser(true, None, EmoteDefault, Connecting, "p1");
    assert lobby.players[..1][..0] == [];
    assert UsersOf(lobby, lobby.players[..1], map[]) == Ok(map["p1" := user]);
    assert lobby.players[..|lobby.players| - 1] == lobby.players[..1];
  }
}
