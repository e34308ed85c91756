/** Worked cases of the squad and reward rules, each played through the
    handlers' contracts alone. */
module Scenarios {
  import opened Records
  import opened Membership
  import opened Game

  /** Two players without a squad: L founds one and A joins it, giving
      members [L, A] in join order with L leading. The name has no
      surrounding white space, so it is stored as given. */
  method FoundAndJoin(store: Store, l: PlayerId, a: PlayerId, name: string)
    requires store.Valid() && l in store.players && a in store.players && l != a
    requires store.players[l].squadId == None && store.players[a].squadId == None
    requires !NameInUse(store.squads, name) && name != "" && Trim(name) == name
    modifies store
  {
    var created := store.CreateSquad(l, name, None);
    var s := created.value;
    assert store.squads[s] == Squad(name, "", l, [l]);
    var joined := store.JoinSquad(a, s);
    assert store.squads[s] == Squad(name, "", l, [l, a]);
    assert store.players[l].squadId == store.players[a].squadId == Some(s);
  }

  /** Leader L of members [L, A, B] leaves: A leads, A and B remain in that
      order, and L has no squad; leaving again is refused. */
  method LeaderSuccession(store: Store, s: SquadId, l: PlayerId, a: PlayerId, b: PlayerId)
    requires store.Valid() && store.WellFormed() && store.InSync()
    requires s in store.squads && store.squads[s].leader == l && store.squads[s].members == [l, a, b]
    requires l in store.players && store.players[l].squadId == Some(s)
    modifies store
  {
    var name := store.squads[s].name;
    assert SquadValid(store.squads[s]);
    assert [l, a, b][0] != [l, a, b][1] && [l, a, b][0] != [l, a, b][2];
    assert Pull([l, a, b], l) == [a, b] by {
      assert [b][1..] == [] && Pull([b], l) == [b] + Pull([], l);
      assert [a, b][1..] == [b] && Pull([a, b], l) == [a] + Pull([b], l);
      assert [l, a, b][1..] == [a, b];
    }
    var left := store.LeaveSquad(l);
    assert left == Ok(Left(Some(name)));
    assert store.squads[s].leader == a && store.squads[s].members == [a, b];
    assert store.players[l].squadId == None;
    var again := store.LeaveSquad(l);
    assert again == Err(NotInSquad);
  }

  /** The only member leaves: the squad is deleted and the player has no squad. */
  method Disbandment(store: Store, s: SquadId, l: PlayerId)
    requires store.Valid() && store.WellFormed() && store.InSync()
    requires s in store.squads && store.squads[s].members == [l]
    requires l in store.players && store.players[l].squadId == Some(s)
    modifies store
  {
    var name := store.squads[s].name;
    var left := store.LeaveSquad(l);
    assert left == Ok(Disbanded(name));
    assert s !in store.squads && store.players[l].squadId == None;
  }

  /** With a squad of that name stored, a second squad of the same name is
      refused and the squads are as they were. */
  method NameCollision(store: Store, s: SquadId, p: PlayerId, name: string)
    requires store.Valid() && s in store.squads && store.squads[s].name == name
    requires p in store.players && store.players[p].squadId == None
    requires name != "" && Trim(name) == name
    modifies store
  {
    var squads := store.squads;
    assert NameInUse(squads, Trim(name));
    var second := store.CreateSquad(p, name, Some(""));
    assert second == Err(NameTaken) && store.squads == squads;
  }

  /** A member joining its own squad again is refused; the roster is as before. */
  method DoubleJoin(store: Store, s: SquadId, p: PlayerId)
    requires store.Valid() && s in store.squads
    requires p in store.players && store.players[p].squadId == Some(s)
    modifies store
  {
    var members := store.squads[s].members;
    var again := store.JoinSquad(p, s);
    assert again == Err(AlreadyInSquad) && store.squads[s].members == members;
  }

  /** One daily reward per day: the second claim on the same day is refused. */
  method ClaimTwice() {
    var store := new Store();
    var p := store.LoadPlayer("p");
    var first := store.ClaimDailyReward(p, "2024-06-01");
    assert first.Ok? && store.players[p].coins == 100;
    var second := store.ClaimDailyReward(p, "2024-06-01");
    assert second == Err(AlreadyClaimed) && store.players[p].coins == 100;
    var next := store.ClaimDailyReward(p, "2024-06-02");
    assert next.Ok? && store.players[p].coins == 200;
  }

  /** 'doubleTap' is bought once: it costs 50 and doubles the tap power, and
      a second purchase is refused. */
  method DoubleTapOnce() {
    var store := new Store();
    var p := store.LoadPlayer("p");
    var reward := store.ClaimDailyReward(p, "2024-06-01");
    ghost var day := Some("2024-06-01");
    assert store.players[p] == Player("p", 100, 1, [], day, None, 0);
    var bought := store.PurchaseUpgrade(p, "doubleTap");
    assert store.players[p] == Player("p", 50, 2, ["doubleTap"], day, None, 0);
    var again := store.PurchaseUpgrade(p, "doubleTap");
    assert again == Err(NotRepeatable);
  }

  /** 'powerTap1' bought twice adds 2 to the tap power and is listed once;
      'powerTap5' is then out of reach, and a tap pays the new tap power. */
  method PowerTapTwice(store: Store, p: PlayerId)
    requires store.Valid() && p in store.players
    requires store.players[p].coins == 50 && store.players[p].tapPower == 2 && store.players[p].upgrades == ["doubleTap"]
    modifies store
  {
    var one := store.PurchaseUpgrade(p, "powerTap1");
    var two := store.PurchaseUpgrade(p, "powerTap1");
    assert store.players[p].coins == 10 && store.players[p].tapPower == 4;
    assert store.players[p].upgrades == ["doubleTap", "powerTap1"];
    var broke := store.PurchaseUpgrade(p, "powerTap5");
    assert broke == Err(InsufficientCoins);
    store.Tap(p);
    assert store.players[p].coins == 14;
  }
}
