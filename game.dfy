/** The backend's request handlers as operations on its two document stores:
    players keyed by id and squads keyed by id. Each handler reads the
    records it needs, rewrites them and answers Ok or one Error. The acting
    player's id is what the loadPlayer step resolved; "today" is a
    'YYYY-MM-DD' string supplied by the caller. */
module Game {
  import opened Records
  import opened Membership
  import Upgrades
  import Leaderboard

  /** Coins paid by one daily reward. */
  const DailyRewardAmount := 100

  /** The answer of a successful leave. */
  datatype LeaveOutcome =
    | Left(squadName: Option<string>)  // the squad stays (None: it no longer existed)
    | Disbanded(name: string)           // the last member left and the squad was deleted

  /** What /playerdata reports as canClaimDailyReward, and what decides
      whether /claimdailyreward pays: the stored claim day is not today. */
  predicate CanClaimDailyReward(p: Player, today: string) {
    p.lastDailyRewardClaimed != Some(today)
  }

  /** Recording a claim on `today` closes that day and no other: the reward
      cannot be claimed again on `today`, but can on any other day. */
  lemma ClaimClosesOnlyToday(p: Player, today: string, day: string)
    ensures !CanClaimDailyReward(p.(lastDailyRewardClaimed := Some(today)), today)
    ensures day != today ==> CanClaimDailyReward(p.(lastDailyRewardClaimed := Some(today)), day)
  {
  }

  /** Some stored squad already has exactly this name. */
  predicate NameInUse(squads: map<SquadId, Squad>, name: string) {
    exists s :: s in squads && squads[s].name == name
  }

  /** The stored description: `description || ''`, trimmed by the schema.
      A missing description is stored as "", a given one trimmed, and what
      is stored never carries surrounding white space. */
  function StoredDescription(description: Option<string>): (d: string)
    ensures description.None? ==> d == ""
    ensures description.Some? ==> d == Trim(description.value)
    ensures Trim(d) == d
  {
    match description
    case Some(given) =>
      TrimIdempotent(given);
      Trim(given)
    case None => ""
  }

  class Store {
    var players: map<PlayerId, Player>
    var squads: map<SquadId, Squad>
    /** The ids the store hands out next; deleted ids are never reused. */
    var nextPlayerId: nat
    var nextSquadId: nat

    ghost predicate Valid()
      reads this
    {
      RecordsValid(players, squads, nextPlayerId, nextSquadId)
    }

    ghost predicate WellFormed()
      reads this
    {
      AllWellFormed(squads)
    }

    ghost predicate InSync()
      reads this
    {
      Linked(players, squads)
    }

    constructor ()
      ensures Valid() && WellFormed() && InSync()
      ensures players == map[] && squads == map[]
    {
      players, squads := map[], map[];
      nextPlayerId, nextSquadId := 0, 0;
    }

    // -------------------------------------------------------------------------
    // Player loading (the loadPlayer middleware)

    /** The player stored for `userId`, created with the schema defaults when
        there is none. */
    method LoadPlayer(userId: string) returns (pid: PlayerId)
      requires Valid()
      modifies this`players, this`nextPlayerId
      ensures Valid()
      ensures pid in players && players[pid].userId == userId
      ensures old(exists q :: q in players && players[q].userId == userId) ==>
        pid in old(players) && players == old(players) && nextPlayerId == old(nextPlayerId)
      ensures old(forall q :: q in players ==> players[q].userId != userId) ==>
        && pid == old(nextPlayerId) && pid !in old(players)
        && players == old(players)[pid := NewPlayer(userId)]
        && players[pid].coins == 0 && players[pid].tapPower == 1 && players[pid].totalTaps == 0
        && players[pid].upgrades == [] && players[pid].squadId == None
        && players[pid].lastDailyRewardClaimed == None
      ensures old(InSync()) ==> InSync()
      ensures old(WellFormed()) ==> WellFormed()
    {
      if q :| q in players && players[q].userId == userId {
        pid := q;
      } else {
        pid := nextPlayerId;
        players := players[pid := NewPlayer(userId)];
        nextPlayerId := nextPlayerId + 1;
      }
    }

    // -------------------------------------------------------------------------
    // Economy

    /** /tap: coins grow by exactly the tap power and the tap count by one;
        nothing else changes. */
    method Tap(pid: PlayerId)
      requires Valid() && pid in players
      modifies this`players
      ensures Valid()
      ensures players == old(players)[pid := old(players[pid]).(
        coins := old(players[pid].coins) + old(players[pid].tapPower),
        totalTaps := old(players[pid].totalTaps) + 1)]
      ensures old(InSync()) ==> InSync()
      ensures old(WellFormed()) ==> WellFormed()
    {
      var player := players[pid];
      player := player.(coins := player.coins + player.tapPower);
      player := player.(totalTaps := player.totalTaps + 1);
      UpdatePlayerKeepsValid(players, squads, nextPlayerId, nextSquadId, pid, player);
      SameSquadKeepsLinked(players, squads, pid, player);
      players := players[pid := player];
    }

    /** /claimdailyreward: refused on a day already claimed; otherwise pays
        the reward and records the day, so a second claim that day fails. */
    method ClaimDailyReward(pid: PlayerId, today: string) returns (r: Result<()>)
      requires Valid() && pid in players
      modifies this`players
      ensures Valid()
      ensures r.Ok? <==> CanClaimDailyReward(old(players[pid]), today)
      ensures r.Err? ==> r.error == AlreadyClaimed && players == old(players)
      ensures r.Ok? ==> players == old(players)[pid := old(players[pid]).(
        coins := old(players[pid].coins) + DailyRewardAmount,
        lastDailyRewardClaimed := Some(today))]
      ensures r.Ok? ==> !CanClaimDailyReward(players[pid], today)
      ensures old(InSync()) ==> InSync()
      ensures old(WellFormed()) ==> WellFormed()
    {
      var player := players[pid];
      if player.lastDailyRewardClaimed == Some(today) {
        return Err(AlreadyClaimed);
      }
      player := player.(coins := player.coins + DailyRewardAmount);
      player := player.(lastDailyRewardClaimed := Some(today));
      UpdatePlayerKeepsValid(players, squads, nextPlayerId, nextSquadId, pid, player);
      SameSquadKeepsLinked(players, squads, pid, player);
      players := players[pid := player];
      r := Ok(());
    }

    /** /purchaseupgrade: refused for an unknown id, for a second 'doubleTap'
        and for too few coins, each time with the player unchanged; otherwise
        the cost is paid, the tap power boosted and the id recorded once. A
        name inherited from `Object.prototype` passes the lookup but has no
        cost, and `coins >= undefined` is false: it is refused as too few
        coins. */
    method PurchaseUpgrade(pid: PlayerId, upgradeId: string) returns (r: Result<()>)
      requires Valid() && pid in players
      modifies this`players
      ensures Valid()
      ensures upgradeId !in Upgrades.Catalogue && upgradeId !in Upgrades.InheritedNames ==> r == Err(UpgradeNotFound)
      ensures upgradeId in Upgrades.InheritedNames ==> r == Err(InsufficientCoins)
      ensures upgradeId in Upgrades.Catalogue && !Upgrades.Repeatable(upgradeId) && upgradeId in old(players[pid].upgrades) ==>
        r == Err(NotRepeatable)
      ensures upgradeId in Upgrades.Catalogue && (Upgrades.Repeatable(upgradeId) || upgradeId !in old(players[pid].upgrades)) ==>
        (r == Err(InsufficientCoins) <==> old(players[pid].coins) < Upgrades.Catalogue[upgradeId].cost)
      ensures r.Ok? <==>
        && upgradeId in Upgrades.Catalogue
        && (Upgrades.Repeatable(upgradeId) || upgradeId !in old(players[pid].upgrades))
        && old(players[pid].coins) >= Upgrades.Catalogue[upgradeId].cost
      ensures r.Err? ==> players == old(players)
      ensures r.Ok? ==> upgradeId in Upgrades.Catalogue && players == old(players)[pid := old(players[pid]).(
        coins := old(players[pid].coins) - Upgrades.Catalogue[upgradeId].cost,
        tapPower := Upgrades.Boost(upgradeId, old(players[pid].tapPower)),
        upgrades := AppendAbsent(old(players[pid].upgrades), upgradeId))]
      ensures r.Ok? ==> players[pid].tapPower > old(players[pid].tapPower) && multiset(players[pid].upgrades)[upgradeId] == 1
      ensures old(InSync()) ==> InSync()
      ensures old(WellFormed()) ==> WellFormed()
    {
      var found := Upgrades.Find(upgradeId);
      if found.Missing? {
        return Err(UpgradeNotFound);
      }
      var player := players[pid];
      if upgradeId in player.upgrades && upgradeId == Upgrades.DoubleTap {
        return Err(NotRepeatable);
      }
      // An unpriced value compares as `coins >= undefined`, which is false.
      if found.Priced? && player.coins >= found.upgrade.cost {
        player := player.(coins := player.coins - found.upgrade.cost);
        player := player.(tapPower := Upgrades.Boost(upgradeId, player.tapPower));
        if upgradeId !in player.upgrades {
          player := player.(upgrades := player.upgrades + [upgradeId]);
        }
        assert player.upgrades == AppendAbsent(old(players[pid].upgrades), upgradeId);
        UpdatePlayerKeepsValid(players, squads, nextPlayerId, nextSquadId, pid, player);
        SameSquadKeepsLinked(players, squads, pid, player);
        players := players[pid := player];
        r := Ok(());
      } else {
        r := Err(InsufficientCoins);
      }
    }

    // -------------------------------------------------------------------------
    // Squads

    /** POST /squads: refused for an empty name, for a player who already has
        a squadId, for a (trimmed) name already in use and for a name that is
        only white space, each time with both stores unchanged; otherwise one
        new squad, led by the player and listing only the player, whose id
        becomes the player's squadId. */
    method CreateSquad(pid: PlayerId, name: string, description: Option<string>) returns (r: Result<SquadId>)
      requires Valid() && pid in players
      modifies this`players, this`squads, this`nextSquadId
      ensures Valid()
      ensures name == "" ==> r == Err(NameRequired)
      ensures name != "" && old(players[pid].squadId).Some? ==> r == Err(AlreadyInSquad)
      ensures name != "" && old(players[pid].squadId).None? && NameInUse(old(squads), Trim(name)) ==> r == Err(NameTaken)
      ensures name != "" && old(players[pid].squadId).None? && !NameInUse(old(squads), Trim(name)) && Trim(name) == "" ==>
        r == Err(InvalidSquad)
      ensures r.Ok? <==> name != "" && old(players[pid].squadId).None? && !NameInUse(old(squads), Trim(name)) && Trim(name) != ""
      ensures r.Err? ==> players == old(players) && squads == old(squads) && nextSquadId == old(nextSquadId)
      ensures r.Ok? ==>
        && Trim(name) != ""
        && r.value == old(nextSquadId) && r.value !in old(squads)
        && squads == old(squads)[r.value := Founded(Trim(name), StoredDescription(description), pid)]
        && players == old(players)[pid := old(players[pid]).(squadId := Some(r.value))]
        && nextSquadId == old(nextSquadId) + 1
      ensures old(WellFormed()) ==> WellFormed()
      ensures old(InSync()) ==> InSync()
    {
      if name == "" {
        return Err(NameRequired);
      }
      var player := players[pid];
      if player.squadId.Some? {
        return Err(AlreadyInSquad);
      }
      var stored := Trim(name);
      if NameInUse(squads, stored) {
        return Err(NameTaken);
      }
      if stored == "" {
        return Err(InvalidSquad);
      }
      var sid := nextSquadId;
      ghost var players0, squads0 := players, squads;
      nextSquadId := nextSquadId + 1;
      var squad := Founded(stored, StoredDescription(description), pid);
      UpdateSquadKeepsValid(players, squads, nextPlayerId, nextSquadId, sid, squad);
      squads := squads[sid := squad];
      player := player.(squadId := Some(sid));
      UpdatePlayerKeepsValid(players, squads, nextPlayerId, nextSquadId, pid, player);
      players := players[pid := player];
      if Linked(players0, squads0) {
        CreateKeepsLinked(players0, squads0, pid, sid, squads[sid]);
      }
      r := Ok(sid);
    }

    /** POST /squads/:squadId/join: refused for a player who already has any
        squadId (this squad included) and for an unknown squad, each time with
        both stores unchanged; otherwise the player is listed exactly once and
        its squadId names the squad. */
    method JoinSquad(pid: PlayerId, sid: SquadId) returns (r: Result<()>)
      requires Valid() && pid in players
      modifies this`players, this`squads
      ensures Valid()
      ensures old(players[pid].squadId).Some? ==> r == Err(AlreadyInSquad)
      ensures old(players[pid].squadId).None? && sid !in old(squads) ==> r == Err(SquadNotFound)
      ensures r.Ok? <==> old(players[pid].squadId).None? && sid in old(squads)
      ensures r.Err? ==> players == old(players) && squads == old(squads)
      ensures r.Ok? ==>
        && sid in old(squads)
        && squads == old(squads)[sid := Admit(old(squads[sid]), pid)]
        && players == old(players)[pid := old(players[pid]).(squadId := Some(sid))]
      ensures r.Ok? ==> multiset(squads[sid].members)[pid] == 1
      ensures old(WellFormed()) ==> WellFormed()
      ensures old(InSync()) ==> InSync()
    {
      var player := players[pid];
      if player.squadId.Some? {
        return Err(AlreadyInSquad);
      }
      if sid !in squads {
        return Err(SquadNotFound);
      }
      ghost var players0, squads0 := players, squads;
      var squad := squads[sid];
      if pid !in squad.members {
        squad := squad.(members := squad.members + [pid]);
        UpdateSquadKeepsValid(players, squads, nextPlayerId, nextSquadId, sid, squad);
        squads := squads[sid := squad];
      }
      assert squads == squads0[sid := Admit(squads0[sid], pid)];
      player := player.(squadId := Some(sid));
      UpdatePlayerKeepsValid(players, squads, nextPlayerId, nextSquadId, pid, player);
      players := players[pid := player];
      if Linked(players0, squads0) {
        JoinKeepsLinked(players0, squads0, pid, sid);
      }
      r := Ok(());
    }

    /** POST /squads/leave: refused, with nothing changed, for a player
        without a squadId; otherwise the squadId is cleared in every case, and
        the squad it named, if it still exists, loses the player: a departing
        leader hands over to the first remaining member, and a leader who was
        the last member deletes the squad. */
    method LeaveSquad(pid: PlayerId) returns (r: Result<LeaveOutcome>)
      requires Valid() && pid in players
      modifies this`players, this`squads
      ensures Valid()
      ensures r.Err? <==> old(players[pid].squadId).None?
      ensures r.Err? ==> r.error == NotInSquad && players == old(players) && squads == old(squads)
      ensures r.Ok? ==> players == old(players)[pid := old(players[pid]).(squadId := None)]
      ensures r.Ok? ==>
        var sid := old(players[pid].squadId.value);
        && squads == SquadsAfterLeave(old(squads), sid, pid)
        && r.value == if sid !in old(squads) then Left(None)
                      else if AfterLeave(old(squads[sid]), pid).None? then Disbanded(old(squads[sid].name))
                      else Left(Some(old(squads[sid].name)))
      ensures old(WellFormed()) ==> WellFormed()
      ensures old(InSync()) ==> InSync()
    {
      var player := players[pid];
      if player.squadId.None? {
        return Err(NotInSquad);
      }
      var sid := player.squadId.value;
      ghost var players0, squads0 := players, squads;
      if Linked(players0, squads0) {
        LeaveKeepsLinked(players0, squads0, pid);
      }
      var leftName: Option<string> := None;
      if sid in squads {
        var squad := squads[sid];
        squad := squad.(members := Pull(squad.members, pid));
        if squad.leader == pid {
          if |squad.members| > 0 {
            squad := squad.(leader := squad.members[0]);
          } else {
            RemoveSquadKeepsValid(players, squads, nextPlayerId, nextSquadId, sid);
            squads := squads - {sid};
            player := player.(squadId := None);
            UpdatePlayerKeepsValid(players, squads, nextPlayerId, nextSquadId, pid, player);
            players := players[pid := player];
            return Ok(Disbanded(squad.name));
          }
        }
        UpdateSquadKeepsValid(players, squads, nextPlayerId, nextSquadId, sid, squad);
        squads := squads[sid := squad];
        leftName := Some(squad.name);
      }
      player := player.(squadId := None);
      UpdatePlayerKeepsValid(players, squads, nextPlayerId, nextSquadId, pid, player);
      players := players[pid := player];
      r := Ok(Left(leftName));
    }

    /** GET /player/squad: the squad the player's squadId names; a squadId
        naming a squad that no longer exists is cleared (and reported as
        SquadNotFound), after which the player has no dangling reference. */
    method PlayerSquad(pid: PlayerId) returns (r: Result<Option<Squad>>)
      requires Valid() && pid in players
      modifies this`players
      ensures Valid()
      ensures old(players[pid].squadId).None? ==> r == Ok(None) && players == old(players)
      ensures old(players[pid].squadId).Some? && old(players[pid].squadId.value) in squads ==>
        r == Ok(Some(squads[old(players[pid].squadId.value)])) && players == old(players)
      ensures old(players[pid].squadId).Some? && old(players[pid].squadId.value) !in squads ==>
        r == Err(SquadNotFound) && players == old(players)[pid := old(players[pid]).(squadId := None)]
      ensures players[pid].squadId.Some? ==> players[pid].squadId.value in squads
      ensures old(InSync()) ==> InSync() && r != Err(SquadNotFound)
      ensures old(WellFormed()) ==> WellFormed()
    {
      var player := players[pid];
      if player.squadId.None? {
        return Ok(None);
      }
      var sid := player.squadId.value;
      if sid !in squads {
        player := player.(squadId := None);
        players := players[pid := player];
        return Err(SquadNotFound);
      }
      r := Ok(Some(squads[sid]));
    }

    // -------------------------------------------------------------------------
    // The Squad schema's member helpers

    /** squadSchema.methods.addMember: appends an unlisted player, points that
        player's squadId (when the player is stored) at this squad and
        answers true; answers false, changing nothing, for a listed player. */
    method AddMember(sid: SquadId, pid: PlayerId) returns (added: bool)
      requires Valid() && sid in squads
      modifies this`players, this`squads
      ensures Valid()
      ensures added <==> pid !in old(squads[sid].members)
      ensures squads == old(squads)[sid := Admit(old(squads[sid]), pid)]
      ensures added && pid in old(players) ==> players == old(players)[pid := old(players[pid]).(squadId := Some(sid))]
      ensures !added || pid !in old(players) ==> players == old(players)
      ensures old(WellFormed()) ==> WellFormed()
      ensures old(InSync()) && pid in old(players) && old(players[pid].squadId).None? ==> InSync()
    {
      var squad := squads[sid];
      if pid !in squad.members {
        ghost var players0, squads0 := players, squads;
        squad := squad.(members := squad.members + [pid]);
        UpdateSquadKeepsValid(players, squads, nextPlayerId, nextSquadId, sid, squad);
        squads := squads[sid := squad];
        if pid in players {
          UpdatePlayerKeepsValid(players, squads, nextPlayerId, nextSquadId, pid, players[pid].(squadId := Some(sid)));
          players := players[pid := players[pid].(squadId := Some(sid))];
          if Linked(players0, squads0) && players0[pid].squadId.None? {
            JoinKeepsLinked(players0, squads0, pid, sid);
          }
        }
        return true;
      }
      return false;
    }

    /** squadSchema.methods.removeMember: splices out a listed player, clears
        that player's squadId (when the player is stored) and answers true;
        answers false, changing nothing, for an unlisted player. The leader is
        never touched, so the squad stays well formed only when the player
        removed is not its leader (see RemovingLeaderOrphansSquad). */
    method RemoveMember(sid: SquadId, pid: PlayerId) returns (removed: bool)
      requires Valid() && sid in squads
      modifies this`players, this`squads
      ensures Valid()
      ensures removed <==> pid in old(squads[sid].members)
      ensures !removed ==> players == old(players) && squads == old(squads)
      ensures removed ==>
        && squads == old(squads)[sid := old(squads[sid]).(members := SpliceOut(old(squads[sid].members), pid))]
        && players == if pid in old(players) then old(players)[pid := old(players[pid]).(squadId := None)] else old(players)
      ensures old(WellFormed()) && pid != old(squads[sid].leader) ==> WellFormed()
      ensures old(InSync()) ==> InSync()
    {
      var squad := squads[sid];
      var index := IndexOf(squad.members, pid);
      if index > -1 {
        ghost var players0, squads0 := players, squads;
        if Linked(players0, squads0) {
          RemoveMemberKeepsLinked(players0, squads0, sid, pid);
        }
        squad := squad.(members := squad.members[..index] + squad.members[index + 1..]);
        assert squad.members == SpliceOut(squads[sid].members, pid);
        UpdateSquadKeepsValid(players, squads, nextPlayerId, nextSquadId, sid, squad);
        squads := squads[sid := squad];
        if pid in players {
          UpdatePlayerKeepsValid(players, squads, nextPlayerId, nextSquadId, pid, players[pid].(squadId := None));
          players := players[pid := players[pid].(squadId := None)];
        }
        return true;
      }
      return false;
    }

    // -------------------------------------------------------------------------
    // Leaderboard

    /** getTopPlayers: at most `limit` stored players (a limit of 0 is no
        limit, as the store reads it), ranked by tap count for 'totalTaps' and
        by coins otherwise, highest first, each shown with the squad its
        squadId resolves to; no player left out ranks above one listed, and
        a page shorter than `limit` lists everyone; each player appears at
        most once. It needs only the part of
        Valid() saying that every stored id was handed out already. */
    function TopPlayers(sortBy: string, limit: nat): (es: seq<Leaderboard.Entry>)
      requires Leaderboard.IdsBelow(players, nextPlayerId)
      reads this
      ensures limit > 0 ==> |es| <= limit
      ensures Leaderboard.LinesOfStore(es, players, squads)
      ensures Leaderboard.HighestFirst(es, Leaderboard.MetricOf(sortBy))
      ensures Leaderboard.NoneLeftOutAbove(es, players, Leaderboard.MetricOf(sortBy))
      ensures limit == 0 || |es| < limit ==> Leaderboard.ListsEveryone(es, players)
    {
      Leaderboard.Board(players, squads, nextPlayerId, Leaderboard.MetricOf(sortBy), limit)
    }

    /** GET /leaderboard: getTopPlayers with the request's sortBy (coins
        unless 'totalTaps') and limit (10 when it is missing, does not parse
        or is 0): never more lines than that limit, each player at most
        once, highest first by the requested metric, each line a stored
        player's line; no player left out ranks above one listed, and for a
        missing or non-negative limit a page shorter than the limit lists
        everyone (a negative limit is one batch, which the store may end
        early). */
    function LeaderboardFor(sortBy: Option<string>, limit: Option<int>): (es: seq<Leaderboard.Entry>)
      requires Leaderboard.IdsBelow(players, nextPlayerId)
      reads this
      ensures |es| <= Leaderboard.EffectiveLimit(limit)
      ensures limit.None? || limit == Some(0) ==> |es| <= Leaderboard.DefaultLimit
      ensures Leaderboard.LinesOfStore(es, players, squads)
      ensures Leaderboard.HighestFirst(es, Leaderboard.RequestedMetric(sortBy))
      ensures Leaderboard.NoneLeftOutAbove(es, players, Leaderboard.RequestedMetric(sortBy))
      ensures (limit.None? || limit.value >= 0) && |es| < Leaderboard.EffectiveLimit(limit) ==>
        Leaderboard.ListsEveryone(es, players)
    {
      TopPlayers(Leaderboard.SortParam(sortBy), Leaderboard.EffectiveLimit(limit))
    }
  }
}
