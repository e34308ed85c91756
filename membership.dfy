/** Squad membership rules: what joining and leaving do to one squad
    document, and the invariants that tie the player store and the squad
    store together. The handlers in Game.Store apply these to the stores. */
module Membership {
  import opened Records

  /** What the Squad schema and the handlers keep for every stored squad:
      a non-empty (trimmed) name and a member list without repeats. */
  ghost predicate SquadValid(sq: Squad) {
    sq.name != "" && NoDuplicates(sq.members)
  }

  /** A squad is never empty and its leader is one of its members. */
  ghost predicate SquadWellFormed(sq: Squad) {
    sq.members != [] && sq.leader in sq.members
  }

  ghost predicate UniqueUserIds(players: map<PlayerId, Player>) {
    forall a, b :: a in players && b in players && players[a].userId == players[b].userId ==> a == b
  }

  ghost predicate UniqueNames(squads: map<SquadId, Squad>) {
    forall a, b :: a in squads && b in squads && squads[a].name == squads[b].name ==> a == b
  }

  /** Record-level invariants the stores always keep: every player record is
      valid, every squad record is valid, user ids and squad names are unique,
      and every id, stored or referenced, was handed out by the store. */
  ghost predicate RecordsValid(players: map<PlayerId, Player>, squads: map<SquadId, Squad>, nextPlayerId: nat, nextSquadId: nat) {
    && (forall id :: id in players ==> id < nextPlayerId && PlayerValid(players[id]))
    && (forall id :: id in players && players[id].squadId.Some? ==> players[id].squadId.value < nextSquadId)
    && (forall id :: id in squads ==> id < nextSquadId && SquadValid(squads[id]))
    && UniqueUserIds(players)
    && UniqueNames(squads)
  }

  /** Rewriting one stored player keeps the records valid when the new
      record is valid, keeps its userId and refers only to handed-out ids. */
  lemma UpdatePlayerKeepsValid(players: map<PlayerId, Player>, squads: map<SquadId, Squad>, nextPlayerId: nat, nextSquadId: nat,
                               pid: PlayerId, p: Player)
    requires RecordsValid(players, squads, nextPlayerId, nextSquadId)
    requires pid in players && PlayerValid(p) && p.userId == players[pid].userId
    requires p.squadId.Some? ==> p.squadId.value < nextSquadId
    ensures RecordsValid(players[pid := p], squads, nextPlayerId, nextSquadId)
  {
  }

  /** Storing a squad under a handed-out id keeps the records valid when the
      squad is valid and no other squad has its name. */
  lemma UpdateSquadKeepsValid(players: map<PlayerId, Player>, squads: map<SquadId, Squad>, nextPlayerId: nat, nextSquadId: nat,
                              sid: SquadId, sq: Squad)
    requires RecordsValid(players, squads, nextPlayerId, nextSquadId)
    requires sid < nextSquadId && SquadValid(sq)
    requires forall s :: s in squads && s != sid ==> squads[s].name != sq.name
    ensures RecordsValid(players, squads[sid := sq], nextPlayerId, nextSquadId)
  {
  }

  /** Deleting a squad keeps the records valid; players may be left with a
      squadId that names it. */
  lemma RemoveSquadKeepsValid(players: map<PlayerId, Player>, squads: map<SquadId, Squad>, nextPlayerId: nat, nextSquadId: nat,
                              sid: SquadId)
    requires RecordsValid(players, squads, nextPlayerId, nextSquadId)
    ensures RecordsValid(players, squads - {sid}, nextPlayerId, nextSquadId)
  {
  }

  ghost predicate AllWellFormed(squads: map<SquadId, Squad>) {
    forall id :: id in squads ==> SquadWellFormed(squads[id])
  }

  /** The two stores agree on membership: a squad's members are stored
      players whose squadId names that squad, and a player's squadId names a
      stored squad that lists the player. */
  ghost predicate Linked(players: map<PlayerId, Player>, squads: map<SquadId, Squad>) {
    && (forall s, p :: s in squads && p in squads[s].members ==> p in players && players[p].squadId == Some(s))
    && (forall p :: p in players && players[p].squadId.Some? ==>
          players[p].squadId.value in squads && p in squads[players[p].squadId.value].members)
  }

  /** Rewriting a player's economy fields (its squadId kept) keeps the
      stores linked. */
  lemma SameSquadKeepsLinked(players: map<PlayerId, Player>, squads: map<SquadId, Squad>, pid: PlayerId, p: Player)
    requires pid in players && p.squadId == players[pid].squadId
    ensures Linked(players, squads) ==> Linked(players[pid := p], squads)
  {
  }

  /** While the stores are linked, a player is listed by at most one squad. */
  lemma OneSquadPerPlayer(players: map<PlayerId, Player>, squads: map<SquadId, Squad>, p: PlayerId, s1: SquadId, s2: SquadId)
    requires Linked(players, squads)
    requires s1 in squads && s2 in squads && p in squads[s1].members && p in squads[s2].members
    ensures s1 == s2
  {
    assert players[p].squadId == Some(s1) && players[p].squadId == Some(s2);
  }

  // ---------------------------------------------------------------------------
  // One squad document

  /** A new squad as the create handler stores it: it carries the given name
      and description, and the founder is its leader and its only member. */
  function Founded(name: string, description: string, founder: PlayerId): (sq: Squad)
    requires name != ""
    ensures SquadValid(sq) && SquadWellFormed(sq)
    ensures sq.name == name && sq.description == description
    ensures sq.leader == founder && sq.members == [founder]
  {
    Squad(name, description, founder, [founder])
  }

  /** The squad after `p` joins: `p` is appended unless already listed;
      name, description and leader stay. */
  function Admit(sq: Squad, p: PlayerId): (r: Squad)
    ensures r.name == sq.name && r.description == sq.description && r.leader == sq.leader
    ensures forall q :: q in r.members <==> q in sq.members || q == p
    ensures sq.members <= r.members
    ensures SquadValid(sq) ==> SquadValid(r) && multiset(r.members)[p] == 1
    ensures SquadWellFormed(sq) ==> SquadWellFormed(r)
  {
    sq.(members := AppendAbsent(sq.members, p))
  }

  /** The squad after `p` leaves, or None when it is disbanded: `p` is pulled
      from the members; a departing leader hands over to the first remaining
      member, and a squad whose leader was its last member is deleted. */
  function AfterLeave(sq: Squad, p: PlayerId): (r: Option<Squad>)
    ensures r.Some? ==> r.value.name == sq.name && r.value.description == sq.description
    ensures r.Some? ==> r.value.members == Pull(sq.members, p) && p !in r.value.members
    ensures r.Some? && sq.leader != p ==> r.value.leader == sq.leader
    ensures r.Some? && sq.leader == p ==> r.value.members != [] && r.value.leader == r.value.members[0]
    ensures SquadValid(sq) ==> (r.Some? ==> SquadValid(r.value))
    ensures SquadWellFormed(sq) ==> (r.Some? ==> SquadWellFormed(r.value))
    ensures r.None? <==> sq.leader == p && Pull(sq.members, p) == []
    ensures SquadWellFormed(sq) && NoDuplicates(sq.members) ==> (r.None? <==> sq.members == [p])
  {
    var rest := Pull(sq.members, p);
    assert sq.members == [p] ==> rest == [];
    assert SquadWellFormed(sq) && sq.leader == p && rest == [] && NoDuplicates(sq.members) ==> sq.members == [p] by {
      if SquadWellFormed(sq) && sq.leader == p && rest == [] && NoDuplicates(sq.members) {
        PullIsSplice(sq.members, p);
        assert |sq.members| == 1 && sq.members[0] == p;
      }
    }
    if sq.leader == p then
      if |rest| > 0 then Some(sq.(members := rest, leader := rest[0])) else None
    else
      Some(sq.(members := rest))
  }

  /** The squad store after `p` leaves squad `sid` (unchanged when `sid` no
      longer resolves). */
  function SquadsAfterLeave(squads: map<SquadId, Squad>, sid: SquadId, p: PlayerId): (r: map<SquadId, Squad>)
    ensures r.Keys <= squads.Keys
    ensures forall s :: s in squads && s != sid ==> s in r && r[s] == squads[s]
    ensures sid in r <==> sid in squads && AfterLeave(squads[sid], p).Some?
    ensures sid in r ==> r[sid] == AfterLeave(squads[sid], p).value
  {
    if sid !in squads then squads
    else match AfterLeave(squads[sid], p)
      case None => squads - {sid}
      case Some(q) => squads[sid := q]
  }

  // ---------------------------------------------------------------------------
  // The handlers keep the stores linked

  /** Creating: a player without a squad founds a squad under an id that
      nothing refers to yet. */
  lemma CreateKeepsLinked(players: map<PlayerId, Player>, squads: map<SquadId, Squad>, p: PlayerId, sid: SquadId, sq: Squad)
    requires Linked(players, squads)
    requires p in players && players[p].squadId == None
    requires sid !in squads && forall q :: q in players ==> players[q].squadId != Some(sid)
    requires sq.members == [p]
    ensures Linked(players[p := players[p].(squadId := Some(sid))], squads[sid := sq])
  {
  }

  /** Joining: a player without a squad is admitted to a stored squad. */
  lemma JoinKeepsLinked(players: map<PlayerId, Player>, squads: map<SquadId, Squad>, p: PlayerId, sid: SquadId)
    requires Linked(players, squads)
    requires p in players && players[p].squadId == None && sid in squads
    ensures Linked(players[p := players[p].(squadId := Some(sid))], squads[sid := Admit(squads[sid], p)])
  {
    var players', squads' := players[p := players[p].(squadId := Some(sid))], squads[sid := Admit(squads[sid], p)];
    forall s, q | s in squads' && q in squads'[s].members
      ensures q in players' && players'[q].squadId == Some(s)
    {
      if q != p {
        assert q in squads[s].members;
      }
    }
  }

  /** Leaving: the player is pulled from the squad its squadId names, that
      squad is handed over or deleted, and the squadId is cleared. */
  lemma LeaveKeepsLinked(players: map<PlayerId, Player>, squads: map<SquadId, Squad>, p: PlayerId)
    requires Linked(players, squads)
    requires p in players && players[p].squadId.Some?
    ensures var sid := players[p].squadId.value;
      Linked(players[p := players[p].(squadId := None)], SquadsAfterLeave(squads, sid, p))
  {
    var sid := players[p].squadId.value;
    var players', squads' := players[p := players[p].(squadId := None)], SquadsAfterLeave(squads, sid, p);
    forall s, q | s in squads' && q in squads'[s].members
      ensures q in players' && players'[q].squadId == Some(s)
    {
      if s == sid {
        assert q != p && q in squads[sid].members;
      } else {
        assert q in squads[s].members;
        assert q != p;
      }
    }
    forall q | q in players' && players'[q].squadId.Some?
      ensures players'[q].squadId.value in squads' && q in squads'[players'[q].squadId.value].members
    {
      var s := players[q].squadId.value;
      assert q != p && s in squads && q in squads[s].members;
      if s == sid {
        assert q in Pull(squads[sid].members, p);
      }
    }
  }

  /** Leaving keeps every remaining squad well formed. */
  lemma LeaveKeepsWellFormed(squads: map<SquadId, Squad>, sid: SquadId, p: PlayerId)
    requires AllWellFormed(squads)
    ensures AllWellFormed(SquadsAfterLeave(squads, sid, p))
  {
  }

  // ---------------------------------------------------------------------------
  // The schema's own removeMember

  /** The member list after the schema's removeMember: the one element at
      indexOf(p) spliced out. */
  function SpliceOut(members: seq<PlayerId>, p: PlayerId): (r: seq<PlayerId>)
    requires p in members
    ensures var i := IndexOf(members, p); r == members[..i] + members[i + 1..]
    ensures NoDuplicates(members) ==> r == Pull(members, p)
  {
    var i := IndexOf(members, p);
    assert NoDuplicates(members) ==> Pull(members, p) == members[..i] + members[i + 1..] by {
      if NoDuplicates(members) { PullIsSplice(members, p); }
    }
    members[..i] + members[i + 1..]
  }

  /** removeMember on a listed player keeps the stores linked: the player is
      listed by no other squad, and its squadId is cleared. */
  lemma RemoveMemberKeepsLinked(players: map<PlayerId, Player>, squads: map<SquadId, Squad>, sid: SquadId, p: PlayerId)
    requires Linked(players, squads)
    requires sid in squads && NoDuplicates(squads[sid].members) && p in squads[sid].members
    ensures p in players
    ensures Linked(players[p := players[p].(squadId := None)],
                   squads[sid := squads[sid].(members := SpliceOut(squads[sid].members, p))])
  {
    var rest := SpliceOut(squads[sid].members, p);
    assert rest == Pull(squads[sid].members, p);
    var players' := players[p := players[p].(squadId := None)];
    var squads' := squads[sid := squads[sid].(members := rest)];
    forall s, q | s in squads' && q in squads'[s].members
      ensures q in players' && players'[q].squadId == Some(s)
    {
      if s == sid {
        assert q in squads[sid].members && q != p;
      } else {
        assert q in squads[s].members;
      }
    }
    forall q | q in players' && players'[q].squadId.Some?
      ensures players'[q].squadId.value in squads' && q in squads'[players'[q].squadId.value].members
    {
      assert q != p;
    }
  }

  /** removeMember does not hand leadership over: removing the leader of a
      well-formed squad leaves a squad whose leader is not a member. */
  lemma RemovingLeaderOrphansSquad(sq: Squad)
    requires SquadValid(sq) && SquadWellFormed(sq)
    ensures !SquadWellFormed(sq.(members := SpliceOut(sq.members, sq.leader)))
  {
  }
}
