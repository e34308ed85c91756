# AtlantaX game backend: squads, economy and leaderboard

A Dafny model of the request handlers of the AtlantaX tap-to-earn backend
(`src/backend/server.js`) and of its Player and Squad schemas
(`src/backend/db.js`).

The two MongoDB collections are a class `Game.Store` holding two maps,
players by id and squads by id, plus the next id each will hand out.
Every handler is a method of that class. It reads the records it needs,
rewrites them and answers `Ok` or one `Error`:

- **Economy**: tap, daily reward and upgrade purchase.
- **Squads**: create; join; leave, which hands leadership to the first
  remaining member or deletes the squad when its last member leaves.
- **Repair**: the player-squad read path clears a squadId that names a
  deleted squad.
- **Schema helpers**: `addMember` and `removeMember`.
- **Leaderboard**: a pure projection that sorts every player by coins or
  by tap count, highest first, cuts the result to a limit, and shows each
  player's squad name.

The acting player is the id that the `loadPlayer` step resolved.
"Today" is a `'YYYY-MM-DD'` string passed in by the caller.

Module layout:

- `records.dfy` (`Records`): the Player and Squad documents and the error
  kinds. It also holds the helpers the handlers apply to member and upgrade
  arrays, with their JavaScript and Mongoose meaning: `trim`, `indexOf`,
  Mongoose `pull`, and include-then-push.
- `membership.dfy` (`Membership`): what create, join, leave and
  `removeMember` do to one squad document. It also holds the invariants
  that link the two stores, and lemmas showing that each handler keeps
  them.
- `upgrades.dfy` (`Upgrades`): the upgrade catalogue and each upgrade's
  effect on tap power.
- `leaderboard.dfy` (`Leaderboard`): the sort-then-limit projection and its
  top-k property.
- `game.dfy` (`Game`): the store class and its handlers.
- `scenarios.dfy` (`Scenarios`): worked cases checked through the handlers'
  contracts alone. They cover founding and joining, leader succession for
  members `[L, A, B]`, disbandment, a name collision, a double join, two
  claims on one day, and repeated purchases.

The store keeps three invariants:

- `Valid()` always holds. Player records are valid: coins ≥ 0, tap
  power ≥ 1, tap count ≥ 0, no upgrade listed twice. Squad names are
  non-empty and member lists have no repeats. User ids and squad names are
  unique. Every stored player id and squad id, and every player's
  squadId, was handed out by the store. A squad's leader and member ids
  are not bounded this way, because `addMember` accepts any id.
- `WellFormed()`: every squad is non-empty and its leader is a member.
- `InSync()`: a player's squadId names a stored squad that lists the
  player, and every listed member points back to its squad.

`WellFormed()` and `InSync()` are stated as kept (`old(X) ==> X`) by
loading, the economy handlers, create, join, leave and the squad lookup,
not as always true. `removeMember` keeps `WellFormed()` only when the
player removed is not the leader. The repair path
exists because stores that are out of sync do occur.

The model follows the code in these points:

- Members form an ordered array, not a set. The successor of a departing
  leader is `members[0]` of the remaining list.
- The code sorts by one key and does not order ties. Tie order is
  therefore not asserted.
- The code does not cap the leaderboard limit.
- The upgrade lookup is a plain property read, so a name inherited from
  `Object.prototype` (such as `toString`) passes the not-found test and is
  then refused as too few coins.
- A squad name goes through the schema's `trim` setter, both when it is
  stored and in the uniqueness query.

## Model

| member | source | states |
|---|---|---|
| Records.NewPlayer | src/backend/db.js:25-34 | a new player record is valid (coins ≥ 0, tap power ≥ 1, tap count ≥ 0, no repeated upgrade), keeps the userId it was created for and has no squad |
| Records.Trim | src/backend/db.js:41-42 | the stored name is the slice of the input between its first and last non-white-space character; everything cut away is JavaScript white space; the result neither starts nor ends with white space |
| Records.TrimEmptyIffBlank | src/backend/db.js:41 | a name trims to "" exactly when it is all white space, which the schema's `required` then refuses |
| Records.TrimIdempotent | src/backend/db.js:41-42 | trimming a stored name again changes nothing |
| Records.IndexOf | src/backend/db.js:67 | `indexOf` is -1 exactly when the value is absent, and otherwise the first position holding it |
| Records.Pull | src/backend/server.js:202 | Mongoose `pull` removes the value, keeps every other value, never lengthens the list and keeps a repeat-free list repeat-free |
| Records.PullKeepsOrder | src/backend/server.js:202 | `pull` works element by element: pulling from a concatenation pulls from each part, and a value other than the pulled one stays, so the remaining members keep their order |
| Records.PullIsSplice | src/backend/db.js:66-69 | on a repeat-free list, `pull` equals the one-element splice at `indexOf`, so the leave handler and `removeMember` remove a member the same way |
| Records.PullAbsent | src/backend/server.js:202 | pulling a value that is not listed leaves the list unchanged |
| Records.AppendAbsent | src/backend/server.js:352-354 | include-then-push: afterwards the value is listed, nothing else was added or lost, the old list is a prefix, and on a repeat-free list the value is listed exactly once |
| Membership.Founded | src/backend/server.js:397-402 | a new squad carries the given name and description, is led by its founder, lists only the founder, and is valid and well formed |
| Membership.Admit | src/backend/server.js:176-179 | joining appends the player unless listed, keeps name, description and leader, keeps the old members as a prefix, leaves the player listed exactly once and keeps the squad valid and well formed |
| Membership.AfterLeave | src/backend/server.js:200-219 | leaving pulls the player. A non-leader leaves the leader in place. A departing leader is replaced by the first remaining member. The squad is deleted exactly when the leaver is its leader and no member is left after the pull, so a non-leader's leave always keeps the squad; in a well-formed squad without repeats that is exactly when the leader was its only member. Validity and well-formedness are kept |
| Membership.SquadsAfterLeave | src/backend/server.js:200-220 | only the left squad changes in the squad store: it is rewritten, or deleted on disbandment, and nothing happens when it no longer exists |
| Membership.CreateKeepsLinked | src/backend/server.js:397-407 | creating a squad for a player without one keeps player references and member lists linked |
| Membership.JoinKeepsLinked | src/backend/server.js:176-182 | joining keeps player references and member lists linked |
| Membership.LeaveKeepsLinked | src/backend/server.js:196-224 | leaving keeps the stores linked after succession or disbandment and the clearing of the squadId |
| Membership.LeaveKeepsWellFormed | src/backend/server.js:207-219 | after a leave every remaining squad is non-empty and contains its leader |
| Membership.OneSquadPerPlayer | src/backend/server.js:161-167 | while the stores are linked no player is listed by two squads, which the join handler's refusal keeps true |
| Membership.SpliceOut | src/backend/db.js:67-69 | `removeMember` splices out the element at `indexOf`, which on a repeat-free list is `pull` |
| Membership.RemoveMemberKeepsLinked | src/backend/db.js:66-77 | `removeMember` on a listed player, clearing its squadId, keeps the stores linked |
| Membership.RemovingLeaderOrphansSquad | src/backend/db.js:66-77 | `removeMember` never reassigns the leader: removing the leader of a well-formed squad leaves a squad whose leader is not a member |
| Upgrades.Find | src/backend/server.js:329-333 | `availableUpgrades[upgradeId]` finds the catalogue upgrade exactly for a catalogue id. It finds an unpriced value exactly for a name inherited from `Object.prototype`, and nothing for any other id |
| Upgrades.Boost | src/backend/server.js:347-349 | 'doubleTap' doubles the tap power, 'powerTap1' adds 1 and 'powerTap5' adds 5, so a catalogue upgrade strictly raises a tap power of at least 1. An unknown id changes nothing |
| Leaderboard.MetricOf | src/backend/server.js:449 | ranks by tap count exactly for 'totalTaps', by coins otherwise |
| Leaderboard.RequestedMetric | src/backend/server.js:116-123 | a missing or empty sortBy means coins; tap count exactly when 'totalTaps' is asked for |
| Leaderboard.EffectiveLimit | src/backend/server.js:115 | the page size is always positive. A missing or unparsable limit, or 0, gives 10. A positive limit is kept. A negative one asks the store for a single batch of at most its absolute value, so that is an upper bound |
| Leaderboard.Insert | src/backend/server.js:126 | inserting into a descending list keeps it descending and adds exactly that row |
| Leaderboard.SortDescending | src/backend/server.js:126 | the sort is descending by the metric and a permutation of its input |
| Leaderboard.PrefixOutranksRest | src/backend/server.js:127 | cutting a descending list keeps a descending sub-multiset, and no row cut away scores higher than a row kept |
| Leaderboard.DrawnKeepsDistinct | src/backend/server.js:450-452 | rows drawn from rows about distinct players are about distinct players |
| Leaderboard.Rank | src/backend/server.js:125-127 | sort-then-limit returns min(limit, n) rows, descending, drawn from the input, and no row left out outranks a row kept. With a limit ≥ n it returns every row. Rows about distinct players stay distinct |
| Leaderboard.SquadOf | src/backend/server.js:129 | the squad shown is the one the squadId names, with its name, and nothing when there is no squadId or the squad is gone |
| Leaderboard.ToEntry | src/backend/server.js:128-129 | a line carries the player's id, userId, coins and tap count, and the squad its squadId resolves to (`SquadOf`) |
| Leaderboard.Project | src/backend/server.js:128-131 | one line per ranked row, in rank order |
| Leaderboard.Roster | src/backend/server.js:125 | `find({})` reads every stored player, each row with its stored record, in strictly increasing id order, so each player once |
| Leaderboard.Board | src/backend/server.js:450-455 | the query returns at most `limit` lines (0 is no limit), highest first, each player at most once. Each line is a stored player's line. No player left out scores higher than a listed one. A page shorter than the limit lists every player |
| Leaderboard.RankedRoster | src/backend/server.js:450-455 | the same properties for the `k` best players of a roster of the store with distinct ids |
| Leaderboard.ProjectKeepsRanking | src/backend/server.js:128-129 | projecting ranked rows to lines keeps their order, their distinct players, their origin in the store and their dominance over the players left out |
| Game.StoredDescription | src/backend/server.js:399 | the description, or '' when none is given, under the schema's trim setter: a missing description is stored as "", a given one trimmed, and the stored text is already trimmed |
| Game.Store.LoadPlayer | src/backend/server.js:51-74 | a known userId resolves to its record and nothing changes. An unknown userId creates one record under a fresh id, with coins 0, tap power 1, tap count 0, no upgrades, no squad and no claim date |
| Game.Store.Tap | src/backend/server.js:94-109 | coins grow by exactly the tap power, the tap count by exactly 1, and nothing else changes |
| Game.Store.ClaimDailyReward | src/backend/server.js:275-298 | refused with AlreadyClaimed and no change exactly when today was already claimed; otherwise +100 coins and today recorded, so a second claim the same day fails |
| Game.Store.PurchaseUpgrade | src/backend/server.js:326-371 | refused with no change for an unknown id, a second 'doubleTap' or too few coins. A name inherited from `Object.prototype` is refused as too few coins. Succeeds exactly otherwise: the cost is paid (coins stay ≥ 0), tap power is boosted and strictly rises, and the id is listed exactly once |
| Game.Store.CreateSquad | src/backend/server.js:376-417 | refused with no change for an empty name, a player with a squadId, a trimmed name already in use, or a name that trims to "". Succeeds exactly otherwise: one new squad under a fresh id, founded by the player with the trimmed name, becomes the player's squadId |
| Game.Store.JoinSquad | src/backend/server.js:156-189 | refused with no change for a player with any squadId (this squad included) or an unknown squad. Succeeds exactly otherwise: the player is listed exactly once and its squadId names the squad |
| Game.Store.LeaveSquad | src/backend/server.js:193-231 | refused with no change exactly when the player has no squadId. Otherwise the squadId is cleared in every case and the squad store becomes SquadsAfterLeave. The answer is disbanded, left, or left an unknown squad |
| Game.Store.PlayerSquad | src/backend/server.js:235-255 | returns the squad the squadId names. A squadId naming a deleted squad is cleared and reported as not found. Afterwards the player has no dangling reference. In linked stores, not found never happens |
| Game.Store.AddMember | src/backend/db.js:54-63 | answers true exactly when the player was not listed. It then appends the player and points a stored player's squadId at the squad. Otherwise nothing changes |
| Game.Store.RemoveMember | src/backend/db.js:66-77 | answers true exactly when the player was listed. It then splices out the element at `indexOf` and clears a stored player's squadId, leaving the leader as it was. Otherwise nothing changes |
| Game.CanClaimDailyReward | src/backend/server.js:264 | a reward can be claimed exactly when the stored claim day is not today; it decides the split of ClaimDailyReward |
| Game.ClaimClosesOnlyToday | src/backend/server.js:279-284 | recording a claim on today makes today unclaimable and leaves every other day claimable |
| Game.Store.TopPlayers | src/backend/server.js:448-456 | getTopPlayers: at most `limit` stored players, each at most once, highest first by the chosen metric, each with its resolved squad; no player left out ranks higher; a short page lists everyone |
| Game.Store.LeaderboardFor | src/backend/server.js:113-136 | GET /leaderboard: no more lines than the effective limit (10 by default), each player at most once, highest first by the requested metric, each line a stored player's line with its resolved squad. No player left out ranks higher, and for a missing or non-negative limit a page shorter than the limit lists everyone |

## Left out

- HTTP routing, middleware wiring, static-file serving and response bodies and status codes. Each refusal is one `Error` kind instead.
- The Socket.IO server and `broadcastLeaderboardUpdate`. This is fire-and-forget fan-out to connections, so it is transport and concurrency.
- The MongoDB connection, `populate`, `lean`, `select` and timestamps. The squad name shown on the leaderboard is a map lookup.
- Clock reads, `lastLogin` and the `/playerdata` response. "Today" is a parameter, and `Game.CanClaimDailyReward` is that response's flag.
- The unused `effect` closures in the upgrade table. The handler's own if-chain is what runs, and `Upgrades.Boost` models it.
- The `roles` `$addToSet` on the new leader. It writes a field the Player schema does not have.
- Game.Store.CreateSquad: the duplicate-key (11000) fallback is left out because it only matters for concurrent creates. A whitespace-only name, which the schema's validator refuses, is `InvalidSquad`.
- Game.Store.LoadPlayer: the fixed `MOCK_USER_ID` identity is a `userId` parameter.
- Game.Store.Tap: coins and tap counts are unbounded integers, while JavaScript numbers lose precision above 2^53. A missing `totalTaps` cannot occur, because the schema default is 0.
- Upgrades.Boost: tap power is an unbounded integer, with no floating-point overflow.
- Game.Store.PlayerSquad: returns the squad record itself. The `populate` of leader and member details is a projection that is not modelled.
- Game.Store.CreateSquad: a missing name (`undefined`) is the same as the empty name, and `description` is a missing or present string.
- Leaderboard.EffectiveLimit: takes the result of `parseInt` (None when it does not parse). Parsing the query string is not modelled.
- Leaderboard.Rank: tie order is not asserted because the code orders no ties. The code also puts no cap on the limit.
- Game.Store.TopPlayers: the default arguments of `getTopPlayers` (`'coins'`, 10) are not modelled; `limit` is a parameter. Its only live caller, the leaderboard broadcast, passes `sortBy` alone and leaves `limit` at its default 10, so 0 (no limit, as the store reads it) never reaches it.
- Leaderboard.EffectiveLimit: a negative limit asks the store for one batch of at most its absolute value, and the store may close that batch earlier. The model returns the full |n| best players and promises only the upper bound, so Game.Store.LeaderboardFor states its short-page clause only for a missing or non-negative limit.
- The read-only listings `GET /squads` and `GET /squads/:squadId`, the mock event endpoint and `/health` are outside the modelled handlers.
- Invalid ObjectId strings make Mongoose throw a cast error. Ids here are natural numbers, so that error cannot arise.
- Concurrency between requests is not modelled: every handler runs alone from start to finish.
