/** The leaderboard projection: every player, ranked by one metric from
    highest to lowest, cut to a limit, each row carrying the name of the
    squad its squadId resolves to. */
module Leaderboard {
  import opened Records

  datatype Metric = Coins | TotalTaps

  /** A stored player together with its document id. */
  datatype Row = Row(id: PlayerId, player: Player)

  datatype SquadRef = SquadRef(id: SquadId, name: string)

  /** One leaderboard line: the selected player fields, with the squad
      reference replaced by the squad's id and name (None when the player has
      no squad or the squad no longer exists). */
  datatype Entry = Entry(id: PlayerId, userId: string, coins: int, totalTaps: int, squad: Option<SquadRef>)

  const DefaultLimit: nat := 10

  /** getTopPlayers' choice of sort key: tap count for 'totalTaps', coins for
      anything else. */
  function MetricOf(sortBy: string): (m: Metric)
    ensures m == TotalTaps <==> sortBy == "totalTaps"
  {
    if sortBy == "totalTaps" then TotalTaps else Coins
  }

  /** The endpoint's `sortBy || 'coins'`: a missing or empty parameter
      becomes 'coins'. */
  function SortParam(sortBy: Option<string>): string {
    match sortBy
    case Some(s) => if s == "" then "coins" else s
    case None => "coins"
  }

  /** The metric the endpoint ranks by: tap count exactly when 'totalTaps'
      was asked for. */
  function RequestedMetric(sortBy: Option<string>): (m: Metric)
    ensures m == TotalTaps <==> sortBy == Some("totalTaps")
  {
    MetricOf(SortParam(sortBy))
  }

  /** The most rows the endpoint's `parseInt(limit) || 10` lets the store
      return: a limit that does not parse, or parses to 0, means 10; a
      positive limit is that many rows; a negative limit asks the store for
      a single batch of at most its absolute value. */
  function EffectiveLimit(parsed: Option<int>): (n: nat)
    ensures n > 0
    ensures parsed.None? || parsed == Some(0) ==> n == DefaultLimit
    ensures parsed.Some? && parsed.value > 0 ==> n == parsed.value
    ensures parsed.Some? && parsed.value < 0 ==> n == -parsed.value
  {
    match parsed
    case None => DefaultLimit
    case Some(k) => if k == 0 then DefaultLimit else if k < 0 then -k else k
  }

  function Score(r: Row, m: Metric): int {
    match m
    case Coins => r.player.coins
    case TotalTaps => r.player.totalTaps
  }

  function EntryScore(e: Entry, m: Metric): int {
    match m
    case Coins => e.coins
    case TotalTaps => e.totalTaps
  }

  ghost predicate Descending(s: seq<Row>, m: Metric) {
    forall i, j :: 0 <= i < j < |s| ==> Score(s[i], m) >= Score(s[j], m)
  }

  /** Every row of `s` scores at least as high as `x`. */
  ghost predicate AllAtLeast(s: seq<Row>, x: Row, m: Metric) {
    forall i :: 0 <= i < |s| ==> Score(x, m) <= Score(s[i], m)
  }

  /** `x` placed into a descending list, ahead of the rows it ties with. */
  function Insert(x: Row, s: seq<Row>, m: Metric): (r: seq<Row>)
    requires Descending(s, m)
    ensures Descending(r, m)
    ensures |r| == |s| + 1
    ensures multiset(r) == multiset(s) + multiset{x}
  {
    if s == [] || Score(x, m) >= Score(s[0], m) then
      [x] + s
    else
      var t := Insert(x, s[1..], m);
      assert s == [s[0]] + s[1..];
      BoundKept(s[0], s[1..], x, t, m);
      [s[0]] + t
  }

  /** Every row of `s` scores at most as high as `top`. */
  ghost predicate AllAtMost(s: seq<Row>, top: Row, m: Metric) {
    forall i :: 0 <= i < |s| ==> Score(s[i], m) <= Score(top, m)
  }

  /** Adding a row that scores no higher than `top` to rows that score no
      higher than `top` keeps them all below `top`, in any order; so a
      descending `t` stays descending behind `top`. */
  lemma {:induction false} BoundKept(top: Row, s: seq<Row>, x: Row, t: seq<Row>, m: Metric)
    requires Descending([top] + s, m) && Score(x, m) <= Score(top, m)
    requires multiset(t) == multiset(s) + multiset{x} && Descending(t, m)
    ensures AllAtMost(t, top, m)
    ensures Descending([top] + t, m)
  {
    forall k | 0 <= k < |t| ensures Score(t[k], m) <= Score(top, m) {
      assert t[k] in multiset(t);
      if t[k] != x {
        assert t[k] in multiset(s);
        var j :| 0 <= j < |s| && s[j] == t[k];
        assert ([top] + s)[0] == top && ([top] + s)[j + 1] == t[k];
      }
    }
    var r := [top] + t;
    forall i, j | 0 <= i < j < |r| ensures Score(r[i], m) >= Score(r[j], m) {
      assert r[j] == t[j - 1];
      if i > 0 {
        assert r[i] == t[i - 1];
      }
    }
  }

  /** The rows from highest to lowest score; a permutation of `s`. */
  function SortDescending(s: seq<Row>, m: Metric): (r: seq<Row>)
    ensures Descending(r, m)
    ensures |r| == |s|
    ensures multiset(r) == multiset(s)
  {
    if s == [] then []
    else
      assert s == [s[0]] + s[1..];
      Insert(s[0], SortDescending(s[1..], m), m)
  }

  /** Cutting a descending list after `k` rows leaves out only rows that
      score no higher than any row kept. */
  lemma {:induction false} PrefixOutranksRest(s: seq<Row>, k: nat, m: Metric)
    requires Descending(s, m) && k <= |s|
    ensures Descending(s[..k], m)
    ensures multiset(s[..k]) <= multiset(s)
    ensures forall x :: x in multiset(s) - multiset(s[..k]) ==> AllAtLeast(s[..k], x, m)
    ensures k == |s| ==> s[..k] == s
  {
    assert s == s[..k] + s[k..];
    assert multiset(s) == multiset(s[..k]) + multiset(s[k..]);
    forall x | x in multiset(s) - multiset(s[..k]) ensures AllAtLeast(s[..k], x, m) {
      assert x in multiset(s[k..]);
      var j :| 0 <= j < |s[k..]| && s[k..][j] == x;
      forall i | 0 <= i < k ensures Score(x, m) <= Score(s[..k][i], m) {
        assert s[..k][i] == s[i] && s[k + j] == x;
      }
    }
  }

  /** No two rows are about the same player. */
  ghost predicate DistinctIds(s: seq<Row>) {
    forall i, j :: 0 <= i < j < |s| ==> s[i].id != s[j].id
  }

  /** Rows drawn from rows about distinct players are about distinct
      players: two rows of `top` with one id would be one row of `rows`
      taken twice. */
  lemma {:induction false} DrawnKeepsDistinct(rows: seq<Row>, top: seq<Row>)
    requires multiset(top) <= multiset(rows)
    ensures DistinctIds(rows) ==> DistinctIds(top)
  {
    if DistinctIds(rows) {
      assert NoDuplicates(rows);
      forall i, j | 0 <= i < j < |top| ensures top[i].id != top[j].id {
        if top[i].id == top[j].id {
          var x := top[i];
          assert top[i] in multiset(top) && top[j] in multiset(top);
          assert top[i] in rows && top[j] in rows;
          var a :| 0 <= a < |rows| && rows[a] == top[i];
          var b :| 0 <= b < |rows| && rows[b] == top[j];
          assert a == b;
          assert top == top[..j] + top[j..];
          assert top[..j][i] == x && top[j..][0] == x;
          assert multiset(top) == multiset(top[..j]) + multiset(top[j..]);
          assert multiset(top)[x] >= 2;
          NoDuplicatesCountsOnce(rows, x);
          assert false;
        }
      }
    }
  }

  /** The ranking: the `limit` best rows by metric `m`, best first. It has
      min(limit, |rows|) rows, is descending, takes every row from `rows` at
      most as often as it appears there, and no row left out scores higher
      than a row kept. */
  function Rank(rows: seq<Row>, m: Metric, limit: nat): (r: seq<Row>)
    ensures |r| == if limit < |rows| then limit else |rows|
    ensures Descending(r, m)
    ensures multiset(r) <= multiset(rows)
    ensures forall x :: x in multiset(rows) - multiset(r) ==> AllAtLeast(r, x, m)
    ensures limit >= |rows| ==> multiset(r) == multiset(rows)
    ensures DistinctIds(rows) ==> DistinctIds(r)
  {
    var sorted := SortDescending(rows, m);
    var k := if limit < |rows| then limit else |rows|;
    PrefixOutranksRest(sorted, k, m);
    assert multiset(sorted) == multiset(rows);
    DrawnKeepsDistinct(rows, sorted[..k]);
    sorted[..k]
  }

  /** The squad shown for a player: the squad its squadId names, when that
      squad still exists. */
  function SquadOf(p: Player, squads: map<SquadId, Squad>): (l: Option<SquadRef>)
    ensures l.Some? <==> p.squadId.Some? && p.squadId.value in squads
    ensures l.Some? ==> l.value.id == p.squadId.value && l.value.name == squads[l.value.id].name
  {
    match p.squadId
    case Some(s) => if s in squads then Some(SquadRef(s, squads[s].name)) else None
    case None => None
  }

  /** A player's leaderboard line: id, userId, both scores and the squad
      its squadId resolves to. */
  function ToEntry(r: Row, squads: map<SquadId, Squad>): (e: Entry)
    ensures e.id == r.id && e.userId == r.player.userId
    ensures e.squad == SquadOf(r.player, squads)
    ensures EntryScore(e, Coins) == Score(r, Coins) && EntryScore(e, TotalTaps) == Score(r, TotalTaps)
  {
    Entry(r.id, r.player.userId, r.player.coins, r.player.totalTaps, SquadOf(r.player, squads))
  }

  /** One leaderboard line per ranked row, in rank order. */
  function Project(top: seq<Row>, squads: map<SquadId, Squad>): (es: seq<Entry>)
    ensures |es| == |top|
    ensures forall i :: 0 <= i < |top| ==> es[i] == ToEntry(top[i], squads)
  {
    seq(|top|, i requires 0 <= i < |top| => ToEntry(top[i], squads))
  }

  /** Every stored player's id is below `hi`. */
  predicate IdsBelow(players: map<PlayerId, Player>, hi: nat) {
    forall id :: id in players ==> id < hi
  }

  /** The stored players with ids below `hi`, each once, in id (creation)
      order. */
  function Roster(players: map<PlayerId, Player>, hi: nat): (rows: seq<Row>)
    ensures forall i :: 0 <= i < |rows| ==> rows[i].id < hi && rows[i].id in players && rows[i].player == players[rows[i].id]
    ensures forall id :: id in players && id < hi ==> Row(id, players[id]) in rows
    ensures forall i, j :: 0 <= i < j < |rows| ==> rows[i].id < rows[j].id
  {
    if hi == 0 then []
    else
      var prev := Roster(players, hi - 1);
      var rows := prev + (if hi - 1 in players then [Row(hi - 1, players[hi - 1])] else []);
      assert forall i :: 0 <= i < |prev| ==> rows[i] == prev[i];
      rows
  }

  /** The `Player.find({}).sort(...).limit(limit)` query with its squad
      lookup, over the players whose ids are all below `hi`: at most `limit`
      lines (0 is no limit, as the store reads it), highest first by `m`,
      each the line of a stored player; no player left out scores higher
      than a player listed, and a page shorter than `limit` lists every
      player. */
  function Board(players: map<PlayerId, Player>, squads: map<SquadId, Squad>, hi: nat, m: Metric, limit: nat): (es: seq<Entry>)
    requires IdsBelow(players, hi)
    ensures limit > 0 ==> |es| <= limit
    ensures LinesOfStore(es, players, squads)
    ensures HighestFirst(es, m)
    ensures NoneLeftOutAbove(es, players, m)
    ensures limit == 0 || |es| < limit ==> ListsEveryone(es, players)
  {
    var rows := Roster(players, hi);
    var k := if limit == 0 then |rows| else limit;
    RankedRoster(players, squads, rows, m, k);
    Project(Rank(rows, m, k), squads)
  }

  /** The lines of the `k` best rows of a roster of the store (each row a
      stored player, every stored player a row): no more than `k`,
      descending, each the line of a stored player, none outranked by a
      player left out, and everyone once the page is shorter than `k`. */
  lemma RankedRoster(players: map<PlayerId, Player>, squads: map<SquadId, Squad>, rows: seq<Row>, m: Metric, k: nat)
    requires forall i :: 0 <= i < |rows| ==> rows[i].id in players && rows[i].player == players[rows[i].id]
    requires forall id :: id in players ==> Row(id, players[id]) in rows
    requires DistinctIds(rows)
    ensures var es := Project(Rank(rows, m, k), squads);
      && |es| <= k
      && LinesOfStore(es, players, squads)
      && HighestFirst(es, m)
      && NoneLeftOutAbove(es, players, m)
      && (|es| < k || k == |rows| ==> ListsEveryone(es, players))
  {
    var top := Rank(rows, m, k);
    assert |top| < k || k == |rows| ==> multiset(top) == multiset(rows);
    ProjectKeepsRanking(players, rows, top, squads, m);
  }

  /** Projecting a ranking of the roster to lines keeps its order and its
      distinct players, makes each line the line of a stored player, and
      keeps its dominance over the players left out. */
  lemma ProjectKeepsRanking(players: map<PlayerId, Player>, rows: seq<Row>, top: seq<Row>, squads: map<SquadId, Squad>, m: Metric)
    requires forall i :: 0 <= i < |rows| ==> rows[i].id in players && rows[i].player == players[rows[i].id]
    requires forall id :: id in players ==> Row(id, players[id]) in rows
    requires Descending(top, m) && multiset(top) <= multiset(rows)
    requires forall x :: x in multiset(rows) - multiset(top) ==> AllAtLeast(top, x, m)
    requires DistinctIds(top)
    ensures var es := Project(top, squads);
      && LinesOfStore(es, players, squads)
      && HighestFirst(es, m)
      && NoneLeftOutAbove(es, players, m)
      && (multiset(top) == multiset(rows) ==> ListsEveryone(es, players))
  {
    var es := Project(top, squads);
    forall i, j | 0 <= i < j < |es| ensures EntryScore(es[i], m) >= EntryScore(es[j], m) && es[i].id != es[j].id {
      assert Score(top[i], m) >= Score(top[j], m);
    }
    forall i | 0 <= i < |es|
      ensures es[i].id in players && es[i] == ToEntry(Row(es[i].id, players[es[i].id]), squads)
    {
      assert top[i] in multiset(top);
      assert top[i] in rows;
      var j :| 0 <= j < |rows| && rows[j] == top[i];
    }
    forall id, i | id in players && id !in EntryIds(es) && 0 <= i < |es|
      ensures Score(Row(id, players[id]), m) <= EntryScore(es[i], m)
    {
      var r := Row(id, players[id]);
      assert r !in top;
      assert r in multiset(rows) - multiset(top);
      assert AllAtLeast(top, r, m);
      assert EntryScore(es[i], m) == Score(top[i], m);
    }
    if multiset(top) == multiset(rows) {
      forall id | id in players ensures id in EntryIds(es) {
        var r := Row(id, players[id]);
        assert r in multiset(top);
        var k :| 0 <= k < |top| && top[k] == r;
        assert es[k].id == id;
      }
    }
  }

  /** Each line of the page is the line of a stored player, and no player
      has two lines. */
  ghost predicate LinesOfStore(es: seq<Entry>, players: map<PlayerId, Player>, squads: map<SquadId, Squad>) {
    && (forall i, j :: 0 <= i < j < |es| ==> es[i].id != es[j].id)
    && (forall i :: 0 <= i < |es| ==> es[i].id in players && es[i] == ToEntry(Row(es[i].id, players[es[i].id]), squads))
  }

  /** The page runs from the highest score by `m` to the lowest. */
  ghost predicate HighestFirst(es: seq<Entry>, m: Metric) {
    forall i, j :: 0 <= i < j < |es| ==> EntryScore(es[i], m) >= EntryScore(es[j], m)
  }

  /** No stored player left off the page scores higher by `m` than a line
      on it. */
  ghost predicate NoneLeftOutAbove(es: seq<Entry>, players: map<PlayerId, Player>, m: Metric) {
    forall id, i :: id in players && id !in EntryIds(es) && 0 <= i < |es| ==>
      Score(Row(id, players[id]), m) <= EntryScore(es[i], m)
  }

  /** Every stored player has a line on the page. */
  ghost predicate ListsEveryone(es: seq<Entry>, players: map<PlayerId, Player>) {
    forall id :: id in players ==> id in EntryIds(es)
  }

  function EntryIds(es: seq<Entry>): (ids: set<PlayerId>)
    ensures forall i :: 0 <= i < |es| ==> es[i].id in ids
    ensures forall id :: id in ids ==> exists i :: 0 <= i < |es| && es[i].id == id
  {
    set i | 0 <= i < |es| :: es[i].id
  }
}
