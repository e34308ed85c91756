/** The two stored record kinds of the game backend (the Player and Squad
    schemas), the error kinds its handlers answer with, and the list helpers
    the handlers apply to a squad's member array and a player's upgrade array. */
module Records {

  datatype Option<T> = None | Some(value: T)

  /** Every rejection a handler can answer with. Each leaves the stores as
      they were, except SquadNotFound from the player-squad lookup, which
      also clears the player's dangling squadId. */
  datatype Error =
    | AlreadyInSquad     // the player's squadId is already set
    | NotInSquad         // leaving without a squadId
    | SquadNotFound      // a squad id that does not resolve
    | NameTaken          // another squad is already stored under that name
    | NameRequired       // an empty squad name
    | InvalidSquad       // the Squad schema's validation refuses the record (a name that trims to "")
    | UpgradeNotFound    // an upgrade id missing from the catalogue
    | NotRepeatable      // 'doubleTap' bought a second time
    | InsufficientCoins  // fewer coins than the upgrade costs
    | AlreadyClaimed     // the daily reward was already claimed on that day

  datatype Result<T> = Ok(value: T) | Err(error: Error)

  /** Store-assigned document ids. */
  type PlayerId = nat
  type SquadId = nat

  /** A player document. `squadId` is a weak back-reference: the squad does
      not have to exist. Dates are 'YYYY-MM-DD' strings. */
  datatype Player = Player(
    userId: string,
    coins: int,
    tapPower: int,
    upgrades: seq<string>,
    lastDailyRewardClaimed: Option<string>,
    squadId: Option<SquadId>,
    totalTaps: int)

  /** A squad document; `members` keeps join order. */
  datatype Squad = Squad(name: string, description: string, leader: PlayerId, members: seq<PlayerId>)

  predicate NoDuplicates<T(==)>(s: seq<T>) {
    forall i, j :: 0 <= i < j < |s| ==> s[i] != s[j]
  }

  /** What every stored player satisfies: coins never negative, tap power at
      least 1, a tap count that only grows from 0, each upgrade owned once. */
  ghost predicate PlayerValid(p: Player) {
    && p.coins >= 0
    && p.tapPower >= 1
    && p.totalTaps >= 0
    && NoDuplicates(p.upgrades)
  }

  /** The record created for an unknown user: the schema defaults. */
  function NewPlayer(userId: string): (p: Player)
    ensures PlayerValid(p)
    ensures p.userId == userId && p.squadId == None
  {
    Player(userId, 0, 1, [], None, None, 0)
  }

  // ---------------------------------------------------------------------------
  // String trimming, as the schema's `trim: true` applies it to squad names
  // and descriptions (JavaScript's String.prototype.trim).

  /** JavaScript's WhiteSpace and LineTerminator code points. */
  predicate IsJsSpace(c: char) {
    var n := c as int;
    || n == 0x09 || n == 0x0A || n == 0x0B || n == 0x0C || n == 0x0D
    || n == 0x20 || n == 0xA0 || n == 0x1680 || 0x2000 <= n <= 0x200A
    || n == 0x2028 || n == 0x2029 || n == 0x202F || n == 0x205F
    || n == 0x3000 || n == 0xFEFF
  }

  /** Every character of `s` in positions [lo, hi) is white space. */
  ghost predicate SpaceBetween(s: string, lo: int, hi: int)
    requires 0 <= lo <= hi <= |s|
  {
    forall k :: lo <= k < hi ==> IsJsSpace(s[k])
  }

  /** The first position at or after `i` that is not white space (or |s|). */
  function SkipSpace(s: string, i: nat): (lo: nat)
    requires i <= |s|
    ensures i <= lo <= |s| && SpaceBetween(s, i, lo)
    ensures lo < |s| ==> !IsJsSpace(s[lo])
    decreases |s| - i
  {
    if i < |s| && IsJsSpace(s[i]) then SkipSpace(s, i + 1) else i
  }

  /** The end of the last character before `j`, and not before `lo`, that
      is not white space (or `lo`). */
  function SkipSpaceBack(s: string, lo: nat, j: nat): (hi: nat)
    requires lo <= j <= |s|
    ensures lo <= hi <= j && SpaceBetween(s, hi, j)
    ensures hi > lo ==> !IsJsSpace(s[hi - 1])
  {
    if j > lo && IsJsSpace(s[j - 1]) then SkipSpaceBack(s, lo, j - 1) else j
  }

  /** `s` without its leading and trailing white space: the slice of `s`
      from its first to its last character that is not white space;
      everything cut away is white space, and what is left neither starts
      nor ends with white space. */
  function Trim(s: string): (r: string)
    ensures var lo := SkipSpace(s, 0); var hi := SkipSpaceBack(s, lo, |s|);
      && r == s[lo..hi]
      && SpaceBetween(s, 0, lo) && SpaceBetween(s, hi, |s|)
    ensures r != [] ==> !IsJsSpace(r[0]) && !IsJsSpace(r[|r| - 1])
  {
    var lo := SkipSpace(s, 0);
    var hi := SkipSpaceBack(s, lo, |s|);
    s[lo..hi]
  }

  /** A string trims to "" exactly when it is all white space. */
  lemma {:induction false} TrimEmptyIffBlank(s: string)
    ensures Trim(s) == [] <==> SpaceBetween(s, 0, |s|)
  {
    var lo := SkipSpace(s, 0);
    var hi := SkipSpaceBack(s, lo, |s|);
    if Trim(s) != [] {
      assert !IsJsSpace(s[lo]);
    }
  }

  /** Trimming twice cuts nothing more. */
  lemma {:induction false} TrimIdempotent(s: string)
    ensures Trim(Trim(s)) == Trim(s)
  {
    var r := Trim(s);
    if r != [] {
      assert SkipSpace(r, 0) == 0;
      assert SkipSpaceBack(r, 0, |r|) == |r|;
    }
  }

  // ---------------------------------------------------------------------------
  // Array helpers with JavaScript's / Mongoose's meaning.

  /** Array.prototype.indexOf: the first position of `x`, or -1. */
  function IndexOf<T(==)>(s: seq<T>, x: T): (i: int)
    ensures -1 <= i < |s|
    ensures i == -1 <==> x !in s
    ensures 0 <= i ==> s[i] == x && x !in s[..i]
  {
    if s == [] then -1
    else if s[0] == x then 0
    else
      var k := IndexOf(s[1..], x);
      assert s[1..][..if k < 0 then 0 else k] == s[1..1 + (if k < 0 then 0 else k)];
      if k == -1 then -1 else k + 1
  }

  /** Mongoose's array `pull`: every occurrence of `x` removed, the rest in
      its original order (PullKeepsOrder). */
  function Pull<T(==, !new)>(s: seq<T>, x: T): (r: seq<T>)
    ensures |r| <= |s|
    ensures x !in r
    ensures forall y :: y != x ==> (y in r <==> y in s)
    ensures NoDuplicates(s) ==> NoDuplicates(r)
  {
    if s == [] then []
    else if s[0] == x then Pull(s[1..], x)
    else
      var t := Pull(s[1..], x);
      assert s[0] !in s[1..] ==> s[0] !in t;
      [s[0]] + t
  }

  /** On a list without repeats, pulling `x` is the splice that removes the
      one element at `indexOf(x)`; so `pull` and `removeMember`'s `splice`
      agree on member lists. */
  lemma {:induction false} PullIsSplice<T(!new)>(s: seq<T>, x: T)
    requires NoDuplicates(s) && x in s
    ensures var i := IndexOf(s, x); Pull(s, x) == s[..i] + s[i + 1..]
  {
    if s[0] != x {
      assert NoDuplicates(s[1..]);
      PullIsSplice(s[1..], x);
      var i := IndexOf(s, x);
      assert s[1..][..i - 1] + s[1..][i..] == s[1..i] + s[i + 1..];
      assert s[..i] == [s[0]] + s[1..i];
    } else {
      PullAbsent(s[1..], x);
    }
  }

  /** Pulling works element by element, so the values that stay keep their
      order: pulling from `a + b` pulls from `a` and from `b` separately,
      and a single value other than `x` stays as it is. */
  lemma {:induction false} PullKeepsOrder<T(!new)>(a: seq<T>, b: seq<T>, x: T)
    ensures Pull(a + b, x) == Pull(a, x) + Pull(b, x)
    ensures forall y :: y != x ==> Pull([y], x) == [y]
  {
    if a != [] {
      assert (a + b)[1..] == a[1..] + b;
      PullKeepsOrder(a[1..], b, x);
    } else {
      assert a + b == b;
    }
    forall y | y != x
      ensures Pull([y], x) == [y]
    {
      assert [y][1..] == [];
    }
  }

  /** Pulling a value that is not there changes nothing. */
  lemma {:induction false} PullAbsent<T(!new)>(s: seq<T>, x: T)
    requires x !in s
    ensures Pull(s, x) == s
  {
    if s != [] {
      PullAbsent(s[1..], x);
    }
  }

  /** `if (!list.includes(x)) list.push(x)`: afterwards `x` is listed and
      nothing else was added or lost; on a list without repeats `x` is listed
      exactly once. */
  function AppendAbsent<T(==, !new)>(s: seq<T>, x: T): (r: seq<T>)
    ensures x in r
    ensures forall y :: y in r <==> y in s || y == x
    ensures s <= r
    ensures NoDuplicates(s) ==> NoDuplicates(r) && multiset(r)[x] == 1
  {
    if x in s then
      assert NoDuplicates(s) ==> multiset(s)[x] == 1 by {
        if NoDuplicates(s) { NoDuplicatesCountsOnce(s, x); }
      }
      s
    else
      assert multiset(s)[x] == 0;
      s + [x]
  }

  lemma {:induction false} NoDuplicatesCountsOnce<T>(s: seq<T>, x: T)
    requires NoDuplicates(s) && x in s
    ensures multiset(s)[x] == 1
  {
    assert s == [s[0]] + s[1..];
    assert NoDuplicates(s[1..]);
    if s[0] == x {
      assert x !in s[1..];
    } else {
      NoDuplicatesCountsOnce(s[1..], x);
    }
  }
}
