/**
 * The player registry: up to four players with sequential ids, a colour
 * from a fixed palette, a running score and an "active" flag; and the
 * end-of-game winner rule.
 */
module Players {
  import opened Wrappers

  datatype Player = Player(id: nat, username: string, color: string, score: nat, isActive: bool)

  const Palette: seq<string> := ["#5383ED", "#FF6B6B", "#7C3AED", "#10B981"]

  const MaxPlayers: nat := 4

  /** Ids are 1, 2, ... in order, colours follow the palette, and there are at most four players. */
  predicate Registry(ps: seq<Player>)
  {
    && |ps| <= MaxPlayers
    && forall k :: 0 <= k < |ps| ==> ps[k].id == k + 1 && ps[k].color == Palette[k % |Palette|]
  }

  /** Exactly the player at index `i` is active. */
  predicate ActiveExactly(ps: seq<Player>, i: nat)
  {
    forall k :: 0 <= k < |ps| ==> (ps[k].isActive <==> k == i)
  }

  function ScoreSum(ps: seq<Player>): nat
  {
    if |ps| == 0 then 0 else ps[0].score + ScoreSum(ps[1..])
  }

  // ---------------------------------------------------------------------------
  // Validating a new player's name: JavaScript `String.prototype.trim`
  // ---------------------------------------------------------------------------

  /** The characters `trim` removes: ECMAScript WhiteSpace and LineTerminator. */
  predicate IsJsWhitespace(c: char)
  {
    var n := c as int;
    || n == 0x09 || n == 0x0A || n == 0x0B || n == 0x0C || n == 0x0D || n == 0x20
    || n == 0xA0 || n == 0x1680 || (0x2000 <= n <= 0x200A) || n == 0x2028 || n == 0x2029
    || n == 0x202F || n == 0x205F || n == 0x3000 || n == 0xFEFF
  }

  function TrimStart(s: string): string
  {
    if |s| > 0 && IsJsWhitespace(s[0]) then TrimStart(s[1..]) else s
  }

  function TrimEnd(s: string): string
  {
    if |s| > 0 && IsJsWhitespace(s[|s| - 1]) then TrimEnd(s[..|s| - 1]) else s
  }

  function Trim(s: string): string
  {
    TrimEnd(TrimStart(s))
  }

  predicate AllWhitespace(s: string)
  {
    forall i :: 0 <= i < |s| ==> IsJsWhitespace(s[i])
  }

  /** `name.trim()` is empty exactly when the name consists of whitespace only. */
  lemma TrimEmptyIffBlank(s: string)
    ensures Trim(s) == "" <==> AllWhitespace(s)
  {
    TrimStartBlank(s);
    var t := TrimStart(s);
    TrimEndBlank(t);
    if t != "" {
      assert !IsJsWhitespace(t[0]);
    }
  }

  lemma {:induction false} TrimStartBlank(s: string)
    ensures TrimStart(s) == "" <==> AllWhitespace(s)
    ensures TrimStart(s) != "" ==> !IsJsWhitespace(TrimStart(s)[0])
  {
    if |s| > 0 && IsJsWhitespace(s[0]) {
      TrimStartBlank(s[1..]);
      assert forall i :: 1 <= i < |s| ==> s[i] == s[1..][i - 1];
    }
  }

  lemma {:induction false} TrimEndBlank(s: string)
    ensures TrimEnd(s) == "" <==> AllWhitespace(s)
    ensures |s| > 0 && !IsJsWhitespace(s[0]) ==> TrimEnd(s) != ""
  {
    if |s| > 0 && IsJsWhitespace(s[|s| - 1]) {
      var p := s[..|s| - 1];
      TrimEndBlank(p);
      assert forall i :: 0 <= i < |p| ==> p[i] == s[i];
      if |p| > 0 { assert p[0] == s[0]; }
    }
  }

  // ---------------------------------------------------------------------------
  // Registry operations
  // ---------------------------------------------------------------------------

  datatype AddOutcome = Added | BlankName | TooManyPlayers

  /** The verdict of `addPlayer`: a blank name first, then the four-player cap. */
  function Admit(ps: seq<Player>, name: string): (r: AddOutcome)
    ensures r == BlankName <==> AllWhitespace(name)
    ensures r == TooManyPlayers <==> !AllWhitespace(name) && |ps| >= MaxPlayers
  {
    TrimEmptyIffBlank(name);
    if Trim(name) == "" then BlankName
    else if |ps| >= MaxPlayers then TooManyPlayers
    else Added
  }

  /** The registry with a new, inactive, scoreless player appended; the name is kept untrimmed. */
  function Appended(ps: seq<Player>, name: string): seq<Player>
  {
    ps + [Player(|ps| + 1, name, Palette[|ps| % |Palette|], 0, false)]
  }

  lemma AppendedKeeps(ps: seq<Player>, name: string, i: nat)
    requires Registry(ps) && |ps| < MaxPlayers && ActiveExactly(ps, i) && i < |ps|
    ensures var r := Appended(ps, name);
      && Registry(r) && ActiveExactly(r, i) && ScoreSum(r) == ScoreSum(ps)
      && |r| == |ps| + 1 && r[..|ps|] == ps
      && r[|ps|] == Player(|ps| + 1, name, Palette[|ps| % 4], 0, false)
  {
    ScoreSumAppend(ps, Appended(ps, name)[|ps|]);
  }

  lemma {:induction false} ScoreSumAppend(ps: seq<Player>, p: Player)
    ensures ScoreSum(ps + [p]) == ScoreSum(ps) + p.score
  {
    if |ps| > 0 {
      assert (ps + [p])[1..] == ps[1..] + [p];
      ScoreSumAppend(ps[1..], p);
    }
  }

  /** `players.map(p => ({...p, score: 0, isActive: p.id === 1}))` */
  function ResetPlayers(ps: seq<Player>): (r: seq<Player>)
    ensures |r| == |ps|
    ensures forall k :: 0 <= k < |ps| ==>
      && r[k].score == 0 && (r[k].isActive <==> ps[k].id == 1)
      && r[k].id == ps[k].id && r[k].username == ps[k].username && r[k].color == ps[k].color
  {
    seq(|ps|, k requires 0 <= k < |ps| => ps[k].(score := 0, isActive := ps[k].id == 1))
  }

  /** After a reset the registry is ready to play: only the first player is active and no one has a point. */
  lemma ResetPlayersReady(ps: seq<Player>)
    requires Registry(ps)
    ensures Registry(ResetPlayers(ps)) && ActiveExactly(ResetPlayers(ps), 0)
    ensures ScoreSum(ResetPlayers(ps)) == 0
  {
    ZeroSum(ResetPlayers(ps));
  }

  lemma {:induction false} ZeroSum(ps: seq<Player>)
    requires forall k :: 0 <= k < |ps| ==> ps[k].score == 0
    ensures ScoreSum(ps) == 0
  {
    if |ps| > 0 {
      assert forall k :: 0 <= k < |ps| - 1 ==> ps[1..][k] == ps[k + 1];
      ZeroSum(ps[1..]);
    }
  }

  /** The mover's score goes up by one; every other field of every player is kept. */
  function AwardPoint(ps: seq<Player>, pid: nat): (r: seq<Player>)
    ensures |r| == |ps|
    ensures forall k :: 0 <= k < |ps| ==>
      r[k] == ps[k].(score := ps[k].score + (if ps[k].id == pid then 1 else 0))
  {
    seq(|ps|, k requires 0 <= k < |ps| =>
          if ps[k].id == pid then ps[k].(score := ps[k].score + 1) else ps[k])
  }

  /** Number of players carrying id `pid`. */
  function CountId(ps: seq<Player>, pid: nat): nat
  {
    if |ps| == 0 then 0 else (if ps[0].id == pid then 1 else 0) + CountId(ps[1..], pid)
  }

  lemma {:induction false} AwardPointSum(ps: seq<Player>, pid: nat)
    ensures ScoreSum(AwardPoint(ps, pid)) == ScoreSum(ps) + CountId(ps, pid)
  {
    if |ps| > 0 {
      assert AwardPoint(ps, pid)[1..] == AwardPoint(ps[1..], pid);
      AwardPointSum(ps[1..], pid);
    }
  }

  lemma {:induction false} CountSequentialIds(ps: seq<Player>, base: nat, pid: nat)
    requires forall k :: 0 <= k < |ps| ==> ps[k].id == base + k
    ensures CountId(ps, pid) == if base <= pid < base + |ps| then 1 else 0
  {
    if |ps| > 0 {
      assert forall k :: 0 <= k < |ps| - 1 ==> ps[1..][k] == ps[k + 1];
      CountSequentialIds(ps[1..], base + 1, pid);
    }
  }

  /** Awarding a point keeps the registry and the active player, and adds exactly one to the total score. */
  lemma AwardPointKeeps(ps: seq<Player>, i: nat, a: nat)
    requires Registry(ps) && i < |ps| && ActiveExactly(ps, a)
    ensures var r := AwardPoint(ps, ps[i].id);
      && Registry(r) && ActiveExactly(r, a)
      && r[i].score == ps[i].score + 1
      && (forall k :: 0 <= k < |ps| && k != i ==> r[k] == ps[k])
      && ScoreSum(r) == ScoreSum(ps) + 1
  {
    AwardPointSum(ps, ps[i].id);
    CountSequentialIds(ps, 1, ps[i].id);
  }

  /** `players.map((p, idx) => ({...p, isActive: idx === next}))` */
  function SetActive(ps: seq<Player>, next: nat): (r: seq<Player>)
    ensures |r| == |ps| && ActiveExactly(r, next)
    ensures forall k :: 0 <= k < |ps| ==> r[k].(isActive := ps[k].isActive) == ps[k]
  {
    seq(|ps|, k requires 0 <= k < |ps| => ps[k].(isActive := k == next))
  }

  /** Handing the turn on keeps the registry and every score. */
  lemma SetActiveKeeps(ps: seq<Player>, next: nat)
    requires Registry(ps)
    ensures Registry(SetActive(ps, next)) && ScoreSum(SetActive(ps, next)) == ScoreSum(ps)
  {
    SameScoresSum(ps, SetActive(ps, next));
  }

  lemma {:induction false} SameScoresSum(ps: seq<Player>, qs: seq<Player>)
    requires |ps| == |qs| && forall k :: 0 <= k < |ps| ==> ps[k].score == qs[k].score
    ensures ScoreSum(ps) == ScoreSum(qs)
  {
    if |ps| > 0 {
      assert forall k :: 0 <= k < |ps| - 1 ==> ps[1..][k] == ps[k + 1] && qs[1..][k] == qs[k + 1];
      SameScoresSum(ps[1..], qs[1..]);
    }
  }

  // ---------------------------------------------------------------------------
  // The winner
  // ---------------------------------------------------------------------------

  /** `Math.max(...players.map(p => p.score))` */
  function MaxScore(ps: seq<Player>): (m: nat)
    requires |ps| > 0
    ensures forall k :: 0 <= k < |ps| ==> ps[k].score <= m
    ensures exists k :: 0 <= k < |ps| && ps[k].score == m
  {
    if |ps| == 1 then ps[0].score
    else
      var rest := MaxScore(ps[1..]);
      assert forall k :: 1 <= k < |ps| ==> ps[k] == ps[1..][k - 1];
      if ps[0].score >= rest then ps[0].score else rest
  }

  /** `players.filter(p => p.score === m)` */
  function WithScore(ps: seq<Player>, m: nat): seq<Player>
  {
    if |ps| == 0 then []
    else (if ps[0].score == m then [ps[0]] else []) + WithScore(ps[1..], m)
  }

  /** The one player on the highest score, or `None` when two or more share it. */
  function Winner(ps: seq<Player>): Option<Player>
    requires |ps| > 0
  {
    var winners := WithScore(ps, MaxScore(ps));
    if |winners| == 1 then Some(winners[0]) else None
  }

  lemma {:induction false} WithScoreSingle(ps: seq<Player>, m: nat, k: nat)
    requires k < |ps| && ps[k].score == m
    requires forall j :: 0 <= j < |ps| && j != k ==> ps[j].score != m
    ensures WithScore(ps, m) == [ps[k]]
  {
    if k == 0 {
      WithScoreNone(ps[1..], m);
    } else {
      assert ps[0].score != m;
      assert forall j :: 0 <= j < |ps| - 1 ==> ps[1..][j] == ps[j + 1];
      WithScoreSingle(ps[1..], m, k - 1);
    }
  }

  lemma {:induction false} WithScoreNone(ps: seq<Player>, m: nat)
    requires forall j :: 0 <= j < |ps| ==> ps[j].score != m
    ensures WithScore(ps, m) == []
  {
    if |ps| > 0 {
      assert forall j :: 0 <= j < |ps| - 1 ==> ps[1..][j] == ps[j + 1];
      WithScoreNone(ps[1..], m);
    }
  }

  lemma {:induction false} WithScoreTwo(ps: seq<Player>, m: nat, a: nat, b: nat)
    requires a < b < |ps| && ps[a].score == m && ps[b].score == m
    ensures |WithScore(ps, m)| >= 2
  {
    assert forall j :: 0 <= j < |ps| - 1 ==> ps[1..][j] == ps[j + 1];
    if a == 0 {
      WithScoreOne(ps[1..], m, b - 1);
    } else {
      WithScoreTwo(ps[1..], m, a - 1, b - 1);
    }
  }

  lemma {:induction false} WithScoreOne(ps: seq<Player>, m: nat, a: nat)
    requires a < |ps| && ps[a].score == m
    ensures |WithScore(ps, m)| >= 1
  {
    if a > 0 {
      assert ps[1..][a - 1] == ps[a];
      WithScoreOne(ps[1..], m, a - 1);
    }
  }

  /** Player `k` has a strictly higher score than every other player. */
  predicate Leads(ps: seq<Player>, k: int)
  {
    0 <= k < |ps| && forall j :: 0 <= j < |ps| && j != k ==> ps[j].score < ps[k].score
  }

  /** There is a winner exactly when one player's score beats every other player's, and then it is that player. */
  lemma WinnerIsUniqueMaximum(ps: seq<Player>)
    requires |ps| > 0
    ensures Winner(ps).Some? <==> exists k :: Leads(ps, k)
    ensures forall k :: Leads(ps, k) ==> Winner(ps) == Some(ps[k])
  {
    var m := MaxScore(ps);
    forall k | Leads(ps, k) ensures Winner(ps) == Some(ps[k]) {
      WithScoreSingle(ps, m, k);
    }
    if Winner(ps).Some? {
      var k :| 0 <= k < |ps| && ps[k].score == m;
      forall j | 0 <= j < |ps| && j != k ensures ps[j].score < ps[k].score {
        if ps[j].score == m {
          if j < k { WithScoreTwo(ps, m, j, k); } else { WithScoreTwo(ps, m, k, j); }
        }
      }
      assert Leads(ps, k);
    }
  }
}
