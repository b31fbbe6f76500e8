/** The tournament engine of the `/event` command (src/commands/event.js).
    A guild keeps an array of events; each subcommand runs inside one
    synchronous `db.perform` callback, finds its event, mutates it in place and
    reports an outcome. Here an event is a `Tournament` object, the guild's
    array is an `EventBoard`, and each Discord reply is a result value. */
module Tournament {
  import opened Common
  import opened Sorting
  import Nestcoins

  /** `type === 'swiss'` selects the Swiss system; any other type value runs a
      single-elimination bracket. */
  datatype Format = Swiss | Elimination

  /** A pairing. `p2 == None` is a bye; `winner == None` is undecided. */
  datatype Match = Match(p1: UserId, p2: Option<UserId>, winner: Option<UserId>)

  predicate Plays(m: Match, u: UserId) {
    m.p1 == u || m.p2 == Some(u)
  }

  predicate AllDecided(ms: seq<Match>) {
    forall i :: 0 <= i < |ms| ==> ms[i].winner.Some?
  }

  // ---------------------------------------------------------------------------
  // The pairing loop

  /** What the pairing loop builds: the front two players form a match, and a
      lone leftover gets a bye that it has already won. */
  function Pair(players: seq<UserId>): seq<Match> {
    if players == [] then []
    else if |players| == 1 then [Match(players[0], None, Some(players[0]))]
    else [Match(players[0], Some(players[1]), None)] + Pair(players[2..])
  }

  /** The players of a round, match by match: p1, then p2 when present. */
  function Seated(ms: seq<Match>): seq<UserId> {
    if ms == [] then []
    else [ms[0].p1] + (if ms[0].p2.Some? then [ms[0].p2.value] else []) + Seated(ms[1..])
  }

  /** `ceil(n/2)` matches seating every player in input order. */
  lemma {:induction false} PairSeats(players: seq<UserId>)
    ensures |Pair(players)| == (|players| + 1) / 2
    ensures Seated(Pair(players)) == players
  {
    if |players| >= 2 {
      PairSeats(players[2..]);
      assert Pair(players)[1..] == Pair(players[2..]);
      assert players == [players[0], players[1]] + players[2..];
    }
  }

  /** At most one bye, and it is last; a bye is already won by its player,
      every other match is undecided. */
  lemma {:induction false} PairByes(players: seq<UserId>)
    ensures forall i :: 0 <= i < |Pair(players)| ==>
              (Pair(players)[i].p2.None? <==> |players| % 2 == 1 && i == |Pair(players)| - 1)
    ensures forall i :: 0 <= i < |Pair(players)| ==>
              Pair(players)[i].winner == (if Pair(players)[i].p2.None? then Some(Pair(players)[i].p1) else None)
  {
    if |players| >= 2 {
      PairByes(players[2..]);
      PairSeats(players);
      PairSeats(players[2..]);
      var ms, rest := Pair(players), Pair(players[2..]);
      assert forall i :: 1 <= i < |ms| ==> ms[i] == rest[i - 1];
    }
  }

  /** Every player of a duplicate-free list plays in exactly one match of the
      round, and never against themselves. */
  lemma {:induction false} PairSeatsEachOnce(players: seq<UserId>, u: UserId)
    requires NoDuplicates(players)
    ensures u in players <==> exists i :: 0 <= i < |Pair(players)| && Plays(Pair(players)[i], u)
    ensures forall i, j ::
              0 <= i < |Pair(players)| && 0 <= j < |Pair(players)| &&
              Plays(Pair(players)[i], u) && Plays(Pair(players)[j], u)
              ==> i == j
    ensures forall i :: 0 <= i < |Pair(players)| ==> Pair(players)[i].p2 != Some(Pair(players)[i].p1)
  {
    if |players| >= 2 {
      var rest := players[2..];
      assert NoDuplicates(rest) by {
        forall a, b | 0 <= a < b < |rest| ensures rest[a] != rest[b] {
          assert rest[a] == players[a + 2] && rest[b] == players[b + 2];
        }
      }
      PairSeatsEachOnce(rest, u);
      var ms, pr := Pair(players), Pair(rest);
      assert |ms| == |pr| + 1;
      assert ms[0] == Match(players[0], Some(players[1]), None);
      assert forall i :: 1 <= i < |ms| ==> ms[i] == pr[i - 1];
      assert players == [players[0], players[1]] + rest;
      assert players[0] != players[1];
      assert players[0] !in rest && players[1] !in rest by {
        forall a | 0 <= a < |rest| ensures rest[a] != players[0] && rest[a] != players[1] {
          assert rest[a] == players[a + 2];
        }
      }
      if u in players {
        if u == players[0] || u == players[1] {
          assert Plays(ms[0], u);
        } else {
          var i :| 0 <= i < |pr| && Plays(pr[i], u);
          assert Plays(ms[i + 1], u);
        }
      }
      forall i | 0 <= i < |ms| && Plays(ms[i], u) ensures u in players {
        if i > 0 {
          assert Plays(pr[i - 1], u);
        }
      }
      forall i, j | 0 <= i < |ms| && 0 <= j < |ms| && Plays(ms[i], u) && Plays(ms[j], u) ensures i == j {
        if i > 0 && j > 0 {
          assert Plays(pr[i - 1], u) && Plays(pr[j - 1], u);
        }
      }
    } else if u in players {
      assert u == players[0];
      assert Pair(players) == [Match(players[0], None, Some(players[0]))];
      assert Plays(Pair(players)[0], u);
    }
  }

  /** The while loop over `players`: shift two players into a match, or pop
      the last one into a bye. */
  method BuildMatches(players: seq<UserId>) returns (ms: seq<Match>)
    ensures ms == Pair(players)
  {
    var rest := players;
    ms := [];
    while |rest| > 0
      invariant ms + Pair(rest) == Pair(players)
      decreases |rest|
    {
      if |rest| == 1 {
        var p1 := rest[|rest| - 1];
        rest := rest[..|rest| - 1];
        ms := ms + [Match(p1, None, Some(p1))];
      } else {
        var p1 := rest[0];
        var p2 := rest[1];
        rest := rest[2..];
        ms := ms + [Match(p1, Some(p2), None)];
      }
    }
  }

  /** The Fisher-Yates shuffle of the elimination pool. `Math.random` is
      replaced by caller-chosen draws: step k swaps position i with
      `draws[k] % (i + 1)`, so every swap the source can make is available. */
  method Shuffle(pool: seq<UserId>, draws: seq<nat>) returns (players: seq<UserId>)
    ensures |players| == |pool|
    ensures multiset(players) == multiset(pool)
  {
    players := pool;
    var i := |players| - 1;
    var k := 0;
    while i > 0
      invariant -1 <= i < |players| || (players == [] && i == -1)
      invariant |players| == |pool|
      invariant multiset(players) == multiset(pool)
    {
      var j := if k < |draws| then draws[k] % (i + 1) else 0;
      var a, b := players[i], players[j];
      players := players[i := b][j := a];
      i := i - 1;
      k := k + 1;
    }
  }

  // ---------------------------------------------------------------------------
  // Standings (calculateStandings)

  datatype Standing = Standing(id: UserId, score: int, buchholz: int)

  /** `scores[id] || 0`. */
  function ScoreOf(scores: map<UserId, int>, p: UserId): int {
    if p in scores then scores[p] else 0
  }

  /** What one match adds to p's Buchholz: the current score of p's opponent;
      byes add nothing to either side. */
  function MatchBuchholz(m: Match, p: UserId, scores: map<UserId, int>): int {
    if m.p2.None? then 0
    else
      (if m.p1 == p then ScoreOf(scores, m.p2.value) else 0)
      + (if m.p2.value == p then ScoreOf(scores, m.p1) else 0)
  }

  function RoundBuchholz(round: seq<Match>, p: UserId, scores: map<UserId, int>): int {
    if round == [] then 0
    else RoundBuchholz(round[..|round| - 1], p, scores) + MatchBuchholz(round[|round| - 1], p, scores)
  }

  function Buchholz(rounds: seq<seq<Match>>, p: UserId, scores: map<UserId, int>): int {
    if rounds == [] then 0
    else Buchholz(rounds[..|rounds| - 1], p, scores) + RoundBuchholz(rounds[|rounds| - 1], p, scores)
  }

  /** The archived rounds followed by the current one, if any. */
  function PlayedRounds(history: seq<seq<Match>>, matches: Option<seq<Match>>): seq<seq<Match>> {
    history + (if matches.Some? then [matches.value] else [])
  }

  function StandingKey(s: Standing): Key {
    (s.score, s.buchholz)
  }

  /** One unsorted row per participant, in participant order. */
  function Rows(participants: seq<UserId>, scores: map<UserId, int>, rounds: seq<seq<Match>>): seq<Standing> {
    seq(|participants|, i requires 0 <= i < |participants| =>
      Standing(participants[i], ScoreOf(scores, participants[i]), Buchholz(rounds, participants[i], scores)))
  }

  /** calculateStandings: one row per current participant with its score (0 when
      unset) and its Buchholz over all played rounds, ordered by score, then
      Buchholz, both descending. */
  function Standings(participants: seq<UserId>, scores: map<UserId, int>, rounds: seq<seq<Match>>): (r: seq<Standing>)
    ensures |r| == |participants|
    ensures multiset(r) == multiset(Rows(participants, scores, rounds))
    ensures forall i :: 0 <= i < |r| ==>
              r[i].id in participants && r[i].score == ScoreOf(scores, r[i].id)
              && r[i].buchholz == Buchholz(rounds, r[i].id, scores)
    ensures forall p :: p in participants ==> exists i :: 0 <= i < |r| && r[i].id == p
    ensures Descending(r, StandingKey)
  {
    var rows := Rows(participants, scores, rounds);
    SortPermutes(rows, StandingKey);
    SortIsDescending(rows, StandingKey);
    var r := SortDesc(rows, StandingKey);
    forall i | 0 <= i < |r|
      ensures r[i].id in participants && r[i].score == ScoreOf(scores, r[i].id)
      ensures r[i].buchholz == Buchholz(rounds, r[i].id, scores)
    {
      assert r[i] in multiset(rows);
      var j :| 0 <= j < |rows| && rows[j] == r[i];
    }
    forall p | p in participants ensures exists i :: 0 <= i < |r| && r[i].id == p {
      var j :| 0 <= j < |participants| && participants[j] == p;
      assert rows[j] in multiset(r);
      var i :| 0 <= i < |r| && r[i] == rows[j];
    }
    r
  }

  /** Rows with equal score and Buchholz keep participant order. */
  lemma StandingsTiesKeepOrder(participants: seq<UserId>, scores: map<UserId, int>, rounds: seq<seq<Match>>, k: Key)
    ensures WithKey(Standings(participants, scores, rounds), StandingKey, k)
         == WithKey(Rows(participants, scores, rounds), StandingKey, k)
  {
    SortIsStable(Rows(participants, scores, rounds), StandingKey, k);
  }

  // ---------------------------------------------------------------------------
  // Swiss ordering and the elimination pool

  function SwissKey(scores: map<UserId, int>): UserId -> Key {
    (p: UserId) => (ScoreOf(scores, p), 0)
  }

  /** Swiss pairing order: participants by descending score, stable. */
  function SwissOrder(participants: seq<UserId>, scores: map<UserId, int>): (r: seq<UserId>)
    ensures multiset(r) == multiset(participants)
    ensures forall i, j :: 0 <= i < j < |r| ==> ScoreOf(scores, r[i]) >= ScoreOf(scores, r[j])
  {
    SortPermutes(participants, SwissKey(scores));
    SortIsDescending(participants, SwissKey(scores));
    SortDesc(participants, SwissKey(scores))
  }

  /** Players with equal scores keep participant (join) order. */
  lemma SwissTiesKeepJoinOrder(participants: seq<UserId>, scores: map<UserId, int>, s: int)
    ensures WithKey(SwissOrder(participants, scores), SwissKey(scores), (s, 0))
         == WithKey(participants, SwissKey(scores), (s, 0))
  {
    SortIsStable(participants, SwissKey(scores), (s, 0));
  }

  /** With every score equal (the first round), the order is the join order. */
  lemma SwissFirstRoundIsJoinOrder(participants: seq<UserId>, scores: map<UserId, int>)
    requires forall p :: p in participants ==> ScoreOf(scores, p) == 0
    ensures SwissOrder(participants, scores) == participants
  {
    SortOfTies(participants, SwissKey(scores), (0, 0));
  }

  /** Every participant gets a score entry; existing entries are kept. */
  function FillScores(scores: map<UserId, int>, participants: seq<UserId>): (r: map<UserId, int>)
    ensures r.Keys == scores.Keys + set p | p in participants
    ensures forall p :: p in r ==> r[p] == ScoreOf(scores, p)
  {
    map p | p in scores.Keys + (set q | q in participants) :: ScoreOf(scores, p)
  }

  /** The non-null winners of a round, in match order. */
  function Winners(ms: seq<Match>): (r: seq<UserId>)
    ensures AllDecided(ms) ==> |r| == |ms|
    ensures forall u :: u in r <==> exists i :: 0 <= i < |ms| && ms[i].winner == Some(u)
  {
    if ms == [] then []
    else
      var rest := Winners(ms[1..]);
      assert forall i :: 1 <= i < |ms| ==> ms[1..][i - 1] == ms[i];
      (if ms[0].winner.Some? then [ms[0].winner.value] else []) + rest
  }

  /** The elimination pool for the next round: all participants on the first
      round, afterwards the winners of the round just archived. */
  function NextPool(activePlayers: Option<seq<UserId>>, matches: Option<seq<Match>>, participants: seq<UserId>): seq<UserId> {
    if activePlayers.None? then participants
    else if matches.Some? then Winners(matches.value)
    else activePlayers.value
  }

  // ---------------------------------------------------------------------------
  // Completion and payouts

  /** The tournament ends with the round just completed: for Swiss when it was
      the last scheduled round, for elimination when it had a single match. */
  predicate Completes(format: Format, archived: nat, rounds: int, roundSize: nat) {
    if format == Swiss then archived + 1 >= rounds else roundSize == 1
  }

  datatype Payout = Payout(recipient: Option<UserId>, amount: int)

  /** The loser of a decided match: `m.p1 === m.winner ? m.p2 : m.p1`. */
  function LoserOf(m: Match): Option<UserId>
    requires m.winner.Some?
  {
    if m.p1 == m.winner.value then m.p2 else Some(m.p1)
  }

  /** Third places of an elimination: the non-null loser of every decided
      match of the given round, in match order. */
  function Losers(round: seq<Match>): (r: seq<UserId>)
    ensures |r| <= |round|
    ensures forall u :: u in r <==> exists i :: 0 <= i < |round| && round[i].winner.Some? && LoserOf(round[i]) == Some(u)
  {
    if round == [] then []
    else
      var m := round[0];
      var rest := Losers(round[1..]);
      assert forall i :: 1 <= i < |round| ==> round[1..][i - 1] == round[i];
      var head := if m.winner.Some? && LoserOf(m).Some? then [LoserOf(m).value] else [];
      assert forall u :: u in head <==> m.winner.Some? && LoserOf(m) == Some(u);
      head + rest
  }

  /** In a played match with two distinct players, won by one of them, the
      loser is the other player. */
  lemma LoserIsOpponent(m: Match)
    requires m.p2.Some? && m.p2.value != m.p1
    requires m.winner == Some(m.p1) || m.winner == m.p2
    ensures LoserOf(m).Some? && Plays(m, LoserOf(m).value) && Some(LoserOf(m).value) != m.winner
  {
  }

  /** 100% of the prize, then floor(prize/2), then floor(prize/4) for each third
      place; `Math.floor(p * 0.5)` is Dafny's floor division by 2. */
  function Payouts(prize: int, first: Option<UserId>, second: Option<UserId>, thirds: seq<UserId>): (r: seq<Payout>)
    ensures |r| == 1 + (if second.Some? then 1 else 0) + |thirds|
    ensures r[0] == Payout(first, prize)
    ensures second.Some? ==> r[1] == Payout(second, prize / 2)
    ensures forall i :: 0 <= i < |thirds| ==> r[|r| - |thirds| + i] == Payout(Some(thirds[i]), prize / 4)
  {
    [Payout(first, prize)]
    + (if second.Some? then [Payout(second, prize / 2)] else [])
    + seq(|thirds|, i requires 0 <= i < |thirds| => Payout(Some(thirds[i]), prize / 4))
  }

  /** The placements at the end: Swiss takes the first three rows of the
      standings; elimination pays the final's winner and loser and every loser
      of the last archived round. */
  function FinalPayouts(format: Format, prize: int, participants: seq<UserId>, scores: map<UserId, int>,
                        history: seq<seq<Match>>, round: seq<Match>, winner: UserId, loser: Option<UserId>): seq<Payout>
  {
    if format == Swiss then
      var st := Standings(participants, scores, PlayedRounds(history, Some(round)));
      Payouts(prize,
              if |st| > 0 then Some(st[0].id) else None,
              if |st| > 1 then Some(st[1].id) else None,
              if |st| > 2 then [st[2].id] else [])
    else
      Payouts(prize, Some(winner), loser, if |history| > 0 then Losers(history[|history| - 1]) else [])
  }

  /** A three-player bracket: the first round pairs a and b and gives c a bye.
      After c beats a in the final, b, the first-round loser, is paid the
      third-place share although no semifinal was played. */
  lemma ThreePlayerBracketPaysFirstRoundLoser(a: UserId, b: UserId, c: UserId, prize: int)
    requires a != b && a != c && b != c
    ensures var round1 := [Match(a, Some(b), Some(a)), Match(c, None, Some(c))];
            var final := [Match(a, Some(c), Some(c))];
            FinalPayouts(Elimination, prize, [a, b, c], map[], [round1], final, c, Some(a))
            == [Payout(Some(c), prize), Payout(Some(a), prize / 2), Payout(Some(b), prize / 4)]
  {
    var round1 := [Match(a, Some(b), Some(a)), Match(c, None, Some(c))];
    assert Losers(round1[1..]) == [];
    assert Losers(round1) == [b];
  }

  // ---------------------------------------------------------------------------
  // Subcommand outcomes

  datatype JoinResult = AddNotAdmin | NoSuchEvent | Joined | AlreadyRegistered | Full
  datatype LeaveResult = NoEvent | Left | NotRegistered
  datatype FinishResult = FinishNotAdmin | NoEventToFinish | Finished(prize: int, balance: int)
  datatype PairingResult =
    | PairingNotAdmin
    | NoEventToPair
    | RoundInProgress
    | TournamentOver
    | NotEnoughPlayers
    | Champion(sole: Option<UserId>)
    | Paired(order: seq<UserId>, round: seq<Match>)
  datatype WinResult =
    | WinNotAdmin
    | NoEventToScore
    | NoActiveRound
    | AlreadyDecided(winner: UserId)
    | NotPlaying
    | Won(loser: Option<UserId>, roundOver: bool, payouts: Option<seq<Payout>>)

  /** The position of the first match that u plays in (and that is still
      undecided, when `openOnly`), or -1: `matches.find(...)`. */
  function FindMatch(ms: seq<Match>, u: UserId, openOnly: bool): (k: int)
    ensures -1 <= k < |ms|
    ensures k >= 0 ==> Plays(ms[k], u) && (openOnly ==> ms[k].winner.None?)
    ensures forall j :: 0 <= j < |ms| && (k == -1 || j < k) ==> !(Plays(ms[j], u) && (openOnly ==> ms[j].winner.None?))
  {
    if ms == [] then -1
    else if Plays(ms[0], u) && (openOnly ==> ms[0].winner.None?) then 0
    else
      var k := FindMatch(ms[1..], u, openOnly);
      assert forall j :: 1 <= j < |ms| ==> ms[1..][j - 1] == ms[j];
      if k == -1 then -1 else k + 1
  }

  /** `x || d` on an optional integer option. */
  function OrDefault(o: Option<int>, d: int): int {
    if o.Some? && o.value != 0 then o.value else d
  }

  // ---------------------------------------------------------------------------
  // One event

  class Tournament {
    const id: int
    const name: string
    const prize: int
    const format: Format
    /** 0 (or negative) means unlimited. */
    const limit: int
    /** Number of Swiss rounds; 0 for elimination. */
    const rounds: int
    var participants: seq<UserId>
    var active: bool
    var history: seq<seq<Match>>
    var scores: map<UserId, int>
    /** The current round; absent until the first pairing. */
    var matches: Option<seq<Match>>
    /** The elimination pool; absent until the first elimination pairing. */
    var activePlayers: Option<seq<UserId>>

    ghost predicate Valid()
      reads this
    {
      NoDuplicates(participants) && (limit > 0 ==> |participants| <= limit)
    }

    /** create: `rounds` is kept only for a Swiss event. */
    constructor (id: int, name: string, prize: int, format: Format, limit: int, rounds: int)
      ensures Valid()
      ensures this.id == id && this.name == name && this.prize == prize && this.format == format
      ensures this.limit == limit && this.rounds == (if format == Swiss then rounds else 0)
      ensures participants == [] && active && history == [] && scores == map[]
      ensures matches == None && activePlayers == None
    {
      this.id := id;
      this.name := name;
      this.prize := prize;
      this.format := format;
      this.limit := limit;
      this.rounds := if format == Swiss then rounds else 0;
      participants := [];
      active := true;
      history := [];
      scores := map[];
      matches := None;
      activePlayers := None;
    }

    twostate predicate JoinStep(u: UserId, r: JoinResult)
      reads this
    {
      && r != NoSuchEvent && r != AddNotAdmin
      && (r == AlreadyRegistered <==> u in old(participants))
      && (r == Full <==> u !in old(participants) && limit > 0 && |old(participants)| >= limit)
      && (r == Joined <==> !(u in old(participants)) && !(limit > 0 && |old(participants)| >= limit))
      && participants == (if r == Joined then old(participants) + [u] else old(participants))
      && active == old(active) && history == old(history) && scores == old(scores)
      && matches == old(matches) && activePlayers == old(activePlayers)
    }

    /** join / add-user on a found, active event. */
    method Register(u: UserId) returns (r: JoinResult)
      requires Valid()
      modifies this
      ensures Valid() && JoinStep(u, r)
    {
      if u in participants {
        return AlreadyRegistered;
      }
      if limit > 0 && |participants| >= limit {
        return Full;
      }
      participants := participants + [u];
      r := Joined;
    }

    twostate predicate LeaveStep(u: UserId, r: LeaveResult)
      reads this
    {
      && r != NoEvent
      && (r == NotRegistered <==> u !in old(participants))
      && (r == Left <==> u in old(participants))
      && (r == Left ==> participants == RemoveAt(old(participants), IndexOf(old(participants), u)))
      && (r == NotRegistered ==> participants == old(participants))
      && active == old(active) && history == old(history) && scores == old(scores)
      && matches == old(matches) && activePlayers == old(activePlayers)
    }

    /** leave: `indexOf` then `splice(idx, 1)`. */
    method Withdraw(u: UserId) returns (r: LeaveResult)
      requires Valid()
      modifies this
      ensures Valid() && LeaveStep(u, r)
      ensures r == Left ==> u !in participants && forall v :: v in participants <==> v in old(participants) && v != u
    {
      var idx := IndexOf(participants, u);
      if idx == -1 {
        return NotRegistered;
      }
      RemoveAtNoDuplicates(participants, idx);
      participants := RemoveAt(participants, idx);
      r := Left;
    }

    /** finish: the event is closed and its prize reported for payout. */
    method Close() returns (payout: int)
      modifies this
      ensures payout == prize && !active
      ensures participants == old(participants) && history == old(history) && scores == old(scores)
      ensures matches == old(matches) && activePlayers == old(activePlayers)
    {
      active := false;
      payout := prize;
    }

    twostate predicate PairingStep(r: PairingResult)
      reads this
    {
      var busy := old(matches).Some? && !AllDecided(old(matches).value);
      && !r.NoEventToPair? && !r.PairingNotAdmin?
      && (r.RoundInProgress? <==> busy)
      && (busy ==> history == old(history) && scores == old(scores) && matches == old(matches)
                   && activePlayers == old(activePlayers))
      // The previous round is archived before any other check.
      && (!busy ==> history == old(history) + (if old(matches).Some? then [old(matches).value] else []))
      && participants == old(participants) && active == old(active)
      && (r.Paired? ==> matches == Some(r.round) && r.round == Pair(r.order))
      && (!r.Paired? ==> matches == old(matches))
      && (format == Swiss ==>
            && activePlayers == old(activePlayers)
            && !r.NotEnoughPlayers? && !r.Champion?
            && (!busy ==> scores == FillScores(old(scores), participants))
            && (!busy ==> (r.TournamentOver? <==> |history| + 1 > rounds))
            && (r.Paired? ==> r.order == SwissOrder(participants, scores)))
      && (format == Elimination ==>
            && scores == old(scores) && !r.TournamentOver?
            && (r.NotEnoughPlayers? <==> !busy && old(activePlayers).None? && |participants| < 2)
            && (r.NotEnoughPlayers? ==> activePlayers == old(activePlayers))
            && (!busy && !r.NotEnoughPlayers? ==>
                  activePlayers == Some(NextPool(old(activePlayers), old(matches), participants)))
            && (r.Champion? <==> !busy && !r.NotEnoughPlayers? && |activePlayers.value| < 2)
            && (r.Champion? ==> r.sole == (if |activePlayers.value| > 0 then Some(activePlayers.value[0]) else None))
            && (r.Paired? ==> multiset(r.order) == multiset(activePlayers.value)))
    }

    /** pairings on a found, active event. `draws` stands for the random
        numbers of the elimination shuffle. */
    method Pairings(draws: seq<nat>) returns (r: PairingResult)
      modifies this
      ensures PairingStep(r)
    {
      if matches.Some? && !AllDecided(matches.value) {
        return RoundInProgress;
      }
      if matches.Some? {
        history := history + [matches.value];
      }
      if format == Swiss {
        r := PairSwiss();
      } else {
        r := PairElimination(draws);
      }
    }

    /** The Swiss half of pairings, once the previous round is archived. */
    twostate predicate SwissRound(r: PairingResult)
      reads this
    {
      && participants == old(participants) && active == old(active) && history == old(history)
      && activePlayers == old(activePlayers)
      && scores == FillScores(old(scores), participants)
      && (r.TournamentOver? || r.Paired?)
      && (r.TournamentOver? <==> |history| + 1 > rounds)
      && (r.Paired? ==> matches == Some(r.round) && r.round == Pair(r.order)
                        && r.order == SwissOrder(participants, scores))
      && (!r.Paired? ==> matches == old(matches))
    }

    method PairSwiss() returns (r: PairingResult)
      requires format == Swiss
      modifies this
      ensures SwissRound(r)
    {
      scores := FillScores(scores, participants);
      if |history| + 1 > rounds {
        return TournamentOver;
      }
      var players := SwissOrder(participants, scores);
      var round := BuildMatches(players);
      matches := Some(round);
      r := Paired(players, round);
    }

    /** The elimination half of pairings, once the previous round is archived
        (which leaves `matches` as it was). */
    twostate predicate EliminationRound(r: PairingResult)
      reads this
    {
      && participants == old(participants) && active == old(active) && history == old(history)
      && scores == old(scores)
      && (r.NotEnoughPlayers? || r.Champion? || r.Paired?)
      && (r.NotEnoughPlayers? <==> old(activePlayers).None? && |participants| < 2)
      && (r.NotEnoughPlayers? ==> activePlayers == old(activePlayers))
      && (!r.NotEnoughPlayers? ==> activePlayers == Some(NextPool(old(activePlayers), old(matches), participants)))
      && (r.Champion? <==> !r.NotEnoughPlayers? && |activePlayers.value| < 2)
      && (r.Champion? ==> r.sole == (if |activePlayers.value| > 0 then Some(activePlayers.value[0]) else None))
      && (r.Paired? ==> matches == Some(r.round) && r.round == Pair(r.order)
                        && multiset(r.order) == multiset(activePlayers.value))
      && (!r.Paired? ==> matches == old(matches))
    }

    method PairElimination(draws: seq<nat>) returns (r: PairingResult)
      requires format == Elimination
      modifies this
      ensures EliminationRound(r)
    {
      if activePlayers.None? {
        if |participants| < 2 {
          return NotEnoughPlayers;
        }
        activePlayers := Some(participants);
      } else if matches.Some? {
        activePlayers := Some(Winners(matches.value));
      }
      var pool := activePlayers.value;
      if |pool| < 2 {
        return Champion(if |pool| > 0 then Some(pool[0]) else None);
      }
      var players := Shuffle(pool, draws);
      var round := BuildMatches(players);
      matches := Some(round);
      r := Paired(players, round);
    }

    twostate predicate WinStep(u: UserId, r: WinResult)
      reads this
    {
      var none := old(matches).None? || old(matches).value == [];
      && (r.NoActiveRound? <==> none)
      && (r.NotPlaying? <==> !none && forall i :: 0 <= i < |old(matches).value| ==> !Plays(old(matches).value[i], u))
      && (r.AlreadyDecided? <==> !none && FindMatch(old(matches).value, u, true) == -1
                                 && FindMatch(old(matches).value, u, false) >= 0)
      && (r.AlreadyDecided? ==> Some(r.winner) == old(matches).value[FindMatch(old(matches).value, u, false)].winner)
      && (!r.Won? ==> participants == old(participants) && active == old(active) && history == old(history)
                      && scores == old(scores) && matches == old(matches))
      && activePlayers == old(activePlayers) && participants == old(participants) && history == old(history)
      && !r.NoEventToScore? && !r.WinNotAdmin?
      && (r.Won? ==>
            var ms := old(matches).value;
            var k := FindMatch(ms, u, true);
            var decided := ms[k := ms[k].(winner := Some(u))];
            && 0 <= k
            && matches == Some(decided)
            && r.loser == (if ms[k].p1 == u then ms[k].p2 else Some(ms[k].p1))
            && scores == (if format == Swiss then old(scores)[u := ScoreOf(old(scores), u) + 1] else old(scores))
            && r.roundOver == AllDecided(decided)
            && (r.payouts.Some? <==> r.roundOver && Completes(format, |history|, rounds, |decided|))
            && active == (old(active) && r.payouts.None?)
            && (r.payouts.Some? ==>
                  r.payouts.value == FinalPayouts(format, prize, participants, scores, history, decided, u, r.loser)))
    }

    /** win on a found, active event: record u as the winner of their first
        undecided match, score a Swiss point, and detect the end of the round
        and of the tournament. */
    method Win(u: UserId) returns (r: WinResult)
      modifies this
      ensures WinStep(u, r)
    {
      if matches.None? || |matches.value| == 0 {
        return NoActiveRound;
      }
      var ms := matches.value;
      var k := FindMatch(ms, u, true);
      if k < 0 {
        var j := FindMatch(ms, u, false);
        if j >= 0 {
          return AlreadyDecided(ms[j].winner.value);
        }
        return NotPlaying;
      }
      var loser := if ms[k].p1 == u then ms[k].p2 else Some(ms[k].p1);
      ms := ms[k := ms[k].(winner := Some(u))];
      matches := Some(ms);
      if format == Swiss {
        scores := scores[u := ScoreOf(scores, u) + 1];
      }
      var roundOver := AllDecided(ms);
      var payouts: Option<seq<Payout>> := None;
      if roundOver && Completes(format, |history|, rounds, |ms|) {
        active := false;
        payouts := Some(FinalPayouts(format, prize, participants, scores, history, ms, u, loser));
      }
      r := Won(loser, roundOver, payouts);
    }

    /** standings: the table over the archived rounds and the current one. */
    function CurrentStandings(): (r: seq<Standing>)
      reads this
      ensures |r| == |participants| && Descending(r, StandingKey)
    {
      Standings(participants, scores, PlayedRounds(history, matches))
    }
  }

  // ---------------------------------------------------------------------------
  // Paying out

  /** `addCoins(guildId, p.id, p.amount)` for a payout without a recipient
      writes under the key "undefined". */
  function Recipient(p: Payout): UserId {
    if p.recipient.Some? then p.recipient.value else "undefined"
  }

  /** The wallet after crediting every payout in order. */
  function CreditAll(w: Nestcoins.Wallet, payouts: seq<Payout>): (r: Nestcoins.Wallet)
    requires UniqueKeys(w)
    ensures UniqueKeys(r)
    decreases |payouts|
  {
    if payouts == [] then w
    else CreditAll(Nestcoins.Credit(w, Recipient(payouts[0]), payouts[0].amount).0, payouts[1..])
  }

  /** The total paid to v. */
  function PaidTo(payouts: seq<Payout>, v: UserId): int
    decreases |payouts|
  {
    if payouts == [] then 0
    else (if Recipient(payouts[0]) == v then payouts[0].amount else 0) + PaidTo(payouts[1..], v)
  }

  /** Non-negative payouts raise each user's balance by exactly what was paid
      to them; the entry of a user who is paid nothing is untouched. */
  lemma {:induction false} CreditAllPays(w: Nestcoins.Wallet, payouts: seq<Payout>, v: UserId)
    requires UniqueKeys(w)
    requires Nestcoins.BalanceIn(w, v) >= 0
    requires forall i :: 0 <= i < |payouts| ==> payouts[i].amount >= 0
    ensures Nestcoins.BalanceIn(CreditAll(w, payouts), v) == Nestcoins.BalanceIn(w, v) + PaidTo(payouts, v)
    ensures (forall i :: 0 <= i < |payouts| ==> Recipient(payouts[i]) != v) ==> Lookup(CreditAll(w, payouts), v) == Lookup(w, v)
    decreases |payouts|
  {
    if payouts != [] {
      var p := payouts[0];
      var w' := Nestcoins.Credit(w, Recipient(p), p.amount).0;
      CreditOne(w, Recipient(p), p.amount, v);
      assert forall i :: 0 <= i < |payouts[1..]| ==> payouts[1..][i] == payouts[i + 1];
      PaidToNonNegative(payouts[1..], v);
      CreditAllPays(w', payouts[1..], v);
    }
  }

  /** One credit, seen from user v. */
  lemma CreditOne(w: Nestcoins.Wallet, u: UserId, amount: int, v: UserId)
    requires UniqueKeys(w)
    requires Nestcoins.BalanceIn(w, v) >= 0 && amount >= 0
    ensures u == v ==> Nestcoins.BalanceIn(Nestcoins.Credit(w, u, amount).0, v) == Nestcoins.BalanceIn(w, v) + amount
    ensures u != v ==> Lookup(Nestcoins.Credit(w, u, amount).0, v) == Lookup(w, v)
  {
  }

  lemma {:induction false} PaidToNonNegative(payouts: seq<Payout>, v: UserId)
    requires forall i :: 0 <= i < |payouts| ==> payouts[i].amount >= 0
    ensures PaidTo(payouts, v) >= 0
    decreases |payouts|
  {
    if payouts != [] {
      assert forall i :: 0 <= i < |payouts[1..]| ==> payouts[1..][i] == payouts[i + 1];
      PaidToNonNegative(payouts[1..], v);
    }
  }

  /** The ledger part of win: the payouts of a finished tournament, if any. */
  method PayWinners(ledger: Nestcoins.Ledger, g: GuildId, r: WinResult)
    requires ledger.Valid()
    modifies ledger
    ensures ledger.Valid()
    ensures r.Won? && r.payouts.Some? ==> ledger.WalletOf(g) == CreditAll(old(ledger.WalletOf(g)), r.payouts.value)
    ensures !(r.Won? && r.payouts.Some?) ==> ledger.wallets == old(ledger.wallets)
  {
    if r.Won? && r.payouts.Some? {
      ApplyPayouts(ledger, g, r.payouts.value);
    }
  }

  /** A second write to a key replaces the first. */
  lemma UpdateTwice<K, V>(m: map<K, V>, k: K, a: V, b: V)
    ensures m[k := a][k := b] == m[k := b]
  {
  }

  /** Crediting the payouts from position i on is crediting payout i, then
      the ones after it. */
  lemma CreditAllStep(w: Nestcoins.Wallet, payouts: seq<Payout>, i: nat)
    requires UniqueKeys(w) && i < |payouts|
    ensures CreditAll(w, payouts[i..])
         == CreditAll(Nestcoins.Credit(w, Recipient(payouts[i]), payouts[i].amount).0, payouts[i + 1..])
  {
    assert payouts[i..][1..] == payouts[i + 1..];
  }

  /** `for (const p of payouts) nestcoins.addCoins(guildId, p.id, p.amount)`. */
  method ApplyPayouts(ledger: Nestcoins.Ledger, g: GuildId, payouts: seq<Payout>)
    requires ledger.Valid()
    modifies ledger
    ensures ledger.Valid()
    ensures ledger.WalletOf(g) == CreditAll(old(ledger.WalletOf(g)), payouts)
    ensures ledger.wallets == if payouts == [] then old(ledger.wallets)
                              else old(ledger.wallets)[g := ledger.WalletOf(g)]
  {
    var i := 0;
    while i < |payouts|
      invariant 0 <= i <= |payouts|
      invariant ledger.Valid()
      invariant UniqueKeys(ledger.WalletOf(g))
      invariant CreditAll(ledger.WalletOf(g), payouts[i..]) == CreditAll(old(ledger.WalletOf(g)), payouts)
      invariant i == 0 ==> ledger.wallets == old(ledger.wallets)
      invariant i > 0 ==> ledger.wallets == old(ledger.wallets)[g := ledger.WalletOf(g)]
    {
      var p := payouts[i];
      ghost var before := ledger.WalletOf(g);
      CreditAllStep(before, payouts, i);
      var _ := ledger.AddCoins(g, Recipient(p), p.amount);
      assert ledger.WalletOf(g) == Nestcoins.Credit(before, Recipient(p), p.amount).0;
      UpdateTwice(old(ledger.wallets), g, before, ledger.wallets[g]);
      i := i + 1;
    }
  }

  // ---------------------------------------------------------------------------
  // A guild's events

  /** `data.events[guildId]`: the guild's events in creation order. */
  class EventBoard {
    var events: seq<Tournament>

    /** Events are never deleted, so the id `events.length + 1` given at
        creation is always the event's position plus one. */
    ghost predicate Valid()
      reads this, events
    {
      forall i :: 0 <= i < |events| ==> events[i].id == i + 1 && events[i].Valid()
    }

    constructor ()
      ensures Valid() && events == []
    {
      events := [];
    }

    /** `events.find(e => e.id === id && e.active)`, as a position or -1. */
    function FindOpen(id: int): (k: int)
      reads this, events
      ensures -1 <= k < |events|
      ensures k >= 0 ==> events[k].id == id && events[k].active
      ensures forall j :: 0 <= j < |events| && (k == -1 || j < k) ==> !(events[j].id == id && events[j].active)
    {
      FindOpenFrom(id, 0)
    }

    function FindOpenFrom(id: int, from: nat): (k: int)
      reads this, events
      requires from <= |events|
      ensures k == -1 || from <= k < |events|
      ensures k >= 0 ==> events[k].id == id && events[k].active
      ensures forall j :: from <= j < |events| && (k == -1 || j < k) ==> !(events[j].id == id && events[j].active)
      decreases |events| - from
    {
      if from == |events| then -1
      else if events[from].id == id && events[from].active then from
      else FindOpenFrom(id, from + 1)
    }

    /** In a valid board an open event is found exactly at position id - 1. */
    lemma FindOpenByPosition(id: int)
      requires Valid()
      ensures FindOpen(id) == (if 1 <= id <= |events| && events[id - 1].active then id - 1 else -1)
    {
    }

    /** create (admin only): appends a fresh, active, empty event whose id is
        one more than the number of events; limit defaults to 0 (no limit),
        Swiss rounds to 3. */
    method Create(admin: bool, name: string, prize: int, format: Format, limit: Option<int>, rounds: Option<int>)
      returns (id: Option<int>)
      requires Valid()
      modifies this
      ensures Valid()
      ensures !admin ==> id.None? && events == old(events)
      ensures admin ==> id == Some(|old(events)| + 1) && |events| == |old(events)| + 1
      ensures admin ==> events[..|old(events)|] == old(events)
      ensures admin ==> var e := events[|events| - 1];
                fresh(e) && e.id == id.value && e.name == name && e.prize == prize && e.format == format
                && e.limit == OrDefault(limit, 0)
                && e.rounds == (if format == Swiss then OrDefault(rounds, 3) else 0)
                && e.participants == [] && e.active && e.history == [] && e.scores == map[]
                && e.matches == None && e.activePlayers == None
    {
      if !admin {
        return None;
      }
      var n := |events| + 1;
      var e := new Tournament(n, name, prize, format, OrDefault(limit, 0), OrDefault(rounds, 3));
      events := events + [e];
      id := Some(n);
    }

    /** list: the ids of the active events, in creation order. */
    function ListActive(): (r: seq<int>)
      reads this, events
      ensures forall x :: x in r <==> exists i :: 0 <= i < |events| && events[i].active && events[i].id == x
      ensures |r| == ActiveCount(events)
      ensures forall i :: 0 <= i < |events| && events[i].active ==>
                ActiveCount(events[..i]) < |r| && r[ActiveCount(events[..i])] == events[i].id
    {
      ActiveIds(events)
    }

    /** join: the caller registers for an open event. */
    method Join(id: int, u: UserId) returns (r: JoinResult)
      requires Valid()
      modifies events
      ensures Valid() && events == old(events)
      ensures old(FindOpen(id)) == -1 ==> r == NoSuchEvent
      ensures old(FindOpen(id)) >= 0 ==> events[old(FindOpen(id))].JoinStep(u, r)
      ensures forall j :: 0 <= j < |events| && j != old(FindOpen(id)) ==> unchanged(events[j])
    {
      var k := FindOpen(id);
      if k == -1 {
        return NoSuchEvent;
      }
      r := events[k].Register(u);
    }

    /** add-user: an administrator registers another user. */
    method AddUser(admin: bool, id: int, u: UserId) returns (r: JoinResult)
      requires Valid()
      modifies events
      ensures Valid() && events == old(events)
      ensures !admin ==> r == AddNotAdmin
      ensures admin && old(FindOpen(id)) == -1 ==> r == NoSuchEvent
      ensures admin && old(FindOpen(id)) >= 0 ==> events[old(FindOpen(id))].JoinStep(u, r)
      ensures forall j :: 0 <= j < |events| && (!admin || j != old(FindOpen(id))) ==> unchanged(events[j])
    {
      if !admin {
        return AddNotAdmin;
      }
      r := Join(id, u);
    }

    /** leave: the caller unregisters from an open event. */
    method Leave(id: int, u: UserId) returns (r: LeaveResult)
      requires Valid()
      modifies events
      ensures Valid() && events == old(events)
      ensures old(FindOpen(id)) == -1 ==> r == NoEvent
      ensures old(FindOpen(id)) >= 0 ==> events[old(FindOpen(id))].LeaveStep(u, r)
      ensures forall j :: 0 <= j < |events| && j != old(FindOpen(id)) ==> unchanged(events[j])
    {
      var k := FindOpen(id);
      if k == -1 {
        return NoEvent;
      }
      r := events[k].Withdraw(u);
    }

    /** finish (admin only): closes an open event and pays its whole prize to
        the named winner. */
    method Finish(ledger: Nestcoins.Ledger, g: GuildId, admin: bool, id: int, winner: UserId)
      returns (r: FinishResult)
      requires Valid() && ledger.Valid()
      modifies events, ledger
      ensures Valid() && ledger.Valid() && events == old(events)
      ensures !admin ==> r == FinishNotAdmin
      ensures admin && old(FindOpen(id)) == -1 ==> r == NoEventToFinish
      ensures r.Finished? <==> admin && old(FindOpen(id)) >= 0
      ensures !r.Finished? ==> ledger.wallets == old(ledger.wallets)
      ensures r.Finished? ==>
                var e := events[old(FindOpen(id))];
                && !e.active && r.prize == e.prize
                && e.participants == old(e.participants) && e.history == old(e.history)
                && e.scores == old(e.scores) && e.matches == old(e.matches)
                && g in ledger.wallets
                && (ledger.wallets[g], r.balance) == Nestcoins.Credit(old(ledger.WalletOf(g)), winner, e.prize)
                && ledger.wallets == old(ledger.wallets)[g := ledger.wallets[g]]
      ensures forall j :: 0 <= j < |events| && (!r.Finished? || j != old(FindOpen(id))) ==> unchanged(events[j])
    {
      if !admin {
        return FinishNotAdmin;
      }
      var k := FindOpen(id);
      if k == -1 {
        return NoEventToFinish;
      }
      var prize := events[k].Close();
      var balance := ledger.AddCoins(g, winner, prize);
      r := Finished(prize, balance);
    }

    /** pairings (admin only). */
    method Pairings(admin: bool, id: int, draws: seq<nat>) returns (r: PairingResult)
      requires Valid()
      modifies events
      ensures Valid() && events == old(events)
      ensures !admin ==> r == PairingNotAdmin
      ensures admin && old(FindOpen(id)) == -1 ==> r == NoEventToPair
      ensures admin && old(FindOpen(id)) >= 0 ==> events[old(FindOpen(id))].PairingStep(r)
      ensures forall j :: 0 <= j < |events| && (!admin || j != old(FindOpen(id))) ==> unchanged(events[j])
    {
      if !admin {
        return PairingNotAdmin;
      }
      var k := FindOpen(id);
      if k == -1 {
        return NoEventToPair;
      }
      r := events[k].Pairings(draws);
    }

    /** win (admin only): records a match result and, when the tournament is
        over, pays every placement. */
    method Win(ledger: Nestcoins.Ledger, g: GuildId, admin: bool, id: int, u: UserId) returns (r: WinResult)
      requires Valid() && ledger.Valid()
      modifies events, ledger
      ensures Valid() && ledger.Valid() && events == old(events)
      ensures !admin ==> r == WinNotAdmin
      ensures admin && old(FindOpen(id)) == -1 ==> r == NoEventToScore
      ensures admin && old(FindOpen(id)) >= 0 ==> events[old(FindOpen(id))].WinStep(u, r)
      ensures forall j :: 0 <= j < |events| && (!admin || j != old(FindOpen(id))) ==> unchanged(events[j])
      ensures r.Won? && r.payouts.Some? ==> ledger.WalletOf(g) == CreditAll(old(ledger.WalletOf(g)), r.payouts.value)
      ensures !(r.Won? && r.payouts.Some?) ==> ledger.wallets == old(ledger.wallets)
    {
      if !admin {
        return WinNotAdmin;
      }
      var k := FindOpen(id);
      if k == -1 {
        return NoEventToScore;
      }
      r := events[k].Win(u);
      PayWinners(ledger, g, r);
    }

    /** standings: also for a finished event (found by id alone). */
    function StandingsOf(id: int): (r: Option<seq<Standing>>)
      reads this, events
      requires Valid()
      ensures r.Some? <==> 1 <= id <= |events|
      ensures r.Some? ==> |r.value| == |events[id - 1].participants| && Descending(r.value, StandingKey)
    {
      if 1 <= id <= |events| then Some(events[id - 1].CurrentStandings()) else None
    }

    /** bracket: the current round of an open event, if there is one. */
    function Bracket(id: int): (r: Option<seq<Match>>)
      reads this, events
      ensures var k := FindOpen(id);
              r.Some? <==> k >= 0 && events[k].matches.Some? && events[k].matches.value != []
      ensures r.Some? ==> r.value == events[FindOpen(id)].matches.value
    {
      var k := FindOpen(id);
      if k >= 0 && events[k].matches.Some? && events[k].matches.value != [] then events[k].matches else None
    }
  }

  function ActiveIds(events: seq<Tournament>): (r: seq<int>)
    reads events
    ensures forall x :: x in r <==> exists i :: 0 <= i < |events| && events[i].active && events[i].id == x
    ensures |r| == ActiveCount(events)
    ensures forall i :: 0 <= i < |events| && events[i].active ==>
              ActiveCount(events[..i]) < |r| && r[ActiveCount(events[..i])] == events[i].id
  {
    if events == [] then []
    else
      var rest := ActiveIds(events[1..]);
      assert forall i :: 1 <= i < |events| ==> events[1..][i - 1] == events[i];
      forall i | 1 <= i <= |events|
        ensures ActiveCount(events[..i]) == (if events[0].active then 1 else 0) + ActiveCount(events[1..][..i - 1])
      {
        assert events[..i][1..] == events[1..][..i - 1];
      }
      (if events[0].active then [events[0].id] else []) + rest
  }

  /** How many of the events are active. */
  function ActiveCount(events: seq<Tournament>): nat
    reads events
  {
    if events == [] then 0 else (if events[0].active then 1 else 0) + ActiveCount(events[1..])
  }
}
