/** The puzzle of the day of src/commands/puzzle.js: administrators set one
    puzzle per date with a reward by difficulty; a user who sends the right
    code on the day is recorded as a solver once, keeps a streak of
    consecutive days, and is paid the reward plus 10 on every tenth day of a
    streak. Dates are the `YYYY-MM-DD` strings of the configured time zone;
    today and yesterday are parameters. */
module Puzzle {
  import opened Common
  import Nestcoins

  type Date = string

  /** A stored puzzle: `{ link, code, difficulty, reward, solvedBy }`. */
  datatype PuzzleEntry = PuzzleEntry(link: string, code: string, difficulty: string, reward: int, solvedBy: seq<UserId>)

  /** A user's streak record; `lastDate` is null before the first solve. */
  datatype Streak = Streak(current: int, best: int, lastDate: Option<Date>)

  /** The record a user without one starts from. */
  const NoStreak := Streak(0, 0, None)

  /** `rewards[difficulty] || 10` with `{ easy: 10, medium: 20, hard: 30 }`. */
  function Reward(difficulty: string): (r: int)
    ensures r == 10 || r == 20 || r == 30
    ensures r == 20 <==> difficulty == "medium"
    ensures r == 30 <==> difficulty == "hard"
  {
    if difficulty == "easy" then 10
    else if difficulty == "medium" then 20
    else if difficulty == "hard" then 30
    else 10
  }

  /** The streak after a solve today: one more day when the last solve was
      yesterday, otherwise a new streak of one; the best is raised to the
      current length when it passes it. */
  function Advance(s: Streak, today: Date, yesterday: Date): Streak {
    var current := if s.lastDate == Some(yesterday) then s.current + 1 else 1;
    Streak(current, if current > s.best then current else s.best, Some(today))
  }

  /** A streak record as solves leave it: at least one day long, and never
      longer than the best. */
  predicate Sound(s: Streak) {
    1 <= s.current <= s.best
  }

  /** A solve always leaves a sound record, dated today, whose best never
      drops; a solve the day after the last one extends the streak by one,
      any other solve starts it again at one. */
  lemma AdvanceProperties(s: Streak, today: Date, yesterday: Date)
    requires Sound(s) || s == NoStreak
    ensures Sound(Advance(s, today, yesterday))
    ensures Advance(s, today, yesterday).lastDate == Some(today)
    ensures Advance(s, today, yesterday).best >= s.best
    ensures s.lastDate == Some(yesterday) ==> Advance(s, today, yesterday).current == s.current + 1
    ensures s.lastDate != Some(yesterday) ==> Advance(s, today, yesterday).current == 1
  {
  }

  /** The record after a run of solves, one per `(today, yesterday)` pair, in
      order. */
  function Replay(s: Streak, days: seq<(Date, Date)>): Streak
    decreases |days|
  {
    if days == [] then s
    else Advance(Replay(s, days[..|days| - 1]), days[|days| - 1].0, days[|days| - 1].1)
  }

  /** Each day's yesterday is the previous day of the run. */
  predicate Consecutive(days: seq<(Date, Date)>) {
    forall i :: 0 < i < |days| ==> days[i].1 == days[i - 1].0
  }

  /** Solving on n consecutive days starting from no record makes a streak of
      n, which is then also the best. */
  lemma {:induction false} ConsecutiveRun(days: seq<(Date, Date)>)
    requires |days| > 0 && Consecutive(days)
    ensures Replay(NoStreak, days).current == |days|
    ensures Replay(NoStreak, days).best == |days|
    ensures Replay(NoStreak, days).lastDate == Some(days[|days| - 1].0)
  {
    if |days| > 1 {
      var init := days[..|days| - 1];
      assert Consecutive(init) by {
        forall i | 0 < i < |init| ensures init[i].1 == init[i - 1].0 {
          assert init[i] == days[i] && init[i - 1] == days[i - 1];
        }
      }
      ConsecutiveRun(init);
      assert days[|days| - 1].1 == init[|init| - 1].0;
    }
  }

  /** Along such a run the bonus is paid exactly on days 10, 20, 30, …. */
  lemma BonusDays(days: seq<(Date, Date)>)
    requires |days| > 0 && Consecutive(days)
    ensures Replay(NoStreak, days).current % 10 == 0 <==> |days| % 10 == 0
  {
    ConsecutiveRun(days);
  }

  /** The replies of /puzzle solve. */
  datatype SolveOutcome = NoPuzzle | AlreadySolved | WrongCode | Solved(reward: int, bonus: bool, streak: Streak)

  /** What a solve pays on a day the streak reaches `current`. */
  function Payout(reward: int, current: int): (r: int)
    ensures current % 10 == 0 ==> r == reward + 10
    ensures current % 10 != 0 ==> r == reward
  {
    if current % 10 == 0 then reward + 10 else reward
  }

  /** No user is recorded twice as a solver of the same puzzle. */
  predicate SolversDistinct(puzzles: map<Date, PuzzleEntry>) {
    forall d :: d in puzzles ==> NoDuplicates(puzzles[d].solvedBy)
  }

  /** Every stored streak is sound. */
  predicate StreaksSound(streaks: map<UserId, Streak>) {
    forall u :: u in streaks ==> Sound(streaks[u])
  }

  /** Recording a new solver and a sound streak keeps both invariants. */
  lemma SolveKeepsValid(puzzles: map<Date, PuzzleEntry>, streaks: map<UserId, Streak>, today: Date, u: UserId, s: Streak)
    requires SolversDistinct(puzzles) && StreaksSound(streaks) && Sound(s)
    requires today in puzzles && u !in puzzles[today].solvedBy
    ensures SolversDistinct(puzzles[today := puzzles[today].(solvedBy := puzzles[today].solvedBy + [u])])
    ensures StreaksSound(streaks[u := s])
  {
    var solvers := puzzles[today].solvedBy;
    assert NoDuplicates(solvers + [u]) by {
      assert forall i :: 0 <= i < |solvers| ==> (solvers + [u])[i] == solvers[i];
    }
  }

  /** `data.puzzles` and `data.puzzleStreaks`. */
  class PuzzleBoard {
    var puzzles: map<Date, PuzzleEntry>
    var streaks: map<UserId, Streak>

    ghost predicate Valid()
      reads this
    {
      SolversDistinct(puzzles) && StreaksSound(streaks)
    }

    constructor ()
      ensures Valid() && puzzles == map[] && streaks == map[]
    {
      puzzles := map[];
      streaks := map[];
    }

    /** `data.puzzleStreaks[userId] || { current: 0, best: 0 }`. */
    function StreakOf(u: UserId): (s: Streak)
      reads this
      ensures Valid() ==> Sound(s) || s == NoStreak
    {
      if u in streaks then streaks[u] else NoStreak
    }

    /** /puzzle set: refused to non-administrators; otherwise the date's
        puzzle is replaced by a new one nobody has solved, and its reward is
        reported. */
    method Set(isAdmin: bool, link: string, code: string, difficulty: string, date: Date) returns (r: Option<int>)
      modifies this
      ensures streaks == old(streaks)
      ensures !isAdmin ==> r.None? && puzzles == old(puzzles)
      ensures isAdmin ==> r == Some(Reward(difficulty))
                          && puzzles == old(puzzles)[date := PuzzleEntry(link, code, difficulty, Reward(difficulty), [])]
      ensures old(Valid()) ==> Valid()
    {
      if !isAdmin {
        return None;
      }
      var reward := Reward(difficulty);
      puzzles := puzzles[date := PuzzleEntry(link, code, difficulty, reward, [])];
      r := Some(reward);
    }

    /** /puzzle info: today's puzzle, whether the user solved it and the
        user's streak, or None when no puzzle is set for today. */
    method Info(today: Date, u: UserId) returns (r: Option<(PuzzleEntry, bool, Streak)>)
      ensures r.None? <==> today !in puzzles
      ensures r.Some? ==> r.value.0 == puzzles[today] && (r.value.1 <==> u in puzzles[today].solvedBy)
                          && r.value.2 == StreakOf(u)
    {
      if today !in puzzles {
        return None;
      }
      var p := puzzles[today];
      r := Some((p, u in p.solvedBy, StreakOf(u)));
    }

    /** /puzzle solve. Nothing changes when no puzzle is set for today, when
        the user already solved it or when the code is wrong; otherwise the
        streak advances, the user is recorded as a solver and the reward,
        with the tenth-day bonus, is added to their balance. */
    method Solve(ledger: Nestcoins.Ledger, g: GuildId, u: UserId, code: string, today: Date, yesterday: Date)
      returns (r: SolveOutcome)
      requires ledger.Valid()
      modifies this, ledger
      ensures ledger.Valid()
      ensures r == NoPuzzle <==> today !in old(puzzles)
      ensures r == AlreadySolved <==> today in old(puzzles) && u in old(puzzles)[today].solvedBy
      ensures r == WrongCode <==> today in old(puzzles) && u !in old(puzzles)[today].solvedBy
                                  && code != old(puzzles)[today].code
      ensures !r.Solved? ==> puzzles == old(puzzles) && streaks == old(streaks) && ledger.wallets == old(ledger.wallets)
      ensures r.Solved? ==>
                var p := old(puzzles)[today];
                && r.streak == Advance(old(StreakOf(u)), today, yesterday)
                && r.bonus == (r.streak.current % 10 == 0)
                && r.reward == Payout(p.reward, r.streak.current)
                && streaks == old(streaks)[u := r.streak]
                && puzzles == old(puzzles)[today := p.(solvedBy := p.solvedBy + [u])]
                && ledger.wallets == old(ledger.wallets)[g := Nestcoins.Credit(old(ledger.WalletOf(g)), u, r.reward).0]
      ensures old(Valid()) ==> Valid()
    {
      if today !in puzzles {
        return NoPuzzle;
      }
      var p := puzzles[today];
      if u in p.solvedBy {
        return AlreadySolved;
      }
      if p.code != code {
        return WrongCode;
      }
      var s := Advance(StreakOf(u), today, yesterday);
      if Valid() {
        AdvanceProperties(StreakOf(u), today, yesterday);
        SolveKeepsValid(puzzles, streaks, today, u, s);
      }
      streaks := streaks[u := s];
      var reward := Payout(p.reward, s.current);
      puzzles := puzzles[today := p.(solvedBy := p.solvedBy + [u])];
      var _ := ledger.AddCoins(g, u, reward);
      r := Solved(reward, s.current % 10 == 0, s);
    }
  }
}
