/** NestWord (src/commands/nestword.js): a daily word game with answers of
    3 to 7 letters. The word pools and the used-word log live in the word list
    file, the daily puzzles and the players' streaks in the database; both are
    fields of one `WordGame` object here. The clock is replaced by the `today`,
    `yesterday` and cooldown-cutoff date strings, and every random pick by a
    caller-chosen draw reduced modulo the number of choices. */
module Nestword {
  import opened Common
  import opened Text
  import Nestcoins

  // ---------------------------------------------------------------------------
  // Tables

  function Clamp(v: int, lo: int, hi: int): int {
    Max(lo, Min(hi, v))
  }

  /** Eight attempts for three letters, one fewer per extra letter, never fewer
      than five. */
  function AttemptsForLen(len: int): (r: int)
    ensures 5 <= r <= 8
    ensures len <= 3 ==> r == 8
    ensures 3 <= len <= 6 ==> r == 11 - len
    ensures len >= 6 ==> r == 5
  {
    Clamp(8 - (len - 3), 5, 8)
  }

  /** `Math.max(1, Math.round(90 / att))`: 90 / att rounded to the nearest
      integer, halves upwards, and at least 1. */
  function RewardForAttempts(att: int): (r: int)
    requires att >= 1
    ensures r >= 1
    ensures r > 1 ==> (2 * r - 1) * att <= 180 < (2 * r + 1) * att
    ensures r == 1 ==> 180 < 3 * att
  {
    var q := (180 + att) / (2 * att);
    assert 2 * att * q <= 180 + att < 2 * att * (q + 1) by {
      assert 180 + att == q * (2 * att) + (180 + att) % (2 * att);
    }
    Max(1, q)
  }

  /** The reward for every attempt count a word length can give. */
  lemma RewardTable()
    ensures RewardForAttempts(5) == 18 && RewardForAttempts(6) == 15
    ensures RewardForAttempts(7) == 13 && RewardForAttempts(8) == 11
  {
  }

  /** `^[a-z]{min,max}$`. */
  predicate IsAlphaLowerLen(s: string, lo: int, hi: int) {
    lo <= |s| <= hi && AllLower(s)
  }

  // ---------------------------------------------------------------------------
  // parseBulkWords

  predicate IsSeparator(c: char) {
    c == '\n' || c == ',' || c == ' '
  }

  /** No separator inside. */
  predicate Unbroken(w: string) {
    forall k :: 0 <= k < |w| ==> !IsSeparator(w[k])
  }

  /** The fields between single separator characters, empty ones included.
      Splitting on runs of separators (`/[\n, ]+/`) only differs by empty
      fields, which the parser drops anyway. */
  function Fields(s: string): (r: seq<string>)
    ensures |r| >= 1
    ensures forall i :: 0 <= i < |r| ==> Unbroken(r[i])
  {
    if s == [] then [""]
    else
      var rest := Fields(s[1..]);
      if IsSeparator(s[0]) then [""] + rest
      else
        assert forall i :: 1 <= i < |rest| ==> rest[1..][i - 1] == rest[i];
        [[s[0]] + rest[0]] + rest[1..]
  }

  /** One field trimmed and lowercased: empty exactly when the field is all
      whitespace, otherwise without whitespace at either end. */
  function CleanWord(f: string): (w: string)
    ensures w == [] <==> forall k :: 0 <= k < |f| ==> IsSpace(f[k])
    ensures w == [] || (!IsSpace(w[0]) && !IsSpace(w[|w| - 1]))
    ensures IsLowered(w)
    ensures Unbroken(f) ==> Unbroken(w)
  {
    var t := Trim(f);
    var w := ToLower(t);
    LowerKeepsClasses(f, t, w);
    w
  }

  /** Lowercasing a trimmed field keeps where its spaces and separators are
      and leaves no upper-case letter. */
  lemma LowerKeepsClasses(f: string, t: string, w: string)
    requires t == Trim(f) && w == ToLower(t)
    ensures w == [] <==> forall k :: 0 <= k < |f| ==> IsSpace(f[k])
    ensures w == [] || (!IsSpace(w[0]) && !IsSpace(w[|w| - 1]))
    ensures IsLowered(w)
    ensures Unbroken(f) ==> Unbroken(w)
  {
    TrimEmpty(f);
    ToLowerChars(t);
    LowerKeepsEnds(t);
    if Unbroken(f) {
      LowerKeepsUnbroken(f, t);
    }
  }

  /** The lower case of a string without whitespace at its ends has none
      there either, and is empty only when the string is. */
  lemma LowerKeepsEnds(t: string)
    requires t == [] || (!IsSpace(t[0]) && !IsSpace(t[|t| - 1]))
    ensures var w := ToLower(t); (w == [] <==> t == []) && (w == [] || (!IsSpace(w[0]) && !IsSpace(w[|w| - 1])))
  {
    if t != [] {
      ToLowerEnds(t);
      LowerCaseSpace(t[0]);
      LowerCaseSpace(t[|t| - 1]);
    }
  }

  /** Lowercasing characters of an unbroken field brings in no separator. */
  lemma LowerKeepsUnbroken(f: string, t: string)
    requires Unbroken(f) && forall k :: 0 <= k < |t| ==> t[k] in f
    ensures Unbroken(ToLower(t))
  {
    var w := ToLower(t);
    ToLowerChars(t);
    forall k | 0 <= k < |w| ensures !IsSeparator(w[k]) {
      if w[k] in t {
        var j :| 0 <= j < |t| && t[j] == w[k];
        assert t[j] in f;
      }
    }
  }

  /** Trim, lowercase and drop the empty words. */
  function CleanWords(fields: seq<string>): (r: seq<string>)
    ensures |r| <= |fields|
    ensures forall i :: 0 <= i < |r| ==> r[i] != [] && IsLowered(r[i])
  {
    if fields == [] then []
    else
      var w := CleanWord(fields[0]);
      var rest := CleanWords(fields[1..]);
      if w == [] then rest
      else
        ConsClean(w, rest);
        [w] + rest
  }

  /** A clean word in front of clean words. */
  lemma ConsClean(w: string, rest: seq<string>)
    requires w != [] && IsLowered(w)
    requires forall i :: 0 <= i < |rest| ==> rest[i] != [] && IsLowered(rest[i])
    ensures forall i :: 0 <= i < |[w] + rest| ==> ([w] + rest)[i] != [] && IsLowered(([w] + rest)[i])
  {
    forall i | 0 <= i < |[w] + rest| ensures ([w] + rest)[i] != [] && IsLowered(([w] + rest)[i]) {
      if i > 0 {
        assert ([w] + rest)[i] == rest[i - 1];
      }
    }
  }

  /** Cleaning never introduces a separator. */
  lemma {:induction false} CleanWordsUnbroken(fields: seq<string>)
    requires forall i :: 0 <= i < |fields| ==> Unbroken(fields[i])
    ensures forall i :: 0 <= i < |CleanWords(fields)| ==> Unbroken(CleanWords(fields)[i])
  {
    if fields != [] {
      var tail := fields[1..];
      forall i | 0 <= i < |tail| ensures Unbroken(tail[i]) {
        assert tail[i] == fields[i + 1];
      }
      CleanWordsUnbroken(tail);
      var w := CleanWord(fields[0]);
      if w != [] {
        ConsUnbroken(w, CleanWords(tail));
      }
    }
  }

  lemma ConsUnbroken(w: string, rest: seq<string>)
    requires Unbroken(w)
    requires forall i :: 0 <= i < |rest| ==> Unbroken(rest[i])
    ensures forall i :: 0 <= i < |[w] + rest| ==> Unbroken(([w] + rest)[i])
  {
    forall i | 0 <= i < |[w] + rest| ensures Unbroken(([w] + rest)[i]) {
      if i > 0 {
        assert ([w] + rest)[i] == rest[i - 1];
      }
    }
  }

  /** parseBulkWords: the non-empty, trimmed, lowercased words between
      newlines, commas and spaces. */
  function ParseBulkWords(input: string): (r: seq<string>)
    ensures forall i :: 0 <= i < |r| ==> r[i] != [] && Unbroken(r[i]) && IsLowered(r[i])
  {
    CleanWordsUnbroken(Fields(input));
    CleanWords(Fields(input))
  }

  /** A word that survives parsing unchanged. */
  predicate PlainWord(w: string) {
    w != [] && !IsSpace(w[0]) && !IsSpace(w[|w| - 1]) && Unbroken(w) && IsLowered(w)
  }

  lemma {:induction false} FieldsOfPlain(a: string)
    requires Unbroken(a)
    ensures Fields(a) == [a]
  {
    if a != [] {
      FieldsOfPlain(a[1..]);
      assert a == [a[0]] + a[1..];
    }
  }

  lemma {:induction false} FieldsAfterPlain(a: string, b: string)
    requires Unbroken(a)
    ensures Fields(a + [','] + b) == [a] + Fields(b)
  {
    if a == [] {
      assert a + [','] + b == [','] + b;
      assert ([','] + b)[1..] == b;
    } else {
      FieldsAfterPlain(a[1..], b);
      assert (a + [','] + b)[1..] == a[1..] + [','] + b;
      assert a == [a[0]] + a[1..];
    }
  }

  /** Words joined with commas are read back exactly. */
  lemma {:induction false} ParseJoined(ws: seq<string>)
    requires forall i :: 0 <= i < |ws| ==> PlainWord(ws[i])
    ensures ParseBulkWords(Join(ws, ",")) == ws
  {
    if ws == [] {
    } else if |ws| == 1 {
      FieldsOfPlain(ws[0]);
      TrimIdempotent(ws[0]);
      ToLowerOfLowered(ws[0]);
    } else {
      FieldsAfterPlain(ws[0], Join(ws[1..], ","));
      assert Join(ws, ",") == ws[0] + [','] + Join(ws[1..], ",");
      ParseJoined(ws[1..]);
      TrimIdempotent(ws[0]);
      ToLowerOfLowered(ws[0]);
      var fs := Fields(Join(ws, ","));
      assert fs[1..] == Fields(Join(ws[1..], ","));
    }
  }

  // ---------------------------------------------------------------------------
  // scoreGuess

  /** Answer positions holding c that are not green, among the first n. */
  function Spare(g: string, a: string, n: nat, c: char): nat
    requires n <= |g| && n <= |a|
  {
    if n == 0 then 0
    else Spare(g, a, n - 1, c) + (if g[n - 1] != a[n - 1] && a[n - 1] == c then 1 else 0)
  }

  /** Guess positions holding c that are not green, among the first n. */
  function NonGreen(g: string, a: string, n: nat, c: char): nat
    requires n <= |g| && n <= |a|
  {
    if n == 0 then 0
    else NonGreen(g, a, n - 1, c) + (if g[n - 1] != a[n - 1] && g[n - 1] == c then 1 else 0)
  }

  /** The tile scoreGuess gives position i: green on a match; otherwise yellow
      while earlier non-green copies of the letter have not used up the
      answer's non-green copies. */
  function TileAt(g: string, a: string, i: nat): Tile
    requires |g| == |a| && i < |a|
  {
    if g[i] == a[i] then Hit
    else if NonGreen(g, a, i, g[i]) < Spare(g, a, |a|, g[i]) then Present
    else Miss
  }

  function CountOf(counts: map<char, int>, c: char): int {
    if c in counts then counts[c] else 0
  }

  /** scoreGuess. Its only caller has already rejected a guess whose length
      differs from the answer's. */
  method ScoreGuess(guess: string, answer: string) returns (tiles: seq<Tile>)
    requires |guess| == |answer|
    ensures |tiles| == |answer|
    ensures forall i :: 0 <= i < |answer| ==> tiles[i] == TileAt(guess, answer, i)
  {
    var counts;
    tiles, counts := MarkGreens(guess, answer);
    tiles := MarkYellows(guess, answer, tiles, counts);
  }

  /** The first loop of scoreGuess: greens, and the count of each letter at
      the answer's non-green positions. */
  method MarkGreens(guess: string, answer: string) returns (tiles: seq<Tile>, counts: map<char, int>)
    requires |guess| == |answer|
    ensures |tiles| == |answer|
    ensures forall j :: 0 <= j < |answer| ==> tiles[j] == (if guess[j] == answer[j] then Hit else Miss)
    ensures forall c :: CountOf(counts, c) == Spare(guess, answer, |answer|, c)
  {
    var n := |answer|;
    tiles := seq(n, _ => Miss);
    counts := map[];
    var i := 0;
    while i < n
      invariant 0 <= i <= n && |tiles| == n
      invariant forall j :: 0 <= j < n ==> tiles[j] == (if j < i && guess[j] == answer[j] then Hit else Miss)
      invariant forall c :: CountOf(counts, c) == Spare(guess, answer, i, c)
    {
      if guess[i] == answer[i] {
        tiles := tiles[i := Hit];
      } else {
        counts := counts[answer[i] := CountOf(counts, answer[i]) + 1];
      }
      i := i + 1;
    }
  }

  /** The second loop of scoreGuess: each non-green position turns yellow
      while its letter still has a count left, and uses one up. */
  method MarkYellows(guess: string, answer: string, greens: seq<Tile>, spare: map<char, int>) returns (tiles: seq<Tile>)
    requires |guess| == |answer| == |greens|
    requires forall j :: 0 <= j < |answer| ==> greens[j] == (if guess[j] == answer[j] then Hit else Miss)
    requires forall c :: CountOf(spare, c) == Spare(guess, answer, |answer|, c)
    ensures |tiles| == |answer|
    ensures forall i :: 0 <= i < |answer| ==> tiles[i] == TileAt(guess, answer, i)
  {
    var n := |answer|;
    tiles := greens;
    var counts := spare;
    var i := 0;
    while i < n
      invariant 0 <= i <= n && |tiles| == n
      invariant forall j :: 0 <= j < i ==> tiles[j] == TileAt(guess, answer, j)
      invariant forall j :: i <= j < n ==> tiles[j] == greens[j]
      invariant forall c :: CountOf(counts, c) == Max(0, Spare(guess, answer, n, c) - NonGreen(guess, answer, i, c))
    {
      if tiles[i] != Hit {
        var ch := guess[i];
        if CountOf(counts, ch) > 0 {
          tiles := tiles[i := Present];
          counts := counts[ch := CountOf(counts, ch) - 1];
        }
      }
      i := i + 1;
    }
  }

  /** The guess is all green exactly when it is the answer. */
  lemma AllGreenIffSolved(guess: string, answer: string)
    requires |guess| == |answer|
    ensures (forall i :: 0 <= i < |answer| ==> TileAt(guess, answer, i) == Hit) <==> guess == answer
  {
    if forall i :: 0 <= i < |answer| ==> TileAt(guess, answer, i) == Hit {
      forall i | 0 <= i < |answer| ensures guess[i] == answer[i] {
        assert TileAt(guess, answer, i) == Hit;
      }
    }
  }

  /** Yellow tiles carrying c among the first n positions. */
  function Yellows(g: string, a: string, n: nat, c: char): nat
    requires |g| == |a| && n <= |a|
  {
    if n == 0 then 0
    else Yellows(g, a, n - 1, c) + (if g[n - 1] == c && TileAt(g, a, n - 1) == Present then 1 else 0)
  }

  /** Yellows are handed out left to right: the first k non-green copies of a
      letter in the guess are yellow, where k is the number of the answer's
      non-green copies, so yellows never exceed them. */
  lemma {:induction false} YellowsAreCapped(g: string, a: string, n: nat, c: char)
    requires |g| == |a| && n <= |a|
    ensures Yellows(g, a, n, c) == Min(NonGreen(g, a, n, c), Spare(g, a, |a|, c))
  {
    if n > 0 {
      YellowsAreCapped(g, a, n - 1, c);
    }
  }

  // ---------------------------------------------------------------------------
  // State

  /** `data.nestwordDaily[date]`. */
  datatype Daily = Daily(answer: string, len: int, attempts: int, reward: int,
                         solvedBy: seq<UserId>, guesses: map<UserId, int>,
                         rows: map<UserId, seq<seq<Tile>>>)

  /** `data.nestwordUsers[userId]`. */
  datatype Streak = Streak(streakCount: int, bestStreak: int, lastDate: Option<string>, totalSolved: int)

  /** `wl.usedWords` entry. */
  datatype UsedWord = UsedWord(date: string, word: string, len: int)

  /** A fresh puzzle for a word. */
  function NewDaily(answer: string, reward: int): (d: Daily)
    ensures d.answer == answer && d.len == |answer| && d.attempts == AttemptsForLen(|answer|)
    ensures d.solvedBy == [] && d.guesses == map[] && d.rows == map[]
  {
    Daily(answer, |answer|, AttemptsForLen(|answer|), reward, [], map[], map[])
  }

  /** Each puzzle's length is its answer's, nobody solved twice, nobody used
      more attempts than allowed, and every attempt left one row. */
  ghost predicate DailyValid(d: Daily) {
    && d.len == |d.answer|
    && d.attempts == AttemptsForLen(d.len)
    && NoDuplicates(d.solvedBy)
    && forall u :: (u in d.guesses || u in d.rows) ==> 0 <= Used(d, u) <= d.attempts && |RowsOf(d, u)| == Used(d, u)
  }

  lemma NewDailyValid(answer: string, reward: int)
    ensures DailyValid(NewDaily(answer, reward))
  {
  }

  /** A recorded attempt within the allowance, and a first solve, keep a puzzle
      valid. */
  lemma AttemptKeepsValid(d: Daily, u: UserId, row: seq<Tile>, solved: bool)
    requires DailyValid(d) && Used(d, u) < d.attempts && u !in d.solvedBy
    ensures var r := RecordGuess(d, u, row);
            DailyValid(if solved then r.(solvedBy := r.solvedBy + [u]) else r)
  {
    var r := RecordGuess(d, u, row);
    assert DailyValid(r);
    if solved {
      assert NoDuplicates(r.solvedBy + [u]) by {
        forall i, j | 0 <= i < j < |r.solvedBy + [u]| ensures (r.solvedBy + [u])[i] != (r.solvedBy + [u])[j] {
          if j == |r.solvedBy| {
            assert (r.solvedBy + [u])[i] == r.solvedBy[i];
          }
        }
      }
    }
  }

  function Used(d: Daily, u: UserId): int {
    if u in d.guesses then d.guesses[u] else 0
  }

  /** A valid puzzle never counts more attempts than it allows. */
  lemma UsedWithin(d: Daily, u: UserId)
    requires DailyValid(d)
    ensures 0 <= Used(d, u) <= d.attempts
  {
  }

  function RowsOf(d: Daily, u: UserId): seq<seq<Tile>> {
    if u in d.rows then d.rows[u] else []
  }

  /** One more scored row and one more attempt for u. */
  function RecordGuess(d: Daily, u: UserId, row: seq<Tile>): (r: Daily)
    ensures RowsOf(r, u) == RowsOf(d, u) + [row] && Used(r, u) == Used(d, u) + 1
    ensures forall v :: v != u ==> RowsOf(r, v) == RowsOf(d, v) && Used(r, v) == Used(d, v)
    ensures r.answer == d.answer && r.len == d.len && r.attempts == d.attempts
    ensures r.reward == d.reward && r.solvedBy == d.solvedBy
  {
    d.(rows := d.rows[u := RowsOf(d, u) + [row]], guesses := d.guesses[u := Used(d, u) + 1])
  }

  /** ensureUserBlock. */
  function StreakOf(users: map<UserId, Streak>, u: UserId): Streak {
    if u in users then users[u] else Streak(0, 0, None, 0)
  }

  /** The streak block after a solve on `today`. */
  function SolveStreak(s: Streak, today: string, yesterday: string): (r: Streak)
    ensures r.streakCount == (if s.lastDate == Some(yesterday) then s.streakCount + 1 else 1)
    ensures r.lastDate == Some(today)
    ensures r.bestStreak == Max(s.bestStreak, r.streakCount)
    ensures r.totalSolved == s.totalSolved + 1
  {
    var count := if s.lastDate == Some(yesterday) then s.streakCount + 1 else 1;
    Streak(count, Max(s.bestStreak, count), Some(today), s.totalSolved + 1)
  }

  /** A solve pays `reward`, multiplied by the streak once it exceeds 1. */
  function SolveCoins(reward: int, streak: int): int {
    if streak > 1 then reward * streak else reward
  }

  /** For any positive streak the payment is reward times streak. */
  lemma SolveCoinsIsProduct(reward: int, streak: int)
    requires streak >= 1
    ensures SolveCoins(reward, streak) == reward * streak
  {
  }

  /** A solve never lowers the best streak and the best streak always covers
      the current one. */
  lemma SolveStreakBounds(s: Streak, today: string, yesterday: string)
    requires s.streakCount >= 0 && s.bestStreak >= s.streakCount
    ensures SolveStreak(s, today, yesterday).streakCount >= 1
    ensures SolveStreak(s, today, yesterday).bestStreak >= SolveStreak(s, today, yesterday).streakCount
    ensures SolveStreak(s, today, yesterday).bestStreak >= s.bestStreak
  {
  }

  // ---------------------------------------------------------------------------
  // Pools

  /** Bulk-add admits `^[a-z]+$` words of 3 to 7 letters. */
  predicate Admissible(w: string) {
    3 <= |w| <= 7 && AllLower(w)
  }

  function PoolOf(pools: map<int, seq<string>>, len: int): seq<string> {
    if len in pools then pools[len] else []
  }

  /** Every pool holds distinct admissible words of its own length. */
  ghost predicate PoolsValid(pools: map<int, seq<string>>) {
    forall len :: len in pools ==> PoolValid(pools[len], len)
  }

  predicate PoolValid(pool: seq<string>, len: int) {
    NoDuplicates(pool) && forall i :: 0 <= i < |pool| ==> Admissible(pool[i]) && |pool[i]| == len
  }

  /** What bulk-add has done so far: the pools, the words added and the words
      skipped, in input order. */
  datatype Admission = Admission(pools: map<int, seq<string>>, added: seq<string>, skipped: seq<string>)

  /** One word of bulk-add: skipped unless admissible; appended to the pool of
      its length unless already there. */
  function AdmitOne(st: Admission, w: string): Admission {
    if !Admissible(w) then st.(skipped := st.skipped + [w])
    else if w in PoolOf(st.pools, |w|) then st
    else st.(pools := st.pools[|w| := PoolOf(st.pools, |w|) + [w]], added := st.added + [w])
  }

  /** The bulk-add loop over the remaining words. */
  function Admit(st: Admission, words: seq<string>): Admission
    decreases |words|
  {
    if words == [] then st else Admit(AdmitOne(st, words[0]), words[1..])
  }

  lemma AdmitOneValid(st: Admission, w: string)
    requires PoolsValid(st.pools)
    ensures PoolsValid(AdmitOne(st, w).pools)
  {
    if Admissible(w) && w !in PoolOf(st.pools, |w|) {
      var pool := PoolOf(st.pools, |w|);
      assert PoolValid(pool, |w|);
      assert PoolValid(pool + [w], |w|);
    }
  }

  lemma {:induction false} AdmitKeepsValid(st: Admission, words: seq<string>)
    requires PoolsValid(st.pools)
    ensures PoolsValid(Admit(st, words).pools)
    decreases |words|
  {
    if words != [] {
      AdmitOneValid(st, words[0]);
      AdmitKeepsValid(AdmitOne(st, words[0]), words[1..]);
    }
  }

  /** Bulk-add never drops a word from a pool; afterwards a word is in the
      pool of its length exactly when it was before or is an admissible
      input word. */
  lemma {:induction false} AdmitPools(st: Admission, words: seq<string>)
    ensures forall len, w :: w in PoolOf(st.pools, len) ==> w in PoolOf(Admit(st, words).pools, len)
    ensures forall w :: w in PoolOf(Admit(st, words).pools, |w|) <==> w in PoolOf(st.pools, |w|) || (w in words && Admissible(w))
    decreases |words|
  {
    if words != [] {
      var w := words[0];
      assert forall x :: x in words <==> x == w || x in words[1..];
      AdmitPools(AdmitOne(st, w), words[1..]);
    }
  }

  /** The skipped words are the inadmissible input words. */
  lemma {:induction false} AdmitSkipped(st: Admission, words: seq<string>)
    ensures forall w :: w in Admit(st, words).skipped <==> w in st.skipped || (w in words && !Admissible(w))
    decreases |words|
  {
    if words != [] {
      var w := words[0];
      assert forall x :: x in words <==> x == w || x in words[1..];
      AdmitSkipped(AdmitOne(st, w), words[1..]);
    }
  }

  /** The added words are admissible input words that were missing. */
  lemma {:induction false} AdmitAdded(st: Admission, words: seq<string>)
    ensures forall w :: w in Admit(st, words).added ==> w in st.added || (w in words && Admissible(w) && w !in PoolOf(st.pools, |w|))
    decreases |words|
  {
    if words != [] {
      var w := words[0];
      var next := AdmitOne(st, w);
      assert forall x :: x in words <==> x == w || x in words[1..];
      AdmitAdded(next, words[1..]);
      AdmitPools(st, [w]);
      assert Admit(next, []) == next;
    }
  }

  /** The bulk-add loop: each word in turn is skipped, found already present,
      or pushed onto the pool of its length. */
  method AdmitAll(pools: map<int, seq<string>>, words: seq<string>) returns (r: Admission)
    ensures r == Admit(Admission(pools, [], []), words)
  {
    var wl := pools;
    var added: seq<string> := [];
    var skipped: seq<string> := [];
    var i := 0;
    while i < |words|
      invariant 0 <= i <= |words|
      invariant Admit(Admission(wl, added, skipped), words[i..]) == Admit(Admission(pools, [], []), words)
    {
      var w := words[i];
      assert words[i..][1..] == words[i + 1..];
      if !Admissible(w) {
        skipped := skipped + [w];
      } else if w !in PoolOf(wl, |w|) {
        wl := wl[|w| := PoolOf(wl, |w|) + [w]];
        added := added + [w];
      }
      i := i + 1;
    }
    r := Admission(wl, added, skipped);
  }

  /** Removing a word keeps a pool valid. */
  lemma WithoutKeepsPoolValid(pool: seq<string>, word: string, len: int)
    requires PoolValid(pool, len)
    ensures PoolValid(Without(pool, word), len)
  {
    var after := Without(pool, word);
    WithoutKeepsDistinct(pool, word);
    forall i | 0 <= i < |after| ensures Admissible(after[i]) && |after[i]| == len {
      assert after[i] in pool;
    }
  }

  function Without(pool: seq<string>, word: string): (r: seq<string>)
    ensures forall w :: w in r <==> w in pool && w != word
    ensures |r| < |pool| <==> word in pool
    ensures |r| <= |pool|
  {
    if pool == [] then []
    else
      var rest := Without(pool[1..], word);
      assert forall w :: w in pool <==> w == pool[0] || w in pool[1..];
      if pool[0] == word then rest else [pool[0]] + rest
  }

  function AvailableLengths(pools: map<int, seq<string>>): (r: seq<int>)
    ensures forall len :: len in r <==> 3 <= len <= 7 && |PoolOf(pools, len)| > 0
  {
    var all := [3, 4, 5, 6, 7];
    Keep(all, pools)
  }

  function Keep(lens: seq<int>, pools: map<int, seq<string>>): (r: seq<int>)
    ensures forall len :: len in r <==> len in lens && |PoolOf(pools, len)| > 0
  {
    if lens == [] then []
    else
      var rest := Keep(lens[1..], pools);
      assert forall x :: x in lens <==> x == lens[0] || x in lens[1..];
      if |PoolOf(pools, lens[0])| > 0 then [lens[0]] + rest else rest
  }

  /** Words of length len used after the cutoff date. */
  function Recent(usedWords: seq<UsedWord>, len: int, cutoff: string): (r: set<string>)
    ensures forall w :: w in r <==> exists i :: 0 <= i < |usedWords| && usedWords[i].word == w
                                      && usedWords[i].len == len && StrLess(cutoff, usedWords[i].date)
  {
    set i | 0 <= i < |usedWords| && usedWords[i].len == len && StrLess(cutoff, usedWords[i].date) :: usedWords[i].word
  }

  function Unused(pool: seq<string>, recent: set<string>): (r: seq<string>)
    ensures forall w :: w in r <==> w in pool && w !in recent
  {
    if pool == [] then []
    else
      var rest := Unused(pool[1..], recent);
      assert forall w :: w in pool <==> w == pool[0] || w in pool[1..];
      if pool[0] in recent then rest else [pool[0]] + rest
  }

  /** The pool minus the recently used words, or the whole pool when that
      leaves nothing. */
  function Candidates(pool: seq<string>, recent: set<string>): (r: seq<string>)
    ensures forall w :: w in r ==> w in pool
    ensures |pool| > 0 ==> |r| > 0
    ensures (exists w :: w in pool && w !in recent) ==> forall w :: w in r ==> w !in recent
  {
    var unused := Unused(pool, recent);
    if |unused| > 0 then unused else pool
  }

  /** The puzzle pickWordForToday creates: a length drawn among the non-empty
      pools, then a word of that pool not used since the cutoff (any word of
      it when all were). None when every pool is empty. */
  function NewPuzzle(pools: map<int, seq<string>>, usedWords: seq<UsedWord>, cutoff: string,
                     lenDraw: nat, wordDraw: nat): (r: Option<Daily>)
    ensures r.None? <==> AvailableLengths(pools) == []
  {
    var lens := AvailableLengths(pools);
    if lens == [] then None
    else
      var len := lens[lenDraw % |lens|];
      var cands := Candidates(PoolOf(pools, len), Recent(usedWords, len, cutoff));
      var answer := cands[wordDraw % |cands|];
      Some(Daily(answer, len, AttemptsForLen(len), RewardForAttempts(AttemptsForLen(len)), [], map[], map[]))
  }

  /** A new puzzle's word comes from the pool of its length, has that length,
      was not used since the cutoff unless every word of the pool was, and
      starts with nobody's attempts. */
  lemma NewPuzzleProperties(pools: map<int, seq<string>>, usedWords: seq<UsedWord>, cutoff: string,
                            lenDraw: nat, wordDraw: nat)
    requires PoolsValid(pools)
    ensures var r := NewPuzzle(pools, usedWords, cutoff, lenDraw, wordDraw);
            r.Some? ==>
              var d := r.value;
              && 3 <= d.len <= 7
              && d.answer in PoolOf(pools, d.len) && |d.answer| == d.len && Admissible(d.answer)
              && d == NewDaily(d.answer, RewardForAttempts(AttemptsForLen(d.len)))
              && DailyValid(d)
              && ((exists w :: w in PoolOf(pools, d.len) && w !in Recent(usedWords, d.len, cutoff)) ==>
                    d.answer !in Recent(usedWords, d.len, cutoff))
  {
    var lens := AvailableLengths(pools);
    if lens != [] {
      var len := lens[lenDraw % |lens|];
      assert len in lens;
      var pool := PoolOf(pools, len);
      var cands := Candidates(pool, Recent(usedWords, len, cutoff));
      var answer := cands[wordDraw % |cands|];
      assert answer in pool;
      assert PoolValid(pool, len);
    }
  }

  /** `^\d{4}-\d{2}-\d{2}$`. */
  predicate IsYmd(s: string) {
    |s| == 10 && s[4] == '-' && s[7] == '-'
    && forall i :: 0 <= i < 10 && i != 4 && i != 7 ==> IsDigit(s[i])
  }

  // ---------------------------------------------------------------------------
  // Results

  datatype GuessResult =
    | InvalidGuess
    | NoWordAvailable
    | WrongLength(len: int)
    | NotInPool
    | AlreadySolved
    | NoAttemptsLeft
    | Missed(row: seq<Tile>, left: int)
    | Solved(row: seq<Tile>, coins: int, balance: int)

  datatype SetResult = SetNotAdmin | BadDate | BadWord | WordSet(date: string, daily: Daily)

  datatype BulkAddResult = BulkNotAdmin | NoWordsGiven | BulkAdded(added: seq<string>, skipped: seq<string>)

  datatype RemoveResult = RemoveNotAdmin | RemoveBadWord | Removed | NotInPoolList

  datatype ClearResult = ClearNotAdmin | ClearBadLength | Cleared(len: int)

  datatype InfoResult = InfoUnavailable | TodayInfo(len: int, attempts: int, reward: int, used: int, left: int)

  datatype ListResult = ListNotAdmin | BadLength | PoolPage(page: int, totalPages: int, size: int, words: seq<string>)

  /** The page shown by pool-list: 50 sorted words per page, the requested page
      raised to at least 1 and capped at the last page. */
  function PageOf(sorted: seq<string>, page: Option<int>): (r: ListResult)
    ensures r.PoolPage? && 1 <= r.page <= r.totalPages && r.size == |sorted|
    ensures r.totalPages == Max(1, (|sorted| + 49) / 50)
    ensures r.words == sorted[(r.page - 1) * 50 .. Min(r.page * 50, |sorted|)]
    ensures page.Some? && 1 <= page.value <= r.totalPages ==> r.page == page.value
    ensures page.Some? && page.value > r.totalPages ==> r.page == r.totalPages
    ensures page.None? || page.value < 1 ==> r.page == 1
  {
    var asked := Max(1, if page.Some? && page.value != 0 then page.value else 1);
    var total := Max(1, (|sorted| + 49) / 50);
    var p := Min(asked, total);
    PoolPage(p, total, |sorted|, sorted[(p - 1) * 50 .. Min(p * 50, |sorted|)])
  }

  // ---------------------------------------------------------------------------
  // The game

  class WordGame {
    /** `data.nestwordDaily`, by date. */
    var daily: map<string, Daily>
    /** `data.nestwordUsers`. */
    var users: map<UserId, Streak>
    /** `wl.pool3` … `wl.pool7`, by length. */
    var pools: map<int, seq<string>>
    var usedWords: seq<UsedWord>
    /** `wl.config.requireGuessInPool`. */
    var requireGuessInPool: bool

    /** Every pool is valid and so is every stored puzzle. */
    ghost predicate Valid()
      reads this
    {
      && PoolsValid(pools)
      && forall date :: date in daily ==> DailyValid(daily[date])
    }

    constructor (requireGuessInPool: bool)
      ensures Valid()
      ensures daily == map[] && users == map[] && pools == map[] && usedWords == []
      ensures this.requireGuessInPool == requireGuessInPool
    {
      daily := map[];
      users := map[];
      pools := map[];
      usedWords := [];
      this.requireGuessInPool := requireGuessInPool;
    }

    /** pickWordForToday: today's puzzle if one exists; otherwise a new one
        from a pool that has words (None when none has). `lenDraw` and
        `wordDraw` stand for the two `Math.random` picks. */
    method PickWordForToday(today: string, cutoff: string, lenDraw: nat, wordDraw: nat) returns (r: Option<Daily>)
      requires Valid()
      modifies this
      ensures Valid()
      ensures users == old(users) && pools == old(pools) && requireGuessInPool == old(requireGuessInPool)
      ensures today in old(daily) ==> r == Some(old(daily)[today]) && daily == old(daily) && usedWords == old(usedWords)
      ensures today !in old(daily) ==> r == NewPuzzle(pools, old(usedWords), cutoff, lenDraw, wordDraw)
      ensures today !in old(daily) && r.None? ==> daily == old(daily) && usedWords == old(usedWords)
      ensures today !in old(daily) && r.Some? ==>
                && daily == old(daily)[today := r.value]
                && usedWords == old(usedWords) + [UsedWord(today, r.value.answer, r.value.len)]
      ensures daily == old(PickedDaily(today, cutoff, lenDraw, wordDraw))
      ensures r.Some? ==> today in daily && r.value == daily[today]
    {
      if today in daily {
        return Some(daily[today]);
      }
      var lens := AvailableLengths(pools);
      if lens == [] {
        return None;
      }
      NewPuzzleProperties(pools, usedWords, cutoff, lenDraw, wordDraw);
      var len := lens[lenDraw % |lens|];
      var pool := PoolOf(pools, len);
      var cands := Candidates(pool, Recent(usedWords, len, cutoff));
      var answer := cands[wordDraw % |cands|];
      var d := NewDaily(answer, RewardForAttempts(AttemptsForLen(len)));
      daily := daily[today := d];
      usedWords := usedWords + [UsedWord(today, answer, len)];
      r := Some(d);
    }

    /** The puzzles as guess sees them once today's has been picked. */
    function PickedDaily(today: string, cutoff: string, lenDraw: nat, wordDraw: nat): map<string, Daily>
      reads this
    {
      if today in daily then daily
      else
        var p := NewPuzzle(pools, usedWords, cutoff, lenDraw, wordDraw);
        if p.Some? then daily[today := p.value] else daily
    }

    /** What one guess does to today's puzzle `before[today]`: the rejections
        in the order they are checked, none of which changes anything, and
        otherwise the scored row recorded, and on a solve the solver added,
        the streak advanced and the coins credited. */
    ghost predicate AttemptStep(ledger: Nestcoins.Ledger, g: GuildId, u: UserId, guess: string,
                                today: string, yesterday: string, before: map<string, Daily>,
                                usersBefore: map<UserId, Streak>, walletsBefore: map<GuildId, Nestcoins.Wallet>,
                                r: GuessResult)
      reads this, ledger
    {
      && today in before
      && var d := before[today];
      && var inPool := !(requireGuessInPool && guess !in PoolOf(pools, d.len));
      && (r.WrongLength? <==> |guess| != d.len)
      && (r.WrongLength? ==> r.len == d.len)
      && (r.NotInPool? <==> |guess| == d.len && !inPool)
      && (r.AlreadySolved? <==> |guess| == d.len && inPool && u in d.solvedBy)
      && (r.NoAttemptsLeft? <==> |guess| == d.len && inPool && u !in d.solvedBy && Used(d, u) >= d.attempts)
      && (r.Missed? || r.Solved? || r.WrongLength? || r.NotInPool? || r.AlreadySolved? || r.NoAttemptsLeft?)
      && (!r.Missed? && !r.Solved? ==> daily == before)
      && (!r.Solved? ==> users == usersBefore && ledger.wallets == walletsBefore)
      && (r.Missed? || r.Solved? ==>
            && |r.row| == |guess| == |d.answer|
            && (forall i :: 0 <= i < |guess| ==> r.row[i] == TileAt(guess, d.answer, i))
            && (r.Solved? <==> guess == d.answer)
            && var after := RecordGuess(d, u, r.row);
               daily == before[today := if r.Solved? then after.(solvedBy := after.solvedBy + [u]) else after])
      && (r.Missed? ==> r.left == d.attempts - (Used(d, u) + 1))
      && (r.Solved? ==>
            && users == usersBefore[u := SolveStreak(StreakOf(usersBefore, u), today, yesterday)]
            && r.coins == SolveCoins(d.reward, users[u].streakCount)
            && g in ledger.wallets
            && var w := if g in walletsBefore then walletsBefore[g] else [];
               && UniqueKeys(w)
               && (ledger.wallets[g], r.balance) == Nestcoins.Credit(w, u, r.coins)
               && ledger.wallets == walletsBefore[g := ledger.wallets[g]])
    }

    /** guess: score one attempt at today's word and pay a solve. When there
        is no puzzle for today (or it has no answer) one is picked first; since
        picking returns an existing puzzle unchanged, that is one call. */
    method Guess(ledger: Nestcoins.Ledger, g: GuildId, u: UserId, raw: string,
                 today: string, yesterday: string, cutoff: string, lenDraw: nat, wordDraw: nat)
      returns (r: GuessResult)
      requires Valid() && ledger.Valid()
      modifies this, ledger
      ensures Valid() && ledger.Valid()
      ensures pools == old(pools) && requireGuessInPool == old(requireGuessInPool)
      ensures r.InvalidGuess? <==> !IsAlphaLowerLen(ToLower(Trim(raw)), 3, 7)
      ensures r.NoWordAvailable? <==> IsAlphaLowerLen(ToLower(Trim(raw)), 3, 7) && today !in old(daily)
                                      && AvailableLengths(pools) == []
      ensures r.InvalidGuess? || r.NoWordAvailable? ==>
                daily == old(daily) && usedWords == old(usedWords) && users == old(users)
                && ledger.wallets == old(ledger.wallets)
      ensures !r.InvalidGuess? && !r.NoWordAvailable? ==>
                && (today !in old(daily) ==>
                      usedWords == old(usedWords) + [UsedWord(today, old(PickedDaily(today, cutoff, lenDraw, wordDraw))[today].answer,
                                                               old(PickedDaily(today, cutoff, lenDraw, wordDraw))[today].len)])
                && (today in old(daily) ==> usedWords == old(usedWords))
                && AttemptStep(ledger, g, u, ToLower(Trim(raw)), today, yesterday,
                               old(PickedDaily(today, cutoff, lenDraw, wordDraw)), old(users), old(ledger.wallets), r)
    {
      var guess := ToLower(Trim(raw));
      if !IsAlphaLowerLen(guess, 3, 7) {
        return InvalidGuess;
      }
      var d := PickWordForToday(today, cutoff, lenDraw, wordDraw);
      if d.None? {
        return NoWordAvailable;
      }
      r := Attempt(ledger, g, u, guess, today, yesterday);
    }

    /** The checks and the scoring of one guess at today's existing puzzle. */
    method Attempt(ledger: Nestcoins.Ledger, g: GuildId, u: UserId, guess: string, today: string, yesterday: string)
      returns (r: GuessResult)
      requires Valid() && ledger.Valid() && today in daily && IsAlphaLowerLen(guess, 3, 7)
      modifies this, ledger
      ensures Valid() && ledger.Valid()
      ensures pools == old(pools) && requireGuessInPool == old(requireGuessInPool) && usedWords == old(usedWords)
      ensures AttemptStep(ledger, g, u, guess, today, yesterday, old(daily), old(users), old(ledger.wallets), r)
    {
      var d := daily[today];
      if |guess| != d.len {
        return WrongLength(d.len);
      }
      if requireGuessInPool && guess !in PoolOf(pools, d.len) {
        return NotInPool;
      }
      if u in d.solvedBy {
        return AlreadySolved;
      }
      if Used(d, u) >= d.attempts {
        return NoAttemptsLeft;
      }
      var row := ScoreGuess(guess, d.answer);
      var after := RecordGuess(d, u, row);
      AttemptKeepsValid(d, u, row, guess == d.answer);
      if guess == d.answer {
        daily := daily[today := after.(solvedBy := after.solvedBy + [u])];
        var s := SolveStreak(StreakOf(users, u), today, yesterday);
        users := users[u := s];
        var coins := SolveCoins(d.reward, s.streakCount);
        var balance := ledger.AddCoins(g, u, coins);
        r := Solved(row, coins, balance);
      } else {
        daily := daily[today := after];
        r := Missed(row, after.attempts - Used(after, u));
      }
    }

    /** What info shows of a puzzle: its length, attempts and reward, and
        the attempts the user has used and has left, never below zero. */
    static function InfoOf(d: Daily, u: UserId): (r: InfoResult)
      requires DailyValid(d)
      ensures r.TodayInfo? && r.len == d.len && r.attempts == d.attempts && r.reward == d.reward
      ensures r.used == Used(d, u) && 0 <= r.used <= r.attempts && r.left == r.attempts - r.used
    {
      var used := Used(d, u);
      UsedWithin(d, u);
      TodayInfo(d.len, d.attempts, d.reward, used, Max(0, d.attempts - used))
    }

    /** info: today's length, attempts and reward (picking today's word when
        there is none yet), and the attempts the user has used and has left. */
    method Info(u: UserId, today: string, cutoff: string, lenDraw: nat, wordDraw: nat) returns (r: InfoResult)
      requires Valid()
      modifies this
      ensures Valid()
      ensures users == old(users) && pools == old(pools) && requireGuessInPool == old(requireGuessInPool)
      ensures r.InfoUnavailable? <==> today !in old(daily) && AvailableLengths(pools) == []
      ensures r.InfoUnavailable? ==> daily == old(daily) && usedWords == old(usedWords)
      ensures r.TodayInfo? ==>
                && today in daily && daily == old(PickedDaily(today, cutoff, lenDraw, wordDraw))
                && r == InfoOf(daily[today], u)
    {
      var d := PickWordForToday(today, cutoff, lenDraw, wordDraw);
      if d.None? {
        return InfoUnavailable;
      }
      assert DailyValid(daily[today]);
      r := InfoOf(daily[today], u);
    }

    /** set (admin only): store a word for a date, overwriting that date's
        puzzle and its used-word log entry. */
    method Set(admin: bool, raw: string, date: Option<string>, manualReward: Option<int>, today: string)
      returns (r: SetResult)
      requires Valid()
      modifies this
      ensures Valid()
      ensures users == old(users) && pools == old(pools) && requireGuessInPool == old(requireGuessInPool)
      ensures !r.WordSet? ==> daily == old(daily) && usedWords == old(usedWords)
      ensures !admin ==> r == SetNotAdmin
      ensures var day := if date.Some? && date.value != [] then date.value else today;
              var word := ToLower(Trim(raw));
              && (admin && !IsYmd(day) ==> r == BadDate)
              && (admin && IsYmd(day) && !IsAlphaLowerLen(word, 3, 7) ==> r == BadWord)
              && (r.WordSet? <==> admin && IsYmd(day) && IsAlphaLowerLen(word, 3, 7))
              && (r.WordSet? ==>
                    && r.date == day
                    && r.daily == NewDaily(word, if manualReward.Some? then manualReward.value
                                                 else RewardForAttempts(AttemptsForLen(|word|)))
                    && daily == old(daily)[day := r.daily]
                    && usedWords == OtherDays(old(usedWords), day) + [UsedWord(day, word, |word|)])
    {
      if !admin {
        return SetNotAdmin;
      }
      var word := ToLower(Trim(raw));
      var day := if date.Some? && date.value != [] then date.value else today;
      if !IsYmd(day) {
        return BadDate;
      }
      if !IsAlphaLowerLen(word, 3, 7) {
        return BadWord;
      }
      var reward := if manualReward.Some? then manualReward.value else RewardForAttempts(AttemptsForLen(|word|));
      var d := Store(day, word, reward);
      r := WordSet(day, d);
    }

    /** The writes of set: the date's puzzle and its used-word entry. */
    method Store(day: string, word: string, reward: int) returns (d: Daily)
      requires Valid()
      modifies this
      ensures Valid()
      ensures users == old(users) && pools == old(pools) && requireGuessInPool == old(requireGuessInPool)
      ensures d == NewDaily(word, reward)
      ensures daily == old(daily)[day := d]
      ensures usedWords == OtherDays(old(usedWords), day) + [UsedWord(day, word, |word|)]
    {
      d := NewDaily(word, reward);
      NewDailyValid(word, reward);
      daily := daily[day := d];
      usedWords := OtherDays(usedWords, day) + [UsedWord(day, word, |word|)];
    }

    /** pool-bulkadd (admin only). */
    method PoolBulkAdd(admin: bool, raw: string) returns (r: BulkAddResult)
      requires Valid()
      modifies this
      ensures Valid()
      ensures daily == old(daily) && users == old(users) && usedWords == old(usedWords)
      ensures requireGuessInPool == old(requireGuessInPool)
      ensures !admin ==> r == BulkNotAdmin && pools == old(pools)
      ensures admin && ParseBulkWords(raw) == [] ==> r == NoWordsGiven && pools == old(pools)
      ensures admin && ParseBulkWords(raw) != [] ==>
                r.BulkAdded? && Admission(pools, r.added, r.skipped) == Admit(Admission(old(pools), [], []), ParseBulkWords(raw))
    {
      if !admin {
        return BulkNotAdmin;
      }
      var words := ParseBulkWords(raw);
      if words == [] {
        return NoWordsGiven;
      }
      var added, skipped := AddWords(words);
      r := BulkAdded(added, skipped);
    }

    /** The word list is loaded, updated word by word and saved once. */
    method AddWords(words: seq<string>) returns (added: seq<string>, skipped: seq<string>)
      requires Valid()
      modifies this
      ensures Valid()
      ensures daily == old(daily) && users == old(users) && usedWords == old(usedWords)
      ensures requireGuessInPool == old(requireGuessInPool)
      ensures Admission(pools, added, skipped) == Admit(Admission(old(pools), [], []), words)
    {
      var st := AdmitAll(pools, words);
      AdmitKeepsValid(Admission(pools, [], []), words);
      pools := st.pools;
      added, skipped := st.added, st.skipped;
    }

  /** pool-remove (admin only): drop the word from the pool of its length. */
    method PoolRemove(admin: bool, raw: string) returns (r: RemoveResult)
      requires Valid()
      modifies this
      ensures Valid()
      ensures daily == old(daily) && users == old(users) && usedWords == old(usedWords)
      ensures requireGuessInPool == old(requireGuessInPool)
      ensures !admin ==> r == RemoveNotAdmin && pools == old(pools)
      ensures var word := ToLower(Trim(raw));
              && (admin && !Admissible(word) ==> r == RemoveBadWord && pools == old(pools))
              && (admin && Admissible(word) ==>
                    pools == old(pools)[|word| := Without(PoolOf(old(pools), |word|), word)]
                    && (r == Removed <==> word in PoolOf(old(pools), |word|))
                    && (r != Removed ==> r == NotInPoolList))
    {
      if !admin {
        return RemoveNotAdmin;
      }
      var word := ToLower(Trim(raw));
      if !Admissible(word) {
        return RemoveBadWord;
      }
      var before := PoolOf(pools, |word|);
      var after := Without(before, word);
      WithoutKeepsPoolValid(before, word, |word|);
      pools := pools[|word| := after];
      r := if |after| < |before| then Removed else NotInPoolList;
    }

    /** pool-clear (admin only): empty the pool of one length. */
    method PoolClear(admin: bool, length: int) returns (r: ClearResult)
      requires Valid()
      modifies this
      ensures Valid()
      ensures daily == old(daily) && users == old(users) && usedWords == old(usedWords)
      ensures requireGuessInPool == old(requireGuessInPool)
      ensures !admin ==> r == ClearNotAdmin && pools == old(pools)
      ensures admin && (length < 3 || length > 7) ==> r == ClearBadLength && pools == old(pools)
      ensures admin && 3 <= length <= 7 ==> r == Cleared(length) && pools == old(pools)[length := []]
      ensures forall len :: len != length ==> PoolOf(pools, len) == PoolOf(old(pools), len)
    {
      if !admin {
        return ClearNotAdmin;
      }
      if length < 3 || length > 7 {
        return ClearBadLength;
      }
      pools := pools[length := []];
      r := Cleared(length);
    }

    /** pool-list (admin only). */
    function PoolList(admin: bool, length: int, page: Option<int>): (r: ListResult)
      reads this
      ensures !admin ==> r == ListNotAdmin
      ensures admin && (length < 3 || length > 7) ==> r == BadLength
      ensures admin && 3 <= length <= 7 ==>
                r.PoolPage? && r.size == |PoolOf(pools, length)|
                && SortedStrings(r.words)
                && forall w :: w in r.words ==> w in PoolOf(pools, length)
      ensures admin && 3 <= length <= 7 ==>
                r.PoolPage? && 1 <= r.page <= r.totalPages
                && r.totalPages == Max(1, (r.size + 49) / 50)
                && (page.Some? && 1 <= page.value <= r.totalPages ==> r.page == page.value)
                && (page.Some? && page.value > r.totalPages ==> r.page == r.totalPages)
                && (page.None? || page.value < 1 ==> r.page == 1)
                && |SortStrings(PoolOf(pools, length))| == r.size
                && r.words == SortStrings(PoolOf(pools, length))[(r.page - 1) * 50 .. Min(r.page * 50, r.size)]
    {
      if !admin then ListNotAdmin
      else if length < 3 || length > 7 then BadLength
      else
        var sorted := SortStrings(PoolOf(pools, length));
        assert |sorted| == |multiset(sorted)| == |PoolOf(pools, length)|;
        var r := PageOf(sorted, page);
        SortedSlice(sorted, (r.page - 1) * 50, Min(r.page * 50, |sorted|));
        r
    }
  }

  /** A page of a sorted list is sorted and holds only words of the list. */
  lemma SortedSlice(s: seq<string>, lo: int, hi: int)
    requires SortedStrings(s) && 0 <= lo <= hi <= |s|
    ensures SortedStrings(s[lo..hi])
    ensures forall w :: w in s[lo..hi] ==> w in multiset(s)
  {
    forall i, j | 0 <= i < j < hi - lo ensures StrLessEq(s[lo..hi][i], s[lo..hi][j]) {
      assert s[lo..hi][i] == s[lo + i] && s[lo..hi][j] == s[lo + j];
    }
  }

  /** `usedWords.filter(e => e.date !== date)`. */
  function OtherDays(usedWords: seq<UsedWord>, date: string): (r: seq<UsedWord>)
    ensures forall e :: e in r <==> e in usedWords && e.date != date
  {
    if usedWords == [] then []
    else
      var rest := OtherDays(usedWords[1..], date);
      assert forall e :: e in usedWords <==> e == usedWords[0] || e in usedWords[1..];
      if usedWords[0].date == date then rest else [usedWords[0]] + rest
  }

  lemma {:induction false} WithoutKeepsDistinct(pool: seq<string>, word: string)
    requires NoDuplicates(pool)
    ensures NoDuplicates(Without(pool, word))
  {
    if pool != [] {
      assert NoDuplicates(pool[1..]) by {
        forall a, b | 0 <= a < b < |pool[1..]| ensures pool[1..][a] != pool[1..][b] {
          assert pool[1..][a] == pool[a + 1] && pool[1..][b] == pool[b + 1];
        }
      }
      WithoutKeepsDistinct(pool[1..], word);
      assert pool[0] !in pool[1..] by {
        forall k | 0 <= k < |pool[1..]| ensures pool[1..][k] != pool[0] {
          assert pool[1..][k] == pool[k + 1];
        }
      }
    }
  }
}
