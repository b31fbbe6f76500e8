/** The dashboard Wordle of src/features/wordle.js over the ESM store: one
    five-letter answer per guild, set with a date; a correct guess pays the
    configured bonus once per user. `today` is the UTC date string. */
module WordleFeature {
  import opened Common
  import opened Text
  import opened Store
  import Config
  import Utils

  datatype GuessResult =
    | NotFiveLetters
    | NoWordleToday
    | AlreadySolved
    | Correct(credited: int, newBalance: int)
    | NotQuite(tiles: seq<Tile>)

  /** `/^[a-z]{5}$/`. */
  predicate FiveLower(w: string) {
    |w| == 5 && AllLower(w)
  }

  /** The guess as the handler compares it: lower-cased, then trimmed. */
  function Cleaned(raw: string): string {
    Trim(ToLower(raw))
  }

  /** A puzzle is open when an answer is set and its date is today. */
  predicate OpenToday(w: WordleConfig, today: string) {
    w.answer.Some? && w.answer.value != "" && w.date == Some(today)
  }

  /** `c.wordle.bonus || 5`: a zero bonus pays 5. */
  function Payout(w: WordleConfig): (b: int)
    ensures w.bonus != 0 ==> b == w.bonus
    ensures w.bonus == 0 ==> b == 5
  {
    if w.bonus != 0 then w.bonus else 5
  }

  /** The store after a correct guess: the user joins solvedBy, then the
      payout is added to their coins. */
  function Solved(gs: map<GuildId, Guild>, g: GuildId, u: UserId, c: GuildConfig): (map<GuildId, Guild>, int)
    requires c.wordle.Some?
  {
    var w := c.wordle.value;
    var cfg := c.(wordle := Some(w.(solvedBy := w.solvedBy + [u])));
    AddIn(Config.WithConfig(gs, g, cfg), g, u, "coins", Payout(w))
  }

  /** /wordle guess. Anything but five letters is refused before the store
      is read; then the puzzle must be open today and not yet solved by the
      user. A wrong guess only reports its tiles. */
  method Guess(db: Db, g: GuildId, u: UserId, raw: string, today: string) returns (r: GuessResult)
    modifies db
    ensures r == NotFiveLetters <==> !FiveLower(Cleaned(raw))
    ensures r == NotFiveLetters ==> db.guilds == old(db.guilds)
    ensures var c := Config.Filled(old(db.GuildOf(g)).config);
            && (r == NoWordleToday <==> FiveLower(Cleaned(raw)) && !OpenToday(c.wordle.value, today))
            && (r == AlreadySolved <==> FiveLower(Cleaned(raw)) && OpenToday(c.wordle.value, today) && u in c.wordle.value.solvedBy)
            && (r.NotQuite? <==> FiveLower(Cleaned(raw)) && OpenToday(c.wordle.value, today) && u !in c.wordle.value.solvedBy
                                 && Cleaned(raw) != c.wordle.value.answer.value)
            && (r == NoWordleToday || r == AlreadySolved || r.NotQuite? ==> db.guilds == Config.WithConfig(old(db.guilds), g, c))
            && (r.NotQuite? ==> r.tiles == Utils.YellowPass(Cleaned(raw), c.wordle.value.answer.value, 5).tiles)
            && (r.Correct? ==> r.credited == Payout(c.wordle.value)
                               && (db.guilds, r.newBalance) == Solved(old(db.guilds), g, u, c))
  {
    var word := Trim(ToLower(raw));
    if !(|word| == 5 && AllLower(word)) {
      return NotFiveLetters;
    }
    var c := Config.Cfg(db, g);
    var w := c.wordle.value;
    if w.answer.None? || w.answer.value == "" || w.date != Some(today) {
      return NoWordleToday;
    }
    if u in w.solvedBy {
      return AlreadySolved;
    }
    var answer := w.answer.value;
    var tiles := Utils.ScoreWordle(word, answer);
    if word == answer {
      var cfgNow := c.(wordle := Some(w.(solvedBy := w.solvedBy + [u])));
      Config.WithConfigTwice(old(db.guilds), g, c, cfgNow);
      db.guilds := Config.WithConfig(db.guilds, g, cfgNow);
      ghost var mid := db.guilds;
      assert mid == Config.WithConfig(old(db.guilds), g, cfgNow);
      var bal := db.Add(g, u, "coins", Payout(w));
      assert (db.guilds, bal) == AddIn(mid, g, u, "coins", Payout(w));
      return Correct(Payout(w), bal);
    }
    r := NotQuite(tiles);
  }

  /** A correct guess records the user once as a solver and credits the
      payout to their coins, clamped at zero like every add; nobody else's
      record changes. A second correct guess is then refused, since the
      user is in solvedBy. */
  lemma SolvedProperties(gs: map<GuildId, Guild>, g: GuildId, u: UserId, c: GuildConfig)
    requires c.wordle.Some? && u !in c.wordle.value.solvedBy
    ensures var (after, bal) := Solved(gs, g, u, c);
            && GuildIn(after, g).config.wordle.value.solvedBy == c.wordle.value.solvedBy + [u]
            && u in GuildIn(after, g).config.wordle.value.solvedBy
            && bal == Max(0, Amount(UserIn(gs, g, u), "coins") + Payout(c.wordle.value))
            && Amount(UserIn(after, g, u), "coins") == bal
            && forall h, v :: h != g || v != u ==> UserIn(after, h, v) == UserIn(gs, h, v)
  {
    var w := c.wordle.value;
    var cfg := c.(wordle := Some(w.(solvedBy := w.solvedBy + [u])));
    var mid := Config.WithConfig(gs, g, cfg);
    assert forall h, v :: UserIn(mid, h, v) == UserIn(gs, h, v);
  }

  /** A guess that equals the answer shows five green tiles. */
  lemma CorrectIsAllGreen(guess: string)
    requires |guess| == 5
    ensures forall i :: 0 <= i < 5 ==> Utils.YellowPass(guess, guess, 5).tiles[i] == Hit
  {
    Utils.WordleGreens(guess, guess);
  }
}
