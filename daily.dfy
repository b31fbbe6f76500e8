/** The /daily command of src/commands/daily.js: a claim of 10 NestCoins per
    user and guild, at most once in any 24 hours. The time of the last claim
    is kept per guild and user in milliseconds; `now` is the clock reading of
    the claim. */
module DailyCommand {
  import opened Common
  import Nestcoins

  const DailyAmount := 10
  const Cooldown := 24 * 60 * 60 * 1000
  const Hour := 3600000
  const Minute := 60000

  /** A claim pays, or reports the time left as whole hours and minutes. */
  datatype ClaimOutcome = Claimed(newBalance: int) | TooSoon(hours: int, minutes: int)

  /** The wait a refused claim reports, `COOLDOWN_MS - diff`, cut into whole
      hours and the whole minutes of the rest. */
  function TimeLeft(msLeft: int): (r: (int, int))
    requires msLeft > 0
    ensures r.0 >= 0 && 0 <= r.1 < 60
    ensures r.0 * Hour + r.1 * Minute <= msLeft < r.0 * Hour + (r.1 + 1) * Minute
  {
    (msLeft / Hour, (msLeft % Hour) / Minute)
  }

  /** While the clock does not run backwards the wait reported is at most
      `24h 0m`, which is what a second claim at the very same moment sees. */
  lemma TimeLeftWithinADay(last: int, now: int)
    requires 0 <= now - last < Cooldown
    ensures TimeLeft(Cooldown - (now - last)).0 <= 24
    ensures TimeLeft(Cooldown - (now - last)).0 == 24 ==> now == last && TimeLeft(Cooldown - (now - last)).1 == 0
  {
  }

  /** `data.daily`: per guild, per user, the time of the last claim. */
  class ClaimBook {
    var claims: map<GuildId, map<UserId, int>>

    constructor ()
      ensures claims == map[]
    {
      claims := map[];
    }

    function ClaimsOf(g: GuildId): map<UserId, int>
      reads this
    {
      if g in claims then claims[g] else map[]
    }

    /** `data.daily[guild][user] || 0`: a user who never claimed counts as
        having claimed at time 0. */
    function LastClaim(g: GuildId, u: UserId): int
      reads this
    {
      if u in ClaimsOf(g) then ClaimsOf(g)[u] else 0
    }

    /** A claim is allowed exactly when a full day has passed since the last
        one. */
    predicate MayClaim(g: GuildId, u: UserId, now: int)
      reads this
    {
      now - LastClaim(g, u) >= Cooldown
    }

    /** /daily. An allowed claim records `now` and then adds 10 coins; a
        refused one only creates the guild's record and reports the wait.
        Other users' and guilds' claims never change. */
    method Claim(ledger: Nestcoins.Ledger, g: GuildId, u: UserId, now: int) returns (r: ClaimOutcome)
      requires ledger.Valid()
      modifies this, ledger
      ensures ledger.Valid()
      ensures r.Claimed? <==> old(MayClaim(g, u, now))
      ensures r.Claimed? ==> claims == old(claims)[g := old(ClaimsOf(g))[u := now]]
                             && ledger.wallets == old(ledger.wallets)[g := Nestcoins.Credit(old(ledger.WalletOf(g)), u, DailyAmount).0]
                             && r.newBalance == Nestcoins.Credit(old(ledger.WalletOf(g)), u, DailyAmount).1
      ensures r.Claimed? ==> LastClaim(g, u) == now && forall later :: MayClaim(g, u, later) <==> later >= now + Cooldown
      ensures r.TooSoon? ==> claims == old(claims)[g := old(ClaimsOf(g))] && ledger.wallets == old(ledger.wallets)
                             && (r.hours, r.minutes) == TimeLeft(Cooldown - (now - old(LastClaim(g, u))))
    {
      var book := ClaimsOf(g);
      var last := if u in book then book[u] else 0;
      var diff := now - last;
      if diff >= Cooldown {
        claims := claims[g := book[u := now]];
        var newBalance := ledger.AddCoins(g, u, DailyAmount);
        return Claimed(newBalance);
      }
      claims := claims[g := book];
      var msLeft := Cooldown - diff;
      r := TooSoon(msLeft / Hour, (msLeft % Hour) / Minute);
    }
  }

  /** An allowed claim raises a balance that is not negative by exactly the
      daily amount. */
  lemma ClaimPaysTen(w: Nestcoins.Wallet, u: UserId)
    requires UniqueKeys(w) && Nestcoins.BalanceIn(w, u) >= 0
    ensures Nestcoins.Credit(w, u, DailyAmount).1 == Nestcoins.BalanceIn(w, u) + 10
  {
  }
}
