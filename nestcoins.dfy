/** The CommonJS NestCoins ledger (src/services/nestcoins.js): one wallet per
    guild, mapping user ids to stored JSON values. Only integer values count as
    balances; anything else reads as 0. Every operation runs inside one
    synchronous `db.perform`, so each is one atomic method here. */
module Nestcoins {
  import opened Common

  /** A stored JSON value: an integer, or something else (a fraction, a string,
      null) that `Number.isInteger` rejects. */
  datatype Stored = Whole(n: int) | NotWhole

  /** One guild's wallet object, in insertion order (user ids are not array
      indices, so that is JavaScript's key order). */
  type Wallet = Entries<Stored>

  /** getBalance's reading of one entry. */
  function BalanceIn(w: Wallet, u: UserId): int {
    var v := Lookup(w, u);
    if v.Some? then Reading(v.value) else 0
  }

  function Reading(v: Stored): int {
    if v.Whole? then v.n else 0
  }

  /** getAllBalances: every entry in key order, non-integers reported as 0. */
  function AllBalances(w: Wallet): (r: seq<(UserId, int)>)
    requires UniqueKeys(w)
    ensures |r| == |w|
    ensures forall i :: 0 <= i < |r| ==> r[i].0 == w[i].0 && r[i].1 == BalanceIn(w, w[i].0)
  {
    var r := seq(|w|, i requires 0 <= i < |w| => (w[i].0, Reading(w[i].1)));
    assert forall i :: 0 <= i < |w| ==> Lookup(w, w[i].0) == Some(w[i].1);
    r
  }

  /** addCoins: the balance becomes max(0, current + amount), also for a
      negative amount; only the user's own key is written. */
  function Credit(w: Wallet, u: UserId, amount: int): (r: (Wallet, int))
    requires UniqueKeys(w)
    ensures UniqueKeys(r.0)
    ensures r.1 >= 0
    ensures BalanceIn(w, u) + amount >= 0 ==> r.1 == BalanceIn(w, u) + amount
    ensures BalanceIn(w, u) + amount < 0 ==> r.1 == 0
    ensures BalanceIn(r.0, u) == r.1
    ensures forall v :: v != u ==> Lookup(r.0, v) == Lookup(w, v)
  {
    var nb := Max(0, BalanceIn(w, u) + amount);
    PutProperties(w, u, Whole(nb));
    (Put(w, u, Whole(nb)), nb)
  }

  /** removeCoins: all or nothing. A non-positive amount or one larger than the
      balance is refused (None) and nothing is written; otherwise the balance
      drops by exactly `amount` and the new balance is returned. */
  function Debit(w: Wallet, u: UserId, amount: int): (r: (Wallet, Option<int>))
    requires UniqueKeys(w)
    ensures UniqueKeys(r.0)
    ensures r.1.None? <==> amount <= 0 || BalanceIn(w, u) < amount
    ensures r.1.None? ==> r.0 == w
    ensures r.1.Some? ==> r.1.value == BalanceIn(w, u) - amount >= 0 && BalanceIn(r.0, u) == r.1.value
    ensures forall v :: v != u ==> Lookup(r.0, v) == Lookup(w, v)
  {
    if amount <= 0 then (w, None)
    else
      var candidate := BalanceIn(w, u) - amount;
      if candidate < 0 then (w, None)
      else
        PutProperties(w, u, Whole(candidate));
        (Put(w, u, Whole(candidate)), Some(candidate))
  }

  /** A successful removal followed by adding the same amount back restores the
      balance, and the other users' entries were never touched. */
  lemma DebitThenCredit(w: Wallet, u: UserId, amount: int)
    requires UniqueKeys(w)
    requires Debit(w, u, amount).1.Some?
    ensures Credit(Debit(w, u, amount).0, u, amount).1 == BalanceIn(w, u)
    ensures forall v :: v != u ==> Lookup(Credit(Debit(w, u, amount).0, u, amount).0, v) == Lookup(w, v)
  {
  }

  /** data.nestcoins: the wallets of every guild. */
  class Ledger {
    var wallets: map<GuildId, Wallet>

    ghost predicate Valid()
      reads this
    {
      forall g :: g in wallets ==> UniqueKeys(wallets[g])
    }

    constructor ()
      ensures Valid() && wallets == map[]
    {
      wallets := map[];
    }

    /** The guild's wallet; ensureWallet creates it empty when absent. */
    function WalletOf(g: GuildId): Wallet
      reads this
    {
      if g in wallets then wallets[g] else []
    }

    function Balance(g: GuildId, u: UserId): int
      reads this
    {
      BalanceIn(WalletOf(g), u)
    }

    method GetBalance(g: GuildId, u: UserId) returns (b: int)
      requires Valid()
      modifies this
      ensures Valid()
      ensures b == old(Balance(g, u))
      ensures wallets == old(wallets)[g := old(WalletOf(g))]
    {
      var w := WalletOf(g);
      wallets := wallets[g := w];
      b := BalanceIn(w, u);
    }

    method GetAllBalances(g: GuildId) returns (r: seq<(UserId, int)>)
      requires Valid()
      modifies this
      ensures Valid()
      ensures r == AllBalances(old(WalletOf(g)))
      ensures wallets == old(wallets)[g := old(WalletOf(g))]
    {
      var w := WalletOf(g);
      wallets := wallets[g := w];
      r := AllBalances(w);
    }

    method AddCoins(g: GuildId, u: UserId, amount: int) returns (newBalance: int)
      requires Valid()
      modifies this
      ensures Valid()
      ensures g in wallets && (wallets[g], newBalance) == Credit(old(WalletOf(g)), u, amount)
      ensures wallets == old(wallets)[g := wallets[g]]
    {
      var w := WalletOf(g);
      var current := BalanceIn(w, u);
      newBalance := current + amount;
      if newBalance < 0 {
        newBalance := 0;
      }
      PutProperties(w, u, Whole(newBalance));
      wallets := wallets[g := Put(w, u, Whole(newBalance))];
    }

    method RemoveCoins(g: GuildId, u: UserId, amount: int) returns (result: Option<int>)
      requires Valid()
      modifies this
      ensures Valid()
      ensures g in wallets && (wallets[g], result) == Debit(old(WalletOf(g)), u, amount)
      ensures wallets == old(wallets)[g := wallets[g]]
    {
      var w := WalletOf(g);
      wallets := wallets[g := w];
      var current := BalanceIn(w, u);
      if amount <= 0 {
        return None;
      }
      var candidate := current - amount;
      if candidate < 0 {
        return None;
      }
      PutProperties(w, u, Whole(candidate));
      wallets := wallets[g := Put(w, u, Whole(candidate))];
      result := Some(candidate);
    }
  }
}
