/** The /balance command of src/commands/balance.js: viewing a balance,
    granting and removing coins (administrators only) and transferring coins
    between two members, each as a sequence of ledger calls behind the
    command's own checks. The user option may be missing, which is None. */
module BalanceCommand {
  import opened Common
  import Nestcoins

  datatype GrantOutcome = GrantRefused | InvalidGrant | Granted(newBalance: int)

  datatype RemoveOutcome = RemoveRefused | InvalidRemove | Insufficient | Removed(newBalance: int)

  datatype TransferOutcome =
    | InvalidTransfer
    | SelfTransfer
    | TooPoor(balance: int)
    | Transferred(senderBalance: int, targetBalance: int)

  /** A transfer on one wallet: the amount is taken from the sender, then
      added to the target. */
  function TransferIn(w: Nestcoins.Wallet, from: UserId, to: UserId, amount: int): (r: Nestcoins.Wallet)
    requires UniqueKeys(w)
    ensures UniqueKeys(r)
  {
    var taken := Nestcoins.Debit(w, from, amount).0;
    Nestcoins.Credit(taken, to, amount).0
  }

  /** A transfer the command lets through moves exactly `amount` from the
      sender to the target, so their total is unchanged, and nobody else's
      entry is touched. */
  lemma {:induction false} TransferConserves(w: Nestcoins.Wallet, from: UserId, to: UserId, amount: int)
    requires UniqueKeys(w) && from != to && 1 <= amount <= Nestcoins.BalanceIn(w, from)
    requires Nestcoins.BalanceIn(w, to) >= 0
    ensures Nestcoins.BalanceIn(TransferIn(w, from, to, amount), from) == Nestcoins.BalanceIn(w, from) - amount
    ensures Nestcoins.BalanceIn(TransferIn(w, from, to, amount), to) == Nestcoins.BalanceIn(w, to) + amount
    ensures Nestcoins.BalanceIn(TransferIn(w, from, to, amount), from) + Nestcoins.BalanceIn(TransferIn(w, from, to, amount), to)
            == Nestcoins.BalanceIn(w, from) + Nestcoins.BalanceIn(w, to)
    ensures forall v :: v != from && v != to ==> Lookup(TransferIn(w, from, to, amount), v) == Lookup(w, v)
  {
    var taken := Nestcoins.Debit(w, from, amount).0;
    assert Lookup(taken, to) == Lookup(w, to);
    assert Nestcoins.BalanceIn(taken, to) == Nestcoins.BalanceIn(w, to);
    var after := Nestcoins.Credit(taken, to, amount).0;
    assert Lookup(after, from) == Lookup(taken, from);
  }

  /** /balance view: the balance of the chosen user, or of the caller. */
  method View(ledger: Nestcoins.Ledger, g: GuildId, caller: UserId, user: Option<UserId>) returns (b: int)
    requires ledger.Valid()
    modifies ledger
    ensures ledger.Valid()
    ensures b == old(ledger.Balance(g, if user.Some? then user.value else caller))
    ensures ledger.wallets == old(ledger.wallets)[g := old(ledger.WalletOf(g))]
  {
    var target := if user.Some? then user.value else caller;
    b := ledger.GetBalance(g, target);
  }

  /** /balance grant: administrators only, a target and an amount of at
      least 1; then addCoins. */
  method Grant(ledger: Nestcoins.Ledger, g: GuildId, isAdmin: bool, target: Option<UserId>, amount: int)
    returns (r: GrantOutcome)
    requires ledger.Valid()
    modifies ledger
    ensures ledger.Valid()
    ensures r == GrantRefused <==> !isAdmin
    ensures r == InvalidGrant <==> isAdmin && (target.None? || amount < 1)
    ensures !r.Granted? ==> ledger.wallets == old(ledger.wallets)
    ensures r.Granted? ==> var c := Nestcoins.Credit(old(ledger.WalletOf(g)), target.value, amount);
                           ledger.wallets == old(ledger.wallets)[g := c.0] && r.newBalance == c.1
  {
    if !isAdmin {
      return GrantRefused;
    }
    if target.None? || amount < 1 {
      return InvalidGrant;
    }
    var newBalance := ledger.AddCoins(g, target.value, amount);
    r := Granted(newBalance);
  }

  /** /balance remove: administrators only, a target and an amount of at
      least 1; then removeCoins, whose refusal is reported as insufficient
      funds. */
  method Remove(ledger: Nestcoins.Ledger, g: GuildId, isAdmin: bool, target: Option<UserId>, amount: int)
    returns (r: RemoveOutcome)
    requires ledger.Valid()
    modifies ledger
    ensures ledger.Valid()
    ensures r == RemoveRefused <==> !isAdmin
    ensures r == InvalidRemove <==> isAdmin && (target.None? || amount < 1)
    ensures r == Insufficient <==> isAdmin && target.Some? && amount >= 1
                                   && Nestcoins.BalanceIn(old(ledger.WalletOf(g)), target.value) < amount
    ensures r == RemoveRefused || r == InvalidRemove ==> ledger.wallets == old(ledger.wallets)
    ensures r == Insufficient ==> ledger.wallets == old(ledger.wallets)[g := old(ledger.WalletOf(g))]
    ensures r.Removed? ==> r.newBalance == Nestcoins.BalanceIn(old(ledger.WalletOf(g)), target.value) - amount
                           && ledger.wallets == old(ledger.wallets)[g := Nestcoins.Debit(old(ledger.WalletOf(g)), target.value, amount).0]
  {
    if !isAdmin {
      return RemoveRefused;
    }
    if target.None? || amount < 1 {
      return InvalidRemove;
    }
    var newBal := ledger.RemoveCoins(g, target.value, amount);
    if newBal.None? {
      return Insufficient;
    }
    r := Removed(newBal.value);
  }

  /** /balance transfer: a target and an amount of at least 1, a target
      other than the sender, and a sender balance that covers the amount;
      then removeCoins from the sender and addCoins to the target. The reply
      shows the balance read before the transfer minus the amount. */
  method Transfer(ledger: Nestcoins.Ledger, g: GuildId, sender: UserId, target: Option<UserId>, amount: int)
    returns (r: TransferOutcome)
    requires ledger.Valid()
    modifies ledger
    ensures ledger.Valid()
    ensures r == InvalidTransfer <==> target.None? || amount < 1
    ensures r == SelfTransfer <==> target.Some? && amount >= 1 && target.value == sender
    ensures r.TooPoor? <==> target.Some? && amount >= 1 && target.value != sender
                            && old(ledger.Balance(g, sender)) < amount
    ensures r == InvalidTransfer || r == SelfTransfer ==> ledger.wallets == old(ledger.wallets)
    ensures r.TooPoor? ==> r.balance == old(ledger.Balance(g, sender))
                           && ledger.wallets == old(ledger.wallets)[g := old(ledger.WalletOf(g))]
    ensures r.Transferred? ==>
              r.senderBalance == old(ledger.Balance(g, sender)) - amount
              && ledger.wallets == old(ledger.wallets)[g := TransferIn(old(ledger.WalletOf(g)), sender, target.value, amount)]
              && r.targetBalance == ledger.Balance(g, target.value)
  {
    if target.None? || amount < 1 {
      return InvalidTransfer;
    }
    if target.value == sender {
      return SelfTransfer;
    }
    var senderBalance := ledger.GetBalance(g, sender);
    if senderBalance < amount {
      return TooPoor(senderBalance);
    }
    assert ledger.WalletOf(g) == old(ledger.WalletOf(g));
    var newBalance := Move(ledger, g, sender, target.value, amount);
    UpdateTwice(old(ledger.wallets), g, old(ledger.WalletOf(g)), ledger.wallets[g]);
    r := Transferred(senderBalance - amount, newBalance);
  }

  /** Writing a guild's wallet back and then replacing it is one replacement. */
  lemma UpdateTwice(m: map<GuildId, Nestcoins.Wallet>, g: GuildId, a: Nestcoins.Wallet, b: Nestcoins.Wallet)
    ensures m[g := a][g := b] == m[g := b]
  {
  }

  /** The two ledger calls of a transfer that passed the checks. */
  method Move(ledger: Nestcoins.Ledger, g: GuildId, sender: UserId, target: UserId, amount: int)
    returns (targetBalance: int)
    requires ledger.Valid()
    modifies ledger
    ensures ledger.Valid()
    ensures ledger.wallets == old(ledger.wallets)[g := TransferIn(old(ledger.WalletOf(g)), sender, target, amount)]
    ensures targetBalance == ledger.Balance(g, target)
  {
    ghost var w := ledger.WalletOf(g);
    var _ := ledger.RemoveCoins(g, sender, amount);
    ghost var taken := ledger.wallets[g];
    targetBalance := ledger.AddCoins(g, target, amount);
    assert ledger.wallets[g] == Nestcoins.Credit(taken, target, amount).0;
  }
}
