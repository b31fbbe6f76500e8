/** The /shop command of src/commands/shop.js: a per-guild catalogue kept as a
    numbered object (`data.shop[guild]`, ids 1..n), listed in id order,
    extended by administrators under the next id, shrunk by administrators
    with the rest renumbered, and bought from with NestCoins. */
module ShopCommand {
  import opened Common
  import opened Text
  import opened Numbered
  import Nestcoins

  datatype CatalogItem = CatalogItem(name: string, price: int, description: string)

  datatype AddOutcome = AddRefused | Added(id: int)

  datatype RemoveOutcome = RemoveRefused | NoSuchItem | Removed(name: string)

  /** The four replies of /shop buy. */
  datatype BuyOutcome = Unknown | TooPoor(name: string) | Failed | Bought(item: CatalogItem, newBalance: int)

  /** The embed fields of /shop list, one per item in id order: the title
      `#id: name` and the line `price Nestcoins - description`. */
  function ListFields(shop: map<int, CatalogItem>): (r: seq<(string, string)>)
    ensures |r| == |shop|
    ensures forall i :: 0 <= i < |r| ==>
              r[i].0 == "#" + IntToString(KeyOrder(shop.Keys)[i]) + ": " + Values(shop)[i].name
              && r[i].1 == IntToString(Values(shop)[i].price) + " Nestcoins - " + Values(shop)[i].description
  {
    var ks, vs := KeyOrder(shop.Keys), Values(shop);
    seq(|ks|, i requires 0 <= i < |ks| =>
      ("#" + IntToString(ks[i]) + ": " + vs[i].name, IntToString(vs[i].price) + " Nestcoins - " + vs[i].description))
  }

  /** In a catalogue with ids 1..n the listing numbers the items 1, 2, …, n,
      each with its own name. */
  lemma ListedInOrder(shop: map<int, CatalogItem>)
    requires Contiguous(shop)
    ensures forall i :: 0 <= i < |shop| ==>
              ListFields(shop)[i].0 == "#" + IntToString(i + 1) + ": " + shop[i + 1].name
  {
    ContiguousKeyOrder(shop);
  }

  /** An item added under the next id shows up last in the listing, with the
      number the reply announced. */
  lemma AddedListedLast(shop: map<int, CatalogItem>, item: CatalogItem)
    requires Contiguous(shop)
    ensures ListFields(shop[NextId(shop) := item])[|shop|].0 == "#" + IntToString(NextId(shop)) + ": " + item.name
    ensures Values(shop[NextId(shop) := item]) == Values(shop) + [item]
  {
    AddAppends(shop, item);
    ListedInOrder(shop[NextId(shop) := item]);
  }

  /** What /shop buy answers, given the catalogue and the wallet it reads. The
      balance is compared first; the debit itself refuses a price of zero or
      less, so a free item can never be bought. */
  function BuyOf(shop: map<int, CatalogItem>, w: Nestcoins.Wallet, u: UserId, id: int): (r: BuyOutcome)
    requires UniqueKeys(w)
  {
    if id !in shop then Unknown
    else if Nestcoins.BalanceIn(w, u) < shop[id].price then TooPoor(shop[id].name)
    else
      var debit := Nestcoins.Debit(w, u, shop[id].price);
      if debit.1.None? then Failed else Bought(shop[id], debit.1.value)
  }

  /** The four outcomes of a purchase, each by its condition: a sale happens
      exactly when the item exists, costs something and is affordable, and
      then the price is what comes off the balance. */
  lemma BuyCases(shop: map<int, CatalogItem>, w: Nestcoins.Wallet, u: UserId, id: int)
    requires UniqueKeys(w)
    ensures BuyOf(shop, w, u, id) == Unknown <==> id !in shop
    ensures BuyOf(shop, w, u, id).TooPoor? <==> id in shop && Nestcoins.BalanceIn(w, u) < shop[id].price
    ensures BuyOf(shop, w, u, id) == Failed <==>
              id in shop && shop[id].price <= 0 && shop[id].price <= Nestcoins.BalanceIn(w, u)
    ensures BuyOf(shop, w, u, id).Bought? <==>
              id in shop && 0 < shop[id].price <= Nestcoins.BalanceIn(w, u)
    ensures BuyOf(shop, w, u, id).Bought? ==>
              BuyOf(shop, w, u, id).item == shop[id]
              && BuyOf(shop, w, u, id).newBalance == Nestcoins.BalanceIn(w, u) - shop[id].price >= 0
  {
  }

  /** `data.shop`: one catalogue per guild. */
  class Catalogue {
    var shops: map<GuildId, map<int, CatalogItem>>

    /** Every catalogue has the ids 1..n. */
    ghost predicate Valid()
      reads this
    {
      AllContiguous(shops)
    }

    constructor ()
      ensures Valid() && shops == map[]
    {
      shops := map[];
    }

    /** `data.shop?.[guild] || {}`. */
    function ShopOf(g: GuildId): map<int, CatalogItem>
      reads this
    {
      if g in shops then shops[g] else map[]
    }

    /** /shop list: the fields, or None for "The shop is currently empty.". */
    method List(g: GuildId) returns (r: Option<seq<(string, string)>>)
      ensures r.None? <==> |ShopOf(g)| == 0
      ensures r.Some? ==> r.value == ListFields(ShopOf(g))
    {
      var shop := ShopOf(g);
      if |shop| == 0 {
        return None;
      }
      r := Some(ListFields(shop));
    }

    /** /shop add: refused to non-administrators; otherwise the item is stored
        under `count + 1`, which is a fresh id at the end of a 1..n catalogue. */
    method Add(g: GuildId, isAdmin: bool, name: string, price: int, description: string) returns (r: AddOutcome)
      modifies this
      ensures !isAdmin ==> r == AddRefused && shops == old(shops)
      ensures isAdmin ==> r == Added(NextId(old(ShopOf(g))))
                          && shops == old(shops)[g := old(ShopOf(g))[r.id := CatalogItem(name, price, description)]]
      ensures old(Valid()) ==> Valid()
      ensures isAdmin && old(Valid()) ==>
                Values(ShopOf(g)) == Values(old(ShopOf(g))) + [CatalogItem(name, price, description)]
    {
      if !isAdmin {
        return AddRefused;
      }
      var shop := ShopOf(g);
      var id := |shop| + 1;
      var item := CatalogItem(name, price, description);
      if old(Valid()) {
        AddAppends(shop, item);
        StillContiguous(shops, g, shop[id := item]);
      }
      shops := shops[g := shop[id := item]];
      r := Added(id);
    }

    /** /shop remove: refused to non-administrators; an id that is not in the
        catalogue changes nothing; otherwise the item is deleted and the rest
        renumbered 1..n - 1 in their previous order. */
    method Remove(g: GuildId, isAdmin: bool, id: int) returns (r: RemoveOutcome)
      modifies this
      ensures r == RemoveRefused <==> !isAdmin
      ensures r == NoSuchItem <==> isAdmin && id !in old(ShopOf(g))
      ensures !r.Removed? ==> shops == old(shops)
      ensures r.Removed? ==> id in old(ShopOf(g)) && r.name == old(ShopOf(g))[id].name
                             && shops == old(shops)[g := Numbered.Removed(old(ShopOf(g)), id)]
      ensures old(Valid()) ==> Valid()
    {
      if !isAdmin {
        return RemoveRefused;
      }
      var shop := ShopOf(g);
      if id !in shop {
        return NoSuchItem;
      }
      var name := shop[id].name;
      var items := Values(shop - {id});
      var renumbered := Renumber(items);
      RenumberedValues(items);
      assert renumbered == Numbered.Removed(shop, id);
      if old(Valid()) {
        StillContiguous(shops, g, renumbered);
      }
      shops := shops[g := renumbered];
      r := Removed(name);
    }

    /** /shop buy: looks the item up, reads the buyer's balance (which creates
        the guild's wallet), and debits the price when the balance covers it.
        The catalogue itself is not changed. */
    method Buy(ledger: Nestcoins.Ledger, g: GuildId, u: UserId, id: int) returns (r: BuyOutcome)
      requires ledger.Valid()
      modifies ledger
      ensures ledger.Valid()
      ensures r == BuyOf(old(ShopOf(g)), old(ledger.WalletOf(g)), u, id)
      ensures r.Bought? ==> ledger.wallets == old(ledger.wallets)[g := Nestcoins.Debit(old(ledger.WalletOf(g)), u, r.item.price).0]
      ensures r.Unknown? ==> ledger.wallets == old(ledger.wallets)
      ensures r.TooPoor? || r.Failed? ==> ledger.wallets == old(ledger.wallets)[g := old(ledger.WalletOf(g))]
    {
      var shop := ShopOf(g);
      if id !in shop {
        return Unknown;
      }
      var item := shop[id];
      var balance := ledger.GetBalance(g, u);
      if balance < item.price {
        return TooPoor(item.name);
      }
      var newBalance := ledger.RemoveCoins(g, u, item.price);
      if newBalance.None? {
        return Failed;
      }
      r := Bought(item, newBalance.value);
    }
  }
}
