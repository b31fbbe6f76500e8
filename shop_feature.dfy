/** The dashboard shop of src/features/shop.js over the ESM store: /buy
    (lookup, price check, charge, then the item's effect) and /use (take one
    item out of the inventory). `now` is the purchase time in milliseconds. */
module ShopFeature {
  import opened Common
  import opened Text
  import opened Store
  import Config

  /** What applyItemEffect did: an item went into the inventory, or a role
      was to be granted (which only touches Discord). */
  datatype Effect = Stored(item: Item) | RoleGranted

  datatype BuyResult = ItemNotFound | NotEnoughFunds(field: string) | Purchased(effect: Effect)

  datatype UseResult = NotInInventory | Used(item: Item)

  /** `items.find(x => x.id === id)`. */
  function FindShopItem(items: seq<ShopItem>, id: string): (r: Option<ShopItem>)
    ensures r.None? <==> forall k :: 0 <= k < |items| ==> items[k].id != id
    ensures r.Some? ==> exists k :: 0 <= k < |items| && items[k] == r.value && r.value.id == id
                                    && forall j :: 0 <= j < k ==> items[j].id != id
  {
    if items == [] then None
    else if items[0].id == id then Some(items[0])
    else
      var r := FindShopItem(items[1..], id);
      assert forall k :: 1 <= k < |items| ==> items[k] == items[1..][k - 1];
      r
  }

  /** `item.priceCurrency || 'coins'`. */
  function PriceField(it: ShopItem): string {
    if Config.Truthy(it.priceCurrency) then it.priceCurrency.value else "coins"
  }

  /** `item.price ?? 0`. */
  function Price(it: ShopItem): int {
    if it.price.Some? then it.price.value else 0
  }

  /** The three coupon types. */
  predicate IsCoupon(kind: string) {
    kind == "coupon_skip" || kind == "coupon_reroll" || kind == "coupon_reverse"
  }

  /** The inventory entry a purchase creates: the shop id, a colon and the
      purchase time make its id; coupons carry empty metadata, other types
      their shop metadata. */
  function Granted(it: ShopItem, now: int): (r: Item)
    ensures r.id == it.id + ":" + IntToString(now)
    ensures r.kind == it.kind && r.name == it.name
    ensures IsCoupon(it.kind) ==> r.meta == []
    ensures !IsCoupon(it.kind) ==> r.meta == it.meta
  {
    Item(it.id + ":" + IntToString(now), it.kind, it.name, if IsCoupon(it.kind) then [] else it.meta)
  }

  /** Purchases at different times of the same shop item never produce the
      same inventory id. */
  lemma GrantedIdsDiffer(it: ShopItem, t1: int, t2: int)
    requires t1 != t2
    ensures Granted(it, t1).id != Granted(it, t2).id
  {
    var a, b := Granted(it, t1).id, Granted(it, t2).id;
    var n := |it.id| + 1;
    if a == b {
      assert a[n..] == IntToString(t1);
      assert b[n..] == IntToString(t2);
      IntToStringInjective(t1, t2);
    }
  }

  /** applyItemEffect: coupons and unknown types go into the inventory; a
      cosmetic role is a Discord action only. */
  method ApplyItemEffect(db: Db, g: GuildId, u: UserId, it: ShopItem, now: int) returns (e: Effect)
    modifies db
    ensures it.kind == "role_cosmetic" <==> e == RoleGranted
    ensures e == RoleGranted ==> db.guilds == old(db.guilds)
    ensures e.Stored? ==> e.item == Granted(it, now) && db.guilds == PushedIn(old(db.guilds), g, u, e.item)
  {
    if IsCoupon(it.kind) {
      var item := db.PushInventory(g, u, Item(it.id + ":" + IntToString(now), it.kind, it.name, []));
      return Stored(item);
    }
    if it.kind == "role_cosmetic" {
      return RoleGranted;
    }
    var item := db.PushInventory(g, u, Item(it.id + ":" + IntToString(now), it.kind, it.name, it.meta));
    e := Stored(item);
  }

  /** The store after the shop configuration has been read with cfg. */
  function CfgRead(gs: map<GuildId, Guild>, g: GuildId): map<GuildId, Guild> {
    Config.WithConfig(gs, g, Config.Filled(GuildIn(gs, g).config))
  }

  /** `cfg(g).shop.items`. */
  function ShopItems(gs: map<GuildId, Guild>, g: GuildId): seq<ShopItem> {
    Config.Filled(GuildIn(gs, g).config).shop.value
  }

  /** What /buy does to the store and what it answers. */
  function BuyOutcome(gs: map<GuildId, Guild>, g: GuildId, u: UserId, id: string, now: int): (map<GuildId, Guild>, BuyResult) {
    var read := CfgRead(gs, g);
    var found := FindShopItem(ShopItems(gs, g), id);
    if found.None? then (read, ItemNotFound)
    else PayFor(read, g, u, found.value, now)
  }

  /** The part of /buy after the item is found: the buyer's record is read
      (and created), the price is checked, taken, and the item's effect
      applied. */
  function PayFor(gs: map<GuildId, Guild>, g: GuildId, u: UserId, it: ShopItem, now: int): (map<GuildId, Guild>, BuyResult) {
    if Amount(UserIn(gs, g, u), PriceField(it)) < Price(it) then (UserTouched(gs, g, u), NotEnoughFunds(PriceField(it)))
    else
      var charged := AddIn(gs, g, u, PriceField(it), -Price(it)).0;
      if it.kind == "role_cosmetic" then (charged, Purchased(RoleGranted))
      else (PushedIn(charged, g, u, Granted(it, now)), Purchased(Stored(Granted(it, now))))
  }

  /** Paying for a found item: refused exactly when the paying balance is
      short, and then nobody changes; otherwise exactly a non-negative price
      leaves that balance, no other field changes, and the inventory grows
      by the granted item unless it is a cosmetic role. No other user is
      affected. */
  lemma PayForProperties(gs: map<GuildId, Guild>, g: GuildId, u: UserId, it: ShopItem, now: int)
    ensures var (after, r) := PayFor(gs, g, u, it, now);
            var before := UserIn(gs, g, u);
            && (r.NotEnoughFunds? <==> Amount(before, PriceField(it)) < Price(it))
            && (r.NotEnoughFunds? ==> forall h, v :: UserIn(after, h, v) == UserIn(gs, h, v))
            && (forall h, v :: h != g || v != u ==> UserIn(after, h, v) == UserIn(gs, h, v))
            && (r.Purchased? && Price(it) >= 0 ==> Amount(UserIn(after, g, u), PriceField(it)) == Amount(before, PriceField(it)) - Price(it))
            && (r.Purchased? ==> forall f :: f != PriceField(it) ==> Amount(UserIn(after, g, u), f) == Amount(before, f))
            && (r.Purchased? && it.kind != "role_cosmetic" ==> UserIn(after, g, u).inventory == Some(before.inventory.value + [Granted(it, now)]))
            && (r.Purchased? && it.kind == "role_cosmetic" ==> UserIn(after, g, u).inventory == before.inventory)
  {
    var before := UserIn(gs, g, u);
    if Amount(before, PriceField(it)) < Price(it) {
      assert UserIn(UserTouched(gs, g, u), g, u) == before;
    }
  }

  /** Reading the configuration changes no user record. */
  lemma CfgReadKeepsUsers(gs: map<GuildId, Guild>, g: GuildId)
    ensures forall h, v :: UserIn(CfgRead(gs, g), h, v) == UserIn(gs, h, v)
  {
  }

  /** /buy charges nobody for an unknown item or an unaffordable one. A
      purchase takes exactly a non-negative price from the buyer's paying
      balance and adds one inventory item unless it is a cosmetic role; no
      other user is affected. */
  lemma BuyProperties(gs: map<GuildId, Guild>, g: GuildId, u: UserId, id: string, now: int)
    ensures var (after, r) := BuyOutcome(gs, g, u, id, now);
            && (r == ItemNotFound <==> forall k :: 0 <= k < |ShopItems(gs, g)| ==> ShopItems(gs, g)[k].id != id)
            && (r.ItemNotFound? || r.NotEnoughFunds? ==> forall h, v :: UserIn(after, h, v) == UserIn(gs, h, v))
            && (forall h, v :: h != g || v != u ==> UserIn(after, h, v) == UserIn(gs, h, v))
    ensures var (after, r) := BuyOutcome(gs, g, u, id, now);
            var found := FindShopItem(ShopItems(gs, g), id);
            found.Some? ==>
              var it := found.value;
              var before := UserIn(gs, g, u);
              && (r.NotEnoughFunds? <==> Amount(before, PriceField(it)) < Price(it))
              && (r.Purchased? && Price(it) >= 0 ==> Amount(UserIn(after, g, u), PriceField(it)) == Amount(before, PriceField(it)) - Price(it))
              && (r.Purchased? ==> forall f :: f != PriceField(it) ==> Amount(UserIn(after, g, u), f) == Amount(before, f))
              && (r.Purchased? && it.kind != "role_cosmetic" ==> UserIn(after, g, u).inventory == Some(before.inventory.value + [Granted(it, now)]))
              && (r.Purchased? && it.kind == "role_cosmetic" ==> UserIn(after, g, u).inventory == before.inventory)
  {
    CfgReadKeepsUsers(gs, g);
    var found := FindShopItem(ShopItems(gs, g), id);
    if found.Some? {
      PayForProperties(CfgRead(gs, g), g, u, found.value, now);
    }
  }

  /** /buy. */
  method Buy(db: Db, g: GuildId, u: UserId, id: string, now: int) returns (r: BuyResult)
    modifies db
    ensures (db.guilds, r) == BuyOutcome(old(db.guilds), g, u, id, now)
  {
    var c := Config.Cfg(db, g);
    var found := FindShopItem(c.shop.value, id);
    if found.None? {
      return ItemNotFound;
    }
    r := Pay(db, g, u, found.value, now);
  }

  /** The purchase of an item /buy found in the shop. */
  method Pay(db: Db, g: GuildId, u: UserId, it: ShopItem, now: int) returns (r: BuyResult)
    modifies db
    ensures (db.guilds, r) == PayFor(old(db.guilds), g, u, it, now)
  {
    var rec := db.UStore(g, u);
    var field := PriceField(it);
    var price := Price(it);
    if Amount(rec, field) < price {
      return NotEnoughFunds(field);
    }
    AddAfterTouch(old(db.guilds), g, u, field, -price);
    var _ := db.Add(g, u, field, -price);
    var e := ApplyItemEffect(db, g, u, it, now);
    r := Purchased(e);
  }

  /** /use: the first inventory item with the id is taken out; a missing id
      is refused and the inventory stays as it was. */
  method Use(db: Db, g: GuildId, u: UserId, itemId: string) returns (r: UseResult)
    modifies db
    ensures (db.guilds, if r.Used? then Some(r.item) else None) == PoppedIn(old(db.guilds), g, u, itemId)
  {
    var it := db.PopInventory(g, u, itemId);
    if it.None? {
      return NotInInventory;
    }
    r := Used(it.value);
  }
}
