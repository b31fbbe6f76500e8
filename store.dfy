/** The ESM in-memory store (src/store.js): one record per guild holding its
    configuration and its users, each user holding numeric counters (coins,
    paws, pain, lastDaily) and an inventory. Separate from the CommonJS
    NestCoins ledger, which lives in its own module. */
module Store {
  import opened Common

  /** The guild's `/wordle` configuration. */
  datatype WordleConfig = WordleConfig(date: Option<string>, answer: Option<string>, bonus: int, solvedBy: seq<UserId>)

  /** One item of the guild's shop list, as the dashboard stores it. `price`
      and `priceCurrency` may be missing. */
  datatype ShopItem = ShopItem(id: string, name: string, price: Option<int>, priceCurrency: Option<string>,
                               kind: string, meta: Entries<string>)

  /** The three configurable channels: the Bank, the Obedience Hall and the
      Kennel. */
  datatype Room = Bank | Obedience | Kennel

  /** `g.config`. Every key may be absent in a record loaded from disk. */
  datatype GuildConfig = GuildConfig(
    wordle: Option<WordleConfig>,
    shop: Option<seq<ShopItem>>,
    sassEnabled: Option<bool>,
    sassChance: Option<int>,
    rooms: map<Room, ChannelId>)

  /** An inventory entry. */
  datatype Item = Item(id: string, kind: string, name: string, meta: Entries<string>)

  /** A user record: the numeric fields present in it, and the inventory,
      which is None when the stored value is not an array. */
  datatype User = User(counters: map<string, int>, inventory: Option<seq<Item>>)

  datatype Guild = Guild(config: GuildConfig, users: map<UserId, User>)

  const DefaultWordle: WordleConfig := WordleConfig(None, None, 5, [])

  /** The record gstore creates for an unknown guild. */
  const NewGuild: Guild := Guild(GuildConfig(Some(DefaultWordle), Some([]), None, None, map[]), map[])

  /** The record ustore creates for an unknown user. */
  const NewUser: User := User(map["coins" := 0, "paws" := 0, "pain" := 0, "lastDaily" := 0], Some([]))

  /** gstore's result on the guild map, before it is written back. */
  function GuildIn(gs: map<GuildId, Guild>, g: GuildId): (r: Guild)
    ensures g in gs ==> r == gs[g]
    ensures g !in gs ==> r.users == map[] && r.config.wordle == Some(DefaultWordle) && r.config.shop == Some([])
  {
    if g in gs then gs[g] else NewGuild
  }

  /** ustore's result for a user record that may be missing: a new record, or
      the stored one with a non-array inventory replaced by an empty one. */
  function Normalized(stored: Option<User>): (r: User)
    ensures r.inventory.Some?
    ensures stored.None? ==> r == NewUser
    ensures stored.Some? ==> r.counters == stored.value.counters
    ensures stored.Some? && stored.value.inventory.Some? ==> r == stored.value
    ensures stored.Some? && stored.value.inventory.None? ==> r.inventory == Some([])
  {
    match stored
    case None => NewUser
    case Some(u) => if u.inventory.Some? then u else u.(inventory := Some([]))
  }

  function UserIn(gs: map<GuildId, Guild>, g: GuildId, u: UserId): (r: User)
    ensures r.inventory.Some?
  {
    var gr := GuildIn(gs, g);
    Normalized(if u in gr.users then Some(gr.users[u]) else None)
  }

  /** The guild map after one user record of one guild is written. */
  function WithUser(gs: map<GuildId, Guild>, g: GuildId, u: UserId, rec: User): (r: map<GuildId, Guild>)
    ensures g in r && u in r[g].users && r[g].users[u] == rec
    ensures r[g].config == GuildIn(gs, g).config
    ensures forall v :: v != u && v in GuildIn(gs, g).users ==> v in r[g].users && r[g].users[v] == GuildIn(gs, g).users[v]
    ensures forall h :: h != g && h in gs ==> h in r && r[h] == gs[h]
  {
    var gr := GuildIn(gs, g);
    gs[g := gr.(users := gr.users[u := rec])]
  }

  /** Writing the same user twice keeps only the second write. */
  lemma WithUserTwice(gs: map<GuildId, Guild>, g: GuildId, u: UserId, a: User, b: User)
    ensures WithUser(WithUser(gs, g, u, a), g, u, b) == WithUser(gs, g, u, b)
  {
    var gr := GuildIn(gs, g);
    assert gr.users[u := a][u := b] == gr.users[u := b];
  }

  /** `u[field] || 0`. */
  function Amount(rec: User, field: string): int {
    if field in rec.counters then rec.counters[field] else 0
  }

  /** add on one record: the field becomes max(0, old + amt), which is also
      returned; no other field and not the inventory changes. */
  function AddTo(rec: User, field: string, amt: int): (r: (User, int))
    ensures r.1 >= 0
    ensures Amount(rec, field) + amt >= 0 ==> r.1 == Amount(rec, field) + amt
    ensures Amount(rec, field) + amt < 0 ==> r.1 == 0
    ensures Amount(r.0, field) == r.1
    ensures forall f :: f != field ==> Amount(r.0, f) == Amount(rec, f)
    ensures r.0.inventory == rec.inventory
  {
    var v := Max(0, Amount(rec, field) + amt);
    (rec.(counters := rec.counters[field := v]), v)
  }

  /** Adding an amount and then taking it away again restores the field when
      the first step did not clamp. */
  lemma AddThenTakeBack(rec: User, field: string, amt: int)
    requires Amount(rec, field) >= 0 && Amount(rec, field) + amt >= 0
    ensures AddTo(AddTo(rec, field, amt).0, field, -amt).1 == Amount(rec, field)
  {
  }

  /** The first position of an inventory item with the given id, or -1. */
  function FindItem(inv: seq<Item>, id: string): (r: int)
    ensures -1 <= r < |inv|
    ensures r == -1 <==> forall k :: 0 <= k < |inv| ==> inv[k].id != id
    ensures r >= 0 ==> inv[r].id == id && forall k :: 0 <= k < r ==> inv[k].id != id
  {
    if inv == [] then -1
    else if inv[0].id == id then 0
    else
      var r := FindItem(inv[1..], id);
      if r == -1 then -1 else r + 1
  }

  /** popInventory on one inventory: the first item with that id is taken out
      and returned, the rest keeps its order; a missing id changes nothing. */
  function Pop(inv: seq<Item>, id: string): (r: (seq<Item>, Option<Item>))
    ensures r.1.None? <==> forall k :: 0 <= k < |inv| ==> inv[k].id != id
    ensures r.1.None? ==> r.0 == inv
    ensures r.1.Some? ==> exists k :: (0 <= k < |inv| && inv[k].id == id
                                       && (forall j :: 0 <= j < k ==> inv[j].id != id)
                                       && r.1.value == inv[k] && r.0 == RemoveAt(inv, k))
  {
    var k := FindItem(inv, id);
    if k == -1 then (inv, None) else (RemoveAt(inv, k), Some(inv[k]))
  }

  /** The guild map after gstore: the guild's record exists. */
  function Touched(gs: map<GuildId, Guild>, g: GuildId): (r: map<GuildId, Guild>)
    ensures g in r && r[g] == GuildIn(gs, g)
    ensures forall h :: h != g ==> (h in r <==> h in gs) && (h in gs ==> r[h] == gs[h])
  {
    gs[g := GuildIn(gs, g)]
  }

  /** The guild map after ustore: the user's record exists and is repaired. */
  function UserTouched(gs: map<GuildId, Guild>, g: GuildId, u: UserId): map<GuildId, Guild> {
    WithUser(gs, g, u, UserIn(gs, g, u))
  }

  /** add on the whole store: the new guild map and the returned value. Only
      the one user's record of the one guild is affected. */
  function AddIn(gs: map<GuildId, Guild>, g: GuildId, u: UserId, field: string, amt: int): (r: (map<GuildId, Guild>, int))
    ensures (UserIn(r.0, g, u), r.1) == AddTo(UserIn(gs, g, u), field, amt)
    ensures forall h, v :: h != g || v != u ==> UserIn(r.0, h, v) == UserIn(gs, h, v)
    ensures forall h :: h != g && h in gs ==> h in r.0 && r.0[h] == gs[h]
    ensures g in r.0 && r.0[g].config == GuildIn(gs, g).config
  {
    var (rec, v) := AddTo(UserIn(gs, g, u), field, amt);
    (WithUser(gs, g, u, rec), v)
  }

  /** pushInventory on the whole store: the user's inventory gains the item
      at its end; their counters and everybody else are untouched. */
  function PushedIn(gs: map<GuildId, Guild>, g: GuildId, u: UserId, it: Item): (r: map<GuildId, Guild>)
    ensures UserIn(r, g, u).inventory == Some(UserIn(gs, g, u).inventory.value + [it])
    ensures UserIn(r, g, u).counters == UserIn(gs, g, u).counters
    ensures forall h, v :: h != g || v != u ==> UserIn(r, h, v) == UserIn(gs, h, v)
  {
    var rec := UserIn(gs, g, u);
    WithUser(gs, g, u, rec.(inventory := Some(rec.inventory.value + [it])))
  }

  /** popInventory on the whole store. A miss still leaves the user's record
      created (ustore runs first). */
  function PoppedIn(gs: map<GuildId, Guild>, g: GuildId, u: UserId, id: string): (r: (map<GuildId, Guild>, Option<Item>))
    ensures (UserIn(r.0, g, u).inventory.value, r.1) == Pop(UserIn(gs, g, u).inventory.value, id)
    ensures r.1.None? ==> r.0 == UserTouched(gs, g, u)
    ensures UserIn(r.0, g, u).counters == UserIn(gs, g, u).counters
    ensures forall h, v :: h != g || v != u ==> UserIn(r.0, h, v) == UserIn(gs, h, v)
  {
    var rec := UserIn(gs, g, u);
    var (rest, item) := Pop(rec.inventory.value, id);
    if item.None? then
      WithUserReads(gs, g, u, rec);
      (UserTouched(gs, g, u), None)
    else
      WithUserReads(gs, g, u, rec.(inventory := Some(rest)));
      (WithUser(gs, g, u, rec.(inventory := Some(rest))), item)
  }

  /** What ustore reads back after a user write: the written record for that
      user, and the old record for everyone else. */
  lemma WithUserReads(gs: map<GuildId, Guild>, g: GuildId, u: UserId, rec: User)
    requires rec.inventory.Some?
    ensures UserIn(WithUser(gs, g, u, rec), g, u) == rec
    ensures forall h, v :: h != g || v != u ==> UserIn(WithUser(gs, g, u, rec), h, v) == UserIn(gs, h, v)
  {
  }

  /** Creating the guild record first (gstore) makes no difference to what
      ustore, add or a user write see or produce. */
  lemma TouchedFirst(gs: map<GuildId, Guild>, g: GuildId, u: UserId, rec: User, field: string, amt: int)
    ensures UserIn(Touched(gs, g), g, u) == UserIn(gs, g, u)
    ensures WithUser(Touched(gs, g), g, u, rec) == WithUser(gs, g, u, rec)
    ensures UserTouched(Touched(gs, g), g, u) == UserTouched(gs, g, u)
    ensures AddIn(Touched(gs, g), g, u, field, amt) == AddIn(gs, g, u, field, amt)
  {
    TouchedThenWrite(gs, g, u, rec);
    TouchedThenWrite(gs, g, u, UserIn(gs, g, u));
    TouchedThenWrite(gs, g, u, AddTo(UserIn(gs, g, u), field, amt).0);
  }

  /** A user write after gstore is the same write without it. */
  lemma TouchedThenWrite(gs: map<GuildId, Guild>, g: GuildId, u: UserId, rec: User)
    ensures UserIn(Touched(gs, g), g, u) == UserIn(gs, g, u)
    ensures WithUser(Touched(gs, g), g, u, rec) == WithUser(gs, g, u, rec)
  {
    assert GuildIn(Touched(gs, g), g) == GuildIn(gs, g);
  }

  /** Calling ustore before add changes nothing add would not do anyway. */
  lemma AddAfterTouch(gs: map<GuildId, Guild>, g: GuildId, u: UserId, field: string, amt: int)
    ensures AddIn(UserTouched(gs, g, u), g, u, field, amt) == AddIn(gs, g, u, field, amt)
  {
    var t := UserTouched(gs, g, u);
    assert UserIn(t, g, u) == UserIn(gs, g, u);
    WithUserTwice(gs, g, u, UserIn(gs, g, u), AddTo(UserIn(gs, g, u), field, amt).0);
  }

  /** An item pushed under an id the inventory does not hold yet is the one
      the next pop of that id returns, and the inventory is as before. */
  lemma {:induction false} PopAfterPush(inv: seq<Item>, it: Item)
    requires forall k :: 0 <= k < |inv| ==> inv[k].id != it.id
    ensures Pop(inv + [it], it.id) == (inv, Some(it))
  {
    var s := inv + [it];
    assert s[|inv|] == it;
    assert FindItem(s, it.id) == |inv|;
    assert RemoveAt(s, |inv|) == inv;
  }

  /** `DB.guilds`. */
  class Db {
    var guilds: map<GuildId, Guild>

    constructor ()
      ensures guilds == map[]
    {
      guilds := map[];
    }

    function GuildOf(g: GuildId): Guild
      reads this
    {
      GuildIn(guilds, g)
    }

    function UserOf(g: GuildId, u: UserId): User
      reads this
    {
      UserIn(guilds, g, u)
    }

    /** gstore: creates the guild's record if it is missing. */
    method GStore(g: GuildId) returns (r: Guild)
      modifies this
      ensures r == old(GuildOf(g))
      ensures guilds == Touched(old(guilds), g)
    {
      if g !in guilds {
        guilds := guilds[g := NewGuild];
      }
      r := guilds[g];
    }

    /** ustore: creates the user's record, or repairs its inventory. */
    method UStore(g: GuildId, u: UserId) returns (r: User)
      modifies this
      ensures r == old(UserOf(g, u))
      ensures guilds == UserTouched(old(guilds), g, u)
    {
      var gr := GStore(g);
      if u !in gr.users {
        r := NewUser;
      } else if gr.users[u].inventory.None? {
        r := gr.users[u].(inventory := Some([]));
      } else {
        r := gr.users[u];
      }
      guilds := guilds[g := gr.(users := gr.users[u := r])];
    }

    /** add: the new value of the field, never below zero. */
    method Add(g: GuildId, u: UserId, field: string, amt: int) returns (v: int)
      modifies this
      ensures (guilds, v) == AddIn(old(guilds), g, u, field, amt)
    {
      var rec := UStore(g, u);
      v := Amount(rec, field) + amt;
      if v < 0 {
        v := 0;
      }
      rec := rec.(counters := rec.counters[field := v]);
      WithUserTwice(old(guilds), g, u, old(UserOf(g, u)), rec);
      guilds := WithUser(guilds, g, u, rec);
    }

    /** pushInventory: the item goes to the end of the inventory. */
    method PushInventory(g: GuildId, u: UserId, item: Item) returns (r: Item)
      modifies this
      ensures r == item
      ensures guilds == PushedIn(old(guilds), g, u, item)
    {
      var rec := UStore(g, u);
      rec := rec.(inventory := Some(rec.inventory.value + [item]));
      WithUserTwice(old(guilds), g, u, old(UserOf(g, u)), rec);
      guilds := WithUser(guilds, g, u, rec);
      r := item;
    }

    /** popInventory: takes out the first item with the id; null when none. */
    method PopInventory(g: GuildId, u: UserId, id: string) returns (r: Option<Item>)
      modifies this
      ensures (guilds, r) == PoppedIn(old(guilds), g, u, id)
    {
      var rec := UStore(g, u);
      var idx := FindItem(rec.inventory.value, id);
      if idx == -1 {
        return None;
      }
      r := Some(rec.inventory.value[idx]);
      rec := rec.(inventory := Some(RemoveAt(rec.inventory.value, idx)));
      WithUserTwice(old(guilds), g, u, old(UserOf(g, u)), rec);
      guilds := WithUser(guilds, g, u, rec);
    }
  }
}
