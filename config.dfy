/** The per-guild configuration helpers of src/config.js, over the ESM store:
    defaults filled on first read, the room check, and the dashboard's wordle
    and shop setters. */
module Config {
  import opened Common
  import opened Text
  import opened Store

  /** cfg's defaults: each key is filled only when it is absent, so values
      already present are kept. */
  function Filled(c: GuildConfig): (r: GuildConfig)
    ensures r.sassEnabled.Some? && r.sassChance.Some? && r.wordle.Some? && r.shop.Some?
    ensures c.sassEnabled.Some? ==> r.sassEnabled == c.sassEnabled
    ensures c.sassEnabled.None? ==> r.sassEnabled == Some(true)
    ensures c.sassChance.Some? ==> r.sassChance == c.sassChance
    ensures c.sassChance.None? ==> r.sassChance == Some(25)
    ensures c.wordle.Some? ==> r.wordle == c.wordle
    ensures c.wordle.None? ==> r.wordle == Some(DefaultWordle)
    ensures c.shop.Some? ==> r.shop == c.shop
    ensures c.shop.None? ==> r.shop == Some([])
    ensures r.rooms == c.rooms
  {
    GuildConfig(
      if c.wordle.None? then Some(DefaultWordle) else c.wordle,
      if c.shop.None? then Some([]) else c.shop,
      if c.sassEnabled.None? then Some(true) else c.sassEnabled,
      if c.sassChance.None? then Some(25) else c.sassChance,
      c.rooms)
  }

  /** Filling the defaults twice is the same as once. */
  lemma FilledIdempotent(c: GuildConfig)
    ensures Filled(Filled(c)) == Filled(c)
  {
  }

  /** The guild map after one guild's configuration is replaced. */
  function WithConfig(gs: map<GuildId, Guild>, g: GuildId, c: GuildConfig): (r: map<GuildId, Guild>)
    ensures g in r && r[g] == GuildIn(gs, g).(config := c)
    ensures forall h :: h != g ==> (h in r <==> h in gs) && (h in gs ==> r[h] == gs[h])
  {
    gs[g := GuildIn(gs, g).(config := c)]
  }

  /** Writing a guild's configuration twice keeps only the second write. */
  lemma WithConfigTwice(gs: map<GuildId, Guild>, g: GuildId, a: GuildConfig, b: GuildConfig)
    ensures WithConfig(WithConfig(gs, g, a), g, b) == WithConfig(gs, g, b)
  {
  }

  /** cfg. */
  method Cfg(db: Db, g: GuildId) returns (c: GuildConfig)
    modifies db
    ensures c == Filled(old(db.GuildOf(g)).config)
    ensures db.guilds == WithConfig(old(db.guilds), g, c)
  {
    var gr := db.GStore(g);
    c := gr.config;
    if c.sassEnabled.None? {
      c := c.(sassEnabled := Some(true));
    }
    if c.sassChance.None? {
      c := c.(sassChance := Some(25));
    }
    if c.wordle.None? {
      c := c.(wordle := Some(DefaultWordle));
    }
    if c.shop.None? {
      c := c.(shop := Some([]));
    }
    db.guilds := db.guilds[g := gr.(config := c)];
  }

  /** setRooms on the channel map: a room whose id is given is overwritten,
      every other room keeps its setting, present or not. */
  function WithRooms(rooms: map<Room, ChannelId>, bank: Option<ChannelId>, obedience: Option<ChannelId>,
                     kennel: Option<ChannelId>): (r: map<Room, ChannelId>)
    ensures forall room :: Given(room, bank, obedience, kennel).Some? ==> room in r && r[room] == Given(room, bank, obedience, kennel).value
    ensures forall room :: Given(room, bank, obedience, kennel).None? ==> (room in r <==> room in rooms) && (room in rooms ==> r[room] == rooms[room])
  {
    var r1 := if bank.Some? then rooms[Bank := bank.value] else rooms;
    var r2 := if obedience.Some? then r1[Obedience := obedience.value] else r1;
    if kennel.Some? then r2[Kennel := kennel.value] else r2
  }

  /** The id supplied for one room, if any. */
  function Given(room: Room, bank: Option<ChannelId>, obedience: Option<ChannelId>, kennel: Option<ChannelId>): Option<ChannelId> {
    match room
    case Bank => bank
    case Obedience => obedience
    case Kennel => kennel
  }

  /** Setting no room at all leaves the channels as they were. */
  lemma WithNoRooms(rooms: map<Room, ChannelId>)
    ensures WithRooms(rooms, None, None, None) == rooms
  {
  }

  /** setRooms: writes the given ids into the guild's (not default-filled)
      configuration and returns it. */
  method SetRooms(db: Db, g: GuildId, bank: Option<ChannelId>, obedience: Option<ChannelId>, kennel: Option<ChannelId>)
    returns (c: GuildConfig)
    modifies db
    ensures c == old(db.GuildOf(g)).config.(rooms := WithRooms(old(db.GuildOf(g)).config.rooms, bank, obedience, kennel))
    ensures db.guilds == WithConfig(old(db.guilds), g, c)
  {
    var gr := db.GStore(g);
    c := gr.config;
    if bank.Some? {
      c := c.(rooms := c.rooms[Bank := bank.value]);
    }
    if obedience.Some? {
      c := c.(rooms := c.rooms[Obedience := obedience.value]);
    }
    if kennel.Some? {
      c := c.(rooms := c.rooms[Kennel := kennel.value]);
    }
    db.guilds := db.guilds[g := gr.(config := c)];
  }

  /** The room check's verdict for a configuration. */
  predicate RoomOk(c: GuildConfig, room: Room, channel: ChannelId) {
    room !in c.rooms || c.rooms[room] == channel
  }

  /** requireRoom: allowed when the room has no channel configured or the
      command was used in that channel; the guild record is created on the
      way. */
  method RequireRoom(db: Db, g: GuildId, channel: ChannelId, room: Room) returns (ok: bool)
    modifies db
    ensures ok <==> room !in old(db.GuildOf(g)).config.rooms || old(db.GuildOf(g)).config.rooms[room] == channel
    ensures db.guilds == Touched(old(db.guilds), g)
  {
    var gr := db.GStore(g);
    if room !in gr.config.rooms {
      return true;
    }
    if channel != gr.config.rooms[room] {
      return false;
    }
    return true;
  }

  /** A present, non-empty string: JavaScript's truthiness of an optional
      string. */
  predicate Truthy(s: Option<string>) {
    s.Some? && s.value != ""
  }

  /** setWordle on a (default-filled) wordle record: the answer is lower-cased
      ("" when missing), the bonus kept unless a finite one is given (None
      stands for a missing or non-finite bonus), the date defaults to today,
      and nobody has solved it yet. */
  function Reset(w: WordleConfig, answer: Option<string>, bonus: Option<int>, date: Option<string>, today: string): (r: WordleConfig)
    ensures r.solvedBy == []
    ensures r.answer.Some? && IsLowered(r.answer.value)
    ensures Truthy(answer) ==> r.answer == Some(ToLower(answer.value))
    ensures !Truthy(answer) ==> r.answer == Some("")
    ensures bonus.Some? ==> r.bonus == bonus.value
    ensures bonus.None? ==> r.bonus == w.bonus
    ensures r.date == Some(if Truthy(date) then date.value else today)
  {
    ToLowerChars(if Truthy(answer) then answer.value else "");
    WordleConfig(Some(if Truthy(date) then date.value else today),
                 Some(ToLower(if Truthy(answer) then answer.value else "")),
                 if bonus.Some? then bonus.value else w.bonus,
                 [])
  }

  /** setWordle. */
  method SetWordle(db: Db, g: GuildId, answer: Option<string>, bonus: Option<int>, date: Option<string>, today: string)
    returns (w: WordleConfig)
    modifies db
    ensures w == Reset(Filled(old(db.GuildOf(g)).config).wordle.value, answer, bonus, date, today)
    ensures db.guilds == WithConfig(old(db.guilds), g, Filled(old(db.GuildOf(g)).config).(wordle := Some(w)))
  {
    var c := Cfg(db, g);
    var ans := if Truthy(answer) then answer.value else "";
    w := c.wordle.value.(answer := Some(ToLower(ans)));
    if bonus.Some? {
      w := w.(bonus := bonus.value);
    }
    w := w.(date := Some(if Truthy(date) then date.value else today));
    w := w.(solvedBy := []);
    db.guilds := WithConfig(db.guilds, g, c.(wordle := Some(w)));
  }

  /** setShop: the item list is replaced wholesale. */
  method SetShop(db: Db, g: GuildId, items: seq<ShopItem>) returns (r: seq<ShopItem>)
    modifies db
    ensures r == items
    ensures db.guilds == WithConfig(old(db.guilds), g, Filled(old(db.GuildOf(g)).config).(shop := Some(items)))
  {
    var c := Cfg(db, g);
    db.guilds := WithConfig(db.guilds, g, c.(shop := Some(items)));
    r := items;
  }
}
