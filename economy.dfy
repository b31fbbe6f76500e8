/** The economy slash commands of src/features/economy.js over the ESM store:
    /setrooms, /daily, /transfer, /grant, /deduct and /burnpain. Permission
    checks arrive as a boolean, the clock as `now` (milliseconds) and the
    random daily bonus as a draw in 0..2. */
module Economy {
  import opened Common
  import opened Store
  import Config

  const DayMs: int := 86_400_000
  const HourMs: int := 3_600_000

  datatype SetRoomsResult = SetRoomsForbidden | RoomsSet(rooms: map<Room, ChannelId>)

  datatype DailyResult = DailyWrongRoom | TooSoon(hoursLeft: int) | Received(amount: int)

  datatype TransferResult = TransferWrongRoom | SelfTransfer | NotEnough | Sent

  datatype AdjustResult = AdjustForbidden | AdjustWrongRoom | Adjusted(newValue: int)

  datatype BurnResult = BurnWrongRoom | NotEnoughPain | Burned

  /** /setrooms: refused without Manage Server; otherwise only the channels
      given are overwritten. */
  method SetRoomsCommand(db: Db, g: GuildId, isAdmin: bool, bank: Option<ChannelId>, obedience: Option<ChannelId>,
                         kennel: Option<ChannelId>) returns (r: SetRoomsResult)
    modifies db
    ensures !isAdmin <==> r == SetRoomsForbidden
    ensures !isAdmin ==> db.guilds == old(db.guilds)
    ensures isAdmin ==> r.RoomsSet? && r.rooms == Config.WithRooms(old(db.GuildOf(g)).config.rooms, bank, obedience, kennel)
    ensures isAdmin ==> db.guilds == Config.WithConfig(old(db.guilds), g, old(db.GuildOf(g)).config.(rooms := r.rooms))
  {
    if !isAdmin {
      return SetRoomsForbidden;
    }
    var c := Config.SetRooms(db, g, bank, obedience, kennel);
    r := RoomsSet(c.rooms);
  }

  /** `Math.ceil(x / HourMs)` for a positive x. */
  function CeilHours(x: int): (h: int)
    requires x > 0
    ensures h >= 1 && (h - 1) * HourMs < x <= h * HourMs
  {
    (x + HourMs - 1) / HourMs
  }

  /** The daily claim on one user record: the last claim becomes `now` and the
      coins grow by `amount`, without add's clamp. */
  function Claimed(rec: User, now: int, amount: int): (r: User)
    ensures Amount(r, "lastDaily") == now
    ensures Amount(r, "coins") == Amount(rec, "coins") + amount
    ensures forall f :: f != "lastDaily" && f != "coins" ==> Amount(r, f) == Amount(rec, f)
    ensures r.inventory == rec.inventory
  {
    rec.(counters := rec.counters["lastDaily" := now]["coins" := Amount(rec, "coins") + amount])
  }

  /** /daily in the Bank: refused while less than a day has passed since the
      last claim (reporting the hours left, rounded up); otherwise 3 to 5
      coins. */
  method Daily(db: Db, g: GuildId, u: UserId, channel: ChannelId, now: int, draw: nat) returns (r: DailyResult)
    requires draw < 3
    modifies db
    ensures r == DailyWrongRoom <==> !Config.RoomOk(old(db.GuildOf(g)).config, Bank, channel)
    ensures r == DailyWrongRoom ==> db.guilds == Touched(old(db.guilds), g)
    ensures r.TooSoon? <==> Config.RoomOk(old(db.GuildOf(g)).config, Bank, channel)
                            && now - Amount(old(db.UserOf(g, u)), "lastDaily") < DayMs
    ensures r.TooSoon? ==> r.hoursLeft == CeilHours(DayMs - (now - Amount(old(db.UserOf(g, u)), "lastDaily")))
    ensures r.TooSoon? ==> db.guilds == UserTouched(old(db.guilds), g, u)
    ensures r.Received? ==> 3 <= r.amount <= 5 && r.amount == 3 + draw
    ensures r.Received? ==> db.guilds == WithUser(old(db.guilds), g, u, Claimed(old(db.UserOf(g, u)), now, r.amount))
  {
    var ok := Config.RequireRoom(db, g, channel, Bank);
    if !ok {
      return DailyWrongRoom;
    }
    TouchedFirst(old(db.guilds), g, u, NewUser, "coins", 0);
    var rec := db.UStore(g, u);
    var diff := now - Amount(rec, "lastDaily");
    if diff < DayMs {
      return TooSoon(CeilHours(DayMs - diff));
    }
    var amount := 3 + draw;
    rec := rec.(counters := rec.counters["lastDaily" := now]);
    rec := rec.(counters := rec.counters["coins" := Amount(rec, "coins") + amount]);
    assert rec == Claimed(old(db.UserOf(g, u)), now, amount);
    WithUserTwice(old(db.guilds), g, u, old(db.UserOf(g, u)), rec);
    db.guilds := WithUser(db.guilds, g, u, rec);
    r := Received(amount);
  }

  /** The store after a transfer of `amount` of `field`: taken from the
      sender with add(-amount), then given to the receiver with add(amount). */
  function Moved(gs: map<GuildId, Guild>, g: GuildId, from: UserId, to: UserId, field: string, amount: int): map<GuildId, Guild> {
    AddIn(AddIn(gs, g, from, field, -amount).0, g, to, field, amount).0
  }

  /** A transfer between two users who both hold non-negative amounts, of no
      more than the sender holds, conserves their total; nobody else is
      touched. */
  lemma MovedConserves(gs: map<GuildId, Guild>, g: GuildId, from: UserId, to: UserId, field: string, amount: int)
    requires from != to && 0 <= amount <= Amount(UserIn(gs, g, from), field)
    requires Amount(UserIn(gs, g, to), field) >= 0
    ensures Amount(UserIn(Moved(gs, g, from, to, field, amount), g, from), field) == Amount(UserIn(gs, g, from), field) - amount
    ensures Amount(UserIn(Moved(gs, g, from, to, field, amount), g, to), field) == Amount(UserIn(gs, g, to), field) + amount
    ensures forall h, v :: (h != g || (v != from && v != to)) ==> UserIn(Moved(gs, g, from, to, field, amount), h, v) == UserIn(gs, h, v)
  {
    var mid := AddIn(gs, g, from, field, -amount).0;
    assert UserIn(mid, g, to) == UserIn(gs, g, to);
  }

  /** The guild record that the room check creates changes neither what the
      sender holds nor what paying produces. */
  lemma TouchedThenPay(gs: map<GuildId, Guild>, g: GuildId, from: UserId, to: UserId, field: string, amount: int)
    ensures UserIn(Touched(gs, g), g, from) == UserIn(gs, g, from)
    ensures UserTouched(Touched(gs, g), g, from) == UserTouched(gs, g, from)
    ensures Moved(Touched(gs, g), g, from, to, field, amount) == Moved(gs, g, from, to, field, amount)
  {
    TouchedFirst(gs, g, from, NewUser, field, -amount);
  }

  /** Creating the guild record and then the user record first changes
      neither what the user holds nor what adding to it produces. */
  lemma TouchedThenAdd(gs: map<GuildId, Guild>, g: GuildId, u: UserId, field: string, amt: int)
    ensures UserIn(Touched(gs, g), g, u) == UserIn(gs, g, u)
    ensures UserTouched(Touched(gs, g), g, u) == UserTouched(gs, g, u)
    ensures AddIn(UserTouched(Touched(gs, g), g, u), g, u, field, amt) == AddIn(gs, g, u, field, amt)
  {
    TouchedFirst(gs, g, u, NewUser, field, amt);
    AddAfterTouch(gs, g, u, field, amt);
  }

  /** /transfer in the Bank: no transfer to oneself, none beyond the sender's
      balance; otherwise the amount moves from sender to receiver. */
  method Transfer(db: Db, g: GuildId, from: UserId, to: UserId, amount: int, field: string, channel: ChannelId)
    returns (r: TransferResult)
    modifies db
    ensures r == TransferWrongRoom <==> !Config.RoomOk(old(db.GuildOf(g)).config, Bank, channel)
    ensures r == SelfTransfer <==> Config.RoomOk(old(db.GuildOf(g)).config, Bank, channel) && to == from
    ensures r == TransferWrongRoom || r == SelfTransfer ==> db.guilds == Touched(old(db.guilds), g)
    ensures r == NotEnough <==> Config.RoomOk(old(db.GuildOf(g)).config, Bank, channel) && to != from
                                && Amount(old(db.UserOf(g, from)), field) < amount
    ensures r == NotEnough ==> db.guilds == UserTouched(old(db.guilds), g, from)
    ensures r == Sent ==> db.guilds == Moved(old(db.guilds), g, from, to, field, amount)
  {
    ghost var gs := db.guilds;
    var ok := Config.RequireRoom(db, g, channel, Bank);
    if !ok {
      return TransferWrongRoom;
    }
    if to == from {
      return SelfTransfer;
    }
    TouchedThenPay(gs, g, from, to, field, amount);
    var sent := Pay(db, g, from, to, field, amount);
    r := if sent then Sent else NotEnough;
  }

  /** The part of /transfer after the room checks: the sender's balance is
      read (creating their record) and, when it covers the amount, the amount
      is taken from them and given to the receiver. */
  method Pay(db: Db, g: GuildId, from: UserId, to: UserId, field: string, amount: int) returns (sent: bool)
    modifies db
    ensures !sent <==> Amount(old(db.UserOf(g, from)), field) < amount
    ensures !sent ==> db.guilds == UserTouched(old(db.guilds), g, from)
    ensures sent ==> db.guilds == Moved(old(db.guilds), g, from, to, field, amount)
  {
    var me := db.UStore(g, from);
    if Amount(me, field) < amount {
      return false;
    }
    AddAfterTouch(old(db.guilds), g, from, field, -amount);
    ghost var mid := AddIn(old(db.guilds), g, from, field, -amount).0;
    var _ := db.Add(g, from, field, -amount);
    assert db.guilds == mid;
    var _ := db.Add(g, to, field, amount);
    sent := true;
  }

  /** The room a currency is managed in: coins in the Bank, paws in the
      Obedience Hall, anything else in the Kennel. */
  function RoomFor(field: string): (room: Room)
    ensures room == Bank <==> field == "coins"
    ensures room == Obedience <==> field == "paws"
  {
    if field == "coins" then Bank else if field == "paws" then Obedience else Kennel
  }

  /** /grant and /deduct: staff only, in the currency's room; the amount is
      added or subtracted with add, which clamps at zero. */
  method GrantOrDeduct(db: Db, g: GuildId, isAdmin: bool, grant: bool, target: UserId, amount: int, field: string,
                       channel: ChannelId) returns (r: AdjustResult)
    modifies db
    ensures r == AdjustForbidden <==> !isAdmin
    ensures r == AdjustForbidden ==> db.guilds == old(db.guilds)
    ensures r == AdjustWrongRoom <==> isAdmin && !Config.RoomOk(old(db.GuildOf(g)).config, RoomFor(field), channel)
    ensures r == AdjustWrongRoom ==> db.guilds == Touched(old(db.guilds), g)
    ensures r.Adjusted? ==> (db.guilds, r.newValue) == AddIn(old(db.guilds), g, target, field, if grant then amount else -amount)
  {
    if !isAdmin {
      return AdjustForbidden;
    }
    var ok := Config.RequireRoom(db, g, channel, RoomFor(field));
    if !ok {
      return AdjustWrongRoom;
    }
    var sign := if grant then 1 else -1;
    TouchedFirst(old(db.guilds), g, target, NewUser, field, sign * amount);
    var v := db.Add(g, target, field, sign * amount);
    r := Adjusted(v);
  }

  /** A deduction never leaves a negative balance and takes off exactly the
      amount when the balance covers it. */
  lemma DeductClamps(gs: map<GuildId, Guild>, g: GuildId, u: UserId, field: string, amount: int)
    requires amount >= 0
    ensures AddIn(gs, g, u, field, -amount).1 >= 0
    ensures Amount(UserIn(gs, g, u), field) >= amount ==> AddIn(gs, g, u, field, -amount).1 == Amount(UserIn(gs, g, u), field) - amount
    ensures Amount(UserIn(gs, g, u), field) < amount ==> AddIn(gs, g, u, field, -amount).1 == 0
  {
  }

  /** /burnpain in the Kennel: refused when the user holds fewer pain tokens
      than asked; otherwise exactly that many are burned. */
  method BurnPain(db: Db, g: GuildId, u: UserId, amount: int, channel: ChannelId) returns (r: BurnResult)
    modifies db
    ensures r == BurnWrongRoom <==> !Config.RoomOk(old(db.GuildOf(g)).config, Kennel, channel)
    ensures r == BurnWrongRoom ==> db.guilds == Touched(old(db.guilds), g)
    ensures r == NotEnoughPain <==> Config.RoomOk(old(db.GuildOf(g)).config, Kennel, channel)
                                    && Amount(old(db.UserOf(g, u)), "pain") < amount
    ensures r == NotEnoughPain ==> db.guilds == UserTouched(old(db.guilds), g, u)
    ensures r == Burned ==> db.guilds == AddIn(old(db.guilds), g, u, "pain", -amount).0
    ensures r == Burned ==> Amount(db.UserOf(g, u), "pain") == Amount(old(db.UserOf(g, u)), "pain") - amount
  {
    var ok := Config.RequireRoom(db, g, channel, Kennel);
    if !ok {
      return BurnWrongRoom;
    }
    TouchedThenAdd(old(db.guilds), g, u, "pain", -amount);
    var you := db.UStore(g, u);
    if Amount(you, "pain") < amount {
      return NotEnoughPain;
    }
    var _ := db.Add(g, u, "pain", -amount);
    r := Burned;
  }
}
