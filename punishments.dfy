/** The active punishments of src/features/punishments.js: an in-memory map
    from guild to a map from user to the punishment's data. The data is
    stored and handed back as it is, so it is a type parameter here. */
module Punishments {
  import opened Common

  type Table<D> = map<GuildId, map<UserId, D>>

  /** setPunishment on the table: the guild's map is created when missing,
      then the user's entry is set. */
  function SetIn<D>(t: Table<D>, g: GuildId, u: UserId, d: D): Table<D> {
    t[g := (if g in t then t[g] else map[])[u := d]]
  }

  /** getPunishment: undefined (None) for an unknown guild or user. */
  function GetIn<D>(t: Table<D>, g: GuildId, u: UserId): Option<D> {
    if g in t && u in t[g] then Some(t[g][u]) else None
  }

  /** clearPunishment: deletes the user's entry of a known guild; an unknown
      guild is left absent. */
  function ClearIn<D>(t: Table<D>, g: GuildId, u: UserId): Table<D> {
    if g in t then t[g := t[g] - {u}] else t
  }

  /** Reading back what was set gives it back, and nobody else's entry
      changes. */
  lemma GetAfterSet<D>(t: Table<D>, g: GuildId, u: UserId, d: D)
    ensures GetIn(SetIn(t, g, u, d), g, u) == Some(d)
    ensures forall h, v :: (h, v) != (g, u) ==> GetIn(SetIn(t, g, u, d), h, v) == GetIn(t, h, v)
  {
  }

  /** A second set for the same guild and user replaces the first. */
  lemma SetTwice<D>(t: Table<D>, g: GuildId, u: UserId, d1: D, d2: D)
    ensures SetIn(SetIn(t, g, u, d1), g, u, d2) == SetIn(t, g, u, d2)
  {
    var m := if g in t then t[g] else map[];
    assert m[u := d1][u := d2] == m[u := d2];
  }

  /** After a clear the user has no punishment in that guild; every other
      entry is unchanged. */
  lemma GetAfterClear<D>(t: Table<D>, g: GuildId, u: UserId)
    ensures GetIn(ClearIn(t, g, u), g, u).None?
    ensures forall h, v :: (h, v) != (g, u) ==> GetIn(ClearIn(t, g, u), h, v) == GetIn(t, h, v)
  {
  }

  /** Clearing what was just set leaves the user as if nothing had been
      set, in a guild that already had a map. */
  lemma ClearUndoesSet<D>(t: Table<D>, g: GuildId, u: UserId, d: D)
    requires g in t && u !in t[g]
    ensures ClearIn(SetIn(t, g, u, d), g, u) == t
  {
    assert t[g][u := d] - {u} == t[g];
  }

  /** `ACTIVE_PUNISHMENTS`. */
  class ActivePunishments<D> {
    var table: Table<D>

    constructor ()
      ensures table == map[]
    {
      table := map[];
    }

    method SetPunishment(g: GuildId, u: UserId, d: D)
      modifies this
      ensures table == SetIn(old(table), g, u, d)
    {
      var m := if g in table then table[g] else map[];
      table := table[g := m[u := d]];
    }

    method GetPunishment(g: GuildId, u: UserId) returns (r: Option<D>)
      ensures r == GetIn(table, g, u)
      ensures r.Some? <==> g in table && u in table[g]
    {
      if g in table && u in table[g] {
        return Some(table[g][u]);
      }
      return None;
    }

    method ClearPunishment(g: GuildId, u: UserId)
      modifies this
      ensures table == ClearIn(old(table), g, u)
    {
      if g in table {
        table := table[g := table[g] - {u}];
      }
    }
  }
}
