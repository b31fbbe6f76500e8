/** The configuration side of /drop in src/commands/lootdrop.js: a per-guild
    blacklist of channels where loot never spawns, toggled one channel at a
    time, and a status reply listing it. The guild's settings object
    `{ blacklist: [] }` is created on first use by either subcommand. */
module LootdropCommand {
  import opened Common
  import opened Text

  /** The blacklist after a toggle: a channel not on it is appended, a
      listed channel is removed at its first position. */
  function ToggleIn(bl: seq<ChannelId>, ch: ChannelId): seq<ChannelId> {
    var idx := IndexOf(bl, ch);
    if idx == -1 then bl + [ch] else RemoveAt(bl, idx)
  }

  /** On a blacklist without repeats (the only kind toggles build) a toggle
      flips the channel's membership, leaves every other channel's membership
      alone and keeps the list free of repeats. */
  lemma ToggleFlips(bl: seq<ChannelId>, ch: ChannelId)
    requires NoDuplicates(bl)
    ensures ch in ToggleIn(bl, ch) <==> ch !in bl
    ensures forall c :: c != ch ==> (c in ToggleIn(bl, ch) <==> c in bl)
    ensures NoDuplicates(ToggleIn(bl, ch))
    ensures |ToggleIn(bl, ch)| == if ch in bl then |bl| - 1 else |bl| + 1
  {
    var idx := IndexOf(bl, ch);
    if idx != -1 {
      RemoveAtNoDuplicates(bl, idx);
    }
  }

  /** Toggling a new channel twice restores the blacklist; toggling a listed
      one twice moves it to the end. */
  lemma ToggleTwice(bl: seq<ChannelId>, ch: ChannelId)
    requires NoDuplicates(bl)
    ensures ch !in bl ==> ToggleIn(ToggleIn(bl, ch), ch) == bl
    ensures ch in bl ==> ToggleIn(ToggleIn(bl, ch), ch) == RemoveAt(bl, IndexOf(bl, ch)) + [ch]
  {
    if ch !in bl {
      var t := bl + [ch];
      assert IndexOf(t, ch) == |bl| by {
        assert t[|bl|] == ch;
        assert ch !in t[..|bl|] by { assert t[..|bl|] == bl; }
      }
      assert t[..|bl|] == bl;
    } else {
      RemoveAtNoDuplicates(bl, IndexOf(bl, ch));
    }
  }

  /** `<#id>`: a channel mention. */
  function Mention(ch: ChannelId): string {
    "<#" + ch + ">"
  }

  function Mentions(bl: seq<ChannelId>): (r: seq<string>)
    ensures |r| == |bl|
    ensures forall i :: 0 <= i < |r| ==> r[i] == Mention(bl[i])
  {
    seq(|bl|, i requires 0 <= i < |bl| => Mention(bl[i]))
  }

  /** The channel list of the status reply: the mentions joined by `, `, or
      `none` when that join is the empty string. */
  function ChannelList(bl: seq<ChannelId>): string {
    var joined := Join(Mentions(bl), ", ");
    if joined == "" then "none" else joined
  }

  /** The list says `none` exactly when nothing is blacklisted; otherwise it
      opens with the first channel's mention. */
  lemma {:induction false} ChannelListNone(bl: seq<ChannelId>)
    ensures ChannelList(bl) == "none" <==> bl == []
    ensures bl != [] ==> ChannelList(bl)[..|Mention(bl[0])|] == Mention(bl[0])
  {
    if bl != [] {
      var ms := Mentions(bl);
      var joined := Join(ms, ", ");
      if |ms| == 1 {
        assert joined == ms[0];
      } else {
        assert joined == ms[0] + (", " + Join(ms[1..], ", "));
      }
      assert joined[..|ms[0]|] == ms[0];
      assert joined[0] == '<';
    }
  }

  function StatusReply(bl: seq<ChannelId>): string {
    "\U{1F4B0} Loot Drop System is **active**\n**Blacklisted Channels:** " + ChannelList(bl)
  }

  /** The reply to a blacklist toggle. */
  datatype ToggleReply = Added(channel: ChannelId) | Removed(channel: ChannelId)

  /** The blacklist part of `data.lootdrop`. */
  class LootSettings {
    var blacklists: map<GuildId, seq<ChannelId>>

    /** No blacklist lists a channel twice. */
    ghost predicate Valid()
      reads this
    {
      forall g :: g in blacklists ==> NoDuplicates(blacklists[g])
    }

    constructor ()
      ensures Valid() && blacklists == map[]
    {
      blacklists := map[];
    }

    /** `data.lootdrop[guildId] ||= { blacklist: [] }`, read. */
    function BlacklistOf(g: GuildId): seq<ChannelId>
      reads this
    {
      if g in blacklists then blacklists[g] else []
    }

    /** /drop blacklist: toggles the channel in the guild's blacklist and
        reports which way it went. */
    method Toggle(g: GuildId, ch: ChannelId) returns (r: ToggleReply)
      requires Valid()
      modifies this
      ensures Valid()
      ensures blacklists == old(blacklists)[g := ToggleIn(old(BlacklistOf(g)), ch)]
      ensures r == (if ch in old(BlacklistOf(g)) then Removed(ch) else Added(ch))
      ensures ch in BlacklistOf(g) <==> r.Added?
    {
      var bl := BlacklistOf(g);
      ToggleFlips(bl, ch);
      var idx := IndexOf(bl, ch);
      if idx == -1 {
        blacklists := blacklists[g := bl + [ch]];
        r := Added(ch);
      } else {
        blacklists := blacklists[g := RemoveAt(bl, idx)];
        r := Removed(ch);
      }
    }

    /** /drop status: creates the guild's settings when missing and lists
        its blacklist. */
    method Status(g: GuildId) returns (reply: string)
      requires Valid()
      modifies this
      ensures Valid()
      ensures blacklists == old(blacklists)[g := old(BlacklistOf(g))]
      ensures reply == StatusReply(BlacklistOf(g))
    {
      var bl := BlacklistOf(g);
      blacklists := blacklists[g := bl];
      reply := StatusReply(bl);
    }
  }
}
