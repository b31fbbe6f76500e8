/** The gag registry of src/services/gag.js: per guild, the gagged users with
    the time their gag ends, plus the `garble` transform applied to a gagged
    user's messages. The source reads the clock (`Date.now()`, milliseconds)
    afresh at each use: gagUser up to five times, getRemainingMs twice, and
    cleanupGuild once per entry. The model takes all the readings of one
    call as a single instant, the `now` parameter. */
module Gag {
  import opened Common
  import opened Text

  /** One registry entry. `until` is 0 when the stored value is missing or
      otherwise falsy, which is how every check in the registry reads it. */
  datatype Entry = Entry(until: int, issuer: UserId, updatedAt: int)

  /** The gag end gagUser stores: d seconds after now, or d seconds after the
      current end when a gag is still running, so a running gag is extended. */
  function NewUntil(cur: Option<Entry>, now: int, durationSec: int): (r: int)
    ensures r >= now + durationSec * 1000
    ensures cur.Some? && cur.value.until != 0 && cur.value.until > now ==> r == cur.value.until + durationSec * 1000
    ensures !(cur.Some? && cur.value.until != 0 && cur.value.until > now) ==> r == now + durationSec * 1000
  {
    var base := if cur.Some? && cur.value.until != 0 && cur.value.until > now then cur.value.until else now;
    Max(now + durationSec * 1000, base + durationSec * 1000)
  }

  /** Two gags of d seconds issued at the same moment end 2d seconds after
      the first one alone would have started from. */
  lemma GaggedTwice(cur: Option<Entry>, now: int, d: int, issuer: UserId)
    requires d > 0 && now >= 0
    ensures NewUntil(Some(Entry(NewUntil(cur, now, d), issuer, now)), now, d) == NewUntil(cur, now, d) + d * 1000
  {
  }

  /** cleanupGuild keeps an entry only while it has an end in the future. */
  predicate Live(e: Entry, now: int) {
    e.until != 0 && e.until > now
  }

  /** getGagInfo drops an entry only when it has an end that has passed; an
      entry without an end is reported as it is. */
  predicate Expired(e: Entry, now: int) {
    e.until != 0 && e.until <= now
  }

  /** The entries cleanupGuild keeps. */
  function LiveOnly(m: map<UserId, Entry>, now: int): (r: map<UserId, Entry>)
    ensures forall u :: u in r <==> u in m && Live(m[u], now)
    ensures forall u :: u in r ==> r[u] == m[u]
  {
    map u | u in m && Live(m[u], now) :: m[u]
  }

  /** `data.gags`. */
  class Registry {
    var gags: map<GuildId, map<UserId, Entry>>

    constructor ()
      ensures gags == map[]
    {
      gags := map[];
    }

    function GuildGags(g: GuildId): map<UserId, Entry>
      reads this
    {
      if g in gags then gags[g] else map[]
    }

    function EntryOf(g: GuildId, u: UserId): Option<Entry>
      reads this
    {
      if u in GuildGags(g) then Some(GuildGags(g)[u]) else None
    }

    /** getGagInfo: an entry whose end has passed is deleted and null is
        returned; any other entry is returned unchanged. */
    method GetGagInfo(g: GuildId, u: UserId, now: int) returns (info: Option<Entry>)
      modifies this
      ensures old(EntryOf(g, u)).None? ==> info.None? && gags == old(gags)
      ensures old(EntryOf(g, u)).Some? && Expired(old(EntryOf(g, u)).value, now) ==>
                info.None? && gags == old(gags)[g := old(GuildGags(g)) - {u}]
      ensures old(EntryOf(g, u)).Some? && !Expired(old(EntryOf(g, u)).value, now) ==>
                info == old(EntryOf(g, u)) && gags == old(gags)
    {
      if g !in gags || u !in gags[g] {
        return None;
      }
      info := Some(gags[g][u]);
      if info.value.until != 0 && info.value.until <= now {
        gags := gags[g := gags[g] - {u}];
        info := None;
      }
    }

    /** gagUser: writes the (possibly extended) gag, then reads it back with
        getGagInfo. */
    method GagUser(g: GuildId, target: UserId, durationSec: int, issuer: UserId, now: int) returns (info: Option<Entry>)
      modifies this
      ensures var e := Entry(NewUntil(old(EntryOf(g, target)), now, durationSec), issuer, now);
              && (Expired(e, now) ==> info.None? && gags == old(gags)[g := old(GuildGags(g)) - {target}])
              && (!Expired(e, now) ==> info == Some(e) && gags == old(gags)[g := old(GuildGags(g))[target := e]])
    {
      var gm := GuildGags(g);
      var cur := if target in gm then Some(gm[target]) else None;
      var base := if cur.Some? && cur.value.until != 0 && cur.value.until > now then cur.value.until else now;
      var until := now + durationSec * 1000;
      if base + durationSec * 1000 > until {
        until := base + durationSec * 1000;
      }
      gags := gags[g := gm[target := Entry(until, issuer, now)]];
      info := GetGagInfo(g, target, now);
      assert gm[target := Entry(until, issuer, now)] - {target} == gm - {target};
    }

    /** ungagUser: deletes only the target's entry of that guild. */
    method UngagUser(g: GuildId, target: UserId)
      modifies this
      ensures g !in old(gags) ==> gags == old(gags)
      ensures g in old(gags) ==> gags == old(gags)[g := old(gags)[g] - {target}]
    {
      if g !in gags {
        return;
      }
      gags := gags[g := gags[g] - {target}];
    }

    /** isGagged. */
    method IsGagged(g: GuildId, u: UserId, now: int) returns (gagged: bool)
      modifies this
      ensures gagged <==> old(EntryOf(g, u)).Some? && !Expired(old(EntryOf(g, u)).value, now)
    {
      var info := GetGagInfo(g, u, now);
      gagged := info.Some?;
    }

    /** getRemainingMs: the time left, never negative; 0 when not gagged. */
    method GetRemainingMs(g: GuildId, u: UserId, now: int) returns (ms: int)
      modifies this
      ensures ms >= 0
      ensures old(EntryOf(g, u)).None? ==> ms == 0
      ensures old(EntryOf(g, u)).Some? && Expired(old(EntryOf(g, u)).value, now) ==> ms == 0
      ensures old(EntryOf(g, u)).Some? && !Expired(old(EntryOf(g, u)).value, now) ==> ms == Max(0, old(EntryOf(g, u)).value.until - now)
    {
      var info := GetGagInfo(g, u, now);
      if info.None? {
        return 0;
      }
      ms := Max(0, info.value.until - now);
    }

    /** cleanupGuild: deletes, one by one, every entry without an end or with
        an end that has passed. */
    method CleanupGuild(g: GuildId, now: int)
      modifies this
      ensures g !in old(gags) ==> gags == old(gags)
      ensures g in old(gags) ==> gags == old(gags)[g := LiveOnly(old(gags)[g], now)]
    {
      if g !in gags {
        return;
      }
      var m := gags[g];
      var kept := m;
      var pending := m.Keys;
      while pending != {}
        invariant pending <= m.Keys
        invariant forall u :: u in kept <==> u in m && (u in pending || Live(m[u], now))
        invariant forall u :: u in kept ==> kept[u] == m[u]
        decreases |pending|
      {
        var u :| u in pending;
        if m[u].until == 0 || m[u].until <= now {
          kept := kept - {u};
        }
        pending := pending - {u};
      }
      assert kept == LiveOnly(m, now);
      gags := gags[g := kept];
    }
  }

  /** A gag of a positive duration is in force right after it is issued, and
      at least that many milliseconds remain. */
  lemma FreshGagIsLive(cur: Option<Entry>, now: int, d: int, issuer: UserId)
    requires d > 0
    ensures !Expired(Entry(NewUntil(cur, now, d), issuer, now), now)
    ensures NewUntil(cur, now, d) - now >= d * 1000
  {
  }

  // ---------------------------------------------------------------------------
  // garble

  predicate IsAsciiLetter(c: char) { IsLower(c) || IsUpper(c) }

  /** The leading run of characters of the same kind (whitespace or not). */
  function RunLength(s: string): (k: nat)
    requires s != []
    ensures 1 <= k <= |s|
    ensures forall i :: 0 <= i < k ==> IsSpace(s[i]) == IsSpace(s[0])
    ensures k < |s| ==> IsSpace(s[k]) != IsSpace(s[0])
  {
    if |s| == 1 || IsSpace(s[1]) != IsSpace(s[0]) then 1
    else 1 + RunLength(s[1..])
  }

  /** The number of leading copies of c. */
  function Leading(s: string, c: char): (k: nat)
    ensures k <= |s|
    ensures forall i :: 0 <= i < k ==> s[i] == c
    ensures k < |s| ==> s[k] != c
  {
    if s != [] && s[0] == c then 1 + Leading(s[1..], c) else 0
  }

  predicate AllDigitsNonEmpty(s: string) {
    |s| >= 1 && AllDigits(s)
  }

  /** A token starting `http://` or `https://`, in any case of the ASCII
      letters (`/^https?:\/\//i`). */
  predicate IsLink(t: string) {
    (|t| >= 7 && FoldAscii(t[..7]) == "http://") || (|t| >= 8 && FoldAscii(t[..8]) == "https://")
  }

  /** `<@id>`, `<@!id>` or `<#id>` with a decimal id. */
  predicate IsMention(t: string) {
    |t| >= 4 && t[0] == '<' && t[|t| - 1] == '>' &&
    ((t[1] == '@' && t[2] == '!' && AllDigitsNonEmpty(t[3..|t| - 1]))
     || (t[1] == '@' && AllDigitsNonEmpty(t[2..|t| - 1]))
     || (t[1] == '#' && AllDigitsNonEmpty(t[2..|t| - 1])))
  }

  predicate Protected(t: string) {
    IsLink(t) || IsMention(t)
  }

  /** Lower-case letters become `m`, upper-case ones `M`, everything else
      stays. */
  function Mask(t: string): (r: string)
    ensures |r| == |t|
    ensures forall i :: 0 <= i < |t| ==> r[i] == if IsLower(t[i]) then 'm' else if IsUpper(t[i]) then 'M' else t[i]
  {
    if t == [] then [] else [if IsLower(t[0]) then 'm' else if IsUpper(t[0]) then 'M' else t[0]] + Mask(t[1..])
  }

  /** `replace(/c{4,}/g, m => m.slice(0, max(2, m.length - 1)) + tail)`: every
      maximal run of four or more copies of c loses one copy and gains the
      tail. */
  function Squash(s: string, c: char, tail: string): string
    decreases |s|
  {
    if s == [] then []
    else if s[0] != c then [s[0]] + Squash(s[1..], c, tail)
    else
      var k := Leading(s, c);
      (if k >= 4 then s[..k - 1] + tail else s[..k]) + Squash(s[k..], c, tail)
  }

  /** One token of the split text. */
  function GarbleToken(t: string): string {
    if Protected(t) then t else Squash(Squash(Mask(t), 'm', "ph"), 'M', "PH")
  }

  /** garble: the text cut into maximal runs of whitespace and of other
      characters (what `split(/(\s+)/)` returns), whitespace kept, each other
      run garbled, and everything joined again. */
  function Garble(s: string): string
    decreases |s|
  {
    if s == [] then s
    else
      var k := RunLength(s);
      (if IsSpace(s[0]) then s[..k] else GarbleToken(s[..k])) + Garble(s[k..])
  }

  function Repeat(c: char, n: nat): (r: string)
    ensures |r| == n && forall i :: 0 <= i < n ==> r[i] == c
  {
    if n == 0 then [] else [c] + Repeat(c, n - 1)
  }

  /** A run of k >= 4 copies becomes k - 1 copies and the tail; shorter runs
      stay. */
  lemma SquashRun(c: char, k: nat, tail: string)
    requires k >= 1
    ensures Squash(Repeat(c, k), c, tail) == if k >= 4 then Repeat(c, k - 1) + tail else Repeat(c, k)
  {
    var s := Repeat(c, k);
    assert Leading(s, c) == k by {
      LeadingAll(s, c);
    }
    assert s[k..] == [];
    assert s[..k - 1] == Repeat(c, k - 1);
  }

  lemma {:induction false} LeadingAll(s: string, c: char)
    requires forall i :: 0 <= i < |s| ==> s[i] == c
    ensures Leading(s, c) == |s|
  {
    if s != [] {
      LeadingAll(s[1..], c);
    }
  }

  /** The characters of a string that are not ASCII letters, in order. */
  function NonLetters(s: string): (r: string)
    ensures |r| <= |s|
  {
    if s == [] then [] else (if IsAsciiLetter(s[0]) then [] else [s[0]]) + NonLetters(s[1..])
  }

  lemma {:induction false} NonLettersAppend(a: string, b: string)
    ensures NonLetters(a + b) == NonLetters(a) + NonLetters(b)
  {
    if a == [] {
      assert a + b == b;
    } else {
      assert (a + b)[0] == a[0];
      assert (a + b)[1..] == a[1..] + b;
      NonLettersAppend(a[1..], b);
    }
  }

  lemma {:induction false} NonLettersOfLetters(s: string)
    requires forall i :: 0 <= i < |s| ==> IsAsciiLetter(s[i])
    ensures NonLetters(s) == []
  {
    if s != [] {
      NonLettersOfLetters(s[1..]);
    }
  }

  lemma {:induction false} MaskKeepsNonLetters(t: string)
    ensures NonLetters(Mask(t)) == NonLetters(t)
  {
    if t != [] {
      assert Mask(t)[1..] == Mask(t[1..]);
      MaskKeepsNonLetters(t[1..]);
    }
  }

  /** Squashing with a letter and a tail of letters keeps the non-letters. */
  lemma {:induction false} SquashKeepsNonLetters(s: string, c: char, tail: string)
    requires IsAsciiLetter(c)
    requires forall i :: 0 <= i < |tail| ==> IsAsciiLetter(tail[i])
    ensures NonLetters(Squash(s, c, tail)) == NonLetters(s)
    decreases |s|
  {
    if s == [] {
    } else if s[0] != c {
      NonLettersAppend([s[0]], Squash(s[1..], c, tail));
      SquashKeepsNonLetters(s[1..], c, tail);
      assert s == [s[0]] + s[1..];
      NonLettersAppend([s[0]], s[1..]);
    } else {
      var k := Leading(s, c);
      var head := if k >= 4 then s[..k - 1] + tail else s[..k];
      assert forall i :: 0 <= i < |head| ==> IsAsciiLetter(head[i]);
      NonLettersOfLetters(head);
      NonLettersOfLetters(s[..k]);
      NonLettersAppend(head, Squash(s[k..], c, tail));
      SquashKeepsNonLetters(s[k..], c, tail);
      assert s == s[..k] + s[k..];
      NonLettersAppend(s[..k], s[k..]);
    }
  }

  lemma GarbleTokenKeepsNonLetters(t: string)
    ensures NonLetters(GarbleToken(t)) == NonLetters(t)
  {
    if !Protected(t) {
      MaskKeepsNonLetters(t);
      SquashKeepsNonLetters(Mask(t), 'm', "ph");
      SquashKeepsNonLetters(Squash(Mask(t), 'm', "ph"), 'M', "PH");
    }
  }

  /** garble keeps every character that is not an ASCII letter (digits,
      punctuation, whitespace), in order: only letters are rewritten. */
  lemma {:induction false} GarbleKeepsNonLetters(s: string)
    ensures NonLetters(Garble(s)) == NonLetters(s)
    decreases |s|
  {
    if s != [] {
      var k := RunLength(s);
      var out := if IsSpace(s[0]) then s[..k] else GarbleToken(s[..k]);
      FirstRunKeepsNonLetters(s);
      GarbleKeepsNonLetters(s[k..]);
      ConcatKeepsNonLetters(out, s[..k], Garble(s[k..]), s[k..]);
      assert s == s[..k] + s[k..];
    }
  }

  /** The first run of a text, garbled or not, keeps its non-letters. */
  lemma FirstRunKeepsNonLetters(s: string)
    requires s != []
    ensures var t := s[..RunLength(s)];
            NonLetters(if IsSpace(s[0]) then t else GarbleToken(t)) == NonLetters(t)
  {
    GarbleTokenKeepsNonLetters(s[..RunLength(s)]);
  }

  lemma ConcatKeepsNonLetters(out: string, t: string, a: string, b: string)
    requires NonLetters(out) == NonLetters(t) && NonLetters(a) == NonLetters(b)
    ensures NonLetters(out + a) == NonLetters(t + b)
  {
    NonLettersAppend(out, a);
    NonLettersAppend(t, b);
  }

  /** In a garbled token the only letters left are m, p and h in either
      case. */
  predicate OnlyMuffled(s: string) {
    forall i :: 0 <= i < |s| ==> IsAsciiLetter(s[i]) ==> s[i] in "mphMPH"
  }

  lemma {:induction false} SquashMuffled(s: string, c: char, tail: string)
    requires OnlyMuffled(s) && c in "mphMPH" && OnlyMuffled(tail)
    ensures OnlyMuffled(Squash(s, c, tail))
    decreases |s|
  {
    if s != [] {
      if s[0] != c {
        SquashMuffled(s[1..], c, tail);
      } else {
        var k := Leading(s, c);
        SquashMuffled(s[k..], c, tail);
      }
    }
  }

  /** A token that is neither a link nor a mention keeps no letter of the
      original text except by coincidence: what remains is m, p, h, M, P, H. */
  lemma GarbledTokenMuffled(t: string)
    requires !Protected(t)
    ensures OnlyMuffled(GarbleToken(t))
  {
    SquashMuffled(Mask(t), 'm', "ph");
    SquashMuffled(Squash(Mask(t), 'm', "ph"), 'M', "PH");
  }

  /** Links and mentions pass through garble untouched, and so does pure
      whitespace. */
  lemma GarbleKeepsProtected(t: string)
    requires t != [] && Protected(t) && forall i :: 0 <= i < |t| ==> !IsSpace(t[i])
    ensures Garble(t) == t
  {
    assert RunLength(t) == |t|;
    assert t[..|t|] == t;
  }

  lemma {:induction false} GarbleKeepsWhitespace(s: string)
    requires forall i :: 0 <= i < |s| ==> IsSpace(s[i])
    ensures Garble(s) == s
  {
    if s != [] {
      var k := RunLength(s);
      GarbleKeepsWhitespace(s[k..]);
      assert s == s[..k] + s[k..];
    }
  }
}
