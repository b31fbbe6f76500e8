/** The punishment wheel of src/commands/wheel.js: a global list of punishment
    texts indexed from 0, the effect marker `[effect:TYPE;duration:N]` a text
    may carry, the button id that carries a spin's target and issuer, and the
    button click that charges a targeted spin, picks a punishment and applies
    a gag effect. */
module Wheel {
  import opened Common
  import opened Text
  import Nestcoins
  import Gag

  /** The wheel and target emoji as src/commands/wheel.js holds them, and so
      as the bot sends them: the UTF-8 bytes of U+1F3A1 and U+1F3AF read as
      Windows-1252. */
  const WheelMark := "\U{00F0}\U{0178}\U{017D}\U{00A1}"
  const TargetMark := "\U{00F0}\U{0178}\U{017D}\U{00AF}"

  /** What a targeted spin costs. */
  const TargetedSpinPrice := 15

  /** The two literal parts of a marker, as written in lower case. */
  const Open: string := "[effect:"
  const Middle: string := ";duration:"

  /** `\w`: ASCII letters, digits and the underscore. */
  predicate IsWordChar(c: char) {
    IsLower(c) || IsUpper(c) || IsDigit(c) || c == '_'
  }

  /** The two character classes a marker uses: `\w` and `\d`. */
  datatype CharClass = Word | Digit

  predicate In(c: char, k: CharClass) {
    if k == Word then IsWordChar(c) else IsDigit(c)
  }

  /** The length of the longest prefix of `s` whose characters are in `p`. */
  function Run(s: string, p: CharClass): (n: nat)
    ensures n <= |s|
  {
    if s != [] && In(s[0], p) then 1 + Run(s[1..], p) else 0
  }

  /** The run is a prefix in the class, stopped by the first character
      outside it. */
  lemma {:induction false} RunProps(s: string, p: CharClass)
    ensures forall i :: 0 <= i < Run(s, p) ==> In(s[i], p)
    ensures Run(s, p) < |s| ==> !In(s[Run(s, p)], p)
  {
    if s != [] && In(s[0], p) {
      RunProps(s[1..], p);
      assert forall i :: 1 <= i < Run(s, p) ==> s[i] == s[1..][i - 1];
    }
  }

  /** The only run length with those two properties. */
  lemma {:induction false} RunIs(s: string, p: CharClass, n: nat)
    requires n <= |s| && (forall i :: 0 <= i < n ==> In(s[i], p)) && (n < |s| ==> !In(s[n], p))
    ensures Run(s, p) == n
  {
    if n > 0 {
      assert In(s[0], p);
      assert forall i :: 0 <= i < n - 1 ==> s[1..][i] == s[i + 1];
      RunIs(s[1..], p, n - 1);
    }
  }

  /** A marker found in a text: the TYPE and N as written, and the position
      just after its closing bracket. */
  datatype Marker = Marker(kind: string, digits: string, end: nat)

  /** What follows the literal `lit` at the start of t, ASCII letters
      compared in either case; None when t does not start with it. */
  function AfterLit(t: string, lit: string): (r: Option<string>)
    ensures r.Some? ==> |r.value| + |lit| == |t|
    ensures r.Some? && lit != [] ==> Lower(t[0]) == Lower(lit[0])
  {
    if lit == [] then Some(t)
    else if t != [] && Lower(t[0]) == Lower(lit[0]) then AfterLit(t[1..], lit[1..])
    else None
  }

  /** A text that begins with a literal is read past it. */
  lemma {:induction false} AfterLitSelf(lit: string, rest: string)
    ensures AfterLit(lit + rest, lit) == Some(rest)
  {
    if lit != [] {
      assert (lit + rest)[0] == lit[0] && (lit + rest)[1..] == lit[1..] + rest;
      AfterLitSelf(lit[1..], rest);
    } else {
      assert lit + rest == rest;
    }
  }

  /** The marker at the very start of t, if there is one, with its end
      counted from the start of t. The two literal parts match in either case
      (the `i` flag); the word and digit runs are taken whole, since the
      character after each must be `;` or `]`. */
  function MarkerPrefix(t: string): (r: Option<Marker>)
    ensures r.Some? ==> t != [] && t[0] == '[' && 0 < r.value.end <= |t|
                        && r.value.kind != [] && r.value.digits != []
  {
    match AfterLit(t, Open)
    case None => None
    case Some(rest) =>
      var k := Run(rest, Word);
      if k == 0 then None
      else match AfterLit(rest[k..], Middle)
        case None => None
        case Some(tail) =>
          var d := Run(tail, Digit);
          if 0 < d < |tail| && tail[d] == ']' then Some(Marker(rest[..k], tail[..d], |t| - |tail| + d + 1))
          else None
  }

  /** The marker that starts at position p of s, if one does; its end is a
      position of s. */
  function MarkerAt(s: string, p: nat): (r: Option<Marker>)
    ensures r.Some? ==> p < |s| && s[p] == '[' && p < r.value.end <= |s|
                        && r.value.kind != [] && r.value.digits != []
  {
    if p <= |s| then
      match MarkerPrefix(s[p..])
      case None => None
      case Some(m) => Some(m.(end := p + m.end))
    else None
  }

  /** A marker's type is made of word characters and its duration of
      digits. */
  lemma MarkerAtParts(s: string, p: nat)
    requires MarkerAt(s, p).Some?
    ensures forall i :: 0 <= i < |MarkerAt(s, p).value.kind| ==> IsWordChar(MarkerAt(s, p).value.kind[i])
    ensures AllDigits(MarkerAt(s, p).value.digits)
  {
    var t := s[p..];
    var rest := AfterLit(t, Open).value;
    var k := Run(rest, Word);
    var tail := AfterLit(rest[k..], Middle).value;
    RunProps(rest, Word);
    RunProps(tail, Digit);
  }

  /** The leftmost marker at or after `from`, which is the one a regular
      expression search finds. */
  function FirstMarker(s: string, from: nat): (r: Option<(nat, Marker)>)
    ensures r.Some? ==> from <= r.value.0 < |s| && MarkerAt(s, r.value.0) == Some(r.value.1)
    decreases |s| - from
  {
    if from >= |s| then None
    else match MarkerAt(s, from)
      case Some(m) => Some((from, m))
      case None => FirstMarker(s, from + 1)
  }

  /** A wheel effect: its lower-cased type and its duration in seconds. */
  datatype Effect = Effect(kind: string, durationSec: nat)

  /** The least digit value that `Number` turns into Infinity: 2^1024 - 2^970,
      halfway between the largest finite double, (2^53 - 1) * 2^971, and
      2^1024, where round-half-to-even goes up. */
  const InfiniteDuration: nat := 0x3F_FFFF_FFFF_FFFF * Pow2(970)

  /** 2 to the power k. */
  function Pow2(k: nat): (r: nat)
    ensures r > 0
  {
    if k == 0 then 1 else 2 * Pow2(k - 1)
  }

  /** parseEffectFromText: the first marker's type lower-cased and its
      duration, or None when there is no marker, or the duration is 0 or so
      long that `Number` reads it as Infinity. */
  function ParseEffect(text: string): (r: Option<Effect>)
    ensures r.Some? ==> 0 < r.value.durationSec < InfiniteDuration && IsLowered(r.value.kind)
  {
    match FirstMarker(text, 0)
    case None => None
    case Some((p, m)) =>
      MarkerAtParts(text, p);
      var n := ParseNat(m.digits);
      ToLowerChars(m.kind);
      if n == 0 || n >= InfiniteDuration then None else Some(Effect(ToLower(m.kind), n))
  }

  /** stripEffectMarker: the first marker goes, together with the white space
      on both sides of it, and the result is trimmed. */
  function StripMarker(text: string): (r: string)
  {
    match FirstMarker(text, 0)
    case None => Trim(text)
    case Some((p, m)) => Trim(TrimEnd(text[..p]) + TrimStart(text[m.end..]))
  }

  /** The marker for an effect of type `kind` lasting n seconds. */
  function Render(kind: string, n: nat): string {
    Open + kind + Middle + NatToString(n) + "]"
  }

  /** Without a `[` from `from` on there is no marker. */
  lemma {:induction false} NoBracketNoMarker(s: string, from: nat)
    requires forall q :: from <= q < |s| ==> s[q] != '['
    ensures FirstMarker(s, from).None?
    decreases |s| - from
  {
    if from < |s| {
      assert MarkerAt(s, from).None?;
      NoBracketNoMarker(s, from + 1);
    }
  }

  /** A run over a word followed by a character outside the run is the
      word. */
  lemma RunOfPrefix(a: string, b: string, p: CharClass)
    requires forall i :: 0 <= i < |a| ==> In(a[i], p)
    requires b != [] && !In(b[0], p)
    ensures Run(a + b, p) == |a|
  {
    var s := a + b;
    assert forall i :: 0 <= i < |a| ==> s[i] == a[i];
    assert s[|a|] == b[0];
    RunIs(s, p, |a|);
  }

  /** A marker written out of its parts, read from its start. */
  lemma MarkerPrefixParts(kind: string, digits: string, suffix: string)
    requires kind != [] && forall i :: 0 <= i < |kind| ==> IsWordChar(kind[i])
    requires digits != [] && AllDigits(digits)
    ensures MarkerPrefix(Open + (kind + (Middle + (digits + ([']'] + suffix)))))
            == Some(Marker(kind, digits, 8 + |kind| + 10 + |digits| + 1))
  {
    var tail := digits + ([']'] + suffix);
    var after := Middle + tail;
    var rest := kind + after;
    AfterLitSelf(Open, rest);
    RunOfPrefix(kind, after, Word);
    assert rest[..|kind|] == kind && rest[|kind|..] == after;
    AfterLitSelf(Middle, tail);
    RunOfPrefix(digits, [']'] + suffix, Digit);
    assert tail[..|digits|] == digits && tail[|digits|] == ']';
  }

  /** A rendered marker, followed by any text, is read back from the start. */
  lemma MarkerPrefixRender(kind: string, n: nat, suffix: string)
    requires kind != [] && forall i :: 0 <= i < |kind| ==> IsWordChar(kind[i])
    ensures MarkerPrefix(Render(kind, n) + suffix) == Some(Marker(kind, NatToString(n), |Render(kind, n)|))
  {
    var digits := NatToString(n);
    assert Render(kind, n) + suffix == Open + (kind + (Middle + (digits + ([']'] + suffix))));
    MarkerPrefixParts(kind, digits, suffix);
  }

  /** A rendered marker is found where it was put, with its parts. */
  lemma MarkerAtRender(prefix: string, kind: string, n: nat, suffix: string)
    requires kind != [] && forall i :: 0 <= i < |kind| ==> IsWordChar(kind[i])
    ensures MarkerAt(prefix + (Render(kind, n) + suffix), |prefix|)
            == Some(Marker(kind, NatToString(n), |prefix| + |Render(kind, n)|))
  {
    MarkerPrefixRender(kind, n, suffix);
  }

  /** The search stops at the first position that holds a marker. */
  lemma {:induction false} FirstMarkerIs(s: string, from: nat, p: nat, m: Marker)
    requires from <= p && MarkerAt(s, p) == Some(m)
    requires forall q :: from <= q < p ==> s[q] != '['
    ensures FirstMarker(s, from) == Some((p, m))
    decreases p - from
  {
    if from < p {
      assert MarkerAt(s, from).None?;
      FirstMarkerIs(s, from + 1, p, m);
    }
  }

  /** A rendered marker after a prefix without `[` is the first one. */
  lemma FoundRendered(prefix: string, kind: string, n: nat, suffix: string)
    requires kind != [] && forall i :: 0 <= i < |kind| ==> IsWordChar(kind[i])
    requires '[' !in prefix
    ensures FirstMarker(prefix + Render(kind, n) + suffix, 0)
            == Some((|prefix|, Marker(kind, NatToString(n), |prefix| + |Render(kind, n)|)))
  {
    var s := prefix + Render(kind, n) + suffix;
    assert s == prefix + (Render(kind, n) + suffix);
    MarkerAtRender(prefix, kind, n, suffix);
    assert forall q :: 0 <= q < |prefix| ==> s[q] == prefix[q];
    FirstMarkerIs(s, 0, |prefix|, Marker(kind, NatToString(n), |prefix| + |Render(kind, n)|));
  }

  /** Reading back a rendered marker: the type comes back lower-cased and the
      duration unchanged, except that a duration of 0, or one that `Number`
      reads as Infinity, is refused. */
  lemma ParseRendered(prefix: string, kind: string, n: nat, suffix: string)
    requires kind != [] && forall i :: 0 <= i < |kind| ==> IsWordChar(kind[i])
    requires '[' !in prefix
    ensures ParseEffect(prefix + Render(kind, n) + suffix)
            == if 0 < n < InfiniteDuration then Some(Effect(ToLower(kind), n)) else None
  {
    FoundRendered(prefix, kind, n, suffix);
    ParseNatToString(n);
  }

  /** Text without `[` keeps none after trimming either end or both. */
  lemma NoBracketAfterTrim(prefix: string, suffix: string)
    requires '[' !in prefix && '[' !in suffix
    ensures '[' !in Trim(TrimEnd(prefix) + TrimStart(suffix))
  {
    CharNotTrimmedIn(prefix, '[');
    CharNotTrimmedIn(suffix, '[');
    CharNotTrimmedIn(TrimEnd(prefix) + TrimStart(suffix), '[');
  }

  /** Stripping a rendered marker keeps the text around it, minus the white
      space next to the marker and at both ends; when the text around it has
      no `[`, what is shown carries no effect any more. */
  lemma StripRendered(prefix: string, kind: string, n: nat, suffix: string)
    requires kind != [] && forall i :: 0 <= i < |kind| ==> IsWordChar(kind[i])
    requires '[' !in prefix
    ensures StripMarker(prefix + Render(kind, n) + suffix) == Trim(TrimEnd(prefix) + TrimStart(suffix))
    ensures '[' !in suffix ==> ParseEffect(StripMarker(prefix + Render(kind, n) + suffix)).None?
  {
    var s := prefix + Render(kind, n) + suffix;
    var end := |prefix| + |Render(kind, n)|;
    FoundRendered(prefix, kind, n, suffix);
    assert s[..|prefix|] == prefix && s[end..] == suffix;
    if '[' !in suffix {
      NoBracketAfterTrim(prefix, suffix);
      NoBracketNoMarker(Trim(TrimEnd(prefix) + TrimStart(suffix)), 0);
    }
  }

  /** A text without `[` has no effect and is only trimmed. */
  lemma PlainText(text: string)
    requires '[' !in text
    ensures ParseEffect(text).None? && StripMarker(text) == Trim(text)
  {
    NoBracketNoMarker(text, 0);
  }

  /** The button id of a spin: the target's id, or `self` when the issuer
      spins for themselves, then the issuer's id. */
  function SpinId(targetId: UserId, userId: UserId): (r: string)
    ensures |Split(r, ':')| >= 4
  {
    var token := if targetId != userId then targetId else "self";
    SpinIdParts(token, userId);
    "wheel:spin:" + token + ":" + userId
  }

  lemma SpinIdSplit(token: string, userId: UserId)
    ensures Split("wheel:spin:" + token + ":" + userId, ':') == ["wheel", "spin"] + Split(token, ':') + Split(userId, ':')
  {
    var tail := token + [':'] + userId;
    assert "wheel:spin:" + token + ":" + userId == "wheel" + [':'] + ("spin" + [':'] + tail);
    SplitAfterPlain("wheel", ':', "spin" + [':'] + tail);
    SplitAfterPlain("spin", ':', tail);
    SplitConcat(token, ':', userId);
  }

  lemma SpinIdParts(token: string, userId: UserId)
    ensures |Split("wheel:spin:" + token + ":" + userId, ':')| >= 4
    ensures ':' !in token && ':' !in userId ==>
              Split("wheel:spin:" + token + ":" + userId, ':') == ["wheel", "spin", token, userId]
  {
    SpinIdSplit(token, userId);
    if ':' !in token && ':' !in userId {
      SplitOfPlain(token, ':');
      SplitOfPlain(userId, ':');
    }
  }

  /** What the click handler reads back from a button id. */
  datatype Click = Click(targeted: bool, target: UserId, issuer: UserId)

  function ReadSpinId(customId: string): Click
    requires |Split(customId, ':')| >= 4
  {
    var parts := Split(customId, ':');
    var targeted := parts[2] != "self";
    Click(targeted, if targeted then parts[2] else parts[3], parts[3])
  }

  /** Button ids round-trip for ids without a colon (Discord ids are digits):
      the click targets whom the spin named, and is a targeted one exactly
      when that was somebody else. */
  lemma SpinIdRoundTrip(targetId: UserId, userId: UserId)
    requires ':' !in targetId && ':' !in userId && targetId != "self"
    ensures ReadSpinId(SpinId(targetId, userId)) == Click(targetId != userId, targetId, userId)
  {
    var token := if targetId != userId then targetId else "self";
    SpinIdParts(token, userId);
  }

  /** One line of a listing: `#i: text`. */
  function Line(i: nat, text: string): string {
    "#" + NatToString(i) + ": " + text
  }

  /** The lines the spin prompt shows, numbered from 0. */
  function Lines(entries: seq<string>): (r: seq<string>)
    ensures |r| == |entries|
    ensures forall i :: 0 <= i < |r| ==> r[i] == Line(i, entries[i])
  {
    seq(|entries|, i requires 0 <= i < |entries| => Line(i, entries[i]))
  }

  /** What /wheel list accumulates: every line followed by a line break. */
  function Listing(entries: seq<string>): string {
    if entries == [] then ""
    else Listing(entries[..|entries| - 1]) + Line(|entries| - 1, entries[|entries| - 1]) + "\n"
  }

  /** /wheel list shows the same numbered lines as the spin prompt, each
      ended by a line break. */
  lemma {:induction false} ListingIsLines(entries: seq<string>)
    requires entries != []
    ensures Listing(entries) == Join(Lines(entries), "\n") + "\n"
    decreases |entries|
  {
    var n := |entries|;
    var init := entries[..n - 1];
    var last := Line(n - 1, entries[n - 1]);
    if n > 1 {
      ListingIsLines(init);
      JoinSnoc(Lines(init), last);
      LinesSnoc(entries);
      calc {
        Listing(entries);
        Listing(init) + last + "\n";
        (Join(Lines(init), "\n") + "\n") + last + "\n";
        { assert (Join(Lines(init), "\n") + "\n") + last == Join(Lines(init), "\n") + "\n" + last; }
        Join(Lines(init) + [last], "\n") + "\n";
      }
    } else {
      assert Lines(entries) == [last];
      assert Listing(init) == "";
    }
  }

  lemma LinesSnoc(entries: seq<string>)
    requires entries != []
    ensures Lines(entries) == Lines(entries[..|entries| - 1]) + [Line(|entries| - 1, entries[|entries| - 1])]
  {
    var n := |entries|;
    var a, b := Lines(entries), Lines(entries[..n - 1]) + [Line(n - 1, entries[n - 1])];
    assert |a| == |b|;
    forall i | 0 <= i < n ensures a[i] == b[i] {
      if i < n - 1 {
        assert entries[..n - 1][i] == entries[i];
      }
    }
  }

  lemma {:induction false} JoinSnoc(parts: seq<string>, x: string)
    requires parts != []
    ensures Join(parts + [x], "\n") == Join(parts, "\n") + "\n" + x
    decreases |parts|
  {
    if |parts| > 1 {
      JoinSnoc(parts[1..], x);
      assert (parts + [x])[1..] == parts[1..] + [x];
    } else {
      assert (parts + [x])[1..] == [x];
    }
  }

  datatype AddOutcome = AddRefused | Added(id: nat)

  datatype RemoveOutcome = RemoveRefused | NotFound | Removed(text: string)

  /** The result of a click on the spin button. */
  datatype SpinResult =
    | EmptyWheel
    | CannotPay(balance: int)
    | Spun(target: UserId, index: nat, shown: string, charged: bool)

  /** The gag a wheel effect asks for: the type `gag`. */
  predicate IsGag(e: Option<Effect>) {
    e.Some? && |e.value.kind| == 3 && e.value.kind[0] == 'g' && e.value.kind[1] == 'a' && e.value.kind[2] == 'g'
  }

  /** `data.wheel`, shared by every guild. */
  class PunishmentWheel {
    var entries: seq<string>

    constructor ()
      ensures entries == []
    {
      entries := [];
    }

    /** /wheel add: administrators only; the text is appended and its index
        is its id. */
    method Add(isAdmin: bool, text: string) returns (r: AddOutcome)
      modifies this
      ensures !isAdmin ==> r == AddRefused && entries == old(entries)
      ensures isAdmin ==> r == Added(|old(entries)|) && entries == old(entries) + [text]
    {
      if !isAdmin {
        return AddRefused;
      }
      entries := entries + [text];
      r := Added(|entries| - 1);
    }

    /** /wheel remove: administrators only; the entry at index `id` is spliced
        out when there is one, and the ones after it move down by one. */
    method Remove(isAdmin: bool, id: int) returns (r: RemoveOutcome)
      modifies this
      ensures r == RemoveRefused <==> !isAdmin
      ensures r == NotFound <==> isAdmin && !(0 <= id < |old(entries)|)
      ensures !r.Removed? ==> entries == old(entries)
      ensures r.Removed? ==> 0 <= id < |old(entries)| && r.text == old(entries)[id]
                             && entries == RemoveAt(old(entries), id)
    {
      if !isAdmin {
        return RemoveRefused;
      }
      if 0 <= id < |entries| {
        r := Removed(entries[id]);
        entries := RemoveAt(entries, id);
      } else {
        r := NotFound;
      }
    }

    /** /wheel list: the forEach that builds the message and counts the
        entries. */
    method List() returns (list: string, count: nat)
      ensures count == |entries|
      ensures list == WheelMark + " **Punishment Wheel List:**\n" + Listing(entries)
    {
      list := WheelMark + " **Punishment Wheel List:**\n";
      count := 0;
      var header := list;
      while count < |entries|
        invariant count <= |entries|
        invariant list == header + Listing(entries[..count])
      {
        var line := Line(count, entries[count]);
        assert Listing(entries[..count + 1]) == Listing(entries[..count]) + line + "\n" by {
          assert entries[..count + 1][..count] == entries[..count];
        }
        assert list + line + "\n" == header + (Listing(entries[..count]) + line + "\n");
        list := list + line + "\n";
        count := count + 1;
      }
      assert entries[..count] == entries;
    }
  }

  /** Adding and then removing the id that add reported gives the wheel back. */
  lemma AddThenRemove(entries: seq<string>, text: string)
    ensures (entries + [text])[|entries|] == text
    ensures RemoveAt(entries + [text], |entries|) == entries
  {
  }

  /** The click on the spin button, with the wheel as it is at that moment.
      A targeted spin charges the issuer first and stops when the debit is
      refused; then the punishment at `pick` (the random draw) is shown
      without its marker, and a gag effect gags the target twice, so the gag
      grows by twice its duration. `now` is the clock reading, which is not
      negative. */
  method ClickSpin(ledger: Nestcoins.Ledger, gags: Gag.Registry, g: GuildId, list: seq<string>,
                   customId: string, pick: nat, now: int) returns (r: SpinResult)
    requires ledger.Valid() && now >= 0 && |Split(customId, ':')| >= 4
    requires |list| > 0 ==> pick < |list|
    modifies ledger, gags
    ensures ledger.Valid()
    ensures var c := ReadSpinId(customId);
            && (r == EmptyWheel <==> |list| == 0)
            && (r.CannotPay? <==> |list| > 0 && c.targeted
                                  && Nestcoins.Debit(old(ledger.WalletOf(g)), c.issuer, TargetedSpinPrice).1.None?)
            && (r.CannotPay? ==> r.balance == old(ledger.Balance(g, c.issuer))
                                 && ledger.wallets == old(ledger.wallets)[g := old(ledger.WalletOf(g))])
            && (!r.Spun? ==> gags.gags == old(gags.gags))
            && (r == EmptyWheel ==> ledger.wallets == old(ledger.wallets))
            && (r.Spun? ==>
                  r.target == c.target && r.index == pick && r.shown == StripMarker(list[pick]) && r.charged == c.targeted
                  && (c.targeted ==> ledger.wallets == old(ledger.wallets)[g := Nestcoins.Debit(old(ledger.WalletOf(g)), c.issuer, TargetedSpinPrice).0])
                  && (!c.targeted ==> ledger.wallets == old(ledger.wallets))
                  && Punished(old(gags.gags), gags.gags, g, c.target, c.issuer, ParseEffect(list[pick]), now))
  {
    if |list| == 0 {
      return EmptyWheel;
    }
    var c := ReadSpinId(customId);
    var target, issuer := c.target, c.issuer;
    var charged := false;
    if c.targeted {
      var paid, current := Charge(ledger, g, issuer);
      if !paid {
        return CannotPay(current);
      }
      charged := true;
    }
    ghost var charged_wallets := ledger.wallets;
    assert gags.gags == old(gags.gags);
    assert gags.GuildGags(g) == old(gags.GuildGags(g)) && gags.EntryOf(g, target) == old(gags.EntryOf(g, target));
    var shown := Apply(gags, g, target, issuer, list[pick], now);
    assert ledger.wallets == charged_wallets;
    r := Spun(target, pick, shown, charged);
  }

  /** The gags after a punishment is applied: unchanged unless its marker is
      a gag, in which case the target's entry in the guild is replaced by one
      issued now and ending as two consecutive gags of the marker's duration
      end. */
  ghost predicate Punished(before: map<GuildId, map<UserId, Gag.Entry>>, after: map<GuildId, map<UserId, Gag.Entry>>,
                           g: GuildId, target: UserId, issuer: UserId, e: Option<Effect>, now: int)
  {
    var gm := if g in before then before[g] else map[];
    var cur := if target in gm then Some(gm[target]) else None;
    if IsGag(e) then
      var d := e.value.durationSec;
      after == before[g := gm[target := Gag.Entry(Gag.NewUntil(cur, now, d) + d * 1000, issuer, now)]]
    else after == before
  }

  /** The punishment drawn: a gag marker gags the target, and the text is
      shown without its marker. */
  method Apply(gags: Gag.Registry, g: GuildId, target: UserId, issuer: UserId, punishment: string, now: int)
    returns (shown: string)
    requires now >= 0
    modifies gags
    ensures shown == StripMarker(punishment)
    ensures Punished(old(gags.gags), gags.gags, g, target, issuer, ParseEffect(punishment), now)
  {
    var effect := ParseEffect(punishment);
    shown := StripMarker(punishment);
    Enforce(gags, g, target, issuer, effect, now);
  }

  /** A gag effect gags the target; any other effect changes nothing. */
  method Enforce(gags: Gag.Registry, g: GuildId, target: UserId, issuer: UserId, e: Option<Effect>, now: int)
    requires now >= 0 && (e.Some? ==> e.value.durationSec > 0)
    modifies gags
    ensures Punished(old(gags.gags), gags.gags, g, target, issuer, e, now)
  {
    if IsGag(e) {
      GagTwice(gags, g, target, e.value.durationSec, issuer, now);
    }
  }

  /** A targeted spin takes its price from the issuer; when the balance
      does not cover it, the balance is read again for the reply. Either way
      the guild's wallet is created. */
  method Charge(ledger: Nestcoins.Ledger, g: GuildId, issuer: UserId) returns (paid: bool, balance: int)
    requires ledger.Valid()
    modifies ledger
    ensures ledger.Valid()
    ensures paid <==> Nestcoins.Debit(old(ledger.WalletOf(g)), issuer, TargetedSpinPrice).1.Some?
    ensures paid ==> ledger.wallets == old(ledger.wallets)[g := Nestcoins.Debit(old(ledger.WalletOf(g)), issuer, TargetedSpinPrice).0]
    ensures !paid ==> balance == old(ledger.Balance(g, issuer)) && ledger.wallets == old(ledger.wallets)[g := old(ledger.WalletOf(g))]
  {
    var newBalance := ledger.RemoveCoins(g, issuer, TargetedSpinPrice);
    paid := newBalance.Some?;
    balance := 0;
    if !paid {
      balance := ledger.GetBalance(g, issuer);
    }
  }

  /** The click gags the target once before the text is stripped and once
      after: the second call extends the first by the same duration, so the
      gag ends d seconds later than a single call would make it. */
  method GagTwice(gags: Gag.Registry, g: GuildId, target: UserId, d: nat, issuer: UserId, now: int)
    requires d > 0 && now >= 0
    modifies gags
    ensures gags.gags == old(gags.gags)[g := old(gags.GuildGags(g))[target :=
              Gag.Entry(Gag.NewUntil(old(gags.EntryOf(g, target)), now, d) + d * 1000, issuer, now)]]
  {
    ghost var cur := gags.EntryOf(g, target);
    ghost var before := gags.GuildGags(g);
    var _ := gags.GagUser(g, target, d, issuer, now);
    ghost var first := Gag.Entry(Gag.NewUntil(cur, now, d), issuer, now);
    assert gags.EntryOf(g, target) == Some(first);
    var _ := gags.GagUser(g, target, d, issuer, now);
    Gag.GaggedTwice(cur, now, d, issuer);
    assert before[target := first][target := Gag.Entry(Gag.NewUntil(cur, now, d) + d * 1000, issuer, now)]
        == before[target := Gag.Entry(Gag.NewUntil(cur, now, d) + d * 1000, issuer, now)];
  }

  /** With Discord ids, a click spins for the target the command named and
      charges exactly when that was somebody else. */
  lemma ClickTargetsNamed(targetId: UserId, userId: UserId)
    requires AllDigits(targetId) && AllDigits(userId) && targetId != []
    ensures ReadSpinId(SpinId(targetId, userId)).target == targetId
    ensures ReadSpinId(SpinId(targetId, userId)).issuer == userId
    ensures ReadSpinId(SpinId(targetId, userId)).targeted <==> targetId != userId
  {
    assert ':' !in targetId && ':' !in userId by {
      assert !IsDigit(':');
    }
    assert targetId != "self" by {
      assert !IsDigit('s') && IsDigit(targetId[0]);
    }
    SpinIdRoundTrip(targetId, userId);
  }

  /** The first line of the spin prompt. */
  const PromptTitle: string := WheelMark + " **Punishment Wheel**\n"

  /** The prompt's last line: the price of a targeted spin, or that a self
      spin is free. */
  function PriceInfo(targeted: bool): string {
    if targeted then "This targeted spin will cost **" + NatToString(TargetedSpinPrice) + "** Nestcoins."
    else "Self spin is free."
  }

  /** The prompt after its listing: the target's mention and the price. */
  function TargetAndPrice(targetId: UserId, userId: UserId): string {
    "\n" + TargetMark + " Target: <@" + (if targetId != userId then targetId else userId) + ">\n" + PriceInfo(targetId != userId)
  }

  /** The spin prompt: for an empty wheel nothing (the command only says the
      wheel is empty); otherwise the message listing the wheel, naming the
      target and the price, and the id of its button. */
  function SpinPrompt(entries: seq<string>, targetId: UserId, userId: UserId): Option<(string, string)> {
    if entries == [] then None
    else
      var content := PromptTitle + (Join(Lines(entries), "\n") + ("\n" + TargetAndPrice(targetId, userId)));
      Some((content, SpinId(targetId, userId)))
  }

  /** The prompt lists the wheel exactly as /wheel list does. */
  lemma PromptListsWheel(entries: seq<string>, targetId: UserId, userId: UserId)
    requires entries != []
    ensures SpinPrompt(entries, targetId, userId) ==
            Some((PromptTitle + Listing(entries) + TargetAndPrice(targetId, userId), SpinId(targetId, userId)))
  {
    ListingIsLines(entries);
    var j, t := Join(Lines(entries), "\n"), TargetAndPrice(targetId, userId);
    assert PromptTitle + (j + ("\n" + t)) == PromptTitle + (j + "\n") + t;
  }

  /** The prompt's button leads to a click for the target it names, charged
      exactly when the prompt named a price. */
  lemma PromptButton(entries: seq<string>, targetId: UserId, userId: UserId)
    requires entries != []
    requires AllDigits(targetId) && AllDigits(userId) && targetId != []
    ensures SpinPrompt(entries, targetId, userId).Some?
    ensures var click := ReadSpinId(SpinPrompt(entries, targetId, userId).value.1);
            && click.target == targetId && click.issuer == userId
            && (click.targeted <==> PriceInfo(targetId != userId) != "Self spin is free.")
  {
    ClickTargetsNamed(targetId, userId);
    assert PriceInfo(true)[0] == 'T';
  }
}
