/** The birthday registry of src/commands/birthday.js: `data.birthdays[guild]`,
    an object whose keys are the entry ids 1..n. /birthday add upserts (one
    entry per member, one per external name), /birthday remove deletes and
    renumbers, /birthday list sorts by date and lists members before
    externals. Administrator status arrives as a boolean. */
module BirthdayRegistry {
  import opened Common
  import opened Text
  import opened Numbered
  import Sorting
  import Birthdays

  /** One stored entry. `userId` is null for an external (non-member)
      birthday; `date` is stored as typed, without validation. */
  datatype Birthday = Birthday(name: string, date: string, userId: Option<UserId>)

  /** A present, non-empty option string. */
  predicate Given(s: Option<string>) {
    s.Some? && s.value != ""
  }

  /** Whose birthday /birthday add writes: a non-admin always their own; an
      admin the chosen user, else the given external name (without a user
      id), else their own. */
  function Author(isAdmin: bool, selfName: string, selfId: UserId, optUser: Option<(string, UserId)>,
                  optName: Option<string>): (r: (string, Option<UserId>))
    ensures !isAdmin ==> r == (selfName, Some(selfId))
    ensures r.1.None? <==> isAdmin && optUser.None? && Given(optName)
    ensures r.1.None? ==> r.0 == optName.value
    ensures isAdmin && optUser.Some? ==> r == (optUser.value.0, Some(optUser.value.1))
    ensures r.1.Some? && r.1 != Some(selfId) ==> isAdmin && optUser.Some?
  {
    if !isAdmin then (selfName, Some(selfId))
    else if optUser.Some? then (optUser.value.0, Some(optUser.value.1))
    else if Given(optName) then (optName.value, None)
    else (selfName, Some(selfId))
  }

  /** The upsert test: a member entry is the same person when the user ids
      agree, an external one when the names agree. */
  predicate SameOwner(e: Birthday, name: string, userId: Option<UserId>) {
    (userId.Some? && e.userId == userId) || (userId.None? && e.name == name)
  }

  /** The position of the first entry that belongs to the same person. */
  function FirstOwner(entries: seq<Birthday>, name: string, userId: Option<UserId>): (r: Option<nat>)
    ensures r.None? <==> forall j :: 0 <= j < |entries| ==> !SameOwner(entries[j], name, userId)
    ensures r.Some? ==> r.value < |entries| && SameOwner(entries[r.value], name, userId)
                        && forall j :: 0 <= j < r.value ==> !SameOwner(entries[j], name, userId)
  {
    if entries == [] then None
    else if SameOwner(entries[0], name, userId) then Some(0)
    else
      var r := FirstOwner(entries[1..], name, userId);
      assert forall j :: 1 <= j < |entries| ==> entries[j] == entries[1..][j - 1];
      if r.None? then None else Some(r.value + 1)
  }

  /** The registry after add: the first entry of the same person, in id order,
      is overwritten under its id; otherwise the entry is stored under
      count + 1. */
  function Upserted(book: map<int, Birthday>, e: Birthday): map<int, Birthday> {
    var owner := FirstOwner(Values(book), e.name, e.userId);
    if owner.Some? then book[KeyOrder(book.Keys)[owner.value] := e] else book[NextId(book) := e]
  }

  /** Upsert on the list of entries. */
  function UpsertList(entries: seq<Birthday>, e: Birthday): seq<Birthday> {
    var owner := FirstOwner(entries, e.name, e.userId);
    if owner.Some? then entries[owner.value := e] else entries + [e]
  }

  /** On ids 1..n, add replaces the person's entry in place or appends a new
      one under n + 1; the ids stay 1..n. */
  lemma UpsertedValues(book: map<int, Birthday>, e: Birthday)
    requires Contiguous(book)
    ensures Contiguous(Upserted(book, e))
    ensures Values(Upserted(book, e)) == UpsertList(Values(book), e)
  {
    var owner := FirstOwner(Values(book), e.name, e.userId);
    if owner.Some? {
      OverwriteAt(book, KeyOrder(book.Keys), owner.value, e);
    } else {
      AddAppends(book, e);
    }
  }

  /** What the search found decides the branch of the upsert. */
  lemma UpsertAt(book: map<int, Birthday>, e: Birthday, i: nat)
    requires i <= |book|
    requires i == |book| <==> FirstOwner(Values(book), e.name, e.userId).None?
    requires i < |book| ==> FirstOwner(Values(book), e.name, e.userId) == Some(i)
    ensures i < |book| ==> book[KeyOrder(book.Keys)[i] := e] == Upserted(book, e)
    ensures i == |book| ==> book[NextId(book) := e] == Upserted(book, e)
  {
  }

  /** No member has two entries. */
  predicate MembersUnique(entries: seq<Birthday>) {
    forall i, j :: 0 <= i < j < |entries| && entries[i].userId.Some? ==> entries[i].userId != entries[j].userId
  }

  /** After an add the person's first entry is the one just written, and a
      registry with one entry per member keeps that property. */
  lemma UpsertListProperties(entries: seq<Birthday>, e: Birthday)
    ensures var after := UpsertList(entries, e);
            && FirstOwner(after, e.name, e.userId).Some?
            && after[FirstOwner(after, e.name, e.userId).value] == e
            && (FirstOwner(entries, e.name, e.userId).Some? <==> |after| == |entries|)
            && (FirstOwner(entries, e.name, e.userId).None? <==> |after| == |entries| + 1)
    ensures MembersUnique(entries) ==> MembersUnique(UpsertList(entries, e))
  {
    var after := UpsertList(entries, e);
    var owner := FirstOwner(entries, e.name, e.userId);
    assert SameOwner(e, e.name, e.userId);
    if owner.Some? {
      assert after[owner.value] == e;
      assert forall j :: 0 <= j < owner.value ==> after[j] == entries[j];
    } else {
      assert after[|entries|] == e;
      assert forall j :: 0 <= j < |entries| ==> after[j] == entries[j];
    }
    if MembersUnique(entries) {
      forall i, j | 0 <= i < j < |after| && after[i].userId.Some?
        ensures after[i].userId != after[j].userId
      {
        if owner.Some? && e.userId.Some? {
          if i == owner.value {
            assert after[j] == entries[j];
          } else if j == owner.value {
            assert after[i] == entries[i];
            assert SameOwner(entries[j], e.name, e.userId);
          }
        } else if owner.None? && e.userId.Some? && j == |entries| {
          assert after[i] == entries[i];
          assert !SameOwner(entries[i], e.name, e.userId);
        }
      }
    }
  }

  /** Adding the same person twice leaves one entry, carrying the second
      date. */
  lemma AddTwiceKeepsOne(entries: seq<Birthday>, first: Birthday, second: Birthday)
    requires second.name == first.name && second.userId == first.userId
    ensures |UpsertList(UpsertList(entries, first), second)| == |UpsertList(entries, first)|
    ensures second in UpsertList(UpsertList(entries, first), second)
  {
    UpsertListProperties(entries, first);
    UpsertListProperties(UpsertList(entries, first), second);
  }

  /** The search of add: `for (const [id, entry] of Object.entries(book))`
      up to the first entry of the same person; |book| when there is none. */
  method FindOwner(book: map<int, Birthday>, name: string, userId: Option<UserId>) returns (i: nat)
    ensures i <= |book|
    ensures i == |book| <==> FirstOwner(Values(book), name, userId).None?
    ensures i < |book| ==> FirstOwner(Values(book), name, userId) == Some(i)
  {
    var ks := KeyOrder(book.Keys);
    ghost var entries := Values(book);
    i := 0;
    while i < |ks| && !SameOwner(book[ks[i]], name, userId)
      invariant 0 <= i <= |ks|
      invariant forall j :: 0 <= j < i ==> !SameOwner(entries[j], name, userId)
    {
      i := i + 1;
    }
    FirstOwnerAt(entries, name, userId, i);
  }

  /** The first position that matches, found by a scan, is FirstOwner's. */
  lemma FirstOwnerAt(entries: seq<Birthday>, name: string, userId: Option<UserId>, i: nat)
    requires i <= |entries|
    requires forall j :: 0 <= j < i ==> !SameOwner(entries[j], name, userId)
    requires i < |entries| ==> SameOwner(entries[i], name, userId)
    ensures i == |entries| ==> FirstOwner(entries, name, userId).None?
    ensures i < |entries| ==> FirstOwner(entries, name, userId) == Some(i)
  {
    var r := FirstOwner(entries, name, userId);
    if r.Some? && i < |entries| {
      assert !(r.value < i) && !(i < r.value);
    }
  }

  /** A removal ends one of three ways. */
  datatype RemoveResult = NoSuchEntry | NotYours | Removed(name: string)

  /** The number of leading digits. */
  function DigitRun(s: string): (n: nat)
    ensures n <= |s| && AllDigits(s[..n]) && (n < |s| ==> !IsDigit(s[n]))
  {
    if s == [] || !IsDigit(s[0]) then 0
    else
      var n := DigitRun(s[1..]) + 1;
      assert s[..n] == [s[0]] + s[1..][..n - 1];
      n
  }

  /** The list's sort key, `parseInt(mm) * 100 + parseInt(dd)` on the pieces
      before and after the first `-`. None is NaN, which a missing piece or
      one parseInt cannot read gives. */
  function SortKey(date: string): Option<int> {
    KeyOf(Split(date, '-'))
  }

  /** The key of the pieces of a date. */
  function KeyOf(parts: seq<string>): Option<int>
    requires |parts| >= 1
  {
    var mm := ParseInt(parts[0], true);
    var dd := if |parts| > 1 then ParseInt(parts[1], true) else None;
    if mm.Some? && dd.Some? then Some(mm.value * 100 + dd.value) else None
  }

  /** Where the sort puts a date: its key, with a NaN key placed as 0. */
  function ListKey(date: string): int {
    var k := SortKey(date);
    if k.Some? then k.value else 0
  }

  /** The key that makes Sorting's descending sort an ascending sort by
      date. */
  function ByDate(e: Birthday): Sorting.Key {
    (-ListKey(e.date), 0)
  }

  /** A date stored as two runs of digits sorts by month * 100 + day, and a
      sign in front of the month is parseInt's: `+3-12` sorts as 312 and
      `-3-12` as -288 (the `-` ahead of the month is the sign, not a
      separator, only once Split has put it in front of the first piece: here
      it splits off an empty first piece, so the key is NaN instead). */
  lemma SortKeyOfDigits(sign: string, mm: string, dd: string, x: nat, y: nat)
    requires sign == "" || sign == "+"
    requires mm != [] && AllDigits(mm) && dd != [] && AllDigits(dd)
    requires x == ParseNat(mm) && y == ParseNat(dd)
    ensures SortKey(sign + mm + "-" + dd) == Some(x * 100 + y)
    ensures FormatDate(sign + mm + "-" + dd) == dd + " " + Birthdays.MonthAbbrev(x)
  {
    var m := sign + mm;
    assert '-' !in m && '-' !in dd by {
      assert forall k :: 0 <= k < |m| ==> m[k] != '-';
      assert forall k :: 0 <= k < |dd| ==> dd[k] != '-';
    }
    PiecesOf(m, dd);
    assert "" + sign + mm + "" == m;
    ParseIntDecimal("", sign, mm, "", true);
    ParseIntOfDigits(dd, true);
    DateOfPieces(sign + mm + "-" + dd, m, dd, x, y);
  }

  /** parseInt without a radix reads a month written `0x..` in base 16:
      `0x3-12` sorts as 312 and prints as `12 Mar`. */
  lemma SortKeyOfHex(x: char, h: string, dd: string, v: nat, y: nat)
    requires x == 'x' || x == 'X'
    requires h != [] && AllDigitsIn(h, true) && dd != [] && AllDigits(dd)
    requires v == ValueIn(h, true) && y == ParseNat(dd)
    ensures SortKey(['0', x] + h + "-" + dd) == Some(v * 100 + y)
    ensures FormatDate(['0', x] + h + "-" + dd) == dd + " " + Birthdays.MonthAbbrev(v)
  {
    var m := ['0', x] + h;
    assert '-' !in m && '-' !in dd by {
      assert forall k :: 0 <= k < |m| ==> m[k] != '-';
      assert forall k :: 0 <= k < |dd| ==> dd[k] != '-';
    }
    PiecesOf(m, dd);
    assert "" + "" + ['0', x] + h + "" == m;
    ParseIntHex("", "", x, h, "");
    ParseIntOfDigits(dd, true);
    DateOfPieces(m + "-" + dd, m, dd, v, y);
  }

  /** The key and the printed form of a date of two pieces parseInt reads. */
  lemma DateOfPieces(date: string, a: string, b: string, x: int, y: int)
    requires Split(date, '-') == [a, b]
    requires ParseInt(a, true) == Some(x) && ParseInt(b, true) == Some(y)
    ensures SortKey(date) == Some(x * 100 + y)
    ensures FormatDate(date) == b + " " + Birthdays.MonthAbbrev(x)
  {
    SortKeyIsKeyOf(date, [a, b]);
    KeyOfPair(a, b, x, y);
    FormatOfPair(date, a, b, x);
  }

  lemma SortKeyIsKeyOf(date: string, parts: seq<string>)
    requires Split(date, '-') == parts
    ensures |parts| >= 1 && SortKey(date) == KeyOf(parts)
  {
  }

  lemma KeyOfPair(a: string, b: string, x: int, y: int)
    requires ParseInt(a, true) == Some(x) && ParseInt(b, true) == Some(y)
    ensures KeyOf([a, b]) == Some(x * 100 + y)
  {
  }

  lemma FormatOfPair(date: string, a: string, b: string, x: int)
    requires Split(date, '-') == [a, b]
    requires ParseInt(a, true) == Some(x)
    ensures FormatDate(date) == b + " " + Birthdays.MonthAbbrev(x)
  {
    FormatIsPieces(date, [a, b]);
    FormatPair(a, b, x);
  }

  lemma FormatIsPieces(date: string, parts: seq<string>)
    requires Split(date, '-') == parts
    ensures |parts| >= 1 && FormatDate(date) == FormatPieces(parts)
  {
  }

  lemma FormatPair(a: string, b: string, x: int)
    requires ParseInt(a, true) == Some(x)
    ensures FormatPieces([a, b]) == b + " " + Birthdays.MonthAbbrev(x)
  {
  }

  /** `a-b` splits into a and b when neither holds a `-`. */
  lemma PiecesOf(a: string, b: string)
    requires '-' !in a && '-' !in b
    ensures Split(a + "-" + b, '-') == [a, b]
  {
    assert a + "-" + b == a + ['-'] + b;
    SplitAfterPlain(a, '-', b);
    SplitOfPlain(b, '-');
  }

  /** `entries.sort((a, b) => sortKey(a.date) - sortKey(b.date))`. */
  function ByDateOrder(entries: seq<Birthday>): seq<Birthday> {
    Sorting.SortDesc(entries, ByDate)
  }

  /** The entries of members, in order. */
  function MembersOf(entries: seq<Birthday>): (r: seq<Birthday>)
    ensures forall i :: 0 <= i < |r| ==> r[i].userId.Some?
  {
    if entries == [] then []
    else MembersOf(entries[..|entries| - 1]) + (if entries[|entries| - 1].userId.Some? then [entries[|entries| - 1]] else [])
  }

  /** The external entries, in order. */
  function ExternalsOf(entries: seq<Birthday>): (r: seq<Birthday>)
    ensures forall i :: 0 <= i < |r| ==> r[i].userId.None?
  {
    if entries == [] then []
    else ExternalsOf(entries[..|entries| - 1]) + (if entries[|entries| - 1].userId.None? then [entries[|entries| - 1]] else [])
  }

  /** Splitting into members and externals loses and invents nothing. */
  lemma {:induction false} PartitionPermutes(entries: seq<Birthday>)
    ensures multiset(MembersOf(entries)) + multiset(ExternalsOf(entries)) == multiset(entries)
  {
    if entries != [] {
      var init, last := entries[..|entries| - 1], entries[|entries| - 1];
      PartitionPermutes(init);
      AppendToOnePart(MembersOf(init), ExternalsOf(init), entries, MembersOf(entries), ExternalsOf(entries));
    }
  }

  /** Two parts of a whole's initial segment, one of them extended by the
      whole's last element, are two parts of the whole. */
  lemma AppendToOnePart(ms: seq<Birthday>, xs: seq<Birthday>, whole: seq<Birthday>, ms': seq<Birthday>, xs': seq<Birthday>)
    requires whole != []
    requires multiset(ms) + multiset(xs) == multiset(whole[..|whole| - 1])
    requires var last := whole[|whole| - 1];
             (ms' == ms + [last] && xs' == xs) || (ms' == ms && xs' == xs + [last])
    ensures multiset(ms') + multiset(xs') == multiset(whole)
  {
    assert whole == whole[..|whole| - 1] + [whole[|whole| - 1]];
  }

  /** The members keep the order of the whole, for any sort key. */
  lemma {:induction false} MembersKeepOrder(entries: seq<Birthday>, key: Birthday -> Sorting.Key)
    requires Sorting.Descending(entries, key)
    ensures Sorting.Descending(MembersOf(entries), key)
  {
    if entries != [] {
      var init, last := entries[..|entries| - 1], entries[|entries| - 1];
      assert Sorting.Descending(init, key);
      MembersKeepOrder(init, key);
      if last.userId.Some? {
        PartitionPermutes(init);
        assert entries == init + [last];
        AppendLatestOf(init, MembersOf(init), last, key);
      }
    }
  }

  /** The externals keep the order of the whole, for any sort key. */
  lemma {:induction false} ExternalsKeepOrder(entries: seq<Birthday>, key: Birthday -> Sorting.Key)
    requires Sorting.Descending(entries, key)
    ensures Sorting.Descending(ExternalsOf(entries), key)
  {
    if entries != [] {
      var init, last := entries[..|entries| - 1], entries[|entries| - 1];
      assert Sorting.Descending(init, key);
      ExternalsKeepOrder(init, key);
      if last.userId.None? {
        PartitionPermutes(init);
        assert entries == init + [last];
        AppendLatestOf(init, ExternalsOf(init), last, key);
      }
    }
  }

  /** A part of an ordered whole, extended by an element the whole was
      extended by, stays ordered. */
  lemma AppendLatestOf(whole: seq<Birthday>, part: seq<Birthday>, x: Birthday, key: Birthday -> Sorting.Key)
    requires Sorting.Descending(whole + [x], key)
    requires Sorting.Descending(part, key)
    requires multiset(part) <= multiset(whole)
    ensures Sorting.Descending(part + [x], key)
  {
    SubsetOf(whole, part);
    var w := whole + [x];
    forall i | 0 <= i < |part| ensures Sorting.AtLeast(key(part[i]), key(x)) {
      var k :| 0 <= k < |whole| && whole[k] == part[i];
      assert w[k] == whole[k] && w[|whole|] == x;
    }
    Sorting.AppendLeast(part, x, key);
  }

  /** Every element of a part is an element of the whole. */
  lemma SubsetOf(whole: seq<Birthday>, part: seq<Birthday>)
    requires multiset(part) <= multiset(whole)
    ensures forall i :: 0 <= i < |part| ==> part[i] in whole
  {
    forall i | 0 <= i < |part| ensures part[i] in whole {
      assert part[i] in multiset(part);
    }
  }

  /** /birthday list's two sections: the entries in date order, split into
      members and externals. Both are in ascending date order and together
      they hold every entry once. */
  lemma ListSections(book: map<int, Birthday>)
    ensures var sorted := ByDateOrder(Values(book));
            && multiset(MembersOf(sorted)) + multiset(ExternalsOf(sorted)) == multiset(Values(book))
            && |MembersOf(sorted)| + |ExternalsOf(sorted)| == |book|
            && (forall i, j :: 0 <= i < j < |MembersOf(sorted)| ==> ListKey(MembersOf(sorted)[i].date) <= ListKey(MembersOf(sorted)[j].date))
            && (forall i, j :: 0 <= i < j < |ExternalsOf(sorted)| ==> ListKey(ExternalsOf(sorted)[i].date) <= ListKey(ExternalsOf(sorted)[j].date))
  {
    var sorted := ByDateOrder(Values(book));
    Sorting.SortPermutes(Values(book), ByDate);
    Sorting.SortIsDescending(Values(book), ByDate);
    PartitionPermutes(sorted);
    MembersKeepOrder(sorted, ByDate);
    ExternalsKeepOrder(sorted, ByDate);
    var ms, xs := MembersOf(sorted), ExternalsOf(sorted);
    assert |multiset(ms)| + |multiset(xs)| == |multiset(Values(book))|;
    forall i, j | 0 <= i < j < |ms| ensures ListKey(ms[i].date) <= ListKey(ms[j].date) {
      assert Sorting.AtLeast(ByDate(ms[i]), ByDate(ms[j]));
    }
    forall i, j | 0 <= i < j < |xs| ensures ListKey(xs[i].date) <= ListKey(xs[j].date) {
      assert Sorting.AtLeast(ByDate(xs[i]), ByDate(xs[j]));
    }
  }

  /** `formatDate`: the day piece as typed, a space, the short name of the
      month parseInt reads (`undefined` when there is no such piece or
      month). */
  function FormatDate(md: string): string {
    FormatPieces(Split(md, '-'))
  }

  /** formatDate on the pieces of a date. */
  function FormatPieces(parts: seq<string>): string
    requires |parts| >= 1
  {
    var mm := ParseInt(parts[0], true);
    var dd := if |parts| > 1 then parts[1] else "undefined";
    dd + " " + Birthdays.MonthAbbrev(if mm.Some? then mm.value else 0)
  }

  /** One line of the list: a mention for a member, the name otherwise. */
  function Line(e: Birthday): string {
    "• " + FormatDate(e.date) + " — " + (if e.userId.Some? then "<@" + e.userId.value + ">" else e.name)
  }

  function Lines(entries: seq<Birthday>): (r: seq<string>)
    ensures |r| == |entries|
    ensures forall i :: 0 <= i < |r| ==> r[i] == Line(entries[i])
  {
    seq(|entries|, i requires 0 <= i < |entries| => Line(entries[i]))
  }

  const NoBirthdays := "No birthdays set yet."
  const MembersHeader := "\U{1F382} **Discord Members**\n"
  const ExternalsHeader := "\U{1F465} **External Birthdays**\n"

  /** The reply to /birthday list: the fixed text for an empty registry,
      otherwise the members' section, then the externals' section, each only
      when it has a line. Of all the trailing white space only what ends the
      last external line is lost. */
  function ListMessage(book: map<int, Birthday>): (r: string)
    ensures |book| == 0 <==> r == NoBirthdays
    ensures |book| > 0 ==>
              var sorted := ByDateOrder(Values(book));
              Sections(MembersOf(sorted), ExternalsOf(sorted)) == r
              && |MembersOf(sorted)| + |ExternalsOf(sorted)| == |book|
  {
    if |book| == 0 then NoBirthdays
    else
      var sorted := ByDateOrder(Values(book));
      ListSections(book);
      Sections(MembersOf(sorted), ExternalsOf(sorted))
  }

  /** The two sections of the list, as `message.trim()` leaves them. */
  function Sections(ms: seq<Birthday>, xs: seq<Birthday>): (r: string)
    requires forall i :: 0 <= i < |ms| ==> ms[i].userId.Some?
    requires |ms| + |xs| > 0
    ensures |ms| > 0 && |xs| == 0 ==> r == MembersHeader + Join(Lines(ms), "\n")
    ensures |ms| > 0 && |xs| > 0 ==>
              r == MembersHeader + Join(Lines(ms), "\n") + "\n\n" + TrimEnd(ExternalsHeader + Join(Lines(xs), "\n"))
    ensures |ms| == 0 ==> r == TrimEnd(ExternalsHeader + Join(Lines(xs), "\n"))
    ensures r != [] && r[0] == (if |ms| > 0 then MembersHeader[0] else ExternalsHeader[0])
  {
    var members := if |ms| > 0 then MembersHeader + Join(Lines(ms), "\n") + "\n\n" else "";
    var externals := if |xs| > 0 then ExternalsHeader + Join(Lines(xs), "\n") else "";
    SectionsTrimmed(ms, xs, members, externals);
    Trim(members + externals)
  }

  /** What the trim does to the two sections. */
  lemma SectionsTrimmed(ms: seq<Birthday>, xs: seq<Birthday>, members: string, externals: string)
    requires forall i :: 0 <= i < |ms| ==> ms[i].userId.Some?
    requires |ms| + |xs| > 0
    requires members == if |ms| > 0 then MembersHeader + Join(Lines(ms), "\n") + "\n\n" else ""
    requires externals == if |xs| > 0 then ExternalsHeader + Join(Lines(xs), "\n") else ""
    ensures var r := Trim(members + externals);
            && (|ms| > 0 && |xs| == 0 ==> r == MembersHeader + Join(Lines(ms), "\n"))
            && (|ms| > 0 && |xs| > 0 ==>
                  r == MembersHeader + Join(Lines(ms), "\n") + "\n\n" + TrimEnd(ExternalsHeader + Join(Lines(xs), "\n")))
            && (|ms| == 0 ==> r == TrimEnd(ExternalsHeader + Join(Lines(xs), "\n")))
            && r != [] && r[0] == (if |ms| > 0 then MembersHeader[0] else ExternalsHeader[0])
  {
    var e := ExternalsHeader + Join(Lines(xs), "\n");
    assert e[0] == ExternalsHeader[0];
    if |ms| > 0 {
      var m := MembersHeader + Join(Lines(ms), "\n");
      assert m[0] == MembersHeader[0];
      if |xs| > 0 {
        assert members + externals == m + "\n\n" + e;
        TrimAround(m, "\n\n", e);
      } else {
        MemberLineEnds(ms);
        assert members + externals == m + "\n\n";
        TrimTail(m, "\n\n");
      }
    } else {
      assert members + externals == e;
      TrimOpened(e);
    }
  }

  /** The members' lines joined end with the `>` of the last mention. */
  lemma MemberLineEnds(ms: seq<Birthday>)
    requires ms != [] && forall i :: 0 <= i < |ms| ==> ms[i].userId.Some?
    ensures var j := MembersHeader + Join(Lines(ms), "\n"); j != [] && j[|j| - 1] == '>'
  {
    var ls := Lines(ms);
    var last := ms[|ms| - 1];
    assert ls[|ls| - 1] == Line(last);
    JoinEnds(ls, "\n");
  }

  /** `data.birthdays`: one registry per guild. */
  class BirthdayBook {
    var books: map<GuildId, map<int, Birthday>>

    /** Every registry has the ids 1..n. */
    ghost predicate Valid()
      reads this
    {
      AllContiguous(books)
    }

    constructor ()
      ensures Valid() && books == map[]
    {
      books := map[];
    }

    /** `data.birthdays?.[guild] || {}`. */
    function BookOf(g: GuildId): map<int, Birthday>
      reads this
    {
      if g in books then books[g] else map[]
    }

    /** /birthday add: picks the author, then upserts the entry. */
    method AddCommand(g: GuildId, isAdmin: bool, selfName: string, selfId: UserId, optUser: Option<(string, UserId)>,
                      optName: Option<string>, date: string) returns (e: Birthday)
      modifies this
      ensures e == Birthday(Author(isAdmin, selfName, selfId, optUser, optName).0, date,
                            Author(isAdmin, selfName, selfId, optUser, optName).1)
      ensures books == old(books)[g := Upserted(old(BookOf(g)), e)]
      ensures old(Valid()) ==> Valid()
    {
      var author := Author(isAdmin, selfName, selfId, optUser, optName);
      e := Birthday(author.0, date, author.1);
      Add(g, e);
    }

    /** The upsert: the search walks the entries in id order and stops at the
        first of the same person. */
    method Add(g: GuildId, e: Birthday)
      modifies this
      ensures books == old(books)[g := Upserted(old(BookOf(g)), e)]
      ensures old(Valid()) ==> Valid()
    {
      var book := BookOf(g);
      var i := FindOwner(book, e.name, e.userId);
      ghost var before := book;
      if i < |book| {
        book := book[KeyOrder(book.Keys)[i] := e];
      } else {
        book := book[NextId(book) := e];
      }
      UpsertAt(before, e, i);
      if old(Valid()) {
        UpsertedValues(before, e);
        StillContiguous(books, g, book);
      }
      books := books[g := book];
    }

    /** /birthday remove: an unknown id and, for a non-admin, somebody else's
        entry are refused with nothing changed; otherwise the entry is deleted
        and the rest renumbered 1..n in their previous order. */
    method Remove(g: GuildId, id: int, isAdmin: bool, caller: UserId) returns (r: RemoveResult)
      modifies this
      ensures r == NoSuchEntry <==> id !in old(BookOf(g))
      ensures r == NotYours <==> id in old(BookOf(g)) && !isAdmin && old(BookOf(g))[id].userId != Some(caller)
      ensures !r.Removed? ==> books == old(books)
      ensures r.Removed? ==> id in old(BookOf(g)) && r.name == old(BookOf(g))[id].name
                             && books == old(books)[g := Numbered.Removed(old(BookOf(g)), id)]
      ensures old(Valid()) ==> Valid()
    {
      var book := BookOf(g);
      if id !in book {
        return NoSuchEntry;
      }
      var entry := book[id];
      if !isAdmin && entry.userId != Some(caller) {
        return NotYours;
      }
      var items := Values(book - {id});
      var renumbered := Renumber(items);
      RenumberedValues(items);
      assert renumbered == Numbered.Removed(book, id);
      if old(Valid()) {
        StillContiguous(books, g, renumbered);
      }
      books := books[g := renumbered];
      r := Removed(entry.name);
    }
  }
}
