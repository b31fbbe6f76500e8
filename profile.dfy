/** The /profile command of src/commands/profile.js: a member's balance,
    their rank among the positive balances in leaderboard order, and their
    birthday as "Month DD" from the guild's birthday registry. */
module ProfileCommand {
  import opened Common
  import opened Text
  import Nestcoins
  import Leaderboard
  import BirthdayRegistry
  import Numbered

  /** The user ids of a ranking, in order. */
  function Ids(s: seq<Leaderboard.Row>): (r: seq<UserId>)
    ensures |r| == |s|
    ensures forall i :: 0 <= i < |r| ==> r[i] == s[i].0
  {
    seq(|s|, i requires 0 <= i < |s| => s[i].0)
  }

  /** `findIndex(entry => entry[0] === userId)` in the ranking, plus one;
      None stands for `Unranked`. */
  function RankIn(all: seq<Leaderboard.Row>, u: UserId): Option<nat> {
    var idx := IndexOf(Ids(Leaderboard.Ranked(all)), u);
    if idx == -1 then None else Some(idx + 1)
  }

  /** `sortedBalances.length`. */
  function TotalRanked(all: seq<Leaderboard.Row>): nat {
    |Leaderboard.Ranked(all)|
  }

  /** A user is ranked exactly when some row of theirs is positive, and the
      total is the number of positive rows. */
  lemma RankedIff(all: seq<Leaderboard.Row>, u: UserId)
    ensures TotalRanked(all) == |Leaderboard.Positive(all)|
    ensures RankIn(all, u).Some? <==> exists e :: e in all && e.0 == u && e.1 > 0
  {
    Leaderboard.RankedPermutes(all);
    var r := Leaderboard.Ranked(all);
    FoundIff(r, all, u);
    assert IndexOf(Ids(r), u) != -1 <==> u in Ids(r);
  }

  /** In a sequence holding exactly the positive rows of `all`, a user has a
      row exactly when they have a positive row in `all`. */
  lemma FoundIff(r: seq<Leaderboard.Row>, all: seq<Leaderboard.Row>, u: UserId)
    requires forall e :: multiset(r)[e] == if e.1 > 0 then multiset(all)[e] else 0
    ensures u in Ids(r) <==> exists e :: e in all && e.0 == u && e.1 > 0
  {
    var ids := Ids(r);
    if exists e :: e in all && e.0 == u && e.1 > 0 {
      var e :| e in all && e.0 == u && e.1 > 0;
      assert multiset(r)[e] == multiset(all)[e] > 0;
      var j :| 0 <= j < |r| && r[j] == e;
      assert ids[j] == u;
    }
    if u in ids {
      var j :| 0 <= j < |ids| && ids[j] == u;
      assert r[j] in multiset(r);
      assert multiset(all)[r[j]] > 0;
    }
  }

  /** The rank k is the place of the user's first row in the ranking, so it
      lies in 1..totalRanked, and only rows with at least their amount come
      before it. */
  lemma RankPlace(all: seq<Leaderboard.Row>, u: UserId)
    requires RankIn(all, u).Some?
    ensures var k := RankIn(all, u).value;
            && 1 <= k <= TotalRanked(all)
            && Leaderboard.Ranked(all)[k - 1].0 == u
            && (forall j :: 0 <= j < k - 1 ==> Leaderboard.Ranked(all)[j].0 != u)
            && (forall j :: 0 <= j < k - 1 ==> Leaderboard.Ranked(all)[j].1 >= Leaderboard.Ranked(all)[k - 1].1)
  {
    Leaderboard.RankedDescending(all);
    FirstPlace(Leaderboard.Ranked(all), u);
  }

  /** Where IndexOf finds a user in a ranking. */
  lemma FirstPlace(r: seq<Leaderboard.Row>, u: UserId)
    requires IndexOf(Ids(r), u) != -1
    ensures var i := IndexOf(Ids(r), u);
            r[i].0 == u && forall j :: 0 <= j < i ==> r[j].0 != u
  {
    var ids := Ids(r);
    var i := IndexOf(ids, u);
    forall j | 0 <= j < i ensures r[j].0 != u {
      assert ids[..i][j] == ids[j];
    }
  }

  /** For a ledger wallet: a member is ranked exactly when their balance is
      positive. */
  lemma RankOfWallet(w: Nestcoins.Wallet, u: UserId)
    requires UniqueKeys(w)
    ensures RankIn(Nestcoins.AllBalances(w), u).Some? <==> Nestcoins.BalanceIn(w, u) > 0
  {
    var all := Nestcoins.AllBalances(w);
    RankedIff(all, u);
    if Nestcoins.BalanceIn(w, u) > 0 {
      var i :| 0 <= i < |w| && w[i].0 == u;
      assert all[i] in all;
    }
    if exists e :: e in all && e.0 == u && e.1 > 0 {
      var e :| e in all && e.0 == u && e.1 > 0;
      RowOfWallet(w, e);
    }
  }

  /** The ranking shows a ranked member with exactly their balance. */
  lemma RankedAmount(w: Nestcoins.Wallet, u: UserId)
    requires UniqueKeys(w) && RankIn(Nestcoins.AllBalances(w), u).Some?
    ensures Leaderboard.Ranked(Nestcoins.AllBalances(w))[RankIn(Nestcoins.AllBalances(w), u).value - 1].1
            == Nestcoins.BalanceIn(w, u)
  {
    var all := Nestcoins.AllBalances(w);
    var r := Leaderboard.Ranked(all);
    var k := RankIn(all, u).value;
    FirstPlace(r, u);
    Leaderboard.RankedPermutes(all);
    assert multiset(r)[r[k - 1]] > 0;
    assert r[k - 1] in all;
    RowOfWallet(w, r[k - 1]);
  }

  /** A row of getAllBalances holds its user's balance. */
  lemma RowOfWallet(w: Nestcoins.Wallet, e: Leaderboard.Row)
    requires UniqueKeys(w) && e in Nestcoins.AllBalances(w)
    ensures e.1 == Nestcoins.BalanceIn(w, e.0)
  {
    var all := Nestcoins.AllBalances(w);
    var i :| 0 <= i < |all| && all[i] == e;
  }

  /** A member ranked k within the leaderboard's limit is on its k-th line. */
  lemma RankMatchesLeaderboard(all: seq<Leaderboard.Row>, u: UserId, limit: nat)
    requires RankIn(all, u).Some? && RankIn(all, u).value <= limit
    ensures RankIn(all, u).value <= |Leaderboard.Top(all, limit)|
    ensures Leaderboard.Top(all, limit)[RankIn(all, u).value - 1].0 == u
  {
    RankPlace(all, u);
  }

  /** `monthNames[n - 1]`, `undefined` outside 1..12. */
  function MonthName(n: int): (name: string)
    ensures 1 <= n <= 12 ==> |name| >= 3 && name != "undefined"
  {
    if 1 <= n <= 12 then
      ["January", "February", "March", "April", "May", "June", "July", "August", "September",
       "October", "November", "December"][n - 1]
    else "undefined"
  }

  /** `const [month, day] = entry.date.split('-')`, then the name of the
      month `parseInt(month, 10)` reads and the day piece as typed; a missing
      piece prints as `undefined`. */
  function FormatBirthday(date: string): string {
    NamePieces(Split(date, '-'))
  }

  /** formatBirthday on the pieces of a date. */
  function NamePieces(parts: seq<string>): string
    requires |parts| >= 1
  {
    var month := ParseInt(parts[0], false);
    var day := if |parts| > 1 then parts[1] else "undefined";
    MonthName(if month.Some? then month.value else 0) + " " + day
  }

  /** A stored `MM-DD` date shows the full name of the month parseInt reads
      in base 10 and the day as stored; a `+` in front of the month is
      parseInt's sign, so `+3-12` shows as `March 12`. */
  lemma FormatStoredDate(sign: string, mm: string, dd: string, x: nat)
    requires sign == "" || sign == "+"
    requires mm != [] && AllDigits(mm) && x == ParseNat(mm)
    requires '-' !in dd
    ensures FormatBirthday(sign + mm + "-" + dd) == MonthName(x) + " " + dd
  {
    var m := sign + mm;
    assert '-' !in m by {
      assert forall k :: 0 <= k < |m| ==> m[k] != '-';
    }
    BirthdayRegistry.PiecesOf(m, dd);
    assert "" + sign + mm + "" == m;
    ParseIntDecimal("", sign, mm, "", false);
    BirthdayOfPieces(m + "-" + dd, m, dd, x);
  }

  /** With radix 10 there is no hexadecimal prefix: a month written `0x..`
      reads as 0 and has no name, so `0x3-12` shows as `undefined 12`. */
  lemma FormatHexDate(x: char, h: string, dd: string)
    requires x == 'x' || x == 'X'
    requires '-' !in h && '-' !in dd
    ensures FormatBirthday(['0', x] + h + "-" + dd) == "undefined " + dd
  {
    var m := ['0', x] + h;
    assert '-' !in m by {
      assert forall k :: 0 <= k < |m| ==> m[k] != '-' by {
        forall k | 0 <= k < |m| ensures m[k] != '-' {
          if k >= 2 {
            assert m[k] == h[k - 2];
          }
        }
      }
    }
    BirthdayRegistry.PiecesOf(m, dd);
    assert "" + "" + "0" + ([x] + h) == m;
    ParseIntDecimal("", "", "0", [x] + h, false);
    BirthdayOfPieces(m + "-" + dd, m, dd, 0);
    assert MonthName(0) == "undefined";
  }

  /** The line of a date of two pieces whose first parseInt reads. */
  lemma BirthdayOfPieces(date: string, a: string, b: string, x: int)
    requires Split(date, '-') == [a, b]
    requires ParseInt(a, false) == Some(x)
    ensures FormatBirthday(date) == MonthName(x) + " " + b
  {
    BirthdayIsPieces(date, [a, b]);
    NamePair(a, b, x);
  }

  lemma BirthdayIsPieces(date: string, parts: seq<string>)
    requires Split(date, '-') == parts
    ensures |parts| >= 1 && FormatBirthday(date) == NamePieces(parts)
  {
  }

  lemma NamePair(a: string, b: string, x: int)
    requires ParseInt(a, false) == Some(x)
    ensures NamePieces([a, b]) == MonthName(x) + " " + b
  {
  }

  /** The index of the first registry entry of the user, if any: the
      `for … of Object.values(guildBirthdays)` loop with its `break`. */
  function FirstEntryOf(entries: seq<BirthdayRegistry.Birthday>, u: UserId): (r: Option<nat>)
    ensures r.Some? ==> r.value < |entries| && entries[r.value].userId == Some(u)
                        && forall j :: 0 <= j < r.value ==> entries[j].userId != Some(u)
    ensures r.None? ==> forall j :: 0 <= j < |entries| ==> entries[j].userId != Some(u)
  {
    if entries == [] then None
    else if entries[0].userId == Some(u) then Some(0)
    else
      var r := FirstEntryOf(entries[1..], u);
      if r.None? then None else Some(r.value + 1)
  }

  /** The birthday field: `Not set`, or the formatted date of the user's
      first entry. */
  function BirthdayText(book: map<int, BirthdayRegistry.Birthday>, u: UserId): string {
    var entries := Numbered.Values(book);
    var i := FirstEntryOf(entries, u);
    if i.None? then "Not set" else FormatBirthday(entries[i.value].date)
  }

  /** What /profile shows. */
  datatype ProfileView = ProfileView(balance: int, rank: Option<nat>, totalRanked: nat, birthday: string)

  /** The rank field: `Unranked`, or `**#k** / total`. */
  function RankText(v: ProfileView): string {
    if v.rank.None? then "Unranked" else "**#" + NatToString(v.rank.value) + "** / " + NatToString(v.totalRanked)
  }

  /** /profile for the chosen user, or the caller. Reading the balance
      creates the guild's wallet; nothing else changes. */
  method Show(ledger: Nestcoins.Ledger, birthdays: BirthdayRegistry.BirthdayBook, g: GuildId, caller: UserId,
              user: Option<UserId>) returns (v: ProfileView)
    requires ledger.Valid()
    modifies ledger
    ensures ledger.Valid()
    ensures ledger.wallets == old(ledger.wallets)[g := old(ledger.WalletOf(g))]
    ensures var u := if user.Some? then user.value else caller;
            var all := Nestcoins.AllBalances(old(ledger.WalletOf(g)));
            && v.balance == old(ledger.Balance(g, u))
            && v.rank == RankIn(all, u)
            && v.totalRanked == TotalRanked(all)
            && v.birthday == BirthdayText(birthdays.BookOf(g), u)
  {
    var u := if user.Some? then user.value else caller;
    var balance := ledger.GetBalance(g, u);
    assert ledger.WalletOf(g) == old(ledger.WalletOf(g));
    var all := ledger.GetAllBalances(g);
    v := ProfileView(balance, RankIn(all, u), TotalRanked(all), BirthdayText(birthdays.BookOf(g), u));
  }
}
