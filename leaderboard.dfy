/** The ranking of src/commands/leaderboard.js: the guild's balances, only
    those above zero, in descending order of amount (ties keep the ledger's
    key order, as the sort is stable), cut to the requested number of rows.
    src/commands/profile.js ranks members by the same ordering. */
module Leaderboard {
  import opened Common
  import opened Text
  import Sorting
  import Nestcoins

  /** One `[userId, amount]` pair of getAllBalances. */
  type Row = (UserId, int)

  /** `(a, b) => b[1] - a[1]`: the amount is the only key. */
  function ByAmount(e: Row): Sorting.Key {
    (e.1, 0)
  }

  /** `.filter(([, amt]) => amt > 0)`. */
  function Positive(all: seq<Row>): (r: seq<Row>)
    ensures |r| <= |all|
    ensures forall i :: 0 <= i < |r| ==> r[i].1 > 0
  {
    if all == [] then []
    else Positive(all[..|all| - 1]) + (if all[|all| - 1].1 > 0 then [all[|all| - 1]] else [])
  }

  /** The filter keeps every copy of every positive row and nothing else. */
  lemma {:induction false} PositiveCounts(all: seq<Row>)
    ensures forall e :: multiset(Positive(all))[e] == if e.1 > 0 then multiset(all)[e] else 0
  {
    if all != [] {
      var init := all[..|all| - 1];
      PositiveCounts(init);
      assert all == init + [all[|all| - 1]];
    }
  }

  /** Positive rows in leaderboard order. */
  function Ranked(all: seq<Row>): seq<Row> {
    Sorting.SortDesc(Positive(all), ByAmount)
  }

  /** The ordering holds exactly the positive rows, each as often as the
      input does. */
  lemma RankedPermutes(all: seq<Row>)
    ensures |Ranked(all)| == |Positive(all)|
    ensures forall e :: multiset(Ranked(all))[e] == if e.1 > 0 then multiset(all)[e] else 0
  {
    Sorting.SortPermutes(Positive(all), ByAmount);
    PositiveCounts(all);
  }

  /** The ordering is by descending amount. */
  lemma RankedDescending(all: seq<Row>)
    ensures forall i, j :: 0 <= i < j < |Ranked(all)| ==> Ranked(all)[i].1 >= Ranked(all)[j].1
  {
    Sorting.SortIsDescending(Positive(all), ByAmount);
    var r := Ranked(all);
    forall i, j | 0 <= i < j < |r| ensures r[i].1 >= r[j].1 {
      assert Sorting.AtLeast(ByAmount(r[i]), ByAmount(r[j]));
    }
  }

  /** Rows with equal amounts keep their order in getAllBalances. */
  lemma RankedStable(all: seq<Row>, a: int)
    ensures Sorting.WithKey(Ranked(all), ByAmount, (a, 0)) == Sorting.WithKey(Positive(all), ByAmount, (a, 0))
  {
    Sorting.SortIsStable(Positive(all), ByAmount, (a, 0));
  }

  /** `getInteger('limit') ?? 10`. */
  function LimitOf(opt: Option<int>): int {
    if opt.Some? then opt.value else 10
  }

  /** `.slice(0, limit)` of the ranking, for a limit of at least 1. */
  function Top(all: seq<Row>, limit: nat): seq<Row> {
    var ranked := Ranked(all);
    ranked[..Min(limit, |ranked|)]
  }

  /** The rows shown: as many as the limit allows and as there are positive
      balances; all positive, in descending order, each a row of the input;
      and no positive row left out has more than any row shown. */
  lemma TopProperties(all: seq<Row>, limit: nat)
    ensures |Top(all, limit)| == Min(limit, |Positive(all)|)
    ensures forall i :: 0 <= i < |Top(all, limit)| ==> Top(all, limit)[i].1 > 0
    ensures forall i, j :: 0 <= i < j < |Top(all, limit)| ==> Top(all, limit)[i].1 >= Top(all, limit)[j].1
    ensures multiset(Top(all, limit)) <= multiset(all)
    ensures forall e, i :: e in all && e.1 > 0 && e !in Top(all, limit) && 0 <= i < |Top(all, limit)| ==> Top(all, limit)[i].1 >= e.1
  {
    RankedPermutes(all);
    RankedDescending(all);
    var r := Ranked(all);
    var t := Top(all, limit);
    PrefixOfDescending(r, |t|);
    forall i | 0 <= i < |t| ensures t[i].1 > 0 {
      assert multiset(r)[t[i]] > 0;
    }
    forall e | e in all && e.1 > 0 ensures e in r {
      assert multiset(r)[e] == multiset(all)[e] > 0;
    }
    forall e ensures multiset(t)[e] <= multiset(all)[e] {
      if e.1 <= 0 {
        assert multiset(r)[e] == 0;
      }
    }
  }

  /** A prefix of a descending ranking holds no more copies of a row than
      the ranking, and every row past it has at most the amount of any row
      in it. */
  lemma PrefixOfDescending(r: seq<Row>, m: nat)
    requires m <= |r|
    requires forall i, j :: 0 <= i < j < |r| ==> r[i].1 >= r[j].1
    ensures multiset(r[..m]) <= multiset(r)
    ensures forall e, i :: e in r && e !in r[..m] && 0 <= i < m ==> r[..m][i].1 >= e.1
  {
    assert r == r[..m] + r[m..];
    assert forall k :: 0 <= k < m ==> r[k] == r[..m][k];
    forall e, i | e in r && e !in r[..m] && 0 <= i < m ensures r[..m][i].1 >= e.1 {
      var j :| 0 <= j < |r| && r[j] == e;
    }
  }

  /** One line: `#rank — <@user> — amount Nestcoins`. */
  function Line(rank: nat, e: Row): string {
    "#" + NatToString(rank) + " — <@" + e.0 + "> — " + IntToString(e.1) + " Nestcoins"
  }

  function Lines(top: seq<Row>): (r: seq<string>)
    ensures |r| == |top|
    ensures forall i :: 0 <= i < |r| ==> r[i] == Line(i + 1, top[i])
  {
    seq(|top|, i requires 0 <= i < |top| => Line(i + 1, top[i]))
  }

  const Header: string := "\U{1F3C6} **Nestcoins Leaderboard** (top "
  const NoneYet: string := "No Nestcoins recorded in this server yet."

  /** The reply: the "nothing yet" message, or the header with the count
      and one line per row, joined by newlines. */
  function Reply(top: seq<Row>): string {
    if top == [] then NoneYet
    else Header + NatToString(|top|) + ")\n" + Join(Lines(top), "\n")
  }

  /** The line text holds no newline when the user id holds none. */
  lemma LineHasNoNewline(rank: nat, e: Row)
    requires '\n' !in e.0
    ensures '\n' !in Line(rank, e)
  {
    var n := NatToString(rank);
    var a := IntToString(e.1);
    assert forall k :: 0 <= k < |n| ==> IsDigit(n[k]);
    assert forall k :: 1 <= k < |a| ==> IsDigit(a[k]);
  }

  /** A line opens with its rank. */
  lemma LineOpensWithRank(rank: nat, e: Row)
    ensures Line(rank, e)[..|NatToString(rank)| + 1] == "#" + NatToString(rank)
  {
    var rest := " — <@" + e.0 + "> — " + IntToString(e.1) + " Nestcoins";
    assert Line(rank, e) == ("#" + NatToString(rank)) + rest;
  }

  /** A non-empty board reads back line by line: the text after the header
      line splits into exactly the ranked lines. */
  lemma ReplyLines(top: seq<Row>)
    requires top != []
    requires forall i :: 0 <= i < |top| ==> '\n' !in top[i].0
    ensures Split(Join(Lines(top), "\n"), '\n') == Lines(top)
  {
    var ls := Lines(top);
    forall i | 0 <= i < |ls| ensures '\n' !in ls[i] {
      LineHasNoNewline(i + 1, top[i]);
    }
    SplitJoin(ls, '\n');
  }

  /** The k-th line shown carries rank k. */
  lemma RanksInOrder(top: seq<Row>)
    ensures forall k :: 1 <= k <= |top| ==> Lines(top)[k - 1][..|NatToString(k)| + 1] == "#" + NatToString(k)
  {
    forall k | 1 <= k <= |top| ensures Lines(top)[k - 1][..|NatToString(k)| + 1] == "#" + NatToString(k) {
      LineOpensWithRank(k, top[k - 1]);
    }
  }

  /** /leaderboard: reads the guild's balances (creating its wallet) and
      replies with the top rows. Discord only accepts a limit in 1..25. */
  method Show(ledger: Nestcoins.Ledger, g: GuildId, limit: Option<int>) returns (reply: string)
    requires ledger.Valid()
    requires limit.Some? ==> 1 <= limit.value <= 25
    modifies ledger
    ensures ledger.Valid()
    ensures ledger.wallets == old(ledger.wallets)[g := old(ledger.WalletOf(g))]
    ensures reply == Reply(Top(Nestcoins.AllBalances(old(ledger.WalletOf(g))), LimitOf(limit)))
  {
    var n := LimitOf(limit);
    var all := ledger.GetAllBalances(g);
    reply := Reply(Top(all, n));
  }
}
