# NestBot core, modelled in Dafny

This project models the rule-bearing core of NestBot, a Discord bot for one
community. Its main part is the **tournament engine** behind `/event`. Each
guild keeps a list of events. An event is created by an admin, players join
and leave, and pairings build a round. A round is either Swiss (players ordered
by score) or single elimination (the previous round's winners, shuffled). `win`
records match results, detects the end of a round and of the tournament, and
pays the prize in Nestcoins. `standings` ranks the players by score, with the
Buchholz sum of opponents' scores as the tiebreak.

Around the engine the model covers the bot's smaller rules:

- the Nestword and Wordle word games (tile scoring, attempt and reward tables, streaks, the word pool);
- the two separate currency stores:
  - the per-guild Nestcoins ledger, used by `/balance`, `/daily`, `/puzzle`, `/shop` and `/event`;
  - the per-user `coins`/`paws`/`pain` store, used by the economy and shop features;
- the gag registry and its `garble` speech filter;
- birthday parsing and the birthday registry with its 1..n renumbering;
- the shop catalogue, the punishment wheel, the puzzle of the day, the daily claim;
- guild config defaults and room checks, the in-memory punishment table;
- the loot blacklist, the leaderboard and profile rank, and the relationship bar.

One Dafny module stands for one source file:

- `Tournament` (event.js)
- `Nestword` (nestword.js)
- `Utils` (utils.js)
- `Nestcoins` (services/nestcoins.js)
- `Store` (store.js)
- `Gag` (services/gag.js)
- `Birthdays` (features/birthdays.js)
- `BirthdayRegistry` (commands/birthday.js)
- `ShopCommand` (commands/shop.js)
- `Wheel` (commands/wheel.js)
- `Puzzle` (commands/puzzle.js)
- `DailyCommand` (commands/daily.js)
- `WordleFeature` (features/wordle.js)
- `Economy` (features/economy.js)
- `Config` (config.js)
- `ShopFeature` (features/shop.js)
- `Punishments` (features/punishments.js)
- `BalanceCommand` (commands/balance.js)
- `LootdropCommand` (commands/lootdrop.js)
- `Leaderboard` (commands/leaderboard.js)
- `ProfileCommand` (commands/profile.js)
- `Relationship` (commands/relationship.js)

Shared modules:

- `Common`: options, sequence helpers, and insertion-ordered JS objects.
- `Text`: the string operations JavaScript provides, such as trim, lower-case, split, join and number printing.
- `Sorting`: a stable sort, because `Array.prototype.sort` is stable.
- `Numbered`: integer-keyed objects, which JavaScript iterates in ascending key order.

State that the source changes in place is modelled as classes whose methods
have `modifies` clauses:

- the events and their fields;
- the ledger's wallets;
- the store's guild records;
- the gag map;
- the word-game state;
- the birthday, shop, wheel, puzzle, daily, loot and punishment tables.

Each method states its whole new state. It does so through a twostate
predicate or a specification function over the old state. The lemmas then
prove what the bot promises about that function.

Each `db.perform` callback runs synchronously, so each command is one
atomic method. Discord replies become result datatypes. Admin permission
is a boolean input. The clock, today's and yesterday's dates, and every
random draw are parameters: the elimination shuffle's draws, the word-length
and word picks, the wheel index and the economy daily amount.

## Model

| member | source | states |
|---|---|---|
| Tournament.PairSeats | src/commands/event.js:509-529 | the pairing loop yields ceil(n/2) matches and seats every player exactly once, in input order |
| Tournament.PairByes | src/commands/event.js:509-524 | at most one bye, only for an odd count and only in the last match; a bye has its winner preset to p1, every other match has no winner |
| Tournament.PairSeatsEachOnce | src/commands/event.js:509-529 | for distinct players, a user plays in some match iff they were in the pool, in exactly one match, and never against themself |
| Tournament.BuildMatches | src/commands/event.js:509-529 | the shift/pop loop builds exactly the pairing `Pair` of its input |
| Tournament.Shuffle | src/commands/event.js:492-497 | the Fisher-Yates loop returns a permutation of the pool |
| Tournament.Standings | src/commands/event.js:9-42 | one row per participant; each row carries the player's score (0 if absent) and Buchholz sum; the rows are a permutation of the unsorted rows, sorted by score then Buchholz, descending |
| Tournament.StandingsTiesKeepOrder | src/commands/event.js:38-41 | rows tied on score and Buchholz keep participant order (stable sort) |
| Tournament.SwissOrder | src/commands/event.js:462-465 | Swiss pairing order is a permutation of the participants in non-increasing score order |
| Tournament.SwissTiesKeepJoinOrder | src/commands/event.js:462-465 | players with equal score keep their join order |
| Tournament.SwissFirstRoundIsJoinOrder | src/commands/event.js:450-465 | when every score is 0 (first round) the Swiss order is the join order |
| Tournament.FillScores | src/commands/event.js:450-454 | every participant gets a score entry, existing scores are kept and missing ones become 0 |
| Tournament.Winners | src/commands/event.js:480-484 | the next elimination pool holds exactly the decided winners of the previous round, one per match when all are decided |
| Tournament.Losers | src/commands/event.js:627-635 | the elimination third places are exactly the non-null losers of the last archived round |
| Tournament.LoserIsOpponent | src/commands/event.js:592 | the loser of a decided two-player match is the other player |
| Tournament.Payouts | src/commands/event.js:638-645 | first place gets the prize, a runner-up floor(prize/2), and each third floor(prize/4), in that order |
| Tournament.ThreePlayerBracketPaysFirstRoundLoser | src/commands/event.js:617-645 | in a 3-player elimination bracket the first-round loser is paid the third-place share |
| Tournament.FindMatch | src/commands/event.js:568-575 | returns the first current match containing the user (optionally only an undecided one), or -1 when there is none |
| Tournament.Tournament.constructor | src/commands/event.js:216-233 | a new event is active with empty participants, history and scores, no matches, and rounds 0 unless it is Swiss |
| Tournament.Tournament.Register | src/commands/event.js:285-294 | join rejects a registered user and a full event (limit > 0) with no change, otherwise appends the user at the end; participants stay duplicate-free |
| Tournament.Tournament.Withdraw | src/commands/event.js:359-366 | leave fails with no change for a non-member, otherwise removes exactly that user, keeping the others in order |
| Tournament.Tournament.Close | src/commands/event.js:322-327 | finish deactivates the event and returns the full prize, changing nothing else |
| Tournament.Tournament.Pairings | src/commands/event.js:433-531 | rejected with no change while a match is undecided; otherwise archives the previous round first; then for Swiss fills scores, ends the tournament after `rounds` rounds, or pairs by SwissOrder; for elimination rejects fewer than 2 players, crowns a sole survivor, or pairs a permutation of the pool |
| Tournament.Tournament.PairSwiss | src/commands/event.js:448-465 | every participant gets a score entry; past the last round the tournament is over and nothing else changes; otherwise the round pairs the participants in Swiss order |
| Tournament.Tournament.PairElimination | src/commands/event.js:469-497 | fewer than 2 participants on the first round is refused; the pool becomes the participants, then the previous winners; a pool under 2 names its sole survivor; otherwise the round pairs a permutation of the pool |
| Tournament.Tournament.Win | src/commands/event.js:562-663 | no round, not playing, or match already decided (reporting the winner) change nothing; otherwise the user wins their first undecided match, a Swiss win adds exactly 1 point, and the round's end with the completion rule yields the final payouts and deactivates the event |
| Tournament.Tournament.CurrentStandings | src/commands/event.js:768 | standings of the event: one row per participant, in descending order |
| Tournament.CreditAllPays | src/commands/event.js:666-667 | crediting the payouts in turn raises each user's balance by the sum paid to them and leaves everyone else's wallet entry untouched |
| Tournament.PaidToNonNegative | src/commands/event.js:638-645 | no user is paid a negative total from non-negative shares |
| Tournament.PayWinners | src/commands/event.js:666-667 | the ledger is credited with the payouts of a finished tournament and otherwise untouched |
| Tournament.CreditOne | src/services/nestcoins.js:31-42 | one non-negative credit raises only the paid user's balance, by exactly the amount |
| Tournament.CreditAllStep | src/commands/event.js:666-667 | crediting the payouts from position i is crediting payout i and then the rest, as the loop does |
| Tournament.ApplyPayouts | src/commands/event.js:666-667 | the addCoins loop leaves the guild wallet equal to crediting all payouts in order |
| Tournament.EventBoard.constructor | src/commands/event.js:211-213 | a guild starts with no events |
| Tournament.EventBoard.FindOpen | src/commands/event.js:279 | finds the first event with that id that is active, or -1 |
| Tournament.EventBoard.FindOpenFrom | src/commands/event.js:279 | the search from a position finds the first later active event with the id, or -1 |
| Tournament.EventBoard.FindOpenByPosition | src/commands/event.js:216 | because ids are list positions + 1, the open event with id k is the k-th event when it is active |
| Tournament.EventBoard.Create | src/commands/event.js:200-233 | only admins create; the new event gets id count+1, limit defaulting to 0 and Swiss rounds defaulting to 3, and earlier events are unchanged |
| Tournament.EventBoard.ListActive | src/commands/event.js:242-246 | lists exactly the ids of active events, in board order: the k-th id listed is that of the k-th active event |
| Tournament.ActiveIds | src/commands/event.js:242-246 | an id is listed iff some active event carries it; one id per active event, each at the position of its event among the active ones |
| Tournament.EventBoard.Join | src/commands/event.js:272-298 | no active event with the id is rejected; otherwise the join rule applies to that event only |
| Tournament.EventBoard.AddUser | src/commands/event.js:372-408 | non-admins are refused; otherwise as join, on behalf of the given user |
| Tournament.EventBoard.Leave | src/commands/event.js:346-370 | no active event is rejected; otherwise the leave rule applies to that event only |
| Tournament.EventBoard.Finish | src/commands/event.js:302-343 | only admins on an active event finish it: the event is closed and exactly its prize is credited to the named winner, other events and wallets unchanged |
| Tournament.EventBoard.Pairings | src/commands/event.js:410-535 | admin-only pairings on the active event with that id, other events unchanged |
| Tournament.EventBoard.Win | src/commands/event.js:537-703 | admin-only win on the active event with that id; the ledger receives exactly the payouts when the tournament ends |
| Tournament.EventBoard.StandingsOf | src/commands/event.js:753-788 | standings exist for any event id in range (active or not), one descending row per participant |
| Tournament.EventBoard.Bracket | src/commands/event.js:705-751 | the bracket is shown iff the active event has a non-empty current round, and shows that round |
| Nestcoins.AllBalances | src/services/nestcoins.js:19-29 | one entry per stored user in insertion order, with a non-integer value read as 0 |
| Nestcoins.Credit | src/services/nestcoins.js:31-42 | the new balance is max(0, current + amount), stored and returned; other users unchanged |
| Nestcoins.Debit | src/services/nestcoins.js:44-64 | fails with no change iff the amount is not positive or exceeds the balance; otherwise lowers the balance by exactly the amount; other users unchanged |
| Nestcoins.DebitThenCredit | src/services/nestcoins.js:31-64 | a successful removal followed by adding the same amount restores the balance |
| Nestcoins.Ledger.GetBalance | src/services/nestcoins.js:9-17 | returns the stored integer balance or 0 and only ensures the guild wallet exists |
| Nestcoins.Ledger.GetAllBalances | src/services/nestcoins.js:19-29 | returns AllBalances of the guild wallet |
| Nestcoins.Ledger.AddCoins | src/services/nestcoins.js:31-42 | writes Credit to the guild wallet only |
| Nestcoins.Ledger.RemoveCoins | src/services/nestcoins.js:44-64 | writes Debit to the guild wallet only |
| Store.GuildIn | src/store.js:9-18 | an existing guild record is kept; a missing one reads as a default record with the default wordle config, an empty shop and no users |
| Store.Normalized | src/store.js:19-33 | a new user is the zero record; a stored user is kept, except that a missing inventory becomes empty |
| Store.WithUser | src/store.js:19-33 | writing a user record changes only that user of that guild |
| Store.WithUserTwice | src/store.js:19-33 | a second write of the same user replaces the first |
| Store.UserIn | src/store.js:19-33 | a read user always has an inventory list |
| Store.Touched | src/store.js:9-18 | reading a guild creates its default record and leaves every other guild as it was |
| Store.TouchedFirst | src/store.js:9-33 | reading the guild first changes no later user read, write or add |
| Store.AddIn | src/store.js:35-39 | add on the store applies AddTo to that user only and keeps the guild config |
| Store.AddTo | src/store.js:35-38 | the field becomes max(0, old + amt) and is returned; other fields and the inventory unchanged |
| Store.AddThenTakeBack | src/store.js:35-38 | adding an amount and then its negation restores a field that never went below zero |
| Store.FindItem | src/store.js:48 | finds the first inventory item with the id, or -1 |
| Store.Pop | src/store.js:46-53 | removes and returns the first item with the id, keeping the others in order; a missing id changes nothing |
| Store.PushedIn | src/store.js:40-45 | the item is appended to that user's inventory and nothing else changes |
| Store.PoppedIn | src/store.js:46-53 | popInventory on the store: Pop on that user's inventory, other users unchanged |
| Store.PopAfterPush | src/store.js:40-53 | popping a freshly pushed item with a new id returns it and restores the inventory |
| Store.Db.GStore | src/store.js:9-18 | returns the guild record, creating the default one when absent |
| Store.Db.UStore | src/store.js:19-33 | returns the user record, creating or repairing it |
| Store.Db.Add | src/store.js:35-38 | applies AddTo to the stored user |
| Store.Db.PushInventory | src/store.js:40-45 | appends to the stored inventory and returns the item |
| Store.Db.PopInventory | src/store.js:46-53 | pops from the stored inventory |
| Gag.NewUntil | src/services/gag.js:13-26 | the new expiry is at least now + d s; a live gag is extended by d s from its old expiry |
| Gag.GaggedTwice | src/services/gag.js:13-26 | gagging twice at the same instant extends the first new expiry by another d s |
| Gag.FreshGagIsLive | src/services/gag.js:22-26 | right after a gag of d > 0 seconds the user is gagged for at least d s |
| Gag.LiveOnly | src/services/gag.js:65-73 | keeps exactly the entries whose expiry is set and in the future |
| Gag.Registry.GetGagInfo | src/services/gag.js:39-52 | an expired entry is deleted and reads as none; a live one is returned unchanged |
| Gag.Registry.GagUser | src/services/gag.js:13-30 | stores the extended gag with the issuer and time, then reads it back |
| Gag.Registry.UngagUser | src/services/gag.js:32-37 | removes only the target's entry |
| Gag.Registry.IsGagged | src/services/gag.js:54-57 | true iff a live entry exists |
| Gag.Registry.GetRemainingMs | src/services/gag.js:59-63 | max(0, until - now) for a live gag, otherwise 0 |
| Gag.Registry.CleanupGuild | src/services/gag.js:65-73 | the deleting loop leaves exactly the live entries of that guild |
| Gag.Mask | src/services/gag.js:89-96 | lowercase letters become m, uppercase M, everything else is kept |
| Gag.RunLength | src/services/gag.js:80 | the length of the leading whitespace or non-whitespace run |
| Gag.SquashMuffled | src/services/gag.js:100-101 | squashing a muffled token keeps it muffled |
| Gag.SquashRun | src/services/gag.js:100-101 | a run of k >= 4 copies becomes k-1 copies plus the tail (ph/PH); shorter runs stay |
| Gag.Garble | src/services/gag.js:76-106 | garble; its contract is stated by GarbleKeepsNonLetters, GarbledTokenMuffled, GarbleKeepsProtected and GarbleKeepsWhitespace |
| Gag.GarbleKeepsNonLetters | src/services/gag.js:76-106 | garbling keeps every non-letter character (digits, punctuation, whitespace) in order |
| Gag.GarbledTokenMuffled | src/services/gag.js:89-101 | the letters of an unprotected token become only m/p/h/M/P/H |
| Gag.GarbleKeepsProtected | src/services/gag.js:84-87 | links, user mentions and channel mentions pass through unchanged |
| Gag.GarbleKeepsWhitespace | src/services/gag.js:84 | whitespace passes through unchanged |
| Nestword.AttemptsForLen | src/commands/nestword.js:16-18 | attempts are 8 for length <= 3, 11 - len between 3 and 6, and 5 from 6 on |
| Nestword.RewardForAttempts | src/commands/nestword.js:19 | the reward is 90/att rounded to nearest (halves up), at least 1 |
| Nestword.RewardTable | src/commands/nestword.js:19 | attempts 5, 6, 7, 8 give rewards 18, 15, 13, 11 |
| Nestword.Fields | src/commands/nestword.js:49-54 | splitting on newline/comma/space runs yields fields free of separators |
| Nestword.CleanWord | src/commands/nestword.js:49-54 | a word is empty iff its field is all whitespace; otherwise it has no whitespace at either end, nothing toLowerCase would still change, and no separator when the field had none |
| Nestword.CleanWords | src/commands/nestword.js:49-54 | empty strings are dropped and the rest are lower case |
| Nestword.ParseBulkWords | src/commands/nestword.js:49-54 | every parsed word is non-empty, separator-free and lower case |
| Nestword.ParseJoined | src/commands/nestword.js:49-54 | parsing a comma-joined list of plain words returns that list |
| Nestword.ScoreGuess | src/commands/nestword.js:56-79 | the two loops with the counts map yield one tile per answer letter, each equal to the green/yellow/miss rule TileAt |
| Nestword.MarkGreens | src/commands/nestword.js:58-69 | the first loop marks exactly the matching positions green and counts, per letter, the answer's non-green copies |
| Nestword.MarkYellows | src/commands/nestword.js:70-77 | the second loop turns each non-green position yellow while its letter has a count left, giving TileAt everywhere |
| Nestword.TileAt | src/commands/nestword.js:56-79 | the tile rule: green on a match, yellow while the letter's unmatched answer copies are not used up by earlier non-green guesses, else miss; ScoreGuess, MarkYellows and YellowsAreCapped state it |
| Nestword.AllGreenIffSolved | src/commands/nestword.js:63-66 | every tile is green iff the guess equals the answer |
| Nestword.YellowsAreCapped | src/commands/nestword.js:70-77 | for each letter, the yellows so far are the fewer of its non-green guesses and its unmatched answer copies |
| Nestword.NewDaily | src/commands/nestword.js:120-128 | a new day has the answer, its length, the attempts for that length and no guesses |
| Nestword.NewDailyValid | src/commands/nestword.js:120-128 | a new day satisfies the daily invariant |
| Nestword.AttemptKeepsValid | src/commands/nestword.js:335-348 | recording an allowed guess, and a solve, keep the daily invariant (used <= attempts, one row per guess) |
| Nestword.RecordGuess | src/commands/nestword.js:335-338 | appends one row and one used attempt for the user only |
| Nestword.SolveStreak | src/commands/nestword.js:343-348 | the streak grows by one after a solve yesterday and restarts at 1 otherwise; best is the max; totalSolved grows by one |
| Nestword.SolveCoinsIsProduct | src/commands/nestword.js:350-355 | the coins paid are reward * streak |
| Nestword.SolveStreakBounds | src/commands/nestword.js:343-348 | after a solve the streak is at least 1 and never exceeds the best, which never drops |
| Nestword.AdmitKeepsValid | src/commands/nestword.js:416-421 | bulk admission keeps every pool a duplicate-free list of admissible words of its length |
| Nestword.AdmitPools | src/commands/nestword.js:416-421 | after admission a word is in its length's pool iff it was before or it was given and admissible |
| Nestword.AdmitSkipped | src/commands/nestword.js:416-421 | a word is skipped iff it was given and is not [a-z]{3,7} |
| Nestword.AdmitAdded | src/commands/nestword.js:416-421 | a word is reported added only if it was given, admissible and new |
| Nestword.AdmitOneValid | src/commands/nestword.js:416-421 | admitting one word keeps all pools valid |
| Nestword.AdmitAll | src/commands/nestword.js:416-421 | the admission loop computes Admit |
| Nestword.Without | src/commands/nestword.js:440 | removing a word keeps exactly the other words and shrinks the pool iff it was present |
| Nestword.WithoutKeepsDistinct | src/commands/nestword.js:440 | a duplicate-free pool stays duplicate-free after a removal |
| Nestword.WithoutKeepsPoolValid | src/commands/nestword.js:440 | removal keeps a pool valid for its length |
| Nestword.AvailableLengths | src/commands/nestword.js:81-93 | exactly the lengths 3..7 whose pool is non-empty |
| Nestword.Keep | src/commands/nestword.js:81-93 | keeps exactly the listed lengths whose pool is non-empty |
| Nestword.Recent | src/commands/nestword.js:107-110 | the words of that length used after the cutoff date |
| Nestword.Candidates | src/commands/nestword.js:112-113 | drawn from the pool, non-empty when the pool is, and avoiding recent words whenever some pool word is not recent |
| Nestword.Unused | src/commands/nestword.js:112 | exactly the pool words that are not recent |
| Nestword.NewPuzzle | src/commands/nestword.js:96-135 | no puzzle iff no pool of length 3..7 has words |
| Nestword.NewPuzzleProperties | src/commands/nestword.js:96-135 | a picked answer is an admissible word from the pool of its length, avoiding recent words when possible, with the attempts and reward of its length |
| Nestword.PageOf | src/commands/nestword.js:454-463 | pages of 50 with at least one page; an in-range requested page is honoured, a missing or non-positive one is page 1 and one past the end is the last page; the words are that page's slice |
| Nestword.WordGame.PickWordForToday | src/commands/nestword.js:96-135 | returns today's stored puzzle without re-picking; otherwise stores and logs a new pick |
| Nestword.WordGame.Guess | src/commands/nestword.js:278-369 | rejects a guess that is not [a-z]{3,7} after trim/lower-case, reports when no word can be picked, then applies the attempt rule to today's puzzle |
| Nestword.WordGame.Attempt | src/commands/nestword.js:299-365 | wrong length, already solved, out of attempts (and guess not in pool when required) change nothing; otherwise one attempt is used, and a solve adds the user, advances the streak and pays reward * streak |
| Nestword.WordGame.Info | src/commands/nestword.js:372-398 | today's length, attempts, reward, used and remaining attempts |
| Nestword.WordGame.InfoOf | src/commands/nestword.js:385-393 | the attempts used never exceed those allowed, and the attempts left are the difference |
| Nestword.WordGame.Set | src/commands/nestword.js:236-275 | admin only; rejects a bad date or word; otherwise stores a fresh puzzle for the day and replaces that day's used-word log entry |
| Nestword.WordGame.Store | src/commands/nestword.js:253-269 | stores a fresh daily for the day and replaces that day's used-word log entry, keeping users and pools |
| Nestword.WordGame.PoolBulkAdd | src/commands/nestword.js:407-429 | admin only; an empty word list is reported; otherwise pools, added and skipped are Admit of the parsed words |
| Nestword.WordGame.AddWords | src/commands/nestword.js:416-421 | the admission loop leaves the pools, added and skipped as Admit and changes nothing else |
| Nestword.WordGame.PoolRemove | src/commands/nestword.js:432-449 | admin only; rejects non-admissible words; removes the word from its pool and reports whether it was there |
| Nestword.WordGame.PoolClear | src/commands/nestword.js:471-479 | admin only; for length 3..7 empties exactly that pool |
| Nestword.WordGame.PoolList | src/commands/nestword.js:452-468 | admin only; for length 3..7 reports the pool size and ceil(size/50) pages (at least 1), shows page min(max(1, page), totalPages), and lists exactly that page's 50-word slice of the sorted pool |
| Nestword.OtherDays | src/commands/nestword.js:266 | keeps exactly the used-word entries of other dates |
| Utils.ScoreWordle | src/utils.js:82-99 | the green and yellow loops over res/used compute the two-pass tile rule |
| Utils.WordleGreens | src/utils.js:84-91 | five tiles, tile i green iff guess[i] == answer[i] |
| Utils.WordleLetterBound | src/utils.js:86-97 | for each letter, greens plus yellows never exceed its occurrences in the answer |
| Utils.FreeIffFound | src/utils.js:93-96 | a non-green letter finds a free answer position iff some unused position holds it |
| Utils.FirstFree | src/utils.js:94 | the first unused answer position holding the letter, or -1 |
| Utils.WordleMatchesScoreGuess | src/utils.js:82-99 | on five-letter answers the Wordle tiles equal the Nestword tiles |
| Utils.CanonLetters | src/utils.js:63-64 | a character becomes a letter iff it is a letter A-Z/a-z, the Kelvin sign (which becomes k) or one of the leetspeak characters 0 1 3 4 5 7 ! \| @; the dotted capital I becomes "i "; whitespace stays and anything else becomes one space |
| Utils.CanonAllAppend | src/utils.js:63-64 | the first steps work character by character: the result for a + b is the result for a followed by that for b |
| Utils.CanonAll | src/utils.js:63-65 | every character becomes a lower-case letter or a space |
| Utils.Dedupe | src/utils.js:65 | runs of a repeated letter collapse to one |
| Utils.Squeeze | src/utils.js:65 | whitespace runs become one space |
| Utils.NormalizeForIntent | src/utils.js:62-67 | normalizeForIntent; NormalizedShape, SqueezedShape, CanonLetters and CanonAllAppend state what its result holds |
| Utils.NormalizedShape | src/utils.js:62-67 | the result holds only a-z and single spaces, has no edge spaces, and no two equal adjacent characters |
| Utils.SqueezedShape | src/utils.js:63-65 | before trimming, only a-z and spaces remain, with no repeated neighbours |
| Utils.DescribeItem | src/utils.js:107-110 | describeItem; DescribeItemEnds states that it opens with the quoted id and ends with the starred type |
| Utils.FmtBalances | src/utils.js:9-15 | fmtBalances; FmtBalancesLines states it is exactly the coins, paws and pain lines, each free of newlines |
| Utils.CurrencyEmoji | src/utils.js:108 | paw emoji for paws, lock for pain, coin for anything else |
| Utils.DescribeItemEnds | src/utils.js:107-110 | an item line starts with the quoted id and ends with the starred type |
| Utils.FmtBalancesLines | src/utils.js:9-15 | the balances text is exactly three lines: coins, paws, pain |
| Utils.BalanceLineOneLine | src/utils.js:11-13 | each balance line holds no newline |
| Birthdays.Parse | src/features/birthdays.js:18-46 | parseBirthday; ParseAccepts, ParseIso, ParseDayMonth, ParseMonthDay and NoRangeCheck state which inputs it accepts and what MM-DD it returns |
| Birthdays.ParseAccepts | src/features/birthdays.js:18-46 | input is accepted iff, trimmed, it is YYYY-MM-DD or two 1-2 digit numbers joined by . / or -; the result is MM-DD shaped |
| Birthdays.ParseTrimmed | src/features/birthdays.js:20-46 | accepts exactly ISO dates and short dates with . - or /, returning an MM-DD shape |
| Birthdays.ParseIso | src/features/birthdays.js:23-24 | YYYY-MM-DD yields MM-DD |
| Birthdays.ParseDayMonth | src/features/birthdays.js:27-36 | D.M and D/M always read as day-month, zero-padded to MM-DD |
| Birthdays.ParseMonthDay | src/features/birthdays.js:39-44 | M-D reads as month-day, zero-padded |
| Birthdays.ShortSplits | src/features/birthdays.js:27-39 | a short date splits uniquely into its two numbers and separator and is never an ISO date |
| Birthdays.NoRangeCheck | src/features/birthdays.js:27-36 | no range check: 99.99 yields 99-99 |
| Birthdays.PrettyMDShape | src/features/birthdays.js:49-53 | the day, a space, then the three-letter month name |
| Birthdays.MonthAbbrev | src/features/birthdays.js:51 | each month 1..12 has a three-letter name |
| Birthdays.ParseThenPretty | src/features/birthdays.js:18-53 | the pretty form of a parsed date starts with its day |
| BirthdayRegistry.Author | src/commands/birthday.js:118-136 | non-admins write themselves; admins write the given user, else the given name with no user id, else themselves |
| BirthdayRegistry.FirstOwner | src/commands/birthday.js:143-149 | the first entry that belongs to the same member (by id) or external (by name) |
| BirthdayRegistry.FindOwner | src/commands/birthday.js:143-149 | the search loop returns the position of FirstOwner, or the count when there is none |
| BirthdayRegistry.UpsertedValues | src/commands/birthday.js:151-158 | the upsert keeps ids 1..n and overwrites the owner's entry in place or appends a new one |
| BirthdayRegistry.UpsertAt | src/commands/birthday.js:151-158 | a match is overwritten under its existing id, otherwise the entry gets id count+1 |
| BirthdayRegistry.UpsertListProperties | src/commands/birthday.js:151-158 | after an upsert the owner's first entry is the new one, the count grows iff there was no match, and members stay unique |
| BirthdayRegistry.AddTwiceKeepsOne | src/commands/birthday.js:151-158 | adding the same owner twice keeps one entry with the later date |
| BirthdayRegistry.PartitionPermutes | src/commands/birthday.js:85-94 | member and external lines together are a permutation of the entries |
| BirthdayRegistry.ListSections | src/commands/birthday.js:74-101 | the list is sorted by the parseInt key month*100+day, and each section keeps that order |
| BirthdayRegistry.SortKey | src/commands/birthday.js:74-77 | sortKey, parseInt(mm) * 100 + parseInt(dd); SortKeyOfDigits and SortKeyOfHex state its value for signed decimal and 0x months |
| BirthdayRegistry.SortKeyOfDigits | src/commands/birthday.js:70-77 | a date of two digit runs, with or without a + before the month, sorts as month*100+day and prints as the day and the month's short name |
| BirthdayRegistry.SortKeyOfHex | src/commands/birthday.js:70-77 | parseInt without a radix reads a 0x month in base 16 for both the sort key and the printed month |
| BirthdayRegistry.Lines | src/commands/birthday.js:85-88 | one line per entry |
| BirthdayRegistry.ListMessage | src/commands/birthday.js:56-105 | "No birthdays set yet." exactly when the registry is empty; otherwise the two sections over the date-sorted entries, members and externals together holding every entry |
| BirthdayRegistry.Sections | src/commands/birthday.js:96-104 | after the trim: the members' header and lines alone, or followed by a blank line and the externals' section, or the externals' section alone; each section present exactly when it has a line, and only the white space ending the last external line is lost |
| BirthdayRegistry.BirthdayBook.AddCommand | src/commands/birthday.js:111-165 | the author rule, then the upsert into the guild's book |
| BirthdayRegistry.BirthdayBook.Add | src/commands/birthday.js:138-159 | the guild's book becomes the upsert of the entry and stays 1..n with unique owners |
| BirthdayRegistry.BirthdayBook.Remove | src/commands/birthday.js:167-207 | an unknown id, or a non-admin removing someone else's entry, changes nothing; otherwise the entry is deleted and the rest are renumbered 1..n |
| Numbered.KeyOrderEnumerates | src/commands/birthday.js:193 | integer keys are enumerated in ascending order, each once |
| Numbered.KeyOrderUnique | src/commands/birthday.js:193 | the ascending key enumeration is the only increasing listing of the keys |
| Numbered.RenumberedValues | src/commands/birthday.js:193-198 | re-keying a list 1..n keeps its order |
| Numbered.AddAppends | src/commands/shop.js:116-122 | with ids 1..n, storing under count+1 appends at the end |
| Numbered.AddKeepsContiguous | src/commands/shop.js:116-122 | adding under NextId keeps the ids 1..n+1 |
| Numbered.NextId | src/commands/birthday.js:156-157 | the next id is unused in a 1..n map |
| Numbered.DeleteKeepsOrder | src/commands/shop.js:142-144 | deleting a key removes exactly its value from the ascending listing |
| Numbered.RemovedProperties | src/commands/shop.js:141-150 | delete-then-renumber leaves ids 1..n-1 holding the other items in order |
| Numbered.RemovedFromContiguous | src/commands/birthday.js:190-198 | removing id k from 1..n leaves 1..n-1 holding the list without its k-th value |
| Numbered.DeleteAt | src/commands/shop.js:142 | deleting the i-th key removes the i-th value |
| Numbered.OverwriteAt | src/commands/birthday.js:151-153 | overwriting the i-th key replaces the i-th value and keeps the keys |
| Numbered.Renumber | src/commands/shop.js:145-150 | the forEach loop builds the 1..n renumbering |
| ShopCommand.ListFields | src/commands/shop.js:96-101 | one field per item, in ascending id order, headed "#id: name" and valued "price Nestcoins - description" |
| ShopCommand.AddedListedLast | src/commands/shop.js:116-122 | a new item is listed last, under id count+1 |
| ShopCommand.BuyCases | src/commands/shop.js:159-191 | unknown id, too poor, failed removal, or bought, exactly as the lookup and balance checks decide; a purchase charges exactly the price |
| ShopCommand.Catalogue.List | src/commands/shop.js:80-105 | empty shop reported, otherwise the listing |
| ShopCommand.Catalogue.Add | src/commands/shop.js:107-129 | admin only; the item goes under id count+1 and is listed last |
| ShopCommand.Catalogue.Remove | src/commands/shop.js:131-157 | admin only; a missing id changes nothing; otherwise delete and renumber |
| ShopCommand.Catalogue.Buy | src/commands/shop.js:159-199 | the ledger is charged exactly the price on a purchase and otherwise left unchanged |
| ShopFeature.FindShopItem | src/features/shop.js:55 | the first configured item with that id, or none |
| ShopFeature.Granted | src/features/shop.js:16-32 | the inventory item's id is item id + ':' + timestamp; coupons get empty meta, other types keep theirs |
| ShopFeature.GrantedIdsDiffer | src/features/shop.js:16-32 | purchases at different times get different inventory ids |
| ShopFeature.ApplyItemEffect | src/features/shop.js:7-35 | role items leave the store alone; coupons and other types push one granted item |
| ShopFeature.PayFor | src/features/shop.js:58-68 | the purchase step; PayForProperties states its outcomes |
| ShopFeature.BuyOutcome | src/features/shop.js:52-69 | /buy on the store; BuyProperties states unknown ids are rejected unchanged and other users untouched |
| ShopFeature.PayForProperties | src/features/shop.js:58-68 | too poor changes nothing; a purchase deducts exactly the price from the price currency, nothing else, and pushes the item unless it is a role |
| ShopFeature.BuyProperties | src/features/shop.js:52-69 | unknown item ids are rejected with no change; other users are never touched |
| ShopFeature.Buy | src/features/shop.js:52-69 | /buy on the store is BuyOutcome |
| ShopFeature.Pay | src/features/shop.js:58-68 | the purchase step on the store is PayFor |
| ShopFeature.CfgReadKeepsUsers | src/features/shop.js:54 | reading the shop config leaves every user record unchanged |
| ShopFeature.Use | src/features/shop.js:82-90 | /use pops the item by id; a missing id leaves the inventory unchanged |
| Config.Filled | src/config.js:3-10 | the defaults sassEnabled=true, sassChance=25, the default wordle and an empty shop are filled in only where absent |
| Config.FilledIdempotent | src/config.js:3-10 | filling defaults twice is filling once |
| Config.Cfg | src/config.js:3-10 | cfg stores and returns the filled config |
| Config.WithConfigTwice | src/config.js:3-10 | a second config write replaces the first |
| Config.WithRooms | src/config.js:12-19 | only the given room ids are overwritten |
| Config.WithNoRooms | src/config.js:12-19 | setting no rooms changes nothing |
| Config.SetRooms | src/config.js:12-19 | writes WithRooms into the guild config |
| Config.RequireRoom | src/config.js:20-30 | ok iff no channel is configured for the room or the current channel is it |
| Config.Reset | src/config.js:33-41 | answer lower-cased or empty, bonus kept unless given, date defaults to today, solvedBy emptied |
| Config.SetWordle | src/config.js:33-41 | stores Reset of the filled wordle config |
| Config.SetShop | src/config.js:44-49 | replaces the item list wholesale |
| Economy.SetRoomsCommand | src/features/economy.js:11-31 | non-admins are refused with no change; otherwise only the given room ids are overwritten |
| Economy.Daily | src/features/economy.js:51-62 | wrong room, and a claim within 24h (reporting the hours left, rounded up), change nothing; otherwise lastDaily = now and 3..5 coins are added |
| Economy.Claimed | src/features/economy.js:59-60 | a claim sets lastDaily to now, adds the amount to coins and changes no other field or the inventory |
| Economy.CeilHours | src/features/economy.js:56 | the hours left are rounded up |
| Economy.Moved | src/features/economy.js:75-76 | add(-amount) on the sender then add(amount) on the receiver; MovedConserves states the conservation |
| Economy.MovedConserves | src/features/economy.js:75-76 | a transfer lowers the sender and raises the receiver by the amount, conserving the sum, other users unchanged |
| Economy.Pay | src/features/economy.js:71-76 | refused iff the sender has less than the amount, then only the sender is touched; otherwise the amount moves to the receiver |
| Economy.Transfer | src/features/economy.js:65-78 | wrong room, self-transfer and too-poor are rejected with no change; otherwise the amount moves |
| Economy.RoomFor | src/features/economy.js:88 | coins use the bank, paws the obedience hall, anything else the kennel |
| Economy.GrantOrDeduct | src/features/economy.js:81-93 | managers only, in the currency's room; adds +amount or -amount via add |
| Economy.DeductClamps | src/features/economy.js:91 | a deduction never leaves a negative value and clamps at 0 |
| Economy.BurnPain | src/features/economy.js:96-105 | wrong room and too little pain are rejected; otherwise pain drops by exactly the amount |
| Puzzle.Reward | src/commands/puzzle.js:56-68 | medium 20, hard 30, anything else 10 |
| Puzzle.Advance | src/commands/puzzle.js:128-135 | the streak update; AdvanceProperties and ConsecutiveRun state it |
| Puzzle.AdvanceProperties | src/commands/puzzle.js:128-135 | the streak grows by one after a solve yesterday and restarts at 1 otherwise; best never drops; lastDate is today |
| Puzzle.ConsecutiveRun | src/commands/puzzle.js:128-135 | n solves on consecutive days give a streak and best of n |
| Puzzle.BonusDays | src/commands/puzzle.js:137-140 | over consecutive days the bonus falls exactly on every tenth day |
| Puzzle.Payout | src/commands/puzzle.js:137-140 | +10 when the streak is a multiple of 10 |
| Puzzle.PuzzleBoard.Set | src/commands/puzzle.js:59-79 | admin only; stores the date's puzzle with the difficulty's reward and no solvers |
| Puzzle.PuzzleBoard.Info | src/commands/puzzle.js:82-108 | today's puzzle, whether the user solved it, and their streak |
| Puzzle.PuzzleBoard.StreakOf | src/commands/puzzle.js:87-92 | a stored streak is sound (best at least current), and an unknown user has none |
| Puzzle.PuzzleBoard.Solve | src/commands/puzzle.js:111-157 | no puzzle, already solved, and wrong code change nothing; otherwise the streak advances, the user is added once and the reward (plus a bonus) is credited |
| DailyCommand.TimeLeft | src/commands/daily.js:43-44 | whole hours and minutes of the time left |
| DailyCommand.TimeLeftWithinADay | src/commands/daily.js:38-44 | a refused claim never reports more than 24h |
| DailyCommand.ClaimBook.Claim | src/commands/daily.js:14-56 | allowed iff a full day has passed since the last claim (0 if none); it records now and credits 10 coins; a refusal changes nothing |
| DailyCommand.ClaimPaysTen | src/commands/daily.js:51 | a claim raises the balance by exactly 10 |
| WordleFeature.Payout | src/features/wordle.js:39 | the bonus, or 5 when it is 0 |
| WordleFeature.Guess | src/features/wordle.js:10-44 | not five letters, no wordle today, and already solved are rejected; a wrong guess returns the tiles only; a correct one records the solve and pays |
| WordleFeature.SolvedProperties | src/features/wordle.js:37-40 | the solver is appended to solvedBy and their coins grow by bonus or 5; no one else changes |
| WordleFeature.CorrectIsAllGreen | src/features/wordle.js:35-37 | guessing the answer scores five greens |
| Punishments.SetIn | src/features/punishments.js:6-9 | setPunishment on the table; GetAfterSet and SetTwice state it |
| Punishments.GetIn | src/features/punishments.js:10-12 | getPunishment: none for an unknown guild or user; GetAfterSet and GetAfterClear state it |
| Punishments.ClearIn | src/features/punishments.js:13-15 | clearPunishment on the table; GetAfterClear and ClearUndoesSet state it |
| Punishments.GetAfterSet | src/features/punishments.js:6-12 | get after set returns the data; other entries unchanged |
| Punishments.SetTwice | src/features/punishments.js:8 | a second set replaces the first |
| Punishments.GetAfterClear | src/features/punishments.js:13-15 | clear removes only that user's entry |
| Punishments.ClearUndoesSet | src/features/punishments.js:6-15 | clearing a fresh entry restores the table |
| Punishments.ActivePunishments.GetPunishment | src/features/punishments.js:10-12 | none for an unknown guild or user |
| Punishments.ActivePunishments.SetPunishment | src/features/punishments.js:6-9 | the table becomes SetIn of the old table, creating the guild's map when missing |
| Punishments.ActivePunishments.ClearPunishment | src/features/punishments.js:13-15 | the table becomes ClearIn of the old table |
| BalanceCommand.View | src/commands/balance.js:80-88 | the balance of the given user, or the caller |
| BalanceCommand.Grant | src/commands/balance.js:70-105 | non-admins, no user, or an amount below 1 change nothing; otherwise addCoins |
| BalanceCommand.Remove | src/commands/balance.js:107-128 | non-admins and bad input change nothing; insufficient funds are reported; otherwise exactly the amount is removed |
| BalanceCommand.Transfer | src/commands/balance.js:129-159 | bad input, self-transfer and too-poor are rejected; otherwise the amount moves from sender to target |
| BalanceCommand.TransferConserves | src/commands/balance.js:153-154 | a transfer conserves the two balances' sum and touches no one else |
| BalanceCommand.Move | src/commands/balance.js:153-154 | remove then add on the ledger equals TransferIn of the guild wallet and returns the target's new balance |
| LootdropCommand.ToggleIn | src/commands/lootdrop.js:119-131 | the blacklist toggle; ToggleFlips and ToggleTwice state it |
| LootdropCommand.ToggleFlips | src/commands/lootdrop.js:119-131 | toggling flips exactly that channel's membership and keeps the list duplicate-free |
| LootdropCommand.ToggleTwice | src/commands/lootdrop.js:119-131 | toggling a new channel twice restores the blacklist |
| LootdropCommand.ChannelListNone | src/commands/lootdrop.js:142-143 | the status lists "none" iff the blacklist is empty |
| LootdropCommand.Mentions | src/commands/lootdrop.js:142-143 | one channel mention per blacklisted channel, in order |
| LootdropCommand.LootSettings.Toggle | src/commands/lootdrop.js:111-138 | settings are created when missing; the toggle is stored and reported as added or removed |
| LootdropCommand.LootSettings.Status | src/commands/lootdrop.js:141-148 | the status reply lists the blacklist |
| Leaderboard.Positive | src/commands/leaderboard.js:21 | only balances above 0 remain |
| Leaderboard.PositiveCounts | src/commands/leaderboard.js:21 | the filter keeps each positive balance's multiplicity and drops the rest |
| Leaderboard.RankedPermutes | src/commands/leaderboard.js:20-22 | the ranked list is a permutation of the positive balances |
| Leaderboard.RankedDescending | src/commands/leaderboard.js:22 | sorted by balance, descending |
| Leaderboard.RankedStable | src/commands/leaderboard.js:22 | equal balances keep wallet order |
| Leaderboard.Top | src/commands/leaderboard.js:17-23 | filter, sort and slice(0, limit); TopProperties states its rows |
| Leaderboard.TopProperties | src/commands/leaderboard.js:17-23 | at most limit entries, all positive, descending, and no omitted positive balance beats a shown one |
| Leaderboard.PrefixOfDescending | src/commands/leaderboard.js:23 | the first m of a descending list are among it and no later entry beats them |
| Leaderboard.Reply | src/commands/leaderboard.js:25-37 | the reply text; ReplyLines, RanksInOrder and LineOpensWithRank state its lines |
| Leaderboard.RanksInOrder | src/commands/leaderboard.js:32-34 | line k starts with "#k" |
| Leaderboard.LineOpensWithRank | src/commands/leaderboard.js:33 | each line opens with "#" and its rank |
| Leaderboard.ReplyLines | src/commands/leaderboard.js:32-37 | the reply splits back into exactly the ranked lines |
| Leaderboard.Show | src/commands/leaderboard.js:16-39 | the reply for the top limit (default 10) balances |
| ProfileCommand.RankedIff | src/commands/profile.js:23-27 | ranked iff the user has a positive balance; totalRanked counts the positive balances |
| ProfileCommand.RankPlace | src/commands/profile.js:24-26 | the rank is the 1-based position of the user's first row in the sorted positive balances |
| ProfileCommand.RankOfWallet | src/commands/profile.js:20-26 | ranked iff the wallet balance is positive |
| ProfileCommand.RankedAmount | src/commands/profile.js:20-26 | the row at the user's rank holds their wallet balance |
| ProfileCommand.RowOfWallet | src/commands/profile.js:19-29 | every listed balance is the user's wallet balance |
| ProfileCommand.RankMatchesLeaderboard | src/commands/profile.js:24-26 | a rank within the limit is the same line on the leaderboard |
| ProfileCommand.FormatStoredDate | src/commands/profile.js:34-36 | a month of digits, with or without a +, formats as the full name of the month parseInt reads in base 10, then the day as stored |
| ProfileCommand.FormatHexDate | src/commands/profile.js:34-36 | with radix 10 a 0x month reads as 0 and shows as undefined |
| ProfileCommand.RankIn | src/commands/profile.js:23-26 | the 1-based rank; RankedIff, RankPlace, RankOfWallet, RankedAmount and RankMatchesLeaderboard state it |
| ProfileCommand.FormatBirthday | src/commands/profile.js:34-36 | the profile's birthday text; FormatStoredDate and FormatHexDate state it |
| ProfileCommand.MonthName | src/commands/profile.js:35-36 | a month 1..12 has a real name, never undefined |
| ProfileCommand.FirstEntryOf | src/commands/profile.js:32-39 | the first entry with the user's id, or none |
| ProfileCommand.Show | src/commands/profile.js:14-54 | balance, rank, totalRanked and birthday of the given user |
| Relationship.Clamp | src/commands/relationship.js:8 | the value clamped to 0..100 |
| Relationship.Filled | src/commands/relationship.js:7-10 | filled cells are 15 * clamped value / 100, rounded to nearest, 0 at or below 0 and 15 at or above 100 |
| Relationship.FilledMonotone | src/commands/relationship.js:7-10 | a higher score never fills fewer cells |
| Relationship.BarShape | src/commands/relationship.js:6-12 | 15 cells between backticks, the first `filled` full and the rest empty |
| Relationship.ProgressBar | src/commands/relationship.js:6-12 | getProgressBar; BarShape, Filled and FilledMonotone state it |
| Relationship.Status | src/commands/relationship.js:90-94 | Enemy below 10, Disliked below 30, Neutral to 60, Liked to 85, Love above 85 |
| Relationship.ScoreOf | src/commands/relationship.js:14-30 | generateAffectionScore on the model's optional reply; ScoreOfNumber and ScoreWithoutDigits state it |
| Relationship.FirstDigits | src/commands/relationship.js:25 | the first digit run, or none iff there are no digits |
| Relationship.FirstDigitsFinds | src/commands/relationship.js:25 | the first digit run is found whatever non-digit text precedes it |
| Relationship.ScoreOfNumber | src/commands/relationship.js:24-26 | a numeric reply reads as that number |
| Relationship.ScoreWithoutDigits | src/commands/relationship.js:25 | a reply without digits falls back to 50 |
| Relationship.Show | src/commands/relationship.js:82-106 | the bar and status follow the score; with no reply the score is 50 and the status Neutral |
| Relationship.OpinionOf | src/commands/relationship.js:84 | the stored opinion when non-empty, otherwise a non-empty default |
| Wheel.ParseRendered | src/commands/wheel.js:12-22 | the first marker is found case-insensitively and its type lower-cased; a zero duration, or one of at least 2^1024 - 2^970 that `Number` reads as Infinity, yields none |
| Wheel.PlainText | src/commands/wheel.js:12-26 | text without a marker has no effect and strips to its trim |
| Wheel.NoBracketNoMarker | src/commands/wheel.js:12-22 | text with no '[' has no effect marker |
| Wheel.StripRendered | src/commands/wheel.js:24-26 | the marker and its surrounding whitespace are removed, then the text is trimmed |
| Wheel.ParseEffect | src/commands/wheel.js:12-22 | an effect has a positive, finite duration (below 2^1024 - 2^970) and a lower-case type |
| Wheel.ReadSpinId | src/commands/wheel.js:153-158 | the click handler's reading of the button id; SpinIdRoundTrip and ClickTargetsNamed state it |
| Wheel.StripMarker | src/commands/wheel.js:24-26 | stripEffectMarker; StripRendered and PlainText state it |
| Wheel.SpinIdRoundTrip | src/commands/wheel.js:153-158 | decoding the button id gives back the target (the issuer for self) and the issuer |
| Wheel.ClickTargetsNamed | src/commands/wheel.js:153-158 | for numeric ids the click targets the named user and is charged iff that is not the issuer |
| Wheel.ListingIsLines | src/commands/wheel.js:289-294 | the list text is one "#i: text" line per entry |
| Wheel.PunishmentWheel.Add | src/commands/wheel.js:238-257 | admin only; appends and reports the index |
| Wheel.PunishmentWheel.Remove | src/commands/wheel.js:259-283 | admin only; removes index id iff 0 <= id < length, otherwise not found with no change |
| Wheel.PunishmentWheel.List | src/commands/wheel.js:285-302 | the header, with the wheel emoji exactly as the file holds it (U+00F0 U+0178 U+017D U+00A1), plus the listing, and the count |
| Wheel.AddThenRemove | src/commands/wheel.js:250-276 | removing the reported index of an added text restores the list |
| Wheel.Charge | src/commands/wheel.js:161-180 | a targeted spin is paid iff removeCoins(15) succeeds; a failure reports the balance and changes nothing |
| Wheel.GagTwice | src/commands/wheel.js:187-197 | a gag effect extends the gag by twice the duration |
| Wheel.ClickSpin | src/commands/wheel.js:131-219 | empty wheel and failed charge abort; otherwise the picked entry is shown stripped, only targeted spins are charged, and a gag effect is applied |
| Wheel.Apply | src/commands/wheel.js:183-197 | shows the stripped text and applies the parsed effect |
| Wheel.Enforce | src/commands/wheel.js:187-197 | a gag effect gags the target for twice its duration; other effects and none leave the gags unchanged |
| Wheel.SpinPrompt | src/commands/wheel.js:80-116 | the spin prompt, its wheel and target emoji exactly as the file holds them; PromptListsWheel and PromptButton state it |
| Wheel.PromptListsWheel | src/commands/wheel.js:94-116 | the prompt lists the wheel exactly as /wheel list does, then the target and the price |
| Wheel.PromptButton | src/commands/wheel.js:94-116 | the prompt's button id decodes to the chosen target and the issuer |
| Wheel.SpinIdParts | src/commands/wheel.js:101-102 | the button id splits on ':' into the prefix, the token and the issuer |
| Sorting.SortIsStable | src/commands/event.js:463-465 | equal keys keep their input order, as `Array.prototype.sort` does |
| Sorting.SortPermutes | src/commands/event.js:463-465 | the sort is a permutation |
| Sorting.SortIsDescending | src/commands/leaderboard.js:22 | the result is in non-increasing key order |
| Text.ToLower | src/commands/nestword.js:52 | toLowerCase; ToLowerChars and ToLowerAppend state it |
| Text.ParseInt | src/commands/birthday.js:76 | parseInt; ParseIntDecimal, ParseIntHex, ParseIntNaN and ParseIntOfNat state it |
| Text.TrimEmpty | src/commands/nestword.js:52 | trim gives "" iff every character is ECMAScript whitespace or a line terminator |
| Text.ToLowerChars | src/commands/nestword.js:52 | after toLowerCase nothing is left that toLowerCase maps into a-z, and every character is an original one, a letter a-z or the combining dot |
| Text.ToLowerAppend | src/utils.js:62 | toLowerCase works character by character: lowering a + b lowers a, then b |
| Text.ParseIntDecimal | src/commands/birthday.js:76 | parseInt skips leading whitespace, reads one sign and the longest run of decimal digits after it, and ignores the rest |
| Text.ParseIntHex | src/commands/birthday.js:76 | parseInt without a radix reads 0x or 0X and the hexadecimal digits after it in base 16 |
| Text.ParseIntNaN | src/commands/birthday.js:76 | with no digit after the whitespace and the sign, parseInt is NaN |
| Text.ParseIntOfNat | src/commands/profile.js:36 | parseInt reads back the decimal digits of any natural number |

## Left out

- Discord plumbing: slash-command definitions, embeds, replies, buttons and collectors, and permission lookups. Replies are result values; admin status is an input.
- Persistence: `src/utils/db.js`, the JSON file reads and writes in `src/store.js` and the word-list file in `src/commands/nestword.js`. Each `db.perform` is one atomic step.
- Clock, timezone and date helpers. `now`, today, yesterday and the cooldown cutoff date are parameters.
- Randomness: the elimination shuffle, the nestword length and word picks, the wheel index, and the economy daily amount are caller-supplied draws. `src/commands/gamble.js` is float thresholds on `Math.random`.
- Tournament.Shuffle: states only that the result is a permutation of the pool, since which permutation depends on `Math.random`.
- Text.ToLower: of the case mappings of `toLowerCase`, only those that land in a-z are modelled: A-Z, the Kelvin sign U+212A to k, and the dotted capital I U+0130 to i plus the combining dot U+0307. Every other non-ASCII capital (É, Σ) keeps its case here, where the bot lowers it to another non-ASCII letter.
- Config.Reset: a stored answer holding such a capital keeps it, where the bot stores its lower case. No five-letter a-z guess can equal either form.
- Nestword.CleanWord: a word holding such a capital keeps it. Such a word fails the a-z check either way, so only the text of the refused or skipped word differs. The same holds for the words of Nestword.CleanWords and Nestword.ParseBulkWords.
- Nestword.WordGame.PoolBulkAdd: a skipped word holding such a capital is reported as typed, where the bot reports its lower case.
- Nestword.WordGame.Guess: a guess holding such a capital is refused as not a-z both here and in the bot, so the result is the same. This also holds for Nestword.WordGame.Set, Nestword.WordGame.PoolRemove and WordleFeature.Guess.
- Config.Reset, Config.SetWordle: the wordle bonus is an integer here. src/config.js:36 keeps any finite number, so the bot stores, shows and pays a fractional bonus such as 2.5 through `add` in src/store.js; the model can neither take nor pay one.
- Config.SetWordle: stores the integer bonus Config.Reset keeps, so it shares that gap.
- Utils.CanonAll: a character outside the Basic Multilingual Plane becomes one space here and two in the bot, because the replace works on UTF-16 code units. The squeeze that follows makes both one space.
- BirthdayRegistry.ListSections: a date whose key is NaN (no `-`, or a piece parseInt cannot read) is placed as key 0, before every real date. A comparator that returns NaN gives no order, so the bot's order for such dates depends on the engine's sort: a binary insertion sort leaves `["12-01", "xx", "01-01"]` as it is.
- BirthdayRegistry.SortKey: keys are exact integers; the rounding of a month or day beyond 2^53 to a double is not modelled.
- Wheel.ParseEffect: durations are exact integers; `Number` rounds a duration beyond 2^53 to a double, and that rounding is not modelled. Durations that `Number` reads as Infinity are refused as in the bot.
- Wheel.ParseRendered: a rendered duration beyond 2^53 comes back exact here, where the bot reads it rounded to a double.
- Gag.Registry.GagUser: the bot reads `Date.now()` up to five times in one call, here all one instant `now`. The readings can differ by the time the call takes. The expiry `now + durationSec * 1000` is exact here, where the bot computes it in doubles, which round beyond 2^53 ms.
- Gag.Registry.GetRemainingMs: the expiry check and the subtraction read the clock separately in the bot; here both use `now`. An entry without `until` (only hand-edited data) gives `Math.max(0, undefined - now)`, which is NaN, in the bot, and 0 here.
- Gag.Registry.CleanupGuild: the bot reads the clock once per entry; here every entry is checked against the same `now`.
- Nestcoins.Credit: amounts are integers, so `Math.trunc` of a fractional amount is not modelled; every caller passes an integer.
- AI and network calls (Gemini, DMs, `src/services/ai.js`, `interact`, `roast`, `ai`, `status`, the relationship DM scheduler). The relationship score takes the model's reply as an optional input.
- Timers and schedulers: the nestword midnight picker, loot spawning, the birthday ticker, and `src/features/wheel.js`.
- `src/commands/drop.js` duplicates the loot toggle through functions `src/utils/db.js` does not export; `picquota`/`pictracker` are date-period and float arithmetic.
- `isEmojiOnly` (Unicode property classes), `looksLikeCallout` and `src/features/callouts.js`, `maybeSass`/`roll`, and the punishment enforcement listener.
- Informational fields with no rule attached: the event's best-of and date label, and the birthday announcement channel.
- The event `channelId` and other display-only strings in replies; the model returns the values the replies print.

Where the code and its documentation disagree, the model follows the code:

- Pairings archive the previous round before the Swiss round-limit check and the elimination "fewer than 2" check. Because `matches` is not cleared on those failures, a repeated pairings call archives the same round again.
- In a 3-player elimination bracket the first-round loser is paid the third-place share (`Tournament.ThreePlayerBracketPaysFirstRoundLoser`).
- A Swiss bye never scores a point: its winner is preset, and points are only added by `win`.
