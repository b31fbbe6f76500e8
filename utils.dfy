/** The shared helpers of src/utils.js: the five-letter Wordle scorer, the
    text normaliser used to spot call-outs, and the shop and balance
    formatters. */
module Utils {
  import opened Common
  import opened Text
  import Nestword

  // ---------------------------------------------------------------------------
  // scoreWordle

  /** The two arrays scoreWordle updates: one tile per guess position and one
      `used` mark per answer position. */
  datatype Scoring = Scoring(tiles: seq<Tile>, used: seq<bool>)

  /** The first pass: a tile is green, and its answer position used, where the
      guess and the answer agree. Positions past the answer's end compare with
      `undefined` and never agree. */
  function GreenPass(guess: string, answer: string): (s: Scoring)
    requires |guess| == 5
    ensures |s.tiles| == 5 && |s.used| == |answer|
  {
    Scoring(seq(5, i requires 0 <= i < 5 => if i < |answer| && guess[i] == answer[i] then Hit else Miss),
            seq(|answer|, j requires 0 <= j < |answer| => j < 5 && guess[j] == answer[j]))
  }

  /** `ans.findIndex((ch, j) => !used[j] && ch === c)`. */
  function FirstFree(answer: string, used: seq<bool>, c: char): (r: int)
    requires |used| == |answer|
    ensures -1 <= r < |answer|
    ensures r >= 0 ==> !used[r] && answer[r] == c && forall j :: 0 <= j < r ==> used[j] || answer[j] != c
    ensures r == -1 ==> forall j :: 0 <= j < |answer| ==> used[j] || answer[j] != c
  {
    FirstFreeFrom(answer, used, c, 0)
  }

  function FirstFreeFrom(answer: string, used: seq<bool>, c: char, k: nat): (r: int)
    requires |used| == |answer| && k <= |answer|
    ensures -1 <= r < |answer|
    ensures r >= 0 ==> k <= r && !used[r] && answer[r] == c && forall j :: k <= j < r ==> used[j] || answer[j] != c
    ensures r == -1 ==> forall j :: k <= j < |answer| ==> used[j] || answer[j] != c
    decreases |answer| - k
  {
    if k == |answer| then -1
    else if !used[k] && answer[k] == c then k
    else FirstFreeFrom(answer, used, c, k + 1)
  }

  /** One step of the second pass at position i: a tile that is not green
      turns yellow when an unused answer position holds its letter, and the
      first such position becomes used. */
  function YellowStep(s: Scoring, guess: string, answer: string, i: nat): (r: Scoring)
    requires |guess| == 5 && i < 5 && |s.tiles| == 5 && |s.used| == |answer|
    ensures |r.tiles| == 5 && |r.used| == |answer|
  {
    if s.tiles[i] == Hit then s
    else
      var idx := FirstFree(answer, s.used, guess[i]);
      if idx < 0 then s else Scoring(s.tiles[i := Present], s.used[idx := true])
  }

  /** The arrays after the first pass and n steps of the second. */
  function YellowPass(guess: string, answer: string, n: nat): (s: Scoring)
    requires |guess| == 5 && n <= 5
    ensures |s.tiles| == 5 && |s.used| == |answer|
  {
    if n == 0 then GreenPass(guess, answer)
    else YellowStep(YellowPass(guess, answer, n - 1), guess, answer, n - 1)
  }

  /** scoreWordle. Its caller has already checked the guess is five lower-case
      letters; the answer may have any length. */
  method ScoreWordle(guess: string, answer: string) returns (tiles: seq<Tile>)
    requires |guess| == 5
    ensures tiles == YellowPass(guess, answer, 5).tiles
  {
    var res := seq(5, _ => Miss);
    var used := seq(|answer|, _ => false);
    var i := 0;
    while i < 5
      invariant 0 <= i <= 5 && |res| == 5 && |used| == |answer|
      invariant forall k :: 0 <= k < 5 ==> res[k] == if k < i && k < |answer| && guess[k] == answer[k] then Hit else Miss
      invariant forall j :: 0 <= j < |answer| ==> used[j] == (j < i && guess[j] == answer[j])
    {
      if i < |answer| && guess[i] == answer[i] {
        res := res[i := Hit];
        used := used[i := true];
      }
      i := i + 1;
    }
    assert Scoring(res, used) == GreenPass(guess, answer);
    i := 0;
    while i < 5
      invariant 0 <= i <= 5
      invariant Scoring(res, used) == YellowPass(guess, answer, i)
    {
      if res[i] != Hit {
        var idx := FirstFree(answer, used, guess[i]);
        if idx != -1 {
          res := res[i := Present];
          used := used[idx := true];
        }
      }
      i := i + 1;
    }
    tiles := res;
  }

  // Counting letters on both sides.

  /** Guess positions below n carrying c whose tile is green or yellow. */
  function Marked(guess: string, tiles: seq<Tile>, c: char, n: nat): nat
    requires n <= |guess| && n <= |tiles|
  {
    if n == 0 then 0
    else Marked(guess, tiles, c, n - 1) + (if tiles[n - 1] != Miss && guess[n - 1] == c then 1 else 0)
  }

  /** Used answer positions below n holding c. */
  function Taken(answer: string, used: seq<bool>, c: char, n: nat): nat
    requires n <= |answer| && n <= |used|
  {
    if n == 0 then 0
    else Taken(answer, used, c, n - 1) + (if used[n - 1] && answer[n - 1] == c then 1 else 0)
  }

  /** Unused answer positions below n holding c. */
  function Free(answer: string, used: seq<bool>, c: char, n: nat): nat
    requires n <= |answer| && n <= |used|
  {
    if n == 0 then 0
    else Free(answer, used, c, n - 1) + (if !used[n - 1] && answer[n - 1] == c then 1 else 0)
  }

  /** Answer positions below n holding c. */
  function Occurrences(answer: string, c: char, n: nat): nat
    requires n <= |answer|
  {
    if n == 0 then 0
    else Occurrences(answer, c, n - 1) + (if answer[n - 1] == c then 1 else 0)
  }

  lemma {:induction false} TakenPlusFree(answer: string, used: seq<bool>, c: char, n: nat)
    requires n <= |answer| && n <= |used|
    ensures Taken(answer, used, c, n) + Free(answer, used, c, n) == Occurrences(answer, c, n)
  {
    if n > 0 {
      TakenPlusFree(answer, used, c, n - 1);
    }
  }

  lemma {:induction false} MarkedUpdate(guess: string, tiles: seq<Tile>, i: nat, c: char, n: nat)
    requires n <= |guess| && n <= |tiles| && i < |tiles| && tiles[i] == Miss
    ensures Marked(guess, tiles[i := Present], c, n) == Marked(guess, tiles, c, n) + (if i < n && guess[i] == c then 1 else 0)
  {
    if n > 0 {
      MarkedUpdate(guess, tiles, i, c, n - 1);
    }
  }

  lemma {:induction false} UseUpdate(answer: string, used: seq<bool>, idx: nat, c: char, n: nat)
    requires n <= |answer| && |used| == |answer| && idx < |used| && !used[idx]
    ensures Taken(answer, used[idx := true], c, n) == Taken(answer, used, c, n) + (if idx < n && answer[idx] == c then 1 else 0)
    ensures Free(answer, used[idx := true], c, n) + (if idx < n && answer[idx] == c then 1 else 0) == Free(answer, used, c, n)
  {
    if n > 0 {
      UseUpdate(answer, used, idx, c, n - 1);
    }
  }

  /** There is a free position holding c exactly when findIndex finds one. */
  lemma {:induction false} FreeIffFound(answer: string, used: seq<bool>, c: char, n: nat)
    requires |used| == |answer| && n <= |answer|
    ensures Free(answer, used, c, n) > 0 <==> exists j :: 0 <= j < n && !used[j] && answer[j] == c
  {
    if n > 0 {
      FreeIffFound(answer, used, c, n - 1);
    }
  }

  /** After the first pass, greens and used positions agree letter by letter. */
  lemma {:induction false} GreenCounts(guess: string, answer: string, c: char, n: nat)
    requires |guess| == 5 && n <= 5 && n <= |answer|
    ensures Marked(guess, GreenPass(guess, answer).tiles, c, n) == Taken(answer, GreenPass(guess, answer).used, c, n)
  {
    if n > 0 {
      GreenCounts(guess, answer, c, n - 1);
    }
  }

  /** Tiles past the answer's end are grey after the first pass. */
  lemma {:induction false} GreenTilesPastAnswer(guess: string, answer: string, c: char, n: nat)
    requires |guess| == 5 && |answer| <= n <= 5
    ensures Marked(guess, GreenPass(guess, answer).tiles, c, n) == Marked(guess, GreenPass(guess, answer).tiles, c, |answer|)
  {
    if n > |answer| {
      GreenTilesPastAnswer(guess, answer, c, n - 1);
    }
  }

  /** Answer positions from the sixth on are unused after the first pass. */
  lemma {:induction false} GreenUsedPastFive(guess: string, answer: string, c: char, n: nat)
    requires |guess| == 5 && 5 <= n <= |answer|
    ensures Taken(answer, GreenPass(guess, answer).used, c, n) == Taken(answer, GreenPass(guess, answer).used, c, 5)
  {
    if n > 5 {
      GreenUsedPastFive(guess, answer, c, n - 1);
    }
  }

  /** What holds after every step: greens are exactly the agreeing positions,
      tiles not yet visited are not yellow, and for every letter the green and
      yellow tiles carrying it match the answer positions holding it that are
      used, one for one. */
  lemma {:induction false} YellowPassInvariant(guess: string, answer: string, n: nat)
    requires |guess| == 5 && n <= 5
    ensures var s := YellowPass(guess, answer, n);
            && (forall k :: 0 <= k < 5 ==> (s.tiles[k] == Hit <==> k < |answer| && guess[k] == answer[k]))
            && (forall k :: n <= k < 5 ==> s.tiles[k] != Present)
            && (forall c :: Marked(guess, s.tiles, c, 5) == Taken(answer, s.used, c, |answer|))
  {
    var s := YellowPass(guess, answer, n);
    if n == 0 {
      forall c ensures Marked(guess, s.tiles, c, 5) == Taken(answer, s.used, c, |answer|) {
        if |answer| <= 5 {
          GreenCounts(guess, answer, c, |answer|);
          GreenTilesPastAnswer(guess, answer, c, 5);
        } else {
          GreenCounts(guess, answer, c, 5);
          GreenUsedPastFive(guess, answer, c, |answer|);
        }
      }
    } else {
      var p := YellowPass(guess, answer, n - 1);
      YellowPassInvariant(guess, answer, n - 1);
      var i := n - 1;
      if p.tiles[i] != Hit {
        var idx := FirstFree(answer, p.used, guess[i]);
        if idx >= 0 {
          forall c ensures Marked(guess, s.tiles, c, 5) == Taken(answer, s.used, c, |answer|) {
            MarkedUpdate(guess, p.tiles, i, c, 5);
            UseUpdate(answer, p.used, idx, c, |answer|);
          }
        }
      }
    }
  }

  /** scoreWordle gives five tiles, and tile i is green exactly when the guess
      and the answer agree at i. */
  lemma WordleGreens(guess: string, answer: string)
    requires |guess| == 5
    ensures |YellowPass(guess, answer, 5).tiles| == 5
    ensures forall i :: 0 <= i < 5 ==> (YellowPass(guess, answer, 5).tiles[i] == Hit <==> i < |answer| && guess[i] == answer[i])
  {
    YellowPassInvariant(guess, answer, 5);
  }

  /** Every answer position is spent at most once, by a green or by a yellow,
      so for each letter the green and yellow tiles carrying it never outnumber
      its occurrences in the answer. */
  lemma WordleLetterBound(guess: string, answer: string, c: char)
    requires |guess| == 5
    ensures Marked(guess, YellowPass(guess, answer, 5).tiles, c, 5) <= Occurrences(answer, c, |answer|)
  {
    var s := YellowPass(guess, answer, 5);
    YellowPassInvariant(guess, answer, 5);
    TakenPlusFree(answer, s.used, c, |answer|);
  }

  /** On five-letter answers the used-array scorer and the letter-count scorer
      of the word game agree tile for tile: before step n the answer's free
      copies of each letter are its non-green copies minus the non-green guess
      copies already seen. */
  lemma {:induction false} AgreesWithCounts(guess: string, answer: string, n: nat)
    requires |guess| == 5 && |answer| == 5 && n <= 5
    ensures AgreementAt(guess, answer, n)
  {
    if n == 0 {
      var s := YellowPass(guess, answer, 0);
      forall c ensures Free(answer, s.used, c, 5) == Nestword.Spare(guess, answer, 5, c) {
        GreenFreeIsSpare(guess, answer, c, 5);
      }
    } else {
      AgreesWithCounts(guess, answer, n - 1);
      AgreementStep(guess, answer, n - 1);
    }
  }

  ghost predicate AgreementAt(guess: string, answer: string, n: nat)
    requires |guess| == 5 && |answer| == 5 && n <= 5
  {
    var s := YellowPass(guess, answer, n);
    && (forall k :: 0 <= k < n ==> s.tiles[k] == Nestword.TileAt(guess, answer, k))
    && (forall k :: n <= k < 5 ==> s.tiles[k] == if guess[k] == answer[k] then Hit else Miss)
    && (forall c :: Free(answer, s.used, c, 5) == Max(0, Nestword.Spare(guess, answer, 5, c) - Nestword.NonGreen(guess, answer, n, c)))
  }

  lemma AgreementStep(guess: string, answer: string, i: nat)
    requires |guess| == 5 && |answer| == 5 && i < 5
    requires AgreementAt(guess, answer, i)
    ensures AgreementAt(guess, answer, i + 1)
  {
    NonGreenStep(guess, answer, i);
    if guess[i] == answer[i] {
      assert YellowPass(guess, answer, i + 1) == YellowPass(guess, answer, i);
    } else if FirstFree(answer, YellowPass(guess, answer, i).used, guess[i]) >= 0 {
      PresentStep(guess, answer, i);
    } else {
      MissStep(guess, answer, i);
    }
  }

  /** Position i adds one non-green copy of its own letter, if it is not
      green. */
  lemma NonGreenStep(guess: string, answer: string, i: nat)
    requires |guess| == 5 && |answer| == 5 && i < 5
    ensures forall c :: Nestword.NonGreen(guess, answer, i + 1, c)
                        == Nestword.NonGreen(guess, answer, i, c) + (if guess[i] != answer[i] && guess[i] == c then 1 else 0)
  {
  }

  /** A yellow at position i spends one free copy of its letter. */
  lemma PresentStep(guess: string, answer: string, i: nat)
    requires |guess| == 5 && |answer| == 5 && i < 5
    requires AgreementAt(guess, answer, i) && guess[i] != answer[i]
    requires FirstFree(answer, YellowPass(guess, answer, i).used, guess[i]) >= 0
    requires forall c :: Nestword.NonGreen(guess, answer, i + 1, c)
                         == Nestword.NonGreen(guess, answer, i, c) + (if guess[i] == c then 1 else 0)
    ensures AgreementAt(guess, answer, i + 1)
  {
    var p := YellowPass(guess, answer, i);
    FreeIffFound(answer, p.used, guess[i], 5);
    assert Nestword.TileAt(guess, answer, i) == Present;
    assert YellowPass(guess, answer, i + 1).tiles == p.tiles[i := Present];
    PresentSpends(guess, answer, i);
  }

  /** The copy a yellow takes is no longer free. */
  lemma PresentSpends(guess: string, answer: string, i: nat)
    requires |guess| == 5 && |answer| == 5 && i < 5
    requires AgreementAt(guess, answer, i) && guess[i] != answer[i]
    requires FirstFree(answer, YellowPass(guess, answer, i).used, guess[i]) >= 0
    requires forall c :: Nestword.NonGreen(guess, answer, i + 1, c)
                         == Nestword.NonGreen(guess, answer, i, c) + (if guess[i] == c then 1 else 0)
    ensures forall c :: Free(answer, YellowPass(guess, answer, i + 1).used, c, 5)
                        == Max(0, Nestword.Spare(guess, answer, 5, c) - Nestword.NonGreen(guess, answer, i + 1, c))
  {
    var p := YellowPass(guess, answer, i);
    var s := YellowPass(guess, answer, i + 1);
    var idx := FirstFree(answer, p.used, guess[i]);
    FreeIffFound(answer, p.used, guess[i], 5);
    forall c ensures Free(answer, s.used, c, 5) == Max(0, Nestword.Spare(guess, answer, 5, c) - Nestword.NonGreen(guess, answer, i + 1, c)) {
      UseUpdate(answer, p.used, idx, c, 5);
    }
  }

  /** A letter with no free copy left at position i is grey and spends
      nothing. */
  lemma MissStep(guess: string, answer: string, i: nat)
    requires |guess| == 5 && |answer| == 5 && i < 5
    requires AgreementAt(guess, answer, i) && guess[i] != answer[i]
    requires FirstFree(answer, YellowPass(guess, answer, i).used, guess[i]) < 0
    requires forall c :: Nestword.NonGreen(guess, answer, i + 1, c)
                         == Nestword.NonGreen(guess, answer, i, c) + (if guess[i] == c then 1 else 0)
    ensures AgreementAt(guess, answer, i + 1)
  {
    var p := YellowPass(guess, answer, i);
    var g := guess[i];
    FreeIffFound(answer, p.used, g, 5);
    assert Free(answer, p.used, g, 5) == 0;
    assert Nestword.TileAt(guess, answer, i) == Miss;
    assert YellowPass(guess, answer, i + 1) == p;
  }

  lemma {:induction false} GreenFreeIsSpare(guess: string, answer: string, c: char, n: nat)
    requires |guess| == 5 && |answer| == 5 && n <= 5
    ensures Free(answer, GreenPass(guess, answer).used, c, n) == Nestword.Spare(guess, answer, n, c)
  {
    if n > 0 {
      GreenFreeIsSpare(guess, answer, c, n - 1);
    }
  }

  /** scoreWordle and the word game's scoreGuess score a five-letter guess
      against a five-letter answer identically. */
  lemma WordleMatchesScoreGuess(guess: string, answer: string)
    requires |guess| == 5 && |answer| == 5
    ensures forall i :: 0 <= i < 5 ==> YellowPass(guess, answer, 5).tiles[i] == Nestword.TileAt(guess, answer, i)
  {
    AgreesWithCounts(guess, answer, 5);
    assert AgreementAt(guess, answer, 5);
  }

  // ---------------------------------------------------------------------------
  // normalizeForIntent

  /** The digit and symbol substitutions, applied after lower-casing. */
  function Leet(c: char): char {
    if c == '0' then 'o'
    else if c == '1' || c == '!' || c == '|' then 'i'
    else if c == '3' then 'e'
    else if c == '4' || c == '@' then 'a'
    else if c == '5' then 's'
    else if c == '7' then 't'
    else c
  }

  /** `[^a-z\s]` becomes a space. */
  function Scrub(c: char): char {
    if IsLower(c) || IsSpace(c) then c else ' '
  }

  /** The substitution and the scrub on one lower-cased character. */
  function Canon(c: char): (r: char)
    ensures IsLower(r) || IsSpace(r)
  {
    Scrub(Leet(c))
  }

  /** The substitution and the scrub on lower-cased text. */
  function CanonEach(t: string): (r: string)
    ensures |r| == |t|
    ensures forall k :: 0 <= k < |t| ==> r[k] == Canon(t[k])
  {
    if t == [] then [] else [Canon(t[0])] + CanonEach(t[1..])
  }

  /** The first three steps of the chain: lower-case, substitute, scrub. */
  function CanonAll(s: string): (r: string)
    ensures LettersAndSpaces(r)
  {
    CanonEach(ToLower(s))
  }

  /** What one character becomes. An ASCII letter, the Kelvin sign and the
      substituted digits and symbols become one letter (upper case lowered,
      the Kelvin sign `k`); the dotted capital I becomes `i` and a space
      (its combining dot is scrubbed); whitespace stays, and anything else
      becomes one space. */
  lemma CanonLetters(c: char)
    ensures c == CapitalIDot ==> CanonAll([c]) == "i "
    ensures c != CapitalIDot ==> |CanonAll([c])| == 1
    ensures c != CapitalIDot ==>
              (IsLower(CanonAll([c])[0]) <==> IsLower(c) || IsUpper(c) || c == KelvinSign || c in "013457!|@")
    ensures IsUpper(c) ==> CanonAll([c]) == [Lower(c)]
    ensures c == KelvinSign ==> CanonAll([c]) == "k"
    ensures c != CapitalIDot && !IsLower(CanonAll([c])[0]) ==> CanonAll([c]) == if IsSpace(c) then [c] else " "
  {
    assert ToLower([c]) == LowerCase(c) by {
      assert [c][1..] == [];
    }
  }

  /** The first steps work character by character, so CanonLetters tells
      what any text becomes. */
  lemma CanonAllAppend(a: string, b: string)
    ensures CanonAll(a + b) == CanonAll(a) + CanonAll(b)
  {
    ToLowerAppend(a, b);
    var x, y := ToLower(a), ToLower(b);
    assert CanonEach(x + y) == CanonEach(x) + CanonEach(y) by {
      forall k | 0 <= k < |x + y| ensures CanonEach(x + y)[k] == (CanonEach(x) + CanonEach(y))[k] {
        if k < |x| {
          assert (x + y)[k] == x[k];
        } else {
          assert (x + y)[k] == y[k - |x|];
        }
      }
    }
  }

  predicate LettersAndSpaces(s: string) {
    forall k :: 0 <= k < |s| ==> IsLower(s[k]) || IsSpace(s[k])
  }

  /** No letter directly followed by the same letter. */
  predicate NoRepeatedLetter(s: string) {
    forall k :: 0 <= k < |s| - 1 ==> !(IsLower(s[k]) && s[k] == s[k + 1])
  }

  /** `.replace(/([a-z])\1{1,}/g, '$1')`: every run of one repeated letter
      becomes that letter once. */
  function Dedupe(s: string): (r: string)
    ensures |r| <= |s| && (r == [] <==> s == [])
    ensures r != [] ==> r[|r| - 1] == s[|s| - 1]
    ensures LettersAndSpaces(s) ==> LettersAndSpaces(r)
    ensures NoRepeatedLetter(r)
  {
    if |s| <= 1 then s
    else
      var p := Dedupe(s[..|s| - 1]);
      var c := s[|s| - 1];
      assert s[..|s| - 1][|s| - 2] == s[|s| - 2];
      if IsLower(c) && c == s[|s| - 2] then p else p + [c]
  }

  /** No two spaces in a row. */
  predicate SingleSpaced(s: string) {
    forall k :: 0 <= k < |s| - 1 ==> !(IsSpace(s[k]) && IsSpace(s[k + 1]))
  }

  /** `.replace(/\s+/g, ' ')`: every run of whitespace becomes one space. */
  function Squeeze(s: string): (r: string)
    ensures |r| <= |s| && (r == [] <==> s == [])
    ensures r != [] ==> r[|r| - 1] == if IsSpace(s[|s| - 1]) then ' ' else s[|s| - 1]
    ensures LettersAndSpaces(s) ==> forall k :: 0 <= k < |r| ==> IsLower(r[k]) || r[k] == ' '
    ensures SingleSpaced(r)
    ensures NoRepeatedLetter(s) ==> NoRepeatedLetter(r)
  {
    if s == [] then []
    else
      var p := Squeeze(s[..|s| - 1]);
      var c := s[|s| - 1];
      assert forall k :: 0 <= k < |s| - 1 ==> s[..|s| - 1][k] == s[k];
      if IsSpace(c) then
        if |s| >= 2 && IsSpace(s[|s| - 2]) then p else p + [' ']
      else p + [c]
  }

  /** normalizeForIntent. */
  function NormalizeForIntent(s: string): string {
    Trim(Squeeze(Dedupe(CanonAll(s))))
  }

  /** The normalised text holds only lower-case letters and single spaces, no
      space at either end, and never the same character twice in a row. */
  lemma NormalizedShape(s: string)
    ensures var r := NormalizeForIntent(s);
            && (forall k :: 0 <= k < |r| ==> IsLower(r[k]) || r[k] == ' ')
            && (r == [] || (r[0] != ' ' && r[|r| - 1] != ' '))
            && (forall k :: 0 <= k < |r| - 1 ==> r[k] != r[k + 1])
  {
    var t := Squeeze(Dedupe(CanonAll(s)));
    SqueezedShape(s);
    SliceShape(t, Trim(t));
  }

  /** Before the trim: lower-case letters and single spaces, no letter
      twice in a row. */
  lemma SqueezedShape(s: string)
    ensures var t := Squeeze(Dedupe(CanonAll(s)));
            && SingleSpaced(t) && NoRepeatedLetter(t)
            && forall k :: 0 <= k < |t| ==> IsLower(t[k]) || t[k] == ' '
  {
    var c := CanonAll(s);
    assert LettersAndSpaces(c);
    var d := Dedupe(c);
    assert LettersAndSpaces(d) && NoRepeatedLetter(d);
  }

  lemma SliceShape(t: string, r: string)
    requires SingleSpaced(t) && NoRepeatedLetter(t)
    requires forall k :: 0 <= k < |t| ==> IsLower(t[k]) || t[k] == ' '
    requires r == Trim(t)
    ensures forall k :: 0 <= k < |r| ==> IsLower(r[k]) || r[k] == ' '
    ensures r == [] || (r[0] != ' ' && r[|r| - 1] != ' ')
    ensures forall k :: 0 <= k < |r| - 1 ==> r[k] != r[k + 1]
  {
    var i, j :| 0 <= i <= j <= |t| && r == t[i..j];
    SliceKeepsShape(t, r, i, j);
  }

  /** A slice of single-spaced lower-case text without repeated letters has
      no two equal neighbours. */
  lemma SliceKeepsShape(t: string, r: string, i: nat, j: nat)
    requires i <= j <= |t| && r == t[i..j]
    requires SingleSpaced(t) && NoRepeatedLetter(t)
    requires forall k :: 0 <= k < |t| ==> IsLower(t[k]) || t[k] == ' '
    ensures forall k :: 0 <= k < |r| ==> IsLower(r[k]) || r[k] == ' '
    ensures forall k :: 0 <= k < |r| - 1 ==> r[k] != r[k + 1]
  {
    forall k | 0 <= k < |r| ensures r[k] == t[i + k] {
    }
    forall k | 0 <= k < |r| - 1 ensures r[k] != r[k + 1] {
      assert r[k] == t[i + k] && r[k + 1] == t[i + k + 1];
    }
  }

  // ---------------------------------------------------------------------------
  // describeItem and fmtBalances

  const CoinEmoji: string := "\U{1FA99}"
  const PawEmoji: string := "\U{1F43E}"
  const PainEmoji: string := "\U{1F512}"
  const Dash: string := " — "

  /** The emoji after an item's price: paws and pain have their own, anything
      else (coins, or no currency at all) shows the coin. */
  function CurrencyEmoji(currency: Option<string>): (e: string)
    ensures currency == Some("paws") <==> e == PawEmoji
    ensures currency == Some("pain") <==> e == PainEmoji
    ensures currency != Some("paws") && currency != Some("pain") <==> e == CoinEmoji
  {
    if currency == Some("paws") then PawEmoji
    else if currency == Some("pain") then PainEmoji
    else CoinEmoji
  }

  /** describeItem: id in backticks, bold name, price with its currency
      emoji, italic type, separated by em dashes. */
  function DescribeItem(id: string, name: string, price: int, currency: Option<string>, kind: string): string
  {
    Quoted("`", id) + (Dash + Quoted("**", name) + Dash + IntToString(price) + CurrencyEmoji(currency) + Dash) + Quoted("*", kind)
  }

  function Quoted(mark: string, s: string): (r: string)
    ensures |r| == |s| + 2 * |mark|
  {
    mark + s + mark
  }

  /** A description opens with the id in backticks and closes with the type in
      asterisks. */
  lemma DescribeItemEnds(id: string, name: string, price: int, currency: Option<string>, kind: string)
    ensures var r := DescribeItem(id, name, price, currency, kind);
            && |r| >= |id| + |kind| + 4
            && r[..|id| + 2] == "`" + id + "`"
            && r[|r| - |kind| - 2..] == "*" + kind + "*"
  {
    var middle := Dash + Quoted("**", name) + Dash + IntToString(price) + CurrencyEmoji(currency) + Dash;
    Ends(Quoted("`", id), middle, Quoted("*", kind));
  }

  lemma Ends(head: string, middle: string, tail: string)
    ensures (head + middle + tail)[..|head|] == head
    ensures (head + middle + tail)[|head| + |middle|..] == tail
  {
  }

  /** One line of fmtBalances. */
  function BalanceLine(emoji: string, amount: int, unit: string): string {
    emoji + " **" + IntToString(amount) + "** " + unit
  }

  /** fmtBalances. */
  function FmtBalances(coins: int, paws: int, pain: int): string {
    Join([BalanceLine(CoinEmoji, coins, "NestCoins"),
          BalanceLine(PawEmoji, paws, "PawPoints"),
          BalanceLine(PainEmoji, pain, "PainTokens")], "\n")
  }

  lemma NumberHasNoNewline(n: int)
    ensures '\n' !in IntToString(n)
  {
    var s := IntToString(n);
    if n >= 0 {
      assert forall k :: 0 <= k < |s| ==> IsDigit(s[k]);
    } else {
      var d := NatToString(-n);
      assert forall k :: 1 <= k < |s| ==> s[k] == d[k - 1];
    }
  }

  /** The balance message is exactly three lines, coins, paws and pain in that
      order, each starting with its currency's emoji and showing its amount. */
  lemma FmtBalancesLines(coins: int, paws: int, pain: int)
    ensures Split(FmtBalances(coins, paws, pain), '\n') ==
              [BalanceLine(CoinEmoji, coins, "NestCoins"),
               BalanceLine(PawEmoji, paws, "PawPoints"),
               BalanceLine(PainEmoji, pain, "PainTokens")]
  {
    var lines := [BalanceLine(CoinEmoji, coins, "NestCoins"),
                  BalanceLine(PawEmoji, paws, "PawPoints"),
                  BalanceLine(PainEmoji, pain, "PainTokens")];
    BalanceLineOneLine(CoinEmoji, coins, "NestCoins");
    BalanceLineOneLine(PawEmoji, paws, "PawPoints");
    BalanceLineOneLine(PainEmoji, pain, "PainTokens");
    SplitJoin(lines, '\n');
  }

  lemma BalanceLineOneLine(emoji: string, amount: int, unit: string)
    requires '\n' !in emoji && '\n' !in unit
    ensures '\n' !in BalanceLine(emoji, amount, unit)
  {
    NumberHasNoNewline(amount);
  }
}
