/** The string operations the handlers lean on: `trim`, `toLowerCase`,
    `parseInt`, character classes of the regular expressions, JavaScript's
    default string order (`<` and `Array.prototype.sort()` without a
    comparator) and `join`. */
module Text {
  import opened Common

  /** The whitespace `trim`, `parseInt` and the regular expressions' `\s`
      recognise: ECMAScript's WhiteSpace characters (tab, vertical tab, form
      feed, the byte order mark and every space separator) and its
      LineTerminator characters (line feed, carriage return, line separator,
      paragraph separator). */
  predicate IsSpace(c: char) {
    c == '\t' || c == '\n' || c == '\U{000B}' || c == '\U{000C}' || c == '\r' || c == ' '
    || c == '\U{00A0}' || c == '\U{1680}' || ('\U{2000}' <= c <= '\U{200A}')
    || c == '\U{2028}' || c == '\U{2029}' || c == '\U{202F}' || c == '\U{205F}'
    || c == '\U{3000}' || c == '\U{FEFF}'
  }

  predicate IsLower(c: char) { 'a' <= c <= 'z' }
  predicate IsUpper(c: char) { 'A' <= c <= 'Z' }
  predicate IsDigit(c: char) { '0' <= c <= '9' }

  predicate AllLower(s: string) {
    forall i :: 0 <= i < |s| ==> IsLower(s[i])
  }

  predicate AllDigits(s: string) {
    forall i :: 0 <= i < |s| ==> IsDigit(s[i])
  }

  /** An ASCII letter in lower case; anything else as it is. */
  function Lower(c: char): (r: char)
    ensures IsUpper(c) ==> IsLower(r) && r as int == c as int + 32
    ensures !IsUpper(c) ==> r == c
  {
    if IsUpper(c) then (c as int + 32) as char else c
  }

  /** The case folding of a regular expression's `i` flag (without `u`) when
      the pattern is ASCII: a character matches a pattern letter exactly when
      its ASCII lower case does. */
  function FoldAscii(s: string): (r: string)
    ensures |r| == |s|
    ensures forall i :: 0 <= i < |s| ==> r[i] == Lower(s[i])
  {
    if s == [] then [] else [Lower(s[0])] + FoldAscii(s[1..])
  }

  /** KELVIN SIGN, whose lower case is `k`. */
  const KelvinSign: char := '\U{212A}'

  /** LATIN CAPITAL LETTER I WITH DOT ABOVE, whose lower case is the two
      characters `i` and COMBINING DOT ABOVE. */
  const CapitalIDot: char := '\U{0130}'

  const CombiningDot: char := '\U{0307}'

  /** The characters whose lower case holds a letter a-z and is not
      themselves. */
  predicate Folds(c: char) {
    IsUpper(c) || c == KelvinSign || c == CapitalIDot
  }

  /** `toLowerCase` of one character, for every character whose lower case
      holds a letter a-z; any other character is kept. */
  function LowerCase(c: char): string {
    if IsUpper(c) then [Lower(c)]
    else if c == KelvinSign then "k"
    else if c == CapitalIDot then ['i', CombiningDot]
    else [c]
  }

  /** `toLowerCase`: every character replaced by its lower case. */
  function ToLower(s: string): string {
    if s == [] then [] else LowerCase(s[0]) + ToLower(s[1..])
  }

  /** Nothing in `s` that lower-casing changes. */
  predicate IsLowered(s: string) {
    forall k :: 0 <= k < |s| ==> !Folds(s[k])
  }

  /** Lower-casing works character by character. */
  lemma {:induction false} ToLowerAppend(a: string, b: string)
    ensures ToLower(a + b) == ToLower(a) + ToLower(b)
  {
    if a != [] {
      assert (a + b)[0] == a[0] && (a + b)[1..] == a[1..] + b;
      ToLowerAppend(a[1..], b);
      calc {
        ToLower(a + b);
        LowerCase(a[0]) + ToLower(a[1..] + b);
        LowerCase(a[0]) + (ToLower(a[1..]) + ToLower(b));
        (LowerCase(a[0]) + ToLower(a[1..])) + ToLower(b);
      }
    } else {
      assert a + b == b;
    }
  }

  /** A string with nothing to lower-case is its own lower case. */
  lemma {:induction false} ToLowerOfLowered(s: string)
    requires IsLowered(s)
    ensures ToLower(s) == s
  {
    if s != [] {
      assert IsLowered(s[1..]) by {
        forall k | 0 <= k < |s[1..]| ensures !Folds(s[1..][k]) {
          assert s[1..][k] == s[k + 1];
        }
      }
      ToLowerOfLowered(s[1..]);
      assert s == [s[0]] + s[1..];
    }
  }

  /** A lower-cased string has nothing left to lower-case, and each of its
      characters is one of the original's, a letter a-z, or the combining
      dot. */
  lemma {:induction false} ToLowerChars(s: string)
    ensures IsLowered(ToLower(s))
    ensures forall k :: 0 <= k < |ToLower(s)| ==>
              ToLower(s)[k] in s || IsLower(ToLower(s)[k]) || ToLower(s)[k] == CombiningDot
  {
    if s != [] {
      ToLowerChars(s[1..]);
      var h, t := LowerCase(s[0]), ToLower(s[1..]);
      forall k | 0 <= k < |h + t|
        ensures !Folds((h + t)[k])
        ensures (h + t)[k] in s || IsLower((h + t)[k]) || (h + t)[k] == CombiningDot
      {
        if k >= |h| {
          assert (h + t)[k] == t[k - |h|];
          if t[k - |h|] in s[1..] {
            var j :| 0 <= j < |s[1..]| && s[1..][j] == t[k - |h|];
            assert s[j + 1] == t[k - |h|];
          }
        }
      }
    }
  }

  /** Whitespace is kept, and nothing else becomes whitespace. */
  lemma LowerCaseSpace(c: char)
    ensures forall x :: x in LowerCase(c) ==> (IsSpace(x) <==> IsSpace(c))
  {
  }

  /** A lower-cased string begins with the lower case of the first
      character and ends with that of the last. */
  lemma ToLowerEnds(s: string)
    requires s != []
    ensures ToLower(s) != []
    ensures ToLower(s)[0] in LowerCase(s[0])
    ensures ToLower(s)[|ToLower(s)| - 1] in LowerCase(s[|s| - 1])
  {
    var n := |s| - 1;
    assert s == s[..n] + [s[n]];
    ToLowerAppend(s[..n], [s[n]]);
    assert ToLower([s[n]]) == LowerCase(s[n]) by {
      assert [s[n]][1..] == [];
    }
  }

  function TrimStart(s: string): (r: string)
    ensures |r| <= |s| && r == s[|s| - |r|..]
    ensures r == [] || !IsSpace(r[0])
    ensures forall i :: 0 <= i < |s| - |r| ==> IsSpace(s[i])
  {
    if s != [] && IsSpace(s[0]) then TrimStart(s[1..]) else s
  }

  function TrimEnd(s: string): (r: string)
    ensures |r| <= |s| && r == s[..|r|]
    ensures r == [] || !IsSpace(r[|r| - 1])
    ensures forall i :: |r| <= i < |s| ==> IsSpace(s[i])
  {
    if s != [] && IsSpace(s[|s| - 1]) then TrimEnd(s[..|s| - 1]) else s
  }

  /** `trim`: the longest middle slice that neither starts nor ends with
      whitespace; everything cut off is whitespace. */
  function Trim(s: string): (r: string)
    ensures exists i, j :: 0 <= i <= j <= |s| && r == s[i..j]
              && (forall k :: 0 <= k < i ==> IsSpace(s[k]))
              && (forall k :: j <= k < |s| ==> IsSpace(s[k]))
    ensures r == [] || (!IsSpace(r[0]) && !IsSpace(r[|r| - 1]))
    ensures forall k :: 0 <= k < |r| ==> r[k] in s
  {
    var a := TrimStart(s);
    var r := TrimEnd(a);
    TrimmedSlice(s, a, r);
    TrimmedSpace(s, a, r);
    r
  }

  /** What the two trims leave is the slice of `s` from the first kept
      character. */
  lemma TrimmedSlice(s: string, a: string, r: string)
    requires a == TrimStart(s) && r == TrimEnd(a)
    ensures |s| - |a| + |r| <= |s| && r == s[|s| - |a|..|s| - |a| + |r|]
    ensures forall k :: 0 <= k < |r| ==> r[k] in s
  {
    SuffixPrefix(s, a, r);
  }

  /** Everything the two trims cut off is whitespace. */
  lemma TrimmedSpace(s: string, a: string, r: string)
    requires a == TrimStart(s) && r == TrimEnd(a)
    ensures forall k :: 0 <= k < |s| - |a| ==> IsSpace(s[k])
    ensures forall k :: |s| - |a| + |r| <= k < |s| ==> IsSpace(s[k])
  {
    SpaceAfter(s, a, |r|);
  }

  /** Whitespace at the end of a suffix is whitespace at the end of the
      whole. */
  lemma SpaceAfter(s: string, a: string, n: nat)
    requires n <= |a| <= |s| && a == s[|s| - |a|..]
    requires forall k :: n <= k < |a| ==> IsSpace(a[k])
    ensures forall k :: |s| - |a| + n <= k < |s| ==> IsSpace(s[k])
  {
    var i := |s| - |a|;
    forall k | i + n <= k < |s| ensures IsSpace(s[k]) {
      assert s[k] == a[k - i];
    }
  }

  /** A prefix of a suffix is a middle slice. */
  lemma SuffixPrefix(s: string, a: string, r: string)
    requires |a| <= |s| && a == s[|s| - |a|..]
    requires |r| <= |a| && r == a[..|r|]
    ensures r == s[|s| - |a|..|s| - |a| + |r|]
    ensures forall k :: 0 <= k < |r| ==> r[k] in s
  {
    var i := |s| - |a|;
    forall k | 0 <= k < |r| ensures r[k] == s[i + k] {
      assert r[k] == a[k] == s[i..][k];
    }
  }

  /** Trimming leaves nothing exactly when the string is all whitespace. */
  lemma TrimEmpty(s: string)
    ensures Trim(s) == [] <==> forall k :: 0 <= k < |s| ==> IsSpace(s[k])
  {
    var r := Trim(s);
    if r != [] {
      assert r[0] in s;
    }
  }

  /** Trimming brings in no character the string did not hold. */
  lemma CharNotTrimmedIn(s: string, c: char)
    requires c !in s
    ensures c !in TrimStart(s) && c !in TrimEnd(s) && c !in Trim(s)
  {
    NotInSlice(s, |s| - |TrimStart(s)|, |s|, c);
    NotInSlice(s, 0, |TrimEnd(s)|, c);
    NotInTrim(s, c);
  }

  lemma NotInSlice(s: string, i: nat, j: nat, c: char)
    requires i <= j <= |s| && c !in s
    ensures c !in s[i..j]
  {
    forall k | 0 <= k < j - i ensures s[i..j][k] != c {
      assert s[i..j][k] == s[i + k];
    }
  }

  lemma NotInTrim(s: string, c: char)
    requires c !in s
    ensures c !in Trim(s)
  {
    var r := Trim(s);
    forall k | 0 <= k < |r| ensures r[k] != c {
      assert r[k] in s;
    }
  }

  /** Trimming a string that already has no surrounding whitespace changes
      nothing. */
  lemma TrimIdempotent(s: string)
    requires s == [] || (!IsSpace(s[0]) && !IsSpace(s[|s| - 1]))
    ensures Trim(s) == s
  {
  }

  /** Trimming the end of `a + b` stops inside `b` when `b` opens with a
      character that is not white space. */
  lemma {:induction false} TrimEndAppend(a: string, b: string)
    requires b != [] && !IsSpace(b[0])
    ensures TrimEnd(a + b) == a + TrimEnd(b)
    decreases |b|
  {
    if IsSpace(b[|b| - 1]) {
      assert (a + b)[..|a + b| - 1] == a + b[..|b| - 1];
      TrimEndAppend(a, b[..|b| - 1]);
    }
  }

  /** White space after `a` is trimmed away with whatever white space ends
      `a`. */
  lemma {:induction false} TrimEndSpaces(a: string, ws: string)
    requires forall k :: 0 <= k < |ws| ==> IsSpace(ws[k])
    ensures TrimEnd(a + ws) == TrimEnd(a)
    decreases |ws|
  {
    if ws != [] {
      assert (a + ws)[..|a + ws| - 1] == a + ws[..|ws| - 1];
      TrimEndSpaces(a, ws[..|ws| - 1]);
    } else {
      assert a + ws == a;
    }
  }

  /** Trimming text that opens with a non-space character trims its end
      only, and keeps that character. */
  lemma TrimOpened(s: string)
    requires s != [] && !IsSpace(s[0])
    ensures Trim(s) == TrimEnd(s) && Trim(s) != [] && Trim(s)[0] == s[0]
  {
    assert TrimStart(s) == s;
  }

  /** Trimming `a`, some white space, then `b`, where `a` and `b` open with
      non-space characters, keeps `a` and the white space whole. */
  lemma TrimAround(a: string, ws: string, b: string)
    requires a != [] && !IsSpace(a[0])
    requires b != [] && !IsSpace(b[0])
    ensures Trim(a + ws + b) == a + ws + TrimEnd(b)
  {
    TrimOpened(a + ws + b);
    TrimEndAppend(a + ws, b);
  }

  /** Trimming `a` followed by white space gives `a` back when `a` opens and
      ends with non-space characters. */
  lemma TrimTail(a: string, ws: string)
    requires a != [] && !IsSpace(a[0]) && !IsSpace(a[|a| - 1])
    requires forall k :: 0 <= k < |ws| ==> IsSpace(ws[k])
    ensures Trim(a + ws) == a
  {
    TrimOpened(a + ws);
    TrimEndSpaces(a, ws);
  }

  /** A joined list ends with the last character of its last part. */
  lemma {:induction false} JoinEnds(parts: seq<string>, sep: string)
    requires parts != [] && parts[|parts| - 1] != []
    ensures var j := Join(parts, sep); j != [] && j[|j| - 1] == parts[|parts| - 1][|parts[|parts| - 1]| - 1]
    decreases |parts|
  {
    if |parts| > 1 {
      assert parts[1..][|parts[1..]| - 1] == parts[|parts| - 1];
      JoinEnds(parts[1..], sep);
    }
  }

  /** JavaScript's `a < b` on strings, lexicographic by character. JavaScript
      compares UTF-16 code units and this compares code points; the two orders
      differ only between a character beyond U+FFFF and one in U+E000..U+FFFF,
      and the words sorted and the dates compared here are ASCII. */
  predicate StrLess(a: string, b: string)
    decreases |a|
  {
    if a == [] then b != []
    else if b == [] then false
    else if a[0] != b[0] then a[0] < b[0]
    else StrLess(a[1..], b[1..])
  }

  predicate StrLessEq(a: string, b: string) {
    a == b || StrLess(a, b)
  }

  lemma {:induction false} StrLessIrreflexive(a: string)
    ensures !StrLess(a, a)
    decreases |a|
  {
    if a != [] {
      StrLessIrreflexive(a[1..]);
    }
  }

  lemma {:induction false} StrLessTotal(a: string, b: string)
    ensures a == b || StrLess(a, b) || StrLess(b, a)
    decreases |a|
  {
    if a != [] && b != [] && a[0] == b[0] {
      StrLessTotal(a[1..], b[1..]);
      if a[1..] == b[1..] {
        assert a == [a[0]] + a[1..] && b == [b[0]] + b[1..];
      }
    }
  }

  lemma {:induction false} StrLessTransitive(a: string, b: string, c: string)
    requires StrLess(a, b) && StrLess(b, c)
    ensures StrLess(a, c)
    decreases |a|
  {
    if a != [] && b != [] && c != [] && a[0] == b[0] && b[0] == c[0] {
      StrLessTransitive(a[1..], b[1..], c[1..]);
    }
  }

  lemma {:induction false} StrLessAsymmetric(a: string, b: string)
    requires StrLess(a, b)
    ensures !StrLess(b, a)
    decreases |a|
  {
    if a != [] && b != [] && a[0] == b[0] {
      StrLessAsymmetric(a[1..], b[1..]);
    }
  }

  predicate SortedStrings(s: seq<string>) {
    forall i, j :: 0 <= i < j < |s| ==> StrLessEq(s[i], s[j])
  }

  function InsertString(x: string, s: seq<string>): seq<string> {
    if s == [] || StrLessEq(s[|s| - 1], x) then s + [x]
    else InsertString(x, s[..|s| - 1]) + [s[|s| - 1]]
  }

  /** `arr.slice().sort()`: ascending in JavaScript's string order. */
  function SortStrings(s: seq<string>): (r: seq<string>)
    ensures multiset(r) == multiset(s)
    ensures SortedStrings(r)
  {
    if s == [] then []
    else
      var init := SortStrings(s[..|s| - 1]);
      InsertStringPermutes(s[|s| - 1], init);
      InsertStringSorted(s[|s| - 1], init);
      assert s == s[..|s| - 1] + [s[|s| - 1]];
      InsertString(s[|s| - 1], init)
  }

  /** Inserting adds exactly one copy of the string. */
  lemma {:induction false} InsertStringPermutes(x: string, s: seq<string>)
    ensures multiset(InsertString(x, s)) == multiset(s) + multiset{x}
  {
    if !(s == [] || StrLessEq(s[|s| - 1], x)) {
      var init := s[..|s| - 1];
      InsertStringPermutes(x, init);
      assert s == init + [s[|s| - 1]];
    }
  }

  /** Inserting into a sorted list keeps it sorted. */
  lemma {:induction false} InsertStringSorted(x: string, s: seq<string>)
    requires SortedStrings(s)
    ensures SortedStrings(InsertString(x, s))
  {
    if s == [] || StrLessEq(s[|s| - 1], x) {
      forall i | 0 <= i < |s| ensures StrLessEq(s[i], x) {
        if i < |s| - 1 && s[i] != s[|s| - 1] && s[|s| - 1] != x {
          StrLessTransitive(s[i], s[|s| - 1], x);
        }
      }
      AppendGreatestString(s, x);
    } else {
      var init, last := s[..|s| - 1], s[|s| - 1];
      assert SortedStrings(init) by {
        assert forall i :: 0 <= i < |init| ==> init[i] == s[i];
      }
      InsertStringSorted(x, init);
      InsertStringPermutes(x, init);
      var r := InsertString(x, init);
      StrLessTotal(last, x);
      BelowLast(s, x, r);
      AppendGreatestString(r, last);
    }
  }

  /** Every string of `init` with `x` inserted is at most the last of `s`,
      when that last is above `x`. */
  lemma BelowLast(s: seq<string>, x: string, r: seq<string>)
    requires SortedStrings(s) && s != [] && StrLess(x, s[|s| - 1])
    requires multiset(r) == multiset(s[..|s| - 1]) + multiset{x}
    ensures forall i :: 0 <= i < |r| ==> StrLessEq(r[i], s[|s| - 1])
  {
    forall i | 0 <= i < |r| ensures StrLessEq(r[i], s[|s| - 1]) {
      assert r[i] in multiset(r);
      if r[i] != x {
        assert r[i] in s[..|s| - 1];
        var j :| 0 <= j < |s| - 1 && s[..|s| - 1][j] == r[i];
        assert s[j] == r[i];
      }
    }
  }

  /** A string at least every string of a sorted list may go at its end. */
  lemma AppendGreatestString(s: seq<string>, x: string)
    requires SortedStrings(s)
    requires forall i :: 0 <= i < |s| ==> StrLessEq(s[i], x)
    ensures SortedStrings(s + [x])
  {
    var t := s + [x];
    forall i, j | 0 <= i < j < |t| ensures StrLessEq(t[i], t[j]) {
      assert t[i] == s[i];
    }
  }

  /** `parts.join(sep)`. */
  function Join(parts: seq<string>, sep: string): string {
    if parts == [] then ""
    else if |parts| == 1 then parts[0]
    else parts[0] + sep + Join(parts[1..], sep)
  }

  /** `s.split(c)` for a one-character separator: the pieces between
      separators, empty ones included; never an empty list. */
  function Split(s: string, c: char): (r: seq<string>)
    ensures |r| >= 1
    ensures forall i :: 0 <= i < |r| ==> c !in r[i]
  {
    if s == [] then [""]
    else
      var rest := Split(s[1..], c);
      if s[0] == c then [""] + rest
      else
        assert forall i :: 1 <= i < |rest| ==> rest[1..][i - 1] == rest[i];
        [[s[0]] + rest[0]] + rest[1..]
  }

  lemma {:induction false} SplitOfPlain(a: string, c: char)
    requires c !in a
    ensures Split(a, c) == [a]
  {
    if a != [] {
      SplitOfPlain(a[1..], c);
      assert a == [a[0]] + a[1..];
    }
  }

  lemma {:induction false} SplitAfterPlain(a: string, c: char, b: string)
    requires c !in a
    ensures Split(a + [c] + b, c) == [a] + Split(b, c)
  {
    if a == [] {
      assert a + [c] + b == [c] + b;
      assert ([c] + b)[1..] == b;
    } else {
      SplitAfterPlain(a[1..], c, b);
      assert (a + [c] + b)[1..] == a[1..] + [c] + b;
      assert a == [a[0]] + a[1..];
    }
  }

  /** Splitting at one occurrence of the separator splits each side on its
      own. */
  lemma {:induction false} SplitConcat(a: string, c: char, b: string)
    ensures Split(a + [c] + b, c) == Split(a, c) + Split(b, c)
  {
    if a == [] {
      assert a + [c] + b == [c] + b;
      assert ([c] + b)[1..] == b;
    } else {
      var x := a + [c] + b;
      assert x[0] == a[0] && x[1..] == a[1..] + [c] + b;
      SplitConcat(a[1..], c, b);
      SplitCons(x, c);
      SplitCons(a, c);
      var r1, r2 := Split(a[1..], c), Split(b, c);
      if a[0] != c {
        assert (r1 + r2)[0] == r1[0] && (r1 + r2)[1..] == r1[1..] + r2;
      }
    }
  }

  /** One step of Split. */
  lemma SplitCons(s: string, c: char)
    requires s != []
    ensures s[0] == c ==> Split(s, c) == [""] + Split(s[1..], c)
    ensures s[0] != c ==> Split(s, c) == [[s[0]] + Split(s[1..], c)[0]] + Split(s[1..], c)[1..]
  {
  }

  /** Joining pieces that do not contain the separator and splitting again
      gives the pieces back. */
  lemma {:induction false} SplitJoin(parts: seq<string>, c: char)
    requires |parts| >= 1
    requires forall i :: 0 <= i < |parts| ==> c !in parts[i]
    ensures Split(Join(parts, [c]), c) == parts
  {
    if |parts| == 1 {
      SplitOfPlain(parts[0], c);
    } else {
      SplitAfterPlain(parts[0], c, Join(parts[1..], [c]));
      SplitJoin(parts[1..], c);
      assert parts == [parts[0]] + parts[1..];
    }
  }

  function DigitChar(d: nat): (c: char)
    requires d < 10
    ensures IsDigit(c) && c as int - '0' as int == d
  {
    ('0' as int + d) as char
  }

  /** Decimal digits of a natural number, without leading zeros. */
  function NatToString(n: nat): (s: string)
    ensures |s| >= 1 && AllDigits(s)
    ensures s[0] == '0' ==> n == 0 && s == "0"
    decreases n
  {
    if n < 10 then [DigitChar(n)] else NatToString(n / 10) + [DigitChar(n % 10)]
  }

  /** The value of a string of decimal digits (callers pass only digits). */
  function ParseNat(s: string): nat {
    if s == [] then 0 else ParseNat(s[..|s| - 1]) * 10 + HexValue(s[|s| - 1])
  }

  /** Printing a number and reading it back gives the number. */
  lemma {:induction false} ParseNatToString(n: nat)
    ensures ParseNat(NatToString(n)) == n
    decreases n
  {
    if n >= 10 {
      var s := NatToString(n);
      assert s[..|s| - 1] == NatToString(n / 10);
      ParseNatToString(n / 10);
    }
  }

  /** JavaScript's `${n}` for an integer. */
  function IntToString(i: int): (s: string)
    ensures i >= 0 ==> s == NatToString(i)
    ensures i < 0 ==> s == "-" + NatToString(-i)
  {
    if i < 0 then "-" + NatToString(-i) else NatToString(i)
  }

  /** Different numbers print differently. */
  lemma IntToStringInjective(a: int, b: int)
    requires IntToString(a) == IntToString(b)
    ensures a == b
  {
    if a >= 0 && b >= 0 {
      ParseNatToString(a);
      ParseNatToString(b);
    } else if a < 0 && b < 0 {
      assert NatToString(-a) == IntToString(a)[1..];
      ParseNatToString(-a);
      ParseNatToString(-b);
    }
  }

  // ---------------------------------------------------------------------------
  // parseInt

  predicate IsHexDigit(c: char) {
    IsDigit(c) || 'a' <= c <= 'f' || 'A' <= c <= 'F'
  }

  /** A digit of base 16 when `hex`, of base 10 otherwise. */
  predicate IsDigitIn(c: char, hex: bool) {
    if hex then IsHexDigit(c) else IsDigit(c)
  }

  predicate AllDigitsIn(s: string, hex: bool) {
    forall k :: 0 <= k < |s| ==> IsDigitIn(s[k], hex)
  }

  /** The value of a hexadecimal digit (0 for anything else). */
  function HexValue(c: char): (v: nat)
    ensures v < 16
    ensures IsDigit(c) ==> v == c as int - '0' as int
  {
    if IsDigit(c) then c as int - '0' as int
    else if 'a' <= c <= 'f' then c as int - 'a' as int + 10
    else if 'A' <= c <= 'F' then c as int - 'A' as int + 10
    else 0
  }

  /** The number of leading digits of `s` in the base. */
  function DigitRunIn(s: string, hex: bool): (n: nat)
    ensures n <= |s|
  {
    if s == [] || !IsDigitIn(s[0], hex) then 0 else DigitRunIn(s[1..], hex) + 1
  }

  /** The value of a string of digits in the base. */
  function ValueIn(s: string, hex: bool): nat {
    if s == [] then 0
    else ValueIn(s[..|s| - 1], hex) * (if hex then 16 else 10) + HexValue(s[|s| - 1])
  }

  /** The value of the leading digits of `v` in the base, or None when `v`
      does not start with one. */
  function LeadingValue(v: string, hex: bool): Option<nat> {
    var n := DigitRunIn(v, hex);
    if n == 0 then None else Some(ValueIn(v[..n], hex))
  }

  /** `0x` or `0X` in front. */
  predicate HexPrefixed(u: string) {
    |u| >= 2 && u[0] == '0' && (u[1] == 'x' || u[1] == 'X')
  }

  /** What parseInt reads after the sign: with the hexadecimal prefix (only
      allowed without a radix) base 16, otherwise base 10. */
  function Unsigned(u: string, prefix: bool): Option<nat> {
    if prefix && HexPrefixed(u) then LeadingValue(u[2..], true) else LeadingValue(u, false)
  }

  /** `parseInt(s)` when `prefix` (no radix), `parseInt(s, 10)` otherwise.
      Leading whitespace is skipped, then one `+` or `-`; without a radix a
      following `0x` or `0X` switches to base 16. The result is the value of
      the longest run of digits that comes next, negated after a `-`, or
      None (NaN) when no digit comes next. */
  function ParseInt(s: string, prefix: bool): Option<int> {
    ReadSigned(TrimStart(s), prefix)
  }

  /** What parseInt reads once the whitespace is skipped: an optional sign,
      then the digits. */
  function ReadSigned(t: string, prefix: bool): Option<int> {
    if t != [] && t[0] == '-' then
      var r := Unsigned(t[1..], prefix);
      if r.None? then None else Some(-(r.value as int))
    else if t != [] && t[0] == '+' then
      var r := Unsigned(t[1..], prefix);
      if r.None? then None else Some(r.value as int)
    else
      var r := Unsigned(t, prefix);
      if r.None? then None else Some(r.value as int)
  }

  /** The optional sign `parseInt` reads. */
  predicate IsSign(sign: string) {
    sign == "" || sign == "+" || sign == "-"
  }

  function Signed(sign: string, n: nat): int {
    if sign == "-" then -(n as int) else n
  }

  /** Skipping whitespace in front of a string that starts with none leaves
      that string. */
  lemma {:induction false} TrimStartSpaces(ws: string, x: string)
    requires forall k :: 0 <= k < |ws| ==> IsSpace(ws[k])
    requires x == [] || !IsSpace(x[0])
    ensures TrimStart(ws + x) == x
  {
    if ws != [] {
      assert (ws + x)[1..] == ws[1..] + x;
      TrimStartSpaces(ws[1..], x);
    } else {
      assert ws + x == x;
    }
  }

  /** parseInt after whitespace and a sign is the sign applied to what it
      reads next. */
  lemma ParseIntSigned(ws: string, sign: string, u: string, prefix: bool)
    requires forall k :: 0 <= k < |ws| ==> IsSpace(ws[k])
    requires IsSign(sign)
    requires sign == "" ==> u == [] || (!IsSpace(u[0]) && u[0] != '+' && u[0] != '-')
    ensures ParseInt(ws + sign + u, prefix)
            == var r := Unsigned(u, prefix); if r.None? then None else Some(Signed(sign, r.value))
  {
    var x := sign + u;
    assert ws + sign + u == ws + x;
    TrimStartSpaces(ws, x);
    ReadSignedOf(sign, u, prefix);
  }

  lemma ReadSignedOf(sign: string, u: string, prefix: bool)
    requires IsSign(sign)
    requires sign == "" ==> u == [] || (u[0] != '+' && u[0] != '-')
    ensures ReadSigned(sign + u, prefix)
            == var r := Unsigned(u, prefix); if r.None? then None else Some(Signed(sign, r.value))
  {
    if sign == "" {
      assert sign + u == u;
    } else {
      assert (sign + u)[0] == sign[0] && (sign + u)[1..] == u;
    }
  }

  /** Decimal digits have the same value whichever way they are read. */
  lemma {:induction false} ValueInDecimal(d: string)
    requires AllDigits(d)
    ensures AllDigitsIn(d, false) && ValueIn(d, false) == ParseNat(d)
  {
    if d != [] {
      ValueInDecimal(d[..|d| - 1]);
    }
  }

  /** The leading digits of digits followed by a non-digit are those
      digits. */
  lemma LeadingValueOf(d: string, rest: string, hex: bool)
    requires d != [] && AllDigitsIn(d, hex) && (rest == [] || !IsDigitIn(rest[0], hex))
    ensures LeadingValue(d + rest, hex) == Some(ValueIn(d, hex))
  {
    DigitRunOf(d, rest, hex);
    assert (d + rest)[..|d|] == d;
  }

  lemma {:induction false} DigitRunOf(d: string, rest: string, hex: bool)
    requires AllDigitsIn(d, hex) && (rest == [] || !IsDigitIn(rest[0], hex))
    ensures DigitRunIn(d + rest, hex) == |d|
  {
    if d == [] {
      assert d + rest == rest;
    } else {
      assert (d + rest)[0] == d[0] && (d + rest)[1..] == d[1..] + rest;
      DigitRunOf(d[1..], rest, hex);
    }
  }

  /** parseInt reads whitespace, a sign, decimal digits and whatever follows
      that is not a digit as the signed value of the digits (without a radix,
      unless the digits are a lone 0 in front of an x, the hexadecimal
      prefix). */
  lemma ParseIntDecimal(ws: string, sign: string, d: string, rest: string, prefix: bool)
    requires forall k :: 0 <= k < |ws| ==> IsSpace(ws[k])
    requires IsSign(sign) && d != [] && AllDigits(d) && (rest == [] || !IsDigit(rest[0]))
    requires !(prefix && d == "0" && rest != [] && (rest[0] == 'x' || rest[0] == 'X'))
    ensures ParseInt(ws + sign + d + rest, prefix) == Some(Signed(sign, ParseNat(d)))
  {
    var u := d + rest;
    assert ws + sign + d + rest == ws + sign + u;
    ParseIntSigned(ws, sign, u, prefix);
    ValueInDecimal(d);
    LeadingValueOf(d, rest, false);
    assert !(prefix && HexPrefixed(u)) by {
      if |d| >= 2 {
        assert u[1] == d[1];
      }
    }
  }

  /** Without a radix, `0x` or `0X` after the whitespace and sign switches to
      hexadecimal digits. */
  lemma ParseIntHex(ws: string, sign: string, x: char, h: string, rest: string)
    requires forall k :: 0 <= k < |ws| ==> IsSpace(ws[k])
    requires IsSign(sign) && (x == 'x' || x == 'X')
    requires h != [] && AllDigitsIn(h, true) && (rest == [] || !IsHexDigit(rest[0]))
    ensures ParseInt(ws + sign + ['0', x] + h + rest, true) == Some(Signed(sign, ValueIn(h, true)))
  {
    var u := ['0', x] + (h + rest);
    assert ws + sign + ['0', x] + h + rest == ws + sign + u;
    ParseIntSigned(ws, sign, u, true);
    assert HexPrefixed(u) && u[2..] == h + rest;
    LeadingValueOf(h, rest, true);
  }

  /** With no digit to read after the whitespace and sign, parseInt is NaN. */
  lemma ParseIntNaN(ws: string, sign: string, rest: string, prefix: bool)
    requires forall k :: 0 <= k < |ws| ==> IsSpace(ws[k])
    requires IsSign(sign) && (rest == [] || (!IsDigit(rest[0]) && !IsSpace(rest[0]) && rest[0] != '+' && rest[0] != '-'))
    ensures ParseInt(ws + sign + rest, prefix).None?
  {
    ParseIntSigned(ws, sign, rest, prefix);
  }

  /** parseInt reads a run of decimal digits as its value. */
  lemma ParseIntOfDigits(d: string, prefix: bool)
    requires d != [] && AllDigits(d)
    ensures ParseInt(d, prefix) == Some(ParseNat(d))
  {
    assert "" + "" + d + "" == d;
    ParseIntDecimal("", "", d, "", prefix);
  }

  /** parseInt reads back the decimal digits of any natural number. */
  lemma ParseIntOfNat(n: nat, prefix: bool)
    ensures ParseInt(NatToString(n), prefix) == Some(n)
  {
    ParseNatToString(n);
    ParseIntOfDigits(NatToString(n), prefix);
  }
}
