/** The birthday date strings of src/features/birthdays.js: parsing what a
    user types into the stored month-day form `MM-DD`, and printing a stored
    form for a reply. Only ASCII digits count as digits (`\d`). */
module Birthdays {
  import opened Common
  import opened Text

  /** `String(n).padStart(2, '0')`. */
  function Pad2(n: nat): (s: string)
    ensures AllDigits(s) && |s| >= 2
    ensures n < 100 ==> |s| == 2
  {
    if n < 10 then "0" + NatToString(n)
    else
      assert n < 100 ==> NatToString(n) == NatToString(n / 10) + [DigitChar(n % 10)];
      NatToString(n)
  }

  function DigitValue(c: char): int {
    c as int - '0' as int
  }

  lemma ParseOne(t: string)
    requires |t| == 1 && AllDigits(t)
    ensures ParseNat(t) == DigitValue(t[0])
  {
    assert t[..0] == [];
  }

  lemma ParseTwo(t: string)
    requires |t| == 2 && AllDigits(t)
    ensures ParseNat(t) == DigitValue(t[0]) * 10 + DigitValue(t[1])
  {
    ParseOne(t[..1]);
  }

  /** Two digits read as a number and padded again are the same two digits:
      `Number` drops a leading zero and padStart puts it back. */
  lemma Pad2OfTwoDigits(t: string)
    requires |t| == 2 && AllDigits(t)
    ensures Pad2(ParseNat(t)) == t
  {
    ParseTwo(t);
    var n := ParseNat(t);
    var hi, lo := DigitValue(t[0]), DigitValue(t[1]);
    assert n / 10 == hi && n % 10 == lo;
    assert DigitChar(hi) == t[0] && DigitChar(lo) == t[1];
    if n < 10 {
      assert Pad2(n) == ['0', DigitChar(n)];
    } else {
      assert NatToString(n) == NatToString(hi) + [DigitChar(lo)];
    }
  }

  /** One or two digits make a number below 100. */
  lemma ShortNumber(a: string)
    requires 1 <= |a| <= 2 && AllDigits(a)
    ensures ParseNat(a) < 100
  {
    if |a| == 2 {
      ParseTwo(a);
    } else {
      ParseOne(a);
    }
  }

  lemma MdOf(x: string, y: string)
    requires |x| == 2 && |y| == 2 && AllDigits(x) && AllDigits(y)
    ensures MdShape(x + "-" + y)
  {
    var md := x + "-" + y;
    assert md[..2] == x && md[3..] == y;
  }

  /** `^(\d{4})-(\d{2})-(\d{2})$`. */
  predicate IsIsoDate(s: string) {
    |s| == 10 && AllDigits(s[..4]) && s[4] == '-' && AllDigits(s[5..7]) && s[7] == '-' && AllDigits(s[8..])
  }

  /** `^(\d{1,2})X(\d{1,2})$` with the separator X after the first k
      characters. */
  predicate ShortAt(s: string, k: nat) {
    1 <= k <= 2 && k < |s| && AllDigits(s[..k]) && !IsDigit(s[k]) && 1 <= |s| - k - 1 <= 2 && AllDigits(s[k + 1..])
  }

  /** One or two digits, one separator, one or two digits: the two numbers
      around the separator and the separator itself. */
  function Short(s: string): (r: Option<(string, char, string)>)
    ensures r.Some? <==> ShortAt(s, 1) || ShortAt(s, 2)
    ensures r.Some? ==> var (a, sep, b) := r.value;
                        && s == a + [sep] + b && !IsDigit(sep)
                        && 1 <= |a| <= 2 && AllDigits(a) && 1 <= |b| <= 2 && AllDigits(b)
  {
    if ShortAt(s, 1) then Some((s[..1], s[1], s[2..]))
    else if ShortAt(s, 2) then Some((s[..2], s[2], s[3..]))
    else None
  }

  /** The stored form: two digits, a dash, two digits. */
  predicate MdShape(md: string) {
    |md| == 5 && AllDigits(md[..2]) && md[2] == '-' && AllDigits(md[3..])
  }

  /** parseBirthdayInput. After trimming: `YYYY-MM-DD` keeps its month and day;
      `D.M` and `D/M` are read day first whatever their values (both arms of
      the `> 12` test give the same answer); `M-D` is read month first (its
      `/` alternative is taken by the previous pattern); both short forms pad
      each number to two digits. Anything else gives None. */
  function Parse(raw: string): Option<string> {
    ParseTrimmed(Trim(raw))
  }

  function ParseTrimmed(s: string): (r: Option<string>)
    ensures r.Some? ==> MdShape(r.value)
    ensures r.Some? <==> IsIsoDate(s) || (Short(s).Some? && Short(s).value.1 in ".-/")
  {
    if IsIsoDate(s) then
      MdOf(s[5..7], s[8..]);
      Some(s[5..7] + "-" + s[8..])
    else
      match Short(s)
      case None => None
      case Some((a, sep, b)) =>
        ShortNumber(a);
        ShortNumber(b);
        var first, second := Pad2(ParseNat(a)), Pad2(ParseNat(b));
        if sep == '.' || sep == '/' then
          MdOf(second, first);
          Some(second + "-" + first)
        else if sep == '-' then
          MdOf(first, second);
          Some(first + "-" + second)
        else None
  }

  /** Parse accepts exactly the trimmed strings of the three patterns, and
      what it returns always has the stored shape. */
  lemma ParseAccepts(raw: string)
    ensures Parse(raw).Some? ==> MdShape(Parse(raw).value)
    ensures Parse(raw).Some? <==> IsIsoDate(Trim(raw)) || (Short(Trim(raw)).Some? && Short(Trim(raw)).value.1 in ".-/")
  {
    var s := Trim(raw);
    assert Parse(raw) == ParseTrimmed(s);
  }

  /** An ISO date gives its month and day unchanged. */
  lemma ParseIso(year: string, month: string, day: string)
    requires |year| == 4 && |month| == 2 && |day| == 2
    requires AllDigits(year) && AllDigits(month) && AllDigits(day)
    ensures Parse(year + "-" + month + "-" + day) == Some(month + "-" + day)
  {
    var s := year + "-" + month + "-" + day;
    assert s[..4] == year;
    assert s[5..7] == month;
    assert s[8..] == day;
    assert IsIsoDate(s);
    assert !IsSpace(s[0]) && !IsSpace(s[9]) by {
      assert s[0] == year[0] && s[9] == day[1];
    }
    TrimIdempotent(s);
    assert ParseTrimmed(s) == Some(month + "-" + day);
  }

  /** `D.M` and `D/M`: always day first, padded, with no range check. */
  lemma ParseDayMonth(day: string, sep: char, month: string)
    requires 1 <= |day| <= 2 && 1 <= |month| <= 2 && AllDigits(day) && AllDigits(month)
    requires sep == '.' || sep == '/'
    ensures Parse(day + [sep] + month) == Some(Pad2(ParseNat(month)) + "-" + Pad2(ParseNat(day)))
  {
    var s := day + [sep] + month;
    ShortSplits(day, sep, month);
    assert !IsSpace(s[0]) && !IsSpace(s[|s| - 1]) by {
      assert s[0] == day[0] && s[|s| - 1] == month[|month| - 1];
    }
    TrimIdempotent(s);
    assert ParseTrimmed(s) == Some(Pad2(ParseNat(month)) + "-" + Pad2(ParseNat(day)));
  }

  /** `M-D`: month first, padded. */
  lemma ParseMonthDay(month: string, day: string)
    requires 1 <= |day| <= 2 && 1 <= |month| <= 2 && AllDigits(day) && AllDigits(month)
    ensures Parse(month + "-" + day) == Some(Pad2(ParseNat(month)) + "-" + Pad2(ParseNat(day)))
  {
    var s := month + "-" + day;
    ShortSplits(month, '-', day);
    assert !IsSpace(s[0]) && !IsSpace(s[|s| - 1]) by {
      assert s[0] == month[0] && s[|s| - 1] == day[|day| - 1];
    }
    TrimIdempotent(s);
    assert ParseTrimmed(s) == Some(Pad2(ParseNat(month)) + "-" + Pad2(ParseNat(day)));
  }

  /** The short pattern splits a string at its one separator. */
  lemma ShortSplits(a: string, sep: char, b: string)
    requires 1 <= |a| <= 2 && 1 <= |b| <= 2 && AllDigits(a) && AllDigits(b) && !IsDigit(sep)
    ensures Short(a + [sep] + b) == Some((a, sep, b))
    ensures !IsIsoDate(a + [sep] + b)
  {
    var s := a + [sep] + b;
    assert s[..|a|] == a && s[|a|] == sep && s[|a| + 1..] == b;
    if |a| == 2 {
      assert !ShortAt(s, 1) by {
        assert IsDigit(s[1]);
      }
    }
  }

  /** Nothing checks that the numbers make a date: two-digit `DD.MM` is
      stored as `MM-DD` whatever the values, so `99.99` becomes `99-99`. */
  lemma NoRangeCheck(day: string, month: string)
    requires |day| == 2 && |month| == 2 && AllDigits(day) && AllDigits(month)
    ensures Parse(day + "." + month) == Some(month + "-" + day)
  {
    ParseDayMonth(day, '.', month);
    Pad2OfTwoDigits(day);
    Pad2OfTwoDigits(month);
  }

  /** `['Jan', …, 'Dec'][n - 1]`, `undefined` outside 1..12. */
  function MonthAbbrev(n: int): (name: string)
    ensures 1 <= n <= 12 ==> |name| == 3
  {
    if 1 <= n <= 12 then ["Jan", "Feb", "Mar", "Apr", "May", "Jun", "Jul", "Aug", "Sep", "Oct", "Nov", "Dec"][n - 1]
    else "undefined"
  }

  /** prettyMD on a stored `MM-DD`: the zero-padded day, a space, the month's
      three-letter name. */
  function PrettyMD(md: string): (r: string)
    requires MdShape(md)
  {
    Pad2(ParseNat(md[3..])) + " " + MonthAbbrev(ParseNat(md[..2]))
  }

  /** The day keeps its two digits, so a reply shows `DD Mon`, six
      characters for a real month. */
  lemma PrettyMDShape(md: string)
    requires MdShape(md)
    ensures PrettyMD(md) == md[3..] + " " + MonthAbbrev(ParseNat(md[..2]))
    ensures 1 <= ParseNat(md[..2]) <= 12 ==> |PrettyMD(md)| == 6
  {
    Pad2OfTwoDigits(md[3..]);
  }

  /** Every string parse accepts prints as a day and a month name, the day
      being the one parse wrote. */
  lemma ParseThenPretty(raw: string)
    requires Parse(raw).Some?
    ensures PrettyMD(Parse(raw).value)[..2] == Parse(raw).value[3..]
  {
    PrettyMDShape(Parse(raw).value);
  }
}
