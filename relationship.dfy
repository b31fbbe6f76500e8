/** The local logic of /relationship in src/commands/relationship.js: the
    affection score read from the language model's reply (50 when there is
    no reply), the status band of the score and the 15-cell progress bar.
    The language model itself is outside the model: its reply arrives as an
    optional string. */
module Relationship {
  import opened Common
  import opened Text
  import BirthdayRegistry

  const BarSize := 15

  /** The bar's scale. getProgressBar's `max` defaults to 100, and that
      default is the only one the command uses. */
  const Scale := 100

  /** `Math.min(Math.max(value, 0), max)`. */
  function Clamp(value: int): (c: int)
    ensures 0 <= c <= Scale
    ensures 0 <= value <= Scale ==> c == value
  {
    if value < 0 then 0 else if value > Scale then Scale else value
  }

  /** `Math.round(size * clamped / max)` in exact arithmetic: 15 * clamped /
      100 rounded to the nearest whole cell, a half rounding up, so the
      difference lies in [-1/2, 1/2). Values at or below 0 fill nothing,
      values at or above 100 fill every cell. */
  function Filled(value: int): (f: int)
    ensures 0 <= f <= BarSize
    ensures -Scale <= 2 * BarSize * Clamp(value) - 2 * Scale * f < Scale
    ensures value <= 0 ==> f == 0
    ensures value >= Scale ==> f == BarSize
  {
    (2 * BarSize * Clamp(value) + Scale) / (2 * Scale)
  }

  /** A higher score never shows a shorter bar. */
  lemma FilledMonotone(a: int, b: int)
    requires a <= b
    ensures Filled(a) <= Filled(b)
  {
  }

  /** `c.repeat(n)`. */
  function Repeat(c: char, n: nat): (s: string)
    ensures |s| == n
    ensures forall i :: 0 <= i < n ==> s[i] == c
  {
    if n == 0 then [] else [c] + Repeat(c, n - 1)
  }

  /** The bar: a backtick, the filled cells, the empty cells, a backtick. */
  function ProgressBar(value: int): string {
    var filled := Filled(value);
    "`" + Repeat('█', filled) + Repeat('░', BarSize - filled) + "`"
  }

  /** Every bar has 15 cells between its backticks: the first `filled` full,
      the rest empty. */
  lemma BarShape(value: int)
    ensures |ProgressBar(value)| == BarSize + 2
    ensures ProgressBar(value)[0] == '`' && ProgressBar(value)[BarSize + 1] == '`'
    ensures forall i :: 1 <= i <= BarSize ==> (ProgressBar(value)[i] == '█' <==> i <= Filled(value))
    ensures forall i :: 1 <= i <= BarSize ==> (ProgressBar(value)[i] == '░' <==> i > Filled(value))
  {
    var f := Filled(value);
    var bar := ProgressBar(value);
    var full, empty := Repeat('█', f), Repeat('░', BarSize - f);
    assert bar == "`" + full + empty + "`";
    forall i | 1 <= i <= BarSize
      ensures bar[i] == (if i <= f then '█' else '░')
    {
      if i <= f {
        assert bar[i] == full[i - 1];
      } else {
        assert bar[i] == empty[i - 1 - f];
      }
    }
  }

  /** The five status bands. */
  datatype Affection = Enemy | Disliked | Neutral | Liked | Love

  function Label(a: Affection): string {
    match a
    case Enemy => "Enemy"
    case Disliked => "Disliked"
    case Neutral => "Neutral"
    case Liked => "Liked"
    case Love => "Love / Best Friend"
  }

  /** The status: `Neutral`, overwritten in turn by the tests `< 30`,
      `< 10`, `> 60` and `> 85`; each band is exactly a range of scores. */
  function Status(score: int): (a: Affection)
    ensures a == Enemy <==> score < 10
    ensures a == Disliked <==> 10 <= score < 30
    ensures a == Neutral <==> 30 <= score <= 60
    ensures a == Liked <==> 60 < score <= 85
    ensures a == Love <==> score > 85
  {
    var s0 := Neutral;
    var s1 := if score < 30 then Disliked else s0;
    var s2 := if score < 10 then Enemy else s1;
    var s3 := if score > 60 then Liked else s2;
    if score > 85 then Love else s3
  }

  /** `text.match(/\d+/)?.[0]`: the first run of ASCII digits, as long as it
      goes. */
  function FirstDigits(s: string): (r: Option<string>)
    ensures r.Some? ==> r.value != [] && AllDigits(r.value)
    ensures r.None? <==> forall i :: 0 <= i < |s| ==> !IsDigit(s[i])
  {
    if s == [] then None
    else if IsDigit(s[0]) then Some(s[..BirthdayRegistry.DigitRun(s)])
    else
      var r := FirstDigits(s[1..]);
      assert forall i :: 1 <= i < |s| ==> s[1..][i - 1] == s[i];
      r
  }

  /** Between text without digits and text that does not go on with a digit,
      the first digit run is found whole. */
  lemma {:induction false} FirstDigitsFinds(p: string, d: string, q: string)
    requires d != [] && AllDigits(d)
    requires forall i :: 0 <= i < |p| ==> !IsDigit(p[i])
    requires q == [] || !IsDigit(q[0])
    ensures FirstDigits(p + d + q) == Some(d)
  {
    var s := p + d + q;
    if p == [] {
      assert s == d + q;
      DigitRunOf(d, q);
      assert s[..|d|] == d;
    } else {
      assert s[1..] == p[1..] + d + q;
      FirstDigitsFinds(p[1..], d, q);
    }
  }

  /** A digit run followed by a non-digit is counted to its end. */
  lemma {:induction false} DigitRunOf(d: string, q: string)
    requires AllDigits(d)
    requires q == [] || !IsDigit(q[0])
    ensures BirthdayRegistry.DigitRun(d + q) == |d|
  {
    if d == [] {
      assert d + q == q;
    } else {
      assert (d + q)[0] == d[0];
      assert (d + q)[1..] == d[1..] + q;
      assert AllDigits(d[1..]) by {
        assert forall k :: 0 <= k < |d| - 1 ==> d[1..][k] == d[k + 1];
      }
      DigitRunOf(d[1..], q);
    }
  }

  /** The score of a reply: its first number after trimming, or 50 when it
      holds no digit. */
  function ParseScore(text: string): nat {
    var d := FirstDigits(Trim(text));
    if d.None? then 50 else ParseNat(d.value)
  }

  /** `generateAffectionScore`: 50 without a reply (no API key, or the call
      failed), otherwise the reply's score. */
  function ScoreOf(reply: Option<string>): nat {
    if reply.None? then 50 else ParseScore(reply.value)
  }

  /** A reply that is just a number reads as that number. */
  lemma ScoreOfNumber(n: nat)
    ensures ScoreOf(Some(NatToString(n))) == n
  {
    var s := NatToString(n);
    NumberTrimmed(n);
    assert FirstDigits(Trim(s)) == Some(s) by {
      DigitsFoundWhole(s);
    }
    ParseNatToString(n);
  }

  /** Text made only of digits is its own first digit run. */
  lemma DigitsFoundWhole(d: string)
    requires d != [] && AllDigits(d)
    ensures FirstDigits(d) == Some(d)
  {
    FirstDigitsFinds([], d, []);
    assert [] + d + [] == d;
  }

  /** A printed number has no surrounding whitespace. */
  lemma NumberTrimmed(n: nat)
    ensures Trim(NatToString(n)) == NatToString(n)
  {
    var s := NatToString(n);
    assert IsDigit(s[0]) && IsDigit(s[|s| - 1]);
    TrimIdempotent(s);
  }

  /** A reply without digits, like no reply at all, reads as 50. */
  lemma ScoreWithoutDigits(text: string)
    requires forall i :: 0 <= i < |text| ==> !IsDigit(text[i])
    ensures ScoreOf(Some(text)) == 50
  {
    var t := Trim(text);
    forall k | 0 <= k < |t| ensures !IsDigit(t[k]) {
      assert t[k] in text;
    }
  }

  /** `db.database.opinions?.[target.id] || "I haven't …"`: an absent or
      empty opinion is replaced by the default. */
  function OpinionOf(opinions: map<UserId, string>, u: UserId): (o: string)
    ensures o != []
    ensures u in opinions && opinions[u] != [] ==> o == opinions[u]
  {
    if u in opinions && opinions[u] != [] then opinions[u]
    else "I haven't formed a strong opinion on them yet."
  }

  /** The embed's colour: pink above 50, the default blurple otherwise. */
  function Colour(score: int): string {
    if score > 50 then "#ff69b4" else "#5865F2"
  }

  /** What /relationship shows. */
  datatype RelationshipView = RelationshipView(opinion: string, bar: string, score: nat, status: string, colour: string)

  function Show(opinions: map<UserId, string>, target: UserId, reply: Option<string>): (v: RelationshipView)
    ensures v.status == Label(Status(v.score)) && v.bar == ProgressBar(v.score)
    ensures reply.None? ==> v.score == 50 && v.status == "Neutral" && v.colour == "#5865F2"
  {
    var score := ScoreOf(reply);
    RelationshipView(OpinionOf(opinions, target), ProgressBar(score), score, Label(Status(score)), Colour(score))
  }
}
