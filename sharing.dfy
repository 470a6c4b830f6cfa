/** The shareable drive summary: the default drive name, `m:ss` durations,
    the winner line, per-colour counts and the one-emoji-per-light line. */
module Sharing {
  import opened Types
  import opened Scoring
  import Stats

  // ---------------------------------------------------------------------
  // Decimal rendering of JavaScript integers

  predicate IsDigit(ch: char)
  {
    '0' <= ch <= '9'
  }

  predicate AllDigits(s: string)
  {
    forall i :: 0 <= i < |s| ==> IsDigit(s[i])
  }

  function Digit(n: nat): char
    requires n < 10
  {
    "0123456789"[n]
  }

  function DigitValue(ch: char): nat
    requires IsDigit(ch)
  {
    ch as int - '0' as int
  }

  /** Decimal digits of `n`, most significant first, without leading zeros. */
  function NatToString(n: nat): string
  {
    if n < 10 then [Digit(n)] else NatToString(n / 10) + [Digit(n % 10)]
  }

  /** The number a string of decimal digits denotes. */
  function ParseNat(s: string): nat
    requires AllDigits(s)
  {
    if |s| == 0 then 0 else 10 * ParseNat(s[..|s| - 1]) + DigitValue(s[|s| - 1])
  }

  /** Rendering a natural number in decimal can be read back. */
  lemma {:induction false} NatToStringRoundTrip(n: nat)
    ensures |NatToString(n)| >= 1
    ensures AllDigits(NatToString(n))
    ensures ParseNat(NatToString(n)) == n
  {
    var s := NatToString(n);
    if n >= 10 {
      NatToStringRoundTrip(n / 10);
      assert s[..|s| - 1] == NatToString(n / 10);
    }
  }

  /** `String(i)` for an integer `i`. */
  function IntToString(i: int): string
  {
    if i < 0 then "-" + NatToString(-i) else NatToString(i)
  }

  /** `s.padStart(2, '0')`. */
  function PadTwo(s: string): string
  {
    if |s| >= 2 then s else seq(2 - |s|, _ => '0') + s
  }

  /** JavaScript's `%` on integers: the remainder takes the sign of the dividend. */
  function TruncatedRem(a: int, b: int): int
    requires b > 0
  {
    if a >= 0 then a % b else -((-a) % b)
  }

  // ---------------------------------------------------------------------
  // Durations

  /** `m:ss` for a duration in seconds (`Math.floor(s / 60)` and `s % 60`):
      some minutes, a colon, and for a non-negative duration exactly two
      digits of seconds. */
  function FormatDuration(seconds: int): (r: string)
    ensures |r| >= 4
    ensures seconds >= 0 ==> r[|r| - 3] == ':' && AllDigits(r[|r| - 2..])
  {
    var mins, secs := IntToString(seconds / 60), PadTwo(IntToString(TruncatedRem(seconds, 60)));
    var r := mins + ":" + secs;
    if seconds >= 0 then
      SecondsField(seconds % 60);
      assert r[|r| - 2..] == secs;
      r
    else
      r
  }

  /** The seconds field of a non-negative duration is exactly two digits. */
  lemma SecondsField(k: nat)
    requires k < 60
    ensures |PadTwo(NatToString(k))| == 2 && AllDigits(PadTwo(NatToString(k)))
  {
    TwoDigits(k);
    DigitValueOfDigit(k / 10);
    DigitValueOfDigit(k % 10);
  }

  /** A number under 60 is padded to exactly its two decimal digits. */
  lemma TwoDigits(k: nat)
    requires k < 60
    ensures PadTwo(NatToString(k)) == [Digit(k / 10), Digit(k % 10)]
  {
    if k >= 10 {
      assert NatToString(k / 10) == [Digit(k / 10)];
    }
  }

  lemma DigitValueOfDigit(n: nat)
    requires n < 10
    ensures IsDigit(Digit(n)) && DigitValue(Digit(n)) == n
  {
  }

  lemma ParseTwoDigits(x: char, y: char)
    requires IsDigit(x) && IsDigit(y)
    ensures ParseNat([x, y]) == 10 * DigitValue(x) + DigitValue(y)
  {
    assert [x, y][..1] == [x];
    assert [x][..0] == [];
    assert ParseNat([x]) == DigitValue(x);
  }

  /** For a non-negative duration the text is minutes, a colon and exactly two
      digits of seconds; reading both numbers back gives the seconds under a
      minute and the whole minutes, which recombine to the duration. */
  lemma FormatDurationParts(seconds: int)
    requires seconds >= 0
    ensures var r := FormatDuration(seconds); var k := |r| - 3;
      && |r| >= 4 && r[k] == ':'
      && AllDigits(r[..k]) && AllDigits(r[k + 1..])
      && ParseNat(r[..k]) == seconds / 60
      && 0 <= ParseNat(r[k + 1..]) < 60
      && ParseNat(r[..k]) * 60 + ParseNat(r[k + 1..]) == seconds
  {
    var mins, secs := seconds / 60, seconds % 60;
    assert mins * 60 + secs == seconds;
    var m := NatToString(mins);
    NatToStringRoundTrip(mins);
    TwoDigits(secs);
    var hi, lo := secs / 10, secs % 10;
    DigitValueOfDigit(hi);
    DigitValueOfDigit(lo);
    var tail := [Digit(hi), Digit(lo)];
    ParseTwoDigits(Digit(hi), Digit(lo));
    assert ParseNat(tail) == secs;
    var r := FormatDuration(seconds);
    assert r == m + ":" + tail;
    assert r[..|r| - 3] == m;
    assert r[|r| - 2..] == tail;
  }

  /** A negative duration (a clock that went backwards) renders with the
      signs JavaScript produces. */
  lemma FormatNegativeDuration()
    ensures FormatDuration(-5) == "-1:-5"
    ensures FormatDuration(-65) == "-2:-5"
  {
    assert -5 / 60 == -1 && TruncatedRem(-5, 60) == -5;
    assert -65 / 60 == -2 && TruncatedRem(-65, 60) == -5;
    assert IntToString(-1) == "-1" by { assert NatToString(1) == "1"; }
    assert IntToString(-2) == "-2" by { assert NatToString(2) == "2"; }
    assert PadTwo(IntToString(-5)) == "-5" by { assert NatToString(5) == "5"; }
  }

  // ---------------------------------------------------------------------
  // Drive name

  /** `drive.name || 'My Drive'`: an absent or empty name falls back to the default. */
  function DriveName(d: Drive): (r: string)
    ensures r != ""
    ensures d.name.Some? && d.name.value != "" ==> r == d.name.value
    ensures d.name.None? || d.name.value == "" ==> r == "My Drive"
  {
    match d.name
    case Some(n) => if n != "" then n else "My Drive"
    case None => "My Drive"
  }

  // ---------------------------------------------------------------------
  // Winner line

  const GreenPrefix := "Green Wins! +"
  const RedPrefix := "Red Wins! +"
  const PointsSuffix := " points"
  const TieLine := "Tie!"

  /** The winner line: green is named when it scored more, red when it
      scored less, and the tie line is used exactly for equal scores. */
  function WinnerLine(d: Drive): (r: string)
    ensures d.greenScore > d.redScore ==> |r| > |GreenPrefix| && r[..|GreenPrefix|] == GreenPrefix
    ensures d.greenScore < d.redScore ==> |r| > |RedPrefix| && r[..|RedPrefix|] == RedPrefix
    ensures r == TieLine <==> d.greenScore == d.redScore
  {
    if d.greenScore > d.redScore then GreenPrefix + NatToString(d.greenScore - d.redScore) + PointsSuffix
    else if d.greenScore == d.redScore then TieLine
    else RedPrefix + NatToString(d.redScore - d.greenScore) + PointsSuffix
  }

  /** Who won a drive and by how many points. */
  datatype Verdict = GreenWins(margin: nat) | RedWins(margin: nat) | Tied

  function VerdictOf(d: Drive): (v: Verdict)
    ensures v.GreenWins? <==> Stats.IsWin(d)
    ensures v.Tied? <==> d.greenScore == d.redScore
    ensures v.GreenWins? ==> v.margin == d.greenScore - d.redScore > 0
    ensures v.RedWins? ==> v.margin == d.redScore - d.greenScore > 0
  {
    if d.greenScore > d.redScore then GreenWins(d.greenScore - d.redScore)
    else if d.greenScore == d.redScore then Tied
    else RedWins(d.redScore - d.greenScore)
  }

  /** The margin between a known prefix and suffix, if it is a decimal number. */
  function Margin(s: string, prefix: string): Option<nat>
  {
    if |s| >= |prefix| + |PointsSuffix| + 1
       && s[..|prefix|] == prefix && s[|s| - |PointsSuffix|..] == PointsSuffix
    then
      var mid := s[|prefix|..|s| - |PointsSuffix|];
      if AllDigits(mid) then Some(ParseNat(mid)) else None
    else None
  }

  /** Reads a winner line back. */
  function ParseWinnerLine(s: string): Option<Verdict>
  {
    if s == TieLine then Some(Tied)
    else match Margin(s, GreenPrefix)
      case Some(m) => Some(GreenWins(m))
      case None =>
        match Margin(s, RedPrefix)
        case Some(m) => Some(RedWins(m))
        case None => None
  }

  lemma MarginOf(prefix: string, n: nat, other: string)
    requires |prefix| > 0 && |other| > 0 && prefix[0] != other[0]
    ensures Margin(prefix + NatToString(n) + PointsSuffix, prefix) == Some(n)
    ensures Margin(prefix + NatToString(n) + PointsSuffix, other) == None
  {
    var digits := NatToString(n);
    var s := prefix + digits + PointsSuffix;
    NatToStringRoundTrip(n);
    assert s[..|prefix|] == prefix;
    assert s[|s| - |PointsSuffix|..] == PointsSuffix;
    assert s[|prefix|..|s| - |PointsSuffix|] == digits;
    assert s[0] == prefix[0];
  }

  /** The winner line names the winner and the exact margin: reading it back
      recovers who won by how much, and green is named exactly for the drives
      the statistics count as wins. */
  lemma WinnerLineRoundTrip(d: Drive)
    ensures ParseWinnerLine(WinnerLine(d)) == Some(VerdictOf(d))
  {
    if d.greenScore > d.redScore {
      MarginOf(GreenPrefix, d.greenScore - d.redScore, RedPrefix);
      assert WinnerLine(d) != TieLine by {
        assert WinnerLine(d)[0] == 'G';
      }
    } else if d.greenScore < d.redScore {
      MarginOf(RedPrefix, d.redScore - d.greenScore, GreenPrefix);
      assert WinnerLine(d) != TieLine by {
        assert |WinnerLine(d)| > |TieLine|;
      }
    }
  }

  // ---------------------------------------------------------------------
  // Colours

  const RedEmoji: char := '\U{1F534}'
  const YellowEmoji: char := '\U{1F7E1}'
  const GreenEmoji: char := '\U{1F7E2}'
  const TrafficLightEmoji: char := '\U{1F6A6}'

  /** The emoji for a light colour; distinct colours get distinct emoji,
      so each decodes back to its colour. */
  function LightEmoji(c: LightColor): (r: char)
    ensures EmojiColor(r) == Some(c)
    ensures r != TrafficLightEmoji
  {
    match c
    case Red => RedEmoji
    case Yellow => YellowEmoji
    case Green => GreenEmoji
  }

  /** Which colour an emoji stands for. */
  function EmojiColor(ch: char): Option<LightColor>
  {
    if ch == RedEmoji then Some(Red)
    else if ch == YellowEmoji then Some(Yellow)
    else if ch == GreenEmoji then Some(Green)
    else None
  }

  /** One emoji per light, in recorded order. */
  function EmojiSequence(lights: seq<Light>): (r: string)
    ensures |r| == |lights|
    ensures forall i :: 0 <= i < |lights| ==> r[i] == LightEmoji(lights[i].color)
  {
    if |lights| == 0 then ""
    else EmojiSequence(lights[..|lights| - 1]) + [LightEmoji(lights[|lights| - 1].color)]
  }

  /** The emoji line decodes back to the colours of the lights, in order. */
  lemma EmojiSequenceDecodes(lights: seq<Light>)
    ensures forall i :: 0 <= i < |lights| ==> EmojiColor(EmojiSequence(lights)[i]) == Some(lights[i].color)
  {
    var r := EmojiSequence(lights);
    forall i | 0 <= i < |lights|
      ensures EmojiColor(r[i]) == Some(lights[i].color)
    {
      assert r[i] == LightEmoji(lights[i].color);
    }
  }

  /** The red, yellow and green counts of the lights; they add up to the
      number of lights. */
  function ColorCounts(lights: seq<Light>): (r: (nat, nat, nat))
    ensures r.0 + r.1 + r.2 == |lights|
  {
    CountsSumToLength(lights);
    (Count(lights, Red), Count(lights, Yellow), Count(lights, Green))
  }

  /** For a drive whose counters follow the scoring rule, the share counts
      agree with them: reds are the red score, yellows the yellow count, and
      greens the green score minus two points per yellow. */
  lemma ColorCountsMatchScores(d: Drive)
    requires Consistent(d)
    ensures var (r, y, g) := ColorCounts(d.lights);
      r == d.redScore && y == d.yellowCount && g == d.greenScore - 2 * d.yellowCount
  {
    FoldByCounts(d.lights);
  }

  /** The first three lines of the share text: the title, the drive's name
      and date, and the per-colour counts. The date line's locale formatting
      is done by the platform, so the formatted date is a parameter. */
  function ShareHeader(d: Drive, date: string): (r: string)
    ensures |r| >= 1 && r[0] == TrafficLightEmoji
  {
    var (reds, yellows, greens) := ColorCounts(d.lights);
    [TrafficLightEmoji] + " Red Light Green Light\n"
      + DriveName(d) + " - " + date + "\n"
      + [RedEmoji] + " " + NatToString(reds) + " | "
      + [GreenEmoji] + " " + NatToString(greens) + " | "
      + [YellowEmoji] + " " + NatToString(yellows) + "\n"
  }

  /** `r` ends with the line `w`, a newline and the emoji line of `lights`,
      and its last `|lights|` characters decode to the light colours in order. */
  predicate EndsWithVerdictAndEmoji(r: string, w: string, lights: seq<Light>)
  {
    var k := |r| - |lights| - 1;
    && |r| >= |lights| + 1 && r[k] == '\n'
    && k >= |w| && r[k - |w|..k] == w && r[k + 1..] == EmojiSequence(lights)
    && (forall i :: 0 <= i < |lights| ==> EmojiColor(r[|r| - |lights| + i]) == Some(lights[i].color))
  }

  /** The complete share text: the header, the winner line and the emoji line. */
  function ShareText(d: Drive, date: string): (r: string)
    ensures |r| >= 1 && r[0] == TrafficLightEmoji
    ensures EndsWithVerdictAndEmoji(r, WinnerLine(d), d.lights)
  {
    ShareLayout(ShareHeader(d, date), WinnerLine(d), d.lights);
    ShareHeader(d, date) + WinnerLine(d) + "\n" + EmojiSequence(d.lights)
  }

  /** Where the winner line and the emoji line sit in `h + w + "\n" + emojis`. */
  lemma ShareLayout(h: string, w: string, lights: seq<Light>)
    requires |h| >= 1
    ensures (h + w + "\n" + EmojiSequence(lights))[0] == h[0]
    ensures EndsWithVerdictAndEmoji(h + w + "\n" + EmojiSequence(lights), w, lights)
  {
    var e := EmojiSequence(lights);
    var r := h + w + "\n" + e;
    assert r == (h + w) + ("\n" + e);
    assert r[|h| + |w| + 1..] == e;
    assert r[|h|..|h| + |w|] == w;
    DecodesAtEnd(r, lights);
  }

  /** A text that ends with the emoji line decodes, at its end, to the colours. */
  lemma DecodesAtEnd(r: string, lights: seq<Light>)
    requires |r| >= |lights| && r[|r| - |lights|..] == EmojiSequence(lights)
    ensures forall i :: 0 <= i < |lights| ==> EmojiColor(r[|r| - |lights| + i]) == Some(lights[i].color)
  {
    EmojiSequenceDecodes(lights);
    forall i | 0 <= i < |lights|
      ensures EmojiColor(r[|r| - |lights| + i]) == Some(lights[i].color)
    {
      assert r[|r| - |lights| + i] == EmojiSequence(lights)[i];
    }
  }
}
