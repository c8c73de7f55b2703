/** The timestamps of statements: how they are written, and that a written one is read back. */
module TimeText {
  import opened Options
  import opened Text
  import opened Calendar

  /** `pads` says whether the platform writes years before 1000 with four digits. */
  datatype Platform = Platform(rule: LeapRule, pads: bool)

  function DigitValue(c: char): int
    requires IsDigit(c)
  {
    c as int - '0' as int
  }

  function YearText(y: int, pads: bool): (r: string)
    requires 1 <= y <= 9999
    ensures |r| == 4 <==> pads || y >= 1000
    ensures |r| <= 4
  {
    if pads || y >= 1000 then [Digit(y / 100 / 10), Digit(y / 100 % 10), Digit(y % 100 / 10), Digit(y % 100 % 10)]
    else if y >= 100 then [Digit(y / 100), Digit(y / 10 % 10), Digit(y % 10)]
    else if y >= 10 then [Digit(y / 10), Digit(y % 10)]
    else [Digit(y)]
  }

  /** The text after the year. */
  function RestText(t: Moment): (r: string)
    requires 0 <= t.date.month < 100 && 0 <= t.date.day < 100
    requires 0 <= t.hour < 100 && 0 <= t.minute < 100 && 0 <= t.second < 100
    ensures |r| == 16
  {
    ['-', Digit(t.date.month / 10), Digit(t.date.month % 10), '-', Digit(t.date.day / 10), Digit(t.date.day % 10), 'T',
     Digit(t.hour / 10), Digit(t.hour % 10), ':', Digit(t.minute / 10), Digit(t.minute % 10), ':',
     Digit(t.second / 10), Digit(t.second % 10), 'Z']
  }

  function MomentText(t: Moment, pads: bool): (r: string)
    requires 1 <= t.date.year <= 9999 && 0 <= t.date.month < 100 && 0 <= t.date.day < 100
    requires 0 <= t.hour < 100 && 0 <= t.minute < 100 && 0 <= t.second < 100
    ensures |r| <= 20 && (|r| == 20 <==> pads || t.date.year >= 1000)
  {
    YearText(t.date.year, pads) + RestText(t)
  }

  /** None where the time is outside the years 1 to 9999. */
  function FormatTime(p: Platform, ts: int): (r: Option<string>)
    ensures r.Some? ==> |r.value| <= 20
  {
    if !Representable(p.rule, ts) then None
    else
      SecondsOfMoment(p.rule, ts);
      Some(MomentText(MomentOf(p.rule, ts), p.pads))
  }

  predicate DigitsAt(s: string, i: nat) {
    i + 1 < |s| && IsDigit(s[i]) && IsDigit(s[i + 1])
  }

  function Two(s: string, i: nat): int
    requires DigitsAt(s, i)
  {
    10 * DigitValue(s[i]) + DigitValue(s[i + 1])
  }

  predicate LooksLikeTime(s: string) {
    && |s| == 20 && s[4] == '-' && s[7] == '-' && s[10] == 'T' && s[13] == ':' && s[16] == ':' && s[19] == 'Z'
    && DigitsAt(s, 0) && DigitsAt(s, 2) && DigitsAt(s, 5) && DigitsAt(s, 8)
    && DigitsAt(s, 11) && DigitsAt(s, 14) && DigitsAt(s, 17)
  }

  function ReadMoment(s: string): Moment
    requires LooksLikeTime(s)
  {
    Moment(Date(100 * Two(s, 0) + Two(s, 2), Two(s, 5), Two(s, 8)), Two(s, 11), Two(s, 14), Two(s, 17))
  }

  /** Only ASCII digits are read; a time written in others is refused here and not where the text is compared. */
  function ParseTime(p: Platform, s: string): Option<int> {
    if LooksLikeTime(s) && ValidMoment(p.rule, ReadMoment(s)) then Some(SecondsOf(p.rule, ReadMoment(s))) else None
  }

  lemma PairReads(s: string, i: nat, n: int)
    requires 0 <= n < 100 && i + 1 < |s| && s[i] == Digit(n / 10) && s[i + 1] == Digit(n % 10)
    ensures DigitsAt(s, i) && Two(s, i) == n
  {
  }

  lemma MomentReads(t: Moment, pads: bool)
    requires 1 <= t.date.year <= 9999 && 0 <= t.date.month < 100 && 0 <= t.date.day < 100
    requires 0 <= t.hour < 100 && 0 <= t.minute < 100 && 0 <= t.second < 100
    requires pads || t.date.year >= 1000
    ensures LooksLikeTime(MomentText(t, pads)) && ReadMoment(MomentText(t, pads)) == t
  {
    var s, y := MomentText(t, pads), t.date.year;
    assert s[..4] == YearText(y, pads) && s[4..] == RestText(t);
    PairReads(s, 0, y / 100);
    PairReads(s, 2, y % 100);
    RestReads(s, t);
  }

  lemma RestReads(s: string, t: Moment)
    requires 0 <= t.date.month < 100 && 0 <= t.date.day < 100
    requires 0 <= t.hour < 100 && 0 <= t.minute < 100 && 0 <= t.second < 100
    requires |s| == 20 && s[4..] == RestText(t)
    ensures s[4] == '-' && s[7] == '-' && s[10] == 'T' && s[13] == ':' && s[16] == ':' && s[19] == 'Z'
    ensures DigitsAt(s, 5) && Two(s, 5) == t.date.month && DigitsAt(s, 8) && Two(s, 8) == t.date.day
    ensures DigitsAt(s, 11) && Two(s, 11) == t.hour && DigitsAt(s, 14) && Two(s, 14) == t.minute
    ensures DigitsAt(s, 17) && Two(s, 17) == t.second
  {
    var r := RestText(t);
    assert forall i :: 4 <= i < 20 ==> s[i] == r[i - 4];
    PairReads(s, 5, t.date.month);
    PairReads(s, 8, t.date.day);
    PairReads(s, 11, t.hour);
    PairReads(s, 14, t.minute);
    PairReads(s, 17, t.second);
  }

  /** A time is read back from its text exactly if its year is written with four digits. */
  lemma TimeReadsBack(p: Platform, ts: int)
    requires FormatTime(p, ts).Some?
    ensures ParseTime(p, FormatTime(p, ts).value) == Some(ts) <==> p.pads || MomentOf(p.rule, ts).date.year >= 1000
    ensures !(p.pads || MomentOf(p.rule, ts).date.year >= 1000) ==> ParseTime(p, FormatTime(p, ts).value).None?
  {
    SecondsOfMoment(p.rule, ts);
    if p.pads || MomentOf(p.rule, ts).date.year >= 1000 { MomentReads(MomentOf(p.rule, ts), p.pads); }
  }

  /** What is written has no line break. */
  lemma TimeIsOneLine(p: Platform, ts: int)
    requires FormatTime(p, ts).Some?
    ensures '\n' !in FormatTime(p, ts).value
  {
  }

  /** A number below 100 in two digits, and one below 10000 in four. */
  function Pad2(n: nat): string {
    if n < 10 then "0" + IntToString(n) else IntToString(n)
  }

  function Pad4(n: nat): string {
    if n < 10 then "000" + IntToString(n) else if n < 100 then "00" + IntToString(n)
    else if n < 1000 then "0" + IntToString(n) else IntToString(n)
  }

  lemma Pad2IsDigits(n: nat)
    requires n < 100
    ensures Pad2(n) == [Digit(n / 10), Digit(n % 10)]
  {
    assert n >= 10 ==> NatToString(n) == NatToString(n / 10) + [Digit(n % 10)];
  }

  lemma ThreeDigits(n: nat)
    requires 100 <= n < 1000
    ensures IntToString(n) == [Digit(n / 100), Digit(n / 10 % 10), Digit(n % 10)]
  {
    assert NatToString(n) == NatToString(n / 10) + [Digit(n % 10)];
    assert NatToString(n / 10) == NatToString(n / 10 / 10) + [Digit(n / 10 % 10)];
    assert n / 10 / 10 == n / 100;
  }

  lemma FourDigits(n: nat)
    requires 1000 <= n < 10000
    ensures IntToString(n) == [Digit(n / 100 / 10), Digit(n / 100 % 10), Digit(n % 100 / 10), Digit(n % 100 % 10)]
  {
    assert NatToString(n) == NatToString(n / 10) + [Digit(n % 10)];
    assert n / 10 / 100 == n / 1000 == n / 100 / 10 && n / 10 / 10 == n / 100 && n / 10 % 10 == n % 100 / 10;
    ThreeDigits(n / 10);
  }

  lemma OneDigit(n: nat)
    requires n < 10
    ensures IntToString(n) == [Digit(n)]
  {
  }

  lemma TwoDigits(n: nat)
    requires 10 <= n < 100
    ensures IntToString(n) == [Digit(n / 10), Digit(n % 10)]
  {
    assert NatToString(n) == NatToString(n / 10) + [Digit(n % 10)];
  }

  lemma YearIsWritten(y: nat)
    requires 1 <= y <= 9999
    ensures YearText(y, false) == IntToString(y)
  {
    if y >= 1000 { FourDigits(y); } else if y >= 100 { ThreeDigits(y); } else if y >= 10 { TwoDigits(y); } else { OneDigit(y); }
  }

  lemma LowYearIsPadded(y: nat)
    requires 1 <= y < 100
    ensures YearText(y, true) == Pad4(y)
  {
    if y >= 10 { TwoDigits(y); } else { OneDigit(y); }
    assert y / 100 == 0 && y % 100 == y;
  }

  lemma ThreeOfFour(y: nat)
    requires 100 <= y < 1000
    ensures y / 100 / 10 == 0 && y / 100 % 10 == y / 100 && y / 10 % 10 == y % 100 / 10 && y % 10 == y % 100 % 10
  {
  }

  lemma YearIsPadded(y: nat)
    requires 1 <= y <= 9999
    ensures YearText(y, true) == Pad4(y)
  {
    if y >= 1000 {
      FourDigits(y);
    } else if y >= 100 {
      ThreeDigits(y);
      ThreeOfFour(y);
    } else {
      LowYearIsPadded(y);
    }
  }

  /** A time is written as date, `T`, time of day and `Z`, each part but perhaps the year padded with zeros. */
  lemma MomentIsWritten(t: Moment, pads: bool)
    requires 1 <= t.date.year <= 9999 && 0 <= t.date.month < 100 && 0 <= t.date.day < 100
    requires 0 <= t.hour < 100 && 0 <= t.minute < 100 && 0 <= t.second < 100
    ensures var year := if pads then Pad4(t.date.year) else IntToString(t.date.year);
      var s := MomentText(t, pads);
      && |s| == |year| + 16 && s[..|year|] == year
      && var rest := s[|year|..];
      && rest[0] == '-' && rest[1..3] == Pad2(t.date.month) && rest[3] == '-' && rest[4..6] == Pad2(t.date.day)
      && rest[6] == 'T' && rest[7..9] == Pad2(t.hour) && rest[9] == ':' && rest[10..12] == Pad2(t.minute)
      && rest[12] == ':' && rest[13..15] == Pad2(t.second) && rest[15] == 'Z'
  {
    if pads { YearIsPadded(t.date.year); } else { YearIsWritten(t.date.year); }
    var s, year := MomentText(t, pads), YearText(t.date.year, pads);
    assert s[..|year|] == year && s[|year|..] == RestText(t);
    RestIsWritten(t);
  }

  lemma PairIsWritten(s: string, i: nat, n: nat)
    requires n < 100 && i + 2 <= |s| && s[i] == Digit(n / 10) && s[i + 1] == Digit(n % 10)
    ensures s[i..i + 2] == Pad2(n)
  {
    Pad2IsDigits(n);
  }

  lemma RestIsWritten(t: Moment)
    requires 0 <= t.date.month < 100 && 0 <= t.date.day < 100
    requires 0 <= t.hour < 100 && 0 <= t.minute < 100 && 0 <= t.second < 100
    ensures var rest := RestText(t);
      && rest[0] == '-' && rest[1..3] == Pad2(t.date.month) && rest[3] == '-' && rest[4..6] == Pad2(t.date.day)
      && rest[6] == 'T' && rest[7..9] == Pad2(t.hour) && rest[9] == ':' && rest[10..12] == Pad2(t.minute)
      && rest[12] == ':' && rest[13..15] == Pad2(t.second) && rest[15] == 'Z'
  {
    PairIsWritten(RestText(t), 1, t.date.month);
    PairIsWritten(RestText(t), 4, t.date.day);
    PairIsWritten(RestText(t), 7, t.hour);
    PairIsWritten(RestText(t), 10, t.minute);
    PairIsWritten(RestText(t), 13, t.second);
  }
}
