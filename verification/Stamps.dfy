/** Times as text (src/achievements.cpp): utc_text and parse_utc_text, the form of section 5.6
    of RFC 3339 with Z and no fraction. */
module Stamps {
  import opened Options
  import opened Civil

  // ------------------------------------------------------------ decimal numbers

  predicate IsDigit(c: char) { '0' <= c <= '9' }

  function DigitChar(d: nat): char
    requires d < 10
  {
    ['0', '1', '2', '3', '4', '5', '6', '7', '8', '9'][d]
  }

  function DigitValue(c: char): (d: nat)
    requires IsDigit(c)
    ensures d < 10
  {
    c as int - '0' as int
  }

  function Digits(n: nat): (text: string)
    ensures text != [] && forall i | 0 <= i < |text| :: IsDigit(text[i])
  {
    if n < 10 then [DigitChar(n)] else Digits(n / 10) + [DigitChar(n % 10)]
  }

  function Zeros(k: nat): (text: string)
    ensures |text| == k && forall i | 0 <= i < |text| :: text[i] == '0'
  {
    if k == 0 then [] else Zeros(k - 1) + ['0']
  }

  /** Decimal digits, with zeros in front up to a width. */
  function Padded(n: nat, width: nat): (text: string)
    ensures text != [] && forall i | 0 <= i < |text| :: IsDigit(text[i])
  {
    var digits := Digits(n);
    Zeros(if |digits| < width then width - |digits| else 0) + digits
  }

  function Pow10(n: nat): nat {
    if n == 0 then 1 else 10 * Pow10(n - 1)
  }

  /** The value of a text of digits alone. */
  function Number(text: string): Option<nat> {
    if text == [] then Some(0)
    else
      var c, front := text[|text| - 1], Number(text[..|text| - 1]);
      if front.Some? && IsDigit(c) then Some(front.value * 10 + DigitValue(c)) else None
  }

  /** The loop that reads a number inside a text. */
  method ReadNumber(text: string, at: nat, length: nat) returns (r: Option<nat>)
    requires at + length <= |text|
    ensures r == Number(text[at..at + length])
  {
    var value: nat := 0;
    for i := at to at + length
      invariant Number(text[at..i]) == Some(value)
    {
      assert text[at..i + 1][..i - at] == text[at..i];
      if !IsDigit(text[i]) {
        NotANumber(text[at..at + length], i - at);
        return None;
      }
      value := value * 10 + DigitValue(text[i]);
    }
    return Some(value);
  }

  lemma {:induction false} NotANumber(text: string, at: nat)
    requires at < |text| && !IsDigit(text[at])
    ensures Number(text) == None
  {
    if at < |text| - 1 {
      NotANumber(text[..|text| - 1], at);
    }
  }

  lemma {:induction false} DigitsRead(n: nat)
    ensures Number(Digits(n)) == Some(n)
  {
    if n >= 10 {
      DigitsRead(n / 10);
      assert Digits(n)[..|Digits(n)| - 1] == Digits(n / 10);
    } else {
      assert Number([DigitChar(n)]) == Some(n);
    }
  }

  lemma {:induction false} DigitsLength(n: nat, width: nat)
    requires width > 0
    ensures |Digits(n)| <= width <==> n < Pow10(width)
  {
    if n >= 10 {
      if width > 1 {
        DigitsLength(n / 10, width - 1);
      } else {
        assert Pow10(1) == 10;
      }
    } else {
      Pow10Grows(width);
    }
  }

  lemma {:induction false} Pow10Grows(width: nat)
    requires width > 0
    ensures Pow10(width) >= 10
  {
    if width > 1 {
      Pow10Grows(width - 1);
    }
  }

  lemma {:induction false} LeadingZeros(k: nat, text: string)
    ensures Number(Zeros(k) + text) == Number(text)
  {
    if text == [] {
      ZeroIs(k);
      assert Zeros(k) + text == Zeros(k);
    } else {
      assert (Zeros(k) + text)[..k + |text| - 1] == Zeros(k) + text[..|text| - 1];
      LeadingZeros(k, text[..|text| - 1]);
    }
  }

  lemma {:induction false} ZeroIs(k: nat)
    ensures Number(Zeros(k)) == Some(0)
  {
    if k > 0 {
      ZeroIs(k - 1);
      assert Zeros(k)[..k - 1] == Zeros(k - 1);
    }
  }

  /** A padded number reads back, and has its width exactly when it fits. */
  lemma PaddedReads(n: nat, width: nat)
    requires width > 0
    ensures Number(Padded(n, width)) == Some(n)
    ensures |Padded(n, width)| == width <==> n < Pow10(width)
    ensures |Padded(n, width)| >= width
  {
    DigitsLength(n, width);
    DigitsRead(n);
    LeadingZeros(if |Digits(n)| < width then width - |Digits(n)| else 0, Digits(n));
  }

  /** A text of digits is the only one of its width with its value. */
  lemma {:induction false} NumberTellsApart(x: string, y: string)
    requires |x| == |y| && Number(x).Some? && Number(x) == Number(y)
    ensures x == y
  {
    if x != [] {
      var i := |x| - 1;
      var a, b := Number(x[..i]).value, Number(y[..i]).value;
      var p, q := DigitValue(x[i]), DigitValue(y[i]);
      assert a * 10 + p == b * 10 + q;
      assert a == b && p == q;
      NumberTellsApart(x[..i], y[..i]);
      assert x == x[..i] + [x[i]] && y == y[..i] + [y[i]];
    }
  }

  lemma {:induction false} NumberBound(text: string)
    requires Number(text).Some?
    ensures Number(text).value < Pow10(|text|)
  {
    if text != [] {
      NumberBound(text[..|text| - 1]);
    }
  }

  lemma Pow10Small()
    ensures Pow10(2) == 100 && Pow10(4) == 10000
  {
    assert Pow10(1) == 10;
    assert Pow10(3) == 1000;
  }

  // ------------------------------------------------------------ the six fields

  datatype Stamp = Stamp(date: Date, hour: int, minute: int, second: int)

  const DAY: int := 86400

  function SecondsOf(stamp: Stamp): int {
    DaysFromCivil(stamp.date) * DAY + stamp.hour * 3600 + stamp.minute * 60 + stamp.second
  }

  function StampOf(seconds: int): Stamp {
    var days := Quotient(if seconds >= 0 then seconds else seconds - 86399, DAY);
    var rest := seconds - days * DAY;
    Stamp(CivilFromDays(days), rest / 3600, rest / 60 % 60, rest % 60)
  }

  /** A time of day on a date of the calendar; RFC 3339 allows a leap second, a clock does not show one. */
  predicate IsStamp(stamp: Stamp) {
    IsDate(stamp.date) && 0 <= stamp.hour < 24 && 0 <= stamp.minute < 60 && 0 <= stamp.second < 60
  }

  lemma DaysOfSeconds(seconds: int)
    ensures Quotient(if seconds >= 0 then seconds else seconds - 86399, DAY) == seconds / DAY
  {
  }

  /** Every second has its date and time of day, which stand for it alone. */
  lemma SecondsRoundTrip(seconds: int)
    ensures IsStamp(StampOf(seconds)) && SecondsOf(StampOf(seconds)) == seconds
  {
    hide DaysFromCivil, CivilFromDays, IsDate;
    DaysOfSeconds(seconds);
    DateOfDays(seconds / DAY);
    var rest := seconds % DAY;
    assert rest == rest / 3600 * 3600 + rest / 60 % 60 * 60 + rest % 60;
  }

  lemma StampRoundTrip(stamp: Stamp)
    requires IsStamp(stamp)
    ensures StampOf(SecondsOf(stamp)) == stamp
  {
    hide DaysFromCivil, CivilFromDays, IsDate;
    var seconds := SecondsOf(stamp);
    var rest := stamp.hour * 3600 + stamp.minute * 60 + stamp.second;
    DaysOfSeconds(seconds);
    assert seconds / DAY == DaysFromCivil(stamp.date) && seconds % DAY == rest;
    DaysOfDate(stamp.date);
    ClockParts(stamp.hour, stamp.minute, stamp.second);
  }

  lemma ClockParts(hour: int, minute: int, second: int)
    requires 0 <= hour < 24 && 0 <= minute < 60 && 0 <= second < 60
    ensures var rest := hour * 3600 + minute * 60 + second;
      rest / 3600 == hour && rest / 60 % 60 == minute && rest % 60 == second
  {
    assert (hour * 3600 + minute * 60 + second) / 60 == hour * 60 + minute;
  }

  // ------------------------------------------------------------ the text

  function Joined(y: string, m: string, d: string, h: string, n: string, s: string): string {
    y + "-" + m + "-" + d + "T" + h + ":" + n + ":" + s + "Z"
  }

  /** %04lld: the sign counts. */
  function YearText(year: int): string {
    if year >= 0 then Padded(year, 4) else "-" + Padded(-year, 3)
  }

  function StampText(stamp: Stamp): string
    requires IsStamp(stamp)
  {
    Joined(YearText(stamp.date.year), Padded(stamp.date.month, 2), Padded(stamp.date.day, 2),
           Padded(stamp.hour, 2), Padded(stamp.minute, 2), Padded(stamp.second, 2))
  }

  /** utc_text. */
  function UtcText(seconds: int): string {
    SecondsRoundTrip(seconds);
    StampText(StampOf(seconds))
  }

  predicate Punctuated(text: string) {
    && |text| == 20 && text[4] == '-' && text[7] == '-' && text[10] == 'T' && text[13] == ':' && text[16] == ':'
    && text[19] == 'Z'
  }

  /** The fields of a text, when they are numbers in the ranges the parser allows. */
  function Fields(text: string): Option<Stamp> {
    if !Punctuated(text) then None
    else
      var y, m, d := Number(text[0..4]), Number(text[5..7]), Number(text[8..10]);
      var h, n, s := Number(text[11..13]), Number(text[14..16]), Number(text[17..19]);
      if y.None? || m.None? || d.None? || h.None? || n.None? || s.None? then None
      else if m.value < 1 || m.value > 12 || d.value < 1 || d.value > 31 || h.value > 23 || n.value > 59 || s.value > 60
        then None
      else Some(Stamp(Date(y.value, m.value, d.value), h.value, n.value, s.value))
  }

  function ParsedUtc(text: string): Option<int> {
    var stamp := Fields(text);
    if stamp.None? then None else Some(SecondsOf(stamp.value))
  }

  /** parse_utc_text. */
  method ParseUtcText(text: string) returns (r: Option<int>)
    ensures r == ParsedUtc(text)
  {
    hide DaysFromCivil, Number;
    if !Punctuated(text) {
      return None;
    }
    var year := ReadNumber(text, 0, 4);
    var month := ReadNumber(text, 5, 2);
    var day := ReadNumber(text, 8, 2);
    var hour := ReadNumber(text, 11, 2);
    var minute := ReadNumber(text, 14, 2);
    var second := ReadNumber(text, 17, 2);
    if year.None? || month.None? || day.None? || hour.None? || minute.None? || second.None? {
      return None;
    }
    if month.value < 1 || month.value > 12 || day.value < 1 || day.value > 31 || hour.value > 23 || minute.value > 59
      || second.value > 60 {
      return None;
    }
    return Some(DaysFromCivil(Date(year.value, month.value, day.value)) * 86400 + hour.value * 3600 + minute.value * 60
      + second.value);
  }

  lemma JoinedParts(y: string, m: string, d: string, h: string, n: string, s: string)
    requires |m| == |d| == |h| == |n| == |s| == 2
    ensures var text := Joined(y, m, d, h, n, s);
      |text| == |y| + 16 && (|y| == 4 ==>
        Punctuated(text) && text[0..4] == y && text[5..7] == m && text[8..10] == d
        && text[11..13] == h && text[14..16] == n && text[17..19] == s)
  {
  }

  lemma JoinedWhole(text: string)
    requires Punctuated(text)
    ensures text == Joined(text[0..4], text[5..7], text[8..10], text[11..13], text[14..16], text[17..19])
  {
  }

  predicate YearFits(seconds: int) {
    0 <= StampOf(seconds).date.year <= 9999
  }

  lemma TwoDigits(n: nat)
    requires n < 100
    ensures |Padded(n, 2)| == 2 && Number(Padded(n, 2)) == Some(n)
  {
    Pow10Small();
    PaddedReads(n, 2);
  }

  /** Which numbers a text may have: the first refused above are month 13, day 32, hour 24,
      minute 60 and second 61, and below them month 0 and day 0; no day is refused for its month. */
  lemma NumbersAccepted(y: nat, m: nat, d: nat, h: nat, n: nat, s: nat)
    requires y < 10000 && m < 100 && d < 100 && h < 100 && n < 100 && s < 100
    ensures var text := Joined(Padded(y, 4), Padded(m, 2), Padded(d, 2), Padded(h, 2), Padded(n, 2), Padded(s, 2));
      && |text| == 20
      && (ParsedUtc(text).Some? <==> 0 < m < 13 && 0 < d < 32 && h < 24 && n < 60 && s < 61)
      && (ParsedUtc(text).Some? ==>
        ParsedUtc(text).value == DaysFromCivil(Date(y, m, d)) * 86400 + h * 3600 + n * 60 + s)
  {
    hide DaysFromCivil, Number, Padded, Joined;
    Pow10Small();
    PaddedReads(y, 4);
    TwoDigits(m);
    TwoDigits(d);
    TwoDigits(h);
    TwoDigits(n);
    TwoDigits(s);
    JoinedParts(Padded(y, 4), Padded(m, 2), Padded(d, 2), Padded(h, 2), Padded(n, 2), Padded(s, 2));
  }

  /** What is read back of a written time: all of it, exactly when its year has four digits. */
  lemma TextReadsBack(seconds: int)
    ensures ParsedUtc(UtcText(seconds)) == if YearFits(seconds) then Some(seconds) else None
  {
    hide DaysFromCivil, CivilFromDays, Number, Padded, StampOf, Joined, DaysInMonth, IsLeap;
    SecondsRoundTrip(seconds);
    var stamp := StampOf(seconds);
    DaysAtMost31(stamp.date);
    TwoDigits(stamp.date.month);
    TwoDigits(stamp.date.day);
    TwoDigits(stamp.hour);
    TwoDigits(stamp.minute);
    TwoDigits(stamp.second);
    YearReads(stamp.date.year);
    JoinedParts(YearText(stamp.date.year), Padded(stamp.date.month, 2), Padded(stamp.date.day, 2),
                Padded(stamp.hour, 2), Padded(stamp.minute, 2), Padded(stamp.second, 2));
  }

  lemma DaysAtMost31(date: Date)
    requires IsDate(date)
    ensures 1 <= date.month <= 12 && 1 <= date.day <= 31
  {
  }

  lemma YearReads(year: int)
    ensures 0 <= year <= 9999 ==> |YearText(year)| == 4 && Number(YearText(year)) == Some(year)
    ensures !(0 <= year <= 9999) && |YearText(year)| == 4 ==> Number(YearText(year)) == None
  {
    Pow10Small();
    if year >= 0 {
      PaddedReads(year, 4);
    } else {
      NotANumber(YearText(year), 0);
    }
  }

  /** A text the parser accepts is the text of its time exactly when its day exists in its
      month and its second is below 60: 2021-02-30 and second 60 are accepted as later times. */
  lemma AcceptedTexts(text: string)
    requires Fields(text).Some?
    ensures UtcText(ParsedUtc(text).value) == text <==> IsStamp(Fields(text).value)
  {
    hide DaysFromCivil, CivilFromDays, Number, Padded, StampOf, SecondsOf, Joined, DaysInMonth, IsLeap, YearText;
    var stamp := Fields(text).value;
    if IsStamp(stamp) {
      StampRoundTrip(stamp);
      SameText(text, stamp);
    } else if UtcText(ParsedUtc(text).value) == text {
      TextReadsBack(SecondsOf(stamp));
      SecondsRoundTrip(SecondsOf(stamp));
      TextFields(SecondsOf(stamp));
      assert false;
    }
  }

  lemma SameText(text: string, stamp: Stamp)
    requires Fields(text) == Some(stamp) && IsStamp(stamp)
    ensures StampText(stamp) == text
  {
    hide Number, Padded, Joined, DaysInMonth, IsLeap;
    DaysAtMost31(stamp.date);
    TwoDigits(stamp.date.month);
    TwoDigits(stamp.date.day);
    TwoDigits(stamp.hour);
    TwoDigits(stamp.minute);
    TwoDigits(stamp.second);
    NumberBound(text[0..4]);
    Pow10Small();
    YearReads(stamp.date.year);
    NumberTellsApart(text[0..4], YearText(stamp.date.year));
    NumberTellsApart(text[5..7], Padded(stamp.date.month, 2));
    NumberTellsApart(text[8..10], Padded(stamp.date.day, 2));
    NumberTellsApart(text[11..13], Padded(stamp.hour, 2));
    NumberTellsApart(text[14..16], Padded(stamp.minute, 2));
    NumberTellsApart(text[17..19], Padded(stamp.second, 2));
    JoinedWhole(text);
  }

  /** The fields of a written time, when they can be read, are its own. */
  lemma TextFields(seconds: int)
    ensures Fields(UtcText(seconds)).Some? ==> IsStamp(Fields(UtcText(seconds)).value)
  {
    hide DaysFromCivil, CivilFromDays, Number, Padded, StampOf, Joined, DaysInMonth, IsLeap;
    SecondsRoundTrip(seconds);
    var stamp := StampOf(seconds);
    DaysAtMost31(stamp.date);
    TwoDigits(stamp.date.month);
    TwoDigits(stamp.date.day);
    TwoDigits(stamp.hour);
    TwoDigits(stamp.minute);
    TwoDigits(stamp.second);
    YearReads(stamp.date.year);
    JoinedParts(YearText(stamp.date.year), Padded(stamp.date.month, 2), Padded(stamp.date.day, 2),
                Padded(stamp.hour, 2), Padded(stamp.minute, 2), Padded(stamp.second, 2));
  }

  lemma FieldsRead()
    ensures Number("2021") == Some(2021) && Number("02") == Some(2) && Number("30") == Some(30)
    ensures Number("01") == Some(1) && Number("00") == Some(0) && Number("60") == Some(60)
  {
    TwoRead("02");
    TwoRead("30");
    TwoRead("01");
    TwoRead("00");
    TwoRead("60");
    TwoRead("20");
    assert "2021"[..3] == "202" && "202"[..2] == "20";
  }

  lemma TwoRead(text: string)
    requires |text| == 2 && IsDigit(text[0]) && IsDigit(text[1])
    ensures Number(text) == Some(DigitValue(text[0]) * 10 + DigitValue(text[1]))
  {
    assert text[..1] == [text[0]] && text[..1][..0] == [];
    assert Number(text[..1]) == Some(DigitValue(text[0]));
  }

  /** Both kinds exist: a day its month does not have, and second 60, are read as a later
      time, whose text is another. */
  lemma LaterTimes()
    ensures var text := "2021-02-30T00:00:00Z";
      Fields(text) == Some(Stamp(Date(2021, 2, 30), 0, 0, 0)) && UtcText(ParsedUtc(text).value) != text
    ensures var text := "2021-01-01T00:00:60Z";
      Fields(text) == Some(Stamp(Date(2021, 1, 1), 0, 0, 60)) && UtcText(ParsedUtc(text).value) != text
  {
    hide Number, DaysFromCivil, CivilFromDays, UtcText;
    FieldsRead();
    var day, second := "2021-02-30T00:00:00Z", "2021-01-01T00:00:60Z";
    assert day[0..4] == "2021" && day[5..7] == "02" && day[8..10] == "30";
    assert day[11..13] == "00" && day[14..16] == "00" && day[17..19] == "00";
    assert second[0..4] == "2021" && second[5..7] == "01" && second[8..10] == "01";
    assert second[11..13] == "00" && second[14..16] == "00" && second[17..19] == "60";
    AcceptedTexts(day);
    AcceptedTexts(second);
  }
}
