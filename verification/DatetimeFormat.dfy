/** The SQL text of a datetime, described apart from the functions that print it, and what unreadable texts do. */
module DatetimeFormat {
  import opened Datetime

  function DigitValue(c: char): nat {
    if IsDigit(c) then (c - '0') as nat else 0
  }

  /** The value of a string of digits, by place. */
  function Value(text: string): nat {
    if text == "" then 0 else 10 * Value(text[..|text| - 1]) + DigitValue(text[|text| - 1])
  }

  /** The digits of `n`, with no zero in front. */
  predicate IsDecimal(text: string, n: nat) {
    && text != "" && (forall i :: 0 <= i < |text| ==> IsDigit(text[i]))
    && (|text| > 1 ==> text[0] != '0')
    && Value(text) == n
  }

  predicate IsNumeral(text: string, n: int) {
    if n < 0 then text != "" && text[0] == '-' && IsDecimal(text[1..], -n) else IsDecimal(text, n)
  }

  /** At least two characters, a single digit having a zero put before it. */
  predicate IsPadded(text: string, n: int) {
    if 0 <= n < 10 then |text| == 2 && text[0] == '0' && IsNumeral(text[1..], n) else IsNumeral(text, n)
  }

  ghost predicate IsDateText(text: string, d: Fields) {
    exists year, month, day ::
      IsNumeral(year, d.year) && IsPadded(month, d.month) && IsNumeral(day, d.day) &&
      text == year + "-" + month + "-" + day
  }

  /** A number without its fraction. */
  predicate IsWhole(x: real, n: int) {
    if x >= 0.0 then n as real <= x < n as real + 1.0 else n as real - 1.0 < x <= n as real
  }

  ghost predicate IsTimeText(text: string, d: Fields) {
    exists hour, minute, sec, whole ::
      IsPadded(hour, d.hour) && IsNumeral(minute, d.minute) && IsWhole(d.sec, whole) && IsNumeral(sec, whole) &&
      text == hour + ":" + minute + ":" + sec
  }

  /** `Y-MM-D HH:M:S`, or the one part there is. */
  ghost predicate Formatted(text: string, d: Fields) {
    if d.withDate && d.withTime then
      exists date, time :: IsDateText(date, d) && IsTimeText(time, d) && text == date + " " + time
    else if d.withDate then IsDateText(text, d)
    else if d.withTime then IsTimeText(text, d)
    else text == ""
  }

  // ---------------------------------------------------------------- numerals

  lemma DigitHasValue(d: nat)
    requires d < 10
    ensures IsDigit(Digit(d)) && DigitValue(Digit(d)) == d && (Digit(d) == '0' <==> d == 0)
  {
  }

  lemma {:induction false} DigitsAreDecimal(n: nat)
    ensures IsDecimal(Digits(n), n) && (Digits(n)[0] == '0' <==> n == 0)
  {
    DigitHasValue(n % 10);
    if n < 10 {
      assert Value("") == 0 && Digits(n)[..0] == "";
    } else {
      DigitsAreDecimal(n / 10);
      assert Digits(n)[..|Digits(n)| - 1] == Digits(n / 10);
    }
  }

  /** A number has one decimal text. */
  lemma {:induction false} DecimalIsDigits(text: string, n: nat)
    requires IsDecimal(text, n)
    ensures text == Digits(n)
  {
    var last := text[|text| - 1];
    if |text| == 1 {
      assert Value(text[..0]) == 0;
    } else {
      var front := text[..|text| - 1];
      assert n == 10 * Value(front) + DigitValue(last);
      FrontIsPositive(front);
      DecimalIsDigits(front, n / 10);
    }
  }

  lemma {:induction false} FrontIsPositive(text: string)
    requires text != "" && text[0] != '0' && forall i :: 0 <= i < |text| ==> IsDigit(text[i])
    ensures Value(text) > 0
  {
    if |text| > 1 {
      FrontIsPositive(text[..|text| - 1]);
    }
  }

  lemma NumeralIsPrinted(text: string, n: int)
    ensures IsNumeral(text, n) <==> text == Print(n)
  {
    var m: nat := if n < 0 then -n else n;
    DigitsAreDecimal(m);
    if IsNumeral(text, n) {
      DecimalIsDigits(if n < 0 then text[1..] else text, m);
    }
    if n < 0 {
      assert Print(n)[1..] == Digits(m);
    }
  }

  lemma PaddedIsPrinted(text: string, n: int)
    ensures IsPadded(text, n) <==> text == PrintPadded(n)
  {
    NumeralIsPrinted(text, n);
    DigitsAreDecimal(if n < 0 then -n else n);
    if 0 <= n < 10 {
      assert |Print(n)| == 1;
      assert PrintPadded(n)[1..] == Print(n);
      if |text| == 2 {
        NumeralIsPrinted(text[1..], n);
        assert text == [text[0]] + text[1..];
      }
    } else {
      TwoWide(n);
    }
  }

  lemma TwoWide(n: int)
    requires n < 0 || n >= 10
    ensures |Print(n)| >= 2
  {
    if n < 0 {
      DigitsAreDecimal(-n);
    } else {
      DigitsAreDecimal(n / 10);
    }
  }

  // ---------------------------------------------------------------- the text

  lemma DateTextIsExact(text: string, d: Fields)
    ensures IsDateText(text, d) <==> text == DateText(d)
  {
    NumeralIsPrinted(Print(d.year), d.year);
    PaddedIsPrinted(PrintPadded(d.month), d.month);
    NumeralIsPrinted(Print(d.day), d.day);
    if IsDateText(text, d) {
      var year, month, day :| IsNumeral(year, d.year) && IsPadded(month, d.month) && IsNumeral(day, d.day) &&
                              text == year + "-" + month + "-" + day;
      NumeralIsPrinted(year, d.year);
      PaddedIsPrinted(month, d.month);
      NumeralIsPrinted(day, d.day);
    }
  }

  /** The seconds are cut off towards zero. */
  lemma WholeIsTruncated(x: real, n: int)
    ensures IsWhole(x, n) <==> n == Truncated(x)
  {
    var t := Truncated(x);
    if x >= 0.0 {
      assert t as real <= x < t as real + 1.0;
      assert n > t ==> n as real >= (t + 1) as real;
      assert n < t ==> t as real >= (n + 1) as real;
    } else {
      assert t as real - 1.0 < x <= t as real;
      assert n > t ==> n as real >= (t + 1) as real;
      assert n < t ==> t as real >= (n + 1) as real;
    }
  }

  lemma TimeTextIsExact(text: string, d: Fields)
    ensures IsTimeText(text, d) <==> text == TimeText(d)
  {
    PaddedIsPrinted(PrintPadded(d.hour), d.hour);
    NumeralIsPrinted(Print(d.minute), d.minute);
    WholeIsTruncated(d.sec, Truncated(d.sec));
    NumeralIsPrinted(Print(Truncated(d.sec)), Truncated(d.sec));
    if IsTimeText(text, d) {
      var hour, minute, sec, whole :|
        IsPadded(hour, d.hour) && IsNumeral(minute, d.minute) && IsWhole(d.sec, whole) && IsNumeral(sec, whole) &&
        text == hour + ":" + minute + ":" + sec;
      WholeIsTruncated(d.sec, whole);
      PaddedIsPrinted(hour, d.hour);
      NumeralIsPrinted(minute, d.minute);
      NumeralIsPrinted(sec, whole);
    }
  }

  lemma BothPartsAreExact(text: string, d: Fields)
    requires d.withDate && d.withTime
    ensures Formatted(text, d) <==> text == DateText(d) + " " + TimeText(d)
  {
    DateTextIsExact(DateText(d), d);
    TimeTextIsExact(TimeText(d), d);
    if Formatted(text, d) {
      var date, time :| IsDateText(date, d) && IsTimeText(time, d) && text == date + " " + time;
      DateTextIsExact(date, d);
      TimeTextIsExact(time, d);
    }
  }

  /** What is printed has the format, and nothing else has it. */
  lemma FormatIsExact(text: string, d: Fields)
    ensures Formatted(text, d) <==> text == ToSql(d)
  {
    if d.withDate && d.withTime {
      BothPartsAreExact(text, d);
    } else {
      DateTextIsExact(text, d);
      TimeTextIsExact(text, d);
      assert DateText(d) + "" == DateText(d) == DateText(d) + "" + "";
      assert "" + TimeText(d) == TimeText(d);
    }
  }

  // ---------------------------------------------------------------- separators

  function Signs(n: int): nat {
    if n < 0 then 1 else 0
  }

  function Count(text: string, c: char): nat {
    multiset(text)[c]
  }

  lemma CountOfParts(a: string, b: string, c: char)
    ensures Count(a + b, c) == Count(a, c) + Count(b, c)
  {
  }

  lemma PrintCount(n: int, c: char)
    requires !IsDigit(c)
    ensures Count(Print(n), c) == Count(PrintPadded(n), c) == if c == '-' then Signs(n) else 0
  {
    var m: nat := if n < 0 then -n else n;
    DigitsAreDigits(m);
    assert c !in Digits(m);
    CountOfParts("-", Digits(m), c);
    CountOfParts("0", Print(n), c);
  }

  lemma CountOfThree(x: string, y: string, z: string, separator: string, c: char)
    ensures Count(x + separator + y + separator + z, c)
         == Count(x, c) + Count(y, c) + Count(z, c) + 2 * Count(separator, c)
  {
    CountOfParts(x, separator, c);
    CountOfParts(x + separator, y, c);
    CountOfParts(x + separator + y, separator, c);
    CountOfParts(x + separator + y + separator, z, c);
  }

  function DateSigns(d: Fields): nat {
    Signs(d.year) + Signs(d.month) + Signs(d.day)
  }

  function TimeSigns(d: Fields): nat {
    Signs(d.hour) + Signs(d.minute) + Signs(Truncated(d.sec))
  }

  lemma DateCount(d: Fields, c: char)
    requires !IsDigit(c)
    ensures Count(DateText(d), c) == if c == '-' then 2 + DateSigns(d) else 0
  {
    PrintCount(d.year, c);
    PrintCount(d.month, c);
    PrintCount(d.day, c);
    CountOfThree(Print(d.year), PrintPadded(d.month), Print(d.day), "-", c);
  }

  lemma TimeCount(d: Fields, c: char)
    requires !IsDigit(c)
    ensures Count(TimeText(d), c) == if c == ':' then 2 else if c == '-' then TimeSigns(d) else 0
  {
    PrintCount(d.hour, c);
    PrintCount(d.minute, c);
    PrintCount(Truncated(d.sec), c);
    CountOfThree(PrintPadded(d.hour), Print(d.minute), Print(Truncated(d.sec)), ":", c);
  }

  lemma CountOfText(d: Fields, c: char)
    ensures Count(ToSql(d), c) ==
      (if d.withDate then Count(DateText(d), c) else 0) +
      (if d.withTime then Count(TimeText(d), c) else 0) +
      (if d.withDate && d.withTime then Count(" ", c) else 0)
  {
    var blank := if d.withTime then " " else "";
    CountOfParts(DateText(d), blank, c);
    CountOfParts(if d.withDate then DateText(d) + blank else "", if d.withTime then TimeText(d) else "", c);
  }

  /** How many there are to be of a character that is no digit. */
  function Separators(d: Fields, c: char): nat {
    if c == ':' then if d.withTime then 2 else 0
    else if c == ' ' then if d.withDate && d.withTime then 1 else 0
    else if c == '-' then (if d.withDate then 2 + DateSigns(d) else 0) + if d.withTime then TimeSigns(d) else 0
    else 0
  }

  lemma SeparatorsAddUp(d: Fields, c: char, date: nat, time: nat, blank: nat)
    requires date == if c == '-' then 2 + DateSigns(d) else 0
    requires time == if c == ':' then 2 else if c == '-' then TimeSigns(d) else 0
    requires blank == if c == ' ' then 1 else 0
    ensures (if d.withDate then date else 0) + (if d.withTime then time else 0) +
            (if d.withDate && d.withTime then blank else 0) == Separators(d, c)
  {
  }

  /** Two colons in a time, two dashes in a date beside the signs, one blank between the two, and for the
      rest nothing but digits. */
  lemma SeparatorsOfText(d: Fields, c: char)
    requires !IsDigit(c)
    ensures Count(ToSql(d), c) == Separators(d, c)
  {
    CountOfText(d, c);
    DateCount(d, c);
    TimeCount(d, c);
    SeparatorsAddUp(d, c, Count(DateText(d), c), Count(TimeText(d), c), Count(" ", c));
  }

  // ---------------------------------------------------------------- texts that cannot be read

  /** A year that is no 32-bit number becomes the nearest limit, and the other fields stay as they were. */
  lemma YearOutOfRange(n: int, rest: string, e: Fields)
    requires n > 2147483647 || n < -2147483648
    ensures FromSql(Print(n) + ("-" + rest), e)
         == e.(withDate := true, withTime := ':' in rest, year := if n > 0 then 2147483647 else -2147483648)
  {
    var text := Print(n) + ("-" + rest);
    ReadPrinted(n, "-" + rest);
    DigitsAreDigits(if n < 0 then -n else n);
    assert text[|Print(n)|] == '-';
    assert ':' in text <==> ':' in rest by {
      assert ':' !in Print(n);
      assert text[|Print(n)| + 1..] == rest;
    }
  }

  /** The characters with the codes 9 to 13 and 32, and no others, are skipped in front of a number. */
  lemma OnlySpaceIsSkipped(c: char, text: string)
    requires !IsDigit(c) && c != '-' && c != '+'
    ensures ReadNumber(Stream([c] + text, false, false)) ==
      if c == ' ' || 9 <= c as int <= 13 then ReadNumber(Stream(text, false, false))
      else (Stream([c] + text, false, true), Failed)
  {
    assert ([c] + text)[1..] == text;
  }

  /** A plus sign is read like none. */
  lemma PlusIsNoSign(n: nat, tail: string)
    requires Stops(tail)
    ensures ReadNumber(Stream("+" + (Digits(n) + tail), false, false))
         == ReadNumber(Stream(Digits(n) + tail, false, false)) == (Stream(tail, tail == "", false), Parsed(n))
  {
    ReadDigits(n, tail);
    assert ("+" + (Digits(n) + tail))[1..] == Digits(n) + tail;
  }

  /** A text that begins with no number leaves zero in the year, and the other fields as they were. */
  lemma NoNumberInFront(text: string, e: Fields)
    requires '-' in text && !IsSpace(text[0]) && !IsDigit(text[0]) && text[0] != '+'
    requires text[0] == '-' ==> |text| == 1 || !IsDigit(text[1])
    ensures FromSql(text, e) == e.(withDate := true, withTime := ':' in text, year := 0)
  {
    assert SkipSpace(text) == text;
  }

  /** A text that ends early fills the fields it has. */
  lemma YearOnly(n: int, e: Fields)
    requires IsInt(n)
    ensures FromSql(Print(n) + "-", e) == e.(withDate := true, withTime := false, year := n)
  {
    var text := Print(n) + "-";
    ReadPrinted(n, "-");
    DigitsAreDigits(if n < 0 then -n else n);
    assert text[|Print(n)|] == '-';
    assert ':' !in text;
  }

  /** Seconds that are no number become zero. */
  lemma NoSeconds(hour: nat, minute: nat, text: string, e: Fields)
    requires IsInt(hour) && IsInt(minute) && '-' !in text
    requires text != "" && !IsSpace(text[0]) && !IsDigit(text[0]) && text[0] != '+'
    ensures FromSql(Print(hour) + (":" + (Print(minute) + (":" + text))), e)
         == e.(withDate := false, withTime := true, hour := hour, minute := minute, sec := 0.0)
  {
    var t1 := Print(minute) + (":" + text);
    var sql := Print(hour) + (":" + t1);
    ReadPrinted(hour, ":" + t1);
    FieldRead(sql, hour, ':', t1, e.hour);
    ReadPrinted(minute, ":" + text);
    FieldRead(t1, minute, ':', text, e.minute);
    DigitsAreDigits(hour);
    DigitsAreDigits(minute);
    assert sql[|Print(hour)|] == ':';
    assert '-' !in t1;
    assert '-' !in sql;
    assert SkipSpace(text) == text;
  }
}
