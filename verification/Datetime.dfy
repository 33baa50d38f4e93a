/**
 Printing a datetime to SQL and reading it back. Fields are 32-bit integers but for the seconds, which are
 printed without their fraction; the stream operators are the standard library's, with their end-of-file
 and failure bits.
 */
module Datetime {
  const INT_MAX: int := 0x7FFF_FFFF
  const INT_MIN: int := -0x8000_0000

  datatype Fields = Fields(
    year: int, month: int, day: int, hour: int, minute: int, sec: real,
    withDate: bool, withTime: bool)

  predicate IsInt(n: int) {
    INT_MIN <= n <= INT_MAX
  }

  /** `(int)sec` */
  function Truncated(x: real): int {
    if x >= 0.0 then x.Floor else -(-x).Floor
  }

  lemma TruncatedSign(x: real)
    ensures Truncated(x) >= 0 <==> x > -1.0
  {
  }

  predicate AreInts(d: Fields) {
    IsInt(d.year) && IsInt(d.month) && IsInt(d.day) && IsInt(d.hour) && IsInt(d.minute) && IsInt(Truncated(d.sec))
  }

  // ---------------------------------------------------------------- printing

  function Digit(d: nat): char
    requires d < 10
  {
    "0123456789"[d]
  }

  function Digits(n: nat): string {
    if n < 10 then [Digit(n)] else Digits(n / 10) + [Digit(n % 10)]
  }

  function Print(n: int): string {
    if n < 0 then "-" + Digits(-n) else Digits(n)
  }

  /** `setfill('0')` and `setw(2)`, which hold for the next field only. */
  function PrintPadded(n: int): string {
    if |Print(n)| < 2 then "0" + Print(n) else Print(n)
  }

  function DateText(d: Fields): string {
    Print(d.year) + "-" + PrintPadded(d.month) + "-" + Print(d.day)
  }

  function TimeText(d: Fields): string {
    PrintPadded(d.hour) + ":" + Print(d.minute) + ":" + Print(Truncated(d.sec))
  }

  function ToSql(d: Fields): string {
    (if d.withDate then DateText(d) + if d.withTime then " " else "" else "") +
    (if d.withTime then TimeText(d) else "")
  }

  // ---------------------------------------------------------------- reading

  datatype Stream = Stream(rest: string, eof: bool, fail: bool)

  predicate IsDigit(c: char) {
    '0' <= c <= '9'
  }

  predicate IsSpace(c: char) {
    c == ' ' || '\t' <= c <= '\r'
  }

  function SkipSpace(s: string): string {
    if s != "" && IsSpace(s[0]) then SkipSpace(s[1..]) else s
  }

  /** The number that the leading digits make when they follow `acc`, and what comes after them. */
  function Scan(s: string, acc: nat): (nat, string) {
    if s != "" && IsDigit(s[0]) then Scan(s[1..], 10 * acc + (s[0] - '0') as nat) else (acc, s)
  }

  datatype Number = Untouched | Failed | Parsed(n: int)

  /** The number that `stream >> field` finds: none if the stream is at its end or has failed, a failure if
      there are no digits after white space and a sign. */
  function ReadNumber(st: Stream): (Stream, Number) {
    if st.eof || st.fail then (st.(fail := true), Untouched)
    else
      var s := SkipSpace(st.rest);
      if s == "" then (Stream("", true, true), Untouched)
      else
        var t := if s[0] == '-' || s[0] == '+' then s[1..] else s;
        if t == "" || !IsDigit(t[0]) then (Stream(t, t == "", true), Failed)
        else
          var (v, rest) := Scan(t, 0);
          (Stream(rest, rest == "", false), Parsed(if s[0] == '-' then 0 - v else v))
  }

  /** Into an `int` that was `was`: a failure stores zero, a number out of range the nearest limit. */
  function Read(st: Stream, was: int): (Stream, int) {
    var (t, number) := ReadNumber(st);
    match number
    case Untouched => (t, was)
    case Failed => (t, 0)
    case Parsed(n) =>
      if n > INT_MAX then (t.(fail := true), INT_MAX)
      else if n < INT_MIN then (t.(fail := true), INT_MIN)
      else (t, n)
  }

  /** Into the seconds, from a text without a fraction. */
  function ReadSeconds(st: Stream, was: real): (Stream, real) {
    var (t, number) := ReadNumber(st);
    match number
    case Untouched => (t, was)
    case Failed => (t, 0.0)
    case Parsed(n) => (t, n as real)
  }

  /** `stream.ignore()` */
  function Ignore(st: Stream): Stream {
    if st.eof || st.fail then st.(fail := true)
    else if st.rest == "" then st.(eof := true)
    else st.(rest := st.rest[1..])
  }

  function ReadDate(st: Stream, d: Fields): (Stream, Fields) {
    var (s1, year) := Read(st, d.year);
    var (s2, month) := Read(Ignore(s1), d.month);
    var (s3, day) := Read(Ignore(s2), d.day);
    (Ignore(s3), d.(year := year, month := month, day := day))
  }

  function ReadTime(st: Stream, d: Fields): (Stream, Fields) {
    var (s1, hour) := Read(st, d.hour);
    var (s2, minute) := Read(Ignore(s1), d.minute);
    var (s3, sec) := ReadSeconds(Ignore(s2), d.sec);
    (s3, d.(hour := hour, minute := minute, sec := sec))
  }

  /** Reads into `d`; the fields of a part that is missing from the text stay as they were. */
  function FromSql(sql: string, d: Fields): Fields {
    var f := d.(withDate := '-' in sql, withTime := ':' in sql);
    var (st, g) := if f.withDate then ReadDate(Stream(sql, false, false), f) else (Stream(sql, false, false), f);
    if f.withTime then ReadTime(st, g).1 else g
  }

  // ---------------------------------------------------------------- what is printed can be read

  lemma {:induction false} DigitsAreDigits(n: nat)
    ensures Digits(n) != "" && forall c :: c in Digits(n) ==> IsDigit(c)
  {
    if n >= 10 {
      DigitsAreDigits(n / 10);
    }
  }

  lemma {:induction false} ScanDigits(n: nat, tail: string)
    ensures Scan(Digits(n) + tail, 0) == Scan(tail, n)
  {
    var last := [Digit(n % 10)];
    if n < 10 {
      assert (Digits(n) + tail)[1..] == tail;
    } else {
      assert Digits(n) + tail == Digits(n / 10) + (last + tail);
      ScanDigits(n / 10, last + tail);
      assert (last + tail)[1..] == tail;
    }
  }

  /** A text at which reading a number stops. */
  predicate Stops(tail: string) {
    tail == "" || !IsDigit(tail[0])
  }

  /** With the sign gone, reading is scanning the digits. */
  lemma ReadDigits(m: nat, tail: string)
    requires Stops(tail)
    ensures var t := Digits(m) + tail; t != "" && IsDigit(t[0]) && Scan(t, 0) == (m, tail)
  {
    DigitsAreDigits(m);
    ScanDigits(m, tail);
    assert (Digits(m) + tail)[0] == Digits(m)[0] && Digits(m)[0] in Digits(m);
  }

  /** A text that begins with a digit, or with a minus sign and a digit. */
  lemma ReadText(text: string, m: nat, tail: string)
    requires text != "" && (text[0] == '-' || IsDigit(text[0]))
    requires var t := if text[0] == '-' then text[1..] else text;
      t != "" && IsDigit(t[0]) && Scan(t, 0) == (m, tail)
    ensures ReadNumber(Stream(text, false, false))
         == (Stream(tail, tail == "", false), Parsed(if text[0] == '-' then 0 - m else m))
  {
    assert SkipSpace(text) == text;
  }

  lemma ReadPrinted(n: int, tail: string)
    requires Stops(tail)
    ensures ReadNumber(Stream(Print(n) + tail, false, false)) == (Stream(tail, tail == "", false), Parsed(n))
  {
    var m: nat := if n < 0 then -n else n;
    var digits := Digits(m) + tail;
    ReadDigits(m, tail);
    var text := Print(n) + tail;
    if n < 0 {
      assert text == "-" + digits;
      assert text[1..] == digits;
    }
    ReadText(text, m, tail);
  }

  lemma ReadPrintedPadded(n: int, tail: string)
    requires Stops(tail)
    ensures ReadNumber(Stream(PrintPadded(n) + tail, false, false)) == (Stream(tail, tail == "", false), Parsed(n))
  {
    ReadPrinted(n, tail);
    if |Print(n)| < 2 {
      DigitsAreDigits(n);
      ScanDigits(n, tail);
      assert PrintPadded(n) + tail == "0" + (Digits(n) + tail);
      assert (PrintPadded(n) + tail)[1..] == Digits(n) + tail;
    }
  }

  /** One number of a date or time, and the separator behind it. */
  lemma FieldRead(text: string, n: int, separator: char, rest: string, was: int)
    requires IsInt(n)
    requires ReadNumber(Stream(text, false, false)) == (Stream([separator] + rest, false, false), Parsed(n))
    ensures var (st, value) := Read(Stream(text, false, false), was);
      value == n && Ignore(st) == Stream(rest, false, false)
  {
  }

  /** The last number of a date, with or without something behind it. */
  lemma LastFieldRead(text: string, n: int, tail: string, was: int)
    requires IsInt(n) && ReadNumber(Stream(text, false, false)) == (Stream(tail, tail == "", false), Parsed(n))
    ensures var (st, value) := Read(Stream(text, false, false), was);
      value == n && (tail != "" ==> Ignore(st) == Stream(tail[1..], false, false))
  {
  }

  /** A date from texts that each begin with one of its numbers. */
  lemma ReadDateFrom(text: string, t1: string, t2: string, d: Fields, tail: string, e: Fields)
    requires AreInts(d)
    requires ReadNumber(Stream(text, false, false)) == (Stream(['-'] + t1, false, false), Parsed(d.year))
    requires ReadNumber(Stream(t1, false, false)) == (Stream(['-'] + t2, false, false), Parsed(d.month))
    requires ReadNumber(Stream(t2, false, false)) == (Stream(tail, tail == "", false), Parsed(d.day))
    ensures var (st, f) := ReadDate(Stream(text, false, false), e);
      && f == e.(year := d.year, month := d.month, day := d.day)
      && (tail != "" ==> st == Stream(tail[1..], false, false))
  {
    FieldRead(text, d.year, '-', t1, e.year);
    FieldRead(t1, d.month, '-', t2, e.month);
    LastFieldRead(t2, d.day, tail, e.day);
  }

  lemma Regroup(a: string, separator: string, b: string, c: string, tail: string)
    ensures (a + separator + b + separator + c) + tail == a + (separator + (b + (separator + (c + tail))))
  {
  }

  lemma ReadDateText(d: Fields, tail: string, e: Fields)
    requires AreInts(d) && Stops(tail)
    ensures var (st, f) := ReadDate(Stream(DateText(d) + tail, false, false), e);
      && f == e.(year := d.year, month := d.month, day := d.day)
      && (tail != "" ==> st == Stream(tail[1..], false, false))
  {
    var t2 := Print(d.day) + tail;
    var t1 := PrintPadded(d.month) + ("-" + t2);
    Regroup(Print(d.year), "-", PrintPadded(d.month), Print(d.day), tail);
    ReadPrinted(d.year, "-" + t1);
    ReadPrintedPadded(d.month, "-" + t2);
    ReadPrinted(d.day, tail);
    ReadDateFrom(DateText(d) + tail, t1, t2, d, tail, e);
  }

  lemma ReadTimeText(d: Fields, e: Fields)
    requires AreInts(d)
    ensures ReadTime(Stream(TimeText(d), false, false), e).1
         == e.(hour := d.hour, minute := d.minute, sec := Truncated(d.sec) as real)
  {
    var t2 := Print(Truncated(d.sec)) + "";
    var t1 := Print(d.minute) + (":" + t2);
    var text := PrintPadded(d.hour) + (":" + t1);
    assert TimeText(d) == text;
    ReadPrintedPadded(d.hour, ":" + t1);
    FieldRead(text, d.hour, ':', t1, e.hour);
    ReadPrinted(d.minute, ":" + t2);
    FieldRead(t1, d.minute, ':', t2, e.minute);
    ReadPrinted(Truncated(d.sec), "");
  }

  lemma PrintHas(n: int)
    ensures '-' in Print(n) <==> n < 0
    ensures ':' !in Print(n)
    ensures '-' in PrintPadded(n) <==> n < 0
    ensures ':' !in PrintPadded(n)
  {
    DigitsAreDigits(if n < 0 then -n else n);
    if n < 0 {
      assert Print(n)[0] == '-';
      assert |Print(n)| >= 2;
    } else if |Print(n)| < 2 {
      assert forall c :: c in PrintPadded(n) ==> c == '0' || c in Print(n);
    }
  }

  /** What tells the reader which parts there are. */
  lemma TextHas(d: Fields)
    ensures ':' in ToSql(d) <==> d.withTime
    ensures '-' in ToSql(d) <==> d.withDate || (d.withTime && (d.hour < 0 || d.minute < 0 || Truncated(d.sec) < 0))
  {
    PrintHas(d.year);
    PrintHas(d.month);
    PrintHas(d.day);
    PrintHas(d.hour);
    PrintHas(d.minute);
    PrintHas(Truncated(d.sec));
    var date, time := DateText(d), TimeText(d);
    assert '-' in date by {
      assert date[|Print(d.year)|] == '-';
    }
    assert ':' in time by {
      assert time[|PrintPadded(d.hour)|] == ':';
    }
    assert ':' !in date;
    assert '-' in time <==> d.hour < 0 || d.minute < 0 || Truncated(d.sec) < 0;
  }

  /** The flags and every printed field are as they were, the seconds without their fraction. */
  predicate Restored(d: Fields, e: Fields) {
    && e.withDate == d.withDate && e.withTime == d.withTime
    && (d.withDate ==> e.year == d.year && e.month == d.month && e.day == d.day)
    && (d.withTime ==> e.hour == d.hour && e.minute == d.minute && e.sec == Truncated(d.sec) as real)
  }

  lemma BothParts(date: string, time: string)
    ensures (date + " ") + time == date + (" " + time)
    ensures (" " + time)[1..] == time
  {
  }

  /** With both parts in the text, the time is read from where reading the date stopped. */
  lemma BothAreRead(sql: string, e: Fields)
    requires '-' in sql && ':' in sql
    ensures var (st, f) := ReadDate(Stream(sql, false, false), e.(withDate := true, withTime := true));
      FromSql(sql, e) == ReadTime(st, f).1
  {
  }

  lemma BothRoundTrip(d: Fields, e: Fields)
    requires AreInts(d) && d.withDate && d.withTime
    ensures Restored(d, FromSql(ToSql(d), e))
  {
    TextHas(d);
    BothAreRead(ToSql(d), e);
    BothParts(DateText(d), TimeText(d));
    var f := e.(withDate := true, withTime := true);
    ReadDateText(d, " " + TimeText(d), f);
    ReadTimeText(d, f.(year := d.year, month := d.month, day := d.day));
  }

  lemma DateRoundTrips(d: Fields, e: Fields)
    requires AreInts(d) && d.withDate && !d.withTime
    ensures Restored(d, FromSql(ToSql(d), e))
  {
    TextHas(d);
    assert ToSql(d) == DateText(d) == DateText(d) + "";
    ReadDateText(d, "", e.(withDate := true, withTime := false));
  }

  lemma TimeRoundTrips(d: Fields, e: Fields)
    requires AreInts(d) && !d.withDate && d.withTime && d.hour >= 0 && d.minute >= 0 && d.sec > -1.0
    ensures Restored(d, FromSql(ToSql(d), e))
  {
    TextHas(d);
    TruncatedSign(d.sec);
    assert ToSql(d) == TimeText(d);
    ReadTimeText(d, e.(withDate := false, withTime := true));
  }

  lemma FlagsAreRead(sql: string, e: Fields)
    ensures FromSql(sql, e).withDate == ('-' in sql) && FromSql(sql, e).withTime == (':' in sql)
  {
  }

  /** Printing and reading back restores a datetime, exactly unless it is a time without a date that
      prints a negative field: its sign is then taken for a date. */
  lemma RoundTrip(d: Fields, e: Fields)
    requires AreInts(d)
    ensures Restored(d, FromSql(ToSql(d), e))
       <==> d.withDate || !d.withTime || (d.hour >= 0 && d.minute >= 0 && d.sec > -1.0)
  {
    TextHas(d);
    TruncatedSign(d.sec);
    FlagsAreRead(ToSql(d), e);
    if d.withDate {
      if d.withTime {
        BothRoundTrip(d, e);
      } else {
        DateRoundTrips(d, e);
      }
    } else if d.withTime && d.hour >= 0 && d.minute >= 0 && d.sec > -1.0 {
      TimeRoundTrips(d, e);
    }
  }
}
