/**
 * The two time-string grammars the task configuration accepts
 * (schedule_manager/manager.py, the patterns at lines 453, 494-496, 577, 624):
 *
 *   clock text       H:M:S          hour `[0-1]?\d|2[0-3]`, minute and second `[0-5]?\d`
 *   date-clock text  MO-DA H:M:S    month `0?\d|1[0-2]`, day `[0-2]?\d|3[0-1]`
 *
 * Each field is one or two ASCII digits and no field contains a separator, so
 * a full match of a pattern is the same as: split at the separators into
 * exactly the right number of pieces, each piece matching its field.  Values
 * are read as Python's `int()` reads a digit string.
 */
module TimeText {

  import opened Wrappers

  /** The `[h, m, s]` list a parsed clock text becomes. */
  datatype Clock = Clock(hour: int, minute: int, second: int)

  /** A parsed date-clock text: month, day and clock. */
  datatype DateClock = DateClock(month: int, day: int, clock: Clock)

  predicate ValidClock(c: Clock) {
    0 <= c.hour < 24 && 0 <= c.minute < 60 && 0 <= c.second < 60
  }

  /** The second of the day a clock names (`timedelta(hours=h, minutes=m, seconds=s)`). */
  function ClockSeconds(c: Clock): int {
    c.hour * 3600 + c.minute * 60 + c.second
  }

  predicate IsDigit(ch: char) {
    '0' <= ch <= '9'
  }

  function DigitValue(ch: char): int {
    ch as int - '0' as int
  }

  /** `int(p)` for a digit string. */
  function Value(p: string): int
    requires forall i :: 0 <= i < |p| ==> IsDigit(p[i])
  {
    if p == [] then 0 else Value(p[..|p| - 1]) * 10 + DigitValue(p[|p| - 1])
  }

  /** `str.split(sep)`: the pieces between separators; never empty. */
  function Split(s: string, sep: char): (parts: seq<string>)
    ensures |parts| >= 1
  {
    if s == [] then [[]]
    else
      var rest := Split(s[1..], sep);
      if s[0] == sep then [[]] + rest else [[s[0]] + rest[0]] + rest[1..]
  }

  predicate HourField(p: string) {
    || (|p| == 1 && IsDigit(p[0]))
    || (|p| == 2 && '0' <= p[0] <= '1' && IsDigit(p[1]))
    || (|p| == 2 && p[0] == '2' && '0' <= p[1] <= '3')
  }

  predicate SixtyField(p: string) {
    || (|p| == 1 && IsDigit(p[0]))
    || (|p| == 2 && '0' <= p[0] <= '5' && IsDigit(p[1]))
  }

  predicate MonthField(p: string) {
    || (|p| == 1 && IsDigit(p[0]))
    || (|p| == 2 && p[0] == '0' && IsDigit(p[1]))
    || (|p| == 2 && p[0] == '1' && '0' <= p[1] <= '2')
  }

  predicate DayField(p: string) {
    || (|p| == 1 && IsDigit(p[0]))
    || (|p| == 2 && '0' <= p[0] <= '2' && IsDigit(p[1]))
    || (|p| == 2 && p[0] == '3' && '0' <= p[1] <= '1')
  }

  /** `re.match(r'^([0-1]?\d|[2][0-3]):[0-5]?\d:[0-5]?\d$', s)`. */
  predicate ClockText(s: string) {
    var parts := Split(s, ':');
    |parts| == 3 && HourField(parts[0]) && SixtyField(parts[1]) && SixtyField(parts[2])
  }

  /** The `MM-DD HH:MM:SS` pattern of `start_at`. */
  predicate DateClockText(s: string) {
    var halves := Split(s, ' ');
    |halves| == 2 && ClockText(halves[1]) &&
    var md := Split(halves[0], '-');
    |md| == 2 && MonthField(md[0]) && DayField(md[1])
  }

  lemma FieldValues(p: string)
    requires HourField(p) || SixtyField(p) || MonthField(p) || DayField(p)
    ensures forall i :: 0 <= i < |p| ==> IsDigit(p[i])
    ensures HourField(p) ==> 0 <= Value(p) < 24
    ensures SixtyField(p) ==> 0 <= Value(p) < 60
    ensures MonthField(p) ==> 0 <= Value(p) <= 12
    ensures DayField(p) ==> 0 <= Value(p) <= 31
  {
    if |p| == 2 {
      assert p[..1] == [p[0]];
    }
  }

  /**
   * The clock a clock text names, or None when the text does not match
   * (the caller raises TimeFormatError).
   */
  function ParseClock(s: string): (r: Option<Clock>)
    ensures r.Some? <==> ClockText(s)
    ensures r.Some? ==> ValidClock(r.value)
  {
    var parts := Split(s, ':');
    if |parts| == 3 && HourField(parts[0]) && SixtyField(parts[1]) && SixtyField(parts[2]) then
      FieldValues(parts[0]); FieldValues(parts[1]); FieldValues(parts[2]);
      Some(Clock(Value(parts[0]), Value(parts[1]), Value(parts[2])))
    else None
  }

  /** The month, day and clock a date-clock text names; the date itself is not checked. */
  function ParseDateClock(s: string): (r: Option<DateClock>)
    ensures r.Some? <==> DateClockText(s)
    ensures r.Some? ==> ValidClock(r.value.clock) && 0 <= r.value.month <= 12 && 0 <= r.value.day <= 31
  {
    var halves := Split(s, ' ');
    if |halves| == 2 && ParseClock(halves[1]).Some? then
      var md := Split(halves[0], '-');
      if |md| == 2 && MonthField(md[0]) && DayField(md[1]) then
        FieldValues(md[0]); FieldValues(md[1]);
        Some(DateClock(Value(md[0]), Value(md[1]), ParseClock(halves[1]).value))
      else None
    else None
  }

  // ---------------------------------------------------------------------
  // Decimal rendering (`str(n)`) and the round trip through the parser.

  function DigitChar(d: int): char
    requires 0 <= d < 10
  {
    ('0' as int + d) as char
  }

  /** `str(n)` for a natural number: no leading zeros. */
  function NatText(n: nat): (t: string)
    ensures |t| >= 1 && forall i :: 0 <= i < |t| ==> IsDigit(t[i])
  {
    if n < 10 then [DigitChar(n)] else NatText(n / 10) + [DigitChar(n % 10)]
  }

  /** `"{}:{}:{}".format(str(h), str(m), str(s))`, as a paused task rebuilds its anchor. */
  function ClockString(c: Clock): string
    requires c.hour >= 0 && c.minute >= 0 && c.second >= 0
  {
    NatText(c.hour) + ":" + NatText(c.minute) + ":" + NatText(c.second)
  }

  /** A number below 100 prints as one or two digits that read back as itself. */
  lemma SmallNatText(n: nat)
    requires n < 100
    ensures forall i :: 0 <= i < |NatText(n)| ==> IsDigit(NatText(n)[i])
    ensures Value(NatText(n)) == n
    ensures n < 10 ==> NatText(n) == [DigitChar(n)]
    ensures n >= 10 ==> NatText(n) == [DigitChar(n / 10), DigitChar(n % 10)]
  {
    if n >= 10 {
      var t := NatText(n);
      assert t[..1] == [DigitChar(n / 10)];
    }
  }

  lemma NoSeparator(n: nat, sep: char)
    requires !IsDigit(sep)
    ensures sep !in NatText(n)
  {
  }

  /** Splitting a piece without separators gives that piece alone. */
  lemma {:induction false} SplitPlain(a: string, sep: char)
    requires sep !in a
    ensures Split(a, sep) == [a]
  {
    if a != [] {
      SplitPlain(a[1..], sep);
      assert [a[0]] + a[1..] == a;
    }
  }

  /** A separator after a piece without separators cuts exactly there. */
  lemma {:induction false} SplitAfter(a: string, sep: char, rest: string)
    requires sep !in a
    ensures Split(a + [sep] + rest, sep) == [a] + Split(rest, sep)
  {
    if a == [] {
      assert a + [sep] + rest == [sep] + rest;
      assert ([sep] + rest)[1..] == rest;
    } else {
      var x := a + [sep] + rest;
      assert x[0] == a[0] && x[1..] == a[1..] + [sep] + rest;
      SplitAfter(a[1..], sep, rest);
      assert [a[0]] + a[1..] == a;
    }
  }

  lemma SplitThree(a: string, b: string, c: string, sep: char)
    requires sep !in a && sep !in b && sep !in c
    ensures Split(a + [sep] + b + [sep] + c, sep) == [a, b, c]
  {
    assert a + [sep] + b + [sep] + c == a + [sep] + (b + [sep] + c);
    SplitAfter(a, sep, b + [sep] + c);
    SplitAfter(b, sep, c);
    SplitPlain(c, sep);
  }

  /** The clock text a paused task writes for its anchor parses back to that anchor. */
  lemma ClockRoundTrip(c: Clock)
    requires ValidClock(c)
    ensures ParseClock(ClockString(c)) == Some(c)
  {
    var h, m, s := NatText(c.hour), NatText(c.minute), NatText(c.second);
    NoSeparator(c.hour, ':');
    NoSeparator(c.minute, ':');
    NoSeparator(c.second, ':');
    assert ClockString(c) == h + [':'] + m + [':'] + s;
    SplitThree(h, m, s, ':');
    SmallNatText(c.hour);
    SmallNatText(c.minute);
    SmallNatText(c.second);
  }

  /** Two-digit rendering with a leading zero, as in "07". */
  function Pad2(n: nat): string
    requires n < 100
  {
    [DigitChar(n / 10), DigitChar(n % 10)]
  }

  /** Zero-padded fields are accepted as well and read as the same clock. */
  lemma PaddedClockRoundTrip(c: Clock)
    requires ValidClock(c)
    ensures ParseClock(Pad2(c.hour) + ":" + Pad2(c.minute) + ":" + Pad2(c.second)) == Some(c)
  {
    var h, m, s := Pad2(c.hour), Pad2(c.minute), Pad2(c.second);
    assert h + ":" + m + ":" + s == h + [':'] + m + [':'] + s;
    SplitThree(h, m, s, ':');
    TwoDigits(h);
    TwoDigits(m);
    TwoDigits(s);
  }

  lemma TwoDigits(p: string)
    requires |p| == 2 && IsDigit(p[0]) && IsDigit(p[1])
    ensures Value(p) == DigitValue(p[0]) * 10 + DigitValue(p[1])
  {
    var q := p[..1];
    assert q == [p[0]] && q[..0] == [];
    assert Value(q) == DigitValue(p[0]);
  }
}
