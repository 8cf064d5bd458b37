/** Text timestamps: the fixed-width printer, the order SQL compares them in, and the migration that
    rewrites older texts. A UTC time is its civil fields in the years 0000 to 9999. */
module Timestamps {
  import opened Base
  import Outbox

  const MILLISECOND := Outbox.MILLISECOND
  const SECOND := 1_000_000_000
  const DAY := 86_400_000_000_000

  datatype Civil = Civil(year: nat, month: nat, day: nat, hour: nat, minute: nat, second: nat, nano: nat)

  predicate Leap(year: nat) {
    year % 4 == 0 && (year % 100 != 0 || year % 400 == 0)
  }

  function YearLength(year: nat): nat {
    if Leap(year) then 366 else 365
  }

  function MonthLength(year: nat, month: nat): nat {
    if month == 2 then (if Leap(year) then 29 else 28)
    else if month == 4 || month == 6 || month == 9 || month == 11 then 30
    else 31
  }

  function DaysBeforeYear(year: nat): nat {
    if year == 0 then 0 else DaysBeforeYear(year - 1) + YearLength(year - 1)
  }

  function DaysBeforeMonth(year: nat, month: nat): nat {
    if month <= 1 then 0 else DaysBeforeMonth(year, month - 1) + MonthLength(year, month - 1)
  }

  predicate Valid(c: Civil) {
    && c.year <= 9999 && 1 <= c.month <= 12 && 1 <= c.day <= MonthLength(c.year, c.month)
    && c.hour < 24 && c.minute < 60 && c.second < 60 && c.nano < SECOND
  }

  function DayNumber(year: nat, month: nat, day: nat): nat
    requires day >= 1
  {
    DaysBeforeYear(year) + DaysBeforeMonth(year, month) + day - 1
  }

  /** Nanoseconds since the start of year 0000. */
  function Instant(c: Civil): nat
    requires Valid(c)
  {
    DayNumber(c.year, c.month, c.day) * DAY
    + c.hour * 3600 * SECOND + c.minute * 60 * SECOND + c.second * SECOND + c.nano
  }

  // The printer

  function Pow10(n: nat): nat {
    if n == 0 then 1 else 10 * Pow10(n - 1)
  }

  function Digit(d: nat): char
    requires d < 10
  {
    '0' + d as char
  }

  /** The last `width` decimal digits of a number. */
  function Digits(value: nat, width: nat): (digits: string)
    ensures |digits| == width
  {
    if width == 0 then "" else Digits(value / 10, width - 1) + [Digit(value % 10)]
  }

  datatype Field = Field(separator: string, value: nat, width: nat)

  function Render(fields: seq<Field>): string {
    if fields == [] then ""
    else fields[0].separator + Digits(fields[0].value, fields[0].width) + Render(fields[1..])
  }

  function DateAndTime(c: Civil): seq<Field> {
    [Field("", c.year, 4), Field("-", c.month, 2), Field("-", c.day, 2),
     Field("T", c.hour, 2), Field(":", c.minute, 2), Field(":", c.second, 2)]
  }

  function Fields(c: Civil): seq<Field> {
    DateAndTime(c) + [Field(".", c.nano / MILLISECOND, 3)]
  }

  /** The layout 2006-01-02T15:04:05.000Z07:00 for a UTC time: three fraction digits, cut off. */
  function FormatTimestamp(c: Civil): string {
    Render(Fields(c)) + "Z"
  }

  function StripZeros(s: string): string {
    if s != "" && s[|s| - 1] == '0' then StripZeros(s[..|s| - 1]) else s
  }

  /** The variable-fraction text of section 5.6 of RFC 3339: no trailing zeros, no empty fraction. */
  function VariableText(c: Civil): string {
    WithFraction(Render(DateAndTime(c)), c.nano)
  }

  function WithFraction(head: string, nano: nat): string {
    if nano == 0 then head + "Z" else head + "." + StripZeros(Digits(nano, 9)) + "Z"
  }

  /** The number a digit string stands for. */
  function NumberOf(digits: string): int {
    if digits == "" then 0 else 10 * NumberOf(digits[..|digits| - 1]) + (digits[|digits| - 1] as int - '0' as int)
  }

  lemma {:induction false} DigitsMeaning(value: nat, width: nat)
    requires value < Pow10(width)
    ensures NumberOf(Digits(value, width)) == value
  {
    if width > 0 {
      DigitsMeaning(value / 10, width - 1);
      assert Digits(value, width)[..width - 1] == Digits(value / 10, width - 1);
    }
  }

  /** The text, character by character. */
  lemma Layout(c: Civil)
    ensures FormatTimestamp(c) ==
              Digits(c.year, 4) + "-" + Digits(c.month, 2) + "-" + Digits(c.day, 2) + "T"
              + Digits(c.hour, 2) + ":" + Digits(c.minute, 2) + ":" + Digits(c.second, 2) + "." + Digits(c.nano / 1_000_000, 3) + "Z"
  {
    LayoutOfDate(c);
    FormatSplits(c);
  }

  lemma LayoutOfDate(c: Civil)
    ensures Render(DateAndTime(c)) ==
              Digits(c.year, 4) + "-" + Digits(c.month, 2) + "-" + Digits(c.day, 2) + "T"
              + Digits(c.hour, 2) + ":" + Digits(c.minute, 2) + ":" + Digits(c.second, 2)
  {
    var f := DateAndTime(c);
    RenderMore([], f[0], f[1], f[2]);
    RenderMore([] + [f[0]] + [f[1]] + [f[2]], f[3], f[4], f[5]);
    assert f == [] + [f[0]] + [f[1]] + [f[2]] + [f[3]] + [f[4]] + [f[5]];
  }

  function One(f: Field): string {
    f.separator + Digits(f.value, f.width)
  }

  lemma RenderMore(fields: seq<Field>, a: Field, b: Field, c: Field)
    ensures Render(fields + [a] + [b] + [c]) == Render(fields) + One(a) + One(b) + One(c)
  {
    RenderSnoc(fields, a);
    RenderSnoc(fields + [a], b);
    RenderSnoc(fields + [a] + [b], c);
  }

  /** The days before a year, by the Gregorian rule: one more every fourth year, but not every hundredth
      unless every four hundredth. The first day of 1970 has the number 719528. */
  lemma {:induction false} DaysExactly(year: nat)
    ensures DaysBeforeYear(year) == 365 * year + (year + 3) / 4 - (year + 99) / 100 + (year + 399) / 400
    ensures year == 1970 ==> DayNumber(year, 1, 1) == 719_528
  {
    if year > 0 {
      DaysExactly(year - 1);
      EveryFourth(year - 1);
      EveryHundredth(year - 1);
      EveryFourHundredth(year - 1);
      Divisors(year - 1);
    }
  }

  lemma EveryFourth(y: nat)
    ensures (y + 4) / 4 == (y + 3) / 4 + if y % 4 == 0 then 1 else 0
  {}

  lemma EveryHundredth(y: nat)
    ensures (y + 100) / 100 == (y + 99) / 100 + if y % 100 == 0 then 1 else 0
  {}

  lemma EveryFourHundredth(y: nat)
    ensures (y + 400) / 400 == (y + 399) / 400 + if y % 400 == 0 then 1 else 0
  {}

  lemma Divisors(y: nat)
    ensures y % 100 == 0 ==> y % 4 == 0
    ensures y % 400 == 0 ==> y % 100 == 0
  {
    var q, r := y / 100, y / 400;
    assert y % 100 == 0 ==> y == 4 * (25 * q);
    assert y % 400 == 0 ==> y == 100 * (4 * r);
  }

  lemma MonthsExactly(year: nat, month: nat)
    requires 1 <= month <= 12
    ensures MonthLength(year, month) ==
              [31, if YearLength(year) == 366 then 29 else 28, 31, 30, 31, 30, 31, 31, 30, 31, 30, 31][month - 1]
  {}

  /** The binary collation: the order of the first differing character, a prefix before its extensions. */
  predicate Less(a: string, b: string) {
    b != "" && (a == "" || a[0] < b[0] || (a[0] == b[0] && Less(a[1..], b[1..])))
  }

  predicate AtMost(a: string, b: string) {
    !Less(b, a)
  }

  // String order is field order

  lemma {:induction false} DigitsPlain(value: nat, width: nat)
    ensures forall ch | ch in Digits(value, width) :: '0' <= ch <= '9'
  {
    if width > 0 { DigitsPlain(value / 10, width - 1); }
  }

  lemma LessIrreflexive(a: string)
    ensures !Less(a, a)
  {
    if a != "" { LessIrreflexive(a[1..]); }
  }

  lemma {:induction false} LessConcat(a: string, b: string, x: string, y: string)
    requires |a| == |b|
    ensures Less(a + x, b + y) <==> Less(a, b) || (a == b && Less(x, y))
  {
    if a == "" {
      assert a + x == x && b + y == y;
    } else {
      assert (a + x)[1..] == a[1..] + x && (b + y)[1..] == b[1..] + y;
      assert a == b <==> a[0] == b[0] && a[1..] == b[1..] by {
        assert a == [a[0]] + a[1..] && b == [b[0]] + b[1..];
      }
      LessConcat(a[1..], b[1..], x, y);
    }
  }

  lemma {:induction false} DigitsOrder(u: nat, v: nat, width: nat)
    requires u < Pow10(width) && v < Pow10(width)
    ensures Less(Digits(u, width), Digits(v, width)) <==> u < v
    ensures Digits(u, width) == Digits(v, width) <==> u == v
  {
    if width > 0 {
      var u', v' := u / 10, v / 10;
      DigitsOrder(u', v', width - 1);
      DigitsPlain(u', width - 1);
      DigitsPlain(v', width - 1);
      var x, y := [Digit(u % 10)], [Digit(v % 10)];
      LessConcat(Digits(u', width - 1), Digits(v', width - 1), x, y);
      assert Less(x, y) <==> u % 10 < v % 10;
      assert Digits(u, width) == Digits(v, width) <==> Digits(u', width - 1) == Digits(v', width - 1) && x == y by {
        assert Digits(u, width)[..width - 1] == Digits(u', width - 1);
        assert Digits(v, width)[..width - 1] == Digits(v', width - 1);
        assert Digits(u, width)[width - 1] == x[0] && Digits(v, width)[width - 1] == y[0];
      }
    }
  }

  /** Same layout, every value within its width. */
  predicate Comparable(f: seq<Field>, g: seq<Field>) {
    && |f| == |g|
    && forall i | 0 <= i < |f| ::
         && f[i].separator == g[i].separator && f[i].width == g[i].width
         && f[i].value < Pow10(f[i].width) && g[i].value < Pow10(g[i].width)
  }

  predicate FieldsLess(f: seq<Field>, g: seq<Field>)
    requires |f| == |g|
  {
    f != [] && (f[0].value < g[0].value || (f[0].value == g[0].value && FieldsLess(f[1..], g[1..])))
  }

  lemma RenderHead(f: seq<Field>, end: string)
    requires f != []
    ensures Render(f) + end == f[0].separator + (Digits(f[0].value, f[0].width) + (Render(f[1..]) + end))
  {}

  lemma LessAfterSame(same: string, a: string, b: string, x: string, y: string)
    requires |a| == |b|
    ensures Less(same + (a + x), same + (b + y)) <==> Less(a, b) || (a == b && Less(x, y))
  {
    LessIrreflexive(same);
    LessConcat(same, same, a + x, b + y);
    LessConcat(a, b, x, y);
  }

  lemma {:induction false} RenderOrder(f: seq<Field>, g: seq<Field>, end: string)
    requires Comparable(f, g)
    ensures Less(Render(f) + end, Render(g) + end) <==> FieldsLess(f, g)
  {
    LessIrreflexive(end);
    if f == [] {
      assert Render(f) + end == end && Render(g) + end == end;
    } else {
      var sep, df, dg := f[0].separator, Digits(f[0].value, f[0].width), Digits(g[0].value, g[0].width);
      var rf, rg := Render(f[1..]) + end, Render(g[1..]) + end;
      RenderHead(f, end);
      RenderHead(g, end);
      LessAfterSame(sep, df, dg, rf, rg);
      DigitsOrder(f[0].value, g[0].value, f[0].width);
      RenderOrder(f[1..], g[1..], end);
    }
  }

  // Field order is time order

  lemma {:induction false} YearsGrow(y: nat, z: nat)
    requires y < z
    ensures DaysBeforeYear(y) + YearLength(y) <= DaysBeforeYear(z)
  {
    if y + 1 < z { YearsGrow(y, z - 1); }
  }

  lemma {:induction false} MonthsGrow(year: nat, m: nat, n: nat)
    requires 1 <= m < n
    ensures DaysBeforeMonth(year, m) + MonthLength(year, m) <= DaysBeforeMonth(year, n)
  {
    if m + 1 < n { MonthsGrow(year, m, n - 1); }
  }

  lemma YearIsTwelveMonths(year: nat)
    ensures DaysBeforeMonth(year, 13) == YearLength(year)
  {
    assert DaysBeforeMonth(year, 2) == 31 && DaysBeforeMonth(year, 3) == 31 + MonthLength(year, 2);
    assert DaysBeforeMonth(year, 4) == DaysBeforeMonth(year, 3) + 31;
    assert DaysBeforeMonth(year, 5) == DaysBeforeMonth(year, 4) + 30;
    assert DaysBeforeMonth(year, 6) == DaysBeforeMonth(year, 5) + 31;
    assert DaysBeforeMonth(year, 7) == DaysBeforeMonth(year, 6) + 30;
    assert DaysBeforeMonth(year, 8) == DaysBeforeMonth(year, 7) + 31;
    assert DaysBeforeMonth(year, 9) == DaysBeforeMonth(year, 8) + 31;
    assert DaysBeforeMonth(year, 10) == DaysBeforeMonth(year, 9) + 30;
    assert DaysBeforeMonth(year, 11) == DaysBeforeMonth(year, 10) + 31;
    assert DaysBeforeMonth(year, 12) == DaysBeforeMonth(year, 11) + 30;
  }

  predicate DateLess(a: Civil, b: Civil) {
    a.year < b.year || (a.year == b.year && (a.month < b.month || (a.month == b.month && a.day < b.day)))
  }

  lemma DayOrder(a: Civil, b: Civil)
    requires Valid(a) && Valid(b) && DateLess(a, b)
    ensures DayNumber(a.year, a.month, a.day) < DayNumber(b.year, b.month, b.day)
  {
    if a.year < b.year {
      YearsGrow(a.year, b.year);
      MonthsGrow(a.year, a.month, 13);
      YearIsTwelveMonths(a.year);
    } else if a.month < b.month {
      MonthsGrow(a.year, a.month, b.month);
    }
  }

  /** Milliseconds since midnight, cut off. */
  function TimeOfDay(c: Civil): nat {
    c.hour * 3_600_000 + c.minute * 60_000 + c.second * 1000 + c.nano / MILLISECOND
  }

  lemma StampParts(c: Civil)
    requires Valid(c)
    ensures Outbox.Stamp(Instant(c)) == DayNumber(c.year, c.month, c.day) * 86_400_000 + TimeOfDay(c)
    ensures TimeOfDay(c) < 86_400_000
  {
    var n := DayNumber(c.year, c.month, c.day);
    assert Instant(c) == (n * 86_400_000 + c.hour * 3_600_000 + c.minute * 60_000 + c.second * 1000) * MILLISECOND + c.nano;
  }

  lemma FieldsLessAt(f: seq<Field>, g: seq<Field>, k: nat)
    requires |f| == |g| && k < |f|
    ensures FieldsLess(f[k..], g[k..]) <==>
            f[k].value < g[k].value || (f[k].value == g[k].value && FieldsLess(f[k + 1..], g[k + 1..]))
  {
    assert f[k..][1..] == f[k + 1..] && g[k..][1..] == g[k + 1..];
  }

  lemma FieldsLessUnfolds(a: Civil, b: Civil)
    ensures FieldsLess(Fields(a), Fields(b)) <==>
            || DateLess(a, b)
            || (a.year == b.year && a.month == b.month && a.day == b.day
                && (|| a.hour < b.hour
                    || (a.hour == b.hour && (a.minute < b.minute
                    || (a.minute == b.minute && (a.second < b.second
                    || (a.second == b.second && a.nano / MILLISECOND < b.nano / MILLISECOND)))))))
  {
    var f, g := Fields(a), Fields(b);
    FieldsLessAt(f, g, 0);
    FieldsLessAt(f, g, 1);
    FieldsLessAt(f, g, 2);
    FieldsLessAt(f, g, 3);
    FieldsLessAt(f, g, 4);
    FieldsLessAt(f, g, 5);
    FieldsLessAt(f, g, 6);
    assert f[0..] == f && g[0..] == g && f[7..] == [];
  }

  lemma StampOrder(a: Civil, b: Civil)
    requires Valid(a) && Valid(b)
    ensures FieldsLess(Fields(a), Fields(b)) <==> Outbox.Stamp(Instant(a)) < Outbox.Stamp(Instant(b))
  {
    FieldsLessUnfolds(a, b);
    StampParts(a);
    StampParts(b);
    if DateLess(a, b) {
      DayOrder(a, b);
    } else if DateLess(b, a) {
      DayOrder(b, a);
    }
  }

  lemma FieldsComparable(a: Civil, b: Civil)
    requires Valid(a) && Valid(b)
    ensures Comparable(Fields(a), Fields(b))
  {
    assert Pow10(2) == 100 && Pow10(3) == 1000;
    assert Pow10(4) == 10 * Pow10(3);
  }

  /** String order is time order: comparing two stored texts is comparing the two times cut off to
      milliseconds (the ordering of section 5.1 of RFC 3339). */
  lemma OrderIsTimeOrder(a: Civil, b: Civil)
    requires Valid(a) && Valid(b)
    ensures AtMost(FormatTimestamp(a), FormatTimestamp(b)) <==> Outbox.Stamp(Instant(a)) <= Outbox.Stamp(Instant(b))
  {
    FieldsComparable(b, a);
    RenderOrder(Fields(b), Fields(a), "Z");
    StampOrder(b, a);
  }

  /** A text comparison never lets a row through a full millisecond early, and never holds it back. */
  lemma DueComparison(due: Civil, now: Civil)
    requires Valid(due) && Valid(now)
    ensures AtMost(FormatTimestamp(due), FormatTimestamp(now)) ==> Instant(now) > Instant(due) - MILLISECOND
    ensures Instant(due) <= Instant(now) ==> AtMost(FormatTimestamp(due), FormatTimestamp(now))
  {
    OrderIsTimeOrder(due, now);
  }

  lemma {:induction false} RenderLength(fields: seq<Field>, total: nat)
    requires total == Widths(fields)
    ensures |Render(fields)| == total
  {
    if fields != [] {
      DigitsPlain(fields[0].value, fields[0].width);
      RenderLength(fields[1..], Widths(fields[1..]));
    }
  }

  function Widths(fields: seq<Field>): nat {
    if fields == [] then 0 else |fields[0].separator| + fields[0].width + Widths(fields[1..])
  }

  lemma FixedWidth(c: Civil)
    ensures |FormatTimestamp(c)| == 24
  {
    var f := Fields(c);
    assert f[1..][1..] == f[2..] && f[2..][1..] == f[3..] && f[3..][1..] == f[4..];
    assert f[4..][1..] == f[5..] && f[5..][1..] == f[6..] && f[6..][1..] == [];
    assert Widths(f[6..]) == 4 && Widths(f[5..]) == 7 && Widths(f[4..]) == 10 && Widths(f[3..]) == 13;
    assert Widths(f[2..]) == 16 && Widths(f[1..]) == 19 && Widths(f) == 23;
    RenderLength(f, 23);
  }

  // Every instant of those years has a civil time

  lemma {:induction false} DateOf(n: nat) returns (year: nat, month: nat, day: nat)
    requires n < DaysBeforeYear(10000)
    ensures year <= 9999 && 1 <= month <= 12 && 1 <= day <= MonthLength(year, month)
    ensures DayNumber(year, month, day) == n
  {
    if n == 0 {
      year, month, day := 0, 1, 1;
    } else {
      year, month, day := DateOf(n - 1);
      if day < MonthLength(year, month) {
        day := day + 1;
      } else if month < 12 {
        month, day := month + 1, 1;
      } else {
        YearIsTwelveMonths(year);
        assert DaysBeforeMonth(year, 13) == DaysBeforeMonth(year, 12) + MonthLength(year, 12);
        assert DaysBeforeYear(year + 1) == DaysBeforeYear(year) + YearLength(year);
        year, month, day := year + 1, 1, 1;
      }
    }
  }

  lemma CivilOf(t: nat) returns (c: Civil)
    requires t < DaysBeforeYear(10000) * DAY
    ensures Valid(c) && Instant(c) == t
  {
    var n, r := t / DAY, t % DAY;
    assert t == n * DAY + r;
    var year, month, day := DateOf(n);
    var s := r / SECOND;
    c := Civil(year, month, day, s / 3600, s % 3600 / 60, s % 60, r % SECOND);
    assert s == c.hour * 3600 + c.minute * 60 + c.second;
  }

  // The migration

  function TrimZ(s: string): string {
    if s != "" && s[|s| - 1] == 'Z' then TrimZ(s[..|s| - 1]) else s
  }

  function BeforeDot(s: string): string {
    if s == "" || s[0] == '.' then "" else [s[0]] + BeforeDot(s[1..])
  }

  /** The CASE expression of the migration, for a text that its WHERE clause selects. */
  function Rewrite(s: string): string {
    var text := TrimZ(s);
    if '.' !in text then text + ".000Z"
    else
      var head := BeforeDot(text);
      var fraction := if |head| < |text| then text[|head| + 1..] else "";
      head + "." + (fraction + "000")[..3] + "Z"
  }

  function Normalize(s: string): string {
    if s != "" && s[|s| - 1] == 'Z' then Rewrite(s) else s
  }

  lemma {:induction false} BeforeDotSplits(head: string, tail: string)
    requires '.' !in head
    ensures BeforeDot(head + "." + tail) == head
  {
    var s := head + "." + tail;
    if head != "" {
      assert s[1..] == head[1..] + "." + tail;
      BeforeDotSplits(head[1..], tail);
    }
  }

  lemma {:induction false} BeforeDotMeaning(s: string)
    requires '.' in s
    ensures var h := BeforeDot(s); |h| < |s| && s[..|h|] == h && s[|h|] == '.' && '.' !in h
  {
    if s[0] != '.' {
      BeforeDotMeaning(s[1..]);
      var h := BeforeDot(s[1..]);
      assert s[..|h| + 1] == [s[0]] + s[1..][..|h|];
    }
  }

  lemma TrimOne(s: string)
    requires s == "" || s[|s| - 1] != 'Z'
    ensures TrimZ(s + "Z") == s
  {
    assert (s + "Z")[..|s|] == s;
  }

  lemma NormalizeFraction(head: string, fraction: string)
    requires '.' !in head && (fraction == "" || fraction[|fraction| - 1] != 'Z')
    ensures Normalize(head + "." + fraction + "Z") == head + "." + (fraction + "000")[..3] + "Z"
  {
    var text := head + "." + fraction;
    TrimOne(text);
    assert text + "Z" == head + "." + fraction + "Z";
    assert text[|head|] == '.';
    BeforeDotSplits(head, fraction);
    assert text[|head| + 1..] == fraction;
  }

  lemma {:induction false} StripMeaning(s: string)
    ensures StripZeros(s) <= s && forall i | |StripZeros(s)| <= i < |s| :: s[i] == '0'
  {
    if s != "" && s[|s| - 1] == '0' {
      StripMeaning(s[..|s| - 1]);
    }
  }

  lemma DropDigit(value: nat, width: nat)
    requires width > 0
    ensures Digits(value, width)[..width - 1] == Digits(value / 10, width - 1)
  {}

  lemma FirstThree(nano: nat)
    ensures Digits(nano, 9)[..3] == Digits(nano / MILLISECOND, 3)
  {
    var v1 := nano / 10;
    var v2 := v1 / 10;
    var v3 := v2 / 10;
    var v4 := v3 / 10;
    var v5 := v4 / 10;
    var v6 := v5 / 10;
    assert v3 == nano / 1000 && v6 == v3 / 1000 == nano / MILLISECOND;
    DropDigit(nano, 9);
    DropDigit(v1, 8);
    DropDigit(v2, 7);
    DropDigit(v3, 6);
    DropDigit(v4, 5);
    DropDigit(v5, 4);
    assert Digits(nano, 9)[..3] == Digits(v1, 8)[..3] == Digits(v2, 7)[..3] == Digits(v3, 6)[..3];
    assert Digits(v3, 6)[..3] == Digits(v4, 5)[..3] == Digits(v5, 4)[..3] == Digits(v6, 3);
  }

  lemma {:induction false} RenderPlain(fields: seq<Field>)
    requires forall f | f in fields :: '.' !in f.separator && 'Z' !in f.separator
    ensures '.' !in Render(fields) && 'Z' !in Render(fields)
  {
    if fields != [] {
      DigitsPlain(fields[0].value, fields[0].width);
      RenderPlain(fields[1..]);
    }
  }

  lemma {:induction false} RenderSnoc(fields: seq<Field>, last: Field)
    ensures Render(fields + [last]) == Render(fields) + last.separator + Digits(last.value, last.width)
  {
    if fields == [] {
      assert fields + [last] == [last] && [last][1..] == [];
    } else {
      assert (fields + [last])[1..] == fields[1..] + [last];
      RenderSnoc(fields[1..], last);
    }
  }

  lemma StrippedFraction(nano: nat)
    requires nano < SECOND
    ensures (StripZeros(Digits(nano, 9)) + "000")[..3] == Digits(nano / MILLISECOND, 3)
  {
    var s := Digits(nano, 9);
    DigitsPlain(nano, 9);
    StripMeaning(s);
    assert (StripZeros(s) + "000")[..3] == s[..3];
    FirstThree(nano);
  }

  lemma FormatSplits(c: Civil)
    ensures FormatTimestamp(c) == Render(DateAndTime(c)) + "." + Digits(c.nano / MILLISECOND, 3) + "Z"
    ensures '.' !in Render(DateAndTime(c)) && 'Z' !in Render(DateAndTime(c))
  {
    RenderPlain(DateAndTime(c));
    RenderSnoc(DateAndTime(c), Field(".", c.nano / MILLISECOND, 3));
  }

  /** The printer's own texts are left alone. */
  lemma PrintedIsNormal(c: Civil)
    ensures Normalize(FormatTimestamp(c)) == FormatTimestamp(c)
  {
    var head, milli := Render(DateAndTime(c)), Digits(c.nano / MILLISECOND, 3);
    FormatSplits(c);
    DigitsPlain(c.nano / MILLISECOND, 3);
    NormalizeFraction(head, milli);
    assert (milli + "000")[..3] == milli;
  }

  lemma WholeSecond(head: string)
    requires '.' !in head && 'Z' !in head
    ensures Normalize(head + "Z") == head + ".000Z"
  {
    TrimOne(head);
  }

  lemma FractionRewritten(head: string, nano: nat)
    requires '.' !in head && nano < SECOND
    ensures Normalize(head + "." + StripZeros(Digits(nano, 9)) + "Z") == head + "." + Digits(nano / MILLISECOND, 3) + "Z"
  {
    var fraction := StripZeros(Digits(nano, 9));
    DigitsPlain(nano, 9);
    StripMeaning(Digits(nano, 9));
    assert fraction == "" || fraction[|fraction| - 1] in Digits(nano, 9);
    NormalizeFraction(head, fraction);
    StrippedFraction(nano);
  }

  lemma ZeroFraction()
    ensures Digits(0, 3) == "000"
  {
    assert Digits(0, 1) == ['0'] && Digits(0, 2) == Digits(0, 1) + ['0'] && Digits(0, 3) == Digits(0, 2) + ['0'];
  }

  lemma RewrittenFraction(head: string, nano: nat)
    requires '.' !in head && 'Z' !in head && nano < SECOND
    ensures Normalize(WithFraction(head, nano)) == head + "." + Digits(nano / MILLISECOND, 3) + "Z"
  {
    if nano == 0 {
      ZeroFraction();
      WholeSecond(head);
      assert head + ".000Z" == head + "." + "000" + "Z";
    } else {
      FractionRewritten(head, nano);
    }
  }

  /** The migration agrees with the printer: rewriting the variable-fraction text of any UTC time gives
      exactly the text the printer writes for it. */
  lemma MigrationAgrees(c: Civil)
    requires Valid(c)
    ensures Normalize(VariableText(c)) == FormatTimestamp(c)
  {
    FormatSplits(c);
    RewrittenFraction(Render(DateAndTime(c)), c.nano);
  }

  /** The third kept fraction character is again a 'Z'. */
  predicate KeepsZ(s: string) {
    var text := TrimZ(s);
    s != "" && s[|s| - 1] == 'Z' && '.' in text
    && var fraction := text[if |BeforeDot(text)| < |text| then |BeforeDot(text)| + 1 else 0..];
       (fraction + "000")[2] == 'Z'
  }

  /** Running the migration twice changes nothing more, exactly when the third fraction character kept
      is not itself a 'Z' (no text of a time has one there). */
  lemma IdempotentExactly(s: string)
    ensures Normalize(Normalize(s)) == Normalize(s) <==> !KeepsZ(s)
  {
    if s != "" && s[|s| - 1] == 'Z' {
      var text := TrimZ(s);
      TrimZMeaning(s);
      if '.' !in text {
        assert Normalize(s) == text + "." + "000" + "Z";
        NormalizeFraction(text, "000");
        assert ("000" + "000")[..3] == "000";
      } else {
        BeforeDotMeaning(text);
        var head := BeforeDot(text);
        var kept := (text[|head| + 1..] + "000")[..3];
        assert Normalize(s) == head + "." + kept + "Z";
        if kept[2] != 'Z' {
          NormalizeFraction(head, kept);
          assert (kept + "000")[..3] == kept;
        } else {
          LosesZ(head, kept);
        }
      }
    }
  }

  lemma {:induction false} TrimZMeaning(s: string)
    ensures TrimZ(s) == "" || TrimZ(s)[|TrimZ(s)| - 1] != 'Z'
    ensures TrimZ(s) <= s && forall i | |TrimZ(s)| <= i < |s| :: s[i] == 'Z'
  {
    if s != "" && s[|s| - 1] == 'Z' { TrimZMeaning(s[..|s| - 1]); }
  }

  lemma LosesZ(head: string, kept: string)
    requires '.' !in head && |kept| == 3 && kept[2] == 'Z'
    ensures Normalize(head + "." + kept + "Z") != head + "." + kept + "Z"
  {
    var s := head + "." + kept + "Z";
    var text := TrimZ(s);
    TrimZMeaning(s);
    var n := |head|;
    assert s[n] == '.';
    assert |text| > n;
    assert |text| <= n + 3 by {
      assert s[n + 3] == 'Z' && s[n + 4] == 'Z' && |s| == n + 5;
      assert text == s[..|text|];
      assert text == "" || s[|text| - 1] != 'Z';
    }
    assert text[n] == '.';
    assert text == head + "." + text[n + 1..] by { assert text[..n] == s[..n] == head; }
    BeforeDotSplits(head, text[n + 1..]);
    var again := (text[n + 1..] + "000")[..3];
    assert Normalize(s) == head + "." + again + "Z";
    assert again[2] == '0';
    assert (head + "." + again + "Z")[n + 3] == '0' && s[n + 3] == 'Z';
  }

  /** One timestamp column; NULL is None. */
  method NormalizeColumn(cells: array<Option<string>>)
    modifies cells
    ensures forall i | 0 <= i < cells.Length ::
              cells[i] == match old(cells[i]) case None => None case Some(s) => Some(Normalize(s))
  {
    var i := 0;
    while i < cells.Length
      invariant 0 <= i <= cells.Length
      invariant forall j | i <= j < cells.Length :: cells[j] == old(cells[j])
      invariant forall j | 0 <= j < i ::
                  cells[j] == match old(cells[j]) case None => None case Some(s) => Some(Normalize(s))
    {
      if cells[i].Some? && cells[i].value != "" && cells[i].value[|cells[i].value| - 1] == 'Z' {
        cells[i] := Some(Rewrite(cells[i].value));
      }
      i := i + 1;
    }
  }
}
