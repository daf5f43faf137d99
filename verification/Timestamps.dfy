/** Comparison of timestamp texts: by milliseconds where both parse, by characters otherwise. */
module Timestamps {
  import opened Basics
  import opened Calendar

  function Slice(text: string, from: nat, to: nat): Option<string>
    requires from <= to
  {
    if to <= |text| then Some(text[from..to]) else None
  }

  function IntAt(text: string, from: nat, to: nat): Option<int>
    requires from <= to
  {
    match Slice(text, from, to)
    case None => None
    case Some(part) => ParseInt(part)
  }

  function TotalMillis(days: int, hour: int, minute: int, second: int, millis: int): int {
    (((days * 24 + hour) * 60 + minute) * 60 + second) * 1000 + millis
  }

  /** Milliseconds since 1970 of a contract timestamp; none for malformed or earlier ones. */
  function ParseContractMillis(text: string): Option<nat> {
    var year, month, day := IntAt(text, 0, 4), IntAt(text, 5, 7), IntAt(text, 8, 10);
    var hour, minute, second := IntAt(text, 11, 13), IntAt(text, 14, 16), IntAt(text, 17, 19);
    if year.None? || month.None? || day.None? || hour.None? || minute.None? || second.None? then None else
      var millis := match IntAt(text, 20, 23) { case Some(n) => n case None => 0 };
      match DaysSinceEpoch(year.value, month.value, day.value)
      case None => None
      case Some(days) =>
        var total := TotalMillis(days, hour.value, minute.value, second.value, millis);
        if total >= 0 then Some(total as nat) else None
  }

  const UNIX_PREFIX := "unix-ms:"
  const MAX_U128: nat := 0xFFFF_FFFF_FFFF_FFFF_FFFF_FFFF_FFFF_FFFF

  function TimestampMillis(text: string): Option<nat> {
    if UNIX_PREFIX <= text then ParseUnsigned(text[|UNIX_PREFIX|..], MAX_U128) else ParseContractMillis(text)
  }

  /** Character by character, as texts are ordered. */
  predicate TextAfter(a: string, b: string) {
    if a == "" then false
    else if b == "" then true
    else if a[0] != b[0] then a[0] > b[0]
    else TextAfter(a[1..], b[1..])
  }

  predicate TimestampAfter(left: string, right: string) {
    var l, r := TimestampMillis(left), TimestampMillis(right);
    if l.Some? && r.Some? then l.value > r.value else TextAfter(left, right)
  }

  // ---- Well-formed timestamps --------------------------------------------------------------------

  /** A date and a time of day, as they are written. */
  datatype Moment = Moment(date: Date, hour: int, minute: int, second: int)

  datatype Offset = Zulu | Shift(east: bool, hours: int, minutes: int)

  /** A timestamp: what is written of the time, the digits of its fraction, if any, and its offset. */
  datatype Stamp = Stamp(moment: Moment, fraction: string, offset: Offset)

  /** A four-digit year, and no leap second. */
  predicate ValidMoment(m: Moment) {
    && 0 <= m.date.year <= 9999 && ValidDate(m.date)
    && 0 <= m.hour < 24 && 0 <= m.minute < 60 && 0 <= m.second < 60
  }

  predicate ValidOffset(offset: Offset) {
    offset.Shift? ==> 0 <= offset.hours < 24 && 0 <= offset.minutes < 60
  }

  predicate AllDigits(text: string) {
    forall i :: 0 <= i < |text| ==> IsDigit(text[i])
  }

  predicate ValidStamp(s: Stamp) {
    ValidMoment(s.moment) && AllDigits(s.fraction) && ValidOffset(s.offset)
  }

  ghost predicate LaterMoment(a: Moment, b: Moment) {
    || Later(a.date, b.date)
    || (a.date == b.date &&
        (|| a.hour > b.hour
         || (a.hour == b.hour &&
             (|| a.minute > b.minute
              || (a.minute == b.minute && a.second > b.second)))))
  }

  function Seconds(m: Moment): int
    requires 1 <= m.date.month <= 12
  {
    ((CountDays(m.date) * 24 + m.hour) * 60 + m.minute) * 60 + m.second
  }

  function DigitValue(c: char): int {
    c as int - '0' as int
  }

  /** The part of a second that the digits after the point stand for. */
  function FractionValue(fraction: string): real {
    if fraction == "" then 0.0 else (DigitValue(fraction[0]) as real + FractionValue(fraction[1..])) / 10.0
  }

  function MinutesEast(offset: Offset): int {
    match offset
    case Zulu => 0
    case Shift(east, hours, minutes) => if east then hours * 60 + minutes else -(hours * 60 + minutes)
  }

  /** Seconds since 1970, in universal time. */
  function Instant(s: Stamp): real
    requires 1 <= s.moment.date.month <= 12
  {
    (Seconds(s.moment) - 60 * MinutesEast(s.offset)) as real + FractionValue(s.fraction)
  }

  function Pad2(n: int): (r: string)
    requires 0 <= n <= 99
    ensures |r| == 2
  {
    [DigitOf(n / 10), DigitOf(n % 10)]
  }

  function Pad3(n: int): (r: string)
    requires 0 <= n <= 999
    ensures |r| == 3
  {
    [DigitOf(n / 100), DigitOf(n / 10 % 10), DigitOf(n % 10)]
  }

  function Pad4(n: int): (r: string)
    requires 0 <= n <= 9999
    ensures |r| == 4
  {
    [DigitOf(n / 1000), DigitOf(n / 100 % 10), DigitOf(n / 10 % 10), DigitOf(n % 10)]
  }

  function Concat(parts: seq<string>): string {
    if parts == [] then "" else parts[0] + Concat(parts[1..])
  }

  function MomentText(m: Moment): string
    requires ValidMoment(m)
  {
    Concat([Pad4(m.date.year), "-", Pad2(m.date.month), "-", Pad2(m.date.day), "T",
            Pad2(m.hour), ":", Pad2(m.minute), ":", Pad2(m.second)])
  }

  function FractionText(fraction: string): string {
    if fraction == "" then "" else "." + fraction
  }

  function OffsetText(offset: Offset): string
    requires ValidOffset(offset)
  {
    match offset
    case Zulu => "Z"
    case Shift(east, hours, minutes) => [if east then '+' else '-'] + Pad2(hours) + ":" + Pad2(minutes)
  }

  /** The text of a timestamp: 2026-06-22T00:05:00.000Z. */
  function Text(s: Stamp): string
    requires ValidStamp(s)
  {
    MomentText(s.moment) + (FractionText(s.fraction) + OffsetText(s.offset))
  }

  lemma ParseNextDigit(text: string, high: nat, d: int)
    requires 0 <= d <= 9 && ParseDigits(text) == Some(high)
    ensures ParseDigits(text + [DigitOf(d)]) == Some(high * 10 + d)
  {
    assert (text + [DigitOf(d)])[..|text|] == text;
  }

  lemma ParsePad2(n: int)
    requires 0 <= n <= 99
    ensures ParseDigits(Pad2(n)) == Some(n) && ParseInt(Pad2(n)) == Some(n)
  {
    ParseNextDigit("", 0, n / 10);
    ParseNextDigit("" + [DigitOf(n / 10)], n / 10, n % 10);
    assert Pad2(n) == "" + [DigitOf(n / 10)] + [DigitOf(n % 10)];
    assert IsDigit(Pad2(n)[0]);
  }

  lemma ParsePad3(n: int)
    requires 0 <= n <= 999
    ensures ParseDigits(Pad3(n)) == Some(n) && ParseInt(Pad3(n)) == Some(n)
  {
    ParsePad2(n / 10);
    ParseNextDigit(Pad2(n / 10), n / 10, n % 10);
    assert n / 10 / 10 == n / 100;
    assert Pad3(n) == Pad2(n / 10) + [DigitOf(n % 10)];
    assert IsDigit(Pad3(n)[0]);
  }

  lemma ParsePad4(n: int)
    requires 0 <= n <= 9999
    ensures ParseInt(Pad4(n)) == Some(n)
  {
    ParsePad3(n / 10);
    ParseNextDigit(Pad3(n / 10), n / 10, n % 10);
    assert n / 10 / 100 == n / 1000 && n / 10 / 10 == n / 100;
    assert Pad4(n) == Pad3(n / 10) + [DigitOf(n % 10)];
    assert IsDigit(Pad4(n)[0]);
  }

  lemma ConcatNext(part: string, rest: seq<string>)
    ensures Concat([part] + rest) == part + Concat(rest)
  {
    assert ([part] + rest)[1..] == rest;
  }

  function ClockText(m: Moment): string
    requires ValidMoment(m)
  {
    Pad2(m.hour) + (":" + (Pad2(m.minute) + (":" + Pad2(m.second))))
  }

  lemma ClockParts(m: Moment)
    requires ValidMoment(m)
    ensures Concat([Pad2(m.hour), ":", Pad2(m.minute), ":", Pad2(m.second)]) == ClockText(m)
  {
    var h, min, sec := Pad2(m.hour), Pad2(m.minute), Pad2(m.second);
    assert [sec] == [sec] + [] && sec + "" == sec;
    ConcatNext(sec, []);
    assert [":", sec] == [":"] + [sec];
    ConcatNext(":", [sec]);
    assert [min, ":", sec] == [min] + [":", sec];
    ConcatNext(min, [":", sec]);
    assert [":", min, ":", sec] == [":"] + [min, ":", sec];
    ConcatNext(":", [min, ":", sec]);
    assert [h, ":", min, ":", sec] == [h] + [":", min, ":", sec];
    ConcatNext(h, [":", min, ":", sec]);
  }

  lemma MomentParts(m: Moment)
    requires ValidMoment(m)
    ensures MomentText(m) ==
            Pad4(m.date.year) + ("-" + (Pad2(m.date.month) + ("-" + (Pad2(m.date.day) + ("T" + ClockText(m))))))
  {
    var y, mon, day := Pad4(m.date.year), Pad2(m.date.month), Pad2(m.date.day);
    var clock := [Pad2(m.hour), ":", Pad2(m.minute), ":", Pad2(m.second)];
    ClockParts(m);
    ConcatNext("T", clock);
    ConcatNext(day, ["T"] + clock);
    ConcatNext("-", [day] + (["T"] + clock));
    ConcatNext(mon, ["-"] + ([day] + (["T"] + clock)));
    ConcatNext("-", [mon] + (["-"] + ([day] + (["T"] + clock))));
    ConcatNext(y, ["-"] + ([mon] + (["-"] + ([day] + (["T"] + clock)))));
    assert [y] + (["-"] + ([mon] + (["-"] + ([day] + (["T"] + clock))))) == [y, "-", mon, "-", day, "T"] + clock;
    assert [y, "-", mon, "-", day, "T"] + clock
        == [y, "-", mon, "-", day, "T", Pad2(m.hour), ":", Pad2(m.minute), ":", Pad2(m.second)];
  }

  lemma MomentSlices(m: Moment, rest: string)
    requires ValidMoment(m)
    ensures |MomentText(m)| == 19
    ensures var r := MomentText(m) + rest;
            && r[0..4] == Pad4(m.date.year) && r[5..7] == Pad2(m.date.month) && r[8..10] == Pad2(m.date.day)
            && r[11..13] == Pad2(m.hour) && r[14..16] == Pad2(m.minute) && r[17..19] == Pad2(m.second)
            && IsDigit(r[0])
  {
    MomentParts(m);
  }

  /** The milliseconds that are read from the digits of a fraction. */
  function KeptMillis(fraction: string): int {
    if |fraction| < 3 then 0
    else 100 * DigitValue(fraction[0]) + 10 * DigitValue(fraction[1]) + DigitValue(fraction[2])
  }

  lemma ThreeDigits(text: string)
    requires |text| == 3 && AllDigits(text)
    ensures ParseInt(text) == Some(KeptMillis(text))
  {
    assert text[..2][..1][..0] == "";
    assert text[..2][..1] == [text[0]] && text[..2] == [text[0], text[1]];
    assert ParseDigits(text[..2][..1]) == Some(DigitValue(text[0]));
    assert ParseDigits(text[..2]) == Some(10 * DigitValue(text[0]) + DigitValue(text[1]));
  }

  lemma NoDigits(text: string)
    requires |text| == 3 && IsDigit(text[0]) && (!IsDigit(text[1]) || !IsDigit(text[2]))
    ensures ParseInt(text) == None
  {
    if IsDigit(text[2]) {
      assert text[..2][1] == text[1];
      assert ParseDigits(text[..2]) == None;
    }
    assert ParseDigits(text) == None;
  }

  /** The three characters after the point are the milliseconds only if they are digits. */
  lemma FractionIsRead(s: Stamp)
    requires ValidStamp(s)
    ensures var millis := IntAt(Text(s), 20, 23);
            (match millis case Some(n) => n case None => 0) == KeptMillis(s.fraction)
  {
    var text, tail := Text(s), FractionText(s.fraction) + OffsetText(s.offset);
    MomentSlices(s.moment, tail);
    assert forall i :: 0 <= i < |tail| ==> text[19 + i] == tail[i];
    if |tail| >= 4 {
      assert text[20..23] == tail[1..4];
      if |s.fraction| >= 3 {
        assert tail[1..4] == s.fraction[..3];
        ThreeDigits(s.fraction[..3]);
      } else {
        TailIsNoNumber(s);
      }
    }
  }

  lemma TailIsNoNumber(s: Stamp)
    requires ValidStamp(s) && |s.fraction| < 3
    requires |FractionText(s.fraction) + OffsetText(s.offset)| >= 4
    ensures ParseInt((FractionText(s.fraction) + OffsetText(s.offset))[1..4]) == None
  {
    var end := OffsetText(s.offset);
    var tail := FractionText(s.fraction) + end;
    if s.offset.Shift? {
      assert end[0] == '+' || end[0] == '-';
      assert end[1] == DigitOf(s.offset.hours / 10) && end[3] == ':';
    }
    if s.fraction == "" {
      assert tail == end;
    } else {
      assert tail[1] == s.fraction[0] && tail[1 + |s.fraction|] == end[0];
    }
    NoDigits(tail[1..4]);
  }

  /** The milliseconds that are read from a timestamp: the offset and further digits are ignored. */
  function MillisRead(s: Stamp): int
    requires 1 <= s.moment.date.month <= 12
  {
    1000 * Seconds(s.moment) + KeptMillis(s.fraction)
  }

  lemma MomentIsRead(m: Moment, rest: string)
    requires ValidMoment(m)
    ensures var r := MomentText(m) + rest;
            && IntAt(r, 0, 4) == Some(m.date.year) && IntAt(r, 5, 7) == Some(m.date.month)
            && IntAt(r, 8, 10) == Some(m.date.day)
            && IntAt(r, 11, 13) == Some(m.hour) && IntAt(r, 14, 16) == Some(m.minute)
            && IntAt(r, 17, 19) == Some(m.second)
  {
    MomentSlices(m, rest);
    ParsePad4(m.date.year);
    ParsePad2(m.date.month);
    ParsePad2(m.date.day);
    ParsePad2(m.hour);
    ParsePad2(m.minute);
    ParsePad2(m.second);
  }

  lemma NoUnixPrefix(m: Moment, rest: string)
    requires ValidMoment(m)
    ensures |MomentText(m)| == 19 && !(UNIX_PREFIX <= MomentText(m) + rest) && IsDigit((MomentText(m) + rest)[0])
  {
    MomentSlices(m, rest);
    assert UNIX_PREFIX[0] == 'u';
  }

  /** The fields of a moment stand where they are looked for. */
  ghost predicate FieldsAt(text: string, m: Moment, millis: int) {
    && IntAt(text, 0, 4) == Some(m.date.year) && IntAt(text, 5, 7) == Some(m.date.month)
    && IntAt(text, 8, 10) == Some(m.date.day)
    && IntAt(text, 11, 13) == Some(m.hour) && IntAt(text, 14, 16) == Some(m.minute)
    && IntAt(text, 17, 19) == Some(m.second)
    && millis == match IntAt(text, 20, 23) case Some(n) => n case None => 0
  }

  lemma FieldsGiveTotal(text: string, m: Moment, millis: int, days: int)
    requires FieldsAt(text, m, millis) && DaysSinceEpoch(m.date.year, m.date.month, m.date.day) == Some(days)
    ensures var total := TotalMillis(days, m.hour, m.minute, m.second, millis);
            ParseContractMillis(text) == if total >= 0 then Some(total as nat) else None
  {
  }

  lemma FieldsAreCounted(text: string, m: Moment, millis: int)
    requires ValidMoment(m) && FieldsAt(text, m, millis)
    ensures var total := 1000 * Seconds(m) + millis;
            ParseContractMillis(text) == if total >= 0 then Some(total as nat) else None
  {
    ClosedFormCountsDays(m.date);
    FieldsGiveTotal(text, m, millis, CountDays(m.date));
  }

  lemma StampFields(s: Stamp)
    requires ValidStamp(s)
    ensures FieldsAt(Text(s), s.moment, KeptMillis(s.fraction))
  {
    MomentIsRead(s.moment, FractionText(s.fraction) + OffsetText(s.offset));
    FractionIsRead(s);
  }

  lemma ContractText(text: string, m: Moment, millis: int)
    requires ValidMoment(m) && FieldsAt(text, m, millis) && !(UNIX_PREFIX <= text)
    ensures var total := 1000 * Seconds(m) + millis;
            TimestampMillis(text) == if total >= 0 then Some(total as nat) else None
  {
    FieldsAreCounted(text, m, millis);
  }

  /** A timestamp is read as those milliseconds, from 1970 on. */
  lemma TextIsRead(s: Stamp)
    requires ValidStamp(s)
    ensures TimestampMillis(Text(s)) == if MillisRead(s) >= 0 then Some(MillisRead(s) as nat) else None
  {
    NoUnixPrefix(s.moment, FractionText(s.fraction) + OffsetText(s.offset));
    StampFields(s);
    ContractText(Text(s), s.moment, KeptMillis(s.fraction));
  }

  lemma SecondsOrder(a: Moment, b: Moment)
    requires ValidMoment(a) && ValidMoment(b)
    ensures Seconds(a) > Seconds(b) <==> LaterMoment(a, b)
  {
    DayCountOrdersDates(a.date, b.date);
    DayCountOrdersDates(b.date, a.date);
  }

  // ---- The order of texts ------------------------------------------------------------------------

  lemma {:induction false} TextFieldOrder(p: string, x: string, q: string, y: string)
    requires |p| == |q|
    ensures TextAfter(p + x, q + y) <==> TextAfter(p, q) || (p == q && TextAfter(x, y))
    decreases |p|
  {
    if p == "" {
      assert p + x == x && q + y == y;
    } else {
      TextFieldOrder(p[1..], x, q[1..], y);
      assert (p + x)[1..] == p[1..] + x && (q + y)[1..] == q[1..] + y;
      assert p == [p[0]] + p[1..] && q == [q[0]] + q[1..];
    }
  }

  lemma SeparatorOrder(s: string, x: string, y: string)
    ensures TextAfter(s + x, s + y) <==> TextAfter(x, y)
  {
    TextFieldOrder(s, x, s, y);
    NotAfterItself(s);
  }

  lemma {:induction false} NotAfterItself(s: string)
    ensures !TextAfter(s, s)
  {
    if s != "" {
      NotAfterItself(s[1..]);
    }
  }

  lemma DigitOrder(a: int, b: int)
    requires 0 <= a <= 9 && 0 <= b <= 9
    ensures TextAfter([DigitOf(a)], [DigitOf(b)]) <==> a > b
    ensures [DigitOf(a)] == [DigitOf(b)] <==> a == b
  {
    assert [DigitOf(a)][0] == DigitOf(a) && [DigitOf(b)][0] == DigitOf(b);
  }

  lemma Pad2Order(a: int, b: int)
    requires 0 <= a <= 99 && 0 <= b <= 99
    ensures TextAfter(Pad2(a), Pad2(b)) <==> a > b
    ensures Pad2(a) == Pad2(b) <==> a == b
  {
    DigitOrder(a / 10, b / 10);
    DigitOrder(a % 10, b % 10);
    TextFieldOrder([DigitOf(a / 10)], [DigitOf(a % 10)], [DigitOf(b / 10)], [DigitOf(b % 10)]);
    assert Pad2(a) == [DigitOf(a / 10)] + [DigitOf(a % 10)] && Pad2(b) == [DigitOf(b / 10)] + [DigitOf(b % 10)];
    assert Pad2(a)[..1] == [DigitOf(a / 10)] && Pad2(b)[..1] == [DigitOf(b / 10)];
    assert Pad2(a)[1..] == [DigitOf(a % 10)] && Pad2(b)[1..] == [DigitOf(b % 10)];
  }

  lemma Pad4Order(a: int, b: int)
    requires 0 <= a <= 9999 && 0 <= b <= 9999
    ensures TextAfter(Pad4(a), Pad4(b)) <==> a > b
    ensures Pad4(a) == Pad4(b) <==> a == b
  {
    Pad2Order(a / 100, b / 100);
    Pad2Order(a % 100, b % 100);
    Halves(a);
    Halves(b);
    TextFieldOrder(Pad2(a / 100), Pad2(a % 100), Pad2(b / 100), Pad2(b % 100));
    assert Pad4(a)[..2] == Pad2(a / 100) && Pad4(b)[..2] == Pad2(b / 100);
    assert Pad4(a)[2..] == Pad2(a % 100) && Pad4(b)[2..] == Pad2(b % 100);
  }

  lemma Halves(a: int)
    requires 0 <= a <= 9999
    ensures Pad4(a) == Pad2(a / 100) + Pad2(a % 100)
  {
    var high, low := a / 100, a % 100;
    Digits(high, low);
    assert a == 100 * high + low;
  }

  lemma Digits(high: int, low: int)
    requires 0 <= high <= 99 && 0 <= low <= 99
    ensures var n := 100 * high + low;
            n / 1000 == high / 10 && n / 100 % 10 == high % 10 && n / 10 % 10 == low / 10 && n % 10 == low % 10
  {
    var n, a, b := 100 * high + low, high / 10, high % 10;
    assert n / 100 == 10 * a + b;
    assert n / 10 == 10 * high + low / 10;
    assert n == 1000 * a + (100 * b + low) && 0 <= 100 * b + low < 1000;
  }

  lemma ClockOrder(a: Moment, b: Moment)
    requires ValidMoment(a) && ValidMoment(b)
    ensures TextAfter(ClockText(a), ClockText(b)) <==> LaterMoment(a.(date := b.date), b)
  {
    var min, min' := Pad2(a.minute) + (":" + Pad2(a.second)), Pad2(b.minute) + (":" + Pad2(b.second));
    Pad2Order(a.second, b.second);
    SeparatorOrder(":", Pad2(a.second), Pad2(b.second));
    Pad2Order(a.minute, b.minute);
    TextFieldOrder(Pad2(a.minute), ":" + Pad2(a.second), Pad2(b.minute), ":" + Pad2(b.second));
    SeparatorOrder(":", min, min');
    Pad2Order(a.hour, b.hour);
    TextFieldOrder(Pad2(a.hour), ":" + min, Pad2(b.hour), ":" + min');
  }

  lemma MomentTextOrder(a: Moment, b: Moment)
    requires ValidMoment(a) && ValidMoment(b)
    ensures TextAfter(MomentText(a), MomentText(b)) <==> LaterMoment(a, b)
  {
    MomentParts(a);
    MomentParts(b);
    ClockOrder(a, b);
    var day, day' := Pad2(a.date.day) + ("T" + ClockText(a)), Pad2(b.date.day) + ("T" + ClockText(b));
    var mon, mon' := Pad2(a.date.month) + ("-" + day), Pad2(b.date.month) + ("-" + day');
    SeparatorOrder("T", ClockText(a), ClockText(b));
    Pad2Order(a.date.day, b.date.day);
    TextFieldOrder(Pad2(a.date.day), "T" + ClockText(a), Pad2(b.date.day), "T" + ClockText(b));
    SeparatorOrder("-", day, day');
    Pad2Order(a.date.month, b.date.month);
    TextFieldOrder(Pad2(a.date.month), "-" + day, Pad2(b.date.month), "-" + day');
    SeparatorOrder("-", mon, mon');
    Pad4Order(a.date.year, b.date.year);
    TextFieldOrder(Pad4(a.date.year), "-" + mon, Pad4(b.date.year), "-" + mon');
  }

  /** Different moments have different texts. */
  lemma MomentTextInjective(a: Moment, b: Moment)
    requires ValidMoment(a) && ValidMoment(b) && MomentText(a) == MomentText(b)
    ensures a == b
  {
    MomentTextOrder(a, b);
    MomentTextOrder(b, a);
    NotAfterItself(MomentText(a));
    SecondsOrder(a, b);
    SecondsOrder(b, a);
  }
}
