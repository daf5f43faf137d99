/** For which forms of timestamps the comparison of texts agrees with the calendar. A form is the number
    of digits after the point and the offset. */
module TimestampForms {
  import opened Basics
  import opened Calendar
  import opened Timestamps

  datatype Form = Form(digits: nat, offset: Offset)

  ghost predicate HasForm(s: Stamp, form: Form) {
    ValidStamp(s) && |s.fraction| == form.digits && s.offset == form.offset
  }

  /** The first timestamp is later than the second. */
  ghost predicate LaterStamp(a: Stamp, b: Stamp)
    requires ValidStamp(a) && ValidStamp(b)
  {
    Instant(a) > Instant(b)
  }

  // ---- Fractions ----------------------------------------------------------------------------------

  lemma {:induction false} FractionBounds(fraction: string)
    requires AllDigits(fraction)
    ensures 0.0 <= FractionValue(fraction) < 1.0
    decreases |fraction|
  {
    if fraction != "" {
      FractionBounds(fraction[1..]);
      assert IsDigit(fraction[0]);
    }
  }

  /** The digits kept are the milliseconds of the fraction, rounded down, if there are three or more. */
  lemma KeptRoundsDown(fraction: string)
    requires AllDigits(fraction) && |fraction| >= 3
    ensures 0 <= KeptMillis(fraction) < 1000
    ensures KeptMillis(fraction) as real <= 1000.0 * FractionValue(fraction) < KeptMillis(fraction) as real + 1.0
    ensures |fraction| == 3 ==> 1000.0 * FractionValue(fraction) == KeptMillis(fraction) as real
  {
    var d0, d1, d2 := DigitValue(fraction[0]), DigitValue(fraction[1]), DigitValue(fraction[2]);
    assert IsDigit(fraction[0]) && IsDigit(fraction[1]) && IsDigit(fraction[2]);
    var one, two, rest := fraction[1..], fraction[1..][1..], fraction[1..][1..][1..];
    assert one[0] == fraction[1] && two[0] == fraction[2];
    FractionBounds(rest);
    assert 10.0 * FractionValue(fraction) == d0 as real + FractionValue(one);
    assert 10.0 * FractionValue(one) == d1 as real + FractionValue(two);
    assert 10.0 * FractionValue(two) == d2 as real + FractionValue(rest);
    assert 1000.0 * FractionValue(fraction) ==
           100.0 * d0 as real + 10.0 * d1 as real + d2 as real + FractionValue(rest);
    if |fraction| == 3 {
      assert rest == "";
    }
  }

  function Zeros(n: nat): (r: string)
    ensures |r| == n && AllDigits(r)
  {
    seq(n, _ => '0')
  }

  lemma {:induction false} ZerosAreZero(n: nat)
    ensures FractionValue(Zeros(n)) == 0.0 && KeptMillis(Zeros(n)) == 0
    decreases n
  {
    if n > 0 {
      ZerosAreZero(n - 1);
      assert Zeros(n)[1..] == Zeros(n - 1);
    }
  }

  /** A fraction whose only digit other than zero is the last. */
  function Least(n: nat): (r: string)
    requires n > 0
    ensures |r| == n && AllDigits(r)
  {
    Zeros(n - 1) + ['1']
  }

  lemma {:induction false} LeastIsPositive(n: nat)
    requires n > 0
    ensures FractionValue(Least(n)) > 0.0
    decreases n
  {
    if n == 1 {
      assert Least(1) == ['1'];
      assert FractionValue([]) == 0.0;
    } else {
      LeastIsPositive(n - 1);
      assert Least(n)[1..] == Least(n - 1) && Least(n)[0] == '0';
    }
  }

  /** Which digits are lost: all of one or two, and those after the third. */
  lemma LeastIsLost(n: nat)
    requires n > 0 && n != 3
    ensures KeptMillis(Least(n)) == 0
  {
  }

  // ---- Reading ---------------------------------------------------------------------------------------

  /** The digits are read as they stand for. */
  predicate FractionKept(fraction: string) {
    |fraction| == 0 || |fraction| >= 3 || forall i :: 0 <= i < |fraction| ==> fraction[i] == '0'
  }

  lemma LostFraction(fraction: string)
    requires AllDigits(fraction) && !FractionKept(fraction)
    ensures FractionValue(fraction) >= 0.01 && KeptMillis(fraction) == 0
  {
    assert IsDigit(fraction[0]);
    assert FractionValue([]) == 0.0;
    if |fraction| == 1 {
      assert fraction[1..] == [];
    } else {
      assert IsDigit(fraction[1]);
      assert fraction[1..][0] == fraction[1] && fraction[1..][1..] == [];
    }
  }

  lemma KeptFraction(fraction: string)
    requires AllDigits(fraction) && FractionKept(fraction)
    ensures 0 <= KeptMillis(fraction) < 1000
    ensures KeptMillis(fraction) as real <= 1000.0 * FractionValue(fraction) < KeptMillis(fraction) as real + 1.0
  {
    if |fraction| >= 3 {
      KeptRoundsDown(fraction);
    } else {
      assert fraction == Zeros(|fraction|);
      ZerosAreZero(|fraction|);
    }
  }

  /** A timestamp is read as its time in milliseconds, rounded down, exactly when it is in universal
      time, its fraction has no digits, at least three, or only zeros, and it is not before 1970. */
  lemma ReadExactly(s: Stamp)
    requires ValidStamp(s)
    ensures
      (exists n: nat :: TimestampMillis(Text(s)) == Some(n) && n as real <= 1000.0 * Instant(s) < n as real + 1.0)
      <==> MinutesEast(s.offset) == 0 && FractionKept(s.fraction) && MillisRead(s) >= 0
  {
    TextIsRead(s);
    FractionBounds(s.fraction);
    var off := MinutesEast(s.offset);
    assert 1000.0 * Instant(s) == (1000 * Seconds(s.moment) - 60000 * off) as real + 1000.0 * FractionValue(s.fraction);
    if FractionKept(s.fraction) {
      KeptFraction(s.fraction);
    } else {
      LostFraction(s.fraction);
    }
    if MillisRead(s) >= 0 && off == 0 && FractionKept(s.fraction) {
      var n: nat := MillisRead(s);
      assert TimestampMillis(Text(s)) == Some(n) && n as real <= 1000.0 * Instant(s) < n as real + 1.0;
    }
  }

  // ---- Two timestamps from 1970 on ---------------------------------------------------------------

  /** The comparison is right for all timestamps of the two forms that are read. */
  ghost predicate ComparedRightly(left: Form, right: Form) {
    forall a, b :: HasForm(a, left) && HasForm(b, right) && MillisRead(a) >= 0 && MillisRead(b) >= 0 ==>
      (TimestampAfter(Text(a), Text(b)) <==> LaterStamp(a, b))
  }

  /** The left form is exact in milliseconds, the right one is not rounded more coarsely than it, and
      the offsets are the same. */
  predicate Comparable(left: Form, right: Form) {
    && MinutesEast(left.offset) == MinutesEast(right.offset)
    && (left.digits == 0 || (left.digits == 3 && right.digits != 1 && right.digits != 2))
  }

  lemma ReadOrder(a: Stamp, b: Stamp)
    requires ValidStamp(a) && ValidStamp(b) && MillisRead(a) >= 0 && MillisRead(b) >= 0
    ensures TimestampAfter(Text(a), Text(b)) <==> MillisRead(a) > MillisRead(b)
  {
    TextIsRead(a);
    TextIsRead(b);
  }

  lemma ComparableStamps(a: Stamp, b: Stamp)
    requires ValidStamp(a) && ValidStamp(b)
    requires Comparable(Form(|a.fraction|, a.offset), Form(|b.fraction|, b.offset))
    ensures MillisRead(a) > MillisRead(b) <==> LaterStamp(a, b)
  {
    var s, t := Seconds(a.moment), Seconds(b.moment);
    var f, g := FractionValue(a.fraction), FractionValue(b.fraction);
    FractionBounds(b.fraction);
    assert LaterStamp(a, b) <==> s as real + f > t as real + g;
    if |b.fraction| >= 3 {
      KeptRoundsDown(b.fraction);
    }
    if |a.fraction| == 3 {
      KeptRoundsDown(a.fraction);
    } else {
      assert f == 0.0;
    }
  }

  /** Midnight at the start of the year 2000, or a second later. */
  function Sample(second: int): (m: Moment)
    requires 0 <= second <= 1
    ensures ValidMoment(m)
  {
    Moment(Date(2000, 1, 1), 0, 0, second)
  }

  lemma SampleSeconds(second: int)
    requires 0 <= second <= 1
    ensures Seconds(Sample(second)) == 946684800 + second
  {
    ClosedFormCountsDays(Date(2000, 1, 1));
    assert DaysSinceEpoch(2000, 1, 1) == Some(10957);
  }

  function SampleStamp(second: int, fraction: string, offset: Offset): (s: Stamp)
    requires 0 <= second <= 1 && AllDigits(fraction) && ValidOffset(offset)
    ensures ValidStamp(s)
  {
    Stamp(Sample(second), fraction, offset)
  }

  lemma Witness(a: Stamp, b: Stamp, left: Form, right: Form)
    requires HasForm(a, left) && HasForm(b, right) && MillisRead(a) >= 0 && MillisRead(b) >= 0
    requires !(MillisRead(a) > MillisRead(b) <==> LaterStamp(a, b))
    ensures !ComparedRightly(left, right)
  {
    ReadOrder(a, b);
  }

  /** Offsets are ignored: the same time of day at different offsets is not the same time. */
  lemma OffsetIsIgnored(left: Form, right: Form)
    requires ValidOffset(left.offset) && ValidOffset(right.offset)
    requires MinutesEast(left.offset) != MinutesEast(right.offset)
    ensures !ComparedRightly(left, right)
  {
    ZerosAreZero(left.digits);
    ZerosAreZero(right.digits);
    SampleSeconds(0);
    SampleSeconds(1);
    var second := if MinutesEast(left.offset) < MinutesEast(right.offset) then 0 else 1;
    var a, b := SampleStamp(second, Zeros(left.digits), left.offset), SampleStamp(0, Zeros(right.digits), right.offset);
    Witness(a, b, left, right);
  }

  /** Digits are ignored when there are one, two, or more than three. */
  lemma DigitsAreIgnored(left: Form, right: Form)
    requires ValidOffset(left.offset) && ValidOffset(right.offset)
    requires MinutesEast(left.offset) == MinutesEast(right.offset) && left.digits != 0 && left.digits != 3
    ensures !ComparedRightly(left, right)
  {
    LeastIsPositive(left.digits);
    LeastIsLost(left.digits);
    ZerosAreZero(right.digits);
    SampleSeconds(0);
    var a, b := SampleStamp(0, Least(left.digits), left.offset), SampleStamp(0, Zeros(right.digits), right.offset);
    Witness(a, b, left, right);
  }

  /** A tenth of a second given by three digits counts as later than nine tenths given by one or two. */
  lemma FewDigitsCountLess(left: Form, right: Form)
    requires ValidOffset(left.offset) && ValidOffset(right.offset)
    requires MinutesEast(left.offset) == MinutesEast(right.offset) && left.digits == 3 && 1 <= right.digits <= 2
    ensures !ComparedRightly(left, right)
  {
    var nine := if right.digits == 1 then "9" else "99";
    assert FractionValue([]) == 0.0;
    assert "9"[1..] == "" && "99"[1..] == "9" && "100"[1..] == "00" && "00"[1..] == "0" && "0"[1..] == "";
    assert FractionValue("9") == 0.9 && FractionValue("99") >= 0.9;
    assert FractionValue("100") == 0.1;
    SampleSeconds(0);
    var a, b := SampleStamp(0, "100", left.offset), SampleStamp(0, nine, right.offset);
    assert KeptMillis("100") == 100 && KeptMillis(nine) == 0;
    Witness(a, b, left, right);
  }

  /** Nine tenths of a second is later than one tenth, but does not compare so with one digit each. */
  lemma OneDigitIsLost(m: Moment)
    requires ValidMoment(m) && Seconds(m) >= 0
    ensures LaterStamp(Stamp(m, "9", Zulu), Stamp(m, "1", Zulu))
    ensures !TimestampAfter(Text(Stamp(m, "9", Zulu)), Text(Stamp(m, "1", Zulu)))
  {
    assert "9"[1..] == "" && "1"[1..] == "";
    ReadOrder(Stamp(m, "9", Zulu), Stamp(m, "1", Zulu));
  }

  /** The same time of day is later in universal time than nine hours to the east, but does not
      compare so. */
  lemma OffsetIsLost(m: Moment)
    requires ValidMoment(m) && Seconds(m) >= 0
    ensures LaterStamp(Stamp(m, "", Zulu), Stamp(m, "", Shift(true, 9, 0)))
    ensures !TimestampAfter(Text(Stamp(m, "", Zulu)), Text(Stamp(m, "", Shift(true, 9, 0))))
  {
    ReadOrder(Stamp(m, "", Zulu), Stamp(m, "", Shift(true, 9, 0)));
  }

  /** The forms for which timestamps from 1970 on compare as the calendar orders them. */
  lemma FormsCompareExactly(left: Form, right: Form)
    requires ValidOffset(left.offset) && ValidOffset(right.offset)
    ensures ComparedRightly(left, right) <==> Comparable(left, right)
  {
    if MinutesEast(left.offset) != MinutesEast(right.offset) {
      OffsetIsIgnored(left, right);
    } else if left.digits != 0 && left.digits != 3 {
      DigitsAreIgnored(left, right);
    } else if left.digits == 3 && 1 <= right.digits <= 2 {
      FewDigitsCountLess(left, right);
    } else {
      forall a, b | HasForm(a, left) && HasForm(b, right) && MillisRead(a) >= 0 && MillisRead(b) >= 0
        ensures TimestampAfter(Text(a), Text(b)) <==> LaterStamp(a, b)
      {
        ReadOrder(a, b);
        ComparableStamps(a, b);
      }
    }
  }

  // ---- All years ---------------------------------------------------------------------------------------

  lemma {:induction false} DigitsOrder(f: string, g: string)
    requires AllDigits(f) && AllDigits(g) && |f| == |g|
    ensures TextAfter(f, g) <==> FractionValue(f) > FractionValue(g)
    ensures f == g <==> FractionValue(f) == FractionValue(g)
    decreases |f|
  {
    if f != "" {
      DigitsOrder(f[1..], g[1..]);
      FractionBounds(f[1..]);
      FractionBounds(g[1..]);
      assert f == [f[0]] + f[1..] && g == [g[0]] + g[1..];
    }
  }

  /** Texts of the same form are in the order of the times they stand for, in all years. */
  lemma SameFormTextOrder(a: Stamp, b: Stamp, form: Form)
    requires HasForm(a, form) && HasForm(b, form)
    ensures TextAfter(Text(a), Text(b)) <==> LaterStamp(a, b)
  {
    var end := OffsetText(form.offset);
    var x, y := FractionText(a.fraction) + end, FractionText(b.fraction) + end;
    MomentSlices(a.moment, x);
    MomentSlices(b.moment, y);
    TextFieldOrder(MomentText(a.moment), x, MomentText(b.moment), y);
    MomentTextOrder(a.moment, b.moment);
    SecondsOrder(a.moment, b.moment);
    SecondsOrder(b.moment, a.moment);
    FractionOrder(a.fraction, b.fraction, end);
    FractionBounds(a.fraction);
    FractionBounds(b.fraction);
    if MomentText(a.moment) == MomentText(b.moment) {
      MomentTextInjective(a.moment, b.moment);
    } else if Seconds(a.moment) == Seconds(b.moment) {
      SameSeconds(a.moment, b.moment);
    }
  }

  lemma SameSeconds(a: Moment, b: Moment)
    requires ValidMoment(a) && ValidMoment(b) && Seconds(a) == Seconds(b)
    ensures a == b
  {
    SecondsOrder(a, b);
    SecondsOrder(b, a);
  }

  lemma FractionOrder(f: string, g: string, end: string)
    requires AllDigits(f) && AllDigits(g) && |f| == |g|
    ensures TextAfter(FractionText(f) + end, FractionText(g) + end) <==> FractionValue(f) > FractionValue(g)
  {
    DigitsOrder(f, g);
    TextFieldOrder(FractionText(f), end, FractionText(g), end);
    NotAfterItself(end);
    if f != "" {
      SeparatorOrder(".", f, g);
    } else {
      NotAfterItself("");
    }
  }

  /** The comparison is right for all timestamps of a form. */
  ghost predicate ComparedRightlyInAllYears(form: Form) {
    forall a, b :: HasForm(a, form) && HasForm(b, form) ==> (TimestampAfter(Text(a), Text(b)) <==> LaterStamp(a, b))
  }

  /** Timestamps of one form, at any offset, compare as the calendar orders them in all years, before
      1970 by their characters, exactly when they have no digits after the point or three. */
  lemma TimestampsCompareByCalendar(form: Form)
    requires ValidOffset(form.offset)
    ensures ComparedRightlyInAllYears(form) <==> form.digits == 0 || form.digits == 3
  {
    if form.digits == 0 || form.digits == 3 {
      forall a, b | HasForm(a, form) && HasForm(b, form)
        ensures TimestampAfter(Text(a), Text(b)) <==> LaterStamp(a, b)
      {
        SameFormCompares(a, b, form);
      }
    } else {
      DigitsAreIgnored(form, form);
      assert ComparedRightlyInAllYears(form) ==> ComparedRightly(form, form);
    }
  }

  lemma SameFormCompares(a: Stamp, b: Stamp, form: Form)
    requires HasForm(a, form) && HasForm(b, form) && (form.digits == 0 || form.digits == 3)
    ensures TimestampAfter(Text(a), Text(b)) <==> LaterStamp(a, b)
  {
    if MillisRead(a) >= 0 && MillisRead(b) >= 0 {
      ReadOrder(a, b);
      ComparableStamps(a, b);
    } else {
      TextIsRead(a);
      TextIsRead(b);
      SameFormTextOrder(a, b, form);
    }
  }

  // ---- Expiry ----------------------------------------------------------------------------------------------

  /** The present time as the program writes it. */
  function Now(millis: nat): string {
    "unix-ms:" + Decimal(millis)
  }

  lemma NowIsRead(now: nat)
    requires now <= MAX_U128
    ensures TimestampMillis(Now(now)) == Some(now)
  {
    ParseDecimal(now);
    assert Now(now)[|UNIX_PREFIX|..] == Decimal(now);
  }

  /** A timestamp has expired unless the milliseconds read from it are after the present. */
  lemma ExpiryReadsMillis(s: Stamp, now: nat)
    requires ValidStamp(s) && now <= MAX_U128
    ensures TimestampAfter(Text(s), Now(now)) <==> MillisRead(s) > now
  {
    TextIsRead(s);
    NowIsRead(now);
    NoUnixPrefix(s.moment, FractionText(s.fraction) + OffsetText(s.offset));
    assert Now(now)[0] == 'u';
  }

  ghost predicate ExpiresRightly(form: Form) {
    forall s, now: nat :: HasForm(s, form) && now <= MAX_U128 ==>
      (TimestampAfter(Text(s), Now(now)) <==> 1000.0 * Instant(s) > now as real)
  }

  /** The forms of expiry times that are compared rightly with every present time, in all years: those
      in universal time with no digits after the point or three. */
  lemma ExpiryExactly(form: Form)
    requires ValidOffset(form.offset)
    ensures ExpiresRightly(form) <==> MinutesEast(form.offset) == 0 && (form.digits == 0 || form.digits == 3)
  {
    if MinutesEast(form.offset) == 0 && (form.digits == 0 || form.digits == 3) {
      forall s, now: nat | HasForm(s, form) && now <= MAX_U128
        ensures TimestampAfter(Text(s), Now(now)) <==> 1000.0 * Instant(s) > now as real
      {
        ExpiryReadsMillis(s, now);
        if form.digits == 3 {
          KeptRoundsDown(s.fraction);
        }
        assert 1000.0 * Instant(s) == MillisRead(s) as real;
      }
    } else if MinutesEast(form.offset) != 0 {
      OffsetExpiresWrongly(form);
    } else {
      DigitsExpireWrongly(form);
    }
  }

  lemma ExpiryWitness(s: Stamp, now: nat, form: Form)
    requires HasForm(s, form) && now <= MAX_U128
    requires !(MillisRead(s) > now <==> 1000.0 * Instant(s) > now as real)
    ensures !ExpiresRightly(form)
  {
    ExpiryReadsMillis(s, now);
  }

  lemma OffsetExpiresWrongly(form: Form)
    requires ValidOffset(form.offset) && MinutesEast(form.offset) != 0
    ensures !ExpiresRightly(form)
  {
    SampleSeconds(0);
    ZerosAreZero(form.digits);
    var s := SampleStamp(0, Zeros(form.digits), form.offset);
    var now: nat := if MinutesEast(form.offset) > 0 then 946684799999 else 946684800000;
    ExpiryWitness(s, now, form);
  }

  lemma DigitsExpireWrongly(form: Form)
    requires ValidOffset(form.offset) && MinutesEast(form.offset) == 0 && form.digits != 0 && form.digits != 3
    ensures !ExpiresRightly(form)
  {
    SampleSeconds(0);
    LeastIsPositive(form.digits);
    LeastIsLost(form.digits);
    var s := SampleStamp(0, Least(form.digits), form.offset);
    var now: nat := 946684800000;
    ExpiryWitness(s, now, form);
  }
}
