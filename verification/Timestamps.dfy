/** `parse_rfc3339_timestamp_ms`: what it reads from a canonical UTC timestamp
    (section 5.6 of RFC 3339, `Z` form), and when the numbers order timestamps
    as the strings do. */
module Timestamps {
  import opened Bytes
  import opened Calendar
  import opened Sequences
  import opened Wrappers

  const ZERO: byte := 48
  const PLUS: byte := 43
  const DASH: byte := 45
  const DOT: byte := 46
  const COLON: byte := 58
  const UPPER_T: byte := 84
  const UPPER_Z: byte := 90

  const U64_MAX: nat := 0xFFFF_FFFF_FFFF_FFFF
  const DAY_MS: nat := 86_400_000

  // Numbers in text.

  predicate IsDigit(b: byte) {
    ZERO <= b < ZERO + 10
  }

  predicate AllDigits(text: seq<byte>) {
    forall i | 0 <= i < |text| :: IsDigit(text[i])
  }

  function NumberOf(text: seq<byte>): (n: nat)
    requires AllDigits(text)
  {
    if text == [] then 0 else 10 * NumberOf(DropLast(text)) + (Last(text) - ZERO)
  }

  function Digits(text: seq<byte>): Option<nat> {
    if text != [] && AllDigits(text) then Some(NumberOf(text)) else None
  }

  /** `str::parse::<u32>`; the texts parsed are too short to overflow. */
  function ParseUnsigned(text: seq<byte>): Option<nat> {
    if text != [] && text[0] == PLUS then Digits(text[1..]) else Digits(text)
  }

  /** `str::parse::<i32>`. */
  function ParseSigned(text: seq<byte>): Option<int> {
    if text != [] && text[0] == DASH then
      match Digits(text[1..]) case Some(n) => Some(0 - n) case None => None
    else
      match ParseUnsigned(text) case Some(n) => Some(n as int) case None => None
  }

  /** `str::is_char_boundary` on UTF-8 text. */
  predicate Boundary(value: seq<byte>, i: nat)
    requires i <= |value|
  {
    i == 0 || i == |value| || !(128 <= value[i] < 192)
  }

  /** `str::get`. */
  function Get(value: seq<byte>, from: nat, to: nat): Option<seq<byte>> {
    if from <= to <= |value| && Boundary(value, from) && Boundary(value, to) then Some(value[from..to]) else None
  }

  function Unsigned(value: seq<byte>, from: nat, to: nat): Option<nat> {
    match Get(value, from, to) case Some(text) => ParseUnsigned(text) case None => None
  }

  // Fractions of a second.

  /** What follows the first dot. */
  function AfterDot(value: seq<byte>): Option<seq<byte>> {
    if value == [] then None else if value[0] == DOT then Some(value[1..]) else AfterDot(value[1..])
  }

  function TrimZ(text: seq<byte>): seq<byte> {
    if text != [] && Last(text) == UPPER_Z then TrimZ(DropLast(text)) else text
  }

  function LeadingDigits(text: seq<byte>): (r: seq<byte>)
    ensures AllDigits(r)
  {
    if text != [] && IsDigit(text[0]) then [text[0]] + LeadingDigits(text[1..]) else []
  }

  function Power10(k: nat): nat {
    if k == 0 then 1 else 10 * Power10(k - 1)
  }

  /** The first three digits read as thousandths. */
  function Millis(fraction: seq<byte>): nat
    requires AllDigits(fraction)
  {
    var digits := Take(3, fraction);
    NumberOf(digits) * Power10(3 - |digits|)
  }

  function FractionMillis(value: seq<byte>): nat {
    match AfterDot(value)
    case None => 0
    case Some(fraction) => Millis(LeadingDigits(TrimZ(fraction)))
  }

  // The parser.

  datatype Fields = Fields(year: int, month: nat, day: nat, hour: nat, minute: nat, second: nat)

  function ReadFields(value: seq<byte>): Option<Fields> {
    if |value| < 20 then None
    else
      var year := match Get(value, 0, 4) case Some(text) => ParseSigned(text) case None => None;
      var month, day := Unsigned(value, 5, 7), Unsigned(value, 8, 10);
      var hour, minute, second := Unsigned(value, 11, 13), Unsigned(value, 14, 16), Unsigned(value, 17, 19);
      if year.Some? && month.Some? && day.Some? && hour.Some? && minute.Some? && second.Some?
      then Some(Fields(year.value, month.value, day.value, hour.value, minute.value, second.value))
      else None
  }

  function Milliseconds(days: int, hour: nat, minute: nat, second: nat, millis: nat): (ms: int)
    ensures days >= 0 ==> ms >= 0
  {
    days * DAY_MS + hour * 3_600_000 + minute * 60_000 + second * 1_000 + millis
  }

  function TimestampMs(value: seq<byte>): Option<nat> {
    match ReadFields(value)
    case None => None
    case Some(f) =>
      match DaysFromCivil(f.year, f.month, f.day)
      case None => None
      case Some(days) =>
        Some(Milliseconds(days, f.hour, f.minute, f.second, FractionMillis(value)))
  }

  function CheckedAdd(a: Option<nat>, b: nat): Option<nat> {
    if a.Some? && a.value + b <= U64_MAX then Some(a.value + b) else None
  }

  function CheckedMul(a: nat, b: nat): Option<nat> {
    if a * b <= U64_MAX then Some(a * b) else None
  }

  lemma PaddedValue(n: nat, k: nat)
    requires 0 < k
    ensures (10 * n) * Power10(k - 1) == n * Power10(k)
  {
    var p := Power10(k - 1);
    assert (10 * n) * p == n * (10 * p);
  }

  method ReadMillis(value: seq<byte>) returns (millis: nat)
    ensures millis == FractionMillis(value)
  {
    millis := 0;
    var fraction := AfterDot(value);
    if fraction.Some? {
      var digits := Take(3, LeadingDigits(TrimZ(fraction.value)));
      if digits != [] {
        var padded := digits;
        while |padded| < 3
          invariant |digits| <= |padded| <= 3 && AllDigits(padded)
          invariant NumberOf(padded) * Power10(3 - |padded|) == NumberOf(digits) * Power10(3 - |digits|)
        {
          ghost var before := padded;
          padded := padded + [ZERO];
          assert DropLast(padded) == before;
          PaddedValue(NumberOf(before), 3 - |before|);
        }
        millis := NumberOf(padded);
        assert Power10(0) == 1;
      }
    }
  }

  lemma {:induction false} NumberBelow(text: seq<byte>)
    requires AllDigits(text)
    ensures NumberOf(text) < Power10(|text|)
  {
    if text != [] {
      NumberBelow(DropLast(text));
    }
  }

  lemma UnsignedBelow(text: seq<byte>)
    requires |text| == 2
    ensures ParseUnsigned(text).Some? ==> ParseUnsigned(text).value < 100
  {
    if AllDigits(text) { NumberBelow(text); }
    if AllDigits(text[1..]) { NumberBelow(text[1..]); }
    assert Power10(1) == 10 && Power10(2) == 100;
  }

  lemma SignedBelow(text: seq<byte>)
    requires |text| == 4
    ensures ParseSigned(text).Some? ==> ParseSigned(text).value < 10_000
  {
    if AllDigits(text) { NumberBelow(text); }
    if AllDigits(text[1..]) { NumberBelow(text[1..]); }
    assert Power10(2) == 100 && Power10(3) == 1_000 && Power10(4) == 10_000;
  }

  lemma FieldsAreSmall(value: seq<byte>)
    requires ReadFields(value).Some?
    ensures var f := ReadFields(value).value;
            f.year < 10_000 && f.hour < 100 && f.minute < 100 && f.second < 100
  {
    SignedBelow(value[0..4]);
    UnsignedBelow(value[11..13]);
    UnsignedBelow(value[14..16]);
    UnsignedBelow(value[17..19]);
  }

  lemma DaysAreFew(year: int, month: nat, day: nat)
    requires year < 10_000 && DaysFromCivil(year, month, day).Some?
    ensures DaysFromCivil(year, month, day).value < 10_000_000
  {
    EraIsCycle(AdjustedYear(year, month));
  }

  lemma MillisBelow(fraction: seq<byte>)
    requires AllDigits(fraction)
    ensures Millis(fraction) < 1_000
  {
    NumberBelow(Take(3, fraction));
    assert Power10(0) == 1 && Power10(1) == 10 && Power10(2) == 100 && Power10(3) == 1_000;
  }

  lemma MillisBelowSecond(value: seq<byte>)
    ensures FractionMillis(value) < 1_000
  {
    if AfterDot(value).Some? {
      MillisBelow(LeadingDigits(TrimZ(AfterDot(value).value)));
    }
  }

  /** The checked sums never fail: what is refused is refused by the fields or the date. */
  method ParseRfc3339TimestampMs(value: seq<byte>) returns (r: Option<nat>)
    ensures r == TimestampMs(value)
  {
    var fields := ReadFields(value);
    if fields.None? {
      return None;
    }
    var f := fields.value;
    var millis := ReadMillis(value);
    var days := DaysFromCivil(f.year, f.month, f.day);
    if days.None? {
      return None;
    }
    FieldsAreSmall(value);
    DaysAreFew(f.year, f.month, f.day);
    MillisBelowSecond(value);
    r := CheckedMul(days.value, DAY_MS);
    r := CheckedAdd(r, f.hour * 3_600_000);
    r := CheckedAdd(r, f.minute * 60_000);
    r := CheckedAdd(r, f.second * 1_000);
    r := CheckedAdd(r, millis);
  }

  // Canonical timestamps.

  /** A UTC instant as it is written; the fraction is kept as its digits. */
  datatype Stamp = Stamp(date: Date, hour: nat, minute: nat, second: nat, fraction: seq<byte>)

  predicate WellFormed(t: Stamp) {
    && Calendar.Valid(t.date) && 0 <= t.date.year < 10_000
    && t.hour < 24 && t.minute < 60 && t.second <= 60
    && AllDigits(t.fraction)
  }

  function Digit(n: nat): byte
    requires n < 10
  {
    ZERO + n
  }

  function Two(n: nat): seq<byte>
    requires n < 100
  {
    [Digit(n / 10), Digit(n % 10)]
  }

  function Four(n: nat): seq<byte>
    requires n < 10_000
  {
    Two(n / 100) + Two(n % 100)
  }

  /** `Z`, or the dot, the digits and `Z`. */
  function Tail(fraction: seq<byte>): seq<byte> {
    if fraction == [] then [UPPER_Z] else [DOT] + (fraction + [UPPER_Z])
  }

  function Clock(t: Stamp): seq<byte>
    requires WellFormed(t)
  {
    Two(t.hour) + ([COLON] + (Two(t.minute) + ([COLON] + (Two(t.second) + Tail(t.fraction)))))
  }

  /** `YYYY-MM-DDThh:mm:ss` and the tail. */
  function Text(t: Stamp): seq<byte>
    requires WellFormed(t)
  {
    Four(t.date.year) + ([DASH] + (Two(t.date.month) + ([DASH] + (Two(t.date.day) + ([UPPER_T] + Clock(t))))))
  }

  function InstantMs(t: Stamp): int
    requires WellFormed(t)
  {
    Milliseconds(DayNumber(t.date), t.hour, t.minute, t.second, Millis(t.fraction))
  }

  lemma FromFields(value: seq<byte>, f: Fields)
    requires ReadFields(value) == Some(f)
    ensures TimestampMs(value) ==
            match DaysFromCivil(f.year, f.month, f.day)
            case None => None
            case Some(days) =>
              Some(Milliseconds(days, f.hour, f.minute, f.second, FractionMillis(value)))
  {
  }

  lemma TwoDigits(text: seq<byte>)
    requires AllDigits(text) && |text| == 2
    ensures NumberOf(text) == 10 * (text[0] - ZERO) + (text[1] - ZERO)
  {
    assert DropLast(text) == [text[0]] && DropLast([text[0]]) == [];
    assert NumberOf([text[0]]) == text[0] - ZERO;
  }

  lemma TwoIsRead(n: nat)
    requires n < 100
    ensures ParseUnsigned(Two(n)) == Some(n)
  {
    TwoDigits(Two(n));
  }

  lemma FourDigits(text: seq<byte>)
    requires AllDigits(text) && |text| == 4
    ensures NumberOf(text) == 100 * NumberOf(text[..2]) + NumberOf(text[2..])
  {
    var three := DropLast(text);
    TwoDigits(text[2..]);
    assert DropLast(three) == text[..2];
    assert NumberOf(three) == 10 * NumberOf(text[..2]) + (text[2] - ZERO);
  }

  lemma FourIsRead(n: nat)
    requires n < 10_000
    ensures ParseSigned(Four(n)) == Some(n)
  {
    var text := Four(n);
    FourDigits(text);
    assert text[..2] == Two(n / 100) && text[2..] == Two(n % 100);
    TwoDigits(text[..2]);
    TwoDigits(text[2..]);
  }

  lemma RestSlice<T>(a: seq<T>, b: seq<T>, i: nat, j: nat)
    requires i <= j <= |b|
    ensures (a + b)[|a| + i..|a| + j] == b[i..j]
  {
  }

  lemma ThreeFields(a: seq<byte>, p: byte, b: seq<byte>, q: byte, c: seq<byte>, r: seq<byte>)
    requires |b| == |c| == 2
    ensures var text, n := a + ([p] + (b + ([q] + (c + r)))), |a|;
            && |text| == n + 6 + |r| && text[..n] == a && text[n] == p && text[n + 1..n + 3] == b
            && text[n + 3] == q && text[n + 4..n + 6] == c && text[n + 6..] == r
  {
    var text, n := a + ([p] + (b + ([q] + (c + r)))), |a|;
    assert text[n + 4..n + 6] == c;
    assert text[n + 6..] == r;
  }

  lemma DateLayout(t: Stamp)
    requires WellFormed(t)
    ensures |Text(t)| == 11 + |Clock(t)| && Text(t)[11..] == Clock(t)
    ensures Text(t)[0..4] == Four(t.date.year)
    ensures Text(t)[5..7] == Two(t.date.month) && Text(t)[8..10] == Two(t.date.day)
    ensures forall i | 0 <= i < 11 :: Text(t)[i] < 128 && Text(t)[i] != DOT
  {
    ThreeFields(Four(t.date.year), DASH, Two(t.date.month), DASH, Two(t.date.day), [UPPER_T] + Clock(t));
    assert ([UPPER_T] + Clock(t))[1..] == Clock(t);
    RestSlice(Text(t)[..10], [UPPER_T] + Clock(t), 1, 1 + |Clock(t)|);
    assert Text(t) == Text(t)[..10] + ([UPPER_T] + Clock(t));
  }

  lemma ClockLayout(t: Stamp)
    requires WellFormed(t)
    ensures |Clock(t)| == 8 + |Tail(t.fraction)| && Clock(t)[8..] == Tail(t.fraction)
    ensures Clock(t)[0..2] == Two(t.hour) && Clock(t)[3..5] == Two(t.minute) && Clock(t)[6..8] == Two(t.second)
    ensures forall i | 0 <= i < 8 :: Clock(t)[i] < 128 && Clock(t)[i] != DOT
  {
    ThreeFields(Two(t.hour), COLON, Two(t.minute), COLON, Two(t.second), Tail(t.fraction));
  }

  lemma CanonicalFields(t: Stamp)
    requires WellFormed(t)
    ensures ReadFields(Text(t)) ==
            Some(Fields(t.date.year, t.date.month, t.date.day, t.hour, t.minute, t.second))
  {
    DateLayout(t);
    ClockLayout(t);
    var text, clock := Text(t), Clock(t);
    assert text[11..13] == clock[0..2] && text[14..16] == clock[3..5] && text[17..19] == clock[6..8];
    assert text[13] == clock[2] && text[14] == clock[3] && text[16] == clock[5] && text[17] == clock[6];
    assert |text| > 19 ==> text[19] == Tail(t.fraction)[0];
    FourIsRead(t.date.year);
    TwoIsRead(t.date.month);
    TwoIsRead(t.date.day);
    TwoIsRead(t.hour);
    TwoIsRead(t.minute);
    TwoIsRead(t.second);
  }

  lemma {:induction false} AfterDotSkips(a: seq<byte>, b: seq<byte>)
    requires forall i | 0 <= i < |a| :: a[i] != DOT
    ensures AfterDot(a + b) == AfterDot(b)
  {
    if a == [] {
      assert a + b == b;
    } else {
      AfterDotSkips(a[1..], b);
      assert (a + b)[1..] == a[1..] + b;
    }
  }

  lemma {:induction false} LeadingDigitsOfDigits(text: seq<byte>)
    requires AllDigits(text)
    ensures LeadingDigits(text) == text
  {
    if text != [] {
      LeadingDigitsOfDigits(text[1..]);
    }
  }

  lemma TailFraction(f: seq<byte>)
    requires AllDigits(f)
    ensures FractionMillis(Tail(f)) == Millis(f)
  {
    if f == [] {
      assert [UPPER_Z][1..] == [];
      assert AfterDot([UPPER_Z]) == AfterDot([]) == None;
      assert Take(3, f) == [] && NumberOf([]) == 0;
      assert Millis(f) == 0 * Power10(3);
    } else {
      var z := f + [UPPER_Z];
      assert ([DOT] + z)[1..] == z;
      assert AfterDot(Tail(f)) == Some(z);
      assert DropLast(z) == f && IsDigit(f[|f| - 1]);
      assert TrimZ(z) == TrimZ(f) == f;
      LeadingDigitsOfDigits(f);
    }
  }

  lemma CanonicalFraction(t: Stamp)
    requires WellFormed(t)
    ensures FractionMillis(Text(t)) == Millis(t.fraction)
  {
    DateLayout(t);
    ClockLayout(t);
    var text, clock := Text(t), Clock(t);
    AfterDotSkips(text[..11], clock);
    assert text == text[..11] + clock;
    AfterDotSkips(clock[..8], Tail(t.fraction));
    assert clock == clock[..8] + Tail(t.fraction);
    TailFraction(t.fraction);
  }

  /** A canonical timestamp is read as the instant it names, and refused exactly when it is before the epoch. */
  lemma CanonicalIsRead(t: Stamp)
    requires WellFormed(t)
    ensures TimestampMs(Text(t)) == if Earlier(t.date, EPOCH) then None else Some(InstantMs(t))
  {
    CanonicalFields(t);
    NoneExactlyBeforeEpoch(t.date);
    CanonicalFraction(t);
    FromFields(Text(t), Fields(t.date.year, t.date.month, t.date.day, t.hour, t.minute, t.second));
  }

  // Order.

  /** Strictly before, byte by byte. */
  predicate Before(a: seq<byte>, b: seq<byte>) {
    b != [] && (a == [] || a[0] < b[0] || (a[0] == b[0] && Before(a[1..], b[1..])))
  }

  lemma {:induction false} BeforePrefix(a: seq<byte>, b: seq<byte>, r: seq<byte>, q: seq<byte>)
    requires |a| == |b|
    ensures Before(a + r, b + q) <==> Before(a, b) || (a == b && Before(r, q))
  {
    if a == [] {
      assert a + r == r && b + q == q;
    } else {
      BeforePrefix(a[1..], b[1..], r, q);
      assert (a + r)[1..] == a[1..] + r && (b + q)[1..] == b[1..] + q;
      assert a == [a[0]] + a[1..] && b == [b[0]] + b[1..];
    }
  }

  lemma {:induction false} NeverBeforeItself(a: seq<byte>)
    ensures !Before(a, a)
  {
    if a != [] {
      NeverBeforeItself(a[1..]);
    }
  }

  lemma BeforeSnoc(a: seq<byte>, b: seq<byte>, x: byte, y: byte)
    requires |a| == |b|
    ensures Before(a + [x], b + [y]) <==> Before(a, b) || (a == b && x < y)
  {
    BeforePrefix(a, b, [x], [y]);
    assert Before([x], [y]) <==> x < y;
  }

  /** Digits of one length are ordered as the numbers they write. */
  lemma {:induction false} DigitOrder(a: seq<byte>, b: seq<byte>)
    requires AllDigits(a) && AllDigits(b) && |a| == |b|
    ensures Before(a, b) <==> NumberOf(a) < NumberOf(b)
    ensures a == b <==> NumberOf(a) == NumberOf(b)
  {
    if a != [] {
      DigitOrder(DropLast(a), DropLast(b));
      LastPutBack(a);
      LastPutBack(b);
      BeforeSnoc(DropLast(a), DropLast(b), Last(a), Last(b));
    }
  }

  lemma TwoOrder(m: nat, n: nat, r: seq<byte>, q: seq<byte>)
    requires m < 100 && n < 100
    ensures Before(Two(m) + r, Two(n) + q) <==> m < n || (m == n && Before(r, q))
  {
    BeforePrefix(Two(m), Two(n), r, q);
    DigitOrder(Two(m), Two(n));
    TwoIsRead(m);
    TwoIsRead(n);
  }

  lemma FourOrder(m: nat, n: nat, r: seq<byte>, q: seq<byte>)
    requires m < 10_000 && n < 10_000
    ensures Before(Four(m) + r, Four(n) + q) <==> m < n || (m == n && Before(r, q))
  {
    BeforePrefix(Four(m), Four(n), r, q);
    DigitOrder(Four(m), Four(n));
    FourIsRead(m);
    FourIsRead(n);
  }

  lemma SeparatorOrder(b: byte, r: seq<byte>, q: seq<byte>)
    ensures Before([b] + r, [b] + q) <==> Before(r, q)
  {
    BeforePrefix([b], [b], r, q);
    NeverBeforeItself([b]);
  }

  /** `s` is written with an earlier date, hour, minute or second. */
  predicate WrittenEarlier(s: Stamp, t: Stamp) {
    || Earlier(s.date, t.date)
    || (s.date == t.date && s.hour < t.hour)
    || (s.date == t.date && s.hour == t.hour && s.minute < t.minute)
    || (s.date == t.date && s.hour == t.hour && s.minute == t.minute && s.second < t.second)
  }

  predicate SameSecondWritten(s: Stamp, t: Stamp) {
    s.date == t.date && s.hour == t.hour && s.minute == t.minute && s.second == t.second
  }

  lemma ClockOrder(s: Stamp, t: Stamp)
    requires WellFormed(s) && WellFormed(t)
    ensures Before(Clock(s), Clock(t)) <==>
            || s.hour < t.hour
            || (s.hour == t.hour && s.minute < t.minute)
            || (s.hour == t.hour && s.minute == t.minute && s.second < t.second)
            || (s.hour == t.hour && s.minute == t.minute && s.second == t.second &&
                Before(Tail(s.fraction), Tail(t.fraction)))
  {
    var a, b := Two(s.second) + Tail(s.fraction), Two(t.second) + Tail(t.fraction);
    TwoOrder(s.second, t.second, Tail(s.fraction), Tail(t.fraction));
    SeparatorOrder(COLON, a, b);
    TwoOrder(s.minute, t.minute, [COLON] + a, [COLON] + b);
    var c, d := Two(s.minute) + ([COLON] + a), Two(t.minute) + ([COLON] + b);
    SeparatorOrder(COLON, c, d);
    TwoOrder(s.hour, t.hour, [COLON] + c, [COLON] + d);
  }

  lemma DateOrder(s: Stamp, t: Stamp)
    requires WellFormed(s) && WellFormed(t)
    ensures Before(Text(s), Text(t)) <==>
            Earlier(s.date, t.date) || (s.date == t.date && Before(Clock(s), Clock(t)))
  {
    var a, b := [UPPER_T] + Clock(s), [UPPER_T] + Clock(t);
    SeparatorOrder(UPPER_T, Clock(s), Clock(t));
    TwoOrder(s.date.day, t.date.day, a, b);
    var c, d := Two(s.date.day) + a, Two(t.date.day) + b;
    SeparatorOrder(DASH, c, d);
    TwoOrder(s.date.month, t.date.month, [DASH] + c, [DASH] + d);
    var e, f := Two(s.date.month) + ([DASH] + c), Two(t.date.month) + ([DASH] + d);
    SeparatorOrder(DASH, e, f);
    FourOrder(s.date.year, t.date.year, [DASH] + e, [DASH] + f);
  }

  lemma TextOrder(s: Stamp, t: Stamp)
    requires WellFormed(s) && WellFormed(t)
    ensures Before(Text(s), Text(t)) <==>
            WrittenEarlier(s, t) || (SameSecondWritten(s, t) && Before(Tail(s.fraction), Tail(t.fraction)))
  {
    DateOrder(s, t);
    ClockOrder(s, t);
  }

  /** Minutes since the epoch. */
  function InstantMinute(t: Stamp): int {
    DayNumber(t.date) * 1_440 + t.hour * 60 + t.minute
  }

  /** Seconds since the epoch; a leap second counts as the second that follows. */
  function InstantSecond(t: Stamp): int {
    InstantMinute(t) * 60 + t.second
  }

  lemma MinuteOrder(d: int, h: nat, m: nat, d': int, h': nat, m': nat)
    requires h < 24 && h' < 24 && m < 60 && m' < 60
    ensures d * 1_440 + h * 60 + m < d' * 1_440 + h' * 60 + m' <==>
            d < d' || (d == d' && h < h') || (d == d' && h == h' && m < m')
  {
  }

  lemma WrittenOrder(s: Stamp, t: Stamp)
    requires WellFormed(s) && WellFormed(t)
    ensures WrittenEarlier(s, t) <==>
            InstantMinute(s) < InstantMinute(t) || (InstantMinute(s) == InstantMinute(t) && s.second < t.second)
    ensures SameSecondWritten(s, t) <==> InstantMinute(s) == InstantMinute(t) && s.second == t.second
  {
    DayNumbersAscend(s.date, t.date);
    DayNumbersAscend(t.date, s.date);
    MinuteOrder(DayNumber(s.date), s.hour, s.minute, DayNumber(t.date), t.hour, t.minute);
    MinuteOrder(DayNumber(t.date), t.hour, t.minute, DayNumber(s.date), s.hour, s.minute);
  }

  lemma InSeconds(t: Stamp)
    requires WellFormed(t)
    ensures InstantMs(t) == InstantSecond(t) * 1_000 + Millis(t.fraction)
  {
  }

  lemma InstantOrder(s: Stamp, t: Stamp)
    requires WellFormed(s) && WellFormed(t)
    ensures InstantMs(s) < InstantMs(t) <==>
            InstantSecond(s) < InstantSecond(t)
            || (InstantSecond(s) == InstantSecond(t) && Millis(s.fraction) < Millis(t.fraction))
  {
    MillisBelow(s.fraction);
    MillisBelow(t.fraction);
    InSeconds(s);
    InSeconds(t);
  }

  // Fractions.

  /** The fraction as three digits. */
  function Padded(fraction: seq<byte>): (r: seq<byte>)
    requires AllDigits(fraction) && |fraction| <= 3
    ensures AllDigits(r) && |r| == 3 && fraction <= r
    decreases 3 - |fraction|
  {
    if |fraction| == 3 then fraction else Padded(fraction + [ZERO])
  }

  lemma {:induction false} PaddedNumber(fraction: seq<byte>)
    requires AllDigits(fraction) && |fraction| <= 3
    ensures NumberOf(Padded(fraction)) == Millis(fraction)
    decreases 3 - |fraction|
  {
    if |fraction| == 3 {
      assert Power10(0) == 1;
    } else {
      PaddedNumber(fraction + [ZERO]);
      assert DropLast(fraction + [ZERO]) == fraction;
      PaddedValue(NumberOf(fraction), 3 - |fraction|);
    }
  }

  lemma MillisOrder(a: seq<byte>, b: seq<byte>)
    requires AllDigits(a) && AllDigits(b) && |a| <= 3 && |b| <= 3
    ensures Millis(a) < Millis(b) <==> Before(Padded(a), Padded(b))
  {
    PaddedNumber(a);
    PaddedNumber(b);
    DigitOrder(Padded(a), Padded(b));
  }

  predicate ProperPrefix(a: seq<byte>, b: seq<byte>) {
    |a| < |b| && a == b[..|a|]
  }

  lemma PrefixWithHead(a: seq<byte>, b: seq<byte>)
    requires a != [] && b != [] && a[0] == b[0]
    ensures ProperPrefix(a[1..], b[1..]) ==> ProperPrefix(a, b)
  {
    assert a == [a[0]] + a[1..] && b == [b[0]] + b[1..];
  }

  /** Two digit strings, neither a prefix of the other, first differ somewhere. */
  lemma {:induction false} FirstDifference(a: seq<byte>, b: seq<byte>) returns (k: nat)
    requires a != b && !ProperPrefix(a, b) && !ProperPrefix(b, a)
    ensures k < |a| && k < |b| && a[..k] == b[..k] && a[k] != b[k]
  {
    if a[0] != b[0] {
      k := 0;
    } else {
      assert a == [a[0]] + a[1..] && b == [b[0]] + b[1..];
      PrefixWithHead(a, b);
      PrefixWithHead(b, a);
      k := FirstDifference(a[1..], b[1..]);
      k := k + 1;
      assert a[..k] == [a[0]] + a[1..][..k - 1] && b[..k] == [b[0]] + b[1..][..k - 1];
    }
  }

  lemma DifferAt(a: seq<byte>, b: seq<byte>, k: nat)
    requires k < |a| && k < |b| && a[..k] == b[..k] && a[k] != b[k]
    ensures Before(a, b) <==> a[k] < b[k]
  {
    assert a == a[..k] + a[k..] && b == b[..k] + b[k..];
    BeforePrefix(a[..k], b[..k], a[k..], b[k..]);
    NeverBeforeItself(a[..k]);
  }

  lemma ReadDigitsDiffer(a: seq<byte>, b: seq<byte>, k: nat)
    requires AllDigits(a) && AllDigits(b)
    requires k < |a| && k < |b| && k < 3 && a[..k] == b[..k] && a[k] != b[k]
    ensures a[k] < b[k] <==> Millis(a) < Millis(b)
  {
    var x, y := Take(3, a), Take(3, b);
    assert x[..k] == a[..k] && y[..k] == b[..k] && x[k] == a[k] && y[k] == b[k];
    MillisOrder(x, y);
    var p, q := Padded(x), Padded(y);
    assert p[..k] == x[..k] && q[..k] == y[..k];
    DifferAt(p, q, k);
  }

  /** Neither fraction continues the other: the digit where they part decides,
      unless it is one that is not read. */
  lemma TailsThatDiffer(a: seq<byte>, b: seq<byte>)
    requires AllDigits(a) && AllDigits(b)
    requires !ProperPrefix(a, b) && !ProperPrefix(b, a)
    ensures Before(Tail(a), Tail(b)) <==> Before(a, b)
    ensures Take(3, a) != Take(3, b) ==> (Before(a, b) <==> Millis(a) < Millis(b))
  {
    if a == b {
      NeverBeforeItself(Tail(a));
      NeverBeforeItself(a);
    } else {
      var k := FirstDifference(a, b);
      DifferAt(a, b, k);
      SeparatorOrder(DOT, a + [UPPER_Z], b + [UPPER_Z]);
      DifferAt(a + [UPPER_Z], b + [UPPER_Z], k);
      if k < 3 {
        ReadDigitsDiffer(a, b, k);
      } else {
        assert Take(3, a) == a[..k][..3] && Take(3, b) == b[..k][..3];
      }
    }
  }

  lemma LongerTailFirst(a: seq<byte>, b: seq<byte>)
    requires AllDigits(b) && ProperPrefix(a, b)
    ensures Before(Tail(b), Tail(a)) && !Before(Tail(a), Tail(b))
  {
    if a != [] {
      SeparatorOrder(DOT, a + [UPPER_Z], b + [UPPER_Z]);
      SeparatorOrder(DOT, b + [UPPER_Z], a + [UPPER_Z]);
      DifferAt(a + [UPPER_Z], b + [UPPER_Z], |a|);
      DifferAt(b + [UPPER_Z], a + [UPPER_Z], |a|);
    }
  }

  lemma OneDigitMore(b: seq<byte>)
    requires AllDigits(b) && 0 < |b| <= 3
    ensures Millis(DropLast(b)) <= Millis(b)
  {
    var n, d, p := NumberOf(DropLast(b)), Last(b) - ZERO, Power10(3 - |b|);
    PaddedValue(n, 4 - |b|);
    assert (10 * n + d) * p == (10 * n) * p + d * p;
  }

  lemma {:induction false} PrefixMillis(a: seq<byte>, b: seq<byte>)
    requires AllDigits(b) && |b| <= 3 && a <= b
    ensures AllDigits(a) && Millis(a) <= Millis(b)
    decreases |b|
  {
    assert AllDigits(a);
    if a != b {
      PrefixMillis(a, DropLast(b));
      OneDigitMore(b);
    }
  }

  lemma PrefixReadsLess(a: seq<byte>, b: seq<byte>)
    requires AllDigits(a) && AllDigits(b) && ProperPrefix(a, b)
    ensures Millis(a) <= Millis(b)
  {
    assert Take(3, a) <= Take(3, b);
    PrefixMillis(Take(3, a), Take(3, b));
  }

  /** Within one second the strings go the other way, or part two that are read
      alike: the first continues the second, as `.50Z` does `.5Z`; or the second
      continues the first by something that counts, as `.5Z` does `Z`; or the
      first is less, but only in digits that are not read, as `.1234Z` is than
      `.1235Z`. */
  predicate FractionsMisordered(a: seq<byte>, b: seq<byte>)
    requires AllDigits(a) && AllDigits(b)
  {
    || ProperPrefix(b, a)
    || (ProperPrefix(a, b) && Millis(a) != Millis(b))
    || (!ProperPrefix(a, b) && Take(3, a) == Take(3, b) && Before(a, b))
  }

  lemma FractionOrder(a: seq<byte>, b: seq<byte>)
    requires AllDigits(a) && AllDigits(b)
    ensures (Before(Tail(a), Tail(b)) <==> Millis(a) < Millis(b)) <==> !FractionsMisordered(a, b)
  {
    if ProperPrefix(b, a) {
      LongerTailFirst(b, a);
      PrefixReadsLess(b, a);
    } else if ProperPrefix(a, b) {
      LongerTailFirst(a, b);
      PrefixReadsLess(a, b);
    } else {
      TailsThatDiffer(a, b);
    }
  }

  /** One of the two is a leap second, written before the second it is read as,
      and the fractions order them the other way or not at all. */
  predicate LeapMisordered(s: Stamp, t: Stamp)
    requires WellFormed(s) && WellFormed(t)
  {
    && !SameSecondWritten(s, t) && InstantSecond(s) == InstantSecond(t)
    && (s.second == 60) != (Millis(s.fraction) < Millis(t.fraction))
  }

  lemma SecondOrder(m: int, s: nat, m': int, s': nat)
    requires s <= 60 && s' <= 60
    ensures m * 60 + s < m' * 60 + s' ==> m < m' || (m == m' && s < s')
    ensures m * 60 + s == m' * 60 + s' && (m != m' || s != s') ==>
              ((s == 60) <==> (m < m' || (m == m' && s < s'))) && ((s' == 60) <==> s != 60)
    ensures m * 60 + s > m' * 60 + s' ==> !(m < m' || (m == m' && s < s'))
  {
  }

  lemma DifferentSeconds(s: Stamp, t: Stamp)
    requires WellFormed(s) && WellFormed(t) && !SameSecondWritten(s, t)
    ensures (WrittenEarlier(s, t) <==> InstantMs(s) < InstantMs(t)) <==> !LeapMisordered(s, t)
  {
    WrittenOrder(s, t);
    InstantOrder(s, t);
    SecondOrder(InstantMinute(s), s.second, InstantMinute(t), t.second);
  }

  /** Any two canonical timestamps are ordered by their strings as by their
      instants exactly when neither the fractions of one second nor a leap
      second stand in the way. */
  lemma StringOrderAgreesExactlyWhen(s: Stamp, t: Stamp)
    requires WellFormed(s) && WellFormed(t)
    ensures (Before(Text(s), Text(t)) <==> InstantMs(s) < InstantMs(t)) <==>
            !LeapMisordered(s, t) &&
            !(SameSecondWritten(s, t) && FractionsMisordered(s.fraction, t.fraction))
  {
    TextOrder(s, t);
    if SameSecondWritten(s, t) {
      WrittenOrder(s, t);
      InstantOrder(s, t);
      FractionOrder(s.fraction, t.fraction);
    } else {
      DifferentSeconds(s, t);
    }
  }

  /** The timestamp written with exactly the three digits that are read. */
  function Thousandths(t: Stamp): (r: Stamp)
    requires WellFormed(t)
    ensures WellFormed(r)
  {
    t.(fraction := Padded(Take(3, t.fraction)))
  }

  lemma ThousandthsAreRead(t: Stamp)
    requires WellFormed(t)
    ensures InstantMs(Thousandths(t)) == InstantMs(t)
    ensures Millis(Thousandths(t).fraction) == Millis(t.fraction)
  {
    var read := Take(3, t.fraction);
    PaddedNumber(read);
    assert Millis(read) == Millis(t.fraction);
    assert Take(3, Padded(read)) == Padded(read) && Power10(0) == 1;
  }

  lemma ThreeDigitsInOrder(a: seq<byte>, b: seq<byte>)
    requires AllDigits(a) && AllDigits(b) && |a| == |b| == 3
    ensures !FractionsMisordered(a, b)
  {
    NeverBeforeItself(a);
  }

  /** Written with exactly three fraction digits, timestamps are ordered as
      their strings, but for leap seconds. */
  lemma OrderedAsStrings(s: Stamp, t: Stamp)
    requires WellFormed(s) && WellFormed(t)
    ensures (Before(Text(Thousandths(s)), Text(Thousandths(t))) <==> InstantMs(s) < InstantMs(t)) <==>
            !LeapMisordered(s, t)
  {
    var a, b := Thousandths(s), Thousandths(t);
    ThousandthsAreRead(s);
    ThousandthsAreRead(t);
    StringOrderAgreesExactlyWhen(a, b);
    ThreeDigitsInOrder(a.fraction, b.fraction);
  }

  /** A leap second is read as the first instant of the next day, which is written later. */
  lemma LeapSecondTies(date: Date)
    requires Calendar.Valid(date) && 0 <= date.year < 9_999
    ensures var leap, next := Stamp(date, 23, 59, 60, []), Stamp(Successor(date), 0, 0, 0, []);
            && WellFormed(leap) && WellFormed(next)
            && InstantMs(leap) == InstantMs(next) && Before(Text(leap), Text(next))
  {
    DayNumbersCount(date);
    TextOrder(Stamp(date, 23, 59, 60, []), Stamp(Successor(date), 0, 0, 0, []));
  }

  /** Digits behind the third order the strings and not the instants. */
  lemma UnreadDigitsTie(t: Stamp, x: byte, y: byte)
    requires WellFormed(t) && |t.fraction| >= 3 && IsDigit(x) && IsDigit(y) && x < y
    ensures var a, b := t.(fraction := t.fraction + [x]), t.(fraction := t.fraction + [y]);
            && WellFormed(a) && WellFormed(b)
            && InstantMs(a) == InstantMs(b) && Before(Text(a), Text(b))
  {
    var a, b := t.(fraction := t.fraction + [x]), t.(fraction := t.fraction + [y]);
    assert Take(3, a.fraction) == Take(3, t.fraction) == Take(3, b.fraction);
    BeforeSnoc(t.fraction, t.fraction, x, y);
    TailsThatDiffer(a.fraction, b.fraction);
    TextOrder(a, b);
  }

  /** Half a second later, yet before it as a string: `…05Z` and `…05.5Z`. */
  lemma HalfSecondSortsFirst()
    ensures var s := Stamp(Date(2024, 1, 1), 0, 0, 5, []);
            var t := s.(fraction := [ZERO + 5]);
            && WellFormed(s) && WellFormed(t)
            && InstantMs(t) == InstantMs(s) + 500 && Before(Text(t), Text(s))
  {
    var s := Stamp(Date(2024, 1, 1), 0, 0, 5, []);
    var t := s.(fraction := [ZERO + 5]);
    assert DropLast([ZERO + 5]) == [] && NumberOf([ZERO + 5]) == 5;
    assert Power10(2) == 100 && Millis(t.fraction) == 500 && Millis(s.fraction) == 0;
    TextOrder(t, s);
  }
}
