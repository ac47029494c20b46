/** The countdown arithmetic of `human_left`: the difference between the
    exam instant and "now" as a Python `timedelta`, and its breakdown into
    whole days, hours and minutes. */
module Countdown {
  import Text

  /** An absolute instant in microseconds since a fixed epoch; a microsecond
      is the resolution of Python's `datetime`. */
  type Instant = int

  const MicrosPerSecond: int := 1_000_000
  const SecondsPerDay: int := 86_400
  const MicrosPerMinute: int := 60 * MicrosPerSecond

  /** Python's `timedelta`, in the normal form Python keeps it in. */
  datatype TimeDelta = TimeDelta(days: int, seconds: int, microseconds: int)

  /** `timedelta`'s normal form: any number of days, then
      `0 <= seconds < 86400` and `0 <= microseconds < 10**6`. */
  predicate Normalised(d: TimeDelta) {
    && 0 <= d.seconds < SecondsPerDay
    && 0 <= d.microseconds < MicrosPerSecond
  }

  /** The length of a delta in microseconds (`total_seconds()` times 10**6). */
  function TotalMicros(d: TimeDelta): int {
    (d.days * SecondsPerDay + d.seconds) * MicrosPerSecond + d.microseconds
  }

  /** `to - from` for two aware datetimes: the normalised delta of that
      length. */
  function Between(to: Instant, from: Instant): (d: TimeDelta)
    ensures Normalised(d)
    ensures TotalMicros(d) == to - from
  {
    var us := to - from;
    var s := us / MicrosPerSecond;
    TimeDelta(s / SecondsPerDay, s % SecondsPerDay, us % MicrosPerSecond)
  }

  /** The normal form is unique: a normalised delta is determined by its
      length, so `Between` is the only way to write `to - from`. */
  lemma NormalFormUnique(d: TimeDelta, e: TimeDelta)
    requires Normalised(d) && Normalised(e)
    requires TotalMicros(d) == TotalMicros(e)
    ensures d == e
  {
    var sd := d.days * SecondsPerDay + d.seconds;
    var se := e.days * SecondsPerDay + e.seconds;
    DivModUnique(sd, d.microseconds, se, e.microseconds, MicrosPerSecond);
    DivModUnique(d.days, d.seconds, e.days, e.seconds, SecondsPerDay);
  }

  /** Quotient and remainder by a positive divisor are unique. */
  lemma DivModUnique(q1: int, r1: int, q2: int, r2: int, b: int)
    requires b > 0
    requires 0 <= r1 < b && 0 <= r2 < b
    requires q1 * b + r1 == q2 * b + r2
    ensures q1 == q2 && r1 == r2
  {
    if q1 != q2 {
      var lo, hi := if q1 < q2 then q1 else q2, if q1 < q2 then q2 else q1;
      var k := hi - lo;
      assert hi * b == lo * b + k * b;
      MulAtLeast(k, b);
    }
  }

  lemma {:induction false} MulAtLeast(k: int, b: int)
    requires k >= 1 && b > 0
    ensures k * b >= b
    decreases k
  {
    if k > 1 {
      MulAtLeast(k - 1, b);
      assert k * b == (k - 1) * b + b;
    }
  }

  /** What `human_left` reports: the exam has been reached, or the whole
      days, hours and minutes still to go. */
  datatype Left = Reached | Pending(days: nat, hours: nat, minutes: nat)

  /** The number of microseconds a pending breakdown accounts for. */
  function Shown(l: Left): int
    requires l.Pending?
  {
    (l.days * SecondsPerDay + l.hours * 3600 + l.minutes * 60) * MicrosPerSecond
  }

  /** `human_left` with the clock read passed in: `Reached` exactly when
      `total_seconds() <= 0`, otherwise `delta.days`,
      `delta.seconds // 3600` and `(delta.seconds % 3600) // 60`. The
      breakdown is a truncation: it never shows more than is left, and
      drops less than one minute. */
  function HumanLeft(target: Instant, now: Instant): (l: Left)
    ensures l.Reached? <==> target - now <= 0
    ensures l.Pending? ==> l.hours < 24 && l.minutes < 60
    ensures l.Pending? ==> Shown(l) <= target - now < Shown(l) + MicrosPerMinute
  {
    var delta := Between(target, now);
    if TotalMicros(delta) <= 0 then Reached
    else
      var hours := delta.seconds / 3600;
      var minutes := (delta.seconds % 3600) / 60;
      assert delta.seconds == hours * 3600 + minutes * 60 + delta.seconds % 60;
      Pending(delta.days, hours, minutes)
  }

  /** The pending breakdown is exactly the whole minutes left: days, hours
      and minutes are the only triple with `hours < 24` and `minutes < 60`
      within a minute below the time left. */
  lemma PendingIsUnique(target: Instant, now: Instant, days: nat, hours: nat, minutes: nat)
    requires target - now > 0
    requires hours < 24 && minutes < 60
    requires var c := Pending(days, hours, minutes);
      Shown(c) <= target - now < Shown(c) + MicrosPerMinute
    ensures HumanLeft(target, now) == Pending(days, hours, minutes)
  {
    var l := HumanLeft(target, now);
    var x := target - now;
    var m1 := l.days * 1440 + l.hours * 60 + l.minutes;
    var m2 := days * 1440 + hours * 60 + minutes;
    assert Shown(l) == m1 * MicrosPerMinute;
    assert Shown(Pending(days, hours, minutes)) == m2 * MicrosPerMinute;
    DivModUnique(m1, x - m1 * MicrosPerMinute, m2, x - m2 * MicrosPerMinute, MicrosPerMinute);
    DivModUnique(l.days * 24 + l.hours, l.minutes, days * 24 + hours, minutes, 60);
    DivModUnique(l.days, l.hours, days, hours, 24);
  }

  /** The message shown once the exam time has come. */
  const ReachedText: string := "به زمان آزمون رسیدی! موفق باشی 🌟"

  /** The text `human_left` returns for a breakdown. */
  function Render(l: Left): string {
    match l
    case Reached => ReachedText
    case Pending(d, h, m) =>
      Text.NatToString(d) + " روز، " + Text.NatToString(h) + " ساعت و "
        + Text.NatToString(m) + " دقیقه"
  }

  /** Digits followed by a non-digit: the digit run is determined, so
      equal texts have equal numbers and equal rests. */
  lemma DigitsThenRest(a: string, x: string, b: string, y: string)
    requires forall i :: 0 <= i < |a| ==> Text.IsDigit(a[i])
    requires forall i :: 0 <= i < |b| ==> Text.IsDigit(b[i])
    requires |x| > 0 && !Text.IsDigit(x[0]) && |y| > 0 && !Text.IsDigit(y[0])
    requires a + x == b + y
    ensures a == b && x == y
  {
    assert a == (a + x)[..|a|];
    assert b == (b + y)[..|b|];
    assert x == (a + x)[|a|..];
    assert y == (b + y)[|b|..];
  }

  /** Three digit runs, each followed by the same separator text, are
      read back uniquely. */
  lemma ThreeNumbers(d1: string, h1: string, m1: string, d2: string, h2: string, m2: string,
                     s1: string, s2: string, s3: string)
    requires forall i :: 0 <= i < |d1| ==> Text.IsDigit(d1[i])
    requires forall i :: 0 <= i < |h1| ==> Text.IsDigit(h1[i])
    requires forall i :: 0 <= i < |m1| ==> Text.IsDigit(m1[i])
    requires forall i :: 0 <= i < |d2| ==> Text.IsDigit(d2[i])
    requires forall i :: 0 <= i < |h2| ==> Text.IsDigit(h2[i])
    requires forall i :: 0 <= i < |m2| ==> Text.IsDigit(m2[i])
    requires |s1| > 0 && !Text.IsDigit(s1[0])
    requires |s2| > 0 && !Text.IsDigit(s2[0])
    requires |s3| > 0 && !Text.IsDigit(s3[0])
    requires d1 + s1 + h1 + s2 + m1 + s3 == d2 + s1 + h2 + s2 + m2 + s3
    ensures d1 == d2 && h1 == h2 && m1 == m2
  {
    var r1, r2 := s1 + (h1 + (s2 + (m1 + s3))), s1 + (h2 + (s2 + (m2 + s3)));
    assert d1 + s1 + h1 + s2 + m1 + s3 == d1 + r1;
    assert d2 + s1 + h2 + s2 + m2 + s3 == d2 + r2;
    DigitsThenRest(d1, r1, d2, r2);
    assert h1 + (s2 + (m1 + s3)) == r1[|s1|..];
    assert h2 + (s2 + (m2 + s3)) == r2[|s1|..];
    DigitsThenRest(h1, s2 + (m1 + s3), h2, s2 + (m2 + s3));
    assert m1 + s3 == (s2 + (m1 + s3))[|s2|..];
    assert m2 + s3 == (s2 + (m2 + s3))[|s2|..];
    DigitsThenRest(m1, s3, m2, s3);
  }

  /** A breakdown is written starting with a digit; the "exam reached"
      message is not. */
  lemma RenderHead(l: Left)
    ensures |Render(l)| > 0
    ensures Text.IsDigit(Render(l)[0]) <==> l.Pending?
  {
    if l.Reached? {
      assert Render(l)[0] == 'ب';
    }
  }

  /** The text `human_left` sends determines the breakdown: different
      days, hours or minutes are never written the same way, and the
      "exam reached" message is no breakdown. */
  lemma RenderInjective(l1: Left, l2: Left)
    requires Render(l1) == Render(l2)
    ensures l1 == l2
  {
    RenderHead(l1);
    RenderHead(l2);
    if l1.Pending? && l2.Pending? {
      var s1, s2, s3 := " روز، ", " ساعت و ", " دقیقه";
      assert s1[0] == ' ' && s2[0] == ' ' && s3[0] == ' ';
      ThreeNumbers(Text.NatToString(l1.days), Text.NatToString(l1.hours), Text.NatToString(l1.minutes),
                   Text.NatToString(l2.days), Text.NatToString(l2.hours), Text.NatToString(l2.minutes),
                   s1, s2, s3);
      Text.NatToStringInjective(l1.days, l2.days);
      Text.NatToStringInjective(l1.hours, l2.hours);
      Text.NatToStringInjective(l1.minutes, l2.minutes);
    }
  }

  /** `human_left` as text: the "exam reached" message exactly when no time
      is left, since a pending breakdown starts with a digit and the
      message does not; otherwise the written-out breakdown. */
  function HumanLeftText(target: Instant, now: Instant): (s: string)
    ensures s == ReachedText <==> target - now <= 0
    ensures target - now > 0 ==> s == Render(HumanLeft(target, now))
  {
    var l := HumanLeft(target, now);
    var s := Render(l);
    assert l.Pending? ==> Text.IsDigit(s[0]);
    s
  }
}
