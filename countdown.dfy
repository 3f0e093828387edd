/**
 * The trial countdown (src/components/TrialBanner.tsx): the trial ends fourteen days
 * after the banner mounts, and each tick splits the milliseconds left into days,
 * hours, minutes and seconds, all zero once the end has passed.
 */
module TrialCountdown {
  const MsPerSecond := 1000
  const MsPerMinute := 60_000
  const MsPerHour := 3_600_000
  const MsPerDay := 86_400_000

  const TrialDays := 14

  datatype TimeLeft = TimeLeft(days: int, hours: int, minutes: int, seconds: int)

  /** One tick: `Math.floor` of the quotients is Dafny's division, as `distance` is positive
      wherever it is used. */
  function Countdown(distance: int): TimeLeft {
    if distance > 0 then
      TimeLeft(distance / MsPerDay, (distance % MsPerDay) / MsPerHour,
               (distance % MsPerHour) / MsPerMinute, (distance % MsPerMinute) / MsPerSecond)
    else TimeLeft(0, 0, 0, 0)
  }

  /** `trialEndDate`: fourteen days after the mount time, in milliseconds. */
  function TrialEnd(mountedAt: int): int {
    mountedAt + TrialDays * MsPerDay
  }

  /** The countdown shown at time `now`. */
  function Tick(mountedAt: int, now: int): TimeLeft {
    Countdown(TrialEnd(mountedAt) - now)
  }

  /** The milliseconds a countdown stands for. */
  function Millis(t: TimeLeft): int {
    t.days * MsPerDay + t.hours * MsPerHour + t.minutes * MsPerMinute + t.seconds * MsPerSecond
  }

  predicate InRange(t: TimeLeft) {
    t.days >= 0 && 0 <= t.hours < 24 && 0 <= t.minutes < 60 && 0 <= t.seconds < 60
  }

  /** Hours, minutes and seconds stay within a day, an hour and a minute. */
  lemma CountdownRanges(distance: int)
    ensures InRange(Countdown(distance))
  {
  }

  /** A tick loses only the milliseconds below a whole second. */
  lemma CountdownRecomposes(distance: int)
    requires distance > 0
    ensures Millis(Countdown(distance)) <= distance < Millis(Countdown(distance)) + MsPerSecond
    ensures Millis(Countdown(distance)) == distance - distance % MsPerSecond
  {
    var t := Countdown(distance);
    NestedRemainder(distance, 24, MsPerHour);
    NestedRemainder(distance, 60, MsPerMinute);
    NestedRemainder(distance, 60, MsPerSecond);
    var rd := distance % MsPerDay;
    var rh := distance % MsPerHour;
    var rm := distance % MsPerMinute;
    var rs := distance % MsPerSecond;
    assert distance == t.days * MsPerDay + rd;
    assert rd == t.hours * MsPerHour + rh;
    assert rh == t.minutes * MsPerMinute + rm;
    assert rm == t.seconds * MsPerSecond + rs;
  }

  /** The remainder by `unit` is unchanged by first taking the remainder by `k` units. */
  lemma NestedRemainder(d: int, k: nat, unit: nat)
    requires k > 0 && unit > 0
    ensures d % unit == (d % (k * unit)) % unit
  {
    var q, r := d / (k * unit), d % (k * unit);
    assert d == (q * k) * unit + r by {
      assert d == q * (k * unit) + r;
    }
    ModOfMultiplePlus(q * k, unit, r);
  }

  lemma ModOfMultiplePlus(q: int, unit: nat, r: int)
    requires unit > 0
    ensures (q * unit + r) % unit == r % unit
  {
    var a, b := r / unit, r % unit;
    assert q * unit + r == (q + a) * unit + b;
    DivModUnique(q * unit + r, unit, q + a, b);
  }

  lemma DivModUnique(x: int, unit: nat, q: int, b: int)
    requires unit > 0 && x == q * unit + b && 0 <= b < unit
    ensures x % unit == b
  {
    var q', b' := x / unit, x % unit;
    assert (q - q') * unit == b' - b;
    if q > q' {
      AtLeastOnce(q - q', unit);
    } else if q < q' {
      AtLeastOnce(q' - q, unit);
    }
  }

  lemma {:induction false} AtLeastOnce(n: int, unit: nat)
    requires n >= 1
    ensures n * unit >= unit
    decreases n
  {
    if n > 1 {
      AtLeastOnce(n - 1, unit);
      assert n * unit == (n - 1) * unit + unit;
    }
  }

  /** Once the end has passed, every field shows zero; in the last second before it they
      already do. */
  lemma CountdownAtZero(distance: int)
    requires distance < MsPerSecond
    ensures Countdown(distance) == TimeLeft(0, 0, 0, 0)
  {
  }

  /** A distance of exactly the whole trial splits into fourteen days and nothing else.
      The banner never shows it: its state starts at all zeros and the first tick comes
      one interval after mount (see `FirstTickBelowTrial`). */
  lemma CountdownOfFullTrial(mountedAt: int)
    ensures Tick(mountedAt, mountedAt) == TimeLeft(TrialDays, 0, 0, 0)
  {
    assert TrialEnd(mountedAt) - mountedAt == 14 * MsPerDay;
  }

  /** Any tick after mount shows at most 13 days, 23 hours, 59 minutes and 59 seconds. */
  lemma FirstTickBelowTrial(mountedAt: int, now: int)
    requires now > mountedAt
    ensures NoLater(Tick(mountedAt, now), TimeLeft(13, 23, 59, 59))
  {
    var d := TrialEnd(mountedAt) - now;
    var t := Countdown(d);
    CountdownRanges(d);
    if d > 0 {
      CountdownRecomposes(d);
      assert d - d % MsPerSecond == MsPerSecond * (d / MsPerSecond);
      assert d / MsPerSecond <= 1209599;
    }
    assert Millis(TimeLeft(13, 23, 59, 59)) == 1209599000;
    MillisOrder(t, TimeLeft(13, 23, 59, 59));
  }

  /** The order in which the banner's fields read: days first, seconds last. */
  predicate NoLater(a: TimeLeft, b: TimeLeft) {
    a.days < b.days
    || (a.days == b.days && (a.hours < b.hours
    || (a.hours == b.hours && (a.minutes < b.minutes
    || (a.minutes == b.minutes && a.seconds <= b.seconds)))))
  }

  /** For countdowns within range, reading the fields in order compares the milliseconds. */
  lemma MillisOrder(a: TimeLeft, b: TimeLeft)
    requires InRange(a) && InRange(b) && Millis(a) <= Millis(b)
    ensures NoLater(a, b)
  {
    if a.days > b.days {
      assert false;
    } else if a.days == b.days && a.hours > b.hours {
      assert false;
    } else if a.days == b.days && a.hours == b.hours && a.minutes > b.minutes {
      assert false;
    }
  }

  /** More time left never shows a countdown that reads as less. */
  lemma CountdownMonotone(d1: int, d2: int)
    requires d1 <= d2
    ensures NoLater(Countdown(d1), Countdown(d2))
  {
    CountdownRanges(d1);
    CountdownRanges(d2);
    if d1 > 0 {
      CountdownRecomposes(d1);
      CountdownRecomposes(d2);
      assert d1 / MsPerSecond <= d2 / MsPerSecond;
      assert d1 - d1 % MsPerSecond == MsPerSecond * (d1 / MsPerSecond);
      assert d2 - d2 % MsPerSecond == MsPerSecond * (d2 / MsPerSecond);
      MillisOrder(Countdown(d1), Countdown(d2));
    }
  }

  /** Time passing never makes the countdown go up. */
  lemma TickNeverRises(mountedAt: int, earlier: int, later: int)
    requires earlier <= later
    ensures NoLater(Tick(mountedAt, later), Tick(mountedAt, earlier))
  {
    CountdownMonotone(TrialEnd(mountedAt) - later, TrialEnd(mountedAt) - earlier);
  }
}
