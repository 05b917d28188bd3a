/** The progress figures of the download bot: the days/hours/minutes split
    and the status record shown after every image and on every stalled tick. */
module Progress {
  import opened Common

  const SecondsPerDay: int := 24 * 3600

  datatype Dhm = Dhm(days: int, hours: int, minutes: int)

  /** The whole seconds a (days, hours, minutes) triple stands for. */
  function Seconds(t: Dhm): int { t.days * SecondsPerDay + t.hours * 3600 + t.minutes * 60 }

  /** `__sec2dhm__` on an integer number of seconds.  Python's `//` and `%`
      floor; with these positive divisors they agree with Dafny's, so the
      split also holds for negative durations. */
  function Sec2Dhm(d: int): (r: Dhm)
    ensures 0 <= r.hours < 24 && 0 <= r.minutes < 60
    ensures Seconds(r) <= d < Seconds(r) + 60
  {
    var r := Dhm(d / SecondsPerDay, (d % SecondsPerDay) / 3600, (d % 3600) / 60);
    DayRemainder(d);
    r
  }

  /** The remainder modulo an hour can be taken from the remainder modulo a day. */
  lemma DayRemainder(d: int)
    ensures d % 3600 == (d % SecondsPerDay) % 3600
    ensures d == (d / SecondsPerDay) * SecondsPerDay + ((d % SecondsPerDay) / 3600) * 3600 + d % 3600
  {
    var q, r := d / SecondsPerDay, d % SecondsPerDay;
    assert d == q * SecondsPerDay + r;
    var h, m := r / 3600, r % 3600;
    assert r == h * 3600 + m;
    assert d == (q * 24 + h) * 3600 + m;
  }

  /** The split is unique: a well-formed triple plus fewer than 60 seconds
      splits back into that triple. */
  lemma Sec2DhmInverse(t: Dhm, s: int)
    requires 0 <= t.hours < 24 && 0 <= t.minutes < 60 && 0 <= s < 60
    ensures Sec2Dhm(Seconds(t) + s) == t
  {
    var d := Seconds(t) + s;
    var r := Sec2Dhm(d);
    var rem := t.hours * 3600 + t.minutes * 60 + s;
    assert 0 <= rem < SecondsPerDay;
    assert d == t.days * SecondsPerDay + rem;
    assert r.days == t.days;
    assert Seconds(r) - Seconds(t) < 60 && Seconds(t) - Seconds(r) < 60;
    assert (r.hours - t.hours) * 3600 + (r.minutes - t.minutes) * 60 == Seconds(r) - Seconds(t);
  }

  /** The status record `__get_status__` builds (its strings as numbers). */
  datatype Report = Report(status: string, speed: real, eta: Dhm, remaining: int, elapsed: Dhm)

  /** `__get_status__` once a positive counter makes the speed defined. */
  function StatusReport(status: string, elapsed: int, imgLen: int, counter: nat): (r: Report)
    requires counter > 0
    ensures r.status == status && r.remaining == imgLen - 1
  {
    var speed := elapsed as real / counter as real;
    var remaining := imgLen - 1;
    var estimate := speed * remaining as real;
    Report(status, speed, Sec2Dhm(estimate.Floor), remaining, Sec2Dhm(elapsed))
  }

  /** The figures of the record: the speed is the seconds per image so far,
      the estimate is that speed times the images remaining, rounded down to
      whole minutes, and the elapsed time is the whole minutes elapsed. */
  lemma StatusFigures(status: string, elapsed: int, imgLen: int, counter: nat)
    requires counter > 0
    ensures var r := StatusReport(status, elapsed, imgLen, counter);
            && r.speed * counter as real == elapsed as real
            && Seconds(r.eta) as real <= r.speed * r.remaining as real < Seconds(r.eta) as real + 60.0
            && Seconds(r.elapsed) <= elapsed < Seconds(r.elapsed) + 60
  {
  }

  /** `__get_status__`: `elapsed / counter` raises ZeroDivisionError while the counter is 0. */
  function GetStatus(status: string, elapsed: int, imgLen: int, counter: nat): (r: Result<Report>)
    ensures r.Err? <==> counter == 0
    ensures r.Err? ==> r.error == ZeroDivision
    ensures r.Ok? ==> r.value.status == status && r.value.remaining == imgLen - 1
  {
    if counter == 0 then Err(ZeroDivision) else Ok(StatusReport(status, elapsed, imgLen, counter))
  }
}
