/**
 Time as libusb computes with it: deadlines are stored in microseconds, clocks tick in
 nanoseconds, poll waits for milliseconds.
 */
module Deadlines {
  import opened Usb

  const MICRO := 1_000_000
  const NANO := 1_000_000_000

  /** struct timeval and struct timespec */
  datatype Timeval = Timeval(sec: int, usec: int)
  datatype Timespec = Timespec(sec: int, nsec: int)

  predicate Normal(t: Timeval) { t.sec >= 0 && 0 <= t.usec < MICRO }

  predicate NormalSpec(t: Timespec) { t.sec >= 0 && 0 <= t.nsec < NANO }

  /** What reading the monotonic clock gives. */
  datatype Clock = Reads(now: Timespec) | Fails(code: Code)

  /** timerisset */
  predicate IsSet(t: Timeval) { t.sec != 0 || t.usec != 0 }

  /** The comparison add_to_flying_list and handle_timeouts_locked spell out. */
  predicate Later(a: Timeval, b: Timeval) {
    a.sec > b.sec || (a.sec == b.sec && a.usec > b.usec)
  }

  function Micros(t: Timeval): int { t.sec * MICRO + t.usec }

  function Nanos(t: Timespec): int { t.sec * NANO + t.nsec }

  /** TIMESPEC_TO_TIMEVAL */
  function ToTimeval(t: Timespec): Timeval { Timeval(t.sec, t.nsec / 1000) }

  lemma LaterIsMore(a: Timeval, b: Timeval)
    requires Normal(a) && Normal(b)
    ensures Later(a, b) <==> Micros(a) > Micros(b)
  {
  }

  lemma ToTimevalTruncates(t: Timespec)
    requires NormalSpec(t)
    ensures Normal(ToTimeval(t)) && Micros(ToTimeval(t)) == Nanos(t) / 1000
  {
    assert Nanos(t) == 1000 * (t.sec * MICRO) + t.nsec;
  }

  /** calculate_timeout: `now` is the clock reading (None: it failed), `userTimeout` is in
      milliseconds, and `stored` is the deadline the transfer carried before. A transfer whose user
      asks for no timeout keeps that one: it is unlimited only if it carried none. */
  method CalculateTimeout(userTimeout: nat, now: Option<Timespec>, stored: Timeval)
    returns (ok: bool, deadline: Timeval)
    requires now.Some? ==> NormalSpec(now.value)
    ensures ok <==> userTimeout == 0 || now.Some?
    ensures !ok || userTimeout == 0 ==> deadline == stored
    ensures ok && userTimeout > 0 ==>
              && Normal(deadline) && IsSet(deadline)
              && Micros(deadline) == (Nanos(now.value) + userTimeout * MICRO) / 1000
  {
    if userTimeout == 0 {
      return true, stored;
    }
    if now.None? {
      return false, stored;
    }
    var current := now.value;
    current := current.(sec := current.sec + userTimeout / 1000);
    current := current.(nsec := current.nsec + (userTimeout % 1000) * MICRO);
    ghost var total := Nanos(now.value) + userTimeout * MICRO;
    assert Nanos(current) == total by {
      assert userTimeout == 1000 * (userTimeout / 1000) + userTimeout % 1000;
    }
    while current.nsec >= NANO
      invariant current.sec >= 0 && current.nsec >= 0 && Nanos(current) == total
      decreases current.nsec
    {
      current := Timespec(current.sec + 1, current.nsec - NANO);
    }
    deadline := ToTimeval(current);
    ToTimevalTruncates(current);
    assert Micros(deadline) == total / 1000 >= 1000;
    ok := true;
  }

  /** timersub */
  function Minus(a: Timeval, b: Timeval): Timeval {
    if a.usec < b.usec then Timeval(a.sec - b.sec - 1, a.usec - b.usec + MICRO)
    else Timeval(a.sec - b.sec, a.usec - b.usec)
  }

  lemma MinusIsDifference(a: Timeval, b: Timeval)
    requires Normal(a) && Normal(b) && !Later(b, a)
    ensures Normal(Minus(a, b)) && Micros(Minus(a, b)) == Micros(a) - Micros(b)
  {
  }

  /** The timeout handle_events passes to poll. */
  function PollMillis(tv: Timeval): int
    requires Normal(tv)
  {
    tv.sec * 1000 + tv.usec / 1000 + (if tv.usec % 1000 != 0 then 1 else 0)
  }

  lemma PollRoundsUp(tv: Timeval)
    requires Normal(tv)
    ensures Micros(tv) <= PollMillis(tv) * 1000 < Micros(tv) + 1000
  {
    assert tv.usec == 1000 * (tv.usec / 1000) + tv.usec % 1000;
  }

  /** get_next_timeout: the smaller of the next deadline's distance and the user's own timeout. */
  function PollTimeval(next: Option<Timeval>, user: Timeval): Timeval {
    if next.Some? && Later(user, next.value) then next.value else user
  }

  /** The arithmetic composes: a poll that was given the distance to a deadline (or less) and sleeps
      for all the time it was given either slept the user's whole timeout or finds the deadline
      expired by the very test handle_timeouts_locked makes. */
  lemma FullSleepExpires(deadline: Timeval, now: Timespec, user: Timeval, later: Timespec)
    requires Normal(deadline) && Normal(user) && NormalSpec(now) && NormalSpec(later)
    requires Later(deadline, ToTimeval(now))
    requires var tv := PollTimeval(Some(Minus(deadline, ToTimeval(now))), user);
             Normal(tv) && Nanos(later) >= Nanos(now) + PollMillis(tv) * MICRO
    ensures PollTimeval(Some(Minus(deadline, ToTimeval(now))), user) == user || !Later(deadline, ToTimeval(later))
  {
    var rest := Minus(deadline, ToTimeval(now));
    ToTimevalTruncates(now);
    ToTimevalTruncates(later);
    MinusIsDifference(deadline, ToTimeval(now));
    var tv := PollTimeval(Some(rest), user);
    if tv == rest {
      PollRoundsUp(rest);
      var ms := PollMillis(rest);
      assert Nanos(later) / 1000 >= (Nanos(now) + ms * MICRO) / 1000 == Nanos(now) / 1000 + ms * 1000;
      LaterIsMore(deadline, ToTimeval(later));
    }
  }
}
