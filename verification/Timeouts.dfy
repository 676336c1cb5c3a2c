/**
 The list of flying transfers as a value: where a transfer is inserted, what the timeout scan
 marks, which deadline comes next, and what the timerfd is armed for.
 */
module Timeouts {
  import opened Usb
  import opened Deadlines

  /** enum usbi_transfer_flags */
  datatype Flags = Flags(
    timedOut: bool, osHandles: bool, cancelling: bool, disappeared: bool,
    submitting: bool, inFlight: bool, completed: bool, timeoutHandled: bool)

  /** A listed transfer: its stored deadline, the number of its submission, and its flags. */
  datatype Entry = Entry(deadline: Timeval, ticket: nat, flags: Flags)

  // --------------------------------------------------------------------- insertion

  /** The place add_to_flying_list chooses. */
  function InsertPos(es: seq<Entry>, deadline: Timeval): (pos: nat)
    ensures pos <= |es|
  {
    if es == [] then 0
    else if IsSet(deadline) && (!IsSet(es[0].deadline) || Later(es[0].deadline, deadline)) then 0
    else 1 + InsertPos(es[1..], deadline)
  }

  /** The walk has come to position k without finding the place. */
  predicate InsertReached(es: seq<Entry>, deadline: Timeval, k: nat)
    requires k <= |es|
  {
    InsertPos(es, deadline) == k + InsertPos(es[k..], deadline)
  }

  lemma InsertBegins(es: seq<Entry>, deadline: Timeval)
    ensures InsertReached(es, deadline, 0)
  {
    assert es[0..] == es;
  }

  lemma InsertAt(es: seq<Entry>, deadline: Timeval, k: nat)
    requires k <= |es| && InsertReached(es, deadline, k)
    ensures if k == |es| || (IsSet(deadline) && (!IsSet(es[k].deadline) || Later(es[k].deadline, deadline)))
            then InsertPos(es, deadline) == k
            else InsertReached(es, deadline, k + 1)
  {
    if k < |es| {
      assert es[k..][0] == es[k] && es[k..][1..] == es[k + 1..];
    }
  }

  /** Expiry order: finite deadlines ascending, equal ones in submission order, unset ones last. */
  predicate Precedes(a: Entry, b: Entry) {
    if IsSet(a.deadline) && IsSet(b.deadline) then
      Later(b.deadline, a.deadline) || (a.deadline == b.deadline && a.ticket < b.ticket)
    else IsSet(a.deadline) || (!IsSet(b.deadline) && a.ticket < b.ticket)
  }

  predicate Sorted(es: seq<Entry>) {
    forall i, j :: 0 <= i < j < |es| ==> Precedes(es[i], es[j])
  }

  lemma {:induction false} InsertPosSplits(es: seq<Entry>, e: Entry)
    requires Sorted(es) && forall i :: 0 <= i < |es| ==> es[i].ticket < e.ticket
    ensures var pos := InsertPos(es, e.deadline);
            && (forall i :: 0 <= i < pos ==> Precedes(es[i], e))
            && (forall i :: pos <= i < |es| ==> Precedes(e, es[i]))
  {
    if es == [] {
    } else if IsSet(e.deadline) && (!IsSet(es[0].deadline) || Later(es[0].deadline, e.deadline)) {
      assert forall i :: 0 < i < |es| ==> Precedes(es[0], es[i]);
    } else {
      var rest := es[1..];
      assert forall i :: 0 <= i < |rest| ==> rest[i] == es[i + 1];
      InsertPosSplits(rest, e);
      assert forall i :: 1 <= i < |es| ==> es[i] == rest[i - 1];
    }
  }

  /** Insertion of the newest transfer keeps expiry order; equal deadlines stay in submission order. */
  lemma {:induction false} InsertKeepsSorted(es: seq<Entry>, e: Entry)
    requires Sorted(es) && forall i :: 0 <= i < |es| ==> es[i].ticket < e.ticket
    ensures Sorted(Inserted(es, InsertPos(es, e.deadline), e))
  {
    InsertPosSplits(es, e);
    var pos := InsertPos(es, e.deadline);
    var r := Inserted(es, pos, e);
    hide Precedes, InsertPos, Inserted;
    forall i, j | 0 <= i < j < |r|
      ensures Precedes(r[i], r[j])
    {
      InsertedAt(es, pos, e, i);
      InsertedAt(es, pos, e, j);
    }
  }

  lemma RemoveKeepsSorted(es: seq<Entry>, k: nat)
    requires Sorted(es) && k < |es|
    ensures Sorted(Without(es, k))
  {
  }

  // ------------------------------------------------------------- the timeout scan

  /** libusb_cancel_transfer on the flags, where `answer` is what the back end returns. */
  function Cancelled(f: Flags, answer: Code): (Flags, Code) {
    if !f.inFlight || f.cancelling then (f, ErrorNotFound)
    else (f.(cancelling := true, disappeared := f.disappeared || answer == ErrorNoDevice), answer)
  }

  /** handle_timeout */
  function TimedOutFlags(f: Flags, answer: Code): Flags {
    var (g, r) := Cancelled(f.(timeoutHandled := true), answer);
    if r == Success then g.(timedOut := true) else g
  }

  /** Nobody has taken care of this transfer's timeout yet. */
  predicate Open(e: Entry) {
    !e.flags.timeoutHandled && !e.flags.osHandles
  }

  predicate Due(e: Entry, now: Timeval) {
    IsSet(e.deadline) && Open(e) && !Later(e.deadline, now)
  }

  function Expire(e: Entry, answer: Code): Entry {
    e.(flags := TimedOutFlags(e.flags, answer))
  }

  /** handle_timeouts_locked, which stops at the first unset deadline and at the first open one that
      has not expired. `answers[i]` is the back end's answer to cancelling transfer i. */
  function Scan(es: seq<Entry>, now: Timeval, answers: seq<Code>): (r: seq<Entry>)
    requires |answers| == |es|
    ensures |r| == |es|
  {
    if es == [] || !IsSet(es[0].deadline) then es
    else if !Open(es[0]) then [es[0]] + Scan(es[1..], now, answers[1..])
    else if Later(es[0].deadline, now) then es
    else [Expire(es[0], answers[0])] + Scan(es[1..], now, answers[1..])
  }

  /** The scan has come to position k: what is left of its result is the scan of what is left. */
  predicate ScanReached(es: seq<Entry>, now: Timeval, answers: seq<Code>, k: nat)
    requires |answers| == |es| && k <= |es|
  {
    Scan(es, now, answers)[k..] == Scan(es[k..], now, answers[k..])
  }

  predicate ScanStops(e: Entry, now: Timeval) {
    !IsSet(e.deadline) || (Open(e) && Later(e.deadline, now))
  }

  lemma ScanBegins(es: seq<Entry>, now: Timeval, answers: seq<Code>)
    requires |answers| == |es|
    ensures ScanReached(es, now, answers, 0)
  {
    assert es[0..] == es && answers[0..] == answers;
  }

  /** One round of the scan, at position k of the list. */
  lemma ScanAt(es: seq<Entry>, now: Timeval, answers: seq<Code>, k: nat)
    requires |answers| == |es| && k < |es| && ScanReached(es, now, answers, k)
    requires !ScanStops(es[k], now)
    ensures Scan(es, now, answers)[k] == if Open(es[k]) then Expire(es[k], answers[k]) else es[k]
    ensures ScanReached(es, now, answers, k + 1)
  {
    assert es[k..][1..] == es[k + 1..] && answers[k..][1..] == answers[k + 1..];
    assert Scan(es, now, answers)[k..][1..] == Scan(es, now, answers)[k + 1..];
    assert Scan(es, now, answers)[k..][0] == Scan(es, now, answers)[k];
  }

  /** Where the scan stops, the rest of the list stays as it is. */
  lemma ScanEnds(es: seq<Entry>, now: Timeval, answers: seq<Code>, k: nat)
    requires |answers| == |es| && k <= |es| && ScanReached(es, now, answers, k)
    requires k < |es| ==> ScanStops(es[k], now)
    ensures forall i :: k <= i < |es| ==> Scan(es, now, answers)[i] == es[i]
  {
    var result := Scan(es, now, answers);
    assert result[k..] == es[k..];
    forall i | k <= i < |es|
      ensures result[i] == es[i]
    {
      assert result[i] == result[k..][i - k] == es[k..][i - k];
    }
  }

  lemma {:induction false} NothingDue(es: seq<Entry>, now: Timeval)
    requires Sorted(es) && es != []
    requires !IsSet(es[0].deadline) || Later(es[0].deadline, now)
    ensures forall i :: 0 <= i < |es| ==> !Due(es[i], now)
  {
    assert forall i :: 0 < i < |es| ==> Precedes(es[0], es[i]);
  }

  /** On a sorted list stopping early loses nothing: exactly the transfers with a finite deadline at
      or before now that nobody handles are marked, as if the whole list had been examined. */
  lemma {:induction false} ScanIsFull(es: seq<Entry>, now: Timeval, answers: seq<Code>)
    requires Sorted(es) && |answers| == |es|
    ensures forall i :: 0 <= i < |es| ==>
              Scan(es, now, answers)[i] == if Due(es[i], now) then Expire(es[i], answers[i]) else es[i]
  {
    if es != [] {
      if !IsSet(es[0].deadline) || (Open(es[0]) && Later(es[0].deadline, now)) {
        NothingDue(es, now);
      } else {
        ScanIsFull(es[1..], now, answers[1..]);
        var rest := Scan(es[1..], now, answers[1..]);
        forall i | 1 <= i < |es|
          ensures rest[i - 1] == if Due(es[i], now) then Expire(es[i], answers[i]) else es[i]
        {
          assert es[i] == es[1..][i - 1] && answers[i] == answers[1..][i - 1];
        }
      }
    }
  }

  /** The scan is idempotent in what it marks: a second scan at the same time finds nothing due. */
  lemma ScanLeavesNothingDue(es: seq<Entry>, now: Timeval, answers: seq<Code>)
    requires Sorted(es) && |answers| == |es|
    ensures forall i :: 0 <= i < |es| ==> !Due(Scan(es, now, answers)[i], now)
  {
    ScanIsFull(es, now, answers);
  }

  lemma ScanKeepsSorted(es: seq<Entry>, now: Timeval, answers: seq<Code>)
    requires Sorted(es) && |answers| == |es|
    ensures Sorted(Scan(es, now, answers))
  {
    ScanIsFull(es, now, answers);
  }

  /** What a scan does to the flags of transfer i, flag by flag. It asks for a cancellation when the
      transfer is due, in flight and not being cancelled already; the transfer is timed out if that is
      granted, and only then. */
  lemma ScanMarks(es: seq<Entry>, now: Timeval, answers: seq<Code>, i: nat)
    requires Sorted(es) && |answers| == |es| && i < |es|
    ensures var e, e' := es[i], Scan(es, now, answers)[i];
            var f, g := e.flags, e'.flags;
            var due := IsSet(e.deadline) && !Later(e.deadline, now) && !f.timeoutHandled && !f.osHandles;
            var asks := due && f.inFlight && !f.cancelling;
            && e'.deadline == e.deadline && e'.ticket == e.ticket
            && (g.timeoutHandled <==> f.timeoutHandled || due)
            && (g.cancelling <==> f.cancelling || (due && f.inFlight))
            && (g.timedOut <==> f.timedOut || (asks && answers[i] == Success))
            && (g.disappeared <==> f.disappeared || (asks && answers[i] == ErrorNoDevice))
            && g.osHandles == f.osHandles && g.submitting == f.submitting
            && g.inFlight == f.inFlight && g.completed == f.completed
  {
    ScanIsFull(es, now, answers);
  }

  // ------------------------------------------------- how a cancelled transfer is reported

  /** What may happen to the flags of a submission before the transfer comes back: somebody cancels it,
      its timeout does, or its submitter notes that it is in flight. */
  datatype Attempt = ByUser(answer: Code) | ByTimeout(answer: Code) | TakesOff

  function Tried(f: Flags, a: Attempt): Flags {
    match a
    case ByUser(answer) => Cancelled(f, answer).0
    case ByTimeout(answer) => TimedOutFlags(f, answer)
    case TakesOff => f.(inFlight := true)
  }

  function TriedAll(f: Flags, attempts: seq<Attempt>): Flags
    decreases |attempts|
  {
    if attempts == [] then f else TriedAll(Tried(f, attempts[0]), attempts[1..])
  }

  /** The first attempt that found the transfer in flight. */
  function FirstInFlight(attempts: seq<Attempt>, inFlight: bool): Option<Attempt> {
    if attempts == [] then None
    else if attempts[0].TakesOff? then FirstInFlight(attempts[1..], true)
    else if inFlight then Some(attempts[0])
    else FirstInFlight(attempts[1..], inFlight)
  }

  /** usbi_handle_transfer_cancellation: the status it completes the transfer with. */
  function CancellationStatus(f: Flags): TransferStatus {
    if f.timedOut then TimedOut else TransferCancelled
  }

  lemma TriedOnce(f: Flags, a: Attempt)
    requires !f.timedOut && !f.cancelling
    ensures var g := Tried(f, a);
            && g.inFlight == (f.inFlight || a.TakesOff?)
            && g.cancelling == (f.inFlight && !a.TakesOff?)
            && g.timedOut == (f.inFlight && a == ByTimeout(Success))
  {
    match a
    case ByUser(answer) =>
    case ByTimeout(answer) => assert f.(timeoutHandled := true).inFlight == f.inFlight;
    case TakesOff =>
  }

  lemma {:induction false} OnlyFirstCounts(f: Flags, attempts: seq<Attempt>)
    requires f.cancelling
    ensures TriedAll(f, attempts).timedOut == f.timedOut
    decreases |attempts|
  {
    if attempts != [] {
      OnlyFirstCounts(Tried(f, attempts[0]), attempts[1..]);
    }
  }

  /** A transfer that is cancelled is reported as timed out if and only if its own timeout was the first to
      ask for the cancellation while it was in flight, and was granted it; whoever asks before or after,
      and whatever is answered. */
  lemma {:induction false} TimedOutIff(f: Flags, attempts: seq<Attempt>)
    requires !f.timedOut && !f.cancelling
    ensures CancellationStatus(TriedAll(f, attempts)) == TimedOut <==>
            FirstInFlight(attempts, f.inFlight) == Some(ByTimeout(Success))
    ensures CancellationStatus(TriedAll(f, attempts)) in {TimedOut, TransferCancelled}
    decreases |attempts|
  {
    if attempts != [] {
      var g := Tried(f, attempts[0]);
      TriedOnce(f, attempts[0]);
      hide Tried;
      if g.cancelling {
        OnlyFirstCounts(g, attempts[1..]);
      } else {
        TimedOutIff(g, attempts[1..]);
      }
    }
  }

  // ------------------------------------------------------------- the next deadline

  function FirstOpenDeadline(es: seq<Entry>): Option<Timeval> {
    if es == [] then None
    else if !Open(es[0]) then FirstOpenDeadline(es[1..])
    else if IsSet(es[0].deadline) then Some(es[0].deadline) else None
  }

  /** libusb_get_next_timeout without a timerfd: None is the return value 0. */
  function NextTimeout(es: seq<Entry>, now: Timeval): Option<Timeval> {
    match FirstOpenDeadline(es)
    case None => None
    case Some(deadline) => Some(if Later(deadline, now) then Minus(deadline, now) else Timeval(0, 0))
  }

  predicate Pending(e: Entry) {
    Open(e) && IsSet(e.deadline)
  }

  function Remaining(e: Entry, now: Timeval): int {
    if Micros(e.deadline) > Micros(now) then Micros(e.deadline) - Micros(now) else 0
  }

  /** On a sorted list the answer is the least remaining time over all transfers with a finite
      deadline that nobody handles, floored at zero; there is no answer if there is no such
      transfer. */
  lemma {:induction false} NextTimeoutIsLeast(es: seq<Entry>, now: Timeval)
    requires Sorted(es) && Normal(now) && forall i :: 0 <= i < |es| ==> Normal(es[i].deadline)
    ensures NextTimeout(es, now).None? <==> forall i :: 0 <= i < |es| ==> !Pending(es[i])
    ensures NextTimeout(es, now).Some? ==>
              var m := Micros(NextTimeout(es, now).value);
              && (exists i :: 0 <= i < |es| && Pending(es[i]) && m == Remaining(es[i], now))
              && (forall i :: 0 <= i < |es| && Pending(es[i]) ==> m <= Remaining(es[i], now))
  {
    if es == [] {
    } else if !Open(es[0]) {
      var rest := es[1..];
      assert forall i :: 0 <= i < |rest| ==> rest[i] == es[i + 1];
      NextTimeoutIsLeast(rest, now);
      assert forall i :: 1 <= i < |es| ==> es[i] == rest[i - 1];
    } else {
      assert forall i :: 0 < i < |es| ==> Precedes(es[0], es[i]);
      LaterIsMore(es[0].deadline, now);
      if Later(es[0].deadline, now) {
        MinusIsDifference(es[0].deadline, now);
      }
      forall i | 0 < i < |es| && IsSet(es[i].deadline)
        ensures Micros(es[0].deadline) <= Micros(es[i].deadline)
      {
        assert Precedes(es[0], es[i]);
        LaterIsMore(es[i].deadline, es[0].deadline);
      }
    }
  }

  // -------------------------------------------------------------------- the timerfd

  /** What arm_timerfd_for_next_timeout sets the timer to. */
  function NextArming(es: seq<Entry>): Option<Timeval> {
    if es == [] || !IsSet(es[0].deadline) then None
    else if !es[0].flags.timeoutHandled then Some(es[0].deadline)
    else NextArming(es[1..])
  }

  /** On a sorted list the timer is set to the least deadline that is not marked handled, and disarmed
      exactly when there is none. */
  lemma {:induction false} ArmingIsLeast(es: seq<Entry>)
    requires Sorted(es) && forall i :: 0 <= i < |es| ==> Normal(es[i].deadline)
    ensures NextArming(es).None? <==>
            forall i :: 0 <= i < |es| ==> !IsSet(es[i].deadline) || es[i].flags.timeoutHandled
    ensures NextArming(es).Some? ==>
              && (exists i :: 0 <= i < |es| && !es[i].flags.timeoutHandled && NextArming(es).value == es[i].deadline)
              && (forall i :: 0 <= i < |es| && IsSet(es[i].deadline) && !es[i].flags.timeoutHandled ==>
                    Micros(NextArming(es).value) <= Micros(es[i].deadline))
  {
    if es != [] {
      var rest := es[1..];
      assert forall i :: 0 <= i < |rest| ==> rest[i] == es[i + 1];
      assert forall i :: 0 < i < |es| ==> Precedes(es[0], es[i]);
      if IsSet(es[0].deadline) {
        if es[0].flags.timeoutHandled {
          ArmingIsLeast(rest);
        }
        forall i | 0 < i < |es| && IsSet(es[i].deadline)
          ensures Micros(es[0].deadline) <= Micros(es[i].deadline)
        {
          LaterIsMore(es[i].deadline, es[0].deadline);
        }
      }
      assert forall i :: 1 <= i < |es| ==> es[i] == rest[i - 1];
    }
  }

  /** A head with a finite deadline that is not marked handled has the timer armed in time. */
  predicate TimerOk(es: seq<Entry>, timer: Option<Timeval>) {
    es != [] && IsSet(es[0].deadline) && !es[0].flags.timeoutHandled ==>
      timer.Some? && !Later(timer.value, es[0].deadline)
  }

  /** The list with the timer and the number of the next submission. */
  datatype Flying = Flying(es: seq<Entry>, timer: Option<Timeval>, tickets: nat)

  datatype Change =
    | Add(deadline: Timeval, flags: Flags)
    | Remove(k: nat)
    | Trigger(now: Timeval, answers: seq<Code>)
    | ScanOnly(at: Timeval, results: seq<Code>)

  predicate CanChange(f: Flying, c: Change) {
    match c
    case Add(_, flags) => !flags.timeoutHandled
    case Remove(k) => k < |f.es|
    case Trigger(_, answers) => |answers| == |f.es|
    case ScanOnly(_, answers) => |answers| == |f.es|
  }

  function AddTimer(pos: nat, deadline: Timeval, timer: Option<Timeval>): Option<Timeval> {
    if pos == 0 && IsSet(deadline) then Some(deadline) else timer
  }

  function RemoveTimer(es: seq<Entry>, k: nat, timer: Option<Timeval>): Option<Timeval>
    requires k < |es|
  {
    if k == 0 && IsSet(es[0].deadline) then NextArming(Without(es, 0)) else timer
  }

  /** The operations on the list when every timer call succeeds. */
  function Changed(f: Flying, c: Change): Flying
    requires CanChange(f, c)
  {
    match c
    case Add(deadline, flags) =>
      var pos := InsertPos(f.es, deadline);
      Flying(Inserted(f.es, pos, Entry(deadline, f.tickets, flags)), AddTimer(pos, deadline, f.timer), f.tickets + 1)
    case Remove(k) => Flying(Without(f.es, k), RemoveTimer(f.es, k, f.timer), f.tickets)
    case Trigger(now, answers) =>
      var scanned := Scan(f.es, now, answers);
      Flying(scanned, NextArming(scanned), f.tickets)
    case ScanOnly(now, answers) => f.(es := Scan(f.es, now, answers))
  }

  ghost predicate FlyingInv(f: Flying) {
    && Sorted(f.es)
    && (forall i :: 0 <= i < |f.es| ==> f.es[i].ticket < f.tickets)
    && TimerOk(f.es, f.timer)
  }

  lemma ChangeKeepsInv(f: Flying, c: Change)
    requires FlyingInv(f) && CanChange(f, c)
    ensures FlyingInv(Changed(f, c))
  {
    match c
    case Add(deadline, flags) =>
      var e := Entry(deadline, f.tickets, flags);
      InsertKeepsSorted(f.es, e);
    case Remove(k) => RemoveKeepsInv(f, k);
    case Trigger(now, answers) =>
      ScanKeepsSorted(f.es, now, answers);
      ScanIsFull(f.es, now, answers);
    case ScanOnly(now, answers) =>
      ScanKeepsSorted(f.es, now, answers);
      ScanIsFull(f.es, now, answers);
  }

  lemma RemoveKeepsInv(f: Flying, k: nat)
    requires FlyingInv(f) && k < |f.es|
    ensures FlyingInv(Changed(f, Remove(k)))
  {
    RemoveKeepsSorted(f.es, k);
    if k == 0 && |f.es| > 1 {
      assert Precedes(f.es[0], f.es[1]);
    }
  }

  ghost predicate Changes(f: Flying, cs: seq<Change>)
    decreases |cs|
  {
    cs != [] ==> CanChange(f, cs[0]) && Changes(Changed(f, cs[0]), cs[1..])
  }

  ghost function After(f: Flying, cs: seq<Change>): Flying
    requires Changes(f, cs)
    decreases |cs|
  {
    if cs == [] then f else After(Changed(f, cs[0]), cs[1..])
  }

  /** After any sequence of additions, removals, timer triggers and scans the list is in expiry order,
      and the timer is armed no later than a head deadline that still needs it. */
  lemma {:induction false} FlyingRun(f: Flying, cs: seq<Change>)
    requires FlyingInv(f) && Changes(f, cs)
    ensures Sorted(After(f, cs).es) && TimerOk(After(f, cs).es, After(f, cs).timer)
    decreases |cs|
  {
    if cs != [] {
      ChangeKeepsInv(f, cs[0]);
      FlyingRun(Changed(f, cs[0]), cs[1..]);
    }
  }

  // ------------------------------------------------- beyond the head of the list

  /** Every finite deadline that is not marked handled has the timer armed in time. */
  predicate Covers(es: seq<Entry>, timer: Option<Timeval>) {
    forall i :: 0 <= i < |es| && IsSet(es[i].deadline) && !es[i].flags.timeoutHandled ==>
      timer.Some? && !Later(timer.value, es[i].deadline)
  }

  /** Right after a trigger or the removal of the head every unhandled deadline is covered,
      because the arming walks past handled transfers. */
  lemma {:induction false} ArmingCoversAll(es: seq<Entry>)
    requires Sorted(es)
    ensures Covers(es, NextArming(es))
  {
    if es != [] {
      var rest := es[1..];
      assert forall i :: 0 <= i < |rest| ==> rest[i] == es[i + 1];
      assert forall i :: 0 < i < |es| ==> Precedes(es[0], es[i]);
      ArmingCoversAll(rest);
      assert forall i :: 1 <= i < |es| ==> es[i] == rest[i - 1];
    }
  }

  /** An addition arms the timer for its own deadline only when it becomes the head. */
  predicate ArmedInTime(f: Flying, deadline: Timeval) {
    || !IsSet(deadline)
    || InsertPos(f.es, deadline) == 0
    || (f.timer.Some? && !Later(f.timer.value, deadline))
  }

  /** The exact condition for an addition: all stay covered if and only if the new transfer has no
      deadline, becomes the head, or finds the timer armed early enough already. */
  lemma AddCoversIff(f: Flying, deadline: Timeval, flags: Flags)
    requires FlyingInv(f) && Covers(f.es, f.timer) && !flags.timeoutHandled
    ensures var g := Changed(f, Add(deadline, flags)); Covers(g.es, g.timer) <==> ArmedInTime(f, deadline)
  {
    var e, pos := Entry(deadline, f.tickets, flags), InsertPos(f.es, deadline);
    var g := Changed(f, Add(deadline, flags));
    assert g.es == Inserted(f.es, pos, e);
    InsertPosSplits(f.es, e);
    hide InsertPos, Inserted;
    InsertedAt(f.es, pos, e, pos);
    assert g.es[pos] == e;
    forall i | 0 <= i < |g.es| && ArmedInTime(f, deadline) && IsSet(g.es[i].deadline) && !g.es[i].flags.timeoutHandled
      ensures g.timer.Some? && !Later(g.timer.value, g.es[i].deadline)
    {
      InsertedAt(f.es, pos, e, i);
      if i > pos == 0 {
        assert Precedes(e, f.es[i - 1]);
      }
    }
  }

  lemma RemoveKeepsCovers(f: Flying, k: nat)
    requires FlyingInv(f) && Covers(f.es, f.timer) && k < |f.es|
    ensures var g := Changed(f, Remove(k)); Covers(g.es, g.timer)
  {
    var g := Changed(f, Remove(k));
    RemoveKeepsSorted(f.es, k);
    if k == 0 && IsSet(f.es[0].deadline) {
      ArmingCoversAll(Without(f.es, 0));
    } else {
      hide Without;
      forall i | 0 <= i < |g.es| && IsSet(g.es[i].deadline) && !g.es[i].flags.timeoutHandled
        ensures g.timer.Some? && !Later(g.timer.value, g.es[i].deadline)
      {
        WithoutAt(f.es, k, i);
      }
    }
  }

  /** A trigger covers everything, covered before or not; a scan alone uncovers nothing. */
  lemma ScanKeepsCovers(f: Flying, now: Timeval, answers: seq<Code>)
    requires FlyingInv(f) && |answers| == |f.es|
    ensures var g := Changed(f, Trigger(now, answers)); Covers(g.es, g.timer)
    ensures Covers(f.es, f.timer) ==> var g := Changed(f, ScanOnly(now, answers)); Covers(g.es, g.timer)
  {
    ScanKeepsSorted(f.es, now, answers);
    ArmingCoversAll(Scan(f.es, now, answers));
    ScanIsFull(f.es, now, answers);
  }

  lemma ChangeCoversIff(f: Flying, c: Change)
    requires FlyingInv(f) && Covers(f.es, f.timer) && CanChange(f, c)
    ensures Covers(Changed(f, c).es, Changed(f, c).timer) <==> (c.Add? ==> ArmedInTime(f, c.deadline))
  {
    match c
    case Add(deadline, flags) => AddCoversIff(f, deadline, flags);
    case Remove(k) => RemoveKeepsCovers(f, k);
    case Trigger(now, answers) => ScanKeepsCovers(f, now, answers);
    case ScanOnly(now, answers) => ScanKeepsCovers(f, now, answers);
  }

  /** Every addition of the run finds the timer armed in time, or arms it itself. */
  ghost predicate AddsInTime(f: Flying, cs: seq<Change>)
    requires Changes(f, cs)
    decreases |cs|
  {
    cs != [] ==> (cs[0].Add? ==> ArmedInTime(f, cs[0].deadline)) && AddsInTime(Changed(f, cs[0]), cs[1..])
  }

  ghost predicate AlwaysCovers(f: Flying, cs: seq<Change>)
    requires Changes(f, cs)
    decreases |cs|
  {
    Covers(f.es, f.timer) && (cs != [] ==> AlwaysCovers(Changed(f, cs[0]), cs[1..]))
  }

  /** Over runs: every unhandled deadline stays covered all the time if and only if every addition is
      in time. */
  lemma {:induction false} AlwaysCoversIff(f: Flying, cs: seq<Change>)
    requires FlyingInv(f) && Covers(f.es, f.timer) && Changes(f, cs)
    ensures AlwaysCovers(f, cs) <==> AddsInTime(f, cs)
    decreases |cs|
  {
    if cs != [] {
      var g := Changed(f, cs[0]);
      ChangeKeepsInv(f, cs[0]);
      ChangeCoversIff(f, cs[0]);
      hide FlyingInv, Covers, Changed, ArmedInTime;
      if Covers(g.es, g.timer) {
        AlwaysCoversIff(g, cs[1..]);
      }
    }
  }

  /** No transfer, no submission yet, and the timer disarmed. */
  predicate Fresh(f: Flying) {
    f.es == [] && f.timer == None && f.tickets == 0
  }

  lemma {:induction false} Extend(f: Flying, cs: seq<Change>, c: Change)
    requires Changes(f, cs) && CanChange(After(f, cs), c)
    ensures Changes(f, cs + [c]) && After(f, cs + [c]) == Changed(After(f, cs), c)
    decreases |cs|
  {
    hide Changed, CanChange;
    if cs == [] {
      assert cs + [c] == [c] && [c][1..] == [];
    } else {
      assert (cs + [c])[1..] == cs[1..] + [c];
      Extend(Changed(f, cs[0]), cs[1..], c);
    }
  }

  /** A list of one transfer is handled by the trigger that finds it due. */
  lemma AloneAndHandled(start: Flying, deadline: Timeval, flags: Flags, answer: Code) returns (cs: seq<Change>)
    requires Fresh(start)
    requires IsSet(deadline) && !flags.timeoutHandled && !flags.osHandles
    ensures Changes(start, cs)
    ensures After(start, cs) == Flying([Expire(Entry(deadline, 0, flags), answer)], None, 1)
  {
    hide Changes, After;
    var e := Entry(deadline, 0, flags);
    NoChanges(start);
    Extend(start, [], Add(deadline, flags));
    cs := [] + [Add(deadline, flags)];
    assert Inserted(start.es, 0, e) == [e];
    assert After(start, cs) == Flying([e], Some(deadline), 1);
    hide Inserted, InsertPos;
    Extend(start, cs, Trigger(deadline, [answer]));
    cs := cs + [Trigger(deadline, [answer])];
    hide Scan, NextArming;
    ScanOfOne(e, answer);
  }

  lemma NoChanges(f: Flying)
    ensures Changes(f, []) && After(f, []) == f
  {
  }

  lemma ScanOfOne(e: Entry, answer: Code)
    requires IsSet(e.deadline) && Open(e)
    ensures Scan([e], e.deadline, [answer]) == [Expire(e, answer)]
    ensures NextArming([Expire(e, answer)]) == None
  {
    assert [e][1..] == [] && [answer][1..] == [] && [Expire(e, answer)][1..] == [];
    assert Scan([], e.deadline, []) == [];
  }

  /** Only the head is always covered: a transfer that is added behind a handled head, with any later
      deadline, leaves the timer as the trigger left it, disarmed. */
  lemma FirstOpenDeadlineUnarmed(start: Flying, a: Timeval, b: Timeval, flags: Flags) returns (cs: seq<Change>)
    requires Fresh(start)
    requires IsSet(a) && IsSet(b) && !Later(a, b) && !flags.timeoutHandled && !flags.osHandles
    ensures Changes(start, cs)
    ensures Pending(Entry(b, 1, flags))
    ensures After(start, cs) == Flying([Expire(Entry(a, 0, flags), Success), Entry(b, 1, flags)], None, 2)
  {
    hide Changes, After;
    cs := AloneAndHandled(start, a, flags, Success);
    var f := After(start, cs);
    Extend(start, cs, Add(b, flags));
    cs := cs + [Add(b, flags)];
    assert f.es[1..] == [];
    assert InsertPos(f.es, b) == 1 + InsertPos([], b) == 1;
    assert Inserted(f.es, 1, Entry(b, 1, flags)) == f.es + [Entry(b, 1, flags)];
  }
}
