/**
 What the user is told in the end about a bulk transfer, from what was submitted and what happened:
 the answers of the kernel and the URBs in the order they came back.
 */
module BulkReports {
  import opened Usb
  import opened BulkUrbs
  import opened BulkRuns

  predicate IsRemoval(s: UrbStatus) {
    s == ENoDev || s == EShutdown
  }

  /** Errors of the bus, and what libusb has no name for. */
  predicate IsLowLevel(s: UrbStatus) {
    s in {ETime, EProto, EIlSeq, EComm, ENoSr} || s.Unrecognised?
  }

  predicate IsBad(s: UrbStatus) {
    IsRemoval(s) || IsLowLevel(s) || s == EPipe || s == EOverflow
  }

  /** After this URB, number `i` of `n`, the transfer is torn down, and what other URBs say does not
      matter any more. A stall or a removal is not among these, and an overflow comes last. */
  predicate EndsHealth(c: UrbResult, i: nat, n: nat, urbLength: nat) {
    IsLowLevel(c.status) || (!IsBad(c.status) && c.actual < urbLength && i + 1 < n)
  }

  /** The statuses of the URBs that come back while the transfer is healthy, from URB `i` on, when no
      cancellation is granted. */
  function HealthyReaps(evs: seq<Event>, i: nat, n: nat, length: nat, blk: nat): seq<UrbStatus> {
    if evs == [] then []
    else match evs[0]
      case KernelWrite(_, _) | UserCancel(_) => HealthyReaps(evs[1..], i, n, length, blk)
      case ReapNext(c) =>
        [c.status] +
        if EndsHealth(c, i, n, UrbLength(i, length, blk)) then [] else HealthyReaps(evs[1..], i + 1, n, length, blk)
  }

  /** Is a cancellation granted that counts: while URBs are out, and, but for interrupt transfers, not
      after a low-level error of a healthy transfer? */
  predicate Granted(evs: seq<Event>, i: nat, accepted: nat, n: nat, length: nat, blk: nat, interrupt: bool,
                    healthy: bool, failed: bool)
  {
    if evs == [] then false
    else match evs[0]
      case KernelWrite(_, _) => Granted(evs[1..], i, accepted, n, length, blk, interrupt, healthy, failed)
      case UserCancel(discarded) =>
        || (discarded == Success && i < accepted && (interrupt || !failed))
        || Granted(evs[1..], i, accepted, n, length, blk, interrupt, healthy, failed)
      case ReapNext(c) =>
        Granted(evs[1..], i + 1, accepted, n, length, blk, interrupt,
                healthy && !EndsHealth(c, i, n, UrbLength(i, length, blk)), failed || (healthy && IsLowLevel(c.status)))
  }

  function FirstBad(h: seq<UrbStatus>): Option<UrbStatus> {
    if h == [] then None else if IsBad(h[0]) then Some(h[0]) else FirstBad(h[1..])
  }

  predicate Removed(h: seq<UrbStatus>) {
    exists i :: 0 <= i < |h| && IsRemoval(h[i])
  }

  // ------------------------------------------------------------- what is stored

  function Complaint(s: UrbStatus): (c: TransferStatus)
    ensures c != Completed
  {
    if IsRemoval(s) then NoDevice
    else if s == EPipe then Stall
    else if s == EOverflow then Overflow
    else TransferError
  }

  /** The stored status after the healthy reaps `h`, one by one. */
  function Stored(status: TransferStatus, h: seq<UrbStatus>): TransferStatus
    decreases |h|
  {
    if h == [] then status
    else if IsBad(h[0]) && (IsRemoval(h[0]) || status == Completed) then Stored(Complaint(h[0]), h[1..])
    else Stored(status, h[1..])
  }

  lemma RemovedUnfold(h: seq<UrbStatus>)
    requires h != []
    ensures Removed(h) <==> IsRemoval(h[0]) || Removed(h[1..])
  {
    if Removed(h[1..]) {
      var i :| 0 <= i < |h[1..]| && IsRemoval(h[1..][i]);
      assert IsRemoval(h[i + 1]);
    }
    if Removed(h) && !IsRemoval(h[0]) {
      var i :| 0 <= i < |h| && IsRemoval(h[i]);
      assert h[1..][i - 1] == h[i];
    }
  }

  lemma StoredUnfold(status: TransferStatus, h: seq<UrbStatus>)
    requires h != []
    ensures Stored(status, h) ==
            if IsBad(h[0]) && (IsRemoval(h[0]) || status == Completed) then Stored(Complaint(h[0]), h[1..])
            else Stored(status, h[1..])
  {
  }

  /** A status other than "completed" is only overridden by a removal. */
  lemma {:induction false} StoredKept(status: TransferStatus, h: seq<UrbStatus>)
    requires status != Completed
    ensures Stored(status, h) == if Removed(h) then NoDevice else status
    decreases |h|
  {
    if h != [] {
      RemovedUnfold(h);
      hide Removed, IsRemoval;
      StoredKept(if IsRemoval(h[0]) then NoDevice else status, h[1..]);
    }
  }

  /** A removal anywhere wins, and otherwise the first bad status counts. */
  lemma {:induction false} StoredMeans(h: seq<UrbStatus>)
    ensures Stored(Completed, h) ==
            if Removed(h) then NoDevice
            else match FirstBad(h)
              case None => Completed
              case Some(EPipe) => Stall
              case Some(EOverflow) => Overflow
              case Some(_) => TransferError
    ensures Removed(h) ==> FirstBad(h).Some?
    ensures FirstBad(h).Some? ==> IsBad(FirstBad(h).value) && (IsRemoval(FirstBad(h).value) ==> Removed(h))
    decreases |h|
  {
    if h != [] {
      RemovedUnfold(h);
      hide Removed;
      StoredMeans(h[1..]);
      hide Stored;
      StoredUnfold(Completed, h);
      if IsBad(h[0]) {
        StoredKept(Complaint(h[0]), h[1..]);
      }
    }
  }

  // ---------------------------------------------------------------- step by step

  lemma ReapTells(w: World, c: UrbResult)
    requires Inv(w) && Enabled(w, ReapNext(c))
    ensures var e, e' := w.e, Step(w, ReapNext(c)).e;
            && (e.action != Normal ==> e'.action == e.action)
            && (e.action == Normal ==>
                  && e'.status == Stored(e.status, [c.status])
                  && (e'.action == Normal <==>
                        !EndsHealth(c, w.reaped, e.numUrbs, UrbLength(w.reaped, e.length, e.blk)))
                  && (e'.action == Failed <==> IsLowLevel(c.status))
                  && e'.action in {Normal, Failed, CompletedEarly})
            && (e.action in {Failed, CompletedEarly} ==> e'.status == e.status)
            && (e.action == SubmitFailed ==>
                  e'.status == if w.reaped + 1 == w.submitted && e.status == Completed then TransferError else e.status)
  {
    hide Flatten, Offset, UrbLength, UrbCount, ReapBuffer;
    assert [c.status][1..] == [];
  }

  /** The rest of a healthy transfer is called off exactly when URBs are left and this one was bad, or
      short, and for a stall or a removal, too, although the transfer stays healthy. */
  lemma CallsOffIff(w: World, c: UrbResult)
    requires Inv(w) && Enabled(w, ReapNext(c)) && w.e.action == Normal
    ensures var len := UrbLength(w.reaped, w.e.length, w.e.blk);
            CallsOff(w.e, w.reaped, UrbNo(w, w.reaped), c) <==>
            w.reaped + 1 < w.submitted && (IsBad(c.status) || c.actual < len)
  {
    hide Flatten, Offset, UrbLength, UrbCount;
  }

  lemma CancelTells(w: World, discarded: Code)
    requires Inv(w) && Enabled(w, UserCancel(discarded))
    ensures var e, e' := w.e, Step(w, UserCancel(discarded)).e;
            && e'.status == e.status
            && e'.action == (if discarded == Success && w.reaped < w.submitted && (e.interrupt || e.action != Failed)
                             then Cancelled else e.action)
  {
  }

  lemma StepKeepsPlan(w: World, ev: Event)
    requires Inv(w) && Enabled(w, ev)
    ensures var w' := Step(w, ev);
            && w'.e.numUrbs == w.e.numUrbs && w'.e.length == w.e.length && w'.e.blk == w.e.blk
            && w'.e.interrupt == w.e.interrupt && w'.submitted == w.submitted
            && w'.reaped == w.reaped + if ev.ReapNext? then 1 else 0
    ensures ev.KernelWrite? ==> Step(w, ev).e == w.e
  {
    hide Flatten, Offset, UrbLength, UrbCount, ReapBuffer;
  }

  predicate GrantedFrom(w: World, evs: seq<Event>) {
    Granted(evs, w.reaped, w.submitted, w.e.numUrbs, w.e.length, w.e.blk, w.e.interrupt,
            w.e.action == Normal, w.e.action == Failed)
  }

  function ReapsFrom(w: World, evs: seq<Event>): seq<UrbStatus> {
    HealthyReaps(evs, w.reaped, w.e.numUrbs, w.e.length, w.e.blk)
  }

  // ------------------------------------------------------------------- whole runs

  lemma {:induction false} GrantedIff(w: World, evs: seq<Event>)
    requires Inv(w) && RunEnabled(w, evs)
    ensures Run(w, evs).e.action == Cancelled <==> w.e.action == Cancelled || GrantedFrom(w, evs)
    decreases |evs|
  {
    if evs != [] {
      InvKept(w, evs[0]);
      StepKeepsPlan(w, evs[0]);
      match evs[0] {
        case KernelWrite(_, _) =>
        case ReapNext(c) => ReapTells(w, c);
        case UserCancel(discarded) => CancelTells(w, discarded);
      }
      hide Inv, Step, Enabled, EndsHealth, IsLowLevel;
      GrantedIff(Step(w, evs[0]), evs[1..]);
    }
  }

  /** What is stored at the end of a run that is not cancelled. */
  ghost predicate EndsWith(w: World, w': World, h: seq<UrbStatus>) {
    match w.e.action
    case Normal => w'.e.status == Stored(w.e.status, h)
    case SubmitFailed =>
      w'.e.status == if w.reaped < w.submitted && w'.reaped == w.submitted && w.e.status == Completed then TransferError
                     else w.e.status
    case _ => w'.e.status == w.e.status
  }

  lemma {:induction false} RunStores(w: World, evs: seq<Event>)
    requires Inv(w) && RunEnabled(w, evs) && Run(w, evs).e.action != Cancelled
    ensures EndsWith(w, Run(w, evs), ReapsFrom(w, evs))
    ensures w.reaped <= Run(w, evs).reaped <= Run(w, evs).submitted == w.submitted
    decreases |evs|
  {
    if evs != [] {
      var ev, rest, w1 := evs[0], evs[1..], Step(w, evs[0]);
      InvKept(w, ev);
      StepKeepsPlan(w, ev);
      GrantedIff(w1, rest);
      RunStores(w1, rest);
      match ev {
        case KernelWrite(_, _) =>
        case ReapNext(c) =>
          ReapTells(w, c);
          if w.e.action == Normal {
            var later := if EndsHealth(c, w.reaped, w.e.numUrbs, UrbLength(w.reaped, w.e.length, w.e.blk)) then []
                         else ReapsFrom(w1, rest);
            assert ReapsFrom(w, evs) == [c.status] + later;
            StoredOneMore(w.e.status, c.status, later);
          }
        case UserCancel(discarded) => CancelTells(w, discarded);
      }
      hide Inv, Step, Enabled, EndsHealth, Stored, HealthyReaps, Granted;
    }
  }

  lemma StoredOneMore(status: TransferStatus, s: UrbStatus, later: seq<UrbStatus>)
    ensures Stored(status, [s] + later) == Stored(Stored(status, [s]), later)
  {
    assert ([s] + later)[1..] == later && [s][1..] == [];
  }

  /** The main result: the exact final report of every run of every submission, by what the kernel said.
      With `h` the statuses of the URBs that came back while the transfer was healthy, which are none if
      the kernel refused some URBs: "cancelled" if a cancellation was granted, and otherwise "no device"
      if some URB found the device gone; "stall" or "overflow" if that was the first thing that went
      wrong; an error if it was a low-level error, or if the kernel refused a URB for another reason
      than that the transfer was complete; and "completed" if nothing went wrong. */
  lemma FinalReport(buf: seq<Byte>, blk: nat, interrupt: bool, accepted: nat, errno: SubmitErrno, evs: seq<Event>)
    requires blk > 0 && 1 <= accepted <= UrbCount(|buf|, blk)
    requires var w := StartOf(buf, blk, interrupt, accepted, errno);
             Inv(w) && RunEnabled(w, evs) && Run(w, evs).reaped == accepted
    ensures var n, w := UrbCount(|buf|, blk), StartOf(buf, blk, interrupt, accepted, errno);
            var reports := Run(w, evs).reports;
            var h := if accepted == n then HealthyReaps(evs, 0, n, |buf|, blk) else [];
            if Granted(evs, 0, accepted, n, |buf|, blk, interrupt, accepted == n, false) then reports == [Cancellation]
            else
              && (reports == [Completion(NoDevice)] <==> Removed(h))
              && (reports == [Completion(Stall)] <==> !Removed(h) && FirstBad(h) == Some(EPipe))
              && (reports == [Completion(Overflow)] <==> !Removed(h) && FirstBad(h) == Some(EOverflow))
              && (reports == [Completion(TransferError)] <==>
                    || (!Removed(h) && FirstBad(h).Some? && IsLowLevel(FirstBad(h).value))
                    || (accepted < n && errno != RemoteIO))
              && (reports == [Completion(Completed)] <==>
                    FirstBad(h).None? && (accepted == n || errno == RemoteIO))
  {
    var w := StartOf(buf, blk, interrupt, accepted, errno);
    GrantedIff(w, evs);
    ReportedOnce(w, evs);
    if Run(w, evs).e.action != Cancelled {
      RunStores(w, evs);
      StoredMeans(ReapsFrom(w, evs));
    }
    hide RunEnabled, Run, HealthyReaps, Granted, FirstBad, Removed, Stored, UrbCount, Flatten, Start;
  }
}
