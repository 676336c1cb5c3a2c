/**
 The life of one transfer object over any number of submissions: libusb_submit_transfer on one
 side, usbi_handle_transfer_completion on the other, cancellation and the disconnect sweep in
 between, one step per lock operation.
 */
module Lifecycle {
  import opened Usb

  /** libusb_submit_transfer, which holds the transfer's lock from start to end. `InBackend` is the
      call of the back end, which may have accepted the transfer before it returns. */
  datatype SubmitPc =
    | SIdle
    | SAdd          // flags set, about to enter the flying list
    | SRef          // listed, about to take a reference to the device
    | InBackend(accepted: bool)
    | SFinish(ok: bool)
    | SUnref        // `remove` is set, about to drop the reference
    | SDelist

  /** usbi_handle_transfer_completion for submission `n`; the thread holds the events lock. */
  datatype CompletePc =
    | CIdle
    | CDelist(n: nat)
    | CFlags(n: nat)
    | CCallback(n: nat)
    | CUnref(n: nat)

  /** The transfer, with what the back end still owes (`pending`) and the submissions that hold a
      reference to the device. `broken` records an operation that was not due: taking a transfer off
      the list or dropping a reference a second time, or listing or submitting it a second time. The
      rest is history: the number of the current submission, those that were reported as failed or
      successful, those whose callback ran, in order, those that the disconnect sweep marked while
      their submit was under way, those whose completion began before their submit was through, and
      how many submits ended although their completion had begun. `result` is what the completion
      under way stores in the transfer, and `shown` what was there when the callbacks ran. */
  datatype Life = Life(
    submit: SubmitPc, complete: CompletePc,
    inFlight: bool, completed: bool, cancelling: bool, disappeared: bool,
    listed: nat, pending: Option<nat>, held: set<nat>, broken: bool,
    current: nat, failed: set<nat>, succeeded: set<nat>, callbacks: seq<nat>,
    marked: set<nat>, overtaken: set<nat>, doubles: nat,
    result: Result, shown: map<nat, Result>)

  /** How a transfer ended: the status, None if libusb has no name for it, and the bytes that were moved. */
  datatype Result = Result(status: Option<TransferStatus>, data: seq<Byte>)

  const FRESH := Life(SIdle, CIdle, false, false, false, false, 0, None, {}, false, 0, {}, {}, [], {}, {}, 0,
                      Result(None, []), map[])

  function Enlist(l: Life): Life {
    l.(listed := if l.listed == 0 then 1 else l.listed, broken := l.broken || l.listed != 0)
  }

  function Delist(l: Life): Life {
    l.(listed := if l.listed == 1 then 0 else l.listed, broken := l.broken || l.listed != 1)
  }

  function Unref(l: Life, n: nat): Life {
    l.(held := l.held - {n}, broken := l.broken || n !in l.held)
  }

  datatype Move =
    | Submit(clockOk: bool)
    | EnterList(timerOk: bool)
    | TakeRef
    | BackendAccepts
    | BackendReturns
    | Finish
    | DropRef
    | LeaveList
    | Cancel(answer: Code)
    | BackendCompletes(result: Result)
    | CompleteStep
    | SweepMarks
    | SweepTakes(moved: seq<Byte>)

  /** Completions may begin as soon as the back end has accepted. Completions and the sweep both run
      in the thread that handles events, so they do not interleave with each other. */
  predicate Enabled(l: Life, m: Move) {
    match m
    case Submit(_) => l.submit.SIdle?
    case EnterList(_) => l.submit.SAdd?
    case TakeRef => l.submit.SRef?
    case BackendAccepts => l.submit == InBackend(false)
    case BackendReturns => l.submit.InBackend?
    case Finish => l.submit.SFinish?
    case DropRef => l.submit.SUnref?
    case LeaveList => l.submit.SDelist?
    case Cancel(_) => l.submit.SIdle?
    case BackendCompletes(_) => l.pending.Some? && l.complete.CIdle?
    case CompleteStep => !l.complete.CIdle?
    case SweepMarks => l.complete.CIdle? && l.listed > 0 && !l.inFlight
    case SweepTakes(_) => l.complete.CIdle? && l.listed > 0 && l.inFlight && l.submit.SIdle?
  }

  /** One step of usbi_handle_transfer_completion. */
  function CompletionStep(l: Life): Life {
    match l.complete
    case CDelist(n) => Delist(l).(complete := CFlags(n))
    case CFlags(n) => l.(inFlight := false, completed := true, complete := CCallback(n))
    case CCallback(n) =>
      l.(callbacks := l.callbacks + [n], shown := l.shown[n := l.result], complete := CUnref(n))
    case CUnref(n) => Unref(l, n).(complete := CIdle)
    case CIdle => l
  }

  function Step(l: Life, m: Move): Life
    requires Enabled(l, m)
  {
    match m
    case Submit(clockOk) =>
      if l.inFlight then l   // LIBUSB_ERROR_BUSY
      else
        var s := l.(current := l.current + 1, completed := false, cancelling := false, disappeared := false);
        if clockOk then s.(submit := SAdd) else s.(failed := s.failed + {s.current})
    case EnterList(timerOk) =>
      if timerOk then Enlist(l.(submit := SRef))
      else l.(submit := SIdle, failed := l.failed + {l.current},
              inFlight := false, completed := false, cancelling := false, disappeared := false)
    case TakeRef => l.(submit := InBackend(false), held := l.held + {l.current})
    case BackendAccepts =>
      l.(submit := InBackend(true), pending := Some(l.current), broken := l.broken || l.pending.Some?)
    case BackendReturns => l.(submit := SFinish(l.submit.accepted))
    case Finish =>
      if !l.submit.ok then l.(submit := SUnref)
      else if l.disappeared then
        l.(submit := SUnref, pending := None, doubles := l.doubles + if l.pending.None? then 1 else 0)
      else l.(submit := SIdle, inFlight := l.inFlight || !l.completed, succeeded := l.succeeded + {l.current})
    case DropRef => Unref(l, l.current).(submit := SDelist)
    case LeaveList => Delist(l).(submit := SIdle, failed := l.failed + {l.current})
    case Cancel(answer) =>
      if !l.inFlight || l.cancelling then l
      else l.(cancelling := true, disappeared := l.disappeared || answer == ErrorNoDevice)
    case BackendCompletes(result) =>
      l.(pending := None, complete := CDelist(l.pending.value), result := result,
         overtaken := if !l.submit.SIdle? && l.pending.value == l.current then l.overtaken + {l.current}
                      else l.overtaken)
    case CompleteStep => CompletionStep(l)
    case SweepMarks =>
      l.(disappeared := true, marked := if l.submit.SIdle? then l.marked else l.marked + {l.current})
    case SweepTakes(moved) =>
      l.(pending := None, complete := CDelist(l.current), result := Result(Some(NoDevice), moved))
  }

  /** Some submission was marked by the sweep, and overtaken by its completion. */
  predicate Clash(l: Life) {
    l.marked * l.overtaken != {}
  }

  lemma StepOnlyAdds(l: Life, m: Move)
    requires Enabled(l, m)
    ensures var l' := Step(l, m); (l.broken ==> l'.broken) && l.marked <= l'.marked && l.overtaken <= l'.overtaken
  {
    match m
    case Submit(_) =>
    case EnterList(_) =>
    case TakeRef =>
    case BackendAccepts =>
    case BackendReturns =>
    case Finish =>
    case DropRef =>
    case LeaveList =>
    case Cancel(_) =>
    case BackendCompletes(_) =>
    case CompleteStep => CompletionOnlyAdds(l);
    case SweepMarks =>
    case SweepTakes(_) =>
  }

  /** What a completion leaves alone. */
  ghost predicate CompletionFrame(l: Life, r: Life) {
    && r.submit == l.submit && r.pending == l.pending && (l.broken ==> r.broken)
    && r.current == l.current && r.failed == l.failed && r.succeeded == l.succeeded
    && r.marked == l.marked && r.overtaken == l.overtaken && r.doubles == l.doubles
  }

  ghost predicate SameCallbacks(l: Life, r: Life) {
    r.result == l.result && r.shown == l.shown && r.callbacks == l.callbacks
  }

  lemma DelistFrame(l: Life, c: CompletePc)
    ensures CompletionFrame(l, Delist(l).(complete := c)) && SameCallbacks(l, Delist(l).(complete := c))
  {
  }

  lemma UnrefFrame(l: Life, n: nat, c: CompletePc)
    ensures CompletionFrame(l, Unref(l, n).(complete := c)) && SameCallbacks(l, Unref(l, n).(complete := c))
  {
  }

  lemma CompletionOnlyAdds(l: Life)
    ensures CompletionFrame(l, CompletionStep(l))
  {
    match l.complete
    case CIdle =>
    case CDelist(n) => DelistFrame(l, CFlags(n));
    case CFlags(_) =>
    case CCallback(_) =>
    case CUnref(n) => UnrefFrame(l, n, CIdle);
  }

  lemma ClashStays(l: Life, l': Life)
    requires Clash(l) && l.marked <= l'.marked && l.overtaken <= l'.overtaken
    ensures Clash(l')
  {
    var n :| n in l.marked * l.overtaken;
    assert n in l'.marked * l'.overtaken;
  }

  // ------------------------------------------------------------------ the invariants

  predicate Before(l: Life) { l.complete.CDelist? || l.complete.CFlags? }

  /** The current submission was accepted and its completion has not yet delisted it. */
  predicate Outstanding(l: Life) { l.pending.Some? || l.complete.CDelist? }

  /** The part of submit that runs before the back end accepted, or after it refused. */
  predicate Unaccepted(l: Life) {
    l.submit in {SRef, InBackend(false), SFinish(false), SUnref, SDelist}
  }

  predicate Accepted(l: Life) {
    l.submit in {InBackend(true), SFinish(true)}
  }

  function One(b: bool): nat { if b then 1 else 0 }

  /** How many times the transfer is still to be taken off the list. */
  function Due(l: Life): nat {
    One(Unaccepted(l)) + One(l.pending.Some?) + One(l.complete.CDelist?)
  }

  /** What holds in every run until something breaks: the flags of a submit under way tell whether it
      was marked and overtaken, and every submit that ends although its completion has begun leaves
      one delisting too many. */
  ghost predicate Ledger(l: Life) {
    && LedgerSubmit(l)
    && (forall n :: n in l.marked || n in l.overtaken ==> n <= l.current)
    && (l.inFlight ==> l.pending.Some? || Before(l))
    && (forall n :: n in l.marked && n in l.overtaken ==> l.doubles > 0 || (Accepted(l) && n == l.current))
    && l.listed + l.doubles == Due(l)
  }

  ghost predicate LedgerSubmit(l: Life) {
    && (!l.submit.SIdle? ==> !l.inFlight && (l.disappeared <==> l.current in l.marked))
    && (Accepted(l) ==> l.pending == if l.current in l.overtaken then None else Some(l.current))
    && (Accepted(l) && l.current in l.overtaken ==> Before(l) || l.completed)
    && (l.submit in {SAdd, SRef, InBackend(false), SFinish(false)} ==> l.current !in l.overtaken)
    && (l.submit in {SUnref, SDelist} && l.current in l.overtaken ==> l.doubles > 0)
    && (l.pending.Some? ==> l.pending.value <= l.current)
    && (l.pending.Some? && !l.submit.SIdle? && !Accepted(l) ==> l.pending.value < l.current)
  }

  // Every move keeps the ledger, or breaks something.

  lemma SubmitKeepsLedger(l: Life, m: Move)
    requires Ledger(l) && !l.broken && Enabled(l, m) && !Step(l, m).broken
    requires m.Submit? || m.TakeRef? || m.BackendReturns?
    ensures Ledger(Step(l, m))
  {
  }

  lemma EnterKeepsLedger(l: Life, timerOk: bool)
    requires Ledger(l) && !l.broken && Enabled(l, EnterList(timerOk)) && !Step(l, EnterList(timerOk)).broken
    ensures Ledger(Step(l, EnterList(timerOk)))
  {
  }

  lemma AcceptKeepsLedger(l: Life)
    requires Ledger(l) && !l.broken && Enabled(l, BackendAccepts) && !Step(l, BackendAccepts).broken
    ensures Ledger(Step(l, BackendAccepts))
  {
  }

  lemma FinishKeepsLedger(l: Life)
    requires Ledger(l) && !l.broken && Enabled(l, Finish)
    ensures Ledger(Step(l, Finish))
  {
  }

  lemma DropKeepsLedger(l: Life)
    requires Ledger(l) && !l.broken && Enabled(l, DropRef) && !Step(l, DropRef).broken
    ensures Ledger(Step(l, DropRef))
  {
  }

  lemma LeaveKeepsLedger(l: Life)
    requires Ledger(l) && !l.broken && Enabled(l, LeaveList) && !Step(l, LeaveList).broken
    ensures Ledger(Step(l, LeaveList))
  {
  }

  lemma CancelKeepsLedger(l: Life, answer: Code)
    requires Ledger(l) && !l.broken && Enabled(l, Cancel(answer))
    ensures Ledger(Step(l, Cancel(answer)))
  {
  }

  lemma CompletesKeepsLedger(l: Life, r: Result)
    requires Ledger(l) && !l.broken && Enabled(l, BackendCompletes(r))
    ensures Ledger(Step(l, BackendCompletes(r)))
  {
  }

  lemma DelistKeepsLedger(l: Life, n: nat)
    requires Ledger(l) && !l.broken && l.complete == CDelist(n) && !CompletionStep(l).broken
    ensures Ledger(CompletionStep(l))
  {
  }

  lemma FlagsKeepLedger(l: Life, n: nat)
    requires Ledger(l) && !l.broken && l.complete == CFlags(n)
    ensures Ledger(CompletionStep(l))
  {
  }

  lemma CallbackKeepsLedger(l: Life, n: nat)
    requires Ledger(l) && !l.broken && l.complete == CCallback(n)
    ensures Ledger(CompletionStep(l))
  {
  }

  lemma UnrefKeepsLedger(l: Life, n: nat)
    requires Ledger(l) && !l.broken && l.complete == CUnref(n) && !CompletionStep(l).broken
    ensures Ledger(CompletionStep(l))
  {
  }

  lemma CompletionKeepsLedger(l: Life)
    requires Ledger(l) && !l.broken && !CompletionStep(l).broken
    ensures Ledger(CompletionStep(l))
  {
    match l.complete
    case CIdle =>
    case CDelist(n) => DelistKeepsLedger(l, n);
    case CFlags(n) => FlagsKeepLedger(l, n);
    case CCallback(n) => CallbackKeepsLedger(l, n);
    case CUnref(n) => UnrefKeepsLedger(l, n);
  }

  lemma MarkKeepsLedger(l: Life)
    requires Ledger(l) && !l.broken && Enabled(l, SweepMarks)
    ensures Ledger(Step(l, SweepMarks))
  {
  }

  lemma TakeKeepsLedger(l: Life, moved: seq<Byte>)
    requires Ledger(l) && !l.broken && Enabled(l, SweepTakes(moved))
    ensures Ledger(Step(l, SweepTakes(moved)))
  {
  }

  lemma StepKeepsLedger(l: Life, m: Move)
    requires Ledger(l) && !l.broken && Enabled(l, m) && !Step(l, m).broken
    ensures Ledger(Step(l, m))
  {
    hide Ledger, LedgerSubmit;
    match m
    case EnterList(timerOk) => EnterKeepsLedger(l, timerOk);
    case BackendAccepts => AcceptKeepsLedger(l);
    case Finish => FinishKeepsLedger(l);
    case DropRef => DropKeepsLedger(l);
    case LeaveList => LeaveKeepsLedger(l);
    case Cancel(answer) => CancelKeepsLedger(l, answer);
    case BackendCompletes(r) => CompletesKeepsLedger(l, r);
    case CompleteStep => CompletionKeepsLedger(l);
    case SweepMarks => MarkKeepsLedger(l);
    case SweepTakes(moved) => TakeKeepsLedger(l, moved);
    case _ => SubmitKeepsLedger(l, m);
  }

  // ------------------------------------------------------- the runs without a clash

  predicate IsListed(l: Life) {
    Unaccepted(l) || Outstanding(l)
  }

  function Holders(l: Life): set<nat> {
    (if l.submit in {InBackend(false), SFinish(false), SUnref} then {l.current} else {}) +
    (if l.pending.Some? then {l.pending.value} else {}) +
    (if l.complete.CIdle? then {} else {l.complete.n})
  }

  predicate NoDuplicates(s: seq<nat>) {
    forall i, j :: 0 <= i < j < |s| ==> s[i] != s[j]
  }

  /** Where the transfer is listed, who holds references, and which submission is meant. */
  predicate Core(l: Life) {
    && !l.broken
    && l.listed == One(IsListed(l))
    && l.held == Holders(l)
    && (!l.submit.SIdle? ==> l.current >= 1)
    && (l.pending.Some? ==> l.pending.value == l.current && l.current >= 1 && !Before(l))
    && (Before(l) ==> l.complete.n == l.current)
    && (!l.complete.CIdle? ==> 1 <= l.complete.n <= l.current)
    && (!l.complete.CIdle? && !Before(l) && (l.pending.Some? || Unaccepted(l) || l.submit == SAdd) ==>
          l.complete.n < l.current)
    && (Unaccepted(l) || l.submit == SAdd ==> l.pending.None? && !Before(l))
  }

  /** What the flags say about all that. */
  predicate FlagsInv(l: Life) {
    && (!l.submit.SIdle? ==> !l.inFlight)
    && (l.submit.SIdle? ==> (l.inFlight <==> l.pending.Some? || Before(l)))
    && (Accepted(l) ==> (!l.completed <==> l.pending.Some? || Before(l)))
    && (l.submit in {SAdd, SRef, InBackend(false)} ==> !l.completed)
  }

  /** What has been reported. */
  ghost predicate History(l: Life) {
    && (forall n :: n in l.failed || n in l.succeeded || n in l.callbacks ==> 1 <= n <= l.current)
    && l.failed !! l.succeeded
    && (!l.submit.SIdle? ==> l.current !in l.failed && l.current !in l.succeeded)
    && (forall n :: n in l.callbacks ==> n !in l.failed)
    && NoDuplicates(l.callbacks)
    && (l.pending.Some? ==> l.current !in l.failed && l.current !in l.callbacks)
    && (!l.complete.CIdle? ==>
          && l.complete.n !in l.failed
          && (l.complete.n in l.callbacks <==> l.complete.CUnref?))
    && (Unaccepted(l) || l.submit == SAdd ==> l.current !in l.callbacks)
    && (Accepted(l) ==> l.current in l.callbacks || l.current in l.held)
    && (forall n :: n in l.succeeded ==> n in l.callbacks || n in l.held)
  }

  ghost predicate Normal(l: Life) {
    Core(l) && FlagsInv(l) && History(l)
  }

  /** A submit that finds its transfer marked has not been overtaken. */
  predicate Orderly(l: Life, m: Move)
    requires Enabled(l, m)
  {
    m.Finish? && l.submit.ok && l.disappeared ==> l.pending.Some?
  }

  lemma NoClashIsOrderly(l: Life, m: Move)
    requires Ledger(l) && !Clash(l) && Enabled(l, m)
    ensures Orderly(l, m)
  {
    assert l.current in l.marked && l.current in l.overtaken ==> l.current in l.marked * l.overtaken;
  }

  lemma SubmitKeepsNormal(l: Life, clockOk: bool)
    requires Normal(l) && Enabled(l, Submit(clockOk))
    ensures Normal(Step(l, Submit(clockOk)))
  {
  }

  lemma EnterKeepsNormal(l: Life, timerOk: bool)
    requires Normal(l) && Enabled(l, EnterList(timerOk))
    ensures Normal(Step(l, EnterList(timerOk)))
  {
  }

  lemma TakeRefKeepsNormal(l: Life)
    requires Normal(l) && Enabled(l, TakeRef)
    ensures Normal(Step(l, TakeRef))
  {
  }

  lemma AcceptKeepsNormal(l: Life)
    requires Normal(l) && Enabled(l, BackendAccepts)
    ensures Normal(Step(l, BackendAccepts))
  {
  }

  lemma ReturnKeepsNormal(l: Life)
    requires Normal(l) && Enabled(l, BackendReturns)
    ensures Normal(Step(l, BackendReturns))
  {
  }

  lemma FinishKeepsNormal(l: Life)
    requires Normal(l) && Enabled(l, Finish) && Orderly(l, Finish)
    ensures Normal(Step(l, Finish))
  {
  }

  lemma DropKeepsNormal(l: Life)
    requires Normal(l) && Enabled(l, DropRef)
    ensures Normal(Step(l, DropRef))
  {
  }

  lemma LeaveKeepsNormal(l: Life)
    requires Normal(l) && Enabled(l, LeaveList)
    ensures Normal(Step(l, LeaveList))
  {
  }

  lemma CancelKeepsNormal(l: Life, answer: Code)
    requires Normal(l) && Enabled(l, Cancel(answer))
    ensures Normal(Step(l, Cancel(answer)))
  {
  }

  lemma CompletesKeepsNormal(l: Life, r: Result)
    requires Normal(l) && Enabled(l, BackendCompletes(r))
    ensures Normal(Step(l, BackendCompletes(r)))
  {
  }

  lemma DelistKeepsNormal(l: Life, n: nat)
    requires Normal(l) && l.complete == CDelist(n)
    ensures Normal(CompletionStep(l))
  {
  }

  lemma FlagsKeepNormal(l: Life, n: nat)
    requires Normal(l) && l.complete == CFlags(n)
    ensures Normal(CompletionStep(l))
  {
  }

  lemma CallbackKeepsNormal(l: Life, n: nat)
    requires Normal(l) && l.complete == CCallback(n)
    ensures Normal(CompletionStep(l))
  {
  }

  lemma UnrefKeepsNormal(l: Life, n: nat)
    requires Normal(l) && l.complete == CUnref(n)
    ensures Normal(CompletionStep(l))
  {
  }

  lemma MarkKeepsNormal(l: Life)
    requires Normal(l) && Enabled(l, SweepMarks)
    ensures Normal(Step(l, SweepMarks))
  {
  }

  lemma TakeKeepsNormal(l: Life, moved: seq<Byte>)
    requires Normal(l) && Enabled(l, SweepTakes(moved))
    ensures Normal(Step(l, SweepTakes(moved)))
  {
  }

  lemma StepKeepsNormal(l: Life, m: Move)
    requires Normal(l) && Enabled(l, m) && Orderly(l, m)
    ensures Normal(Step(l, m))
  {
    hide Core, FlagsInv, History;
    match m
    case Submit(clockOk) => SubmitKeepsNormal(l, clockOk);
    case EnterList(timerOk) => EnterKeepsNormal(l, timerOk);
    case TakeRef => TakeRefKeepsNormal(l);
    case BackendAccepts => AcceptKeepsNormal(l);
    case BackendReturns => ReturnKeepsNormal(l);
    case Finish => FinishKeepsNormal(l);
    case DropRef => DropKeepsNormal(l);
    case LeaveList => LeaveKeepsNormal(l);
    case Cancel(answer) => CancelKeepsNormal(l, answer);
    case BackendCompletes(r) => CompletesKeepsNormal(l, r);
    case CompleteStep => CompletionKeepsNormal(l);
    case SweepMarks => MarkKeepsNormal(l);
    case SweepTakes(moved) => TakeKeepsNormal(l, moved);
  }

  lemma CompletionKeepsNormal(l: Life)
    requires Normal(l)
    ensures Normal(CompletionStep(l))
  {
    hide Core, FlagsInv, History;
    match l.complete
    case CIdle =>
    case CDelist(n) => DelistKeepsNormal(l, n);
    case CFlags(n) => FlagsKeepNormal(l, n);
    case CCallback(n) => CallbackKeepsNormal(l, n);
    case CUnref(n) => UnrefKeepsNormal(l, n);
  }

  // ------------------------------------------------------------------ whole lives

  ghost predicate Inv(l: Life) {
    && (!l.broken ==> Ledger(l))
    && (!Clash(l) ==> Normal(l))
    && ShownByCallbacks(l)
  }

  /** Every callback that ran saw something. */
  ghost predicate ShownByCallbacks(l: Life) {
    forall n :: n in l.shown <==> n in l.callbacks
  }

  lemma StepKeepsShown(l: Life, m: Move)
    requires Enabled(l, m) && ShownByCallbacks(l)
    ensures ShownByCallbacks(Step(l, m))
  {
    hide CompletionStep;
    if m.CompleteStep? {
      OnlyCallbacksShow(l);
    } else {
      OthersShowNothing(l, m);
      hide Step;
    }
  }

  lemma OthersShowNothing(l: Life, m: Move)
    requires Enabled(l, m) && !m.CompleteStep?
    ensures Step(l, m).shown == l.shown && Step(l, m).callbacks == l.callbacks
  {
    hide Step, Enabled;
    if m.Submit? || m.EnterList? {
      EnteringShowsNothing(l, m);
    } else if m.DropRef? || m.LeaveList? {
      LeavingShowsNothing(l, m);
    } else if m.Finish? {
      FinishShowsNothing(l);
    } else if m.TakeRef? || m.BackendAccepts? || m.BackendReturns? {
      BackendShowsNothing(l, m);
    } else {
      RestShowsNothing(l, m);
    }
  }

  lemma EnteringShowsNothing(l: Life, m: Move)
    requires Enabled(l, m) && (m.Submit? || m.EnterList?)
    ensures Step(l, m).shown == l.shown && Step(l, m).callbacks == l.callbacks
  {
  }

  lemma LeavingShowsNothing(l: Life, m: Move)
    requires Enabled(l, m) && (m.DropRef? || m.LeaveList?)
    ensures Step(l, m).shown == l.shown && Step(l, m).callbacks == l.callbacks
  {
  }

  lemma FinishShowsNothing(l: Life)
    requires Enabled(l, Finish)
    ensures Step(l, Finish).shown == l.shown && Step(l, Finish).callbacks == l.callbacks
  {
  }

  lemma BackendShowsNothing(l: Life, m: Move)
    requires Enabled(l, m) && (m.TakeRef? || m.BackendAccepts? || m.BackendReturns?)
    ensures Step(l, m).shown == l.shown && Step(l, m).callbacks == l.callbacks
  {
  }

  lemma RestShowsNothing(l: Life, m: Move)
    requires Enabled(l, m) && (m.Cancel? || m.BackendCompletes? || m.SweepMarks? || m.SweepTakes?)
    ensures Step(l, m).shown == l.shown && Step(l, m).callbacks == l.callbacks
  {
  }

  lemma OnlyCallbacksShow(l: Life)
    ensures var l' := CompletionStep(l);
            && l'.result == l.result
            && if l.complete.CCallback? then
                 l'.shown == l.shown[l.complete.n := l.result] && l'.callbacks == l.callbacks + [l.complete.n]
               else
                 l'.shown == l.shown && l'.callbacks == l.callbacks
  {
    match l.complete
    case CIdle =>
    case CDelist(n) => DelistFrame(l, CFlags(n));
    case CFlags(_) =>
    case CCallback(_) =>
    case CUnref(n) => UnrefFrame(l, n, CIdle);
  }

  /** Every move keeps the ledger until something breaks, and everything in order until a clash. */
  lemma StepKeepsInv(l: Life, m: Move)
    requires Inv(l) && Enabled(l, m)
    ensures Inv(Step(l, m))
  {
    hide Step, Enabled, Ledger, Clash, FlagsInv, History, ShownByCallbacks;
    StepOnlyAdds(l, m);
    StepKeepsShown(l, m);
    if !Step(l, m).broken {
      StepKeepsLedger(l, m);
    }
    if !Clash(Step(l, m)) {
      if Clash(l) {
        ClashStays(l, Step(l, m));
        assert false;
      }
      NoClashIsOrderly(l, m);
      StepKeepsNormal(l, m);
    }
  }

  predicate IsLife(l: Life, ms: seq<Move>)
    decreases |ms|
  {
    ms != [] ==> Enabled(l, ms[0]) && IsLife(Step(l, ms[0]), ms[1..])
  }

  function After(l: Life, ms: seq<Move>): Life
    requires IsLife(l, ms)
    decreases |ms|
  {
    if ms == [] then l else After(Step(l, ms[0]), ms[1..])
  }

  lemma {:induction false} LifeInv(l: Life, ms: seq<Move>)
    requires Inv(l) && IsLife(l, ms)
    ensures Inv(After(l, ms))
    decreases |ms|
  {
    hide Inv, Step, Enabled;
    if ms != [] {
      StepKeepsInv(l, ms[0]);
      LifeInv(Step(l, ms[0]), ms[1..]);
    }
  }

  lemma FreshInv()
    ensures Inv(FRESH)
  {
    hide Ledger, Core, FlagsInv, History;
    FreshLedger();
    FreshNormal();
  }

  lemma FreshLedger()
    ensures Ledger(FRESH)
  {
    StartLedger(FRESH);
    hide Ledger;
  }

  lemma StartLedger(l: Life)
    requires Quiet(l) && !l.inFlight && l.listed == 0 && l.doubles == 0 && l.marked == {} && l.overtaken == {}
    ensures Ledger(l)
  {
  }

  lemma FreshNormal()
    ensures Normal(FRESH)
  {
    assert Holders(FRESH) == {};
  }

  /** Nothing is going on with the transfer. */
  predicate Quiet(l: Life) {
    l.submit.SIdle? && l.complete.CIdle? && l.pending.None?
  }

  /** The main result. Over any interleaving of submissions, completions (even before submit returns),
      cancellations, resubmissions and the disconnect sweep in which no submission is both marked by
      the sweep and overtaken by its completion, the transfer is on the list at most once and every
      list and reference operation is due; a failed submission gets no callback, no submission gets
      two; and when the transfer is quiet it is off the list, holds no reference, and every
      successful submission has had its callback. */
  lemma LifeCorrect(ms: seq<Move>)
    requires IsLife(FRESH, ms) && !Clash(After(FRESH, ms))
    ensures var l := After(FRESH, ms);
            && !l.broken && l.listed <= 1
            && (forall n :: n in l.failed ==> n !in l.callbacks)
            && NoDuplicates(l.callbacks)
            && (Quiet(l) ==> l.listed == 0 && l.held == {} && forall n :: n in l.succeeded ==> n in l.callbacks)
  {
    FreshInv();
    LifeInv(FRESH, ms);
  }

  /** The proviso is exact. In every run an operation that was not due needs a submission that was
      marked while its submit was under way and whose completion began before that submit was
      through; and once the transfer is quiet, such a submission has led to one. */
  lemma BrokenIffClash(ms: seq<Move>)
    requires IsLife(FRESH, ms)
    ensures var l := After(FRESH, ms);
            (l.broken ==> Clash(l)) && (Quiet(l) ==> (l.broken <==> Clash(l)))
  {
    FreshInv();
    LifeInv(FRESH, ms);
    var l := After(FRESH, ms);
    hide FlagsInv, History, IsLife, After;
    if Quiet(l) && !l.broken {
      hide Core;
      QuietLedger(l);
    }
  }

  /** Nothing is left to take off the list, so nothing was left over. */
  lemma QuietLedger(l: Life)
    requires Ledger(l) && Quiet(l)
    ensures !Clash(l)
  {
    assert Due(l) == 0;
    forall n | n in l.marked && n in l.overtaken
      ensures false
    {
    }
    assert l.marked * l.overtaken == {};
  }

  // ----------------------------------------------------- what back ends make of it

  /** A back end that completes a transfer only with the transfer's lock in hand, which submit holds
      from its first to its last step. The Linux back end does. */
  predicate LocksFirst(l: Life, ms: seq<Move>)
    requires IsLife(l, ms)
    decreases |ms|
  {
    ms != [] ==> (ms[0].BackendCompletes? ==> l.submit.SIdle?) && LocksFirst(Step(l, ms[0]), ms[1..])
  }

  /** A back end that never reports a device as gone. All but the Linux back end are like that. */
  predicate NeverSweeps(ms: seq<Move>) {
    forall i :: 0 <= i < |ms| ==> !ms[i].SweepMarks?
  }

  lemma StepMarksAndOvertakes(l: Life, m: Move)
    requires Enabled(l, m)
    ensures !m.SweepMarks? ==> Step(l, m).marked == l.marked
    ensures (m.BackendCompletes? ==> l.submit.SIdle?) ==> Step(l, m).overtaken == l.overtaken
  {
    match m
    case CompleteStep => CompletionOnlyAdds(l);
    case _ =>
  }

  lemma {:induction false} NobodyOvertaken(l: Life, ms: seq<Move>)
    requires IsLife(l, ms) && LocksFirst(l, ms)
    ensures After(l, ms).overtaken == l.overtaken
    decreases |ms|
  {
    hide Step, Enabled;
    if ms != [] {
      StepMarksAndOvertakes(l, ms[0]);
      NobodyOvertaken(Step(l, ms[0]), ms[1..]);
    }
  }

  lemma {:induction false} NobodyMarked(l: Life, ms: seq<Move>)
    requires IsLife(l, ms) && NeverSweeps(ms)
    ensures After(l, ms).marked == l.marked
    decreases |ms|
  {
    hide Step, Enabled;
    if ms != [] {
      assert !ms[0].SweepMarks?;
      StepMarksAndOvertakes(l, ms[0]);
      NobodyMarked(Step(l, ms[0]), ms[1..]);
    }
  }

  /** Either kind of back end rules the clash out. */
  lemma NoClash(ms: seq<Move>)
    requires IsLife(FRESH, ms) && (LocksFirst(FRESH, ms) || NeverSweeps(ms))
    ensures !Clash(After(FRESH, ms))
  {
    hide IsLife, After, LocksFirst, NeverSweeps;
    if LocksFirst(FRESH, ms) {
      NobodyOvertaken(FRESH, ms);
    } else {
      NobodyMarked(FRESH, ms);
    }
  }

  /** The main result for the Linux back end, which locks, and for the others, which do not sweep: over
      every interleaving, without any proviso, the transfer is listed at most once and every list and
      reference operation is due; a failed submission gets no callback and none gets two; and a quiet
      transfer is off the list, holds no reference, and has had a callback for every success. */
  lemma LifeCorrectHere(ms: seq<Move>)
    requires IsLife(FRESH, ms) && (LocksFirst(FRESH, ms) || NeverSweeps(ms))
    ensures var l := After(FRESH, ms);
            && !l.broken && l.listed <= 1
            && (forall n :: n in l.failed ==> n !in l.callbacks)
            && NoDuplicates(l.callbacks)
            && (Quiet(l) ==> l.listed == 0 && l.held == {} && forall n :: n in l.succeeded ==> n in l.callbacks)
  {
    NoClash(ms);
    LifeCorrect(ms);
  }

  // ------------------------------------------------------- what the callbacks see

  /** What a move reports as the end of which submission. */
  function Reported(l: Life, m: Move): map<nat, Result>
    requires Enabled(l, m)
  {
    match m
    case BackendCompletes(result) => map[l.pending.value := result]
    case SweepTakes(moved) => map[l.current := Result(Some(NoDevice), moved)]
    case _ => map[]
  }

  function Reports(l: Life, ms: seq<Move>): map<nat, Result>
    requires IsLife(l, ms)
    decreases |ms|
  {
    if ms == [] then map[] else Reported(l, ms[0]) + Reports(Step(l, ms[0]), ms[1..])
  }

  /** The callbacks that ran saw the reports; so will the one that is coming. */
  ghost predicate Shows(l: Life, reports: map<nat, Result>) {
    && ShownByCallbacks(l)
    && (forall n :: n in l.shown ==> n in reports && l.shown[n] == reports[n])
    && (l.complete.CDelist? || l.complete.CFlags? || l.complete.CCallback? ==>
          l.complete.n in reports && l.result == reports[l.complete.n])
  }

  lemma StepShows(l: Life, m: Move, reports: map<nat, Result>)
    requires Normal(l) && Enabled(l, m) && Shows(l, reports)
    ensures Shows(Step(l, m), reports + Reported(l, m))
  {
    hide Core, FlagsInv, History, Step, Shows, Reported;
    if m.CompleteStep? {
      CompletionShows(l, reports);
    } else if m.BackendCompletes? || m.SweepTakes? {
      NotYetCalledBack(l);
      EndShows(l, m, reports);
    } else {
      ShowsNothing(l, m);
      SameShows(l, Step(l, m), reports);
      assert reports + map[] == reports;
    }
  }

  lemma ShowsNothing(l: Life, m: Move)
    requires Enabled(l, m) && !m.CompleteStep? && !m.BackendCompletes? && !m.SweepTakes?
    ensures var l' := Step(l, m);
            l'.complete == l.complete && l'.result == l.result && l'.shown == l.shown && l'.callbacks == l.callbacks
    ensures Reported(l, m) == map[]
  {
    OthersShowNothing(l, m);
  }

  lemma SameShows(l: Life, l': Life, reports: map<nat, Result>)
    requires Shows(l, reports)
    requires l'.complete == l.complete && l'.result == l.result && l'.shown == l.shown && l'.callbacks == l.callbacks
    ensures Shows(l', reports)
  {
  }

  /** A report for a submission that had no callback yet. */
  lemma EndShows(l: Life, m: Move, reports: map<nat, Result>)
    requires Enabled(l, m) && Shows(l, reports) && (m.BackendCompletes? || m.SweepTakes?)
    requires l.pending.Some? ==> l.pending.value == l.current
    requires l.current !in l.callbacks
    ensures Shows(Step(l, m), reports + Reported(l, m))
  {
  }

  lemma CompletionShows(l: Life, reports: map<nat, Result>)
    requires Shows(l, reports) && !l.complete.CIdle?
    ensures Shows(Step(l, CompleteStep), reports + Reported(l, CompleteStep))
  {
    assert reports + map[] == reports;
    CompletionGoesOn(l);
    OnlyCallbacksShow(l);
    hide CompletionStep;
  }

  lemma NotYetCalledBack(l: Life)
    requires Normal(l) && l.complete.CIdle?
    ensures l.pending.Some? ==> l.pending.value == l.current && l.current !in l.callbacks
    ensures l.inFlight && l.submit.SIdle? ==> l.pending.Some?
  {
  }

  lemma {:induction false} RunShows(l: Life, ms: seq<Move>, reports: map<nat, Result>)
    requires Inv(l) && IsLife(l, ms) && !Clash(After(l, ms)) && Shows(l, reports)
    ensures Shows(After(l, ms), reports + Reports(l, ms))
    decreases |ms|
  {
    hide Inv, Step, Enabled, Shows, Reported, Clash;
    if ms == [] {
      assert reports + map[] == reports;
    } else {
      var l' := Step(l, ms[0]);
      NoClashSoFar(l, ms);
      StepShows(l, ms[0], reports);
      StepKeepsInv(l, ms[0]);
      RunShows(l', ms[1..], reports + Reported(l, ms[0]));
      assert reports + Reported(l, ms[0]) + Reports(l', ms[1..]) ==
             reports + (Reported(l, ms[0]) + Reports(l', ms[1..]));
    }
  }

  lemma {:induction false} RunOnlyAdds(l: Life, ms: seq<Move>)
    requires IsLife(l, ms)
    ensures l.marked <= After(l, ms).marked && l.overtaken <= After(l, ms).overtaken
    decreases |ms|
  {
    hide Step, Enabled;
    if ms != [] {
      StepOnlyAdds(l, ms[0]);
      RunOnlyAdds(Step(l, ms[0]), ms[1..]);
    }
  }

  lemma NoClashSoFar(l: Life, ms: seq<Move>)
    requires Inv(l) && IsLife(l, ms) && !Clash(After(l, ms))
    ensures Normal(l)
  {
    hide Ledger, Normal;
    RunOnlyAdds(l, ms);
    if Clash(l) {
      ClashStays(l, After(l, ms));
    }
  }

  /** What a callback finds in the transfer is what the completion of its own submission reported,
      however often the transfer was submitted; and a success whose transfer is quiet was reported. */
  lemma CallbacksSeeReports(ms: seq<Move>)
    requires IsLife(FRESH, ms) && !Clash(After(FRESH, ms))
    ensures var l, reports := After(FRESH, ms), Reports(FRESH, ms);
            && (forall n :: n in l.shown <==> n in l.callbacks)
            && (forall n :: n in l.callbacks ==> n in reports && l.shown[n] == reports[n])
  {
    hide IsLife, After, Reports, Inv, Clash;
    FreshInv();
    FreshShows();
    RunShows(FRESH, ms, map[]);
    assert map[] + Reports(FRESH, ms) == Reports(FRESH, ms);
  }

  lemma FreshShows()
    ensures Shows(FRESH, map[])
  {
  }

  /** The steps that are left until the transfer is quiet, when nobody starts anything new. */
  function Rank(l: Life): nat {
    (match l.submit
     case SIdle => 0
     case SDelist => 1
     case SUnref => 2
     case SFinish(_) => 3
     case InBackend(_) => 4
     case SRef => 5
     case SAdd => 6) +
    (match l.complete
     case CIdle => 0
     case CUnref(_) => 1
     case CCallback(_) => 2
     case CFlags(_) => 3
     case CDelist(_) => 4) +
    5 * One(l.pending.Some?)
  }

  function NextMove(l: Life): Move {
    if !l.complete.CIdle? then CompleteStep
    else match l.submit
      case SAdd => EnterList(false)
      case SRef => TakeRef
      case InBackend(_) => BackendReturns
      case SFinish(_) => Finish
      case SUnref => DropRef
      case SDelist => LeaveList
      case SIdle => BackendCompletes(Result(None, []))
  }

  lemma NextMoveHelps(l: Life)
    requires !Quiet(l)
    ensures Enabled(l, NextMove(l)) && Rank(Step(l, NextMove(l))) < Rank(l)
  {
    if !l.complete.CIdle? {
      CompletionHelps(l);
    } else {
      match l.submit
      case SIdle =>
      case SDelist =>
      case SUnref =>
      case SFinish(ok) => FinishHelps(l);
      case InBackend(_) =>
      case SRef =>
      case SAdd =>
    }
  }

  lemma CompletionHelps(l: Life)
    requires !l.complete.CIdle?
    ensures Rank(CompletionStep(l)) < Rank(l)
  {
    CompletionOnlyAdds(l);
    CompletionGoesOn(l);
    hide CompletionStep;
  }

  lemma CompletionGoesOn(l: Life)
    ensures CompletionStep(l).complete ==
            match l.complete
            case CDelist(n) => CFlags(n)
            case CFlags(n) => CCallback(n)
            case CCallback(n) => CUnref(n)
            case _ => CIdle
  {
  }

  lemma FinishHelps(l: Life)
    requires l.submit.SFinish?
    ensures Rank(Step(l, Finish)) < Rank(l)
  {
  }

  /** Every life can become quiet, so that a clash is never survived. */
  lemma {:induction false} EveryLifeSettles(l: Life) returns (ms: seq<Move>)
    ensures IsLife(l, ms) && Quiet(After(l, ms))
    decreases Rank(l)
  {
    hide Rank, Step, Enabled, NextMove;
    ms := [];
    if !Quiet(l) {
      NextMoveHelps(l);
      var rest := EveryLifeSettles(Step(l, NextMove(l)));
      ms := [NextMove(l)] + rest;
      assert ms[1..] == rest;
    }
  }

  lemma {:induction false} Extend(l: Life, ms: seq<Move>, m: Move)
    requires IsLife(l, ms) && Enabled(After(l, ms), m)
    ensures IsLife(l, ms + [m]) && After(l, ms + [m]) == Step(After(l, ms), m)
    decreases |ms|
  {
    hide Step, Enabled;
    if ms == [] {
      assert ms + [m] == [m] && [m][1..] == [];
    } else {
      assert (ms + [m])[1..] == ms[1..] + [m];
      Extend(Step(l, ms[0]), ms[1..], m);
    }
  }

  /** One run after another. */
  lemma {:induction false} Joined(l: Life, a: seq<Move>, b: seq<Move>)
    requires IsLife(l, a) && IsLife(After(l, a), b)
    ensures IsLife(l, a + b) && After(l, a + b) == After(After(l, a), b)
    decreases |a|
  {
    hide Step, Enabled;
    if a == [] {
      assert a + b == b;
    } else {
      assert (a + b)[0] == a[0] && (a + b)[1..] == a[1..] + b;
      Joined(Step(l, a[0]), a[1..], b);
    }
  }

  /** Listed, and marked by the sweep before the back end gets it. */
  lemma MarkedEarly() returns (ms: seq<Move>)
    ensures IsLife(FRESH, ms)
    ensures After(FRESH, ms) ==
            Life(SRef, CIdle, false, false, false, true, 1, None, {}, false, 1, {}, {}, [], {1}, {}, 0,
                 Result(None, []), map[])
  {
    hide IsLife, After;
    ms := [];
    NoMoves(FRESH);
    Extend(FRESH, ms, Submit(true));
    ms := ms + [Submit(true)];
    Extend(FRESH, ms, EnterList(true));
    ms := ms + [EnterList(true)];
    Extend(FRESH, ms, SweepMarks);
    ms := ms + [SweepMarks];
  }

  /** Accepted by the back end all the same, and completed before the submit is through. */
  lemma MarkedThenOvertaken() returns (ms: seq<Move>)
    ensures IsLife(FRESH, ms)
    ensures After(FRESH, ms) ==
            Life(SFinish(true), CDelist(1), false, false, false, true, 1, None, {1}, false, 1, {}, {}, [], {1}, {1}, 0,
                 Result(None, []), map[])
  {
    hide IsLife, After;
    ms := MarkedEarly();
    Extend(FRESH, ms, TakeRef);
    ms := ms + [TakeRef];
    Extend(FRESH, ms, BackendAccepts);
    ms := ms + [BackendAccepts];
    Extend(FRESH, ms, BackendReturns);
    ms := ms + [BackendReturns];
    Extend(FRESH, ms, BackendCompletes(Result(None, [])));
    ms := ms + [BackendCompletes(Result(None, []))];
  }

  lemma NoMoves(l: Life)
    ensures IsLife(l, []) && After(l, []) == l
  {
  }

  /** From there, with a back end that both sweeps and completes without the lock, the submit and the
      completion both take the transfer off the list: when the completion is one step further, the
      submit is the second to do so. */
  lemma DelistedTwice() returns (ms: seq<Move>)
    ensures IsLife(FRESH, ms) && Enabled(After(FRESH, ms), LeaveList)
    ensures !After(FRESH, ms).broken && After(FRESH, ms).listed == 0 && Step(After(FRESH, ms), LeaveList).broken
  {
    hide IsLife, After;
    ms := MarkedThenOvertaken();
    Extend(FRESH, ms, CompleteStep);
    ms := ms + [CompleteStep];
    Extend(FRESH, ms, Finish);
    ms := ms + [Finish];
    Extend(FRESH, ms, DropRef);
    ms := ms + [DropRef];
  }

  /** When the completion is all through, the submit drops the reference a second time. */
  lemma UnreferencedTwice() returns (ms: seq<Move>)
    ensures IsLife(FRESH, ms) && Enabled(After(FRESH, ms), DropRef)
    ensures !After(FRESH, ms).broken && After(FRESH, ms).held == {} && Step(After(FRESH, ms), DropRef).broken
  {
    hide IsLife, After;
    ms := MarkedThenOvertaken();
    Extend(FRESH, ms, CompleteStep);
    ms := ms + [CompleteStep];
    Extend(FRESH, ms, CompleteStep);
    ms := ms + [CompleteStep];
    Extend(FRESH, ms, CompleteStep);
    ms := ms + [CompleteStep];
    Extend(FRESH, ms, CompleteStep);
    ms := ms + [CompleteStep];
    Extend(FRESH, ms, Finish);
    ms := ms + [Finish];
  }

  /** A synchronous call submits its own transfer once, and frees it when the submission failed or
      when the callback has set its flag. Then the transfer is off the list and neither the back
      end nor the completing thread will touch it again. */
  lemma SyncFreesSafely(ms: seq<Move>)
    requires IsLife(FRESH, ms) && !Clash(After(FRESH, ms))
    requires var l := After(FRESH, ms);
             l.current == 1 && l.submit.SIdle? && (1 in l.failed || 1 in l.callbacks)
    ensures var l := After(FRESH, ms);
            l.listed == 0 && l.pending.None? && (l.complete.CIdle? || l.complete == CUnref(1))
  {
    FreshInv();
    LifeInv(FRESH, ms);
    FreedIsOff(After(FRESH, ms));
  }

  lemma FreedIsOff(l: Life)
    requires Normal(l) && l.current == 1 && l.submit.SIdle? && (1 in l.failed || 1 in l.callbacks)
    ensures l.listed == 0 && l.pending.None? && (l.complete.CIdle? || l.complete == CUnref(1))
  {
  }

  /** The same for the back ends that lock first or never sweep, without the proviso. */
  lemma SyncFreesSafelyHere(ms: seq<Move>)
    requires IsLife(FRESH, ms) && (LocksFirst(FRESH, ms) || NeverSweeps(ms))
    requires var l := After(FRESH, ms);
             l.current == 1 && l.submit.SIdle? && (1 in l.failed || 1 in l.callbacks)
    ensures var l := After(FRESH, ms);
            l.listed == 0 && l.pending.None? && (l.complete.CIdle? || l.complete == CUnref(1))
  {
    NoClash(ms);
    SyncFreesSafely(ms);
  }

  /** A submission that the sweep marked while it was under way, and that was not overtaken, delists
      the transfer itself, drops the reference, and is reported as failed. */
  lemma MarkedSubmissionDelists(l: Life)
    requires Normal(l) && l.submit == SFinish(true) && l.disappeared && l.pending.Some?
    ensures Enabled(l, Finish) && Enabled(Step(l, Finish), DropRef)
    ensures Enabled(Step(Step(l, Finish), DropRef), LeaveList)
    ensures var l' := Step(Step(Step(l, Finish), DropRef), LeaveList);
            l'.submit.SIdle? && l'.listed == 0 && l'.pending.None? && l.current in l'.failed && l.current !in l'.held
  {
    FinishKeepsNormal(l);
    hide Core, FlagsInv, History;
    MarkedLeaves(Step(l, Finish));
  }

  lemma MarkedLeaves(l: Life)
    requires Normal(l) && l.submit == SUnref
    ensures var l' := Step(Step(l, DropRef), LeaveList);
            l'.submit.SIdle? && l'.listed == 0 && l'.pending.None? && l.current in l'.failed && l.current !in l'.held
  {
    hide FlagsInv, History;
  }
}
