/**
 How threads share event handling: any number of threads handle events, wait for whoever does,
 close devices (also from callbacks) and signal, one step per lock operation or locked section.
 */
module EventProtocol {
  import opened Usb
  import opened EventData

  type Tid = nat

  /** Where a callback into user code happens while a thread handles events: completing a transfer
      inside the event-pipe section (with event_data_lock dropped and the hotplug message of the
      section in hand), delivering that message, or in the back end. */
  datatype Site = InLoop(msg: Option<Message>, transfer: TransferId) | InHotplug(message: Message) | InBackend

  datatype Caller = User | Callback(site: Site)

  /** The steps of libusb_close and of the do_close inside it, which takes the recursive events
      lock a second time. */
  datatype CloseStage =
    | CTake | CActive
    | CInnerTake | CInnerActive | CInnerClear | CInnerRelease
    | CInnerWaiters | CInnerBroadcast | CInnerUnlock
    | CEnd
    | CClear | CRelease | CWaiters | CBroadcast | CUnlock

  /** libusb_try_lock_events (two steps) and libusb_lock_events, before the lock is taken. */
  datatype EntryPc = TryReadClose | TryTake | LockTake

  /** With the events lock held, from setting event_handler_active to releasing the lock. */
  datatype HandlerPc =
    | SetActive | CheckDone | Prepare | Poll | Sighted | At(site: Site) | ClearActive | ReleaseEvents

  /** The rest of libusb_unlock_events. */
  datatype LeavePc = TakeWaiters | Broadcast | UnlockWaiters

  /** A thread that did not get the events lock. */
  datatype WaiterPc = WLock | WCheck | WReadClose | WReadActive | WRetry | WDecided | Parked | WWake | WUnlock

  datatype Pc =
    | Idle
    | Entering(e: EntryPc)
    | Handling(h: HandlerPc)
    | Leaving(l: LeavePc)
    | Waiting(w: WaiterPc)
    | Closing(stage: CloseStage, caller: Caller)

  /** The shared state: the data under event_data_lock, the recursive events lock, the flag
      event_handler_active and the event waiters lock. */
  datatype Shared = Shared(d: EventState, owner: Option<Tid>, depth: nat, active: bool, waiters: Option<Tid>)

  /** `hushed` remembers the threads that have finished a close in a callback since they last set
      event_handler_active as a handler. */
  datatype State = State(sh: Shared, pcs: map<Tid, Pc>, hushed: set<Tid>)

  // ------------------------------------------------------------------- the steps

  function Locked(sh: Shared, t: Tid): Shared {
    sh.(owner := Some(t), depth := sh.depth + 1)
  }

  function Unlocked(sh: Shared): Shared {
    if sh.depth <= 1 then sh.(owner := None, depth := 0) else sh.(depth := sh.depth - 1)
  }

  predicate CanLock(sh: Shared, t: Tid) {
    sh.owner == None || sh.owner == Some(t)
  }

  /** What handle_events may do after the event-pipe section: stop, poll again, or let the back
      end look at its descriptors. */
  predicate AfterPipe(pc: Pc) {
    pc == Handling(ClearActive) || pc == Handling(Poll) || pc == Handling(At(InBackend))
  }

  /** One round of the completion loop with event_data_lock held; `goOn` says that the previous
      completion did not fail. Either the next transfer is taken and completed with the lock
      dropped, or the pipe is drained if nothing is pending. */
  predicate LoopRound(sh: Shared, msg: Option<Message>, goOn: bool, sh': Shared, pc': Pc) {
    if goOn && sh.d.completed != [] then
      && sh' == sh.(d := TakeCompleted(sh.d).0)
      && pc' == Handling(At(InLoop(msg, TakeCompleted(sh.d).1.value)))
    else
      && sh' == sh.(d := ClearIfIdle(sh.d))
      && (if msg.Some? then pc' == Handling(At(InHotplug(msg.value))) else AfterPipe(pc'))
  }

  predicate CloseStep(t: Tid, sh: Shared, stage: CloseStage, caller: Caller, sh': Shared, pc': Pc) {
    match stage
    case CTake => CanLock(sh, t) && sh' == Locked(sh, t) && pc' == Closing(CActive, caller)
    case CActive => sh' == sh.(active := true) && pc' == Closing(CInnerTake, caller)
    case CInnerTake => CanLock(sh, t) && sh' == Locked(sh, t) && pc' == Closing(CInnerActive, caller)
    case CInnerActive => sh' == sh.(active := true) && pc' == Closing(CInnerClear, caller)
    case CInnerClear => sh' == sh.(active := false) && pc' == Closing(CInnerRelease, caller)
    case CInnerRelease => sh' == Unlocked(sh) && pc' == Closing(CInnerWaiters, caller)
    case CInnerWaiters =>
      sh.waiters == None && sh' == sh.(waiters := Some(t)) && pc' == Closing(CInnerBroadcast, caller)
    case CInnerBroadcast => sh' == sh && pc' == Closing(CInnerUnlock, caller)
    case CInnerUnlock => sh' == sh.(waiters := None) && pc' == Closing(CEnd, caller)
    case CEnd => sh' == sh.(d := EndClose(sh.d)) && pc' == Closing(CClear, caller)
    case CClear => sh' == sh.(active := false) && pc' == Closing(CRelease, caller)
    case CRelease => sh' == Unlocked(sh) && pc' == Closing(CWaiters, caller)
    case CWaiters => sh.waiters == None && sh' == sh.(waiters := Some(t)) && pc' == Closing(CBroadcast, caller)
    case CBroadcast => sh' == sh && pc' == Closing(CUnlock, caller)
    case CUnlock => sh' == sh.(waiters := None) && pc' == (if caller.User? then Idle else Handling(At(caller.site)))
  }

  predicate EntryStep(t: Tid, sh: Shared, e: EntryPc, sh': Shared, pc': Pc) {
    match e
    case TryReadClose => sh' == sh && pc' == (if sh.d.deviceClose > 0 then Waiting(WLock) else Entering(TryTake))
    case TryTake =>
      if sh.owner == None then sh' == Locked(sh, t) && pc' == Handling(SetActive)
      else sh' == sh && pc' == Waiting(WLock)
    case LockTake => sh.owner == None && sh' == Locked(sh, t) && pc' == Handling(SetActive)
  }

  predicate HandlerStep(t: Tid, sh: Shared, h: HandlerPc, sh': Shared, pc': Pc) {
    match h
    case SetActive => sh' == sh.(active := true) && pc' == Handling(CheckDone)
    case CheckDone => sh' == sh && (pc' == Handling(Prepare) || pc' == Handling(ClearActive))
    case Prepare => sh' == sh.(d := PreparePoll(sh.d)) && pc' == Handling(Poll)
    case Poll =>
      && sh' == sh
      && (pc' == Handling(ClearActive) || pc' == Handling(if sh.d.tokens > 0 then Sighted else At(InBackend)))
    case Sighted => LoopRound(sh.(d := TakeMessage(sh.d).0), TakeMessage(sh.d).1, true, sh', pc')
    case At(site) =>
      || (sh' == sh.(d := BeginClose(sh.d)) && pc' == Closing(CTake, Callback(site)))
      || (match site
          case InLoop(msg, _) => exists goOn: bool :: LoopRound(sh, msg, goOn, sh', pc')
          case InHotplug(_) => sh' == sh && AfterPipe(pc')
          case InBackend => sh' == sh && (pc' == Handling(ClearActive) || pc' == Handling(Poll)))
    case ClearActive => sh' == sh.(active := false) && pc' == Handling(ReleaseEvents)
    case ReleaseEvents => sh' == Unlocked(sh) && pc' == Leaving(TakeWaiters)
  }

  predicate LeaveStep(t: Tid, sh: Shared, l: LeavePc, sh': Shared, pc': Pc) {
    match l
    case TakeWaiters => sh.waiters == None && sh' == sh.(waiters := Some(t)) && pc' == Leaving(Broadcast)
    case Broadcast => sh' == sh && pc' == Leaving(UnlockWaiters)
    case UnlockWaiters => sh' == sh.(waiters := None) && pc' == Idle
  }

  predicate WaiterStep(t: Tid, sh: Shared, w: WaiterPc, sh': Shared, pc': Pc) {
    match w
    case WLock => sh.waiters == None && sh' == sh.(waiters := Some(t)) && pc' == Waiting(WCheck)
    case WCheck => sh' == sh && (pc' == Waiting(WUnlock) || pc' == Waiting(WReadClose))
    case WReadClose => sh' == sh && pc' == Waiting(if sh.d.deviceClose > 0 then WDecided else WReadActive)
    case WReadActive => sh' == sh && pc' == Waiting(if sh.active then WDecided else WRetry)
    case WRetry => sh' == sh.(waiters := None) && pc' == Entering(TryReadClose)
    case WDecided => sh' == sh.(waiters := None) && pc' == Waiting(Parked)
    case Parked => sh' == sh && pc' == Waiting(WWake)
    case WWake => sh.waiters == None && sh' == sh.(waiters := Some(t)) && pc' == Waiting(WUnlock)
    case WUnlock => sh' == sh.(waiters := None) && pc' == Idle
  }

  /** A step of thread t, seen from its own program counter. */
  predicate Local(t: Tid, sh: Shared, pc: Pc, sh': Shared, pc': Pc) {
    match pc
    case Idle =>
      || (sh' == sh && (pc' == Entering(TryReadClose) || pc' == Entering(LockTake)))
      || (sh' == sh.(d := BeginClose(sh.d)) && pc' == Closing(CTake, User))
    case Entering(e) => EntryStep(t, sh, e, sh', pc')
    case Handling(h) => HandlerStep(t, sh, h, sh', pc')
    case Leaving(l) => LeaveStep(t, sh, l, sh', pc')
    case Waiting(w) => WaiterStep(t, sh, w, sh', pc')
    case Closing(stage, caller) => CloseStep(t, sh, stage, caller, sh', pc')
  }

  predicate Broadcasts(pc: Pc) {
    pc == Leaving(Broadcast) || (pc.Closing? && (pc.stage == CInnerBroadcast || pc.stage == CBroadcast))
  }

  function Wake(pc: Pc): Pc {
    if pc == Waiting(Parked) then Waiting(WWake) else pc
  }

  function WakeAll(pcs: map<Tid, Pc>): map<Tid, Pc> {
    map u | u in pcs :: Wake(pcs[u])
  }

  predicate Acts(s: State, t: Tid, pc': Pc, s': State) {
    && t in s.pcs
    && Local(t, s.sh, s.pcs[t], s'.sh, pc')
    && s'.pcs == (if Broadcasts(s.pcs[t]) then WakeAll(s.pcs) else s.pcs)[t := pc']
    && s'.hushed == Hushed(s.hushed, t, s.pcs[t])
  }

  function Hushed(hushed: set<Tid>, t: Tid, pc: Pc): set<Tid> {
    if pc == Handling(SetActive) then hushed - {t}
    else if pc.Closing? && pc.stage == CUnlock && pc.caller.Callback? then hushed + {t}
    else hushed
  }

  datatype Move = Act(t: Tid, pc: Pc) | Spawn(t: Tid) | Signal(notice: Notice)

  predicate Step(s: State, move: Move, s': State, internal: seq<PollFd>) {
    match move
    case Act(t, pc) => Acts(s, t, pc, s')
    case Spawn(t) => t !in s.pcs && s' == s.(pcs := s.pcs[t := Idle])
    case Signal(notice) =>
      && (notice.Unwatch? ==> !Watches(internal, notice.fd))
      && s' == s.(sh := s.sh.(d := Noticed(s.sh.d, notice)))
  }

  // ----------------------------------------------------- what a program counter means

  /** How often a thread holds the events lock. */
  function Depth(pc: Pc): nat {
    match pc
    case Handling(_) => 1
    case Closing(stage, caller) => CloseDepth(stage) + (if caller.User? then 0 else 1)
    case _ => 0
  }

  function CloseDepth(stage: CloseStage): nat {
    match stage
    case CTake | CWaiters | CBroadcast | CUnlock => 0
    case CInnerActive | CInnerClear | CInnerRelease => 2
    case _ => 1
  }

  predicate HoldsWaiters(pc: Pc) {
    match pc
    case Leaving(l) => !l.TakeWaiters?
    case Waiting(w) => !w.WLock? && !w.Parked? && !w.WWake?
    case Closing(stage, _) => stage.CInnerBroadcast? || stage.CInnerUnlock? || stage.CBroadcast? || stage.CUnlock?
    case _ => false
  }

  /** Is the thread counted in device_close? */
  predicate Counted(pc: Pc) {
    pc.Closing? &&
    !(pc.stage.CClear? || pc.stage.CRelease? || pc.stage.CWaiters? || pc.stage.CBroadcast? || pc.stage.CUnlock?)
  }

  /** The thread will still broadcast to the event waiters: it holds the events lock, is between
      releasing it and broadcasting, or is inside libusb_close before its last broadcast. */
  predicate Owes(pc: Pc) {
    match pc
    case Handling(_) => true
    case Leaving(l) => !l.UnlockWaiters?
    case Closing(stage, caller) => !stage.CUnlock? || caller.Callback?
    case _ => false
  }

  /** About to wait, or waiting, for a broadcast. */
  predicate Waits(pc: Pc) {
    pc == Waiting(WDecided) || pc == Waiting(Parked)
  }

  /** The thread has seen the pipe readable and will drain it if nothing is pending. */
  predicate NeedsToken(pc: Pc) {
    match pc
    case Handling(h) => h.Sighted? || (h.At? && h.site.InLoop?)
    case Closing(_, caller) => caller.Callback? && caller.site.InLoop?
    case _ => false
  }

  /** ... and is closing a device on top of that, so both may drain. */
  predicate NeedsTwo(pc: Pc) {
    NeedsToken(pc) && Counted(pc)
  }

  /** Something other than one closing thread keeps events pending. */
  predicate OtherPending(d: EventState) {
    d.deviceClose >= 2 || d.modified || d.msgs != [] || d.completed != []
  }

  // ---------------------------------------------------------------- the invariant

  ghost predicate LockInv(s: State) {
    && (s.sh.owner.None? ==> s.sh.depth == 0)
    && (s.sh.owner.Some? ==> s.sh.depth > 0 && s.sh.owner.value in s.pcs)
    && (forall u :: u in s.pcs ==> Depth(s.pcs[u]) == if s.sh.owner == Some(u) then s.sh.depth else 0)
  }

  ghost predicate WaitersInv(s: State) {
    && (s.sh.waiters.Some? ==> s.sh.waiters.value in s.pcs)
    && (forall u :: u in s.pcs ==> (HoldsWaiters(s.pcs[u]) <==> s.sh.waiters == Some(u)))
  }

  ghost function Closers(pcs: map<Tid, Pc>): set<Tid> {
    set u | u in pcs && Counted(pcs[u])
  }

  ghost predicate TokenInv(s: State) {
    && !s.sh.d.blockedRead
    && (Pending(s.sh.d) ==> s.sh.d.tokens >= 1)
    && (forall u :: u in s.pcs ==> TokensFor(s.sh.d, s.pcs[u]))
  }

  predicate TokensFor(d: EventState, pc: Pc) {
    && (NeedsToken(pc) ==> d.tokens >= 1)
    && (NeedsTwo(pc) ==> d.tokens >= 2 || OtherPending(d))
  }

  /** About to give up the events lock. */
  predicate Releases(pc: Pc) {
    pc == Handling(ReleaseEvents) || (pc.Closing? && pc.stage == CRelease)
  }

  ghost predicate ActiveInv(s: State) {
    && (s.sh.active ==> s.sh.owner.Some?)
    && (forall u :: u in s.pcs && Releases(s.pcs[u]) ==> !s.sh.active)
  }

  /** What event_handler_active is while a thread holds the events lock: a handler has it set unless a
      close of its own has finished since; a close sets it when it takes the lock, and leaves it
      cleared. */
  predicate FlagOk(active: bool, pc: Pc, hushed: bool) {
    match pc
    case Handling(h) => h.SetActive? || (active <==> !hushed && !h.ReleaseEvents?)
    case Closing(stage, caller) =>
      (match stage
       case CTake | CActive => caller.Callback? ==> (active <==> !hushed)
       case CInnerTake | CInnerActive | CInnerClear => active
       case CWaiters | CBroadcast | CUnlock => caller.Callback? ==> !active
       case _ => !active)
    case _ => true
  }

  ghost predicate FlagInv(s: State) {
    forall u :: u in s.pcs ==> FlagOk(s.sh.active, s.pcs[u], u in s.hushed)
  }

  /** The thread has an array of poll descriptors in its hands. */
  predicate PastPrepare(pc: Pc) {
    match pc
    case Handling(h) => h.Poll? || h.Sighted? || h.At?
    case Closing(_, caller) => caller.Callback?
    case _ => false
  }

  ghost predicate PollInv(s: State, internal: seq<PollFd>) {
    forall u :: u in s.pcs && PastPrepare(s.pcs[u]) ==> internal <= s.sh.d.pollfds
  }

  ghost predicate WakeInv(s: State) {
    (exists u :: u in s.pcs && Waits(s.pcs[u])) ==> exists o :: o in s.pcs && Owes(s.pcs[o])
  }

  ghost predicate Inv(s: State, internal: seq<PollFd>) {
    && CacheInv(s.sh.d, internal)
    && LockInv(s)
    && WaitersInv(s)
    && s.sh.d.deviceClose == |Closers(s.pcs)|
    && TokenInv(s)
    && ActiveInv(s)
    && FlagInv(s)
    && PollInv(s, internal)
    && WakeInv(s)
  }

  lemma WakeChangesNothingElse(pc: Pc)
    ensures Depth(Wake(pc)) == Depth(pc) && HoldsWaiters(Wake(pc)) == HoldsWaiters(pc)
    ensures Counted(Wake(pc)) == Counted(pc) && Owes(Wake(pc)) == Owes(pc)
    ensures NeedsToken(Wake(pc)) == NeedsToken(pc) && NeedsTwo(Wake(pc)) == NeedsTwo(pc)
    ensures Releases(Wake(pc)) == Releases(pc) && PastPrepare(Wake(pc)) == PastPrepare(pc)
    ensures forall active, hushed :: FlagOk(active, Wake(pc), hushed) == FlagOk(active, pc, hushed)
  {
  }

  // ------------------------------------------------ one step, the thread's own view

  /** What a step of t does to the events lock. */
  ghost predicate LockOk(t: Tid, sh: Shared, pc: Pc) {
    && Depth(pc) == (if sh.owner == Some(t) then sh.depth else 0)
    && (if sh.owner.None? then sh.depth == 0 else sh.depth > 0)
  }

  ghost predicate LockMoved(t: Tid, sh: Shared, sh': Shared) {
    if CanLock(sh, t) then CanLock(sh', t) else sh'.owner == sh.owner && sh'.depth == sh.depth
  }

  lemma CloseLock(t: Tid, sh: Shared, stage: CloseStage, caller: Caller, sh': Shared, pc': Pc)
    requires CloseStep(t, sh, stage, caller, sh', pc')
    requires LockOk(t, sh, Closing(stage, caller))
    ensures LockOk(t, sh', pc') && LockMoved(t, sh, sh')
  {
    CloseMovesLock(t, sh, stage, caller, sh', pc');
    hide CloseStep, CloseDepth;
  }

  /** A stage of libusb_close takes the lock, releases it, or leaves it alone. */
  lemma CloseMovesLock(t: Tid, sh: Shared, stage: CloseStage, caller: Caller, sh': Shared, pc': Pc)
    requires CloseStep(t, sh, stage, caller, sh', pc')
    ensures var d, d' := Depth(Closing(stage, caller)), Depth(pc');
            || (CanLock(sh, t) && sh' == Locked(sh, t) && d' == d + 1)
            || (sh' == Unlocked(sh) && d == d' + 1)
            || (sh'.owner == sh.owner && sh'.depth == sh.depth && d' == d)
  {
  }

  lemma HandlerLock(t: Tid, sh: Shared, h: HandlerPc, sh': Shared, pc': Pc)
    requires HandlerStep(t, sh, h, sh', pc')
    requires LockOk(t, sh, Handling(h))
    ensures LockOk(t, sh', pc') && LockMoved(t, sh, sh')
  {
  }

  lemma LocalLock(t: Tid, sh: Shared, pc: Pc, sh': Shared, pc': Pc)
    requires Local(t, sh, pc, sh', pc')
    requires LockOk(t, sh, pc)
    ensures LockOk(t, sh', pc') && LockMoved(t, sh, sh')
  {
    match pc
    case Closing(stage, caller) => CloseLock(t, sh, stage, caller, sh', pc');
    case Handling(h) => HandlerLock(t, sh, h, sh', pc');
    case _ =>
  }

  ghost predicate WaitersOk(t: Tid, sh: Shared, pc: Pc) {
    HoldsWaiters(pc) <==> sh.waiters == Some(t)
  }

  lemma LocalWaiters(t: Tid, sh: Shared, pc: Pc, sh': Shared, pc': Pc)
    requires Local(t, sh, pc, sh', pc')
    requires WaitersOk(t, sh, pc)
    ensures WaitersOk(t, sh', pc')
    ensures sh.waiters.Some? && sh.waiters != Some(t) ==> sh'.waiters == sh.waiters
    ensures sh.waiters.None? || sh.waiters == Some(t) ==> sh'.waiters.None? || sh'.waiters == Some(t)
  {
  }

  // --------------------------------------------------- the data, section by section

  /** The numbers that decide about tokens. */
  datatype Gauge = Gauge(tokens: nat, blocked: bool, closers: nat, other: bool)

  function Read(d: EventState): Gauge {
    Gauge(d.tokens, d.blockedRead, d.deviceClose, d.modified || d.msgs != [] || d.completed != [])
  }

  function Drained(g: Gauge): Gauge {
    if g.closers > 0 || g.other then g
    else if g.tokens > 0 then g.(tokens := g.tokens - 1) else g.(blocked := true)
  }

  lemma ReadSections(d: EventState)
    ensures Read(ClearIfIdle(d)) == Drained(Read(d))
    ensures Read(BeginClose(d)) ==
            Gauge(if Pending(d) then d.tokens else d.tokens + 1, d.blockedRead, d.deviceClose + 1, Read(d).other)
    ensures Read(EndClose(d)) == Drained(Read(d).(closers := if d.deviceClose > 0 then d.deviceClose - 1 else 0))
    ensures Pending(d) <==> Read(d).closers > 0 || Read(d).other
    ensures OtherPending(d) <==> Read(d).closers >= 2 || Read(d).other
  {
  }

  lemma ReadPrepare(d: EventState)
    ensures d.modified ==> exists other: bool :: Read(PreparePoll(d)) == Drained(Read(d).(other := other))
    ensures !d.modified ==> PreparePoll(d) == d
  {
    if d.modified {
      var current := d.(pollfds := d.ipollfds, modified := false);
      ReadSections(current);
      assert Read(current) == Read(d).(other := Read(current).other);
    }
  }

  lemma ReadTakes(d: EventState)
    ensures exists other: bool :: Read(TakeMessage(d).0) == Read(d).(other := other)
    ensures exists other: bool :: Read(TakeCompleted(d).0) == Read(d).(other := other)
    ensures Read(TakeMessage(d).0).other ==> Read(d).other
  {
    assert Read(TakeMessage(d).0) == Read(d).(other := Read(TakeMessage(d).0).other);
    assert Read(TakeCompleted(d).0) == Read(d).(other := Read(TakeCompleted(d).0).other);
  }

  // ----------------------------------------------------------- counting the closers

  lemma RoundCount(sh: Shared, msg: Option<Message>, goOn: bool, sh': Shared, pc': Pc)
    requires LoopRound(sh, msg, goOn, sh', pc')
    ensures sh'.d.deviceClose == sh.d.deviceClose && !Counted(pc')
  {
  }

  ghost predicate CountMoved(sh: Shared, pc: Pc, sh': Shared, pc': Pc) {
    sh'.d.deviceClose == sh.d.deviceClose + (if Counted(pc') then 1 else 0) - (if Counted(pc) then 1 else 0)
  }

  lemma CloseCount(t: Tid, sh: Shared, stage: CloseStage, caller: Caller, sh': Shared, pc': Pc)
    requires CloseStep(t, sh, stage, caller, sh', pc')
    requires Counted(Closing(stage, caller)) ==> sh.d.deviceClose > 0
    ensures CountMoved(sh, Closing(stage, caller), sh', pc')
  {
    ReadSections(sh.d);
  }

  lemma HandlerCount(t: Tid, sh: Shared, h: HandlerPc, sh': Shared, pc': Pc)
    requires HandlerStep(t, sh, h, sh', pc')
    ensures CountMoved(sh, Handling(h), sh', pc')
  {
    match h
    case Sighted => RoundCount(sh.(d := TakeMessage(sh.d).0), TakeMessage(sh.d).1, true, sh', pc');
    case At(site) =>
      if pc'.Closing? {
        ReadSections(sh.d);
      } else if site.InLoop? {
        var goOn :| LoopRound(sh, site.msg, goOn, sh', pc');
        RoundCount(sh, site.msg, goOn, sh', pc');
      }
    case Prepare => ReadPrepare(sh.d);
    case _ =>
  }

  lemma LocalCount(t: Tid, sh: Shared, pc: Pc, sh': Shared, pc': Pc)
    requires Local(t, sh, pc, sh', pc')
    requires Counted(pc) ==> sh.d.deviceClose > 0
    ensures CountMoved(sh, pc, sh', pc')
  {
    match pc
    case Closing(stage, caller) => CloseCount(t, sh, stage, caller, sh', pc');
    case Handling(h) => HandlerCount(t, sh, h, sh', pc');
    case Idle => ReadSections(sh.d);
    case _ =>
  }

  // --------------------------------------------------------------- tokens in the pipe

  /** A step that neither takes tokens nor ends what is pending. */
  ghost predicate Harmless(d: EventState, d': EventState) {
    d'.tokens >= d.tokens && (OtherPending(d) ==> OtherPending(d'))
  }

  lemma RoundTokens(sh: Shared, msg: Option<Message>, goOn: bool, sh': Shared, pc': Pc)
    requires LoopRound(sh, msg, goOn, sh', pc')
    requires DataOk(sh.d) && sh.d.tokens >= 1
    ensures DataOk(sh'.d) && TokensFor(sh'.d, pc')
  {
    ReadSections(sh.d);
    ReadSections(sh'.d);
    ReadTakes(sh.d);
  }

  lemma CloseTokens(t: Tid, sh: Shared, stage: CloseStage, caller: Caller, sh': Shared, pc': Pc)
    requires CloseStep(t, sh, stage, caller, sh', pc')
    requires DataOk(sh.d) && TokensFor(sh.d, Closing(stage, caller))
    requires Counted(Closing(stage, caller)) ==> sh.d.deviceClose > 0
    ensures DataOk(sh'.d) && TokensFor(sh'.d, pc')
    ensures CloseDepth(stage) == 0 ==> sh'.d == sh.d
  {
    if stage == CEnd {
      ReadSections(sh.d);
      ReadSections(sh'.d);
    } else {
      CloseKeepsData(t, sh, stage, caller, sh', pc');
    }
  }

  lemma CloseKeepsData(t: Tid, sh: Shared, stage: CloseStage, caller: Caller, sh': Shared, pc': Pc)
    requires CloseStep(t, sh, stage, caller, sh', pc') && stage != CEnd
    ensures sh'.d == sh.d
    ensures NeedsToken(pc') == NeedsToken(Closing(stage, caller))
    ensures Counted(pc') == Counted(Closing(stage, caller))
  {
  }

  lemma BeginCloseTokens(d: EventState, caller: Caller)
    requires DataOk(d) && (caller.Callback? ==> TokensFor(d, Handling(At(caller.site))))
    ensures DataOk(BeginClose(d)) && TokensFor(BeginClose(d), Closing(CTake, caller)) && Harmless(d, BeginClose(d))
  {
    ReadSections(d);
    ReadSections(BeginClose(d));
  }

  lemma PrepareTokens(d: EventState)
    requires DataOk(d)
    ensures DataOk(PreparePoll(d))
  {
    ReadPrepare(d);
    ReadSections(d);
    ReadSections(PreparePoll(d));
  }

  lemma HandlerTokens(t: Tid, sh: Shared, h: HandlerPc, sh': Shared, pc': Pc)
    requires HandlerStep(t, sh, h, sh', pc')
    requires DataOk(sh.d) && TokensFor(sh.d, Handling(h))
    ensures DataOk(sh'.d) && TokensFor(sh'.d, pc')
  {
    match h
    case Prepare => PrepareTokens(sh.d);
    case Sighted =>
      ReadTakes(sh.d);
      RoundTokens(sh.(d := TakeMessage(sh.d).0), TakeMessage(sh.d).1, true, sh', pc');
    case At(site) =>
      if pc'.Closing? {
        BeginCloseTokens(sh.d, Callback(site));
      } else if site.InLoop? {
        var goOn :| LoopRound(sh, site.msg, goOn, sh', pc');
        RoundTokens(sh, site.msg, goOn, sh', pc');
      }
    case _ =>
  }

  /** A thread that does not hold the events lock never takes tokens out of the pipe and never
      ends what is pending; the others only do so with a token in hand. */
  lemma LocalTokens(t: Tid, sh: Shared, pc: Pc, sh': Shared, pc': Pc)
    requires Local(t, sh, pc, sh', pc')
    requires DataOk(sh.d) && TokensFor(sh.d, pc)
    requires Counted(pc) ==> sh.d.deviceClose > 0
    ensures DataOk(sh'.d) && TokensFor(sh'.d, pc')
    ensures Depth(pc) == 0 ==> Harmless(sh.d, sh'.d)
  {
    match pc
    case Closing(stage, caller) => CloseTokens(t, sh, stage, caller, sh', pc');
    case Idle => BeginCloseTokens(sh.d, User);
    case Handling(h) => HandlerTokens(t, sh, h, sh', pc');
    case _ =>
  }

  // ------------------------------------------------------ activity, debts, the cache

  ghost predicate ActiveOk(sh: Shared, pc: Pc) {
    && (sh.active ==> sh.owner.Some?)
    && (Releases(pc) ==> !sh.active)
  }

  lemma LocalActive(t: Tid, sh: Shared, pc: Pc, sh': Shared, pc': Pc)
    requires Local(t, sh, pc, sh', pc')
    requires LockOk(t, sh, pc) && ActiveOk(sh, pc)
    ensures ActiveOk(sh', pc')
    ensures Depth(pc) == 0 ==> sh'.active == sh.active
  {
  }

  lemma CloseDebt(t: Tid, sh: Shared, stage: CloseStage, caller: Caller, sh': Shared, pc': Pc)
    requires CloseStep(t, sh, stage, caller, sh', pc')
    ensures !Broadcasts(Closing(stage, caller)) && Owes(Closing(stage, caller)) ==> Owes(pc')
    ensures !Waits(pc')
  {
  }

  /** Only a broadcast ends the debt of a broadcast, and only who sees a handler or a closer decides
      to wait. */
  lemma LocalDebt(t: Tid, sh: Shared, pc: Pc, sh': Shared, pc': Pc)
    requires Local(t, sh, pc, sh', pc')
    ensures Owes(pc) && !Broadcasts(pc) ==> Owes(pc')
    ensures Waits(pc') && !Waits(pc) ==> sh.d.deviceClose > 0 || sh.active
    ensures Waits(pc') ==> !Owes(pc)
  {
    match pc
    case Closing(stage, caller) => CloseDebt(t, sh, stage, caller, sh', pc');
    case _ =>
  }

  /** The poll array is kept: still faithful, and still in the hands of who has it. */
  ghost predicate CacheKept(d: EventState, d': EventState, internal: seq<PollFd>) {
    CacheInv(d', internal) && (internal <= d.pollfds ==> internal <= d'.pollfds)
  }

  lemma RoundCache(sh: Shared, msg: Option<Message>, goOn: bool, sh': Shared, pc': Pc, internal: seq<PollFd>)
    requires LoopRound(sh, msg, goOn, sh', pc') && CacheInv(sh.d, internal)
    ensures CacheKept(sh.d, sh'.d, internal)
  {
    SectionsKeepCache(sh.d, internal);
  }

  lemma HandlerCache(t: Tid, sh: Shared, h: HandlerPc, sh': Shared, pc': Pc, internal: seq<PollFd>)
    requires HandlerStep(t, sh, h, sh', pc') && CacheInv(sh.d, internal)
    ensures CacheKept(sh.d, sh'.d, internal)
    ensures h == Prepare ==> internal <= sh'.d.pollfds
    ensures PastPrepare(pc') ==> h == Prepare || PastPrepare(Handling(h))
  {
    SectionsKeepCache(sh.d, internal);
    match h
    case Sighted => RoundCache(sh.(d := TakeMessage(sh.d).0), TakeMessage(sh.d).1, true, sh', pc', internal);
    case At(site) =>
      if !pc'.Closing? && site.InLoop? {
        var goOn :| LoopRound(sh, site.msg, goOn, sh', pc');
        RoundCache(sh, site.msg, goOn, sh', pc', internal);
      }
    case _ =>
  }

  /** Every step keeps the poll array, and no thread gets past the refresh without the array. */
  lemma LocalCache(t: Tid, sh: Shared, pc: Pc, sh': Shared, pc': Pc, internal: seq<PollFd>)
    requires Local(t, sh, pc, sh', pc') && CacheInv(sh.d, internal)
    ensures CacheKept(sh.d, sh'.d, internal)
    ensures PastPrepare(pc') ==> PastPrepare(pc) || internal <= sh'.d.pollfds
  {
    match pc
    case Idle => SectionsKeepCache(sh.d, internal);
    case Handling(h) => HandlerCache(t, sh, h, sh', pc', internal);
    case Closing(stage, caller) => CloseCache(t, sh, stage, caller, sh', pc', internal);
    case _ =>
  }

  lemma CloseCache(t: Tid, sh: Shared, stage: CloseStage, caller: Caller, sh': Shared, pc': Pc, internal: seq<PollFd>)
    requires CloseStep(t, sh, stage, caller, sh', pc') && CacheInv(sh.d, internal)
    ensures CacheKept(sh.d, sh'.d, internal)
    ensures PastPrepare(pc') ==> PastPrepare(Closing(stage, caller))
  {
    if stage == CEnd {
      SectionsKeepCache(sh.d, internal);
    } else {
      CloseKeepsData(t, sh, stage, caller, sh', pc');
    }
  }

  // ------------------------------------------------------ what the flag says, exactly

  lemma CloseFlag(t: Tid, sh: Shared, stage: CloseStage, caller: Caller, sh': Shared, pc': Pc, hushed: bool)
    requires CloseStep(t, sh, stage, caller, sh', pc')
    requires FlagOk(sh.active, Closing(stage, caller), hushed)
    ensures FlagOk(sh'.active, pc', hushed || (stage == CUnlock && caller.Callback?))
  {
  }

  lemma HandlerFlag(t: Tid, sh: Shared, h: HandlerPc, sh': Shared, pc': Pc, hushed: bool)
    requires HandlerStep(t, sh, h, sh', pc')
    requires FlagOk(sh.active, Handling(h), hushed)
    ensures FlagOk(sh'.active, pc', hushed && h != SetActive)
  {
    match h
    case At(site) =>
      if !pc'.Closing? && site.InLoop? {
        var goOn :| LoopRound(sh, site.msg, goOn, sh', pc');
      }
    case _ =>
  }

  lemma LocalFlag(t: Tid, sh: Shared, pc: Pc, sh': Shared, pc': Pc, hushed: set<Tid>)
    requires Local(t, sh, pc, sh', pc') && FlagOk(sh.active, pc, t in hushed)
    ensures FlagOk(sh'.active, pc', t in Hushed(hushed, t, pc))
  {
    match pc
    case Closing(stage, caller) => CloseFlag(t, sh, stage, caller, sh', pc', t in hushed);
    case Handling(h) => HandlerFlag(t, sh, h, sh', pc', t in hushed);
    case _ =>
  }
}
