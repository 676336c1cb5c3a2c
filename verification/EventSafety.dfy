/**
 What the event protocol guarantees in every reachable state: no lost event, no blocking drain,
 no lost wakeup at the hand-off, and a faithful poll array.
 */
module EventSafety {
  import opened Usb
  import opened EventData
  import opened EventProtocol

  // ------------------------------------------------- one step, seen by all threads

  lemma OtherThreads(s: State, t: Tid, pc': Pc, s': State, u: Tid)
    requires Acts(s, t, pc', s')
    ensures u in s'.pcs <==> u in s.pcs
    ensures s'.pcs[t] == pc'
    ensures u in s.pcs && u != t ==> s'.pcs[u] == if Broadcasts(s.pcs[t]) then Wake(s.pcs[u]) else s.pcs[u]
  {
  }

  lemma ActKeepsLock(s: State, t: Tid, pc': Pc, s': State)
    requires Acts(s, t, pc', s') && LockInv(s)
    ensures LockInv(s')
  {
    LocalLock(t, s.sh, s.pcs[t], s'.sh, pc');
    forall u | u in s'.pcs
      ensures Depth(s'.pcs[u]) == if s'.sh.owner == Some(u) then s'.sh.depth else 0
    {
      OtherThreads(s, t, pc', s', u);
      if u != t {
        WakeChangesNothingElse(s.pcs[u]);
      }
    }
    OtherThreads(s, t, pc', s', t);
  }

  lemma ActKeepsWaiters(s: State, t: Tid, pc': Pc, s': State)
    requires Acts(s, t, pc', s') && WaitersInv(s)
    ensures WaitersInv(s')
  {
    LocalWaiters(t, s.sh, s.pcs[t], s'.sh, pc');
    forall u | u in s'.pcs
      ensures HoldsWaiters(s'.pcs[u]) <==> s'.sh.waiters == Some(u)
    {
      OtherThreads(s, t, pc', s', u);
      if u != t {
        WakeChangesNothingElse(s.pcs[u]);
      }
    }
    OtherThreads(s, t, pc', s', t);
  }

  lemma CloserCount(s: State, t: Tid)
    requires s.sh.d.deviceClose == |Closers(s.pcs)| && t in s.pcs && Counted(s.pcs[t])
    ensures s.sh.d.deviceClose > 0
  {
    assert t in Closers(s.pcs);
  }

  lemma ActKeepsCount(s: State, t: Tid, pc': Pc, s': State)
    requires Acts(s, t, pc', s') && s.sh.d.deviceClose == |Closers(s.pcs)|
    ensures s'.sh.d.deviceClose == |Closers(s'.pcs)|
  {
    if Counted(s.pcs[t]) {
      CloserCount(s, t);
    }
    LocalCount(t, s.sh, s.pcs[t], s'.sh, pc');
    var before, after := Closers(s.pcs), Closers(s'.pcs);
    forall u
      ensures u in after <==> if u == t then Counted(pc') else u in before
    {
      OtherThreads(s, t, pc', s', u);
      if u in s.pcs {
        WakeChangesNothingElse(s.pcs[u]);
      }
    }
    assert after - {t} == before - {t};
    assert |after| == |after - {t}| + (if t in after then 1 else 0);
    assert |before| == |before - {t}| + (if t in before then 1 else 0);
  }

  lemma ActKeepsTokens(s: State, t: Tid, pc': Pc, s': State)
    requires Acts(s, t, pc', s') && TokenInv(s) && LockInv(s) && s.sh.d.deviceClose == |Closers(s.pcs)|
    ensures TokenInv(s')
  {
    if Counted(s.pcs[t]) {
      CloserCount(s, t);
    }
    LocalTokens(t, s.sh, s.pcs[t], s'.sh, pc');
    forall u | u in s'.pcs
      ensures TokensFor(s'.sh.d, s'.pcs[u])
    {
      OtherThreads(s, t, pc', s', u);
      if u != t && NeedsToken(s.pcs[u]) {
        NeedyHoldsLock(s.pcs[u]);
        WakeChangesNothingElse(s.pcs[u]);
        assert Depth(s.pcs[t]) == 0;
      }
    }
  }

  lemma NeedyHoldsLock(pc: Pc)
    requires NeedsToken(pc)
    ensures Depth(pc) > 0
  {
  }

  lemma HolderOwes(pc: Pc)
    ensures Depth(pc) > 0 || Counted(pc) ==> Owes(pc)
  {
  }

  lemma ActKeepsActive(s: State, t: Tid, pc': Pc, s': State)
    requires Acts(s, t, pc', s') && ActiveInv(s) && LockInv(s)
    ensures ActiveInv(s')
  {
    LocalActive(t, s.sh, s.pcs[t], s'.sh, pc');
    forall u | u in s'.pcs && Releases(s'.pcs[u])
      ensures !s'.sh.active
    {
      OtherThreads(s, t, pc', s', u);
      if u != t {
        WakeChangesNothingElse(s.pcs[u]);
        ReleaserHoldsLock(s, u);
        assert Depth(s.pcs[t]) == 0;
      }
    }
  }

  lemma ReleaserHoldsLock(s: State, u: Tid)
    requires LockInv(s) && u in s.pcs && Releases(s.pcs[u])
    ensures s.sh.owner == Some(u)
  {
    assert Depth(s.pcs[u]) > 0;
  }

  lemma ActKeepsFlag(s: State, t: Tid, pc': Pc, s': State)
    requires Acts(s, t, pc', s') && FlagInv(s) && LockInv(s) && ActiveInv(s)
    ensures FlagInv(s')
  {
    hide FlagOk, Local;
    assert FlagOk(s.sh.active, s.pcs[t], t in s.hushed);
    forall u | u in s'.pcs
      ensures FlagOk(s'.sh.active, s'.pcs[u], u in s'.hushed)
    {
      OtherThreads(s, t, pc', s', u);
      if u == t {
        LocalFlag(t, s.sh, s.pcs[t], s'.sh, pc', s.hushed);
      } else {
        WakeChangesNothingElse(s.pcs[u]);
        assert FlagOk(s.sh.active, s.pcs[u], u in s.hushed);
        if Depth(s.pcs[u]) > 0 {
          assert Depth(s.pcs[t]) == 0;
          LocalActive(t, s.sh, s.pcs[t], s'.sh, pc');
        } else {
          NoLockNoFlag(s.pcs[u]);
        }
      }
    }
  }

  /** The flag is promised only to who holds the events lock. */
  lemma NoLockNoFlag(pc: Pc)
    requires Depth(pc) == 0
    ensures forall active, hushed :: FlagOk(active, pc, hushed)
  {
  }

  lemma ActKeepsPoll(s: State, t: Tid, pc': Pc, s': State, internal: seq<PollFd>)
    requires Acts(s, t, pc', s') && PollInv(s, internal) && CacheInv(s.sh.d, internal)
    ensures PollInv(s', internal) && CacheInv(s'.sh.d, internal)
  {
    LocalCache(t, s.sh, s.pcs[t], s'.sh, pc', internal);
    hide Local, CacheInv, PastPrepare;
    forall u | u in s'.pcs && PastPrepare(s'.pcs[u])
      ensures internal <= s'.sh.d.pollfds
    {
      OtherThreads(s, t, pc', s', u);
      if u != t {
        WakeChangesNothingElse(s.pcs[u]);
      }
    }
  }

  /** Who decides to wait leaves a debtor behind: the thread it saw handling or closing. */
  lemma DebtorExists(s: State)
    requires LockInv(s) && ActiveInv(s) && s.sh.d.deviceClose == |Closers(s.pcs)|
    requires s.sh.d.deviceClose > 0 || s.sh.active
    ensures exists o :: o in s.pcs && Owes(s.pcs[o])
  {
    if s.sh.active {
      HolderOwes(s.pcs[s.sh.owner.value]);
    } else {
      assert Closers(s.pcs) != {};
      var o :| o in Closers(s.pcs);
      HolderOwes(s.pcs[o]);
    }
  }

  lemma ActKeepsWake(s: State, t: Tid, pc': Pc, s': State)
    requires Acts(s, t, pc', s') && WakeInv(s)
    requires LockInv(s) && WaitersInv(s) && ActiveInv(s) && s.sh.d.deviceClose == |Closers(s.pcs)|
    ensures WakeInv(s')
  {
    LocalDebt(t, s.sh, s.pcs[t], s'.sh, pc');
    if u :| u in s'.pcs && Waits(s'.pcs[u]) {
      OtherThreads(s, t, pc', s', u);
      if Broadcasts(s.pcs[t]) {
        BroadcastLeavesNoWaiter(s, t, pc', s', u);
      } else {
        if u == t && !Waits(s.pcs[t]) {
          DebtorExists(s);
        }
        var o :| o in s.pcs && Owes(s.pcs[o]);
        OtherThreads(s, t, pc', s', o);
        assert Owes(s'.pcs[o]);
      }
    }
  }

  lemma BroadcastLeavesNoWaiter(s: State, t: Tid, pc': Pc, s': State, u: Tid)
    requires Acts(s, t, pc', s') && Broadcasts(s.pcs[t]) && WaitersInv(s) && u in s.pcs
    ensures !Waits(s'.pcs[u])
  {
    OtherThreads(s, t, pc', s', u);
    assert HoldsWaiters(s.pcs[t]);
  }

  /** A signal from outside only adds tokens and pending events. */
  lemma NoticeIsHarmless(d: EventState, n: Notice)
    requires DataOk(d)
    ensures DataOk(Noticed(d, n)) && Harmless(d, Noticed(d, n))
    ensures Noticed(d, n).deviceClose == d.deviceClose
  {
  }

  lemma SignalKeepsInv(s: State, n: Notice, s': State, internal: seq<PollFd>)
    requires Inv(s, internal) && Step(s, Signal(n), s', internal)
    ensures Inv(s', internal)
  {
    NoticeIsHarmless(s.sh.d, n);
    NoticesKeepCache(s.sh.d, n, internal);
    hide Noticed, CacheInv, Pending, OtherPending;
  }

  lemma SpawnKeepsLocks(s: State, t: Tid, s': State)
    requires LockInv(s) && WaitersInv(s) && t !in s.pcs && s' == s.(pcs := s.pcs[t := Idle])
    ensures LockInv(s') && WaitersInv(s')
  {
  }

  lemma SpawnKeepsData(s: State, t: Tid, s': State, internal: seq<PollFd>)
    requires TokenInv(s) && PollInv(s, internal) && t !in s.pcs && s' == s.(pcs := s.pcs[t := Idle])
    ensures TokenInv(s') && PollInv(s', internal) && Closers(s'.pcs) == Closers(s.pcs)
  {
    hide Pending, OtherPending;
  }

  lemma SpawnKeepsFlag(s: State, t: Tid, s': State)
    requires ActiveInv(s) && FlagInv(s) && t !in s.pcs && s' == s.(pcs := s.pcs[t := Idle])
    ensures ActiveInv(s') && FlagInv(s')
  {
  }

  lemma SpawnKeepsInv(s: State, t: Tid, s': State, internal: seq<PollFd>)
    requires Inv(s, internal) && Step(s, Spawn(t), s', internal)
    ensures Inv(s', internal)
  {
    hide CacheInv, LockInv, WaitersInv, TokenInv, ActiveInv, FlagInv, PollInv, WakeInv, Closers;
    SpawnKeepsLocks(s, t, s');
    SpawnKeepsData(s, t, s', internal);
    SpawnKeepsFlag(s, t, s');
    SpawnKeepsWake(s, t, s');
  }

  /** Every step of every thread keeps the whole invariant. */
  lemma StepKeepsInv(s: State, move: Move, s': State, internal: seq<PollFd>)
    requires Inv(s, internal) && Step(s, move, s', internal)
    ensures Inv(s', internal)
  {
    match move
    case Act(t, pc') =>
      hide CacheInv, LockInv, WaitersInv, TokenInv, ActiveInv, FlagInv, PollInv, WakeInv, Closers, Acts;
      ActKeepsLock(s, t, pc', s');
      ActKeepsWaiters(s, t, pc', s');
      ActKeepsCount(s, t, pc', s');
      ActKeepsTokens(s, t, pc', s');
      ActKeepsActive(s, t, pc', s');
      ActKeepsFlag(s, t, pc', s');
      ActKeepsPoll(s, t, pc', s', internal);
      ActKeepsWake(s, t, pc', s');
    case Signal(n) => SignalKeepsInv(s, n, s', internal);
    case Spawn(t) => SpawnKeepsInv(s, t, s', internal);
  }

  lemma SpawnKeepsWake(s: State, t: Tid, s': State)
    requires WakeInv(s) && t !in s.pcs && s' == s.(pcs := s.pcs[t := Idle])
    ensures WakeInv(s')
  {
    if u :| u in s'.pcs && Waits(s'.pcs[u]) {
      assert u in s.pcs && Waits(s.pcs[u]);
      var o :| o in s.pcs && Owes(s.pcs[o]);
      assert Owes(s'.pcs[o]);
    }
  }

  // -------------------------------------------------------------------- reachability

  ghost function Start(pipe: PollFd, timer: Option<PollFd>): State {
    State(Shared(InitialEvents(pipe, timer), None, 0, false, None), map[], {})
  }

  ghost predicate Next(s: State, s': State, internal: seq<PollFd>) {
    exists move :: Step(s, move, s', internal)
  }

  ghost predicate Chain(run: seq<State>, internal: seq<PollFd>) {
    forall i :: 0 <= i < |run| - 1 ==> Next(run[i], run[i + 1], internal)
  }

  ghost predicate IsRun(run: seq<State>, pipe: PollFd, timer: Option<PollFd>) {
    && run != []
    && run[0] == Start(pipe, timer)
    && Chain(run, InternalFds(pipe, timer))
  }

  lemma StartInv(pipe: PollFd, timer: Option<PollFd>)
    ensures Inv(Start(pipe, timer), InternalFds(pipe, timer))
  {
    assert Closers(map[]) == {};
  }

  lemma {:induction false} RunInv(run: seq<State>, pipe: PollFd, timer: Option<PollFd>, i: nat)
    requires IsRun(run, pipe, timer) && i < |run|
    ensures Inv(run[i], InternalFds(pipe, timer))
  {
    if i == 0 {
      StartInv(pipe, timer);
    } else {
      RunInv(run, pipe, timer, i - 1);
      assert Next(run[i - 1], run[i - 1 + 1], InternalFds(pipe, timer));
      var move :| Step(run[i - 1], move, run[i], InternalFds(pipe, timer));
      StepKeepsInv(run[i - 1], move, run[i], InternalFds(pipe, timer));
    }
  }

  // ---------------------------------------------------------------- the guarantees

  /** No lost event and no blocking drain: in every reachable state pending events have an unread
      byte in the pipe, and nobody has ever read from the empty pipe. */
  lemma NoLostEvent(run: seq<State>, pipe: PollFd, timer: Option<PollFd>, i: nat)
    requires IsRun(run, pipe, timer) && i < |run|
    ensures Pending(run[i].sh.d) ==> run[i].sh.d.tokens >= 1
    ensures !run[i].sh.d.blockedRead
  {
    RunInv(run, pipe, timer, i);
  }

  /** No lost wakeup: whenever a thread is parked, whatever flag it waits for, another thread still
      owes a broadcast. */
  lemma NoLostWakeup(run: seq<State>, pipe: PollFd, timer: Option<PollFd>, i: nat, t: Tid)
    requires IsRun(run, pipe, timer) && i < |run|
    requires t in run[i].pcs && run[i].pcs[t] == Waiting(Parked)
    ensures exists o :: o in run[i].pcs && o != t && Owes(run[i].pcs[o])
  {
    RunInv(run, pipe, timer, i);
    assert Waits(run[i].pcs[t]);
  }

  /** event_handler_active implies that somebody holds the events lock; only one thread handles
      events or works inside a close at a time; a close that is about to end is counted. */
  lemma HandlersExclude(run: seq<State>, pipe: PollFd, timer: Option<PollFd>, i: nat, t: Tid, u: Tid)
    requires IsRun(run, pipe, timer) && i < |run| && t in run[i].pcs && u in run[i].pcs
    ensures run[i].sh.active ==>
              && run[i].sh.owner.Some? && run[i].sh.owner.value in run[i].pcs
              && Depth(run[i].pcs[run[i].sh.owner.value]) > 0
    ensures Depth(run[i].pcs[t]) > 0 && Depth(run[i].pcs[u]) > 0 ==> t == u
    ensures run[i].pcs[t].Closing? && run[i].pcs[t].stage == CEnd ==> run[i].sh.d.deviceClose > 0
  {
    RunInv(run, pipe, timer, i);
    if run[i].pcs[t].Closing? && run[i].pcs[t].stage == CEnd {
      CloserCount(run[i], t);
    }
  }

  /** What event_handler_active says, exactly: while a thread handles events, from setting the flag to
      clearing it, the flag is up if and only if the thread has not finished a close in a callback
      since. */
  lemma HandlerFlagIff(run: seq<State>, pipe: PollFd, timer: Option<PollFd>, i: nat, t: Tid)
    requires IsRun(run, pipe, timer) && i < |run| && t in run[i].pcs
    requires run[i].pcs[t].Handling? && !run[i].pcs[t].h.SetActive? && !run[i].pcs[t].h.ReleaseEvents?
    ensures run[i].sh.owner == Some(t)
    ensures run[i].sh.active <==> t !in run[i].hushed
  {
    RunInv(run, pipe, timer, i);
    assert FlagOk(run[i].sh.active, run[i].pcs[t], t in run[i].hushed);
    assert Depth(run[i].pcs[t]) > 0;
  }

  /** The array handed to poll: when it is not marked stale it is the list of watched descriptors,
      element by element; and stale or not, the array that a handler polls, or polls again, starts
      with libusb's own descriptors, entry 0 being the event pipe. */
  lemma PollArrayFaithful(run: seq<State>, pipe: PollFd, timer: Option<PollFd>, i: nat)
    requires IsRun(run, pipe, timer) && i < |run|
    ensures var d := run[i].sh.d;
            && d.pollfdsCnt == |d.ipollfds| > 0
            && d.ipollfds[0] == pipe
            && (!d.modified ==> d.pollfds == d.ipollfds)
    ensures forall t :: t in run[i].pcs && PastPrepare(run[i].pcs[t]) ==>
              InternalFds(pipe, timer) <= run[i].sh.d.pollfds && run[i].sh.d.pollfds[0] == pipe
  {
    RunInv(run, pipe, timer, i);
  }

  // ----------------------------------------------------------------------- progress

  ghost function Extend(run: seq<State>, s': State, internal: seq<PollFd>): (longer: seq<State>)
    requires run != [] && Chain(run, internal) && Next(run[|run| - 1], s', internal)
    ensures Chain(longer, internal) && |longer| == |run| + 1
    ensures longer[0] == run[0] && longer[|run|] == s'
  {
    run + [s']
  }

  /** How many steps a thread that owes a broadcast is away from it, on the shortest way. */
  function Debt(pc: Pc): nat {
    match pc
    case Handling(h) =>
      (match h
       case SetActive | Prepare => 6
       case CheckDone | Poll => 5
       case Sighted => 7
       case At(InLoop(_, _)) => 6
       case At(_) => 5
       case ClearActive => 4
       case ReleaseEvents => 3)
    case Leaving(l) => if l.TakeWaiters? then 2 else 1
    case Closing(stage, _) =>
      (match stage
       case CTake => 8
       case CActive | CUnlock => 7
       case CInnerTake | CInnerUnlock => 6
       case CInnerActive | CEnd => 5
       case CInnerClear | CClear => 4
       case CInnerRelease | CRelease => 3
       case CInnerWaiters | CWaiters => 2
       case CInnerBroadcast | CBroadcast => 1)
    case _ => 0
  }

  predicate WantsWaiters(pc: Pc) {
    pc == Leaving(TakeWaiters) || (pc.Closing? && (pc.stage == CInnerWaiters || pc.stage == CWaiters))
  }

  /** A debtor that is not kept out by a lock comes closer to its broadcast. */
  lemma DebtStep(t: Tid, sh: Shared, pc: Pc) returns (sh': Shared, pc': Pc)
    requires Owes(pc) && !Broadcasts(pc) && CanLock(sh, t)
    requires WantsWaiters(pc) ==> sh.waiters == None
    ensures Local(t, sh, pc, sh', pc') && Owes(pc') && Debt(pc') < Debt(pc) && CanLock(sh', t)
  {
    match pc {
      case Handling(h) => sh', pc' := HandlerNearer(t, sh, h);
      case Leaving(l) => sh', pc' := sh.(waiters := Some(t)), Leaving(Broadcast);
      case Closing(stage, caller) => sh', pc' := CloseNearer(t, sh, stage, caller);
    }
  }

  lemma HandlerNearer(t: Tid, sh: Shared, h: HandlerPc) returns (sh': Shared, pc': Pc)
    requires CanLock(sh, t)
    ensures HandlerStep(t, sh, h, sh', pc') && Owes(pc') && Debt(pc') < Debt(Handling(h)) && CanLock(sh', t)
  {
    match h {
      case SetActive => return sh.(active := true), Handling(CheckDone);
      case CheckDone => return sh, Handling(ClearActive);
      case Prepare => return sh.(d := PreparePoll(sh.d)), Handling(Poll);
      case Poll => return sh, Handling(ClearActive);
      case Sighted => sh', pc' := RoundNearer(sh.(d := TakeMessage(sh.d).0), TakeMessage(sh.d).1, true);
      case At(InLoop(msg, _)) => sh', pc' := RoundNearer(sh, msg, false);
      case At(_) => return sh, Handling(ClearActive);
      case ClearActive => return sh.(active := false), Handling(ReleaseEvents);
      case ReleaseEvents => return Unlocked(sh), Leaving(TakeWaiters);
    }
  }

  lemma RoundNearer(sh: Shared, msg: Option<Message>, goOn: bool) returns (sh': Shared, pc': Pc)
    ensures LoopRound(sh, msg, goOn, sh', pc') && sh'.owner == sh.owner
    ensures pc'.Handling? && Debt(pc') <= if goOn then 6 else 5
  {
    if goOn && sh.d.completed != [] {
      return sh.(d := TakeCompleted(sh.d).0), Handling(At(InLoop(msg, TakeCompleted(sh.d).1.value)));
    }
    return sh.(d := ClearIfIdle(sh.d)), if msg.Some? then Handling(At(InHotplug(msg.value))) else Handling(ClearActive);
  }

  lemma CloseNearer(t: Tid, sh: Shared, stage: CloseStage, caller: Caller) returns (sh': Shared, pc': Pc)
    requires Owes(Closing(stage, caller)) && !Broadcasts(Closing(stage, caller)) && CanLock(sh, t)
    requires WantsWaiters(Closing(stage, caller)) ==> sh.waiters == None
    ensures CloseStep(t, sh, stage, caller, sh', pc') && Owes(pc') && Debt(pc') < Debt(Closing(stage, caller))
    ensures CanLock(sh', t)
  {
    match stage {
      case CTake => return Locked(sh, t), Closing(CActive, caller);
      case CActive => return sh.(active := true), Closing(CInnerTake, caller);
      case CInnerTake => return Locked(sh, t), Closing(CInnerActive, caller);
      case CInnerActive => return sh.(active := true), Closing(CInnerClear, caller);
      case CInnerClear => return sh.(active := false), Closing(CInnerRelease, caller);
      case CInnerRelease => return Unlocked(sh), Closing(CInnerWaiters, caller);
      case CInnerWaiters => return sh.(waiters := Some(t)), Closing(CInnerBroadcast, caller);
      case CInnerUnlock => return sh.(waiters := None), Closing(CEnd, caller);
      case CEnd => return sh.(d := EndClose(sh.d)), Closing(CClear, caller);
      case CClear => return sh.(active := false), Closing(CRelease, caller);
      case CRelease => return Unlocked(sh), Closing(CWaiters, caller);
      case CWaiters => return sh.(waiters := Some(t)), Closing(CBroadcast, caller);
      case CUnlock => return sh.(waiters := None), Handling(At(caller.site));
    }
  }

  /** How many steps a holder of the waiters lock is away from releasing it. */
  function Hold(pc: Pc): nat {
    match pc
    case Waiting(WReadClose) => 3
    case Waiting(WCheck) | Waiting(WReadActive) => 2
    case _ => 1
  }

  /** A holder of the waiters lock never needs another lock. */
  lemma HoldStep(t: Tid, sh: Shared, pc: Pc) returns (sh': Shared, pc': Pc)
    requires HoldsWaiters(pc) && !Broadcasts(pc)
    ensures Local(t, sh, pc, sh', pc') && sh'.owner == sh.owner
    ensures sh'.waiters == None || (sh'.waiters == sh.waiters && Hold(pc') < Hold(pc))
  {
    match pc {
      case Leaving(_) => return sh.(waiters := None), Idle;
      case Closing(stage, caller) =>
        return sh.(waiters := None), if stage == CInnerUnlock then Closing(CEnd, caller)
                                     else if caller.User? then Idle else Handling(At(caller.site));
      case Waiting(w) =>
        match w {
          case WCheck => return sh, Waiting(WUnlock);
          case WReadClose => return sh, Waiting(if sh.d.deviceClose > 0 then WDecided else WReadActive);
          case WReadActive => return sh, Waiting(if sh.active then WDecided else WRetry);
          case WRetry => return sh.(waiters := None), Entering(TryReadClose);
          case WDecided => return sh.(waiters := None), Waiting(Parked);
          case WUnlock => return sh.(waiters := None), Idle;
        }
    }
  }

  ghost function Acted(s: State, t: Tid, sh': Shared, pc': Pc): (s': State)
    requires t in s.pcs && Local(t, s.sh, s.pcs[t], sh', pc')
    ensures Acts(s, t, pc', s')
  {
    State(sh', (if Broadcasts(s.pcs[t]) then WakeAll(s.pcs) else s.pcs)[t := pc'], Hushed(s.hushed, t, s.pcs[t]))
  }

  /** A step of a thread other than t, which is neither parked nor idle and, unless it is the last one,
      leaves t parked. */
  ghost predicate Helps(s: State, s': State, t: Tid, last: bool) {
    exists u, pc' ::
      && u in s.pcs && u != t && s.pcs[u] != Waiting(Parked) && s.pcs[u] != Idle && Acts(s, u, pc', s')
      && t in s.pcs && s.pcs[t] == Waiting(Parked) && (Broadcasts(s.pcs[u]) <==> last)
  }

  /** A way from the first state of `way` to a broadcast, which wakes t. */
  ghost predicate WaysOut(way: seq<State>, t: Tid) {
    && |way| >= 2
    && (forall i :: 0 <= i < |way| - 1 ==> Helps(way[i], way[i + 1], t, i == |way| - 2))
    && t in way[|way| - 1].pcs && way[|way| - 1].pcs[t] == Waiting(WWake)
  }

  lemma WayFurther(s: State, way: seq<State>, t: Tid)
    requires WaysOut(way, t) && Helps(s, way[0], t, false)
    ensures WaysOut([s] + way, t)
  {
    var all := [s] + way;
    hide Helps;
    forall i | 0 <= i < |all| - 1
      ensures Helps(all[i], all[i + 1], t, i == |all| - 2)
    {
      assert all[i + 1] == way[i];
      if i > 0 {
        assert all[i] == way[i - 1] && Helps(way[i - 1], way[i - 1 + 1], t, i - 1 == |way| - 2);
      }
    }
    assert all[|all| - 1] == way[|way| - 1];
  }

  /** One step of u, which leaves t parked, or wakes it. */
  lemma HelpfulStep(s: State, t: Tid, u: Tid, sh': Shared, pc': Pc) returns (s': State)
    requires LockInv(s) && WaitersInv(s)
    requires t in s.pcs && s.pcs[t] == Waiting(Parked) && u in s.pcs && u != t
    requires s.pcs[u] != Waiting(Parked) && s.pcs[u] != Idle && Local(u, s.sh, s.pcs[u], sh', pc')
    ensures LockInv(s') && WaitersInv(s') && s'.sh == sh' && u in s'.pcs && s'.pcs[u] == pc' && t in s'.pcs
    ensures Helps(s, s', t, Broadcasts(s.pcs[u]))
    ensures s'.pcs[t] == if Broadcasts(s.pcs[u]) then Waiting(WWake) else Waiting(Parked)
    ensures !Broadcasts(s.pcs[u]) ==> forall o :: o in s.pcs && o != u ==> o in s'.pcs && s'.pcs[o] == s.pcs[o]
  {
    s' := Acted(s, u, sh', pc');
    hide Local;
    ActKeepsLock(s, u, pc', s');
    ActKeepsWaiters(s, u, pc', s');
  }

  /** The debtor goes on whenever it can, and otherwise the holder of the waiters lock does. */
  lemma {:induction false} PayDebt(s: State, t: Tid, u: Tid) returns (way: seq<State>)
    requires LockInv(s) && WaitersInv(s) && t in s.pcs && s.pcs[t] == Waiting(Parked)
    requires u in s.pcs && Owes(s.pcs[u]) && CanLock(s.sh, u)
    ensures way != [] && way[0] == s && WaysOut(way, t)
    decreases Debt(s.pcs[u]), if s.sh.waiters.None? then 0 else Hold(s.pcs[s.sh.waiters.value])
  {
    var pc, w := s.pcs[u], s.sh.waiters;
    if Broadcasts(pc) {
      way := BroadcastWakes(s, t, u);
    } else if WantsWaiters(pc) && w.Some? {
      assert HoldsWaiters(s.pcs[w.value]) && w.value != u;
      if Broadcasts(s.pcs[w.value]) {
        way := BroadcastWakes(s, t, w.value);
      } else {
        var sh', pc' := HoldStep(w.value, s.sh, s.pcs[w.value]);
        hide Local, LockInv, WaitersInv, Helps;
        var s' := HelpfulStep(s, t, w.value, sh', pc');
        var rest := PayDebt(s', t, u);
        WayFurther(s, rest, t);
        way := [s] + rest;
      }
    } else {
      var sh', pc' := DebtStep(u, s.sh, pc);
      hide Local, LockInv, WaitersInv, Helps;
      var s' := HelpfulStep(s, t, u, sh', pc');
      var rest := PayDebt(s', t, u);
      WayFurther(s, rest, t);
      way := [s] + rest;
    }
  }

  lemma BroadcastWakes(s: State, t: Tid, u: Tid) returns (way: seq<State>)
    requires LockInv(s) && WaitersInv(s) && t in s.pcs && s.pcs[t] == Waiting(Parked)
    requires u in s.pcs && Broadcasts(s.pcs[u])
    ensures way != [] && way[0] == s && WaysOut(way, t)
  {
    var pc := s.pcs[u];
    var pc' := if pc.Leaving? then Leaving(UnlockWaiters)
               else Closing(if pc.stage == CBroadcast then CUnlock else CInnerUnlock, pc.caller);
    var s' := HelpfulStep(s, t, u, s.sh, pc');
    way := [s, s'];
  }

  /** The owner of the events lock, or a debtor if nobody owns it. */
  lemma SomeDebtor(s: State) returns (u: Tid)
    requires LockInv(s) && exists o :: o in s.pcs && Owes(s.pcs[o])
    ensures u in s.pcs && Owes(s.pcs[u]) && CanLock(s.sh, u)
  {
    if s.sh.owner.Some? {
      u := s.sh.owner.value;
      assert Depth(s.pcs[u]) > 0;
    } else {
      u :| u in s.pcs && Owes(s.pcs[u]);
    }
  }

  lemma WayIsChain(way: seq<State>, t: Tid, internal: seq<PollFd>)
    requires WaysOut(way, t)
    ensures Chain(way, internal)
  {
    forall i | 0 <= i < |way| - 1
      ensures Next(way[i], way[i + 1], internal)
    {
      assert Helps(way[i], way[i + 1], t, i == |way| - 2);
      hide Acts;
      var u, pc' :| u in way[i].pcs && Acts(way[i], u, pc', way[i + 1]);
      assert Step(way[i], Act(u, pc'), way[i + 1], internal);
    }
  }

  /** A parked thread can always be woken: every run that has parked a thread goes on, by steps of other
      threads that are neither parked nor idle, to a broadcast that wakes it, and no lock is in the way.
      In particular the hand-off of event handling never deadlocks. */
  lemma ParkedCanBeWoken(run: seq<State>, pipe: PollFd, timer: Option<PollFd>, t: Tid) returns (way: seq<State>)
    requires IsRun(run, pipe, timer)
    requires var s := run[|run| - 1]; t in s.pcs && s.pcs[t] == Waiting(Parked)
    ensures WaysOut(way, t) && way[0] == run[|run| - 1]
    ensures IsRun(run + way[1..], pipe, timer)
  {
    var s, internal := run[|run| - 1], InternalFds(pipe, timer);
    RunInv(run, pipe, timer, |run| - 1);
    assert Waits(s.pcs[t]);
    var u := SomeDebtor(s);
    way := PayDebt(s, t, u);
    WayIsChain(way, t, internal);
    hide Next, WaysOut;
    var all := run + way[1..];
    forall i | 0 <= i < |all| - 1
      ensures Next(all[i], all[i + 1], internal)
    {
      if i < |run| - 1 {
        assert Next(run[i], run[i + 1], internal);
      } else {
        var k := i - (|run| - 1);
        assert all[i] == way[k] && all[i + 1] == way[k + 1] && Next(way[k], way[k + 1], internal);
      }
    }
  }

  // --------------------------------------------------- the run that loses the flag

  /** One thread on its own. */
  ghost function Solo(sh: Shared, pc: Pc, hushed: bool): State {
    State(sh, map[0 := pc], if hushed then {0} else {})
  }

  lemma SoloStep(run: seq<State>, sh: Shared, pc: Pc, hushed: bool, sh': Shared, pc': Pc, internal: seq<PollFd>)
    returns (longer: seq<State>)
    requires run != [] && Chain(run, internal) && run[|run| - 1] == Solo(sh, pc, hushed)
    requires pc != Waiting(Parked) && Local(0, sh, pc, sh', pc')
    ensures Chain(longer, internal) && longer != [] && longer[0] == run[0]
    ensures longer[|longer| - 1] ==
            Solo(sh', pc', (hushed && pc != Handling(SetActive)) ||
                           (pc.Closing? && pc.stage == CUnlock && pc.caller.Callback?))
  {
    var s, hushed' := Solo(sh, pc, hushed), Hushed(if hushed then {0} else {}, 0, pc);
    var s' := State(sh', (if Broadcasts(pc) then WakeAll(s.pcs) else s.pcs)[0 := pc'], hushed');
    assert Step(s, Act(0, pc'), s', internal) by {
      hide Local;
    }
    assert s'.pcs == map[0 := pc'];
    assert hushed' == if 0 in hushed' then {0} else {};
    longer := Extend(run, s', internal);
  }

  /** A thread comes, takes the events lock and sets the flag. */
  lemma SoloHandles(pipe: PollFd, timer: Option<PollFd>) returns (run: seq<State>, sh: Shared)
    ensures IsRun(run, pipe, timer)
    ensures run[|run| - 1] == Solo(sh, Handling(At(InBackend)), false)
    ensures sh.owner == Some(0) && sh.depth == 1 && sh.active && sh.waiters == None
  {
    var internal, start := InternalFds(pipe, timer), Start(pipe, timer);
    var sh0 := start.sh;
    assert Step(start, Spawn(0), Solo(sh0, Idle, false), internal);
    run := Extend([start], Solo(sh0, Idle, false), internal);
    hide InitialEvents;
    run := SoloStep(run, sh0, Idle, false, sh0, Entering(LockTake), internal);
    var sh1 := Locked(sh0, 0);
    run := SoloStep(run, sh0, Entering(LockTake), false, sh1, Handling(SetActive), internal);
    var sh2 := sh1.(active := true);
    run := SoloStep(run, sh1, Handling(SetActive), false, sh2, Handling(CheckDone), internal);
    run := SoloStep(run, sh2, Handling(CheckDone), false, sh2, Handling(Prepare), internal);
    sh := sh2.(d := PreparePoll(sh2.d));
    run := SoloStep(run, sh2, Handling(Prepare), false, sh, Handling(Poll), internal);
    StartedIdle(pipe, timer);
    run := SoloStep(run, sh, Handling(Poll), false, sh, Handling(At(InBackend)), internal);
  }

  /** The first refresh takes the byte that announced libusb's own descriptors. */
  lemma StartedIdle(pipe: PollFd, timer: Option<PollFd>)
    ensures PreparePoll(InitialEvents(pipe, timer)).tokens == 0
  {
  }

  /** A close in a callback up to the release of the inner lock: the lock is taken twice more, and given
      back once. */
  lemma SoloClosesInner(run: seq<State>, sh: Shared, site: Site, internal: seq<PollFd>)
    returns (longer: seq<State>, sh': Shared)
    requires run != [] && Chain(run, internal) && run[|run| - 1] == Solo(sh, Handling(At(site)), false)
    requires sh.owner == Some(0) && sh.depth == 1 && sh.waiters == None
    ensures Chain(longer, internal) && longer != [] && longer[0] == run[0]
    ensures longer[|longer| - 1] == Solo(sh', Closing(CInnerWaiters, Callback(site)), false)
    ensures sh'.owner == Some(0) && sh'.depth == 2 && !sh'.active && sh'.waiters == None
  {
    hide Chain, Solo;
    var c := Callback(site);
    var sh1 := sh.(d := BeginClose(sh.d));
    longer := SoloStep(run, sh, Handling(At(site)), false, sh1, Closing(CTake, c), internal);
    longer := SoloStep(longer, sh1, Closing(CTake, c), false, Locked(sh1, 0), Closing(CActive, c), internal);
    var sh2 := Locked(sh1, 0).(active := true);
    longer := SoloStep(longer, Locked(sh1, 0), Closing(CActive, c), false, sh2, Closing(CInnerTake, c), internal);
    longer, sh' := SoloClosesTwice(longer, sh2, site, internal);
  }

  lemma SoloClosesTwice(run: seq<State>, sh2: Shared, site: Site, internal: seq<PollFd>)
    returns (longer: seq<State>, sh': Shared)
    requires run != [] && Chain(run, internal)
    requires run[|run| - 1] == Solo(sh2, Closing(CInnerTake, Callback(site)), false)
    requires sh2.owner == Some(0) && sh2.depth == 2 && sh2.active && sh2.waiters == None
    ensures Chain(longer, internal) && longer != [] && longer[0] == run[0]
    ensures longer[|longer| - 1] == Solo(sh', Closing(CInnerWaiters, Callback(site)), false)
    ensures sh'.owner == Some(0) && sh'.depth == 2 && !sh'.active && sh'.waiters == None
  {
    hide Chain, Solo;
    var c, sh3 := Callback(site), Locked(sh2, 0);
    longer := SoloStep(run, sh2, Closing(CInnerTake, c), false, sh3, Closing(CInnerActive, c), internal);
    longer := SoloStep(longer, sh3, Closing(CInnerActive, c), false, sh3, Closing(CInnerClear, c), internal);
    var sh4 := sh3.(active := false);
    longer := SoloStep(longer, sh3, Closing(CInnerClear, c), false, sh4, Closing(CInnerRelease, c), internal);
    sh' := Unlocked(sh4);
    longer := SoloStep(longer, sh4, Closing(CInnerRelease, c), false, sh', Closing(CInnerWaiters, c), internal);
  }

  /** The first of the two broadcasts. */
  lemma SoloBroadcasts(run: seq<State>, sh: Shared, site: Site, internal: seq<PollFd>) returns (longer: seq<State>)
    requires run != [] && Chain(run, internal) && sh.waiters == None
    requires run[|run| - 1] == Solo(sh, Closing(CInnerWaiters, Callback(site)), false)
    ensures Chain(longer, internal) && longer != [] && longer[0] == run[0]
    ensures longer[|longer| - 1] == Solo(sh, Closing(CEnd, Callback(site)), false)
  {
    hide Chain, Solo;
    var c, held := Callback(site), sh.(waiters := Some(0));
    longer := SoloStep(run, sh, Closing(CInnerWaiters, c), false, held, Closing(CInnerBroadcast, c), internal);
    longer := SoloStep(longer, held, Closing(CInnerBroadcast, c), false, held, Closing(CInnerUnlock, c), internal);
    longer := SoloStep(longer, held, Closing(CInnerUnlock, c), false, sh, Closing(CEnd, c), internal);
  }

  /** The end of the count, and the release of the outer lock. */
  lemma SoloReleases(run: seq<State>, sh: Shared, site: Site, internal: seq<PollFd>)
    returns (longer: seq<State>, sh': Shared)
    requires run != [] && Chain(run, internal)
    requires run[|run| - 1] == Solo(sh, Closing(CEnd, Callback(site)), false)
    requires sh.owner == Some(0) && sh.depth == 2 && !sh.active && sh.waiters == None
    ensures Chain(longer, internal) && longer != [] && longer[0] == run[0]
    ensures longer[|longer| - 1] == Solo(sh', Closing(CWaiters, Callback(site)), false)
    ensures sh'.owner == Some(0) && !sh'.active && sh'.waiters == None
  {
    hide Chain, Solo;
    var c, sh1 := Callback(site), sh.(d := EndClose(sh.d));
    longer := SoloStep(run, sh, Closing(CEnd, c), false, sh1, Closing(CClear, c), internal);
    longer := SoloStep(longer, sh1, Closing(CClear, c), false, sh1, Closing(CRelease, c), internal);
    sh' := Unlocked(sh1);
    longer := SoloStep(longer, sh1, Closing(CRelease, c), false, sh', Closing(CWaiters, c), internal);
  }

  lemma SoloReturns(run: seq<State>, sh: Shared, site: Site, internal: seq<PollFd>) returns (longer: seq<State>)
    requires run != [] && Chain(run, internal) && sh.waiters == None
    requires run[|run| - 1] == Solo(sh, Closing(CWaiters, Callback(site)), false)
    ensures Chain(longer, internal) && longer != [] && longer[0] == run[0]
    ensures longer[|longer| - 1] == Solo(sh, Handling(At(site)), true)
  {
    hide Chain, Solo;
    var c, held := Callback(site), sh.(waiters := Some(0));
    longer := SoloStep(run, sh, Closing(CWaiters, c), false, held, Closing(CBroadcast, c), internal);
    longer := SoloStep(longer, held, Closing(CBroadcast, c), false, held, Closing(CUnlock, c), internal);
    longer := SoloStep(longer, held, Closing(CUnlock, c), false, sh, Handling(At(site)), internal);
  }

  /** A reachable state in which the flag is down although its thread holds the events lock and goes on
      handling events: one thread that closes a device in a callback is enough. */
  lemma CallbackCloseDropsFlag(pipe: PollFd, timer: Option<PollFd>) returns (run: seq<State>)
    ensures IsRun(run, pipe, timer)
    ensures var s := run[|run| - 1];
            0 in s.pcs && s.pcs[0] == Handling(At(InBackend)) && s.sh.owner == Some(0) && !s.sh.active
  {
    var internal, sh := InternalFds(pipe, timer), Start(pipe, timer).sh;
    run, sh := SoloHandles(pipe, timer);
    run, sh := SoloClosesInner(run, sh, InBackend, internal);
    run := SoloBroadcasts(run, sh, InBackend, internal);
    run, sh := SoloReleases(run, sh, InBackend, internal);
    run := SoloReturns(run, sh, InBackend, internal);
  }
}
