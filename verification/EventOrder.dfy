/**
 What is signalled is what is delivered: over every run of the event protocol, hotplug messages and
 completed transfers reach user code once, in the order in which they were signalled.
 */
module EventOrder {
  import opened Usb
  import opened EventData
  import opened EventProtocol
  import opened EventSafety

  /** A run with the moves that make it. */
  ghost predicate Traced(run: seq<State>, moves: seq<Move>, internal: seq<PollFd>) {
    && |run| == |moves| + 1
    && forall i :: 0 <= i < |moves| ==> Step(run[i], moves[i], run[i + 1], internal)
  }

  // ----------------------------------------------------------- what went in, what came out

  function Announces(move: Move): seq<Message> {
    if move.Signal? && move.notice.Hotplug? then [move.notice.m] else []
  }

  function Ends(move: Move): seq<TransferId> {
    if move.Signal? && move.notice.Completion? then [move.notice.t] else []
  }

  /** The hotplug messages that were signalled, oldest first. */
  function Announced(moves: seq<Move>): seq<Message> {
    if moves == [] then [] else Announced(moves[..|moves| - 1]) + Announces(moves[|moves| - 1])
  }

  /** The transfers whose completion was signalled, oldest first. */
  function Ended(moves: seq<Move>): seq<TransferId> {
    if moves == [] then [] else Ended(moves[..|moves| - 1]) + Ends(moves[|moves| - 1])
  }

  /** A handler that was in the event-pipe section calls the hotplug callbacks. */
  function Tells(pc: Pc, pc': Pc): seq<Message> {
    if pc.Handling? && pc'.Handling? && pc'.h.At? && pc'.h.site.InHotplug? then [pc'.h.site.message] else []
  }

  /** A handler in the event-pipe section calls the back end to complete a transfer. */
  function Finishes(pc: Pc, pc': Pc): seq<TransferId> {
    if pc.Handling? && pc'.Handling? && pc'.h.At? && pc'.h.site.InLoop? then [pc'.h.site.transfer] else []
  }

  function Delivers(s: State, move: Move): seq<Message> {
    if move.Act? && move.t in s.pcs then Tells(s.pcs[move.t], move.pc) else []
  }

  function Completes(s: State, move: Move): seq<TransferId> {
    if move.Act? && move.t in s.pcs then Finishes(s.pcs[move.t], move.pc) else []
  }

  /** The messages that were delivered in the run, oldest first. */
  function Delivered(run: seq<State>, moves: seq<Move>): seq<Message>
    requires |run| == |moves| + 1
    decreases |moves|
  {
    if moves == [] then []
    else Delivered(run[..|moves|], moves[..|moves| - 1]) + Delivers(run[|moves| - 1], moves[|moves| - 1])
  }

  /** The transfers that were completed in the run, oldest first. */
  function Completed(run: seq<State>, moves: seq<Move>): seq<TransferId>
    requires |run| == |moves| + 1
    decreases |moves|
  {
    if moves == [] then []
    else Completed(run[..|moves|], moves[..|moves| - 1]) + Completes(run[|moves| - 1], moves[|moves| - 1])
  }

  /** The message that the thread has taken and not yet delivered, if any. */
  function Carried(pc: Pc): seq<Message> {
    match pc
    case Handling(At(InLoop(Some(m), _))) => [m]
    case Closing(_, Callback(InLoop(Some(m), _))) => [m]
    case _ => []
  }

  /** Only the owner of the events lock has one. */
  function InHand(s: State): seq<Message> {
    if s.sh.owner.Some? && s.sh.owner.value in s.pcs then Carried(s.pcs[s.sh.owner.value]) else []
  }

  // ------------------------------------------------------------------------- one step

  lemma CarrierHoldsLock(pc: Pc)
    ensures Carried(pc) != [] ==> Depth(pc) > 0
    ensures Carried(Wake(pc)) == Carried(pc)
  {
  }

  /** What a round of the completion loop does with the message of the section and with the first of the
      completed transfers. */
  lemma RoundHands(sh: Shared, msg: Option<Message>, goOn: bool, sh': Shared, pc': Pc)
    requires LoopRound(sh, msg, goOn, sh', pc')
    ensures sh'.d.msgs == sh.d.msgs
    ensures Tells(Handling(Sighted), pc') + Carried(pc') == if msg.Some? then [msg.value] else []
    ensures Finishes(Handling(Sighted), pc') + sh'.d.completed == sh.d.completed
  {
  }

  lemma SiteHands(t: Tid, sh: Shared, site: Site, sh': Shared, pc': Pc)
    requires HandlerStep(t, sh, At(site), sh', pc')
    ensures Tells(Handling(At(site)), pc') + Carried(pc') + sh'.d.msgs == Carried(Handling(At(site))) + sh.d.msgs
    ensures Finishes(Handling(At(site)), pc') + sh'.d.completed == sh.d.completed
  {
    if !pc'.Closing? && site.InLoop? {
      var goOn :| LoopRound(sh, site.msg, goOn, sh', pc');
      hide HandlerStep;
      RoundHands(sh, site.msg, goOn, sh', pc');
      hide LoopRound;
    }
  }

  lemma SightedHands(t: Tid, sh: Shared, sh': Shared, pc': Pc)
    requires HandlerStep(t, sh, Sighted, sh', pc')
    ensures Tells(Handling(Sighted), pc') + Carried(pc') + sh'.d.msgs == sh.d.msgs
    ensures Finishes(Handling(Sighted), pc') + sh'.d.completed == sh.d.completed
  {
    RoundHands(sh.(d := TakeMessage(sh.d).0), TakeMessage(sh.d).1, true, sh', pc');
    hide LoopRound, HandlerStep;
  }

  lemma HandlerHands(t: Tid, sh: Shared, h: HandlerPc, sh': Shared, pc': Pc)
    requires HandlerStep(t, sh, h, sh', pc')
    ensures Tells(Handling(h), pc') + Carried(pc') + sh'.d.msgs == Carried(Handling(h)) + sh.d.msgs
    ensures Finishes(Handling(h), pc') + sh'.d.completed == sh.d.completed
  {
    match h
    case Sighted => SightedHands(t, sh, sh', pc');
    case At(site) => SiteHands(t, sh, site, sh', pc');
    case _ =>
  }

  lemma CloseHands(t: Tid, sh: Shared, stage: CloseStage, caller: Caller, sh': Shared, pc': Pc)
    requires CloseStep(t, sh, stage, caller, sh', pc')
    ensures Carried(pc') == Carried(Closing(stage, caller))
    ensures sh'.d.msgs == sh.d.msgs && sh'.d.completed == sh.d.completed
  {
  }

  /** No step of a thread loses a message or a transfer, or changes their order. */
  lemma LocalHands(t: Tid, sh: Shared, pc: Pc, sh': Shared, pc': Pc)
    requires Local(t, sh, pc, sh', pc')
    ensures Tells(pc, pc') + Carried(pc') + sh'.d.msgs == Carried(pc) + sh.d.msgs
    ensures Finishes(pc, pc') + sh'.d.completed == sh.d.completed
  {
    match pc
    case Handling(h) => HandlerHands(t, sh, h, sh', pc');
    case Closing(stage, caller) => CloseHands(t, sh, stage, caller, sh', pc');
    case _ =>
  }

  /** The lock tells whose hand it is, before and after the step of t. */
  lemma HandMoves(s: State, t: Tid, pc': Pc, s': State)
    requires LockInv(s) && LockInv(s') && Acts(s, t, pc', s')
    ensures s.sh.owner.None? || s.sh.owner == Some(t) ==>
              InHand(s) == Carried(s.pcs[t]) && InHand(s') == Carried(pc')
    ensures s.sh.owner.Some? && s.sh.owner != Some(t) ==>
              InHand(s) == InHand(s') && Carried(s.pcs[t]) == [] == Carried(pc') && Tells(s.pcs[t], pc') == []
  {
    LocalLock(t, s.sh, s.pcs[t], s'.sh, pc');
    hide Local;
    CarrierHoldsLock(s.pcs[t]);
    CarrierHoldsLock(pc');
    OtherThreads(s, t, pc', s', t);
    if s.sh.owner.Some? && s.sh.owner != Some(t) {
      var u := s.sh.owner.value;
      OtherThreads(s, t, pc', s', u);
      CarrierHoldsLock(s.pcs[u]);
    }
  }

  lemma ActHands(s: State, t: Tid, pc': Pc, s': State)
    requires LockInv(s) && LockInv(s') && Acts(s, t, pc', s')
    ensures Tells(s.pcs[t], pc') + InHand(s') + s'.sh.d.msgs == InHand(s) + s.sh.d.msgs
    ensures Finishes(s.pcs[t], pc') + s'.sh.d.completed == s.sh.d.completed
  {
    hide Local, LockInv, InHand, Carried, Tells, Finishes;
    HandMoves(s, t, pc', s');
    LocalHands(t, s.sh, s.pcs[t], s'.sh, pc');
    if s.sh.owner.Some? && s.sh.owner != Some(t) {
      assert [] + [] + s'.sh.d.msgs == s'.sh.d.msgs && [] + s.sh.d.msgs == s.sh.d.msgs;
    }
  }

  /** One move: what is delivered leaves, what is signalled joins at the end. */
  lemma StepHands(s: State, move: Move, s': State, internal: seq<PollFd>)
    requires LockInv(s) && LockInv(s') && Step(s, move, s', internal)
    ensures Delivers(s, move) + InHand(s') + s'.sh.d.msgs == InHand(s) + s.sh.d.msgs + Announces(move)
    ensures Completes(s, move) + s'.sh.d.completed == s.sh.d.completed + Ends(move)
  {
    match move
    case Act(t, pc') => ActHands(s, t, pc', s');
    case _ =>
  }

  // ---------------------------------------------------------------------- over every run

  /** Every run of the protocol is made by some moves. */
  lemma {:induction false} MovesOfRun(run: seq<State>, internal: seq<PollFd>) returns (moves: seq<Move>)
    requires run != [] && Chain(run, internal)
    ensures Traced(run, moves, internal)
  {
    moves := [];
    if |run| > 1 {
      var n := |run| - 2;
      assert Next(run[n], run[n + 1], internal);
      var move :| Step(run[n], move, run[n + 1], internal);
      hide Step;
      moves := MovesOfRun(run[..n + 1], internal);
      moves := moves + [move];
    }
  }

  lemma TracedIsRun(run: seq<State>, moves: seq<Move>, pipe: PollFd, timer: Option<PollFd>)
    requires Traced(run, moves, InternalFds(pipe, timer)) && run[0] == Start(pipe, timer)
    ensures IsRun(run, pipe, timer)
  {
    hide Step;
    forall i | 0 <= i < |run| - 1
      ensures Next(run[i], run[i + 1], InternalFds(pipe, timer))
    {
      assert Step(run[i], moves[i], run[i + 1], InternalFds(pipe, timer));
    }
  }

  lemma LastMove(run: seq<State>, moves: seq<Move>)
    requires |run| == |moves| + 1 && moves != []
    ensures var n := |moves| - 1;
            && Delivered(run, moves) == Delivered(run[..|moves|], moves[..n]) + Delivers(run[n], moves[n])
            && Completed(run, moves) == Completed(run[..|moves|], moves[..n]) + Completes(run[n], moves[n])
            && Announced(moves) == Announced(moves[..n]) + Announces(moves[n])
            && Ended(moves) == Ended(moves[..n]) + Ends(moves[n])
  {
    hide Delivers, Completes, Announces, Ends;
  }

  lemma LastStep(run: seq<State>, moves: seq<Move>, pipe: PollFd, timer: Option<PollFd>)
    requires Traced(run, moves, InternalFds(pipe, timer)) && run[0] == Start(pipe, timer) && moves != []
    ensures var n := |moves| - 1; var s, move, s' := run[n], moves[n], run[n + 1];
            && Delivers(s, move) + InHand(s') + s'.sh.d.msgs == InHand(s) + s.sh.d.msgs + Announces(move)
            && Completes(s, move) + s'.sh.d.completed == s.sh.d.completed + Ends(move)
  {
    var n, internal := |moves| - 1, InternalFds(pipe, timer);
    TracedIsRun(run, moves, pipe, timer);
    hide IsRun, InternalFds, Start, CacheInv, WaitersInv, TokenInv, ActiveInv, FlagInv, PollInv, WakeInv, Closers;
    RunInv(run, pipe, timer, n);
    RunInv(run, pipe, timer, n + 1);
    assert Step(run[n], moves[n], run[n + 1], internal);
    hide Step;
    StepHands(run[n], moves[n], run[n + 1], internal);
  }

  lemma FirstPart(run: seq<State>, moves: seq<Move>, internal: seq<PollFd>)
    requires Traced(run, moves, internal) && moves != []
    ensures Traced(run[..|moves|], moves[..|moves| - 1], internal) && run[..|moves|][0] == run[0]
  {
    hide Step;
  }

  lemma NothingAtStart(pipe: PollFd, timer: Option<PollFd>)
    ensures var s := Start(pipe, timer); InHand(s) == [] && s.sh.d.msgs == [] && s.sh.d.completed == []
  {
  }

  /** Nothing that is signalled is lost, repeated or overtaken. In every run the messages delivered so
      far, the one in the hand of the handler and those still queued are together the messages signalled
      so far, in their order; and so are the transfers completed and those still waiting. */
  lemma {:induction false} DeliveredInOrder(run: seq<State>, moves: seq<Move>, pipe: PollFd, timer: Option<PollFd>)
    requires Traced(run, moves, InternalFds(pipe, timer)) && run[0] == Start(pipe, timer)
    ensures var s := run[|run| - 1];
            && Delivered(run, moves) + InHand(s) + s.sh.d.msgs == Announced(moves)
            && Completed(run, moves) + s.sh.d.completed == Ended(moves)
    decreases |moves|
  {
    hide Start, InHand, Delivers, Completes, Announces, Ends;
    if moves == [] {
      NothingAtStart(pipe, timer);
    } else {
      var n, first, rest := |moves| - 1, run[..|moves|], moves[..|moves| - 1];
      LastStep(run, moves, pipe, timer);
      FirstPart(run, moves, InternalFds(pipe, timer));
      hide Traced;
      DeliveredInOrder(first, rest, pipe, timer);
      LastMove(run, moves);
      hide Delivered, Completed, Announced, Ended;
      assert first[|first| - 1] == run[n];
      Relay(Delivered(first, rest), InHand(run[n]), run[n].sh.d.msgs, Delivers(run[n], moves[n]),
            InHand(run[n + 1]), run[n + 1].sh.d.msgs, Announces(moves[n]));
      RelayDone(Completed(first, rest), run[n].sh.d.completed, Completes(run[n], moves[n]),
                run[n + 1].sh.d.completed, Ends(moves[n]));
    }
  }

  lemma RelayDone<T>(out: seq<T>, queue: seq<T>, step: seq<T>, queue': seq<T>, new_: seq<T>)
    requires step + queue' == queue + new_
    ensures (out + step) + queue' == (out + queue) + new_
  {
    assert (out + step) + queue' == out + (step + queue');
    assert out + (queue + new_) == (out + queue) + new_;
  }

  lemma Relay<T>(out: seq<T>, hand: seq<T>, queue: seq<T>, step: seq<T>, hand': seq<T>, queue': seq<T>, new_: seq<T>)
    requires step + hand' + queue' == hand + queue + new_
    ensures (out + step) + hand' + queue' == (out + hand + queue) + new_
  {
    calc {
      (out + step) + hand' + queue';
      out + (step + hand' + queue');
      out + (hand + queue + new_);
      (out + hand + queue) + new_;
    }
  }
}
