/**
 Synchronous transfers: submit, handle events until the callback has run, free the transfer. What
 happens to the transfer meanwhile is a life in the sense of module Lifecycle.
 */
module Sync {
  import opened Usb
  import opened Lifecycle

  /** What one call of libusb_handle_events_completed returns. */
  datatype Outcome = Handled | Interrupted | EventError

  /** One turn of the waiting loop: what happens to the transfer during the call, what the call
      returns, and what the back end says to the cancellation that an error brings on. */
  datatype Round = Round(moves: seq<Move>, outcome: Outcome, answer: Code)

  /** The flag that sync_transfer_cb sets. */
  predicate Flagged(l: Life) {
    1 in l.callbacks
  }

  /** Nobody else submits the transfer of a synchronous call. */
  predicate Private(moves: seq<Move>) {
    forall i :: 0 <= i < |moves| ==> !moves[i].Submit?
  }

  /** One turn: what happens, and the cancellation if the call failed and was not just interrupted. */
  function AfterRound(l: Life, r: Round): Life
    requires l.submit.SIdle? && Private(r.moves) && IsLife(l, r.moves)
  {
    PrivateStays(l, r.moves);
    var l' := After(l, r.moves);
    if r.outcome == EventError then Step(l', Cancel(r.answer)) else l'
  }

  /** Rounds that the world can play from `l` on. */
  predicate Playable(l: Life, rounds: seq<Round>)
    requires l.submit.SIdle?
    decreases |rounds|
  {
    rounds != [] ==>
      && Private(rounds[0].moves)
      && IsLife(l, rounds[0].moves)
      && (RoundStays(l, rounds[0]); Playable(AfterRound(l, rounds[0]), rounds[1..]))
  }

  /** While nobody submits, the transfer stays between submissions, what succeeded stays so, and a
      clash can neither come nor go. */
  ghost predicate Stays(l: Life, l': Life) {
    && l'.current == l.current && l'.submit.SIdle?
    && l.succeeded <= l'.succeeded
    && l'.marked == l.marked && l'.overtaken == l.overtaken
  }

  lemma MoveStays(l: Life, m: Move)
    requires Enabled(l, m) && !m.Submit? && l.submit.SIdle?
    ensures Stays(l, Step(l, m))
  {
    match m
    case CompleteStep => CompletionOnlyAdds(l);
    case Cancel(_) =>
    case BackendCompletes(_) =>
    case SweepMarks =>
    case SweepTakes(_) =>
  }

  lemma {:induction false} PrivateStays(l: Life, moves: seq<Move>)
    requires IsLife(l, moves) && Private(moves) && l.submit.SIdle?
    ensures Stays(l, After(l, moves))
    decreases |moves|
  {
    hide Step, Enabled;
    if moves != [] {
      assert !moves[0].Submit?;
      MoveStays(l, moves[0]);
      PrivateStays(Step(l, moves[0]), moves[1..]);
    }
  }

  lemma RoundStays(l: Life, r: Round)
    requires l.submit.SIdle? && Private(r.moves) && IsLife(l, r.moves)
    ensures Stays(l, AfterRound(l, r))
    ensures Inv(l) ==> Inv(AfterRound(l, r))
  {
    PrivateStays(l, r.moves);
    if Inv(l) {
      LifeInv(l, r.moves);
      if r.outcome == EventError {
        StepKeepsInv(After(l, r.moves), Cancel(r.answer));
      }
    }
  }

  /** The turns on which handling events failed. */
  function Errors(rounds: seq<Round>): nat {
    if rounds == [] then 0 else (if rounds[0].outcome == EventError then 1 else 0) + Errors(rounds[1..])
  }

  /** How the wait goes: it ends before the first round that finds the flag set. */
  ghost function Waited(l: Life, rounds: seq<Round>): (Life, nat)
    requires l.submit.SIdle? && Playable(l, rounds)
    decreases |rounds|
  {
    if Flagged(l) || rounds == [] then (l, 0)
    else
      RoundStays(l, rounds[0]);
      var later := Waited(AfterRound(l, rounds[0]), rounds[1..]);
      (later.0, later.1 + 1)
  }

  /** sync_transfer_wait_for_completion, as long as the world is watched: `rest` are the rounds not
      needed. Each failing round costs one cancellation, an interruption none. */
  method WaitForCompletion(start: Life, rounds: seq<Round>)
    returns (l: Life, cancels: nat, rest: seq<Round>)
    requires Inv(start) && start.submit.SIdle? && Playable(start, rounds)
    ensures Inv(l) && Stays(start, l)
    ensures Flagged(l) || rest == []
    ensures |rest| <= |rounds| && (l, |rounds| - |rest|) == Waited(start, rounds)
    ensures cancels + Errors(rest) == Errors(rounds)
  {
    l, cancels, rest := start, 0, rounds;
    while !Flagged(l) && rest != []
      invariant Inv(l) && Stays(start, l)
      invariant Playable(l, rest)
      invariant |rest| <= |rounds| && cancels + Errors(rest) == Errors(rounds)
      invariant Waited(start, rounds).0 == Waited(l, rest).0
      invariant Waited(start, rounds).1 == |rounds| - |rest| + Waited(l, rest).1
      decreases |rest|
    {
      var r := rest[0];
      RoundStays(l, r);
      if r.outcome == EventError {
        cancels := cancels + 1;
      }
      l := AfterRound(l, r);
      rest := rest[1..];
    }
  }

  /** All that happens to the transfer while the call waits. */
  ghost function Played(l: Life, rounds: seq<Round>): seq<Move>
    requires l.submit.SIdle? && Playable(l, rounds)
    decreases |rounds|
  {
    if Flagged(l) || rounds == [] then []
    else
      var r := rounds[0];
      RoundStays(l, r);
      r.moves + (if r.outcome == EventError then [Cancel(r.answer)] else []) + Played(AfterRound(l, r), rounds[1..])
  }

  lemma RoundIsALife(l: Life, r: Round)
    requires l.submit.SIdle? && Private(r.moves) && IsLife(l, r.moves)
    ensures var ms := r.moves + if r.outcome == EventError then [Cancel(r.answer)] else [];
            IsLife(l, ms) && After(l, ms) == AfterRound(l, r)
  {
    PrivateStays(l, r.moves);
    if r.outcome == EventError {
      Extend(l, r.moves, Cancel(r.answer));
    } else {
      assert r.moves + [] == r.moves;
    }
  }

  /** The wait is part of one life of the transfer. */
  lemma {:induction false} WaitIsALife(l: Life, rounds: seq<Round>)
    requires l.submit.SIdle? && Playable(l, rounds)
    ensures IsLife(l, Played(l, rounds)) && After(l, Played(l, rounds)) == Waited(l, rounds).0
    ensures Stays(l, Waited(l, rounds).0)
    decreases |rounds|
  {
    hide Step, Enabled;
    if !Flagged(l) && rounds != [] {
      var r := rounds[0];
      RoundStays(l, r);
      RoundIsALife(l, r);
      WaitIsALife(AfterRound(l, r), rounds[1..]);
      Joined(l, r.moves + if r.outcome == EventError then [Cancel(r.answer)] else [],
             Played(AfterRound(l, r), rounds[1..]));
    }
  }

  // ------------------------------------------------------------------ the calls

  /** What a synchronous call returns for the status of its transfer; None is a status it does not
      know. A timeout, a stall, an overflow and a removal have codes of their own. */
  function SyncCode(status: Option<TransferStatus>): (code: Code)
    ensures code == Success <==> status == Some(Completed)
    ensures code == ErrorTimeout <==> status == Some(TimedOut)
    ensures code == ErrorPipe <==> status == Some(Stall)
    ensures code == ErrorOverflow <==> status == Some(Overflow)
    ensures code == ErrorNoDevice <==> status == Some(NoDevice)
    ensures code == ErrorIo <==> status == Some(TransferError) || status == Some(TransferCancelled)
    ensures code == ErrorOther <==> status == None
  {
    match status
    case Some(Completed) => Success
    case Some(TimedOut) => ErrorTimeout
    case Some(Stall) => ErrorPipe
    case Some(Overflow) => ErrorOverflow
    case Some(NoDevice) => ErrorNoDevice
    case Some(TransferError) | Some(TransferCancelled) => ErrorIo
    case None => ErrorOther
  }

  /** A call is over in one of two ways: the submission was refused, or the flag is set. Then the
      transfer is off the list, and neither the back end nor a completing thread uses it any more. */
  ghost predicate SafeToFree(l: Life) {
    l.listed == 0 && l.pending.None? && (l.complete.CIdle? || l.complete == CUnref(1)) && !l.broken
  }

  /** Submitting a new transfer, with the moves in `submission`, and waiting for it. `over` is false
      while the call still waits; the transfer is freed in state `l` when it is true. */
  method SubmitAndWait(submission: seq<Move>, rounds: seq<Round>) returns (refused: bool, over: bool, l: Life)
    requires IsLife(FRESH, submission)
    requires var s := After(FRESH, submission);
             s.current == 1 && s.submit.SIdle? && Playable(s, rounds) && (1 in s.failed || 1 in s.succeeded)
    ensures var s := After(FRESH, submission);
            && (refused <==> 1 in s.failed)
            && l == (if refused then s else Waited(s, rounds).0)
            && (over <==> refused || Flagged(l))
            && Inv(l)
            && (!Clash(s) ==> (over ==> SafeToFree(l)) && (!over ==> 1 in l.held))
  {
    l := After(FRESH, submission);
    FreshInv();
    LifeInv(FRESH, submission);
    refused := 1 in l.failed;
    if !refused {
      var cancels, rest;
      l, cancels, rest := WaitForCompletion(l, rounds);
    }
    over := refused || Flagged(l);
    SettledOrHeld(l);
  }

  lemma SettledOrHeld(l: Life)
    requires Inv(l) && l.current == 1 && l.submit.SIdle? && (1 in l.failed || 1 in l.succeeded)
    ensures !Clash(l) && (1 in l.failed || Flagged(l)) ==> SafeToFree(l)
    ensures !Clash(l) && 1 !in l.failed && !Flagged(l) ==> 1 in l.held
  {
    if !Clash(l) && (1 in l.failed || 1 in l.callbacks) {
      FreedIsOff(l);
    }
  }

  /** What the callback found in the transfer. */
  function Ended(l: Life): Result
    requires Flagged(l) && ShownByCallbacks(l)
  {
    l.shown[1]
  }

  /** do_sync_bulk_transfer; `r` is None while the call waits. What is returned is what the completion
      of this very submission reported. */
  method BulkTransfer(submission: seq<Move>, refusal: Code, rounds: seq<Round>)
    returns (r: Option<Code>, transferred: Option<nat>, l: Life)
    requires IsLife(FRESH, submission)
    requires var s := After(FRESH, submission);
             s.current == 1 && s.submit.SIdle? && Playable(s, rounds) && (1 in s.failed || 1 in s.succeeded)
    ensures var s := After(FRESH, submission);
            && l == (if 1 in s.failed then s else Waited(s, rounds).0)
            && ShownByCallbacks(l)
            && (1 in s.failed ==> r == Some(refusal) && transferred == None)
            && (1 !in s.failed && !Flagged(l) ==> r == None && transferred == None)
            && (1 !in s.failed && Flagged(l) ==>
                  && r == Some(SyncCode(l.shown[1].status))
                  && transferred == Some(|l.shown[1].data|))
            && (!Clash(s) ==> if r.Some? then SafeToFree(l) else 1 in l.held)
  {
    var refused, over;
    refused, over, l := SubmitAndWait(submission, rounds);
    r, transferred := None, None;
    if refused {
      r := Some(refusal);
    } else if over {
      r, transferred := Some(SyncCode(Ended(l).status)), Some(|Ended(l).data|);
    }
  }

  /** A control transfer returns how many bytes it moved, or an error. */
  datatype Reply = Moved(bytes: nat) | Failure(code: Code)

  const SETUP_SIZE := 8

  /** libusb_control_transfer for a data stage of data.Length bytes; `buffer` is what the transfer
      carries when it is submitted. A completion brings no more bytes than were asked for. */
  method ControlTransfer(setup: seq<Byte>, isIn: bool, data: array<Byte>, submission: seq<Move>, refusal: Code,
                         rounds: seq<Round>)
    returns (r: Option<Reply>, buffer: seq<Byte>, l: Life)
    requires |setup| == SETUP_SIZE
    requires IsLife(FRESH, submission)
    requires var s := After(FRESH, submission);
             s.current == 1 && s.submit.SIdle? && Playable(s, rounds) && (1 in s.failed || 1 in s.succeeded)
    requires var l := Waited(After(FRESH, submission), rounds).0; 1 in l.shown ==> |l.shown[1].data| <= data.Length
    modifies data
    ensures |buffer| == SETUP_SIZE + data.Length && setup <= buffer
    ensures !isIn ==> buffer == setup + old(data[..])
    ensures var s := After(FRESH, submission);
            && l == (if 1 in s.failed then s else Waited(s, rounds).0)
            && ShownByCallbacks(l)
            && r == (if 1 in s.failed then Some(Failure(refusal))
                     else if !Flagged(l) then None
                     else if Ended(l).status == Some(Completed) then Some(Moved(|Ended(l).data|))
                     else Some(Failure(SyncCode(Ended(l).status))))
            && data[..] == (if isIn && 1 !in s.failed && Flagged(l) then
                              Ended(l).data + old(data[|Waited(s, rounds).0.shown[1].data|..])
                            else old(data[..]))
            && (!Clash(s) ==> if r.Some? then SafeToFree(l) else 1 in l.held)
  {
    buffer := setup + if isIn then seq(data.Length, _ => 0) else data[..];
    var refused, over;
    refused, over, l := SubmitAndWait(submission, rounds);
    if refused {
      return Some(Failure(refusal)), buffer, l;
    }
    if !over {
      return None, buffer, l;
    }
    var arrived := Ended(l).data;
    if isIn {
      forall i | 0 <= i < |arrived| {
        data[i] := arrived[i];
      }
    }
    r := Some(if Ended(l).status == Some(Completed) then Moved(|arrived|)
              else Failure(SyncCode(Ended(l).status)));
  }

  /** What a synchronous call returns comes from its own completion: the result it finds is the one that
      was reported, by the back end or the disconnect sweep, as the end of the one submission it made. */
  lemma SyncCallSeesItsReport(submission: seq<Move>, rounds: seq<Round>)
    requires IsLife(FRESH, submission) && !Clash(After(FRESH, submission))
    requires var s := After(FRESH, submission); s.submit.SIdle? && Playable(s, rounds) && Flagged(Waited(s, rounds).0)
    ensures var s := After(FRESH, submission);
            var l, all := Waited(s, rounds).0, submission + Played(s, rounds);
            && IsLife(FRESH, all) && After(FRESH, all) == l
            && 1 in Reports(FRESH, all) && 1 in l.shown && l.shown[1] == Reports(FRESH, all)[1]
  {
    var s := After(FRESH, submission);
    WaitIsALife(s, rounds);
    Joined(FRESH, submission, Played(s, rounds));
    hide IsLife, After, Reports, Played, Waited, Playable;
    CallbacksSeeReports(submission + Played(s, rounds));
  }
}
