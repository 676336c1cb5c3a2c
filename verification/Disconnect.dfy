/**
 usbi_handle_disconnect: when a device is gone, its transfers in flight are completed one by one,
 and those still being submitted are marked for their submitters, who go on meanwhile.
 */
module Disconnect {
  import opened Usb
  import opened Timeouts
  import L = Lifecycle

  /** A transfer on the flying list. `taken` says that the back end has accepted it; it is in flight
      once its submitter has noted that. */
  datatype Listed = Listed(id: nat, handle: nat, taken: bool, flags: Flags)

  predicate IsVictim(e: Listed, handle: nat) {
    e.handle == handle && e.flags.inFlight
  }

  function Marked(e: Listed): Listed {
    e.(flags := e.flags.(disappeared := true))
  }

  // ---------------------------------------------------------------- the inner loop

  /** The list after one pass of the inner loop up to position k. */
  ghost predicate Swept(list: seq<Listed>, handle: nat, k: nat, list': seq<Listed>) {
    && k <= |list| == |list'|
    && (forall i :: 0 <= i < k ==> !IsVictim(list[i], handle))
    && (forall i :: 0 <= i < |list| ==>
          list'[i] == if i < k && list[i].handle == handle then Marked(list[i]) else list[i])
  }

  /** The inner loop: mark the handle's transfers until one in flight is found. */
  method FindVictim(list: seq<Listed>, handle: nat) returns (list': seq<Listed>, found: Option<nat>)
    ensures Swept(list, handle, if found.Some? then found.value else |list|, list')
    ensures found.Some? ==> found.value < |list| && IsVictim(list[found.value], handle)
  {
    list', found := list, None;
    var i := 0;
    while i < |list|
      invariant 0 <= i <= |list| && Swept(list, handle, i, list')
    {
      if list'[i].handle == handle {
        if list'[i].flags.inFlight {
          return list', Some(i);
        }
        list' := list'[i := Marked(list'[i])];
      }
      i := i + 1;
    }
  }

  // ------------------------------------------------------------- what happens meanwhile

  /** What callbacks and other threads do to the list while the thread that sweeps holds the events
      lock: enter a transfer, note that one is in flight, take one off again whose submission failed or
      which was marked, or ask for a cancellation. Nobody else completes transfers. */
  datatype Change =
    | Enter(pos: nat, e: Listed)
    | NoteInFlight(k: nat)
    | Withdraw(k: nat)
    | RequestCancel(k: nat)

  /** The device is gone, so the back end takes no new transfer for the handle, and no submitter notes
      a marked transfer as in flight. */
  predicate Possible(list: seq<Listed>, handle: nat, c: Change) {
    match c
    case Enter(pos, e) =>
      && pos <= |list|
      && (forall i :: 0 <= i < |list| ==> list[i].id != e.id)
      && (e.handle == handle ==> !e.taken && !e.flags.inFlight)
    case NoteInFlight(k) =>
      && k < |list|
      && (list[k].handle == handle ==> list[k].taken && !list[k].flags.disappeared)
    case Withdraw(k) => k < |list| && !list[k].flags.inFlight
    case RequestCancel(k) => k < |list|
  }

  function Changed(list: seq<Listed>, handle: nat, c: Change): seq<Listed> {
    if !Possible(list, handle, c) then list
    else match c
      case Enter(pos, e) => Inserted(list, pos, e)
      case NoteInFlight(k) => list[k := list[k].(flags := list[k].flags.(inFlight := true))]
      case Withdraw(k) => Without(list, k)
      case RequestCancel(k) => list[k := list[k].(flags := list[k].flags.(cancelling := true))]
  }

  function ChangedAll(list: seq<Listed>, handle: nat, cs: seq<Change>): seq<Listed>
    decreases |cs|
  {
    if cs == [] then list else ChangedAll(Changed(list, handle, cs[0]), handle, cs[1..])
  }

  // ------------------------------------------------------------------- the sweep

  /** One round: the list, the position and the identity of the victim, and the list once the victim is
      completed. */
  datatype Round = Round(before: seq<Listed>, victim: nat, id: nat, after: seq<Listed>)

  ghost predicate GoodRound(r: Round, handle: nat) {
    && r.victim < |r.before|
    && r.id == r.before[r.victim].id
    && IsVictim(r.before[r.victim], handle)
    && exists swept :: Swept(r.before, handle, r.victim, swept) && r.after == Without(swept, r.victim)
  }

  /** The rounds of a sweep that has come to `now`; `meanwhile(i)` is what happens after round i. */
  ghost predicate Rounds(list: seq<Listed>, handle: nat, meanwhile: nat -> seq<Change>,
                         rounds: seq<Round>, now: seq<Listed>)
    decreases |rounds|
  {
    if rounds == [] then now == list
    else
      var n := |rounds| - 1;
      && Rounds(list, handle, meanwhile, rounds[..n], rounds[n].before)
      && GoodRound(rounds[n], handle)
      && now == ChangedAll(rounds[n].after, handle, meanwhile(n))
  }

  predicate DistinctIds(list: seq<Listed>) {
    forall i, j :: 0 <= i < j < |list| ==> list[i].id != list[j].id
  }

  /** A transfer of the handle that may still have to be completed: it is in flight, or the back end has
      it and it is not marked. */
  predicate Candidate(e: Listed, handle: nat) {
    e.handle == handle && (e.flags.inFlight || (e.taken && !e.flags.disappeared))
  }

  ghost function Candidates(list: seq<Listed>, handle: nat): set<nat> {
    set i | 0 <= i < |list| && Candidate(list[i], handle) :: list[i].id
  }

  ghost function InFlight(list: seq<Listed>, handle: nat): set<nat> {
    set i | 0 <= i < |list| && IsVictim(list[i], handle) :: list[i].id
  }

  function Others(list: seq<Listed>, handle: nat): seq<Listed> {
    if list == [] then []
    else (if list[0].handle == handle then [] else [list[0]]) + Others(list[1..], handle)
  }

  /** What happens meanwhile makes no new candidates and takes none out of flight. */
  lemma ChangeKeepsSets(list: seq<Listed>, handle: nat, c: Change)
    requires DistinctIds(list)
    ensures var list' := Changed(list, handle, c);
            && DistinctIds(list')
            && Candidates(list', handle) <= Candidates(list, handle)
            && InFlight(list, handle) <= InFlight(list', handle)
  {
    if Possible(list, handle, c) {
      match c
      case Enter(pos, e) => EnterKeepsSets(list, handle, pos, e);
      case Withdraw(k) => WithdrawKeepsSets(list, handle, k);
      case NoteInFlight(k) => UpdateKeepsSets(list, handle, k, Changed(list, handle, c)[k]);
      case RequestCancel(k) => UpdateKeepsSets(list, handle, k, Changed(list, handle, c)[k]);
    }
  }

  lemma UpdateKeepsSets(list: seq<Listed>, handle: nat, k: nat, e: Listed)
    requires DistinctIds(list) && k < |list| && e.id == list[k].id
    requires Candidate(e, handle) ==> Candidate(list[k], handle)
    requires IsVictim(list[k], handle) ==> IsVictim(e, handle)
    ensures DistinctIds(list[k := e])
    ensures Candidates(list[k := e], handle) <= Candidates(list, handle)
    ensures InFlight(list, handle) <= InFlight(list[k := e], handle)
  {
    hide Candidate, IsVictim;
    forall i | 0 <= i < |list| && IsVictim(list[i], handle)
      ensures list[i].id in InFlight(list[k := e], handle)
    {
      assert IsVictim(list[k := e][i], handle);
    }
  }

  lemma EnterKeepsSets(list: seq<Listed>, handle: nat, pos: nat, e: Listed)
    requires DistinctIds(list) && Possible(list, handle, Enter(pos, e))
    ensures var list' := Inserted(list, pos, e);
            && DistinctIds(list')
            && Candidates(list', handle) <= Candidates(list, handle)
            && InFlight(list, handle) <= InFlight(list', handle)
  {
    var list' := Inserted(list, pos, e);
    hide Inserted;
    forall i, j | 0 <= i < j < |list'|
      ensures list'[i].id != list'[j].id
    {
      InsertedAt(list, pos, e, i);
      InsertedAt(list, pos, e, j);
    }
    forall i | 0 <= i < |list'| && Candidate(list'[i], handle)
      ensures list'[i].id in Candidates(list, handle)
    {
      InsertedAt(list, pos, e, i);
      assert list'[i] == list[if i < pos then i else i - 1];
    }
    forall i | 0 <= i < |list| && IsVictim(list[i], handle)
      ensures list[i].id in InFlight(list', handle)
    {
      var j := if i < pos then i else i + 1;
      InsertedAt(list, pos, e, j);
      assert IsVictim(list'[j], handle);
    }
  }

  lemma WithdrawKeepsSets(list: seq<Listed>, handle: nat, k: nat)
    requires DistinctIds(list) && k < |list|
    ensures var list' := Without(list, k);
            && DistinctIds(list')
            && Candidates(list', handle) <= Candidates(list, handle) - {list[k].id}
            && InFlight(list, handle) <= InFlight(list', handle) + {list[k].id}
            && (!IsVictim(list[k], handle) ==> InFlight(list, handle) <= InFlight(list', handle))
  {
    var list' := Without(list, k);
    hide Without;
    forall i, j | 0 <= i < j < |list'|
      ensures list'[i].id != list'[j].id
    {
      WithoutAt(list, k, i);
      WithoutAt(list, k, j);
    }
    forall i | 0 <= i < |list'| && Candidate(list'[i], handle)
      ensures list'[i].id in Candidates(list, handle) - {list[k].id}
    {
      WithoutAt(list, k, i);
      assert list'[i] == list[if i < k then i else i + 1];
    }
    forall i | 0 <= i < |list| && IsVictim(list[i], handle) && i != k
      ensures list[i].id in InFlight(list', handle)
    {
      var j := if i < k then i else i - 1;
      WithoutAt(list, k, j);
      assert IsVictim(list'[j], handle);
    }
  }

  lemma {:induction false} ChangesKeepSets(list: seq<Listed>, handle: nat, cs: seq<Change>)
    requires DistinctIds(list)
    ensures var list' := ChangedAll(list, handle, cs);
            && DistinctIds(list')
            && Candidates(list', handle) <= Candidates(list, handle)
            && InFlight(list, handle) <= InFlight(list', handle)
    decreases |cs|
  {
    hide DistinctIds, Changed, Candidates, InFlight;
    if cs != [] {
      ChangeKeepsSets(list, handle, cs[0]);
      ChangesKeepSets(Changed(list, handle, cs[0]), handle, cs[1..]);
    }
  }

  /** A pass of the inner loop makes no candidates and no victims, and leaves other handles alone. */
  lemma SweptKeepsSets(list: seq<Listed>, handle: nat, k: nat, list': seq<Listed>)
    requires Swept(list, handle, k, list') && DistinctIds(list)
    ensures DistinctIds(list')
    ensures Candidates(list', handle) <= Candidates(list, handle) && InFlight(list, handle) == InFlight(list', handle)
  {
    forall i | 0 <= i < |list|
      ensures list'[i].id == list[i].id && IsVictim(list'[i], handle) == IsVictim(list[i], handle)
      ensures Candidate(list'[i], handle) ==> Candidate(list[i], handle)
    {
    }
    hide Candidate, IsVictim;
  }

  lemma {:induction false} SweptKeepsOthers(list: seq<Listed>, handle: nat, k: nat, list': seq<Listed>)
    requires Swept(list, handle, k, list')
    ensures Others(list', handle) == Others(list, handle)
    decreases |list|
  {
    if list != [] {
      var rest, rest' := list[1..], list'[1..];
      assert forall i :: 0 <= i < |rest| ==> rest[i] == list[i + 1] && rest'[i] == list'[i + 1];
      SweptKeepsOthers(rest, handle, if k == 0 then 0 else k - 1, rest');
    }
  }

  lemma {:induction false} RemovalKeepsOthers(list: seq<Listed>, handle: nat, k: nat)
    requires k < |list| && list[k].handle == handle
    ensures Others(Without(list, k), handle) == Others(list, handle)
  {
    if k == 0 {
      assert Without(list, 0) == list[1..];
    } else {
      RemovalKeepsOthers(list[1..], handle, k - 1);
      assert Without(list, k)[0] == list[0] && Without(list, k)[1..] == Without(list[1..], k - 1);
    }
  }

  /** One round: the victim is a candidate no more, all others in flight stay in flight, and transfers
      of other handles are not touched. */
  lemma RoundKeepsSets(r: Round, handle: nat)
    requires GoodRound(r, handle) && DistinctIds(r.before)
    ensures var id := r.id;
            && id in Candidates(r.before, handle)
            && DistinctIds(r.after)
            && Candidates(r.after, handle) <= Candidates(r.before, handle) - {id}
            && InFlight(r.before, handle) <= InFlight(r.after, handle) + {id}
            && Others(r.after, handle) == Others(r.before, handle)
  {
    var swept :| Swept(r.before, handle, r.victim, swept) && r.after == Without(swept, r.victim);
    var id := r.id;
    assert swept[r.victim] == r.before[r.victim] && id in Candidates(r.before, handle);
    SweptKeepsOthers(r.before, handle, r.victim, swept);
    RemovalKeepsOthers(swept, handle, r.victim);
    SweptKeepsSets(r.before, handle, r.victim, swept);
    WithdrawKeepsSets(swept, handle, r.victim);
  }

  /** The identities of the transfers completed with LIBUSB_TRANSFER_NO_DEVICE, in order. */
  function Done(rounds: seq<Round>): (done: seq<nat>)
    ensures |done| == |rounds|
  {
    seq(|rounds|, i requires 0 <= i < |rounds| => rounds[i].id)
  }

  predicate NoRepeats(s: seq<nat>) {
    forall i, j :: 0 <= i < j < |s| ==> s[i] != s[j]
  }

  /** What the sweep has done so far: who is completed was a candidate and is none any more, nobody is
      completed twice, and who was in flight is completed or still in flight. */
  ghost predicate DoneSoFar(list: seq<Listed>, handle: nat, done: seq<nat>, now: seq<Listed>) {
    && DistinctIds(now)
    && NoRepeats(done)
    && (forall id :: id in done ==> id in Candidates(list, handle) && id !in Candidates(now, handle))
    && Candidates(now, handle) <= Candidates(list, handle)
    && (forall id :: id in InFlight(list, handle) ==> id in InFlight(now, handle) || id in done)
  }

  lemma {:induction false} RoundsKeepSets(list: seq<Listed>, handle: nat, meanwhile: nat -> seq<Change>,
                                          rounds: seq<Round>, now: seq<Listed>)
    requires Rounds(list, handle, meanwhile, rounds, now) && DistinctIds(list)
    ensures DoneSoFar(list, handle, Done(rounds), now)
    ensures forall i :: 0 <= i < |rounds| ==> Others(rounds[i].after, handle) == Others(rounds[i].before, handle)
    decreases |rounds|
  {
    hide GoodRound, DistinctIds, Candidates, InFlight, ChangedAll, Others;
    if rounds != [] {
      var n := |rounds| - 1;
      var r := rounds[n];
      RoundsKeepSets(list, handle, meanwhile, rounds[..n], r.before);
      OneMoreDone(list, handle, Done(rounds[..n]), r, now, meanwhile(n));
      assert Done(rounds) == Done(rounds[..n]) + [r.id];
      hide Rounds, DoneSoFar;
      assert forall i :: 0 <= i < n ==> rounds[..n][i] == rounds[i];
    }
  }

  lemma OneMoreDone(list: seq<Listed>, handle: nat, done: seq<nat>, r: Round, now: seq<Listed>, cs: seq<Change>)
    requires DoneSoFar(list, handle, done, r.before) && GoodRound(r, handle)
    requires now == ChangedAll(r.after, handle, cs)
    ensures DoneSoFar(list, handle, done + [r.id], now)
    ensures Others(r.after, handle) == Others(r.before, handle)
  {
    RoundKeepsSets(r, handle);
    ChangesKeepSets(r.after, handle, cs);
    hide GoodRound, DistinctIds, Candidates, InFlight, ChangedAll, Others;
  }

  /** usbi_handle_disconnect. `meanwhile(i)` is what happens to the list between round i and the next
      pass; `done` are the transfers completed with LIBUSB_TRANSFER_NO_DEVICE, in order; `rounds` and
      `now`, the list before the last pass, are the record of the sweep. However
      many callbacks and other threads go on, the sweep ends. */
  method HandleDisconnect(list: seq<Listed>, handle: nat, meanwhile: nat -> seq<Change>)
    returns (left: seq<Listed>, done: seq<nat>, rounds: seq<Round>, now: seq<Listed>)
    requires DistinctIds(list)
    ensures Rounds(list, handle, meanwhile, rounds, now) && done == Done(rounds)
    ensures Swept(now, handle, |now|, left)
  {
    hide Rounds, DistinctIds, Candidates, InFlight, ChangedAll, Others, Without;
    left, done, rounds, now := list, [], [], list;
    NoRounds(list, handle, meanwhile);
    while true
      invariant left == now && DistinctIds(now)
      invariant Rounds(list, handle, meanwhile, rounds, now) && done == Done(rounds)
      decreases |Candidates(now, handle)|
    {
      var swept, found := FindVictim(left, handle);
      if found.None? {
        left := swept;
        break;
      }
      var k := found.value;
      var r := Round(now, k, now[k].id, Without(swept, k));
      AddRound(list, handle, meanwhile, rounds, now, r);
      left := ChangedAll(Without(swept, k), handle, meanwhile(|done|));
      done := done + [swept[k].id];
      FewerCandidates(r, handle, left, meanwhile(|rounds|));
      rounds, now := rounds + [r], left;
    }
  }

  lemma NoRounds(list: seq<Listed>, handle: nat, meanwhile: nat -> seq<Change>)
    ensures Rounds(list, handle, meanwhile, [], list)
  {
  }

  lemma FewerCandidates(r: Round, handle: nat, now: seq<Listed>, cs: seq<Change>)
    requires GoodRound(r, handle) && DistinctIds(r.before) && now == ChangedAll(r.after, handle, cs)
    ensures DistinctIds(now) && |Candidates(now, handle)| < |Candidates(r.before, handle)|
  {
    RoundKeepsSets(r, handle);
    ChangesKeepSets(r.after, handle, cs);
    hide GoodRound, DistinctIds, Candidates, InFlight, ChangedAll, Others;
    var before := Candidates(r.before, handle);
    assert |before - {r.id}| == |before| - 1;
    SubsetCount(Candidates(now, handle), before - {r.id});
  }

  lemma {:induction false} SubsetCount(a: set<nat>, b: set<nat>)
    requires a <= b
    ensures |a| <= |b|
    decreases a
  {
    if a != {} {
      var x :| x in a;
      SubsetCount(a - {x}, b - {x});
    }
  }

  lemma AddRound(list: seq<Listed>, handle: nat, meanwhile: nat -> seq<Change>, rounds: seq<Round>, now: seq<Listed>,
                 r: Round)
    requires Rounds(list, handle, meanwhile, rounds, now) && GoodRound(r, handle) && r.before == now
    ensures Rounds(list, handle, meanwhile, rounds + [r], ChangedAll(r.after, handle, meanwhile(|rounds|)))
    ensures Done(rounds + [r]) == Done(rounds) + [r.id]
  {
    hide GoodRound, ChangedAll;
    assert (rounds + [r])[..|rounds|] == rounds;
  }

  /** What the sweep comes to, whatever happens meanwhile. Every transfer that was in flight for the
      handle is completed, exactly once; no transfer is completed that was not in flight or on its way
      to it, and none twice; what is left of the handle is marked and not in flight, so that its
      submitter takes it off; and no round touches the transfers of other handles. */
  lemma SweepIsExact(list: seq<Listed>, handle: nat, meanwhile: nat -> seq<Change>, rounds: seq<Round>,
                     now: seq<Listed>, left: seq<Listed>)
    requires DistinctIds(list) && Rounds(list, handle, meanwhile, rounds, now) && Swept(now, handle, |now|, left)
    ensures NoRepeats(Done(rounds))
    ensures forall id :: id in InFlight(list, handle) ==> id in Done(rounds)
    ensures forall id :: id in Done(rounds) ==> id in Candidates(list, handle)
    ensures forall i :: 0 <= i < |left| && left[i].handle == handle ==>
              !left[i].flags.inFlight && left[i].flags.disappeared
    ensures forall i :: 0 <= i < |rounds| ==> Others(rounds[i].after, handle) == Others(rounds[i].before, handle)
    ensures Others(left, handle) == Others(now, handle)
  {
    hide Others, Candidates, InFlight, Rounds, DistinctIds, Swept, Done, NoRepeats;
    RoundsKeepSets(list, handle, meanwhile, rounds, now);
    NoVictimsLeft(now, handle, left);
    SweptKeepsOthers(now, handle, |now|, left);
  }

  lemma NoVictimsLeft(now: seq<Listed>, handle: nat, left: seq<Listed>)
    requires Swept(now, handle, |now|, left)
    ensures InFlight(now, handle) == {}
    ensures forall i :: 0 <= i < |left| && left[i].handle == handle ==>
              !left[i].flags.inFlight && left[i].flags.disappeared
  {
  }

  // --------------------------------------------------------- one transfer of the list

  /** The flags of a transfer are those of its life. */
  predicate Agree(l: L.Life, f: Flags) {
    l.inFlight == f.inFlight && l.completed == f.completed && l.cancelling == f.cancelling
    && l.disappeared == f.disappeared
  }

  /** What a cancellation and the sweep do to a transfer of the list is the move of that name in its
      life. */
  lemma MovesMatchFlags(l: L.Life, e: Listed, answer: Code)
    requires Agree(l, e.flags)
    ensures L.Enabled(l, L.Cancel(answer)) ==> Agree(L.Step(l, L.Cancel(answer)), Cancelled(e.flags, answer).0)
    ensures L.Enabled(l, L.SweepMarks) ==>
              !IsVictim(e, e.handle) && Agree(L.Step(l, L.SweepMarks), Marked(e).flags)
    ensures (exists moved :: L.Enabled(l, L.SweepTakes(moved))) ==> IsVictim(e, e.handle)
  {
  }
}
