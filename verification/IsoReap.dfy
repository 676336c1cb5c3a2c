/**
 Submitting and reaping isochronous URBs: results go back to the packet descriptors in order,
 and the transfer is reported when the last accepted URB is back.
 */
module IsoReap {
  import opened Usb
  import opened IsoUrbs
  import opened BulkUrbs

  /** struct libusb_iso_packet_descriptor */
  datatype PacketDesc = PacketDesc(length: Word, actual: nat, status: TransferStatus)

  function Lengths(descs: seq<PacketDesc>): seq<Word> {
    seq(|descs|, j requires 0 <= j < |descs| => descs[j].length)
  }

  /** The status of one packet as the kernel reports it: urb->status plus -EXDEV. */
  datatype PacketStatus = Plain(status: UrbStatus) | EXDev

  datatype PacketResult = PacketResult(status: PacketStatus, actual: nat)

  function PacketVerdict(s: PacketStatus): TransferStatus {
    match s
    case Plain(Ok) | Plain(ENoEnt) | Plain(EConnReset) => Completed
    case Plain(ENoDev) | Plain(EShutdown) => NoDevice
    case Plain(EPipe) => Stall
    case Plain(EOverflow) => Overflow
    case _ => TransferError
  }

  /** Descriptor after its packet came back: the requested length stays. */
  function Filled(d: PacketDesc, p: PacketResult): PacketDesc {
    d.(status := PacketVerdict(p.status), actual := p.actual)
  }

  /** The status of a descriptor tells how its packet went. */
  predicate Tells(status: TransferStatus, s: PacketStatus) {
    && (status == Completed <==> s in {Plain(Ok), Plain(ENoEnt), Plain(EConnReset)})
    && (status == NoDevice <==> s in {Plain(ENoDev), Plain(EShutdown)})
    && (status == Stall <==> s == Plain(EPipe))
    && (status == Overflow <==> s == Plain(EOverflow))
    && (status == TransferError <==>
          s !in {Plain(Ok), Plain(ENoEnt), Plain(EConnReset), Plain(ENoDev), Plain(EShutdown), Plain(EPipe),
                 Plain(EOverflow)})
  }

  /** Field by field: the bytes that arrived, how they did, and the requested length as it was. */
  predicate Carries(d: PacketDesc, length: Word, p: PacketResult) {
    d.actual == p.actual && d.length == length && Tells(d.status, p.status)
  }

  lemma FilledCarries(d: PacketDesc, p: PacketResult)
    ensures Carries(Filled(d, p), d.length, p)
  {
  }

  function FillFrom(descs: seq<PacketDesc>, from: nat, results: seq<PacketResult>): (r: seq<PacketDesc>)
    requires from + |results| <= |descs|
    ensures |r| == |descs|
    ensures forall j :: 0 <= j < |descs| ==>
              r[j] == if from <= j < from + |results| then Filled(descs[j], results[j - from]) else descs[j]
  {
    seq(|descs|, j requires 0 <= j < |descs| =>
      if from <= j < from + |results| then Filled(descs[j], results[j - from]) else descs[j])
  }

  function UrbVerdict(s: UrbStatus): TransferStatus {
    match s
    case Ok | ENoEnt | EConnReset => Completed
    case EShutdown => NoDevice
    case _ => TransferError
  }

  /** struct linux_transfer_priv of an isochronous transfer. */
  datatype IsoEngine = IsoEngine(numUrbs: nat, numRetired: nat, action: ReapAction, packetOffset: nat, live: bool)

  /** The code for a submission whose first URB is refused. */
  function SubmitCode(errno: Option<SubmitErrno>): Code {
    match errno
    case Some(NoDev) => ErrorNoDevice
    case Some(InvalidArg) => ErrorInvalidParam
    case _ => ErrorIo
  }

  /** The engine after the kernel took `accepted` of `n` URBs. */
  function IsoSubmitted(n: nat, accepted: nat): IsoEngine
    requires accepted <= n
  {
    IsoEngine(n, if accepted == 0 then 0 else n - accepted,
              if accepted == 0 || accepted == n then Normal else SubmitFailed, 0, accepted > 0)
  }

  function ReapIso(e: IsoEngine, idx: nat, packets: nat, s: UrbStatus): (IsoEngine, Option<Report>) {
    var r := e.(numRetired := e.numRetired + 1, packetOffset := e.packetOffset + packets);
    if e.action != Normal then
      if r.numRetired != r.numUrbs then (r, None)
      else (r.(live := false), Some(if r.action == Cancelled then Cancellation else Completion(TransferError)))
    else if idx == e.numUrbs - 1 then (r.(live := false), Some(Completion(UrbVerdict(s))))
    else (r, None)
  }

  lemma {:induction false} CountPositive(lens: seq<Word>, thisLen: int, n: nat)
    ensures CountFrom(lens, thisLen, n).Some? ==> CountFrom(lens, thisLen, n).value >= n
    decreases |lens|
  {
    if lens != [] {
      if lens[0] > (MAX_ISO_BUFFER_LENGTH - thisLen) % TWO_TO_THE_32 {
        CountPositive(lens[1..], ToInt(lens[0]), n + 1);
      } else {
        CountPositive(lens[1..], ToInt(thisLen + lens[0]), n);
      }
    }
  }

  class IsoTransfer {
    const descs: array<PacketDesc>
    var numUrbs: nat
    var numRetired: nat
    var action: ReapAction
    var packetOffset: nat
    var live: bool

    ghost function State(): IsoEngine
      reads this
    {
      IsoEngine(numUrbs, numRetired, action, packetOffset, live)
    }

    constructor (descs: array<PacketDesc>)
      ensures this.descs == descs && !live
    {
      this.descs := descs;
      numUrbs, numRetired, action, packetOffset, live := 0, 0, Normal, 0, false;
    }

    /** submit_iso_transfer; `kernel(i)` is the errno of submitting URB i, None for success. The first
        `discards` of the accepted URBs are discarded. */
    method Submit(kernel: nat -> Option<SubmitErrno>) returns (r: Code, handed: seq<IsoUrb>, discards: nat)
      modifies this
      ensures match Count(Lengths(descs[..]))
              case None => r == ErrorInvalidParam && handed == [] && State() == old(State())
              case Some(n) =>
                && |handed| <= n
                && handed == Pack(Lengths(descs[..]), n, 0)[..|handed|]
                && (forall i :: 0 <= i < |handed| ==> kernel(i).None?)
                && (|handed| < n ==> kernel(|handed|).Some?)
                && State() == IsoSubmitted(n, |handed|)
                && r == (if |handed| > 0 then Success
                         else if kernel(0) == Some(NoDev) then ErrorNoDevice
                         else if kernel(0) == Some(InvalidArg) then ErrorInvalidParam
                         else ErrorIo)
      ensures discards == (if action == SubmitFailed && handed != [] then |handed| else 0)
    {
      handed, discards := [], 0;
      var lens := Lengths(descs[..]);
      var count := CountUrbs(lens);
      if count.None? {
        return ErrorInvalidParam, [], 0;
      }
      var n := count.value;
      CountPositive(lens, 0, 1);
      var urbs := PackUrbs(lens, n);
      numUrbs, numRetired, action, packetOffset, live := n, 0, Normal, 0, true;
      var i := 0;
      while i < n
        invariant 0 <= i <= n && handed == urbs[..i]
        invariant forall k :: 0 <= k < i ==> kernel(k).None?
        invariant State() == IsoEngine(n, 0, Normal, 0, true)
      {
        if kernel(i).Some? {
          if i == 0 {
            live := false;
            return SubmitCode(kernel(i)), handed, 0;
          }
          action := SubmitFailed;
          numRetired := n - i;
          return Success, handed, i;
        }
        handed := handed + [urbs[i]];
        i := i + 1;
      }
      return Success, handed, 0;
    }

    /** handle_iso_completion for the URB at index idx. */
    method HandleCompletion(idx: nat, results: seq<PacketResult>, s: UrbStatus) returns (report: Option<Report>)
      requires packetOffset + |results| <= descs.Length
      modifies this, descs
      ensures descs[..] == FillFrom(old(descs[..]), old(packetOffset), results)
      ensures forall k :: 0 <= k < |results| ==>
                Carries(descs[old(packetOffset) + k], old(descs[..])[old(packetOffset) + k].length, results[k])
      ensures forall j :: 0 <= j < descs.Length && !(old(packetOffset) <= j < old(packetOffset) + |results|) ==>
                descs[j] == old(descs[..])[j]
      ensures (State(), report) == ReapIso(old(State()), idx, |results|, s)
    {
      hide Carries, Filled, UrbVerdict;
      report := None;
      var i := 0;
      while i < |results|
        invariant 0 <= i <= |results|
        invariant packetOffset == old(packetOffset) + i
        invariant descs[..] == FillFrom(old(descs[..]), old(packetOffset), results[..i])
        invariant State() == old(State()).(packetOffset := packetOffset)
      {
        descs[packetOffset] := Filled(descs[packetOffset], results[i]);
        packetOffset := packetOffset + 1;
        i := i + 1;
      }
      assert results[..i] == results;
      forall k | 0 <= k < |results|
        ensures Carries(descs[old(packetOffset) + k], old(descs[..])[old(packetOffset) + k].length, results[k])
      {
        FilledCarries(old(descs[..])[old(packetOffset) + k], results[k]);
      }
      numRetired := numRetired + 1;
      if action != Normal {
        if numRetired == numUrbs {
          live := false;
          report := Some(if action == Cancelled then Cancellation else Completion(TransferError));
        }
        return;
      }
      var status := UrbVerdict(s);
      if idx == numUrbs - 1 {
        live := false;
        report := Some(Completion(status));
      }
    }
  }

  // ------------------------------------------------------------------ whole runs

  /** A transfer with its history: the URBs the kernel accepted, and for those that are back, in
      order, the packet results and the status they brought. */
  datatype IsoWorld = IsoWorld(e: IsoEngine, descs: seq<PacketDesc>, handed: seq<IsoUrb>,
                               results: seq<seq<PacketResult>>, statuses: seq<UrbStatus>, reports: seq<Report>)
  {
    function Reaped(): nat { |results| }
  }

  datatype IsoEvent = ReapIsoNext(results: seq<PacketResult>, s: UrbStatus) | CancelIso

  /** The URBs are those packed from the descriptors, as far as the kernel accepted them. */
  ghost predicate Packed(handed: seq<IsoUrb>, n: nat, descs0: seq<PacketDesc>) {
    && Count(Lengths(descs0)) == Some(n)
    && 1 <= |handed| <= n
    && handed == Pack(Lengths(descs0), n, 0)[..|handed|]
  }

  /** What the user is told, once all accepted URBs are back. */
  function FinalReport(action: ReapAction, last: UrbStatus): Report {
    match action
    case Normal => Completion(UrbVerdict(last))
    case Cancelled => Cancellation
    case _ => Completion(TransferError)
  }

  ghost predicate IsoInv(w: IsoWorld, descs0: seq<PacketDesc>) {
    && Packed(w.handed, w.e.numUrbs, descs0)
    && EngineOk(w)
    && ResultsFit(w.results, w.handed)
    && w.e.packetOffset == |Flatten(w.results)| <= |descs0|
    && w.descs == FillFrom(descs0, 0, Flatten(w.results))
  }

  predicate EngineOk(w: IsoWorld) {
    && |w.statuses| == w.Reaped() <= |w.handed| <= w.e.numUrbs
    && w.e.numRetired == w.e.numUrbs - |w.handed| + w.Reaped()
    && (w.e.action == Normal ==> |w.handed| == w.e.numUrbs)
    && w.e.action in {Normal, SubmitFailed, Cancelled}
    && w.e.live == (w.Reaped() < |w.handed|)
    && w.reports == if w.e.live || w.statuses == [] then []
                    else [FinalReport(w.e.action, w.statuses[|w.statuses| - 1])]
  }

  /** Each URB that is back brought one result for each of its packets. */
  ghost predicate ResultsFit(results: seq<seq<PacketResult>>, handed: seq<IsoUrb>) {
    && |results| <= |handed|
    && forall i :: 0 <= i < |results| ==> |results[i]| == |handed[i].lengths|
  }

  /** The kernel returns accepted URBs in order; a cancellation may be granted at any time before the
      end. */
  ghost predicate IsoEnabled(w: IsoWorld, ev: IsoEvent) {
    w.Reaped() < |w.handed| &&
    (ev.ReapIsoNext? ==> |ev.results| == |w.handed[w.Reaped()].lengths|)
  }

  // ------------------------------------------------ where the packets of a URB are

  lemma {:induction false} PacketsPrefix(urbs: seq<IsoUrb>, k: nat)
    requires k <= |urbs|
    ensures Packets(urbs[..k]) <= Packets(urbs)
  {
    if k > 0 {
      PacketsPrefix(urbs[1..], k - 1);
      assert urbs[..k][1..] == urbs[1..][..k - 1];
    }
  }

  lemma HandedArePrefix(handed: seq<IsoUrb>, n: nat, descs0: seq<PacketDesc>)
    requires Packed(handed, n, descs0)
    ensures Packets(handed) <= Lengths(descs0)
  {
    PackIsPrefix(Lengths(descs0), n, 0);
    PacketsPrefix(Pack(Lengths(descs0), n, 0), |handed|);
  }

  lemma {:induction false} ResultsCount(results: seq<seq<PacketResult>>, handed: seq<IsoUrb>)
    requires ResultsFit(results, handed)
    ensures |Flatten(results)| == |Packets(handed[..|results|])|
    decreases |results|
  {
    if results != [] {
      assert forall i :: 0 <= i < |results| - 1 ==>
        results[1..][i] == results[i + 1] && handed[1..][i] == handed[i + 1];
      ResultsCount(results[1..], handed[1..]);
      assert handed[..|results|][1..] == handed[1..][..|results| - 1];
    }
  }

  lemma {:induction false} FlattenAt(parts: seq<seq<PacketResult>>, i: nat, k: nat)
    requires i < |parts| && k < |parts[i]|
    ensures |Flatten(parts[..i])| + k < |Flatten(parts)|
    ensures Flatten(parts)[|Flatten(parts[..i])| + k] == parts[i][k]
  {
    if i > 0 {
      FlattenAt(parts[1..], i - 1, k);
      assert parts[..i][1..] == parts[1..][..i - 1];
    }
  }

  lemma ResultsHaveRoom(w: IsoWorld, descs0: seq<PacketDesc>)
    requires IsoInv(w, descs0) && w.Reaped() < |w.handed|
    ensures w.e.packetOffset + |w.handed[w.Reaped()].lengths| <= |w.descs|
  {
    ResultsCount(w.results, w.handed);
    PacketsSplit(w.handed, w.Reaped());
    HandedArePrefix(w.handed, w.e.numUrbs, descs0);
  }

  // ------------------------------------------------------------------ the steps

  ghost function IsoStep(w: IsoWorld, ev: IsoEvent, descs0: seq<PacketDesc>): IsoWorld
    requires IsoInv(w, descs0) && IsoEnabled(w, ev)
  {
    match ev
    case CancelIso => w.(e := w.e.(action := Cancelled))
    case ReapIsoNext(results, s) =>
      ResultsHaveRoom(w, descs0);
      var (e, report) := ReapIso(w.e, w.Reaped(), |results|, s);
      IsoWorld(e, FillFrom(w.descs, w.e.packetOffset, results), w.handed, w.results + [results], w.statuses + [s],
               if report.Some? then w.reports + [report.value] else w.reports)
  }

  lemma FillFromAppend(descs0: seq<PacketDesc>, a: seq<PacketResult>, b: seq<PacketResult>)
    requires |a| + |b| <= |descs0|
    ensures FillFrom(FillFrom(descs0, 0, a), |a|, b) == FillFrom(descs0, 0, a + b)
  {
  }

  lemma IsoInvKept(w: IsoWorld, ev: IsoEvent, descs0: seq<PacketDesc>)
    requires IsoInv(w, descs0) && IsoEnabled(w, ev)
    ensures IsoInv(IsoStep(w, ev, descs0), descs0)
  {
    EngineKept(w, ev, descs0);
    if ev.ReapIsoNext? {
      ResultsHaveRoom(w, descs0);
      FlattenAppend(w.results, ev.results);
      FillFromAppend(descs0, Flatten(w.results), ev.results);
    }
    hide Packed, EngineOk, Flatten, FillFrom;
  }

  lemma EngineKept(w: IsoWorld, ev: IsoEvent, descs0: seq<PacketDesc>)
    requires IsoInv(w, descs0) && IsoEnabled(w, ev)
    ensures EngineOk(IsoStep(w, ev, descs0))
  {
    hide Packed, ResultsFit, Flatten, FillFrom, UrbVerdict;
  }

  /** Every submission that the kernel accepts in part or in full starts in the invariant. */
  lemma IsoSubmissionStarts(descs: seq<PacketDesc>, accepted: nat)
    requires Count(Lengths(descs)).Some? && 1 <= accepted <= Count(Lengths(descs)).value
    ensures var n := Count(Lengths(descs)).value;
            var handed := Pack(Lengths(descs), n, 0)[..accepted];
            IsoInv(IsoWorld(IsoSubmitted(n, accepted), descs, handed, [], [], []), descs)
  {
    assert FillFrom(descs, 0, []) == descs;
  }

  ghost predicate IsoRunEnabled(w: IsoWorld, evs: seq<IsoEvent>, descs0: seq<PacketDesc>)
    requires IsoInv(w, descs0)
    decreases |evs|
  {
    evs != [] ==>
      && IsoEnabled(w, evs[0])
      && (IsoInvKept(w, evs[0], descs0); IsoRunEnabled(IsoStep(w, evs[0], descs0), evs[1..], descs0))
  }

  ghost function IsoRun(w: IsoWorld, evs: seq<IsoEvent>, descs0: seq<PacketDesc>): (w': IsoWorld)
    requires IsoInv(w, descs0) && IsoRunEnabled(w, evs, descs0)
    ensures IsoInv(w', descs0)
    decreases |evs|
  {
    if evs == [] then w
    else
      IsoInvKept(w, evs[0], descs0);
      IsoRun(IsoStep(w, evs[0], descs0), evs[1..], descs0)
  }

  /** What the reaps of a run brought, in order. */
  function Brought(evs: seq<IsoEvent>): seq<seq<PacketResult>> {
    if evs == [] then []
    else (if evs[0].ReapIsoNext? then [evs[0].results] else []) + Brought(evs[1..])
  }

  function Statuses(evs: seq<IsoEvent>): (r: seq<UrbStatus>)
    ensures |r| == |Brought(evs)|
  {
    if evs == [] then []
    else (if evs[0].ReapIsoNext? then [evs[0].s] else []) + Statuses(evs[1..])
  }

  /** From `w` to `w'` these results and statuses came in, and maybe a cancellation. */
  ghost predicate Remembers(w: IsoWorld, w': IsoWorld, results: seq<seq<PacketResult>>, statuses: seq<UrbStatus>,
                            cancelled: bool)
  {
    && w'.handed == w.handed && w'.e.numUrbs == w.e.numUrbs
    && w'.results == w.results + results
    && w'.statuses == w.statuses + statuses
    && w'.e.action == if cancelled then Cancelled else w.e.action
  }

  lemma RemembersBoth(w: IsoWorld, w1: IsoWorld, w2: IsoWorld, r1: seq<seq<PacketResult>>, s1: seq<UrbStatus>, c1: bool,
                      r2: seq<seq<PacketResult>>, s2: seq<UrbStatus>, c2: bool)
    requires Remembers(w, w1, r1, s1, c1) && Remembers(w1, w2, r2, s2, c2)
    ensures Remembers(w, w2, r1 + r2, s1 + s2, c1 || c2)
  {
    assert w.results + r1 + r2 == w.results + (r1 + r2);
    assert w.statuses + s1 + s2 == w.statuses + (s1 + s2);
  }

  lemma StepRemembers(w: IsoWorld, ev: IsoEvent, descs0: seq<PacketDesc>)
    requires IsoInv(w, descs0) && IsoEnabled(w, ev)
    ensures Remembers(w, IsoStep(w, ev, descs0), if ev.ReapIsoNext? then [ev.results] else [],
                      if ev.ReapIsoNext? then [ev.s] else [], ev == CancelIso)
  {
  }

  /** A run leaves the URBs alone, remembers what it brought, and is cancelled only by a cancellation. */
  lemma {:induction false} RunRemembers(w: IsoWorld, evs: seq<IsoEvent>, descs0: seq<PacketDesc>)
    requires IsoInv(w, descs0) && IsoRunEnabled(w, evs, descs0)
    ensures Remembers(w, IsoRun(w, evs, descs0), Brought(evs), Statuses(evs), CancelIso in evs)
    decreases |evs|
  {
    if evs == [] {
      assert w.results + [] == w.results && w.statuses + [] == w.statuses;
    } else {
      var ev, rest := evs[0], evs[1..];
      IsoInvKept(w, ev, descs0);
      StepRemembers(w, ev, descs0);
      hide IsoInv, IsoStep, IsoEnabled, Remembers;
      var w1 := IsoStep(w, ev, descs0);
      RunRemembers(w1, rest, descs0);
      assert CancelIso in evs <==> ev == CancelIso || CancelIso in rest;
      RemembersBoth(w, w1, IsoRun(w1, rest, descs0), if ev.ReapIsoNext? then [ev.results] else [],
                    if ev.ReapIsoNext? then [ev.s] else [], ev == CancelIso,
                    Brought(rest), Statuses(rest), CancelIso in rest);
    }
  }

  // ------------------------------------------------------------------ the results

  /** Packet k of URB i, and the descriptor it was packed from. */
  ghost predicate PacketLanded(w: IsoWorld, descs0: seq<PacketDesc>, i: nat, k: nat)
    requires i < |w.results| <= |w.handed| && k < |w.results[i]| == |w.handed[i].lengths|
  {
    var p := |Packets(w.handed[..i])| + k;
    && p < |descs0| == |w.descs|
    && descs0[p].length == w.handed[i].lengths[k]
    && Carries(w.descs[p], w.handed[i].lengths[k], w.results[i][k])
  }

  lemma PacketLands(w: IsoWorld, descs0: seq<PacketDesc>, i: nat, k: nat)
    requires IsoInv(w, descs0) && i < |w.results| && k < |w.handed[i].lengths|
    ensures PacketLanded(w, descs0, i, k)
  {
    hide EngineOk, Filled, Carries, Count, Pack;
    var lens, front := Lengths(descs0), Packets(w.handed[..i]);
    HandedArePrefix(w.handed, w.e.numUrbs, descs0);
    hide Packed;
    PacketsSplit(w.handed, i);
    assert Packets(w.handed)[|front| + k] == w.handed[i].lengths[k] == lens[|front| + k];
    FlattenAt(w.results, i, k);
    ResultsFront(w.results, w.handed, i);
    FilledCarries(descs0[|front| + k], w.results[i][k]);
  }

  lemma ResultsFront(results: seq<seq<PacketResult>>, handed: seq<IsoUrb>, i: nat)
    requires ResultsFit(results, handed) && i <= |results|
    ensures |Flatten(results[..i])| == |Packets(handed[..i])|
  {
    ResultsCount(results[..i], handed);
  }

  /** The main result of reaping. Start from what submit_iso_transfer packed from the descriptors, with
      any number of its URBs accepted. After any run, the results of every URB that is back are in the
      descriptors its packets were packed from, packet by packet, with the requested length as it was;
      every other descriptor is untouched; and the transfer is reported once, when the last accepted
      URB is back. */
  lemma IsoRunCorrect(descs: seq<PacketDesc>, accepted: nat, evs: seq<IsoEvent>)
    requires Count(Lengths(descs)).Some? && 1 <= accepted <= Count(Lengths(descs)).value
    requires IsoRunEnabled(IsoStart(descs, accepted), evs, descs)
    ensures var w, results := IsoRun(IsoStart(descs, accepted), evs, descs), Brought(evs);
            && w.handed == Pack(Lengths(descs), Count(Lengths(descs)).value, 0)[..accepted]
            && w.results == results
            && ResultsFit(results, w.handed)
            && |w.descs| == |descs|
            && (forall i, k :: 0 <= i < |results| && 0 <= k < |results[i]| ==> PacketLanded(w, descs, i, k))
            && (forall j :: |Packets(w.handed[..|results|])| <= j < |descs| ==> w.descs[j] == descs[j])
            && |w.reports| == if |results| == accepted then 1 else 0
  {
    var start := IsoStart(descs, accepted);
    RunRemembers(start, evs, descs);
    var w := IsoRun(start, evs, descs);
    assert w.results == Brought(evs);
    hide Brought, IsoRun, IsoRunEnabled;
    forall i, k | 0 <= i < |w.results| && 0 <= k < |w.results[i]|
      ensures PacketLanded(w, descs, i, k)
    {
      PacketLands(w, descs, i, k);
    }
    ResultsCount(w.results, w.handed);
    hide PacketLanded;
  }

  ghost function IsoStart(descs: seq<PacketDesc>, accepted: nat): (w: IsoWorld)
    requires Count(Lengths(descs)).Some? && 1 <= accepted <= Count(Lengths(descs)).value
    ensures IsoInv(w, descs)
  {
    IsoSubmissionStarts(descs, accepted);
    var n := Count(Lengths(descs)).value;
    IsoWorld(IsoSubmitted(n, accepted), descs, Pack(Lengths(descs), n, 0)[..accepted], [], [], [])
  }

  /** When every packet fits and all URBs were accepted and are back, every descriptor is filled. */
  lemma AllDescriptorsFilled(descs: seq<PacketDesc>, accepted: nat, evs: seq<IsoEvent>)
    requires AllFit(Lengths(descs)) && Count(Lengths(descs)) == Some(accepted) && accepted > 0
    requires IsoRunEnabled(IsoStart(descs, accepted), evs, descs)
    requires |Brought(evs)| == accepted
    ensures var w, all := IsoRun(IsoStart(descs, accepted), evs, descs), Flatten(Brought(evs));
            && |all| == |w.descs| == |descs|
            && forall j :: 0 <= j < |descs| ==> Carries(w.descs[j], descs[j].length, all[j])
  {
    var lens, start := Lengths(descs), IsoStart(descs, accepted);
    RunRemembers(start, evs, descs);
    var w := IsoRun(start, evs, descs);
    assert w.results == Brought(evs);
    hide Brought, IsoRun, IsoRunEnabled;
    CountIsGroups(lens);
    PackUsesAll(lens, accepted, 0);
    ResultsCount(w.results, w.handed);
    hide Groups, Pack, Flatten, Carries, Filled;
    assert w.handed == Pack(lens, accepted, 0);
    assert w.handed[..accepted] == w.handed;
    forall j | 0 <= j < |descs|
      ensures Carries(w.descs[j], descs[j].length, Flatten(w.results)[j])
    {
      FilledCarries(descs[j], Flatten(w.results)[j]);
    }
  }

  /** What is reported in the end: "cancelled" if a cancellation was granted; an error if the kernel
      refused some URBs; and otherwise the status of the last URB, whatever the earlier ones said. */
  lemma IsoReport(descs: seq<PacketDesc>, accepted: nat, evs: seq<IsoEvent>)
    requires Count(Lengths(descs)).Some? && 1 <= accepted <= Count(Lengths(descs)).value
    requires IsoRunEnabled(IsoStart(descs, accepted), evs, descs)
    requires |Brought(evs)| == accepted
    ensures var n, w := Count(Lengths(descs)).value, IsoRun(IsoStart(descs, accepted), evs, descs);
            var last := Statuses(evs)[accepted - 1];
            if CancelIso in evs then w.reports == [Cancellation]
            else if accepted < n then w.reports == [Completion(TransferError)]
            else
              && (w.reports == [Completion(Completed)] <==> last in {Ok, ENoEnt, EConnReset})
              && (w.reports == [Completion(NoDevice)] <==> last == EShutdown)
              && (w.reports == [Completion(TransferError)] <==> last !in {Ok, ENoEnt, EConnReset, EShutdown})
  {
    var start := IsoStart(descs, accepted);
    RunRemembers(start, evs, descs);
    var w := IsoRun(start, evs, descs);
    hide Packed, ResultsFit, Brought, Statuses, IsoRun, IsoRunEnabled, FillFrom, Flatten;
    assert EngineOk(w);
  }
}
