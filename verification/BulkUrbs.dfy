/**
 The bulk and interrupt half of the Linux back end: a transfer is split over URBs,
 the URBs are handed to the kernel, and a small state machine gathers what comes back.
 */
module BulkUrbs {
  import opened Usb

  const MAX_BULK_BUFFER_LENGTH := 16384

  // ---------------------------------------------------------------- splitting

  /** The USBFS_CAP_* bits the split depends on. */
  datatype Caps = Caps(scatterGather: bool, continuation: bool, noSizeLimit: bool, zeroPacket: bool)

  function BlockSize(caps: Caps, length: nat): (blk: nat)
    ensures blk > 0
  {
    var whole := if length == 0 then 1 else length;
    if caps.scatterGather then whole
    else if caps.continuation then MAX_BULK_BUFFER_LENGTH
    else if caps.noSizeLimit then whole
    else MAX_BULK_BUFFER_LENGTH
  }

  predicate UsesContinuation(caps: Caps) {
    !caps.scatterGather && caps.continuation
  }

  /** One block after the other until the transfer is covered; an empty transfer takes one URB, too. */
  function UrbCount(length: nat, blk: nat): (n: nat)
    requires blk > 0
    ensures n >= 1
  {
    if length <= blk then 1 else 1 + UrbCount(length - blk, blk)
  }

  /** Where the slice of URB i starts: i blocks into the transfer, or at its end. */
  function Offset(i: nat, length: nat, blk: nat): (o: nat)
    ensures o <= length
  {
    if i == 0 then 0
    else if Offset(i - 1, length, blk) + blk <= length then Offset(i - 1, length, blk) + blk
    else length
  }

  /** The slice of a URB goes on to where the next one starts. */
  function UrbLength(i: nat, length: nat, blk: nat): nat {
    assert Offset(i, length, blk) <= Offset(i + 1, length, blk);
    Offset(i + 1, length, blk) - Offset(i, length, blk)
  }

  lemma {:induction false} OffsetMono(i: nat, j: nat, length: nat, blk: nat)
    requires i <= j
    ensures Offset(i, length, blk) <= Offset(j, length, blk)
    decreases j
  {
    if i < j {
      OffsetMono(i, j - 1, length, blk);
    }
  }

  /** Without the first block everything is one URB earlier. */
  lemma {:induction false} OffsetShift(i: nat, length: nat, blk: nat)
    requires blk <= length
    ensures Offset(i + 1, length, blk) == blk + Offset(i, length - blk, blk)
  {
    if i > 0 {
      OffsetShift(i - 1, length, blk);
    }
  }

  /** The slices of the URBs follow each other without gap, none is empty unless the transfer is, none
      is over the block size, and together they are the transfer. */
  lemma {:induction false} UrbsTile(i: nat, length: nat, blk: nat)
    requires blk > 0 && i < UrbCount(length, blk)
    ensures Offset(i + 1, length, blk) == Offset(i, length, blk) + UrbLength(i, length, blk)
    ensures Offset(UrbCount(length, blk), length, blk) == length
    ensures UrbLength(i, length, blk) <= blk
    ensures length > 0 ==> UrbLength(i, length, blk) > 0
    decreases length
  {
    if length > blk {
      var n := UrbCount(length - blk, blk);
      UrbsTile(if i == 0 then 0 else i - 1, length - blk, blk);
      assert UrbCount(length, blk) == n + 1;
      OffsetShift(n, length, blk);
      OffsetShift(i, length, blk);
      if i > 0 {
        OffsetShift(i - 1, length, blk);
        hide Offset;
      }
    }
  }

  // What the code computes by division and multiplication.

  lemma {:induction false} CountIsQuotient(length: nat, blk: nat)
    requires blk > 0
    ensures UrbCount(length, blk) == if length == 0 then 1 else length / blk + (if length % blk > 0 then 1 else 0)
    decreases length
  {
    if length > blk {
      CountIsQuotient(length - blk, blk);
      QuotientShift(length, blk);
    } else if length < blk {
      QuotientOfSmall(length, blk);
    }
  }

  lemma QuotientShift(length: nat, blk: nat)
    requires 0 < blk <= length
    ensures length / blk == (length - blk) / blk + 1 && length % blk == (length - blk) % blk
  {
    var q, m := (length - blk) / blk, (length - blk) % blk;
    assert (q + 1) * blk == q * blk + blk;
    QuotientIs(length, blk, q + 1, m);
  }

  lemma QuotientIs(length: nat, blk: nat, q: nat, m: nat)
    requires blk > 0 && length == q * blk + m && m < blk
    ensures length / blk == q && length % blk == m
  {
    var d := length / blk - q;
    assert d * blk == (length / blk) * blk - q * blk == m - length % blk;
    assert d >= 1 ==> d * blk >= blk;
    assert d <= -1 ==> d * blk <= (-1) * blk;
  }

  lemma QuotientOfSmall(length: nat, blk: nat)
    requires length < blk
    ensures length / blk == 0 && length % blk == length
  {
    QuotientIs(length, blk, 0, length);
  }

  lemma {:induction false} OffsetIsProduct(i: nat, length: nat, blk: nat)
    requires i * blk <= length
    ensures Offset(i, length, blk) == i * blk
  {
    if i > 0 {
      assert i * blk == (i - 1) * blk + blk;
      OffsetIsProduct(i - 1, length, blk);
    }
  }

  lemma DivMod(length: nat, blk: nat)
    requires blk > 0
    ensures length == (length / blk) * blk + length % blk && 0 <= length % blk < blk
  {
  }

  /** The whole blocks: as many as the quotient, each a product away from the start. */
  lemma WholeBlock(i: nat, length: nat, blk: nat)
    requires blk > 0 && i < length / blk
    ensures Offset(i, length, blk) == i * blk && UrbLength(i, length, blk) == blk
  {
    hide Offset;
    DivMod(length, blk);
    assert (i + 1) * blk == i * blk + blk;
    MulMono(i + 1, length / blk, blk);
    OffsetIsProduct(i, length, blk);
    OffsetIsProduct(i + 1, length, blk);
  }

  /** What is left over after `q` whole blocks. */
  lemma LastSlice(q: nat, m: nat, length: nat, blk: nat)
    requires 0 < m < blk && length == q * blk + m && UrbCount(length, blk) == q + 1
    ensures Offset(q, length, blk) == q * blk && UrbLength(q, length, blk) == m
  {
    hide Offset, UrbCount, UrbLength;
    UrbsTile(q, length, blk);
    OffsetIsProduct(q, length, blk);
  }

  lemma EmptySlice(blk: nat)
    ensures Offset(0, 0, blk) == 0 && UrbLength(0, 0, blk) == 0
  {
  }

  /** Slice i in the code's terms: it starts i blocks in and is a whole block, but for what the last
      one leaves over. */
  lemma SliceByProduct(i: nat, length: nat, blk: nat)
    requires blk > 0 && i < UrbCount(length, blk)
    ensures Offset(i, length, blk) == i * blk
    ensures UrbLength(i, length, blk) ==
            if length == 0 then 0
            else if i == UrbCount(length, blk) - 1 && length % blk > 0 then length % blk
            else blk
  {
    hide Offset, UrbCount, UrbLength;
    CountIsQuotient(length, blk);
    if length == 0 {
      EmptySlice(blk);
    } else if i < length / blk {
      WholeBlock(i, length, blk);
    } else {
      DivMod(length, blk);
      LastSlice(length / blk, length % blk, length, blk);
    }
  }

  lemma MulMono(i: nat, j: nat, blk: nat)
    requires i <= j
    ensures i * blk <= j * blk
  {
  }

  // ------------------------------------------------------------ engine state

  /** struct usbfs_urb, as far as splitting sets it. */
  datatype Urb = Urb(offset: nat, length: nat, shortNotOk: bool, continuation: bool, zeroPacket: bool)

  datatype ReapAction = Normal | SubmitFailed | Cancelled | CompletedEarly | Failed

  /** struct linux_transfer_priv, with the two lengths that fix the split.
      `live` says that `urbs` is not NULL. */
  datatype Engine = Engine(
    length: nat, blk: nat, interrupt: bool,
    numUrbs: nat, numRetired: nat,
    action: ReapAction, status: TransferStatus,
    transferred: nat, live: bool)

  /** What a failed IOCTL_USBFS_SUBMITURB leaves in errno. */
  datatype SubmitErrno = NoDev | RemoteIO | InvalidArg | OtherErrno

  /** urb->status as the kernel reports it. */
  datatype UrbStatus =
    | Ok | ERemoteIO | ENoEnt | EConnReset | ENoDev | EShutdown | EPipe | EOverflow
    | ETime | EProto | EIlSeq | EComm | ENoSr | Unrecognised(code: int)

  datatype UrbResult = UrbResult(status: UrbStatus, actual: nat)

  /** The call that ends a transfer: usbi_handle_transfer_completion with a status, or
      usbi_handle_transfer_cancellation. */
  datatype Report = Completion(status: TransferStatus) | Cancellation

  predicate WellSplit(e: Engine) {
    && e.blk > 0
    && e.numUrbs == UrbCount(e.length, e.blk)
  }

  // ---------------------------------------------------- specification functions

  /** The engine after the kernel accepted the first `accepted` URBs and, if that is not all
      of them, refused the next one with `errno`. */
  function Submitted(length: nat, blk: nat, interrupt: bool, accepted: nat, errno: SubmitErrno): Engine
    requires blk > 0 && accepted <= UrbCount(length, blk)
  {
    var n := UrbCount(length, blk);
    Engine(length, blk, interrupt, n, if accepted == 0 then 0 else n - accepted,
           if accepted == n || accepted == 0 then Normal
           else if errno == RemoteIO then CompletedEarly
           else SubmitFailed,
           Completed, 0, accepted > 0)
  }

  function Retire(e: Engine, c: UrbResult): Engine {
    e.(numRetired := e.numRetired + 1, transferred := e.transferred + c.actual)
  }

  function Finish(e: Engine): (Engine, Option<Report>) {
    (e.(live := false), Some(if e.action == Cancelled then Cancellation else Completion(e.status)))
  }

  /** What the status of a URB does to a transfer that was going well: the new action, the
      new reap status, and whether the remaining URBs must go. */
  datatype Verdict = Verdict(action: ReapAction, status: TransferStatus, tearDown: bool)

  function Judge(e: Engine, s: UrbStatus): Verdict {
    match s
    case Ok | ERemoteIO | ENoEnt | EConnReset => Verdict(e.action, e.status, false)
    case ENoDev | EShutdown => Verdict(e.action, NoDevice, true)
    case EPipe => Verdict(e.action, if e.status == Completed then Stall else e.status, true)
    case EOverflow => Verdict(e.action, if e.status == Completed then Overflow else e.status, true)
    case ETime | EProto | EIlSeq | EComm | ENoSr | Unrecognised(_) =>
      Verdict(Failed, if e.status == Completed then TransferError else e.status, true)
  }

  /** A URB of a transfer that is being torn down: the last one completes it. */
  function Ending(e: Engine, c: UrbResult): (Engine, bool) {
    var r := Retire(e, c);
    if r.numRetired != r.numUrbs then (r, false)
    else
      (r.(status := if r.action != CompletedEarly && r.status == Completed then TransferError else r.status), true)
  }

  /** A URB of a transfer that was going well: it completes the transfer, or calls off the rest, or
      neither. */
  function Healthy(e: Engine, idx: nat, urb: Urb, c: UrbResult): (Engine, bool) {
    var v, r := Judge(e, c.status), Retire(e, c);
    var judged := r.(action := v.action, status := v.status);
    if c.status == EOverflow then (judged, true)
    else if v.tearDown then (judged, r.numRetired == r.numUrbs)
    else if idx == e.numUrbs - 1 then (judged, true)
    else if c.actual < urb.length then (judged.(action := CompletedEarly), r.numRetired == r.numUrbs)
    else (judged, false)
  }

  /** A URB of a healthy transfer makes the rest be discarded: others are still out, and it came back bad
      (but for an overflow, which ends the transfer) or short. */
  predicate CallsOff(e: Engine, idx: nat, urb: Urb, c: UrbResult) {
    && e.numRetired + 1 != e.numUrbs
    && match c.status
       case Ok | ERemoteIO | ENoEnt | EConnReset => idx != e.numUrbs - 1 && c.actual < urb.length
       case EOverflow => false
       case _ => true
  }

  /** One reaped URB, as a function of the engine. */
  function Reap(e: Engine, idx: nat, urb: Urb, c: UrbResult): (Engine, Option<Report>) {
    var r := if e.action != Normal then Ending(e, c) else Healthy(e, idx, urb, c);
    if r.1 then Finish(r.0) else (r.0, None)
  }

  /** Bytes src..src+n of `buf` copied to dst..dst+n, as memmove does it. */
  function Moved(buf: seq<Byte>, dst: nat, src: nat, n: nat): (r: seq<Byte>)
    requires dst + n <= |buf| && src + n <= |buf|
    ensures |r| == |buf|
  {
    buf[..dst] + buf[src..src + n] + buf[dst + n..]
  }

  /** The buffer after one reaped URB: surplus data of an ending transfer closes the gap. */
  function ReapBuffer(buf: seq<Byte>, e: Engine, urb: Urb, c: UrbResult): (r: seq<Byte>)
    requires e.transferred + c.actual <= |buf| && urb.offset + c.actual <= |buf|
    ensures |r| == |buf|
  {
    if e.action != Normal && c.actual > 0 then Moved(buf, e.transferred, urb.offset, c.actual) else buf
  }

  /** op_cancel_transfer, where `discarded` is what discard_urbs returned. */
  function CancelCode(e: Engine, discarded: Code): Code {
    if !e.live then ErrorNotFound else discarded
  }

  function AfterCancel(e: Engine, discarded: Code): Engine {
    if CancelCode(e, discarded) != Success || (!e.interrupt && e.action == Failed) then e
    else e.(action := Cancelled)
  }

  /** What the kernel answers to one IOCTL_USBFS_DISCARDURB. */
  datatype DiscardAnswer = Discarded | NotThere | DeviceGone | OddErrno

  /** The result of discarding URBs first..first+|answers|, last one first: the complaint of the
      lowest URB wins, and a URB that is no longer there only counts when it is the last. */
  function DiscardCode(answers: seq<DiscardAnswer>): Code {
    if answers == [] then Success
    else match answers[0]
      case DeviceGone => ErrorNoDevice
      case OddErrno => ErrorOther
      case NotThere => if |answers| == 1 then ErrorNotFound else DiscardCode(answers[1..])
      case Discarded => DiscardCode(answers[1..])
  }

  /** A cancellation is only granted when the last URB was still there to be discarded and no
      other answer was worse than "already finished". */
  lemma {:induction false} DiscardSucceedsIff(answers: seq<DiscardAnswer>)
    ensures DiscardCode(answers) == Success <==>
            && (forall i :: 0 <= i < |answers| ==> answers[i] == Discarded || answers[i] == NotThere)
            && (answers != [] ==> answers[|answers| - 1] == Discarded)
  {
    if |answers| > 1 {
      DiscardSucceedsIff(answers[1..]);
      assert forall i :: 1 <= i < |answers| ==> answers[i] == answers[1..][i - 1];
    }
  }

  /** The lowest URB with a complaint worse than "not there any more" decides; without one, only the last
      URB matters. */
  lemma {:induction false} DiscardCodeIs(answers: seq<DiscardAnswer>)
    ensures DiscardCode(answers) == ErrorNoDevice <==> LowestComplaint(answers, DeviceGone)
    ensures DiscardCode(answers) == ErrorOther <==> LowestComplaint(answers, OddErrno)
    ensures DiscardCode(answers) == ErrorNotFound <==>
              && (forall i :: 0 <= i < |answers| ==> answers[i] == Discarded || answers[i] == NotThere)
              && answers != [] && answers[|answers| - 1] == NotThere
    ensures DiscardCode(answers) in {Success, ErrorNotFound, ErrorNoDevice, ErrorOther}
  {
    if answers != [] {
      var rest := answers[1..];
      DiscardCodeIs(rest);
      ComplaintUnfold(answers, DeviceGone);
      ComplaintUnfold(answers, OddErrno);
      hide LowestComplaint;
      assert forall i :: 1 <= i < |answers| ==> answers[i] == rest[i - 1];
    }
  }

  ghost predicate LowestComplaint(answers: seq<DiscardAnswer>, a: DiscardAnswer) {
    exists i :: 0 <= i < |answers| && answers[i] == a &&
      forall j :: 0 <= j < i ==> answers[j] == Discarded || answers[j] == NotThere
  }

  lemma ComplaintUnfold(answers: seq<DiscardAnswer>, a: DiscardAnswer)
    requires answers != [] && (a == DeviceGone || a == OddErrno)
    ensures LowestComplaint(answers, a) <==>
            answers[0] == a || ((answers[0] == Discarded || answers[0] == NotThere) && LowestComplaint(answers[1..], a))
  {
    var rest := answers[1..];
    if answers[0] != a && LowestComplaint(answers, a) {
      var i :| 0 <= i < |answers| && answers[i] == a &&
        forall j :: 0 <= j < i ==> answers[j] == Discarded || answers[j] == NotThere;
      assert rest[i - 1] == a && forall j :: 0 <= j < i - 1 ==> rest[j] == answers[j + 1];
    }
    if answers[0] != a && (answers[0] == Discarded || answers[0] == NotThere) && LowestComplaint(rest, a) {
      var i :| 0 <= i < |rest| && rest[i] == a &&
        forall j :: 0 <= j < i ==> rest[j] == Discarded || rest[j] == NotThere;
      assert answers[i + 1] == a && forall j :: 1 <= j < i + 1 ==> answers[j] == rest[j - 1];
    }
  }

  /** The capability bits in terms of what is handed to the kernel: a transfer goes out in one URB if the
      kernel gathers, or if it has no size limit and no continuation, or if it fits; otherwise no URB is
      over 16 kB and only the last is under. Continuation marks every URB but the first, stopping at a
      short one every IN URB but the last, and the zero packet the last OUT URB. */
  lemma UrbShape(i: nat, length: nat, caps: Caps, isOut: bool, addZeroPacket: bool)
    requires i < UrbCount(length, BlockSize(caps, length))
    ensures var urb, whole := UrbFor(i, length, caps, isOut, addZeroPacket),
                              caps.scatterGather || (caps.noSizeLimit && !caps.continuation) || length <= 16384;
            var last := urb.offset + urb.length == length;
            && (whole ==> i == 0 && urb.offset == 0 && urb.length == length)
            && (!whole ==> urb.offset == i * 16384 && urb.length <= 16384 && (!last ==> urb.length == 16384))
            && (last <==> i + 1 == UrbCount(length, BlockSize(caps, length)))
            && (urb.continuation <==> i > 0 && caps.continuation && !caps.scatterGather)
            && (urb.shortNotOk <==> !isOut && !last && caps.continuation && !caps.scatterGather)
            && (urb.zeroPacket <==> isOut && addZeroPacket && last)
  {
    var blk := BlockSize(caps, length);
    hide Offset, UrbLength;
    UrbsTile(i, length, blk);
    SliceByProduct(i, length, blk);
    CountIsQuotient(length, blk);
    if i + 1 < UrbCount(length, blk) {
      UrbsTile(i + 1, length, blk);
    }
    if blk >= length {
      OneUrb(length, blk);
    }
  }

  lemma OneUrb(length: nat, blk: nat)
    requires 0 < blk && length <= blk
    ensures UrbCount(length, blk) == 1 && Offset(0, length, blk) == 0 && UrbLength(0, length, blk) == length
  {
  }

  // ------------------------------------------------------------ the transfer object

  function UrbFor(i: nat, length: nat, caps: Caps, isOut: bool, addZeroPacket: bool): Urb {
    var blk := BlockSize(caps, length);
    var last := i == UrbCount(length, blk) - 1;
    Urb(Offset(i, length, blk), UrbLength(i, length, blk),
        UsesContinuation(caps) && !isOut && !last,
        UsesContinuation(caps) && i > 0,
        isOut && last && addZeroPacket)
  }

  /** `handed` are the URBs of the transfer from the first one on, all accepted. */
  ghost predicate Accepted(handed: seq<Urb>, answers: seq<Option<SubmitErrno>>, length: nat, caps: Caps,
                           isOut: bool, addZeroPacket: bool)
  {
    && |handed| <= |answers|
    && forall i :: 0 <= i < |handed| ==>
         answers[i].None? && handed[i] == UrbFor(i, length, caps, isOut, addZeroPacket)
  }

  lemma AcceptedNone(answers: seq<Option<SubmitErrno>>, length: nat, caps: Caps, isOut: bool, addZeroPacket: bool)
    ensures Accepted([], answers, length, caps, isOut, addZeroPacket)
  {
  }

  lemma AcceptedExtends(handed: seq<Urb>, urb: Urb, answers: seq<Option<SubmitErrno>>, length: nat, caps: Caps,
                        isOut: bool, addZeroPacket: bool)
    requires Accepted(handed, answers, length, caps, isOut, addZeroPacket) && |handed| < |answers|
    requires answers[|handed|].None? && urb == UrbFor(|handed|, length, caps, isOut, addZeroPacket)
    ensures Accepted(handed + [urb], answers, length, caps, isOut, addZeroPacket)
  {
    hide UrbFor;
  }

  /** The arithmetic at the head of submit_bulk_transfer. */
  method PlanSplit(caps: Caps, length: nat) returns (blk: nat, n: nat, lastPartial: bool)
    ensures blk == BlockSize(caps, length) && n == UrbCount(length, blk)
    ensures lastPartial <==> length > 0 && length % blk > 0
  {
    if caps.scatterGather {
      blk := if length != 0 then length else 1;
    } else if caps.continuation {
      blk := MAX_BULK_BUFFER_LENGTH;
    } else if caps.noSizeLimit {
      blk := if length != 0 then length else 1;
    } else {
      blk := MAX_BULK_BUFFER_LENGTH;
    }
    n := length / blk;
    lastPartial := false;
    if length == 0 {
      n := 1;
    } else if length % blk > 0 {
      lastPartial := true;
      n := n + 1;
    }
    CountIsQuotient(length, blk);
  }

  /** The part of the submission loop that fills in one URB. */
  method FillUrb(i: nat, length: nat, blk: nat, n: nat, lastPartial: bool,
                 useContinuation: bool, isOut: bool, addZeroPacket: bool) returns (urb: Urb)
    requires i < n && blk > 0 && n == UrbCount(length, blk) && (lastPartial <==> length > 0 && length % blk > 0)
    ensures urb == Urb(Offset(i, length, blk), UrbLength(i, length, blk), useContinuation && !isOut && i != n - 1,
                       useContinuation && i > 0, isOut && i == n - 1 && addZeroPacket)
  {
    var shortNotOk := useContinuation && !isOut && i < n - 1;
    var len;
    if i == n - 1 && lastPartial {
      len := length % blk;
    } else if length == 0 {
      len := 0;
    } else {
      len := blk;
    }
    SliceByProduct(i, length, blk);
    urb := Urb(i * blk, len, shortNotOk, i > 0 && useContinuation, isOut && i == n - 1 && addZeroPacket);
  }

  class BulkTransfer {
    const buffer: array<Byte>
    const interrupt: bool
    var blk: nat
    var numUrbs: nat
    var numRetired: nat
    var action: ReapAction
    var status: TransferStatus
    var transferred: nat
    var live: bool

    ghost function State(): Engine
      reads this
    {
      Engine(buffer.Length, blk, interrupt, numUrbs, numRetired, action, status, transferred, live)
    }

    constructor (buffer: array<Byte>, interrupt: bool)
      ensures this.buffer == buffer && this.interrupt == interrupt && !live && blk > 0
    {
      this.buffer, this.interrupt := buffer, interrupt;
      blk, numUrbs, numRetired, transferred := 1, 0, 0, 0;
      action, status, live := Normal, Completed, false;
    }

    /** submit_bulk_transfer. `kernel[i]` is the answer to submitting URB i (None: accepted);
        `handed` are the URBs the kernel accepted, and the first `discards` of them are discarded. */
    method Submit(caps: Caps, isOut: bool, addZeroPacket: bool, kernel: seq<Option<SubmitErrno>>)
      returns (r: Code, handed: seq<Urb>, discards: nat)
      requires |kernel| == UrbCount(buffer.Length, BlockSize(caps, buffer.Length))
      modifies this
      ensures if isOut && addZeroPacket && !caps.zeroPacket
              then r == ErrorNotSupported && handed == [] && State() == old(State())
              else
                && Accepted(handed, kernel, buffer.Length, caps, isOut, addZeroPacket)
                && (|handed| < |kernel| ==> kernel[|handed|].Some?)
                && State() == Submitted(buffer.Length, BlockSize(caps, buffer.Length), interrupt, |handed|,
                                        if |handed| < |kernel| then kernel[|handed|].value else OtherErrno)
                && r == (if handed != [] then Success
                         else if kernel[0].value == NoDev then ErrorNoDevice else ErrorIo)
      ensures discards == (if action == SubmitFailed && handed != [] then |handed| else 0)
    {
      hide Offset, UrbCount, UrbLength, BlockSize, Accepted;
      AcceptedNone(kernel, buffer.Length, caps, isOut, addZeroPacket);
      handed, discards := [], 0;
      if isOut && addZeroPacket && !caps.zeroPacket {
        return ErrorNotSupported, [], 0;
      }
      var length := buffer.Length;
      var size, n, lastPartial := PlanSplit(caps, length);
      blk := size;
      var useContinuation := UsesContinuation(caps);
      numUrbs, numRetired, action, status, transferred, live := n, 0, Normal, Completed, 0, true;

      var i := 0;
      while i < n
        invariant 0 <= i <= n && i == |handed|
        invariant Accepted(handed, kernel, length, caps, isOut, addZeroPacket)
        invariant State() == Engine(length, size, interrupt, n, 0, Normal, Completed, 0, true)
      {
        var urb := FillUrb(i, length, size, n, lastPartial, useContinuation, isOut, addZeroPacket);
        if kernel[i].Some? {
          if i == 0 {
            live := false;
            return if kernel[i].value == NoDev then ErrorNoDevice else ErrorIo, handed, 0;
          }
          action := if kernel[i].value == RemoteIO then CompletedEarly else SubmitFailed;
          numRetired := numRetired + (n - i);
          return Success, handed, if action == CompletedEarly then 0 else i;
        }
        AcceptedExtends(handed, urb, kernel, length, caps, isOut, addZeroPacket);
        handed := handed + [urb];
        i := i + 1;
      }
      return Success, handed, 0;
    }

    /** handle_bulk_completion for `urb`, which has index `idx`. `discardFrom` is the first URB of a
        discard request, if one is made. */
    method HandleCompletion(idx: nat, urb: Urb, c: UrbResult) returns (report: Option<Report>, discardFrom: Option<nat>)
      requires transferred + c.actual <= buffer.Length && urb.offset + c.actual <= buffer.Length
      modifies this, buffer
      ensures (State(), report) == Reap(old(State()), idx, urb, c)
      ensures buffer[..] == ReapBuffer(old(buffer[..]), old(State()), urb, c)
      ensures discardFrom ==
              if old(action) == Normal && CallsOff(old(State()), idx, urb, c) then Some(idx + 1) else None
    {
      hide Moved, Ending, Healthy, Judge, CallsOff;
      report, discardFrom := None, None;
      var completed;
      if action != Normal {
        completed := ReapEnding(urb, c);
      } else {
        completed, discardFrom := ReapHealthy(idx, urb, c);
      }
      if completed {
        live := false;
        report := Some(if action == Cancelled then Cancellation else Completion(status));
      }
    }

    method ReapEnding(urb: Urb, c: UrbResult) returns (completed: bool)
      requires action != Normal
      requires transferred + c.actual <= buffer.Length && urb.offset + c.actual <= buffer.Length
      modifies this, buffer
      ensures (State(), completed) == Ending(old(State()), c)
      ensures buffer[..] == ReapBuffer(old(buffer[..]), old(State()), urb, c)
    {
      hide Moved;
      numRetired := numRetired + 1;
      KeepSurplus(urb.offset, c.actual);
      completed := numRetired == numUrbs;
      if completed && action != CompletedEarly && status == Completed {
        status := TransferError;
      }
    }

    method ReapHealthy(idx: nat, urb: Urb, c: UrbResult) returns (completed: bool, discardFrom: Option<nat>)
      requires action == Normal
      modifies this
      ensures (State(), completed) == Healthy(old(State()), idx, urb, c)
      ensures discardFrom == if CallsOff(old(State()), idx, urb, c) then Some(idx + 1) else None
    {
      discardFrom := None;
      numRetired := numRetired + 1;
      transferred := transferred + c.actual;
      var tearDown;
      completed, tearDown := SwitchOnStatus(c.status);
      if !completed && !tearDown {
        if idx == numUrbs - 1 {
          completed := true;
        } else if c.actual < urb.length {
          if action == Normal { action := CompletedEarly; }
          tearDown := true;
        }
      }
      if tearDown && !completed {
        if numRetired == numUrbs {
          completed := true;
        } else {
          discardFrom := Some(idx + 1);
        }
      }
    }

    /** The switch over urb->status: a removal always counts, a stall, an overflow or a low-level error
        only if nothing was stored before; a low-level error also ends the healthy reaping. The
        `ERROR` case of cancel_remaining is pulled in. */
    method SwitchOnStatus(s: UrbStatus) returns (completed: bool, tearDown: bool)
      modifies this`action, this`status
      ensures status == (match s
                         case Ok | ERemoteIO | ENoEnt | EConnReset => old(status)
                         case ENoDev | EShutdown => NoDevice
                         case EPipe => if old(status) == Completed then Stall else old(status)
                         case EOverflow => if old(status) == Completed then Overflow else old(status)
                         case _ => if old(status) == Completed then TransferError else old(status))
      ensures Verdict(action, status, tearDown || completed) == Judge(old(State()), s)
      ensures completed <==> s == EOverflow
    {
      completed, tearDown := false, false;
      match s {
        case Ok | ERemoteIO | ENoEnt | EConnReset =>
        case ENoDev | EShutdown =>
          status := NoDevice;
          tearDown := true;
        case EPipe =>
          if status == Completed { status := Stall; }
          tearDown := true;
        case EOverflow =>
          if status == Completed { status := Overflow; }
          completed := true;
        case ETime | EProto | EIlSeq | EComm | ENoSr | Unrecognised(_) =>
          action := Failed;
          tearDown := true;
          if status == Completed { status := TransferError; }
      }
    }

    /** The surplus-data branch: bytes at `src` are moved behind what was received before. */
    method KeepSurplus(src: nat, actual: nat)
      requires transferred + actual <= buffer.Length && src + actual <= buffer.Length
      modifies this`transferred, buffer
      ensures transferred == old(transferred) + actual
      ensures buffer[..] ==
              if actual > 0 then Moved(old(buffer[..]), old(transferred), src, actual) else old(buffer[..])
    {
      if actual > 0 {
        if src != transferred {
          MemMove(transferred, src, actual);
        } else {
          assert Moved(buffer[..], transferred, transferred, actual) == buffer[..];
        }
        transferred := transferred + actual;
      }
    }

    method MemMove(dst: nat, src: nat, n: nat)
      requires dst + n <= buffer.Length && src + n <= buffer.Length
      modifies buffer
      ensures buffer[..] == Moved(old(buffer[..]), dst, src, n)
    {
      forall i | 0 <= i < n {
        buffer[dst + i] := buffer[src + i];
      }
    }

    /** op_cancel_transfer; `answers[i]` is the kernel's answer to discarding URB i. */
    method Cancel(answers: seq<DiscardAnswer>) returns (r: Code)
      requires |answers| == numUrbs
      modifies this
      ensures r == CancelCode(old(State()), DiscardCode(answers))
      ensures r == ErrorNotFound <==> !old(live) || DiscardCode(answers) == ErrorNotFound
      ensures r == Success <==>
                && old(live)
                && (forall i :: 0 <= i < |answers| ==> answers[i] == Discarded || answers[i] == NotThere)
                && (answers != [] ==> answers[|answers| - 1] == Discarded)
      ensures action == (if r == Success && (interrupt || old(action) != Failed) then Cancelled else old(action))
      ensures State() == AfterCancel(old(State()), DiscardCode(answers))
    {
      DiscardSucceedsIff(answers);
      if !live {
        return ErrorNotFound;
      }
      r := DiscardUrbs(answers);
      if r != Success {
        return;
      }
      if !interrupt && action == Failed {
        return;
      }
      action := Cancelled;
    }
  }

  /** discard_urbs: URBs are discarded in reverse order of submission. */
  method DiscardUrbs(answers: seq<DiscardAnswer>) returns (ret: Code)
    ensures ret == DiscardCode(answers)
  {
    ret := Success;
    var i := |answers|;
    while i > 0
      invariant 0 <= i <= |answers|
      invariant ret == DiscardCode(answers[i..])
    {
      i := i - 1;
      assert answers[i..][1..] == answers[i + 1..];
      match answers[i] {
        case Discarded =>
        case NotThere => if i == |answers| - 1 { ret := ErrorNotFound; }
        case DeviceGone => ret := ErrorNoDevice;
        case OddErrno => ret := ErrorOther;
      }
    }
  }
}
