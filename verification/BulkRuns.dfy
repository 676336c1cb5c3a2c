/**
 Whole runs of an accepted bulk transfer: the kernel fills slices and returns URBs in
 submission order with whatever status and length it likes, the user cancels whenever he likes.
 */
module BulkRuns {
  import opened Usb
  import opened BulkUrbs

  /** The engine and the buffer, with the history of the run: how many URBs the kernel accepted
      and gave back, the bytes each of them brought, and the reports made to the user. */
  datatype World = World(e: Engine, buf: seq<Byte>, submitted: nat, reaped: nat,
                         received: seq<seq<Byte>>, reports: seq<Report>)

  datatype Event =
    | KernelWrite(k: nat, data: seq<Byte>)
    | ReapNext(c: UrbResult)
    | UserCancel(discarded: Code)

  ghost predicate Shape(w: World) {
    && WellSplit(w.e)
    && |w.buf| == w.e.length
    && 1 <= w.submitted <= w.e.numUrbs
    && w.reaped <= w.submitted
  }

  function UrbNo(w: World, k: nat): Urb
  {
    Urb(Start(w, k), UrbLength(k, w.e.length, w.e.blk), false, false, false)
  }

  /** The first byte of the slice of URB k (the end of the buffer for the URB after the last). */
  function Start(w: World, k: nat): nat {
    Offset(k, w.e.length, w.e.blk)
  }

  /** What the kernel may do next. An overflow ends a healthy transfer at once, so there it is
      only allowed on the last URB. */
  ghost predicate Enabled(w: World, ev: Event)
    requires Shape(w)
  {
    match ev
    case KernelWrite(k, data) => w.reaped <= k < w.submitted && |data| <= UrbNo(w, k).length
    case ReapNext(c) =>
      && w.reaped < w.submitted
      && c.actual <= UrbNo(w, w.reaped).length
      && !PrematureOverflow(w, c)
    case UserCancel(_) => true
  }

  predicate PrematureOverflow(w: World, c: UrbResult) {
    w.e.action == Normal && c.status == EOverflow && w.reaped + 1 < w.submitted
  }

  /** Bytes arrive in a URB whose slice does not start where the data so far ends, while the
      engine does not move data: the branch that leaves a hole. */
  predicate Gap(w: World, ev: Event) {
    ev.ReapNext? && w.e.action == Normal && ev.c.actual > 0 && w.e.transferred != Start(w, w.reaped)
  }

  ghost predicate Inv(w: World) {
    && Shape(w)
    && |w.received| == w.reaped
    && w.e.transferred == |Flatten(w.received)| <= Start(w, w.reaped)
    && w.e.numRetired == w.e.numUrbs - w.submitted + w.reaped
    && (w.e.action == Normal ==> w.submitted == w.e.numUrbs)
    && w.e.live == (w.reaped < w.submitted)
    && (w.e.action == Normal && w.e.live ==>
          && w.e.status in {Completed, Stall, NoDevice}
          && (w.e.status == Completed ==> w.e.transferred == Start(w, w.reaped)))
    && (w.e.action == Failed || (w.e.action == SubmitFailed && !w.e.live) ==> w.e.status != Completed)
    && w.reports == (if w.e.live then []
                     else [if w.e.action == Cancelled then Cancellation else Completion(w.e.status)])
  }

  /** What was received so far lies at the front of the buffer, in URB order, without holes. */
  ghost predicate Contiguous(w: World) {
    w.e.transferred <= |w.buf| && w.buf[..w.e.transferred] == Flatten(w.received)
  }

  lemma Slice(w: World, k: nat)
    requires Shape(w) && k < w.submitted
    ensures Start(w, k + 1) == Start(w, k) + UrbNo(w, k).length <= |w.buf|
  {
    UrbsTile(k, w.e.length, w.e.blk);
  }

  function Overwrite(buf: seq<Byte>, at: nat, data: seq<Byte>): (r: seq<Byte>)
    requires at + |data| <= |buf|
    ensures |r| == |buf|
  {
    buf[..at] + data + buf[at + |data|..]
  }

  ghost function Step(w: World, ev: Event): World
    requires Inv(w) && Enabled(w, ev)
  {
    match ev
    case KernelWrite(k, data) =>
      Slice(w, k);
      w.(buf := Overwrite(w.buf, Start(w, k), data))
    case ReapNext(c) =>
      Slice(w, w.reaped);
      ReapWorld(w, c)
    case UserCancel(discarded) => w.(e := AfterCancel(w.e, discarded))
  }

  ghost function ReapWorld(w: World, c: UrbResult): World
    requires Inv(w) && w.reaped < w.submitted
    requires Start(w, w.reaped) + c.actual <= |w.buf|
  {
    var urb := UrbNo(w, w.reaped);
    var (e, report) := Reap(w.e, w.reaped, urb, c);
    World(e, ReapBuffer(w.buf, w.e, urb, c), w.submitted, w.reaped + 1,
          w.received + [w.buf[urb.offset..urb.offset + c.actual]],
          if report.Some? then w.reports + [report.value] else w.reports)
  }

  // -------------------------------------------------------------- the invariant

  /** The world right after the kernel took the first `accepted` URBs of a transfer. */
  function StartOf(buf: seq<Byte>, blk: nat, interrupt: bool, accepted: nat, errno: SubmitErrno): World
    requires blk > 0 && 1 <= accepted <= UrbCount(|buf|, blk)
  {
    World(Submitted(|buf|, blk, interrupt, accepted, errno), buf, accepted, 0, [], [])
  }

  /** Every accepted submission starts in the invariant. */
  lemma SubmissionStarts(buf: seq<Byte>, blk: nat, interrupt: bool, accepted: nat, errno: SubmitErrno)
    requires blk > 0 && 1 <= accepted <= UrbCount(|buf|, blk)
    ensures var w := StartOf(buf, blk, interrupt, accepted, errno); Inv(w) && Contiguous(w)
  {
  }

  /** Exactly-once accounting, and the length bound, survive every step of kernel and user. */
  lemma InvKept(w: World, ev: Event)
    requires Inv(w) && Enabled(w, ev)
    ensures Inv(Step(w, ev))
  {
    if ev.ReapNext? {
      ReapKeepsInv(w, ev.c);
    }
  }

  lemma ReapKeepsInv(w: World, c: UrbResult)
    requires Inv(w) && Enabled(w, ReapNext(c))
    ensures Inv(Step(w, ReapNext(c)))
  {
    Slice(w, w.reaped);
    var urb := UrbNo(w, w.reaped);
    FlattenAppend(w.received, w.buf[urb.offset..urb.offset + c.actual]);
    ReapAdvances(w.e, w.reaped, urb, c);
    hide Flatten, Offset, UrbLength, UrbCount, ReapBuffer;
    assert Start(Step(w, ReapNext(c)), w.reaped + 1) == Start(w, w.reaped + 1);
  }

  // ---------------------------------------------------- what memmove may touch

  /** A reap writes inside the data area that ends with the reaped URB's slice: nothing of a URB
      not yet reaped changes, wherever the kernel has already put its bytes. */
  lemma UnreapedUntouched(w: World, c: UrbResult)
    requires Inv(w) && Enabled(w, ReapNext(c))
    ensures var w' := Step(w, ReapNext(c));
            Start(w, w.reaped + 1) <= |w.buf| && w'.buf[Start(w, w.reaped + 1)..] == w.buf[Start(w, w.reaped + 1)..]
  {
    Slice(w, w.reaped);
  }

  // ------------------------------------------------------------------ contiguity

  /** Without a gap the data stays contiguous. */
  lemma ContiguityKept(w: World, ev: Event)
    requires Inv(w) && Enabled(w, ev) && Contiguous(w) && !Gap(w, ev)
    ensures Contiguous(Step(w, ev))
  {
    match ev
    case KernelWrite(k, data) =>
      Slice(w, k);
      OffsetMono(w.reaped, k, w.e.length, w.e.blk);
      var t := w.e.transferred;
      assert Overwrite(w.buf, Start(w, k), data)[..t] == w.buf[..t];
    case ReapNext(c) => ReapKeepsContiguity(w, c);
    case UserCancel(_) =>
  }

  lemma ReapKeepsContiguity(w: World, c: UrbResult)
    requires Inv(w) && Enabled(w, ReapNext(c)) && Contiguous(w) && !Gap(w, ReapNext(c))
    ensures Contiguous(Step(w, ReapNext(c)))
  {
    Slice(w, w.reaped);
    var urb := UrbNo(w, w.reaped);
    var block := w.buf[urb.offset..urb.offset + c.actual];
    var w' := Step(w, ReapNext(c));
    FlattenAppend(w.received, block);
    FrontAfterReap(w.buf, w.e, urb, c);
    ReapAdvances(w.e, w.reaped, urb, c);
  }

  lemma ReapAdvances(e: Engine, idx: nat, urb: Urb, c: UrbResult)
    ensures var r := Reap(e, idx, urb, c).0;
            r.transferred == e.transferred + c.actual && r.numRetired == e.numRetired + 1
            && r.length == e.length && r.blk == e.blk && r.numUrbs == e.numUrbs
  {
  }

  /** The new bytes end up right behind the old ones. */
  lemma FrontAfterReap(buf: seq<Byte>, e: Engine, urb: Urb, c: UrbResult)
    requires e.transferred + c.actual <= |buf| && urb.offset + c.actual <= |buf|
    requires e.action == Normal && c.actual > 0 ==> e.transferred == urb.offset
    ensures ReapBuffer(buf, e, urb, c)[..e.transferred + c.actual]
         == buf[..e.transferred] + buf[urb.offset..urb.offset + c.actual]
  {
    var t, n, src := e.transferred, c.actual, urb.offset;
    if n == 0 {
      assert buf[src..src + n] == [];
      assert buf[..t] + [] == buf[..t];
    } else if e.action == Normal {
      assert buf[..t + n] == buf[..t] + buf[t..t + n];
    } else {
      var front, back := buf[..t] + buf[src..src + n], buf[t + n..];
      assert Moved(buf, t, src, n) == front + back;
      assert |front| == t + n;
      assert (front + back)[..t + n] == front;
    }
  }

  /** The exact condition for one reap: the engine keeps the data contiguous for every content
      the URB may bring if and only if the reap is not a gap. */
  lemma ContiguousIffNoGap(w: World, c: UrbResult)
    requires Inv(w) && Enabled(w, ReapNext(c)) && Contiguous(w)
    ensures (forall data: seq<Byte> | |data| == c.actual && WriteThenReap(w, data, c) ::
               Contiguous(Step(Step(w, KernelWrite(w.reaped, data)), ReapNext(c))))
            <==> !Gap(w, ReapNext(c))
  {
    forall data: seq<Byte> | |data| == c.actual && !Gap(w, ReapNext(c))
      ensures WriteThenReap(w, data, c) && Contiguous(Step(Step(w, KernelWrite(w.reaped, data)), ReapNext(c)))
    {
      ContiguityKept(w, KernelWrite(w.reaped, data));
      ContiguityKept(Step(w, KernelWrite(w.reaped, data)), ReapNext(c));
    }
    if Gap(w, ReapNext(c)) {
      var other: Byte := if w.buf[w.e.transferred] == 0 then 1 else 0;
      GapLosesBytes(w, c, other);
      var data: seq<Byte> := seq(c.actual, i => other);
      assert |data| == c.actual && WriteThenReap(w, data, c);
    }
  }

  /** Behind a gap the buffer still shows the old byte where the received one should be. */
  lemma GapLosesBytes(w: World, c: UrbResult, other: Byte)
    requires Inv(w) && Enabled(w, ReapNext(c)) && Gap(w, ReapNext(c))
    requires w.e.transferred < |w.buf| && other != w.buf[w.e.transferred]
    ensures var data: seq<Byte> := seq(c.actual, i => other);
            && WriteThenReap(w, data, c)
            && !Contiguous(Step(Step(w, KernelWrite(w.reaped, data)), ReapNext(c)))
  {
    Slice(w, w.reaped);
    var t, off := w.e.transferred, Start(w, w.reaped);
    var data: seq<Byte> := seq(c.actual, i => other);
    var w1 := Step(w, KernelWrite(w.reaped, data));
    assert w1.buf[off..off + c.actual] == data;
    assert w1.buf[t] == w.buf[t];
    FlattenAppend(w.received, data);
    ReapAdvances(w1.e, w1.reaped, UrbNo(w1, w1.reaped), c);
    var got: seq<Byte> := Flatten(w.received) + data;
    assert got[t] == other;
    var w2 := Step(w1, ReapNext(c));
    assert Flatten(w2.received) == got;
    assert w2.buf == w1.buf;
    assert w2.buf[..w2.e.transferred][t] == w1.buf[t];
  }

  ghost predicate WriteThenReap(w: World, data: seq<Byte>, c: UrbResult)
    requires Inv(w)
  {
    && Enabled(w, KernelWrite(w.reaped, data))
    && Inv(Step(w, KernelWrite(w.reaped, data)))
    && Enabled(Step(w, KernelWrite(w.reaped, data)), ReapNext(c))
  }

  /** A gap can only open after a stall or a removal was reported by an earlier URB: if no bytes
      arrive after those, there is none. */
  lemma GapNeedsStallOrRemoval(w: World, ev: Event)
    requires Inv(w) && Enabled(w, ev) && Gap(w, ev)
    ensures w.e.status in {Stall, NoDevice}
  {
  }

  /** A reap ends the transfer while URBs are still out exactly when it is an early overflow. */
  lemma EarlyReportIff(w: World, c: UrbResult)
    requires Inv(w) && w.reaped < w.submitted
    ensures w.reaped + 1 < w.submitted && Reap(w.e, w.reaped, UrbNo(w, w.reaped), c).1.Some?
            <==> PrematureOverflow(w, c)
  {
  }

  // ------------------------------------------------------------------ whole runs

  ghost predicate RunEnabled(w: World, evs: seq<Event>)
    requires Inv(w)
    decreases |evs|
  {
    evs != [] ==>
      && Enabled(w, evs[0])
      && (InvKept(w, evs[0]); RunEnabled(Step(w, evs[0]), evs[1..]))
  }

  ghost predicate GapFree(w: World, evs: seq<Event>)
    requires Inv(w) && RunEnabled(w, evs)
    decreases |evs|
  {
    evs != [] ==> !Gap(w, evs[0]) && (InvKept(w, evs[0]); GapFree(Step(w, evs[0]), evs[1..]))
  }

  ghost function Run(w: World, evs: seq<Event>): (w': World)
    requires Inv(w) && RunEnabled(w, evs)
    ensures Inv(w')
    decreases |evs|
  {
    if evs == [] then w
    else
      InvKept(w, evs[0]);
      Run(Step(w, evs[0]), evs[1..])
  }

  /** The main result. After any run that opens no gap, the front of the buffer is the
      concatenation of what every reaped URB brought, `transferred` is the sum of their lengths
      and at most the length of the transfer, and the transfer has been reported exactly once
      if all accepted URBs are back and not at all otherwise. */
  lemma {:induction false} BulkRunCorrect(w: World, evs: seq<Event>)
    requires Inv(w) && Contiguous(w) && RunEnabled(w, evs) && GapFree(w, evs)
    ensures var w' := Run(w, evs);
            && Contiguous(w')
            && w'.e.transferred == |Flatten(w'.received)| <= w'.e.length
            && |w'.received| == w'.reaped
            && |w'.reports| == (if w'.reaped == w'.submitted then 1 else 0)
    decreases |evs|
  {
    if evs != [] {
      InvKept(w, evs[0]);
      ContiguityKept(w, evs[0]);
      BulkRunCorrect(Step(w, evs[0]), evs[1..]);
    }
  }

  /** No reap brings bytes once an earlier URB reported a stall or a removal. */
  ghost predicate SilentAfterFailure(w: World, evs: seq<Event>)
    requires Inv(w) && RunEnabled(w, evs)
    decreases |evs|
  {
    evs != [] ==>
      && (evs[0].ReapNext? && w.e.status in {Stall, NoDevice} ==> evs[0].c.actual == 0)
      && (InvKept(w, evs[0]); SilentAfterFailure(Step(w, evs[0]), evs[1..]))
  }

  /** If the kernel stays silent after a stall or a removal, no run ever opens a gap. */
  lemma {:induction false} SilentRunsAreGapFree(w: World, evs: seq<Event>)
    requires Inv(w) && RunEnabled(w, evs) && SilentAfterFailure(w, evs)
    ensures GapFree(w, evs)
    decreases |evs|
  {
    if evs != [] {
      InvKept(w, evs[0]);
      if Gap(w, evs[0]) {
        GapNeedsStallOrRemoval(w, evs[0]);
        assert false;
      }
      SilentRunsAreGapFree(Step(w, evs[0]), evs[1..]);
    }
  }

  /** Reports never come twice and never before the last accepted URB is back, gap or not. */
  lemma {:induction false} ReportedOnce(w: World, evs: seq<Event>)
    requires Inv(w) && RunEnabled(w, evs)
    ensures var w' := Run(w, evs);
            && w'.submitted == w.submitted
            && (w'.reports == [] <==> w'.reaped < w.submitted)
            && |w'.reports| <= 1
            && w.reports <= w'.reports
    decreases |evs|
  {
    if evs != [] {
      InvKept(w, evs[0]);
      ReportedOnce(Step(w, evs[0]), evs[1..]);
    }
  }

  /** A granted cancellation is what the user gets told, whatever the URBs bring afterwards. */
  lemma {:induction false} CancellationSticks(w: World, evs: seq<Event>)
    requires Inv(w) && w.e.action == Cancelled && RunEnabled(w, evs)
    ensures Run(w, evs).e.action == Cancelled
    ensures Run(w, evs).reaped == w.submitted ==> Run(w, evs).reports == [Cancellation]
    decreases |evs|
  {
    if evs != [] {
      InvKept(w, evs[0]);
      CancellationSticks(Step(w, evs[0]), evs[1..]);
    }
  }

  // ------------------------------------------------------------ "completed", exactly

  predicate WellStatus(s: UrbStatus) {
    s in {Ok, ERemoteIO, ENoEnt, EConnReset}
  }

  /** A URB that comes back while the transfer is healthy reports an error, or a cancellation is
      granted while URBs are out. */
  predicate Trouble(w: World, ev: Event) {
    match ev
    case KernelWrite(_, _) => false
    case ReapNext(c) => w.e.action == Normal && !WellStatus(c.status)
    case UserCancel(discarded) => w.e.live && discarded == Success
  }

  predicate OnCourse(e: Engine) {
    (e.action == Normal || e.action == CompletedEarly) && e.status == Completed
  }

  /** A transfer stays on course as long as there is no trouble, and never comes back to it. */
  lemma CourseKept(w: World, ev: Event)
    requires Inv(w) && Enabled(w, ev)
    ensures OnCourse(Step(w, ev).e) <==> OnCourse(w.e) && !Trouble(w, ev)
  {
    hide Moved, Flatten, Offset, UrbLength, UrbCount;
  }

  ghost predicate TroubleFree(w: World, evs: seq<Event>)
    requires Inv(w) && RunEnabled(w, evs)
    decreases |evs|
  {
    evs != [] ==> !Trouble(w, evs[0]) && (InvKept(w, evs[0]); TroubleFree(Step(w, evs[0]), evs[1..]))
  }

  lemma {:induction false} CourseOfRun(w: World, evs: seq<Event>)
    requires Inv(w) && RunEnabled(w, evs)
    ensures OnCourse(Run(w, evs).e) <==> OnCourse(w.e) && TroubleFree(w, evs)
    decreases |evs|
  {
    if evs != [] {
      InvKept(w, evs[0]);
      CourseKept(w, evs[0]);
      hide Inv, OnCourse, Step, Trouble;
      CourseOfRun(Step(w, evs[0]), evs[1..]);
    }
  }

  /** When all accepted URBs are back, "completed" is reported if and only if the kernel had taken all
      URBs or refused one because the transfer was complete, no cancellation was granted, and no URB
      that came back before the tear-down reported an error. */
  lemma CompletedIff(buf: seq<Byte>, blk: nat, interrupt: bool, accepted: nat, errno: SubmitErrno, evs: seq<Event>)
    requires blk > 0 && 1 <= accepted <= UrbCount(|buf|, blk)
    requires var w := StartOf(buf, blk, interrupt, accepted, errno);
             Inv(w) && RunEnabled(w, evs) && Run(w, evs).reaped == accepted
    ensures var w := StartOf(buf, blk, interrupt, accepted, errno);
            Run(w, evs).reports == [Completion(Completed)] <==>
            (accepted == UrbCount(|buf|, blk) || errno == RemoteIO) && TroubleFree(w, evs)
  {
    var w := StartOf(buf, blk, interrupt, accepted, errno);
    CourseOfRun(w, evs);
    ReportedOnce(w, evs);
    assert OnCourse(w.e) <==> accepted == UrbCount(|buf|, blk) || errno == RemoteIO;
    hide RunEnabled, TroubleFree, Run, Start, Flatten, WellSplit;
  }

  // ------------------------------------------------------- contiguous data, exactly

  /** A gap does no harm only when the buffer shows the received bytes already. */
  ghost predicate LosesBytes(w: World, ev: Event)
    requires Inv(w) && Enabled(w, ev)
  {
    Gap(w, ev) &&
    (var t, n := w.e.transferred, ev.c.actual;
     Slice(w, w.reaped);
     w.buf[t..t + n] != w.buf[Start(w, w.reaped)..Start(w, w.reaped) + n])
  }

  lemma ContiguousStepIff(w: World, ev: Event)
    requires Inv(w) && Enabled(w, ev) && Contiguous(w)
    ensures Contiguous(Step(w, ev)) <==> !LosesBytes(w, ev)
  {
    if !Gap(w, ev) {
      ContiguityKept(w, ev);
    } else {
      GapContiguousIff(w, ev.c);
    }
  }

  lemma GapContiguousIff(w: World, c: UrbResult)
    requires Inv(w) && Enabled(w, ReapNext(c)) && Contiguous(w) && Gap(w, ReapNext(c))
    ensures Contiguous(Step(w, ReapNext(c))) <==> !LosesBytes(w, ReapNext(c))
  {
    hide Inv, Enabled, Step, Reap, ReapBuffer, Flatten, Start, UrbNo;
    GapStep(w, c);
    LongerFront(w.buf, w.e.transferred, c.actual, Flatten(w.received),
                w.buf[Start(w, w.reaped)..Start(w, w.reaped) + c.actual]);
  }

  /** A gap leaves the buffer as it is. */
  lemma GapStep(w: World, c: UrbResult)
    requires Inv(w) && Enabled(w, ReapNext(c)) && Gap(w, ReapNext(c))
    ensures Start(w, w.reaped) + c.actual <= |w.buf| && w.e.transferred + c.actual <= |w.buf|
    ensures var w' := Step(w, ReapNext(c));
            && w'.buf == w.buf && w'.e.transferred == w.e.transferred + c.actual
            && Flatten(w'.received) ==
               Flatten(w.received) + w.buf[Start(w, w.reaped)..Start(w, w.reaped) + c.actual]
  {
    hide Reap, Flatten, Offset, UrbLength;
    Slice(w, w.reaped);
    FlattenAppend(w.received, w.buf[Start(w, w.reaped)..Start(w, w.reaped) + c.actual]);
    ReapAdvances(w.e, w.reaped, UrbNo(w, w.reaped), c);
  }

  lemma LongerFront(buf: seq<Byte>, t: nat, n: nat, front: seq<Byte>, block: seq<Byte>)
    requires t + n <= |buf| && |block| == n && buf[..t] == front
    ensures buf[..t + n] == front + block <==> buf[t..t + n] == block
  {
    assert buf[..t + n] == front + buf[t..t + n];
    assert (front + block)[t..] == block && buf[..t + n][t..] == buf[t..t + n];
  }

  /** A wrong byte below `transferred` stays wrong. */
  lemma HoleStays(w: World, ev: Event)
    requires Inv(w) && Enabled(w, ev) && !Contiguous(w)
    ensures !Contiguous(Step(w, ev))
  {
    match ev
    case KernelWrite(k, data) =>
      Slice(w, k);
      OffsetMono(w.reaped, k, w.e.length, w.e.blk);
      assert Step(w, ev).buf[..w.e.transferred] == w.buf[..w.e.transferred];
    case ReapNext(c) => ReapKeepsHole(w, c);
    case UserCancel(_) =>
  }

  lemma ReapKeepsHole(w: World, c: UrbResult)
    requires Inv(w) && Enabled(w, ReapNext(c)) && !Contiguous(w)
    ensures !Contiguous(Step(w, ReapNext(c)))
  {
    Slice(w, w.reaped);
    var w', t, n := Step(w, ReapNext(c)), w.e.transferred, c.actual;
    var block := w.buf[Start(w, w.reaped)..Start(w, w.reaped) + n];
    FlattenAppend(w.received, block);
    ReapAdvances(w.e, w.reaped, UrbNo(w, w.reaped), c);
    FrontKept(w.buf, w.e, UrbNo(w, w.reaped), c);
    hide Reap, ReapBuffer, Flatten, Offset, UrbLength;
    PrefixKept(w'.buf, t, n, Flatten(w.received), block);
  }

  /** A reap writes nothing below `transferred`. */
  lemma FrontKept(buf: seq<Byte>, e: Engine, urb: Urb, c: UrbResult)
    requires e.transferred + c.actual <= |buf| && urb.offset + c.actual <= |buf|
    ensures ReapBuffer(buf, e, urb, c)[..e.transferred] == buf[..e.transferred]
  {
  }

  lemma PrefixKept(buf: seq<Byte>, t: nat, n: nat, front: seq<Byte>, block: seq<Byte>)
    requires t + n <= |buf| && |front| == t && |block| == n
    ensures buf[..t + n] == front + block ==> buf[..t] == front
  {
    assert buf[..t] == buf[..t + n][..t] && (front + block)[..t] == front;
  }

  ghost predicate NeverLoses(w: World, evs: seq<Event>)
    requires Inv(w) && RunEnabled(w, evs)
    decreases |evs|
  {
    evs != [] ==> !LosesBytes(w, evs[0]) && (InvKept(w, evs[0]); NeverLoses(Step(w, evs[0]), evs[1..]))
  }

  lemma {:induction false} HoleStaysInRun(w: World, evs: seq<Event>)
    requires Inv(w) && RunEnabled(w, evs) && !Contiguous(w)
    ensures !Contiguous(Run(w, evs))
    decreases |evs|
  {
    if evs != [] {
      InvKept(w, evs[0]);
      HoleStays(w, evs[0]);
      hide Inv, Contiguous, Step;
      HoleStaysInRun(Step(w, evs[0]), evs[1..]);
    }
  }

  /** The exact condition over whole runs: the front of the buffer is what was received if and only if
      no reap of the run lost bytes in a gap. */
  lemma {:induction false} ContiguousRunIff(w: World, evs: seq<Event>)
    requires Inv(w) && RunEnabled(w, evs) && Contiguous(w)
    ensures Contiguous(Run(w, evs)) <==> NeverLoses(w, evs)
    decreases |evs|
  {
    if evs != [] {
      InvKept(w, evs[0]);
      ContiguousStepIff(w, evs[0]);
      hide Inv, Contiguous, Step, LosesBytes;
      if Contiguous(Step(w, evs[0])) {
        ContiguousRunIff(Step(w, evs[0]), evs[1..]);
      } else {
        HoleStaysInRun(Step(w, evs[0]), evs[1..]);
      }
    }
  }

  /** The hole is real: a transfer split over two 16 kB URBs, the first stalls after one byte, the
      second brings one byte; the two bytes reported are not the two bytes received. */
  lemma HoleExample() returns (buf: seq<Byte>, evs: seq<Event>)
    ensures |buf| == 2 * MAX_BULK_BUFFER_LENGTH == 2 * BlockSize(Caps(false, false, false, false), |buf|)
    ensures UrbCount(|buf|, MAX_BULK_BUFFER_LENGTH) == 2
    ensures var w := StartOf(buf, MAX_BULK_BUFFER_LENGTH, false, 2, OtherErrno);
            Inv(w) && RunEnabled(w, evs) && |Run(w, evs).reports| == 1 && !Contiguous(Run(w, evs))
  {
    var blk := MAX_BULK_BUFFER_LENGTH;
    buf := seq(2 * blk, i => if i == blk then 1 else 0);
    assert UrbCount(2 * blk, blk) == 2;
    var w := StartOf(buf, blk, false, 2, OtherErrno);
    SubmissionStarts(buf, blk, false, 2, OtherErrno);
    var w1, w2 := HoleRun(w);
    evs := [ReapNext(UrbResult(EPipe, 1)), ReapNext(UrbResult(Ok, 1))];
    RunOfTwo(w, evs[0], evs[1]);
  }

  lemma RunOfTwo(w: World, a: Event, b: Event)
    requires Inv(w) && Enabled(w, a) && Inv(Step(w, a)) && Enabled(Step(w, a), b) && Inv(Step(Step(w, a), b))
    ensures RunEnabled(w, [a, b]) && Run(w, [a, b]) == Step(Step(w, a), b)
  {
    var w1, w2 := Step(w, a), Step(Step(w, a), b);
    hide Inv, Enabled, Step;
    assert [a, b][1..] == [b] && [b][1..] == [];
    assert RunEnabled(w2, []) && Run(w2, []) == w2;
    assert RunEnabled(w1, [b]) && Run(w1, [b]) == w2;
  }

  lemma HoleRun(w: World) returns (w1: World, w2: World)
    requires Inv(w) && w.submitted == 2 && w.e.blk == MAX_BULK_BUFFER_LENGTH && w.e.length == 2 * w.e.blk
    requires w.reaped == 0 && w.received == [] && w.e.action == Normal && w.e.status == Completed && w.e.numUrbs == 2
    requires w.buf == seq(|w.buf|, i => if i == w.e.blk then 1 else 0)
    ensures Enabled(w, ReapNext(UrbResult(EPipe, 1))) && w1 == Step(w, ReapNext(UrbResult(EPipe, 1)))
    ensures Inv(w1) && Enabled(w1, ReapNext(UrbResult(Ok, 1))) && w2 == Step(w1, ReapNext(UrbResult(Ok, 1)))
    ensures !Contiguous(w2) && |w2.reports| == 1 && Inv(w2)
  {
    var blk := w.e.blk;
    InvKept(w, ReapNext(UrbResult(EPipe, 1)));
    w1 := Step(w, ReapNext(UrbResult(EPipe, 1)));
    assert w1.reaped == 1 && w1.e.transferred == 1 && w1.e.action == Normal && w1.buf == w.buf;
    Slice(w1, 1);
    InvKept(w1, ReapNext(UrbResult(Ok, 1)));
    w2 := Step(w1, ReapNext(UrbResult(Ok, 1)));
    assert w2.reaped == 2;
    FlattenAppend(w1.received, w1.buf[blk..blk + 1]);
    assert w2.buf[1] == 0 && Flatten(w2.received)[1] == 1;
  }
}
