/**
 Which runs of a bulk transfer leave contiguous data whatever the bytes are: the contents of the
 buffer and of the kernel's writes vary, everything else about the run is given.
 */
module BulkContents {
  import opened Usb
  import opened BulkUrbs
  import opened BulkRuns

  /** The same event, but for the bytes the kernel writes. */
  predicate SameEvent(a: Event, b: Event) {
    match a
    case KernelWrite(k, data) => b.KernelWrite? && b.k == k && |b.data| == |data|
    case _ => a == b
  }

  predicate SameShape(a: seq<Event>, b: seq<Event>) {
    |a| == |b| && forall i :: 0 <= i < |a| ==> SameEvent(a[i], b[i])
  }

  /** The same world, but for the bytes. */
  predicate Twins(w: World, v: World) {
    v.e == w.e && v.submitted == w.submitted && v.reaped == w.reaped
  }

  lemma TwinStep(w: World, v: World, a: Event, b: Event)
    requires Inv(w) && Inv(v) && Twins(w, v) && Enabled(w, a) && SameEvent(a, b)
    ensures Enabled(v, b) && Twins(Step(w, a), Step(v, b)) && (Gap(w, a) <==> Gap(v, b))
  {
    hide Reap, ReapBuffer, Flatten, Offset, UrbLength;
  }

  lemma {:induction false} TwinRun(w: World, v: World, a: seq<Event>, b: seq<Event>)
    requires Inv(w) && Inv(v) && Twins(w, v) && RunEnabled(w, a) && SameShape(a, b)
    ensures RunEnabled(v, b)
    ensures GapFree(w, a) <==> GapFree(v, b)
    ensures !GapFree(w, a) ==> FirstGap(w, a) == FirstGap(v, b)
    decreases |a|
  {
    if a != [] {
      InvKept(w, a[0]);
      TwinStep(w, v, a[0], b[0]);
      InvKept(v, b[0]);
      hide Inv, Enabled, Step, Gap, SameEvent;
      assert forall i :: 0 <= i < |a| - 1 ==> a[1..][i] == a[i + 1] && b[1..][i] == b[i + 1];
      TwinRun(Step(w, a[0]), Step(v, b[0]), a[1..], b[1..]);
    }
  }

  /** Where the data so far ends when the first gap opens. */
  ghost function FirstGap(w: World, evs: seq<Event>): nat
    requires Inv(w) && RunEnabled(w, evs) && !GapFree(w, evs)
    decreases |evs|
  {
    if Gap(w, evs[0]) then w.e.transferred
    else
      InvKept(w, evs[0]);
      FirstGap(Step(w, evs[0]), evs[1..])
  }

  lemma EndingKept(w: World, ev: Event)
    requires Inv(w) && Enabled(w, ev) && w.e.action != Normal
    ensures Step(w, ev).e.action != Normal && !Gap(w, ev)
  {
  }

  /** Once the transfer is being torn down, data is moved and no gap opens. */
  lemma {:induction false} EndingHasNoGap(w: World, evs: seq<Event>)
    requires Inv(w) && RunEnabled(w, evs) && w.e.action != Normal
    ensures GapFree(w, evs)
    decreases |evs|
  {
    if evs != [] {
      InvKept(w, evs[0]);
      EndingKept(w, evs[0]);
      hide Inv, Enabled, Step, Gap;
      EndingHasNoGap(Step(w, evs[0]), evs[1..]);
    }
  }

  /** A buffer with one byte that differs from all others. */
  function Spot(len: nat, p: nat): (buf: seq<Byte>)
    ensures |buf| == len
  {
    seq(len, i => if i == p then 1 else 0)
  }

  /** A write that puts there what is there already. */
  lemma IdleWrite(w: World, k: nat, data: seq<Byte>) returns (idle: seq<Byte>)
    requires Inv(w) && Enabled(w, KernelWrite(k, data))
    ensures |idle| == |data| && Enabled(w, KernelWrite(k, idle)) && Step(w, KernelWrite(k, idle)) == w
  {
    hide Flatten, Offset, UrbLength;
    Slice(w, k);
    idle := w.buf[Start(w, k)..Start(w, k) + |data|];
    assert Overwrite(w.buf, Start(w, k), idle) == w.buf;
  }

  lemma SpotIsLost(w: World, ev: Event)
    requires Inv(w) && Enabled(w, ev) && Contiguous(w) && Gap(w, ev)
    requires w.buf == Spot(|w.buf|, w.e.transferred)
    ensures !Contiguous(Step(w, ev))
  {
    hide Flatten, Offset, UrbLength, Step, Contiguous;
    Slice(w, w.reaped);
    var t, off, n := w.e.transferred, Start(w, w.reaped), ev.c.actual;
    assert w.buf[t..t + n][0] == 1 && w.buf[off..off + n][0] == 0;
    assert LosesBytes(w, ev);
    ContiguousStepIff(w, ev);
  }

  /** A step that is no gap and does not move data leaves the buffer alone. */
  lemma QuietStep(w: World, ev: Event)
    requires Inv(w) && Enabled(w, ev) && !ev.KernelWrite? && w.e.action == Normal
    ensures Step(w, ev).buf == w.buf
  {
    hide Flatten, Offset, UrbLength, Reap;
  }

  /** Contents that spoil a run with a gap. */
  lemma {:induction false} Spoil(w: World, evs: seq<Event>) returns (spoilt: seq<Event>)
    requires Inv(w) && Contiguous(w) && RunEnabled(w, evs) && !GapFree(w, evs)
    requires w.buf == Spot(|w.buf|, FirstGap(w, evs))
    ensures SameShape(evs, spoilt) && RunEnabled(w, spoilt) && !Contiguous(Run(w, spoilt))
    decreases |evs|
  {
    hide Inv, Enabled, Step, Gap, Contiguous, Spot;
    var ev, rest := evs[0], evs[1..];
    InvKept(w, ev);
    if Gap(w, ev) {
      SpotIsLost(w, ev);
      HoleStaysInRun(Step(w, ev), rest);
      spoilt := evs;
    } else {
      ContiguityKept(w, ev);
      var first, next := ev, Step(w, ev);
      if ev.KernelWrite? {
        var idle := IdleWrite(w, ev.k, ev.data);
        first, next := KernelWrite(ev.k, idle), w;
        StillTwins(w, ev);
        SameShapeAsItself(rest);
        TwinRun(Step(w, ev), w, rest, rest);
      } else {
        if w.e.action != Normal {
          EndingHasNoGap(w, evs);
        }
        QuietStep(w, ev);
      }
      var later := Spoil(next, rest);
      spoilt := [first] + later;
      assert spoilt[1..] == later;
      assert forall i :: 0 < i < |evs| ==> evs[i] == rest[i - 1] && spoilt[i] == later[i - 1];
    }
  }

  lemma StillTwins(w: World, ev: Event)
    requires Inv(w) && Enabled(w, ev) && ev.KernelWrite?
    ensures Twins(Step(w, ev), w)
  {
  }

  lemma SameShapeAsItself(evs: seq<Event>)
    ensures SameShape(evs, evs)
  {
  }

  /** The run is possible and leaves contiguous data. */
  ghost predicate EndsContiguous(w: World, evs: seq<Event>) {
    Inv(w) && RunEnabled(w, evs) && Contiguous(Run(w, evs))
  }

  /** The exact condition over whole runs, on what can be seen without looking at the bytes: whatever was
      in the buffer and whatever the kernel writes, the data ends up contiguous, if and only if no reap
      of the run is a gap. */
  lemma ContiguousForAllContentsIff(buf: seq<Byte>, blk: nat, interrupt: bool, accepted: nat, errno: SubmitErrno,
                                    evs: seq<Event>)
    requires blk > 0 && 1 <= accepted <= UrbCount(|buf|, blk)
    requires var w := StartOf(buf, blk, interrupt, accepted, errno); Inv(w) && RunEnabled(w, evs)
    ensures (forall b: seq<Byte>, es: seq<Event> | |b| == |buf| && SameShape(evs, es) ::
               EndsContiguous(StartOf(b, blk, interrupt, accepted, errno), es))
            <==> GapFree(StartOf(buf, blk, interrupt, accepted, errno), evs)
  {
    var w := StartOf(buf, blk, interrupt, accepted, errno);
    if GapFree(w, evs) {
      forall b: seq<Byte>, es: seq<Event> | |b| == |buf| && SameShape(evs, es)
        ensures EndsContiguous(StartOf(b, blk, interrupt, accepted, errno), es)
      {
        var v := StartOf(b, blk, interrupt, accepted, errno);
        SubmissionStarts(b, blk, interrupt, accepted, errno);
        TwinRun(w, v, evs, es);
        BulkRunCorrect(v, es);
      }
    } else {
      var b := Spot(|buf|, FirstGap(w, evs));
      var v := StartOf(b, blk, interrupt, accepted, errno);
      SubmissionStarts(b, blk, interrupt, accepted, errno);
      SameShapeAsItself(evs);
      TwinRun(w, v, evs, evs);
      var spoilt := Spoil(v, evs);
      assert !EndsContiguous(v, spoilt);
    }
  }
}
