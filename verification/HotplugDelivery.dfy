/**
 Hotplug messages travel through the event pipe: the queue that keeps devices alive is the one that the
 event protocol fills and empties, so what a handler delivers names live devices.
 */
module HotplugDelivery {
  import opened Usb
  import opened EventData
  import EventProtocol
  import EventSafety
  import EventOrder
  import H = Hotplug

  /** The moves of the monitor thread and of the handler on the queue are the sections under
      event_data_lock, and no other move touches the queue. */
  lemma MovesAreSections(w: H.World, m: H.Move, d: EventState)
    requires H.Enabled(w, m) && d.msgs == w.queue
    ensures m.AnnounceArrival? && w.ready ==> H.Step(w, m).queue == NotifyHotplug(d, Arrived(w.monitor.d)).msgs
    ensures m.AnnounceLeft? && w.ready ==> H.Step(w, m).queue == NotifyHotplug(d, Left(w.monitor.d)).msgs
    ensures m.Take? ==> TakeMessage(d) == (d.(msgs := H.Step(w, m).queue), H.Step(w, m).inHand)
    ensures !m.Take? && !(w.ready && (m.AnnounceArrival? || m.AnnounceLeft?)) ==> H.Step(w, m).queue == d.msgs
  {
  }

  /** The handler can take a message exactly when its section finds one. */
  lemma TakeIsEnabledIff(w: H.World, d: EventState)
    requires d.msgs == w.queue && w.inHand.None?
    ensures H.Enabled(w, H.Take) <==> TakeMessage(d).1.Some?
  {
  }

  function Announces(w: H.World, m: H.Move): seq<Message>
    requires H.Enabled(w, m)
  {
    if !w.ready then []
    else if m.AnnounceArrival? then [Arrived(w.monitor.d)]
    else if m.AnnounceLeft? then [Left(w.monitor.d)]
    else []
  }

  function Takes(w: H.World, m: H.Move): seq<Message>
    requires H.Enabled(w, m)
  {
    if m.Take? then [H.Step(w, m).inHand.value] else []
  }

  /** What the monitor thread announces in a run. */
  ghost function Announced(w: H.World, ms: seq<H.Move>): seq<Message>
    requires H.IsRun(w, ms)
    decreases |ms|
  {
    if ms == [] then [] else Announces(w, ms[0]) + Announced(H.Step(w, ms[0]), ms[1..])
  }

  /** What the handler takes in a run. */
  ghost function Taken(w: H.World, ms: seq<H.Move>): seq<Message>
    requires H.IsRun(w, ms)
    decreases |ms|
  {
    if ms == [] then [] else Takes(w, ms[0]) + Taken(H.Step(w, ms[0]), ms[1..])
  }

  lemma StepKeepsOrder(w: H.World, m: H.Move)
    requires H.Enabled(w, m)
    ensures Takes(w, m) + H.Step(w, m).queue == w.queue + Announces(w, m)
  {
    if m.SetupFails? || m.AnnounceLeft? {
      UnrefKeepsQueue(w, w.monitor.d);
      if m.AnnounceLeft? {
        UnrefKeepsQueue(w.(queue := w.queue + [Left(w.monitor.d)]), w.monitor.d);
        UnrefKeepsQueue(w.(stray := H.Plus(w.stray, w.monitor.d)), w.monitor.d);
      }
    } else if m.UserUnref? {
      UnrefKeepsQueue(w, m.d);
    } else if m.Delivered? && w.inHand.value.Left? {
      UnrefKeepsQueue(w, w.inHand.value.device);
    }
    hide H.Unref, H.Plus;
  }

  lemma UnrefKeepsQueue(w: H.World, d: nat)
    ensures H.Unref(w, d).queue == w.queue && H.Unref(w, d).inHand == w.inHand
  {
  }

  /** Messages are taken in the order of the announcements. */
  lemma {:induction false} TakenInOrder(w: H.World, ms: seq<H.Move>)
    requires H.IsRun(w, ms)
    ensures Taken(w, ms) + H.After(w, ms).queue == w.queue + Announced(w, ms)
    decreases |ms|
  {
    if ms != [] {
      var w' := H.Step(w, ms[0]);
      StepKeepsOrder(w, ms[0]);
      TakenInOrder(w', ms[1..]);
      Joined(Takes(w, ms[0]), Taken(w', ms[1..]), H.After(w', ms[1..]).queue, w'.queue,
             w.queue, Announces(w, ms[0]), Announced(w', ms[1..]));
    }
  }

  lemma HandInStep(w: H.World, m: H.Move)
    requires H.Enabled(w, m)
    ensures var hand := H.Step(w, m).inHand;
            hand.Some? ==> if Takes(w, m) == [] then hand == w.inHand else Takes(w, m) == [hand.value]
  {
    if m.SetupFails? || m.UserUnref? {
      UnrefKeepsQueue(w, if m.UserUnref? then m.d else w.monitor.d);
    }
    hide H.Plus;
  }

  /** What is at hand was taken last. */
  lemma {:induction false} HandTakenLast(w: H.World, ms: seq<H.Move>)
    requires H.IsRun(w, ms)
    ensures var taken, hand := Taken(w, ms), H.After(w, ms).inHand;
            hand.Some? ==> if taken == [] then hand == w.inHand else taken[|taken| - 1] == hand.value
    decreases |ms|
  {
    if ms != [] {
      HandInStep(w, ms[0]);
      hide H.Step, Takes;
      HandTakenLast(H.Step(w, ms[0]), ms[1..]);
    }
  }

  lemma Joined<T>(out: seq<T>, more: seq<T>, last: seq<T>, middle: seq<T>, queue: seq<T>, new_: seq<T>, newer: seq<T>)
    requires out + middle == queue + new_ && more + last == middle + newer
    ensures (out + more) + last == queue + (new_ + newer)
  {
    calc {
      (out + more) + last;
      out + (more + last);
      out + (middle + newer);
      (out + middle) + newer;
      (queue + new_) + newer;
      queue + (new_ + newer);
    }
  }

  lemma SameSplit<T>(a: seq<T>, b: seq<T>, a': seq<T>, b': seq<T>)
    requires a + b == a' + b' && |a| == |a'|
    ensures a == a' && b == b'
  {
    assert (a + b)[..|a|] == a && (a' + b')[..|a'|] == a';
    assert (a + b)[|a|..] == b && (a' + b')[|a'|..] == b';
  }

  /** The two histories meet: when the monitor thread announced what was signalled in a run of the event
      protocol, and the handler took as many messages as left its queue, then it took the same ones, and
      every device that a message still queued names is alive, and so is the device of the message in the
      hand of the handler. */
  lemma QueuedDevicesLive(ms: seq<H.Move>, run: seq<EventProtocol.State>, moves: seq<EventProtocol.Move>,
                          pipe: PollFd, timer: Option<PollFd>)
    requires H.IsRun(H.EMPTY, ms)
    requires EventOrder.Traced(run, moves, InternalFds(pipe, timer)) && run[0] == EventSafety.Start(pipe, timer)
    requires Announced(H.EMPTY, ms) == EventOrder.Announced(moves)
    requires |H.After(H.EMPTY, ms).queue| == |run[|run| - 1].sh.d.msgs|
    ensures var w, s := H.After(H.EMPTY, ms), run[|run| - 1];
            && s.sh.d.msgs == w.queue
            && Taken(H.EMPTY, ms) == EventOrder.Delivered(run, moves) + EventOrder.InHand(s)
            && forall i, d :: 0 <= i < |s.sh.d.msgs| && d in H.Names(s.sh.d.msgs[i]) ==> d in w.refcnt
    ensures var w, s := H.After(H.EMPTY, ms), run[|run| - 1];
            EventOrder.InHand(s) != [] && w.inHand.Some? ==>
              && EventOrder.InHand(s) == [w.inHand.value]
              && forall d :: d in H.Names(w.inHand.value) ==> d in w.refcnt
  {
    var w, s := H.After(H.EMPTY, ms), run[|run| - 1];
    TakenInOrder(H.EMPTY, ms);
    EventOrder.DeliveredInOrder(run, moves, pipe, timer);
    HandTakenLast(H.EMPTY, ms);
    H.MessagesNameLiveDevices(ms);
    assert H.EMPTY.queue + Announced(H.EMPTY, ms) == Announced(H.EMPTY, ms);
    var left := EventOrder.Delivered(run, moves) + EventOrder.InHand(s);
    assert left + s.sh.d.msgs == Taken(H.EMPTY, ms) + w.queue;
    SameSplit(left, s.sh.d.msgs, Taken(H.EMPTY, ms), w.queue);
  }
}
