/**
 Hotplug: who holds the references that keep devices alive while messages about them travel from
 the monitor thread to the event handler, and which callbacks a message reaches.
 */
module Hotplug {
  import opened Usb
  import opened EventData

  type DevId = nat

  /** What the thread that holds linux_hotplug_lock is doing: nothing; setting up a new device; between
      putting a device on usb_devs and announcing it; or between taking it off and announcing that
      (holding a reference of its own from usbi_get_device_by_session_id). */
  datatype Monitor = Resting | Fresh(d: DevId) | Connecting(d: DevId) | Disconnecting(d: DevId)

  /** `refcnt` has the devices that are not destroyed. `inHand` is the message that handle_events is
      delivering, `users` counts the references of the application (open handles, transfers, device
      lists), `ready` says that the message list is initialised. `stray` counts references that
      nobody will ever drop, and `broken` records a reference dropped on a dead device. */
  datatype World = World(
    refcnt: map<DevId, nat>, listed: set<DevId>, queue: seq<Message>, inHand: Option<Message>,
    monitor: Monitor, users: map<DevId, nat>, ready: bool, stray: map<DevId, nat>, broken: bool)

  const EMPTY := World(map[], {}, [], None, Resting, map[], false, map[], false)

  function At(m: map<DevId, nat>, d: DevId): nat {
    if d in m then m[d] else 0
  }

  function Plus(m: map<DevId, nat>, d: DevId): map<DevId, nat> {
    m[d := At(m, d) + 1]
  }

  /** libusb_unref_device on the counter: the last reference destroys the device. */
  function Unref(w: World, d: DevId): World {
    if d !in w.refcnt || w.refcnt[d] == 0 then w.(broken := true)
    else if w.refcnt[d] == 1 then w.(refcnt := w.refcnt - {d})
    else w.(refcnt := w.refcnt[d := w.refcnt[d] - 1])
  }

  datatype Move =
    | Allocate(d: DevId)
    | SetupFails
    | List
    | AnnounceArrival
    | Delist(d: DevId)
    | AnnounceLeft
    | BecomeReady
    | Take
    | Delivered
    | UserRef(d: DevId)
    | UserUnref(d: DevId)

  function Names(m: Message): set<DevId> {
    match m
    case Arrived(d) => {d}
    case Left(d) => {d}
    case Deregister => {}
  }

  predicate Enabled(w: World, m: Move) {
    match m
    case Allocate(d) => w.monitor.Resting? && d !in w.refcnt
    case SetupFails => w.monitor.Fresh?
    case List => w.monitor.Fresh?
    case AnnounceArrival => w.monitor.Connecting?
    case Delist(d) => w.monitor.Resting? && d in w.listed
    case AnnounceLeft => w.monitor.Disconnecting?
    case BecomeReady => true
    case Take => w.inHand.None? && w.queue != []
    case Delivered => w.inHand.Some?
    // the application can reach a device that is listed, named by the message at hand, or its own
    case UserRef(d) => d in w.listed || (w.inHand.Some? && d in Names(w.inHand.value)) || At(w.users, d) > 0
    case UserUnref(d) => At(w.users, d) > 0
  }

  function Step(w: World, m: Move): World
    requires Enabled(w, m)
  {
    match m
    case Allocate(d) => w.(refcnt := w.refcnt[d := 1], monitor := Fresh(d))
    case SetupFails => Unref(w, w.monitor.d).(monitor := Resting)
    case List => w.(listed := w.listed + {w.monitor.d}, monitor := Connecting(w.monitor.d))
    case AnnounceArrival =>
      w.(queue := if w.ready then w.queue + [Arrived(w.monitor.d)] else w.queue, monitor := Resting)
    case Delist(d) => w.(refcnt := Plus(w.refcnt, d), listed := w.listed - {d}, monitor := Disconnecting(d))
    case AnnounceLeft =>
      var d := w.monitor.d;
      var told := if w.ready then w.(queue := w.queue + [Left(d)]) else w.(stray := Plus(w.stray, d));
      Unref(told, d).(monitor := Resting)
    case BecomeReady => w.(ready := true)
    case Take => w.(queue := w.queue[1..], inHand := Some(w.queue[0]))
    case Delivered =>
      (match w.inHand.value
       case Left(d) => Unref(w, d).(inHand := None)
       case _ => w.(inHand := None))
    case UserRef(d) => w.(refcnt := Plus(w.refcnt, d), users := Plus(w.users, d))
    case UserUnref(d) => Unref(w, d).(users := w.users[d := w.users[d] - 1])
  }

  // ------------------------------------------------------------------ the invariant

  function LeftCount(queue: seq<Message>, d: DevId): nat {
    if queue == [] then 0 else (if queue[0] == Left(d) then 1 else 0) + LeftCount(queue[1..], d)
  }

  lemma {:induction false} LeftCountAppend(queue: seq<Message>, m: Message, d: DevId)
    ensures LeftCount(queue + [m], d) == LeftCount(queue, d) + (if m == Left(d) then 1 else 0)
  {
    if queue == [] {
      assert [m][1..] == [];
      assert queue + [m] == [m];
    } else {
      LeftCountAppend(queue[1..], m, d);
      assert (queue + [m])[1..] == queue[1..] + [m];
    }
  }

  lemma {:induction false} LeftCountPositive(queue: seq<Message>, d: DevId, j: nat)
    requires j < |queue| && queue[j] == Left(d)
    ensures LeftCount(queue, d) > 0
  {
    if j > 0 {
      LeftCountPositive(queue[1..], d, j - 1);
    }
  }

  function One(b: bool): nat { if b then 1 else 0 }

  /** All references to a device, by who holds them: the list, the monitor thread, the messages that
      say it left, the message at hand, the application, nobody. */
  function Owed(w: World, d: DevId): nat {
    One(d in w.listed) + One(w.monitor == Fresh(d)) + 2 * One(w.monitor == Disconnecting(d)) +
    LeftCount(w.queue, d) + One(w.inHand == Some(Left(d))) + At(w.users, d) + At(w.stray, d)
  }

  /** A device that was announced is still listed, or is being taken off, or its "left" message
      comes later in the queue. */
  predicate Covered(w: World, d: DevId, from: nat)
    requires from <= |w.queue|
  {
    d in w.listed || w.monitor == Disconnecting(d) || exists j :: from <= j < |w.queue| && w.queue[j] == Left(d)
  }

  ghost predicate Inv(w: World) {
    && !w.broken
    && (forall d :: At(w.refcnt, d) == Owed(w, d))
    && (forall d :: d in w.refcnt ==> w.refcnt[d] > 0)
    && (forall i :: 0 <= i < |w.queue| && w.queue[i].Arrived? ==> Covered(w, w.queue[i].device, i + 1))
    && (w.inHand.Some? && w.inHand.value.Arrived? ==> Covered(w, w.inHand.value.device, 0))
    && (w.monitor.Connecting? ==> w.monitor.d in w.listed)
    && (!w.ready ==> w.queue == [] && w.inHand.None?)
    && (w.monitor.Fresh? || w.monitor.Disconnecting? ==> w.monitor.d !in w.listed)
  }

  /** A covered device is alive: something in its cover holds a reference. */
  lemma CoveredIsAlive(w: World, d: DevId, from: nat)
    requires Inv(w) && from <= |w.queue| && Covered(w, d, from)
    ensures d in w.refcnt
  {
    assert At(w.refcnt, d) == Owed(w, d);
    if d !in w.listed && w.monitor != Disconnecting(d) {
      var j :| from <= j < |w.queue| && w.queue[j] == Left(d);
      LeftCountPositive(w.queue, d, j);
    }
  }

  /** Every device that a queued message or the message at hand names is alive. */
  lemma NamedAreAlive(w: World)
    requires Inv(w)
    ensures forall i, d :: 0 <= i < |w.queue| && d in Names(w.queue[i]) ==> d in w.refcnt
    ensures forall d :: w.inHand.Some? && d in Names(w.inHand.value) ==> d in w.refcnt
  {
    forall i, d | 0 <= i < |w.queue| && d in Names(w.queue[i])
      ensures d in w.refcnt
    {
      MessageIsAlive(w, i, d);
    }
    forall d | w.inHand.Some? && d in Names(w.inHand.value)
      ensures d in w.refcnt
    {
      assert At(w.refcnt, d) == Owed(w, d);
      if w.inHand.value.Arrived? {
        CoveredIsAlive(w, d, 0);
      }
    }
  }

  lemma MessageIsAlive(w: World, i: nat, d: DevId)
    requires Inv(w) && i < |w.queue| && d in Names(w.queue[i])
    ensures d in w.refcnt
  {
    assert At(w.refcnt, d) == Owed(w, d);
    if w.queue[i].Arrived? {
      CoveredIsAlive(w, d, i + 1);
    } else {
      LeftCountPositive(w.queue, d, i);
    }
  }

  lemma UnrefCounts(w: World, d: DevId, x: DevId)
    requires At(w.refcnt, d) > 0
    ensures At(Unref(w, d).refcnt, x) == At(w.refcnt, x) - One(x == d)
    ensures !w.broken ==> !Unref(w, d).broken
    ensures (forall y :: y in w.refcnt ==> w.refcnt[y] > 0) ==>
              forall y :: y in Unref(w, d).refcnt ==> Unref(w, d).refcnt[y] > 0
  {
  }

  lemma StepKeepsInv(w: World, m: Move)
    requires Inv(w) && Enabled(w, m)
    ensures Inv(Step(w, m))
  {
    match m
    case Allocate(d) => AllocateKeepsInv(w, d);
    case AnnounceArrival => ArrivalKeepsInv(w);
    case Delist(d) => DelistKeepsInv(w, d);
    case AnnounceLeft => LeftKeepsInv(w);
    case Take => TakeKeepsInv(w);
    case UserRef(d) => UserRefKeepsInv(w, d);
    case SetupFails => SetupFailsKeepsInv(w);
    case Delivered =>
      if w.inHand.value.Left? { LeftDeliveredKeepsInv(w); } else { QuietKeepsInv(w, m); }
    case UserUnref(d) => UserUnrefKeepsInv(w, d);
    case _ => QuietKeepsInv(w, m);
  }

  lemma AllocateKeepsInv(w: World, d: DevId)
    requires Inv(w) && Enabled(w, Allocate(d))
    ensures Inv(Step(w, Allocate(d)))
  {
    assert At(w.refcnt, d) == Owed(w, d) == 0;
    var w' := Step(w, Allocate(d));
    forall x
      ensures At(w'.refcnt, x) == Owed(w', x)
    {
      assert At(w.refcnt, x) == Owed(w, x);
    }
    CoversStay(w, w');
  }

  /** Covers stay when nothing is taken from the list and the queue keeps its place. */
  lemma CoversStay(w: World, w': World)
    requires Inv(w) && w.listed <= w'.listed && w.queue <= w'.queue && !w.monitor.Disconnecting?
    ensures forall i :: 0 <= i < |w.queue| && w.queue[i].Arrived? ==> Covered(w', w.queue[i].device, i + 1)
    ensures w.inHand.Some? && w.inHand.value.Arrived? ==> Covered(w', w.inHand.value.device, 0)
  {
    forall i | 0 <= i < |w.queue| && w.queue[i].Arrived?
      ensures Covered(w', w.queue[i].device, i + 1)
    {
      CoverStays(w, w', w.queue[i].device, i + 1);
    }
    if w.inHand.Some? && w.inHand.value.Arrived? {
      CoverStays(w, w', w.inHand.value.device, 0);
    }
  }

  lemma CoverStays(w: World, w': World, d: DevId, from: nat)
    requires from <= |w.queue| && Covered(w, d, from)
    requires w.listed <= w'.listed && w.queue <= w'.queue && w.monitor != Disconnecting(d)
    ensures Covered(w', d, from)
  {
    if d !in w.listed {
      var j :| from <= j < |w.queue| && w.queue[j] == Left(d);
      assert w'.queue[j] == Left(d);
    }
  }

  lemma ArrivalKeepsInv(w: World)
    requires Inv(w) && Enabled(w, AnnounceArrival)
    ensures Inv(Step(w, AnnounceArrival))
  {
    var w' := Step(w, AnnounceArrival);
    forall x
      ensures At(w'.refcnt, x) == Owed(w', x)
    {
      assert At(w.refcnt, x) == Owed(w, x);
      LeftCountAppend(w.queue, Arrived(w.monitor.d), x);
    }
    CoversStay(w, w');
  }

  lemma DelistKeepsInv(w: World, d: DevId)
    requires Inv(w) && Enabled(w, Delist(d))
    ensures Inv(Step(w, Delist(d)))
  {
    var w' := Step(w, Delist(d));
    forall x
      ensures At(w'.refcnt, x) == Owed(w', x)
    {
      assert At(w.refcnt, x) == Owed(w, x);
    }
    assert At(w.refcnt, d) > 0 by {
      assert At(w.refcnt, d) == Owed(w, d);
    }
    forall i | 0 <= i < |w.queue| && w.queue[i].Arrived?
      ensures Covered(w', w.queue[i].device, i + 1)
    {
      assert Covered(w, w.queue[i].device, i + 1);
    }
  }

  /** The reference of the list goes to the "left" message, and the monitor drops its own. */
  lemma LeftKeepsInv(w: World)
    requires Inv(w) && Enabled(w, AnnounceLeft)
    ensures Inv(Step(w, AnnounceLeft))
  {
    var d, w' := w.monitor.d, Step(w, AnnounceLeft);
    assert At(w.refcnt, d) == Owed(w, d) >= 2;
    var told := if w.ready then w.(queue := w.queue + [Left(d)]) else w.(stray := Plus(w.stray, d));
    forall x
      ensures At(w'.refcnt, x) == Owed(w', x)
    {
      assert At(w.refcnt, x) == Owed(w, x);
      LeftCountAppend(w.queue, Left(d), x);
      UnrefCounts(told, d, x);
    }
    UnrefCounts(told, d, d);
    if w.ready {
      assert w'.queue[|w.queue|] == Left(d);
      LeftCovers(w, w', d);
    }
  }

  lemma LeftCovers(w: World, w': World, d: DevId)
    requires Inv(w) && w.monitor == Disconnecting(d) && w'.listed == w.listed
    requires w'.queue == w.queue + [Left(d)] && w'.inHand == w.inHand
    ensures forall i :: 0 <= i < |w'.queue| && w'.queue[i].Arrived? ==> Covered(w', w'.queue[i].device, i + 1)
    ensures w'.inHand.Some? && w'.inHand.value.Arrived? ==> Covered(w', w'.inHand.value.device, 0)
  {
    assert w'.queue[|w.queue|] == Left(d);
    forall i | 0 <= i < |w'.queue| && w'.queue[i].Arrived?
      ensures Covered(w', w'.queue[i].device, i + 1)
    {
      if w.queue[i].device != d {
        CoverStays(w, w', w.queue[i].device, i + 1);
      }
    }
    if w.inHand.Some? && w.inHand.value.Arrived? && w.inHand.value.device != d {
      CoverStays(w, w', w.inHand.value.device, 0);
    }
  }

  lemma TakeKeepsInv(w: World)
    requires Inv(w) && Enabled(w, Take)
    ensures Inv(Step(w, Take))
  {
    var w' := Step(w, Take);
    forall x
      ensures At(w'.refcnt, x) == Owed(w', x)
    {
      assert At(w.refcnt, x) == Owed(w, x);
    }
    forall i | 0 <= i < |w.queue| && w.queue[i].Arrived?
      ensures Covered(w', w.queue[i].device, i)
    {
      var d := w.queue[i].device;
      assert Covered(w, d, i + 1);
      if d !in w.listed && w.monitor != Disconnecting(d) {
        var j :| i + 1 <= j < |w.queue| && w.queue[j] == Left(d);
        assert w'.queue[j - 1] == Left(d);
      }
    }
    assert forall i :: 0 <= i < |w'.queue| ==> w'.queue[i] == w.queue[i + 1];
  }

  lemma UserRefKeepsInv(w: World, d: DevId)
    requires Inv(w) && Enabled(w, UserRef(d))
    ensures Inv(Step(w, UserRef(d)))
  {
    var w' := Step(w, UserRef(d));
    forall x
      ensures At(w'.refcnt, x) == Owed(w', x)
    {
      assert At(w.refcnt, x) == Owed(w, x);
    }
    forall i | 0 <= i < |w.queue| && w.queue[i].Arrived?
      ensures Covered(w', w.queue[i].device, i + 1)
    {
      assert Covered(w, w.queue[i].device, i + 1);
    }
  }

  /** Covers depend only on the list, the queue and the monitor. */
  lemma CoversFollow(w: World, w': World)
    requires Inv(w) && w'.queue == w.queue && w.listed <= w'.listed
    requires w.monitor.Disconnecting? ==> w'.monitor == w.monitor
    ensures forall i :: 0 <= i < |w'.queue| && w'.queue[i].Arrived? ==> Covered(w', w'.queue[i].device, i + 1)
    ensures w.inHand.Some? && w.inHand.value.Arrived? ==> Covered(w', w.inHand.value.device, 0)
  {
  }

  lemma SetupFailsKeepsInv(w: World)
    requires Inv(w) && Enabled(w, SetupFails)
    ensures Inv(Step(w, SetupFails))
  {
    var d, w' := w.monitor.d, Step(w, SetupFails);
    DropKeepsCounts(w, w', d);
    CoversFollow(w, w');
  }

  /** A delivered "left" message gives up the reference it carried. */
  lemma LeftDeliveredKeepsInv(w: World)
    requires Inv(w) && Enabled(w, Delivered) && w.inHand.value.Left?
    ensures Inv(Step(w, Delivered))
  {
    var d, w' := w.inHand.value.device, Step(w, Delivered);
    assert w' == Unref(w, d).(inHand := None);
    assert w'.users == w.users && w'.stray == w.stray && w'.queue == w.queue && w'.monitor == w.monitor;
    DropKeepsCounts(w, w', d);
    hide Unref, Owed;
    CoversFollow(w, w');
  }

  lemma UserUnrefKeepsInv(w: World, d: DevId)
    requires Inv(w) && Enabled(w, UserUnref(d))
    ensures Inv(Step(w, UserUnref(d)))
  {
    var w' := Step(w, UserUnref(d));
    assert w'.queue == w.queue && w'.listed == w.listed && w'.monitor == w.monitor && w'.inHand == w.inHand;
    DropKeepsCounts(w, w', d);
    hide Unref, Owed;
    CoversFollow(w, w');
  }

  lemma QuietKeepsInv(w: World, m: Move)
    requires Inv(w) && Enabled(w, m) && (m.List? || m.BecomeReady? || (m.Delivered? && !w.inHand.value.Left?))
    ensures Inv(Step(w, m))
  {
    var w' := Step(w, m);
    SameCounts(w, w');
    CoversFollow(w, w');
  }

  /** One holder gives its reference to `d` up, and the counter loses exactly one. */
  lemma DropKeepsCounts(w: World, w': World, d: DevId)
    requires Inv(w) && w'.refcnt == Unref(w, d).refcnt
    requires forall x :: Owed(w', x) == Owed(w, x) - One(x == d)
    ensures forall x :: At(w'.refcnt, x) == Owed(w', x)
    ensures forall x :: x in w'.refcnt ==> w'.refcnt[x] > 0
    ensures !Unref(w, d).broken
  {
    hide Owed;
    assert Owed(w', d) == Owed(w, d) - 1;
    assert At(w.refcnt, d) == Owed(w, d);
    forall x
      ensures At(w'.refcnt, x) == Owed(w', x)
    {
      assert At(w.refcnt, x) == Owed(w, x);
      UnrefCounts(w, d, x);
    }
    UnrefCounts(w, d, d);
  }

  lemma SameCounts(w: World, w': World)
    requires Inv(w) && w'.refcnt == w.refcnt
    requires forall x :: Owed(w', x) == Owed(w, x)
    ensures forall x :: At(w'.refcnt, x) == Owed(w', x)
  {
    forall x
      ensures At(w'.refcnt, x) == Owed(w', x)
    {
      assert At(w.refcnt, x) == Owed(w, x);
    }
  }

  // ------------------------------------------------------------------- whole runs

  ghost predicate IsRun(w: World, ms: seq<Move>)
    decreases |ms|
  {
    ms != [] ==> Enabled(w, ms[0]) && IsRun(Step(w, ms[0]), ms[1..])
  }

  ghost function After(w: World, ms: seq<Move>): World
    requires IsRun(w, ms)
    decreases |ms|
  {
    if ms == [] then w else After(Step(w, ms[0]), ms[1..])
  }

  lemma {:induction false} RunInv(w: World, ms: seq<Move>)
    requires Inv(w) && IsRun(w, ms)
    ensures Inv(After(w, ms))
    decreases |ms|
  {
    if ms != [] {
      StepKeepsInv(w, ms[0]);
      RunInv(Step(w, ms[0]), ms[1..]);
    }
  }

  /** The main result. In every run of the monitor, the event handler and the application, every
      device named by a queued message or by the message at hand is alive, although "arrived"
      messages hold no reference; no reference is ever dropped twice; and every announced arrival is
      covered by the list, by the monitor, or by a later "left" message. */
  lemma MessagesNameLiveDevices(ms: seq<Move>)
    requires IsRun(EMPTY, ms)
    ensures var w := After(EMPTY, ms);
            && !w.broken
            && (forall i, d :: 0 <= i < |w.queue| && d in Names(w.queue[i]) ==> d in w.refcnt)
            && (forall d :: w.inHand.Some? && d in Names(w.inHand.value) ==> d in w.refcnt)
            && (forall i :: 0 <= i < |w.queue| && w.queue[i].Arrived? ==> Covered(w, w.queue[i].device, i + 1))
  {
    RunInv(EMPTY, ms);
    NamedAreAlive(After(EMPTY, ms));
  }

  /** How often in a run the departure of `d` was announced while the message list was not ready. */
  ghost function LostIn(w: World, ms: seq<Move>, d: DevId): nat
    requires IsRun(w, ms)
    decreases |ms|
  {
    if ms == [] then 0
    else One(ms[0].AnnounceLeft? && w.monitor == Disconnecting(d) && !w.ready) + LostIn(Step(w, ms[0]), ms[1..], d)
  }

  lemma StrayStep(w: World, m: Move, d: DevId)
    requires Enabled(w, m)
    ensures At(Step(w, m).stray, d) ==
            At(w.stray, d) + One(m.AnnounceLeft? && w.monitor == Disconnecting(d) && !w.ready)
  {
  }

  lemma {:induction false} StrayRun(w: World, ms: seq<Move>, d: DevId)
    requires IsRun(w, ms)
    ensures At(After(w, ms).stray, d) == At(w.stray, d) + LostIn(w, ms, d)
    decreases |ms|
  {
    if ms != [] {
      StrayStep(w, ms[0], d);
      StrayRun(Step(w, ms[0]), ms[1..], d);
    }
  }

  /** Nothing else is lost: once all messages are delivered and the monitor rests, the devices that
      are alive are exactly those that are listed, held by the application, or that left at some
      time before the message list was ready. */
  lemma NoReferenceLost(ms: seq<Move>, d: DevId)
    requires IsRun(EMPTY, ms)
    requires var w := After(EMPTY, ms); w.queue == [] && w.inHand.None? && w.monitor.Resting?
    ensures var w := After(EMPTY, ms);
            d in w.refcnt <==> d in w.listed || At(w.users, d) > 0 || LostIn(EMPTY, ms, d) > 0
  {
    RunInv(EMPTY, ms);
    StrayRun(EMPTY, ms, d);
    var w := After(EMPTY, ms);
    assert At(w.refcnt, d) == Owed(w, d);
  }

  /** A departure announced before the message list is ready costs one reference for good: over any
      run the references held by nobody are exactly those departures, and the device is alive in
      every later state, whatever happens then. */
  lemma LostForEver(ms: seq<Move>, later: seq<Move>, d: DevId)
    requires IsRun(EMPTY, ms) && IsRun(After(EMPTY, ms), later)
    ensures At(After(EMPTY, ms).stray, d) == LostIn(EMPTY, ms, d)
    ensures LostIn(EMPTY, ms, d) > 0 ==>
              var w := After(After(EMPTY, ms), later);
              d in w.refcnt && w.refcnt[d] >= LostIn(EMPTY, ms, d)
  {
    var now := After(EMPTY, ms);
    StrayRun(EMPTY, ms, d);
    StrayRun(now, later, d);
    RunInv(EMPTY, ms);
    RunInv(now, later);
    assert At(After(now, later).refcnt, d) == Owed(After(now, later), d);
  }

  /** Such a run: a device comes and goes before the list is ready, the application never sees it,
      and at rest it is neither listed nor used but not destroyed. */
  lemma DepartureBeforeReady(d: DevId) returns (ms: seq<Move>)
    ensures IsRun(EMPTY, ms) && LostIn(EMPTY, ms, d) == 1
    ensures var w := After(EMPTY, ms);
            w.monitor.Resting? && w.queue == [] && w.inHand.None? && d !in w.listed && At(w.users, d) == 0 &&
            w.refcnt == map[d := 1]
  {
    var w1 := Step(EMPTY, Allocate(d));
    var w2 := Step(w1, List);
    var w3 := Step(w2, AnnounceArrival);
    var w4 := Step(w3, Delist(d));
    var w5 := Step(w4, AnnounceLeft);
    var m5 := [AnnounceLeft];
    var m4 := [Delist(d)] + m5;
    var m3 := [AnnounceArrival] + m4;
    var m2 := [List] + m3;
    ms := [Allocate(d)] + m2;
    assert m5[1..] == [] && m4[1..] == m5 && m3[1..] == m4 && m2[1..] == m3 && ms[1..] == m2;
    assert w5.refcnt == map[d := 1];
    assert IsRun(w4, m5) && After(w4, m5) == w5 && LostIn(w4, m5, d) == 1;
    assert IsRun(w3, m4) && After(w3, m4) == w5 && LostIn(w3, m4, d) == 1;
    assert IsRun(w2, m3) && After(w2, m3) == w5 && LostIn(w2, m3, d) == 1;
    assert IsRun(w1, m2) && After(w1, m2) == w5 && LostIn(w1, m2, d) == 1;
  }
}
