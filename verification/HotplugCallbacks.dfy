/**
 Hotplug callbacks: registration, lazy deregistration, and the walk over the callback list that
 delivers one message. The walk drops hotplug_cbs_lock around each callback, so other threads and
 the callbacks themselves register and deregister while it is under way.
 */
module HotplugCallbacks {
  import opened Usb

  /** LIBUSB_HOTPLUG_MATCH_ANY */
  const MATCH_ANY := -1

  datatype Event = Arrival | Departure

  datatype Descriptor = Descriptor(vendor: int, product: int, class_: int)

  /** What a message says: an event of a device, or nothing (event 0 and a NULL device), which is
      what a deregistration sends. */
  datatype Notice = About(event: Event, device: Descriptor) | Nothing

  /** A node of the list; the handle stands for its address, too. */
  datatype Callback = Callback(
    handle: int, events: set<Event>, vendor: int, product: int, class_: int, needsFree: bool)

  // ------------------------------------------------------------ the list, as functions

  function Mark(cb: Callback, handle: int): Callback {
    if cb.handle == handle then cb.(needsFree := true) else cb
  }

  function Marked(cbs: seq<Callback>, handle: int): (r: seq<Callback>)
    ensures |r| == |cbs|
    ensures forall i :: 0 <= i < |cbs| ==> r[i] == Mark(cbs[i], handle)
  {
    seq(|cbs|, i requires 0 <= i < |cbs| => Mark(cbs[i], handle))
  }

  function Handles(cbs: seq<Callback>): (r: seq<int>)
    ensures |r| == |cbs|
    ensures forall i :: 0 <= i < |cbs| ==> r[i] == cbs[i].handle
  {
    seq(|cbs|, i requires 0 <= i < |cbs| => cbs[i].handle)
  }

  /** Where a handle is in a list of handles; the length of the list when it is not there. */
  function Place(hs: seq<int>, h: int): (k: nat)
    ensures k <= |hs|
    ensures forall i :: 0 <= i < k ==> hs[i] != h
    ensures k < |hs| ==> hs[k] == h
  {
    if hs == [] || hs[0] == h then 0 else 1 + Place(hs[1..], h)
  }

  function NeedFree(cbs: seq<Callback>): set<int> {
    set cb | cb in cbs && cb.needsFree :: cb.handle
  }

  predicate OnList(cbs: seq<Callback>, handle: int) {
    Place(Handles(cbs), handle) < |cbs|
  }

  /** The head of the list is `None`; following `next` from it gives the first node. */
  function Next(hs: seq<int>, cursor: Option<int>): Option<int> {
    var k := if cursor.None? then 0 else Place(hs, cursor.value) + 1;
    if k < |hs| then Some(hs[k]) else None
  }

  function Removed(cbs: seq<Callback>, handle: int): seq<Callback> {
    var k := Place(Handles(cbs), handle);
    if k < |cbs| then Without(cbs, k) else cbs
  }

  /** The tests of usbi_hotplug_match_cb. The event is looked at first, so a message without a
      device is turned down before the device is read. */
  predicate Wants(cb: Callback, n: Notice) {
    && n.About?
    && n.event in cb.events
    && (cb.vendor == MATCH_ANY || cb.vendor == n.device.vendor)
    && (cb.product == MATCH_ANY || cb.product == n.device.product)
    && (cb.class_ == MATCH_ANY || cb.class_ == n.device.class_)
  }

  /** The devices that are there when a callback is registered: not asked for, not to be had, or these. */
  datatype Listing = NotAsked | Fails(code: Code) | Devices(devices: seq<Descriptor>)

  /** The devices a new callback is told about: those that match, in order, until its function has
      deregistered it. */
  function Calls(cb: Callback, devices: seq<Descriptor>, drops: nat -> bool): seq<nat> {
    if devices == [] then []
    else
      var i := |devices| - 1;
      var before := Calls(cb, devices[..i], drops);
      if Wants(cb, About(Arrival, devices[i])) && !Dropping(before, drops) then before + [i] else before
  }

  predicate Dropping(called: seq<nat>, drops: nat -> bool) {
    exists k :: 0 <= k < |called| && drops(called[k])
  }

  lemma DroppingMore(called: seq<nat>, i: nat, drops: nat -> bool)
    ensures Dropping(called + [i], drops) <==> Dropping(called, drops) || drops(i)
  {
    assert (called + [i])[|called|] == i;
    if Dropping(called, drops) {
      var k :| 0 <= k < |called| && drops(called[k]);
      assert (called + [i])[k] == called[k];
    }
  }

  predicate Ascending(s: seq<nat>, below: nat) {
    && (forall k :: 0 <= k < |s| ==> s[k] < below)
    && (forall k, l :: 0 <= k < l < |s| ==> s[k] < s[l])
  }

  lemma NoneAscending()
    ensures Ascending([], 0)
  {
  }

  lemma AscendingMore(s: seq<nat>, n: nat)
    requires Ascending(s, n)
    ensures Ascending(s, n + 1) && Ascending(s + [n], n + 1)
  {
  }

  /** Devices are told about in order, and each at most once. */
  lemma {:induction false} CallsAscend(cb: Callback, devices: seq<Descriptor>, drops: nat -> bool)
    ensures Ascending(Calls(cb, devices, drops), |devices|)
    decreases |devices|
  {
    hide Wants, Dropping, Ascending;
    if devices != [] {
      var n := |devices| - 1;
      CallsAscend(cb, devices[..n], drops);
      AscendingMore(Calls(cb, devices[..n], drops), n);
    } else {
      assert Ascending([], 0) by {
        NoneAscending();
      }
    }
  }

  /** Device i is told about exactly when it matches and no device told about before it made the
      function deregister itself. */
  lemma {:induction false} ToldIff(cb: Callback, devices: seq<Descriptor>, drops: nat -> bool, i: nat)
    ensures i in Calls(cb, devices, drops) <==>
            && i < |devices| && Wants(cb, About(Arrival, devices[i]))
            && forall j :: j in Calls(cb, devices, drops) && j < i ==> !drops(j)
    decreases |devices|
  {
    hide Wants, Dropping;
    if devices != [] {
      var n := |devices| - 1;
      var before := Calls(cb, devices[..n], drops);
      ToldIff(cb, devices[..n], drops, i);
      CallsAscend(cb, devices[..n], drops);
      SomeDrops(before, drops);
    }
  }

  lemma SomeDrops(called: seq<nat>, drops: nat -> bool)
    ensures Dropping(called, drops) <==> exists j :: j in called && drops(j)
  {
    if Dropping(called, drops) {
      var k :| 0 <= k < |called| && drops(called[k]);
      assert called[k] in called;
    }
  }

  // --------------------------------------------------------------- the list, in place

  class CallbackList {
    var cbs: seq<Callback>
    var nextHandle: int

    constructor ()
      ensures cbs == [] && nextHandle == 1
    {
      cbs, nextHandle := [], 1;
    }

    /** The part of libusb_hotplug_register_callback that puts the new callback on the list. */
    method Enter(events: set<Event>, vendor: int, product: int, class_: int) returns (handle: int)
      modifies this
      ensures handle == old(nextHandle) && nextHandle == handle + 1
      ensures cbs == [Callback(handle, events, vendor, product, class_, false)] + old(cbs)
    {
      handle := nextHandle;
      nextHandle := nextHandle + 1;
      cbs := [Callback(handle, events, vendor, product, class_, false)] + cbs;
    }

    /** libusb_hotplug_register_callback. `present` is the answer to the request for the devices that
        are there already, if the flags ask for them; `drops(i)` says that the function, called for
        device i, deregisters its own callback. `called` are the devices it is called for. */
    method Register(capable: bool, events: set<Event>, vendor: int, product: int, class_: int, hasFunction: bool,
                    present: Listing, drops: nat -> bool)
      returns (r: Code, handle: Option<int>, called: seq<nat>)
      requires present.Fails? ==> present.code != Success
      modifies this
      ensures var entered := [Callback(old(nextHandle), events, vendor, product, class_, false)] + old(cbs);
              if !capable then
                r == ErrorNotSupported && handle == None && called == [] && unchanged(this)
              else if (vendor != -1 && !(0 <= vendor < 0x1_0000)) || (product != -1 && !(0 <= product < 0x1_0000)) ||
                      (class_ != -1 && !(0 <= class_ < 0x100)) || !hasFunction then
                r == ErrorInvalidParam && handle == None && called == [] && unchanged(this)
              else
                && nextHandle == old(nextHandle) + 1
                && if present.Fails? then
                     r == present.code && handle == None && called == [] && cbs == Marked(entered, old(nextHandle))
                   else
                     && r == Success && handle == Some(old(nextHandle))
                     && called == Calls(entered[0], if present.Devices? then present.devices else [], drops)
                     && cbs == if Dropping(called, drops) then Marked(entered, old(nextHandle)) else entered
    {
      handle, called := None, [];
      if !capable {
        return ErrorNotSupported, handle, called;
      }
      if (vendor != MATCH_ANY && (vendor < 0 || vendor > 0xffff)) ||
         (product != MATCH_ANY && (product < 0 || product > 0xffff)) ||
         (class_ != MATCH_ANY && (class_ < 0 || class_ > 0xff)) || !hasFunction
      {
        return ErrorInvalidParam, handle, called;
      }
      var h := Enter(events, vendor, product, class_);
      match present {
        case NotAsked =>
        case Fails(code) =>
          Deregister(h);
          return code, handle, called;
        case Devices(devices) =>
          called := Enumerate(devices, drops);
      }
      r, handle := Success, Some(h);
    }

    /** The loop over the devices that are there already. */
    method Enumerate(devices: seq<Descriptor>, drops: nat -> bool) returns (called: seq<nat>)
      requires cbs != [] && !cbs[0].needsFree
      modifies this`cbs
      ensures called == Calls(old(cbs)[0], devices, drops)
      ensures cbs == if Dropping(called, drops) then Marked(old(cbs), old(cbs)[0].handle) else old(cbs)
    {
      called := [];
      ghost var cb, before := cbs[0], cbs;
      var i := 0;
      while i < |devices|
        invariant 0 <= i <= |devices| && cb == before[0]
        invariant cbs != [] && cb.handle == cbs[0].handle
        invariant called == Calls(cb, devices[..i], drops)
        invariant cbs == if Dropping(called, drops) then Marked(before, cb.handle) else before
      {
        assert devices[..i + 1][..i] == devices[..i];
        var free, call := Examine(0, About(Arrival, devices[i]));
        if call {
          DroppingMore(called, i, drops);
          called := called + [i];
          if drops(i) {
            Deregister(cbs[0].handle);
          }
        }
        i := i + 1;
      }
      assert devices[..i] == devices;
    }

    /** The locked part of libusb_hotplug_deregister_callback: the node stays, marked. */
    method Deregister(handle: int)
      modifies this`cbs
      ensures cbs == Marked(old(cbs), handle)
      ensures |cbs| == |old(cbs)|
      ensures forall i :: 0 <= i < |cbs| ==>
                var was := old(cbs)[i];
                cbs[i] == was.(needsFree := was.needsFree || was.handle == handle)
    {
      var i := 0;
      while i < |cbs|
        invariant 0 <= i <= |cbs| == |old(cbs)|
        invariant forall k :: 0 <= k < i ==> cbs[k] == Mark(old(cbs)[k], handle)
        invariant forall k :: i <= k < |cbs| ==> cbs[k] == old(cbs)[k]
      {
        if cbs[i].handle == handle {
          cbs := cbs[i := cbs[i].(needsFree := true)];
        }
        i := i + 1;
      }
    }

    /** What usbi_hotplug_match_cb decides before it calls anything: to have the node freed, to call
        the function, or neither. */
    method Examine(i: nat, n: Notice) returns (free: bool, call: bool)
      requires i < |cbs|
      ensures free == cbs[i].needsFree
      ensures call <==> !cbs[i].needsFree && Wants(cbs[i], n)
      ensures call ==> n.About? && n.event in cbs[i].events
      ensures call ==> cbs[i].vendor == -1 || cbs[i].vendor == n.device.vendor
      ensures call ==> cbs[i].product == -1 || cbs[i].product == n.device.product
      ensures call ==> cbs[i].class_ == -1 || cbs[i].class_ == n.device.class_
      ensures !call ==>
                || cbs[i].needsFree || n.Nothing? || n.event !in cbs[i].events
                || cbs[i].vendor !in {-1, n.device.vendor}
                || cbs[i].product !in {-1, n.device.product}
                || cbs[i].class_ !in {-1, n.device.class_}
    {
      var cb := cbs[i];
      free, call := cb.needsFree, false;
      if cb.needsFree || n.Nothing? || n.event !in cb.events {
        return;
      }
      if cb.vendor != MATCH_ANY && cb.vendor != n.device.vendor {
        return;
      }
      if cb.product != MATCH_ANY && cb.product != n.device.product {
        return;
      }
      if cb.class_ != MATCH_ANY && cb.class_ != n.device.class_ {
        return;
      }
      call := true;
    }
  }

  // -------------------------------------------------------------------- the walk

  /** Looking: the lock is just taken or dropped, and the node at the cursor is not examined.
      Calling: inside the user's function. Returned: usbi_hotplug_match_cb is over. */
  datatype Phase = Looking | Calling | Returned(remove: bool)

  /** `cur` and `next` are the two pointers of list_for_each_entry_safe. For the proof, `start` has
      the nodes that were on the list when the walk began, `seen` those it is done with, `called` those
      whose function it called, and `doomed` those that were marked when it began. */
  datatype Walk = Idle | Walk(notice: Notice, cur: Option<int>, next: Option<int>, phase: Phase,
                              start: seq<int>, seen: seq<int>, called: set<int>, doomed: set<int>)

  /** What happened, oldest first: a function was called for a notice, it asked to be removed, its
      node was marked, its node was removed. */
  datatype Deed = Called(handle: int, notice: Notice) | Asked(handle: int) | Dropped(handle: int) | Freed(handle: int)

  /** `registry` remembers every callback as it was registered; `strayed` records that the walk
      followed a pointer to a node that is not on the list. */
  datatype World = World(cbs: seq<Callback>, nextHandle: int, walk: Walk, strayed: bool,
                         registry: map<int, Callback>, log: seq<Deed>)

  const EMPTY := World([], 1, Idle, false, map[], [])

  datatype Move =
    | Add(cb: Callback)
    | Drop(handle: int)
    | Begin(n: Notice)
    | Look
    | Answer(remove: bool)
    | Advance
    | End

  predicate Enabled(w: World, m: Move) {
    match m
    case Add(cb) => cb.handle == w.nextHandle && !cb.needsFree
    case Drop(h) => true
    // the events lock keeps other handlers out
    case Begin(n) => w.walk.Idle?
    case Look => w.walk.Walk? && w.walk.cur.Some? && w.walk.phase.Looking?
    case Answer(remove) => w.walk.Walk? && w.walk.cur.Some? && w.walk.phase.Calling?
    case Advance => w.walk.Walk? && w.walk.cur.Some? && w.walk.phase.Returned?
    case End => w.walk.Walk? && w.walk.cur.None?
  }

  function Begun(w: World, n: Notice): World {
    var hs := Handles(w.cbs);
    var first := Next(hs, None);
    w.(walk := Walk(n, first, Next(hs, first), Looking, hs, [], {}, NeedFree(w.cbs)))
  }

  /** usbi_hotplug_match_cb up to the call, at the node the cursor points to. */
  function Looked(w: World, cb: Callback): World
    requires Enabled(w, Look)
  {
    if cb.needsFree then w.(walk := w.walk.(phase := Returned(true)))
    else if !Wants(cb, w.walk.notice) then w.(walk := w.walk.(phase := Returned(false)))
    else w.(walk := w.walk.(phase := Calling, called := w.walk.called + {cb.handle}),
            log := w.log + [Called(cb.handle, w.walk.notice)])
  }

  /** The end of the loop body and the step to the next node. */
  function Advanced(w: World, rest: seq<Callback>, next: Option<int>): World
    requires Enabled(w, Advance)
  {
    var h := w.walk.cur.value;
    w.(cbs := rest, log := if w.walk.phase.remove then w.log + [Freed(h)] else w.log,
       walk := w.walk.(cur := w.walk.next, next := next, phase := Looking, seen := w.walk.seen + [h]))
  }

  function Step(w: World, m: Move): World
    requires Enabled(w, m)
  {
    match m
    case Add(cb) =>
      w.(cbs := [cb] + w.cbs, nextHandle := w.nextHandle + 1, registry := w.registry[cb.handle := cb])
    case Drop(h) =>
      w.(cbs := Marked(w.cbs, h), log := if OnList(w.cbs, h) then w.log + [Dropped(h)] else w.log)
    case Begin(n) => Begun(w, n)
    case Look =>
      if !OnList(w.cbs, w.walk.cur.value) then w.(strayed := true)
      else Looked(w, w.cbs[Place(Handles(w.cbs), w.walk.cur.value)])
    case Answer(remove) =>
      w.(walk := w.walk.(phase := Returned(remove)),
         log := if remove then w.log + [Asked(w.walk.cur.value)] else w.log)
    case Advance =>
      var h := w.walk.cur.value;
      var rest := if w.walk.phase.remove then Removed(w.cbs, h) else w.cbs;
      if !OnList(w.cbs, h) || (w.walk.next.Some? && !OnList(rest, w.walk.next.value)) then w.(strayed := true)
      else Advanced(w, rest, Next(Handles(rest), w.walk.next))
    case End => w.(walk := Idle)
  }

  // ------------------------------------------------------------------ the invariant

  /** Newest first: handles are given out in order and nodes are put at the head. */
  predicate Descending(hs: seq<int>, below: int) {
    && (forall i :: 0 <= i < |hs| ==> hs[i] < below)
    && (forall i, j :: 0 <= i < j < |hs| ==> hs[i] > hs[j])
  }

  /** The list has exactly the registered callbacks that were not freed, with their filters; the
      marked ones are those that were deregistered. */
  ghost predicate Sound(cbs: seq<Callback>, nextHandle: int, registry: map<int, Callback>, log: seq<Deed>) {
    && Descending(Handles(cbs), nextHandle)
    && (forall h :: h in registry ==> h < nextHandle && registry[h].handle == h)
    && (forall d :: d in log ==> d.handle in registry)
    && (forall h :: h in registry && Freed(h) !in log ==> OnList(cbs, h))
    && (forall i :: 0 <= i < |cbs| ==> SoundNode(cbs[i], registry, log))
  }

  ghost predicate SoundNode(cb: Callback, registry: map<int, Callback>, log: seq<Deed>) {
    && cb.handle in registry
    && registry[cb.handle] == cb.(needsFree := false)
    && Freed(cb.handle) !in log
    && (cb.needsFree <==> Dropped(cb.handle) in log)
  }

  ghost predicate ListInv(w: World) {
    Sound(w.cbs, w.nextHandle, w.registry, w.log)
  }

  ghost predicate LogInv(log: seq<Deed>) {
    && (forall i, j, n :: 0 <= i < j < |log| && log[i].Dropped? ==> log[j] != Called(log[i].handle, n))
    && (forall h :: Freed(h) in log ==> Dropped(h) in log || Asked(h) in log)
  }

  predicate Examined(walk: Walk, h: int) {
    walk.Walk? && (h in walk.seen || (walk.cur == Some(h) && !walk.phase.Looking?))
  }

  /** The pointers of the walk are good: the cursor is on the list, `next` is what follows it now,
      and what is left to visit is what is left of the nodes the walk began with. */
  ghost predicate CursorInv(w: World) {
    w.walk.Walk? ==>
      && CursorGood(Handles(w.cbs), w.walk.cur, w.walk.next, w.walk.start, w.walk.seen)
      && (w.walk.cur.None? ==> w.walk.phase.Looking?)
  }

  ghost predicate CursorGood(hs: seq<int>, cur: Option<int>, next: Option<int>, start: seq<int>, seen: seq<int>) {
    if cur.None? then seen == start
    else
      && Place(hs, cur.value) < |hs|
      && next == Next(hs, cur)
      && start == seen + hs[Place(hs, cur.value)..]
  }

  ghost predicate WalkInv(w: World) {
    && (forall h :: Asked(h) in w.log ==>
          Freed(h) in w.log || (w.walk.Walk? && w.walk.cur == Some(h) && w.walk.phase == Returned(true)))
    && (w.walk.Walk? ==>
          && (forall h :: h in w.walk.start ==> h in w.registry)
          && (forall i, j :: 0 <= i < j < |w.walk.start| ==> w.walk.start[i] > w.walk.start[j])
          && (forall h :: h in w.walk.doomed ==> h in w.walk.start && Dropped(h) in w.log)
          && (forall h :: h in w.walk.doomed && h in w.walk.seen ==> Freed(h) in w.log)
          && (w.walk.cur.Some? && w.walk.phase == Returned(true) ==>
                Dropped(w.walk.cur.value) in w.log || Asked(w.walk.cur.value) in w.log)
          && (w.walk.cur.Some? && w.walk.cur.value in w.walk.doomed ==>
                !w.walk.phase.Calling? && w.walk.phase != Returned(false))
          && (forall h :: h in w.walk.called ==>
                Examined(w.walk, h) && h in w.registry && Wants(w.registry[h], w.walk.notice))
          && (forall h :: h in w.registry && Examined(w.walk, h) && h !in w.walk.called ==>
                Dropped(h) in w.log || !Wants(w.registry[h], w.walk.notice)))
  }

  ghost predicate Inv(w: World) {
    !w.strayed && ListInv(w) && LogInv(w.log) && CursorInv(w) && WalkInv(w)
  }

  lemma PlacePushed(hs: seq<int>, x: int, h: int)
    ensures Place([x] + hs, h) == if x == h then 0 else 1 + Place(hs, h)
  {
    assert ([x] + hs)[1..] == hs;
  }

  /** On a list in order every place is the only one. */
  lemma OnlyPlace(hs: seq<int>, below: int, k: nat)
    requires Descending(hs, below) && k < |hs|
    ensures Place(hs, hs[k]) == k
  {
    assert Place(hs, hs[k]) <= k;
  }

  lemma PushedDescends(hs: seq<int>, below: int)
    requires Descending(hs, below)
    ensures Descending([below] + hs, below + 1)
  {
    var longer := [below] + hs;
    assert forall i :: 0 < i < |longer| ==> longer[i] == hs[i - 1];
  }

  /** Taking a node out moves the later ones up. */
  lemma WithoutDescends(hs: seq<int>, below: int, k: nat)
    requires Descending(hs, below) && k < |hs|
    ensures Descending(Without(hs, k), below)
  {
    var rest := Without(hs, k);
    hide Without;
    forall i, j | 0 <= i < |rest| && i < j <= |rest|
      ensures rest[i] < below && (j < |rest| ==> rest[i] > rest[j])
    {
      WithoutAt(hs, k, i);
      if j < |rest| {
        WithoutAt(hs, k, j);
      }
    }
  }

  lemma WithoutTail(hs: seq<int>, k: nat)
    requires k < |hs|
    ensures Without(hs, k)[k..] == hs[k + 1..]
  {
  }

  lemma TailMoves(hs: seq<int>, k: nat, seen: seq<int>)
    requires k < |hs|
    ensures seen + hs[k..] == seen + [hs[k]] + hs[k + 1..]
  {
    assert hs[k..] == [hs[k]] + hs[k + 1..];
  }

  lemma HandlesFollow(cbs: seq<Callback>, k: nat, cb: Callback)
    ensures k < |cbs| ==> Handles(Without(cbs, k)) == Without(Handles(cbs), k)
    ensures Handles([cb] + cbs) == [cb.handle] + Handles(cbs)
  {
  }

  // ---------------------------------------------------------- registering, deregistering

  lemma AddKeepsNodes(w: World, cb: Callback, i: nat)
    requires ListInv(w) && Enabled(w, Add(cb)) && i <= |w.cbs|
    ensures SoundNode(([cb] + w.cbs)[i], w.registry[cb.handle := cb], w.log)
  {
    hide OnList, Handles, Descending;
    assert Freed(cb.handle).handle == Dropped(cb.handle).handle == cb.handle;
    if i > 0 {
      assert ([cb] + w.cbs)[i] == w.cbs[i - 1] && SoundNode(w.cbs[i - 1], w.registry, w.log);
    }
  }

  lemma AddKeepsList(w: World, cb: Callback)
    requires ListInv(w) && Enabled(w, Add(cb))
    ensures Sound([cb] + w.cbs, w.nextHandle + 1, w.registry[cb.handle := cb], w.log)
  {
    hide SoundNode;
    var cbs, registry := [cb] + w.cbs, w.registry[cb.handle := cb];
    HandlesFollow(w.cbs, 0, cb);
    PushedDescends(Handles(w.cbs), w.nextHandle);
    hide Handles, Descending;
    forall h | h in registry && Freed(h) !in w.log
      ensures OnList(cbs, h)
    {
      PlacePushed(Handles(w.cbs), cb.handle, h);
    }
    hide OnList, Place;
    forall i | 0 <= i < |cbs|
      ensures SoundNode(cbs[i], registry, w.log)
    {
      AddKeepsNodes(w, cb, i);
    }
  }

  /** A node added at the head is behind the walk, wherever the walk is. */
  lemma AddKeepsCursor(hs: seq<int>, x: int, cur: Option<int>, next: Option<int>, start: seq<int>, seen: seq<int>)
    requires CursorGood(hs, cur, next, start, seen) && Place(hs, x) == |hs|
    ensures CursorGood([x] + hs, cur, next, start, seen)
  {
    if cur.Some? {
      var k := Place(hs, cur.value);
      PlacePushed(hs, x, cur.value);
      assert ([x] + hs)[k + 1..] == hs[k..];
    }
  }

  lemma AddKeepsWalk(w: World, cb: Callback)
    requires Inv(w) && Enabled(w, Add(cb))
    ensures WalkInv(Step(w, Add(cb)))
  {
    hide LogInv, Descending, Place, Wants;
    if w.walk.Walk? {
      assert cb.handle !in w.registry;
      assert !Examined(w.walk, cb.handle) by {
        StartedAreRegistered(w);
      }
    }
  }

  lemma StartedAreRegistered(w: World)
    requires ListInv(w) && CursorInv(w) && WalkInv(w) && w.walk.Walk?
    ensures forall h :: h in w.walk.seen ==> h in w.registry
    ensures w.walk.cur.Some? ==> w.walk.cur.value in w.registry
  {
    hide Wants;
    if w.walk.cur.Some? {
      assert forall h :: h in w.walk.seen ==> h in w.walk.start;
    }
  }

  lemma AddKeepsInv(w: World, cb: Callback)
    requires Inv(w) && Enabled(w, Add(cb))
    ensures Inv(Step(w, Add(cb)))
  {
    AddKeepsList(w, cb);
    AddKeepsWalk(w, cb);
    if w.walk.Walk? {
      HandlesFollow(w.cbs, 0, cb);
      assert !OnList(w.cbs, cb.handle);
      AddKeepsCursor(Handles(w.cbs), cb.handle, w.walk.cur, w.walk.next, w.walk.start, w.walk.seen);
    }
    hide Sound, LogInv, CursorGood, WalkInv, Handles;
  }

  lemma HandlesMarked(cbs: seq<Callback>, h: int)
    ensures Handles(Marked(cbs, h)) == Handles(cbs)
  {
  }

  lemma MarkedIsSound(cbs: seq<Callback>, nextHandle: int, registry: map<int, Callback>, log: seq<Deed>, h: int)
    requires Sound(cbs, nextHandle, registry, log) && OnList(cbs, h)
    ensures Sound(Marked(cbs, h), nextHandle, registry, log + [Dropped(h)])
  {
    HandlesMarked(cbs, h);
    var marked, later := Marked(cbs, h), log + [Dropped(h)];
    var k := Place(Handles(cbs), h);
    assert cbs[k].handle == h && SoundNode(cbs[k], registry, log);
    hide Place;
    forall i | 0 <= i < |cbs|
      ensures SoundNode(marked[i], registry, later)
    {
      assert SoundNode(cbs[i], registry, log);
      assert marked[i] == Mark(cbs[i], h);
      assert Freed(cbs[i].handle) !in later;
    }
    hide SoundNode;
    forall x | x in registry && Freed(x) !in later
      ensures OnList(marked, x)
    {
      assert Freed(x) !in log;
    }
    hide OnList;
    hide Descending, Marked;
    forall d | d in later
      ensures d.handle in registry
    {
      assert d in log || d == Dropped(h);
    }
  }

  lemma DropKeepsList(w: World, h: int)
    requires ListInv(w) && CursorInv(w)
    ensures ListInv(Step(w, Drop(h)))
  {
    if OnList(w.cbs, h) {
      MarkedIsSound(w.cbs, w.nextHandle, w.registry, w.log, h);
    } else {
      assert Marked(w.cbs, h) == w.cbs;
    }
    hide Sound, Place, Marked;
  }

  lemma DropKeepsCursor(w: World, h: int)
    requires CursorInv(w)
    ensures CursorInv(Step(w, Drop(h)))
  {
    HandlesMarked(w.cbs, h);
    hide CursorGood;
  }

  /** A new deed keeps the log in order: nothing is called after it was dropped, and what is freed
      was dropped or asked for it. */
  lemma LogGrows(log: seq<Deed>, d: Deed)
    requires LogInv(log)
    requires d.Called? ==> Dropped(d.handle) !in log
    requires d.Freed? ==> Dropped(d.handle) in log || Asked(d.handle) in log
    ensures LogInv(log + [d])
  {
    var later := log + [d];
    forall i, j, n | 0 <= i < j < |later| && later[i].Dropped?
      ensures later[j] != Called(later[i].handle, n)
    {
      if j == |log| {
        assert log[i] == Dropped(log[i].handle);
      }
    }
    forall h | Freed(h) in later
      ensures Dropped(h) in later || Asked(h) in later
    {
      assert Freed(h) in log || d == Freed(h);
    }
  }

  lemma DropKeepsWalk(w: World, h: int)
    requires WalkInv(w)
    ensures WalkInv(w.(log := w.log + [Dropped(h)], cbs := Marked(w.cbs, h)))
  {
    hide Wants, Marked, Examined;
    var log := w.log + [Dropped(h)];
    assert forall x :: Asked(x) in log <==> Asked(x) in w.log;
    assert forall x :: Freed(x) in log <==> Freed(x) in w.log;
    assert forall x :: Dropped(x) in w.log ==> Dropped(x) in log;
  }

  lemma DropKeepsInv(w: World, h: int)
    requires Inv(w)
    ensures Inv(Step(w, Drop(h)))
  {
    DropKeepsList(w, h);
    DropKeepsCursor(w, h);
    if OnList(w.cbs, h) {
      DropKeepsWalk(w, h);
      LogGrows(w.log, Dropped(h));
    } else {
      assert Marked(w.cbs, h) == w.cbs;
    }
    hide ListInv, LogInv, CursorInv, WalkInv, OnList, Marked;
  }

  // -------------------------------------------------------------------- walking

  lemma BeginAtFirst(hs: seq<int>)
    ensures var first := Next(hs, None); CursorGood(hs, first, Next(hs, first), hs, [])
  {
    if hs != [] {
      assert Place(hs, hs[0]) == 0 && hs[0..] == hs;
    }
  }

  /** What is on the list when a walk begins. */
  lemma BeginWith(w: World)
    requires ListInv(w)
    ensures forall h :: h in Handles(w.cbs) ==> h in w.registry
    ensures forall h :: h in NeedFree(w.cbs) ==> h in Handles(w.cbs) && Dropped(h) in w.log
    ensures forall i, j :: 0 <= i < j < |Handles(w.cbs)| ==> Handles(w.cbs)[i] > Handles(w.cbs)[j]
  {
    hide Place;
    forall h | h in Handles(w.cbs)
      ensures h in w.registry
    {
      var i :| 0 <= i < |w.cbs| && Handles(w.cbs)[i] == h;
      assert SoundNode(w.cbs[i], w.registry, w.log);
    }
    forall h | h in NeedFree(w.cbs)
      ensures h in Handles(w.cbs) && Dropped(h) in w.log
    {
      var cb :| cb in w.cbs && cb.needsFree && cb.handle == h;
      var i :| 0 <= i < |w.cbs| && w.cbs[i] == cb;
      assert SoundNode(cb, w.registry, w.log) && Handles(w.cbs)[i] == cb.handle;
    }
  }

  lemma BeginKeepsWalk(w: World, n: Notice)
    requires Inv(w) && w.walk.Idle?
    ensures WalkInv(Begun(w, n))
  {
    BeginWith(w);
    var walk := Begun(w, n).walk;
    assert forall h :: !Examined(walk, h);
    assert walk.cur.None? ==> Handles(w.cbs) == [];
    hide Sound, LogInv, Next, Handles, NeedFree, Examined, Wants;
  }

  lemma BeginKeepsCursor(w: World, n: Notice)
    ensures CursorInv(Begun(w, n))
  {
    hide CursorGood, Next, Handles, NeedFree;
    BeginAtFirst(Handles(w.cbs));
  }

  lemma BegunKeepsInv(w: World, n: Notice)
    requires Inv(w) && w.walk.Idle?
    ensures Inv(Begun(w, n))
  {
    hide WalkInv, LogInv, Sound, CursorInv;
    BeginKeepsWalk(w, n);
    BeginKeepsCursor(w, n);
  }

  lemma LookKeepsWalk(w: World, cb: Callback)
    requires WalkInv(w) && Enabled(w, Look) && w.walk.cur == Some(cb.handle)
    requires SoundNode(cb, w.registry, w.log)
    ensures WalkInv(Looked(w, cb))
  {
    var w' := Looked(w, cb);
    assert Wants(w.registry[cb.handle], w.walk.notice) <==> Wants(cb, w.walk.notice);
    hide Wants;
    assert forall x :: Examined(w'.walk, x) <==> Examined(w.walk, x) || x == cb.handle;
    hide Examined;
    assert forall d :: d in w'.log && !d.Called? <==> d in w.log && !d.Called?;
  }

  lemma LookKeepsInv(w: World)
    requires Inv(w) && Enabled(w, Look)
    ensures Inv(Step(w, Look))
  {
    var h := w.walk.cur.value;
    var cb := w.cbs[Place(Handles(w.cbs), h)];
    assert OnList(w.cbs, h) && cb.handle == h && SoundNode(cb, w.registry, w.log);
    LookKeepsWalk(w, cb);
    hide WalkInv, CursorGood, Place, OnList, Wants, Handles;
    if !cb.needsFree && Wants(cb, w.walk.notice) {
      LogGrows(w.log, Called(h, w.walk.notice));
      QuietDeed(w, Called(h, w.walk.notice));
    }
    hide Sound, LogInv;
  }

  /** A call, or what it asks for, changes nothing about what was registered, dropped or freed. */
  lemma QuietDeed(w: World, d: Deed)
    requires ListInv(w) && d.handle in w.registry && (d.Called? || d.Asked?)
    ensures Sound(w.cbs, w.nextHandle, w.registry, w.log + [d])
    ensures forall x :: Dropped(x) in w.log + [d] <==> Dropped(x) in w.log
    ensures forall x :: Freed(x) in w.log + [d] <==> Freed(x) in w.log
    ensures forall x :: Asked(x) in w.log + [d] <==> Asked(x) in w.log || d == Asked(x)
  {
    hide Place, Descending;
    forall i | 0 <= i < |w.cbs|
      ensures SoundNode(w.cbs[i], w.registry, w.log + [d])
    {
      assert SoundNode(w.cbs[i], w.registry, w.log);
    }
  }

  lemma AnswerKeepsWalk(w: World, remove: bool)
    requires Inv(w) && Enabled(w, Answer(remove))
    ensures WalkInv(Step(w, Answer(remove)))
  {
    var w', h := Step(w, Answer(remove)), w.walk.cur.value;
    assert SoundNode(w.cbs[Place(Handles(w.cbs), h)], w.registry, w.log);
    if remove {
      QuietDeed(w, Asked(h));
    }
    hide Sound, LogInv, CursorGood, Place, Wants;
    assert forall x :: Examined(w'.walk, x) <==> Examined(w.walk, x);
  }

  lemma AnswerKeepsInv(w: World, remove: bool)
    requires Inv(w) && Enabled(w, Answer(remove))
    ensures Inv(Step(w, Answer(remove)))
  {
    var h := w.walk.cur.value;
    AnswerKeepsWalk(w, remove);
    assert SoundNode(w.cbs[Place(Handles(w.cbs), h)], w.registry, w.log);
    hide WalkInv, CursorGood, Place;
    if remove {
      LogGrows(w.log, Asked(h));
      QuietDeed(w, Asked(h));
    }
    hide Sound, LogInv;
  }

  /** Going on without removing: the rest of the list is what is left to visit. */
  lemma SkipMovesCursor(hs: seq<int>, below: int, h: int, next: Option<int>, start: seq<int>, seen: seq<int>)
    requires Descending(hs, below) && CursorGood(hs, Some(h), next, start, seen)
    ensures CursorGood(hs, next, Next(hs, next), start, seen + [h])
  {
    var k := Place(hs, h);
    TailMoves(hs, k, seen);
    if next.Some? {
      OnlyPlace(hs, below, k + 1);
    }
    hide Place, Descending;
  }

  /** Going on after removing: the next node has moved up into the place of the removed one. */
  lemma RemovalMovesCursor(hs: seq<int>, below: int, h: int, next: Option<int>, start: seq<int>, seen: seq<int>)
    requires Descending(hs, below) && CursorGood(hs, Some(h), next, start, seen)
    ensures var rest := Without(hs, Place(hs, h)); CursorGood(rest, next, Next(rest, next), start, seen + [h])
  {
    hide Place, Descending, Without;
    var k := Place(hs, h);
    var rest := Without(hs, k);
    TailMoves(hs, k, seen);
    WithoutTail(hs, k);
    WithoutDescends(hs, below, k);
    if next.Some? {
      WithoutAt(hs, k, k);
      OnlyPlace(rest, below, k);
      assert Place(rest, next.value) == k;
    }
  }

  lemma RemovedIsSound(w: World, h: int)
    requires ListInv(w) && OnList(w.cbs, h)
    ensures Sound(Removed(w.cbs, h), w.nextHandle, w.registry, w.log + [Freed(h)])
  {
    var k, rest, later := Place(Handles(w.cbs), h), Removed(w.cbs, h), w.log + [Freed(h)];
    HandlesFollow(w.cbs, k, w.cbs[k]);
    WithoutDescends(Handles(w.cbs), w.nextHandle, k);
    assert rest == Without(w.cbs, k);
    assert SoundNode(w.cbs[k], w.registry, w.log);
    RemovedFinds(w, h);
    hide Place, OnList, Removed, Without, Handles, Descending;
    forall j | 0 <= j < |rest|
      ensures SoundNode(rest[j], w.registry, later)
    {
      OthersStaySound(w, k, j);
    }
    hide SoundNode;
    forall d | d in later
      ensures d.handle in w.registry
    {
      assert d in w.log || d == Freed(h);
    }
  }

  lemma OthersStaySound(w: World, k: nat, j: nat)
    requires ListInv(w) && k < |w.cbs| && j < |w.cbs| - 1
    ensures SoundNode(Without(w.cbs, k)[j], w.registry, w.log + [Freed(w.cbs[k].handle)])
  {
    hide OnList, Without;
    var i := if j < k then j else j + 1;
    WithoutAt(w.cbs, k, j);
    assert SoundNode(w.cbs[i], w.registry, w.log);
    assert Handles(w.cbs)[i] != Handles(w.cbs)[k];
  }

  lemma RemovedFinds(w: World, h: int)
    requires ListInv(w) && OnList(w.cbs, h)
    ensures forall x :: x in w.registry && Freed(x) !in w.log + [Freed(h)] ==> OnList(Removed(w.cbs, h), x)
  {
    var hs := Handles(w.cbs);
    var k := Place(hs, h);
    var rest := Without(hs, k);
    HandlesFollow(w.cbs, k, w.cbs[k]);
    WithoutDescends(hs, w.nextHandle, k);
    forall x | x in w.registry && Freed(x) !in w.log + [Freed(h)]
      ensures OnList(Removed(w.cbs, h), x)
    {
      assert Freed(x) !in w.log && x != h && OnList(w.cbs, x);
      hide Without;
      var i := Place(hs, x);
      var j := if i < k then i else i - 1;
      WithoutAt(hs, k, j);
      OnlyPlace(rest, w.nextHandle, j);
    }
  }

  lemma AdvanceKeepsWalk(w: World, rest: seq<Callback>, next: Option<int>)
    requires WalkInv(w) && Enabled(w, Advance)
    ensures WalkInv(Advanced(w, rest, next))
  {
    var h := w.walk.cur.value;
    var w' := Advanced(w, rest, next);
    hide Wants;
    assert forall x :: x in w'.walk.seen <==> x in w.walk.seen || x == h;
    assert forall x :: Examined(w'.walk, x) <==> Examined(w.walk, x);
    hide Examined;
    if w.walk.phase.remove {
      assert forall x :: Freed(x) in w'.log <==> Freed(x) in w.log || x == h;
      assert forall x :: Asked(x) in w'.log <==> Asked(x) in w.log;
      assert forall x :: Dropped(x) in w'.log <==> Dropped(x) in w.log;
    }
  }

  lemma AdvanceKeepsCursor(w: World, rest: seq<Callback>)
    requires ListInv(w) && CursorInv(w) && Enabled(w, Advance)
    requires rest == if w.walk.phase.remove then Removed(w.cbs, w.walk.cur.value) else w.cbs
    ensures CursorGood(Handles(rest), w.walk.next, Next(Handles(rest), w.walk.next), w.walk.start,
                       w.walk.seen + [w.walk.cur.value])
  {
    var hs, h := Handles(w.cbs), w.walk.cur.value;
    if w.walk.phase.remove {
      var k := Place(hs, h);
      HandlesFollow(w.cbs, k, w.cbs[k]);
      RemovalMovesCursor(hs, w.nextHandle, h, w.walk.next, w.walk.start, w.walk.seen);
    } else {
      SkipMovesCursor(hs, w.nextHandle, h, w.walk.next, w.walk.start, w.walk.seen);
    }
    hide CursorGood, Next, Handles;
  }

  lemma AdvanceKeepsInv(w: World)
    requires Inv(w) && Enabled(w, Advance)
    ensures Inv(Step(w, Advance))
  {
    var h := w.walk.cur.value;
    var rest := if w.walk.phase.remove then Removed(w.cbs, h) else w.cbs;
    AdvanceKeepsCursor(w, rest);
    AdvanceKeepsWalk(w, rest, Next(Handles(rest), w.walk.next));
    assert OnList(w.cbs, h);
    assert w.walk.next.Some? ==> OnList(rest, w.walk.next.value);
    hide OnList, CursorGood, WalkInv, Next, Handles;
    if w.walk.phase.remove {
      RemovedIsSound(w, h);
      LogGrows(w.log, Freed(h));
    }
    hide Sound, LogInv, Removed;
  }

  lemma StepKeepsInv(w: World, m: Move)
    requires Inv(w) && Enabled(w, m)
    ensures Inv(Step(w, m))
  {
    match m
    case Add(cb) => AddKeepsInv(w, cb);
    case Drop(h) => DropKeepsInv(w, h);
    case Begin(n) => BegunKeepsInv(w, n);
    case Look => LookKeepsInv(w);
    case Answer(remove) => AnswerKeepsInv(w, remove);
    case Advance => AdvanceKeepsInv(w);
    case End =>
  }

  // ------------------------------------------------------------------- whole runs

  ghost predicate IsRun(w: World, ms: seq<Move>)
    decreases |ms|
  {
    ms != [] ==> Enabled(w, ms[0]) && IsRun(Step(w, ms[0]), ms[1..])
  }

  ghost function After(w: World, ms: seq<Move>): World
    requires IsRun(w, ms)
    decreases |ms|
  {
    if ms == [] then w else After(Step(w, ms[0]), ms[1..])
  }

  lemma {:induction false} RunInv(w: World, ms: seq<Move>)
    requires Inv(w) && IsRun(w, ms)
    ensures Inv(After(w, ms))
    decreases |ms|
  {
    hide Inv, Step, Enabled;
    if ms != [] {
      StepKeepsInv(w, ms[0]);
      RunInv(Step(w, ms[0]), ms[1..]);
    }
  }

  /** Safety over all runs, whoever registers and deregisters while functions are being called: the
      walk never follows a pointer to a node that was freed; once a callback is deregistered it is
      not called again; a node is freed only if it was deregistered or its function asked for it; and
      the list has exactly the callbacks that were registered and not freed, newest first. */
  lemma CallbacksAreSafe(ms: seq<Move>)
    requires IsRun(EMPTY, ms)
    ensures var w := After(EMPTY, ms);
            && !w.strayed
            && (forall i, j, n :: 0 <= i < j < |w.log| && w.log[i].Dropped? ==> w.log[j] != Called(w.log[i].handle, n))
            && (forall h :: Freed(h) in w.log ==> Dropped(h) in w.log || Asked(h) in w.log)
            && (forall h :: OnList(w.cbs, h) <==> h in w.registry && Freed(h) !in w.log)
            && Descending(Handles(w.cbs), w.nextHandle)
  {
    RunInv(EMPTY, ms);
    var w := After(EMPTY, ms);
    forall h | OnList(w.cbs, h)
      ensures h in w.registry && Freed(h) !in w.log
    {
      assert SoundNode(w.cbs[Place(Handles(w.cbs), h)], w.registry, w.log);
    }
  }

  /** When a walk ends it has visited exactly the callbacks that were on the list when it began, each
      once and in that order. It called those whose filter matches the message, but for some that
      were deregistered; it removed every one that was deregistered before it began, and by now every
      one that ever asked to be removed. */
  lemma WalkIsComplete(ms: seq<Move>)
    requires IsRun(EMPTY, ms) && Enabled(After(EMPTY, ms), End)
    ensures var w := After(EMPTY, ms);
            && w.walk.seen == w.walk.start
            && (forall i, j :: 0 <= i < j < |w.walk.seen| ==> w.walk.seen[i] > w.walk.seen[j])
            && (forall h :: h in w.walk.called ==>
                  h in w.walk.start && h in w.registry && Wants(w.registry[h], w.walk.notice))
            && (forall h :: h in w.walk.start && h !in w.walk.called ==>
                  h in w.registry && (Dropped(h) in w.log || !Wants(w.registry[h], w.walk.notice)))
            && (forall h :: h in w.walk.doomed || Asked(h) in w.log ==> !OnList(w.cbs, h))
  {
    RunInv(EMPTY, ms);
    CallbacksAreSafe(ms);
    var w := After(EMPTY, ms);
    hide IsRun, After, Sound, LogInv, Place, Descending, Wants;
    StartedAreRegistered(w);
    assert forall h :: Examined(w.walk, h) <==> h in w.walk.seen;
    hide Examined;
  }
}
