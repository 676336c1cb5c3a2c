/**
 Registering a callback that is told about the devices already there, while other threads walk the
 list, register and deregister. The thread that registers keeps a pointer to its new node and holds
 no lock while it goes through the devices.
 */
module HotplugRegister {
  import opened Usb
  import opened HotplugCallbacks

  /** About to look at the node again, inside the user's function, or returned. */
  datatype Stage = Examining | InFunction | Done

  /** A call of libusb_hotplug_register_callback from when its callback is on the list: the devices it
      was given (None when they could not be listed) and how many it is through with. */
  datatype Registration = Registration(present: Option<seq<Descriptor>>, next: nat, stage: Stage)

  /** `early` has the callbacks that a walk freed while their registration was under way, and `dangling`
      those whose registration then looked at the freed node. */
  datatype Scene = Scene(w: World, calls: map<int, Registration>, early: set<int>, dangling: set<int>)

  const OPENING := Scene(EMPTY, map[], {}, {})

  datatype Act =
    | Other(m: Move)
    | Register(cb: Callback, present: Option<seq<Descriptor>>)
    | Examine(h: int)
    | Return(h: int)
    | Finish(h: int)

  predicate UnderWay(s: Scene, h: int) {
    h in s.calls && !s.calls[h].stage.Done?
  }

  /** Devices that the registration is not through with. */
  predicate More(r: Registration) {
    r.present.Some? && r.next < |r.present.value|
  }

  predicate Possible(s: Scene, a: Act) {
    match a
    case Other(m) => Enabled(s.w, m)
    case Register(cb, _) => Enabled(s.w, Add(cb))
    case Examine(h) => h in s.calls && s.calls[h].stage.Examining? && More(s.calls[h])
    case Return(h) => h in s.calls && s.calls[h].stage.InFunction?
    case Finish(h) => h in s.calls && s.calls[h].stage.Examining? && !More(s.calls[h])
  }

  /** The message a registration makes up for the device it has come to. */
  function Present(r: Registration): Notice
    requires More(r)
  {
    About(Arrival, r.present.value[r.next])
  }

  /** The registration looks at a node that is not there any more. */
  function Dangles(s: Scene, h: int): Scene
    requires h in s.calls
  {
    s.(calls := s.calls[h := s.calls[h].(stage := Done)], dangling := s.dangling + {h})
  }

  function Node(w: World, h: int): Callback
    requires OnList(w.cbs, h)
  {
    w.cbs[Place(Handles(w.cbs), h)]
  }

  /** usbi_hotplug_match_cb up to the call, on the node of the registration. */
  function LookedAt(s: Scene, h: int): Scene
    requires Possible(s, Examine(h)) && OnList(s.w.cbs, h)
  {
    var r, cb := s.calls[h], Node(s.w, h);
    if cb.needsFree || !Wants(cb, Present(r)) then s.(calls := s.calls[h := r.(next := r.next + 1)])
    else s.(calls := s.calls[h := r.(stage := InFunction)], w := s.w.(log := s.w.log + [Called(h, Present(r))]))
  }

  /** The callbacks freed between two states of the list, among those still being registered. */
  function FreedMeanwhile(s: Scene, w': World): set<int> {
    set h | h in s.calls && UnderWay(s, h) && Freed(h) in w'.log
  }

  /** What the function answers during a registration is ignored. At the end the node is looked at once
      more, for its handle; when the devices could not be listed, to deregister it. */
  function Acted(s: Scene, a: Act): Scene
    requires Possible(s, a)
  {
    match a
    case Other(m) =>
      var w' := Step(s.w, m);
      s.(w := w', early := s.early + FreedMeanwhile(s, w'))
    case Register(cb, present) =>
      s.(w := Step(s.w, Add(cb)), calls := s.calls[cb.handle := Registration(present, 0, Examining)])
    case Examine(h) => if OnList(s.w.cbs, h) then LookedAt(s, h) else Dangles(s, h)
    case Return(h) =>
      s.(calls := s.calls[h := s.calls[h].(next := s.calls[h].next + 1, stage := Examining)])
    case Finish(h) =>
      if !OnList(s.w.cbs, h) then Dangles(s, h)
      else s.(calls := s.calls[h := s.calls[h].(stage := Done)],
              w := if s.calls[h].present.None? then Step(s.w, Drop(h)) else s.w)
  }

  // ------------------------------------------------------------------ the invariant

  /** The devices gone through so far were told about if they match, unless the callback was dropped. */
  ghost predicate Told(r: Registration, h: int, registry: map<int, Callback>, log: seq<Deed>)
    requires h in registry
  {
    forall i :: r.present.Some? && 0 <= i < r.next && i < |r.present.value| ==>
      var n := About(Arrival, r.present.value[i]);
      Wants(registry[h], n) ==> Called(h, n) in log || Dropped(h) in log
  }

  /** A registration whose callback was freed under way, and only such a one, ends with a dangling look;
      any other that has ended went through all devices. */
  ghost predicate CallOk(s: Scene, h: int)
    requires h in s.calls
  {
    var r := s.calls[h];
    && h in s.w.registry
    && Told(r, h, s.w.registry, s.w.log)
    && (r.stage.InFunction? ==> More(r) && Called(h, Present(r)) in s.w.log)
    && (h in s.early ==> Freed(h) in s.w.log)
    && (!r.stage.Done? ==> h !in s.dangling && (h in s.early <==> Freed(h) in s.w.log))
    && (r.stage.Done? ==> (h in s.dangling <==> h in s.early) && (h !in s.dangling ==> !More(r)))
  }

  ghost predicate SceneInv(s: Scene) {
    && Inv(s.w)
    && s.early <= s.calls.Keys
    && s.dangling <= s.calls.Keys
    && forall h :: h in s.calls ==> CallOk(s, h)
  }

  /** What is registered and not freed is on the list. */
  lemma OnListIff(w: World, h: int)
    requires Inv(w)
    ensures OnList(w.cbs, h) <==> h in w.registry && Freed(h) !in w.log
    ensures OnList(w.cbs, h) ==>
              && Node(w, h).handle == h && w.registry[h] == Node(w, h).(needsFree := false)
              && (Node(w, h).needsFree <==> Dropped(h) in w.log)
  {
    hide LogInv, CursorInv, WalkInv, Descending;
    if OnList(w.cbs, h) {
      assert SoundNode(Node(w, h), w.registry, w.log);
    }
  }

  lemma StepOnlyAdds(w: World, m: Move)
    requires Inv(w) && Enabled(w, m)
    ensures w.log <= Step(w, m).log
    ensures forall h :: h in w.registry ==> h in Step(w, m).registry && Step(w, m).registry[h] == w.registry[h]
  {
    hide LogInv, CursorInv, WalkInv, OnList, Place, Next, Removed, Marked, Wants;
  }

  lemma OtherKeepsInv(s: Scene, m: Move)
    requires SceneInv(s) && Enabled(s.w, m)
    ensures SceneInv(Acted(s, Other(m)))
  {
    var s' := Acted(s, Other(m));
    StepKeepsInv(s.w, m);
    StepOnlyAdds(s.w, m);
    hide Inv, Enabled, Step, Wants, CallOk;
    forall h | h in s'.calls
      ensures CallOk(s', h)
    {
      OtherKeepsCall(s, s'.w, h);
    }
  }

  lemma OtherKeepsCall(s: Scene, w': World, h: int)
    requires h in s.calls && CallOk(s, h)
    requires s.w.log <= w'.log && h in w'.registry && w'.registry[h] == s.w.registry[h]
    ensures CallOk(s.(w := w', early := s.early + FreedMeanwhile(s, w')), h)
  {
    LaterStillTold(s.calls[h], h, s.w, w');
    hide Told;
    assert forall d :: d in s.w.log ==> d in w'.log;
    assert h in FreedMeanwhile(s, w') <==> UnderWay(s, h) && Freed(h) in w'.log;
    hide FreedMeanwhile;
  }

  lemma LaterStillTold(r: Registration, h: int, w: World, w': World)
    requires h in w.registry && h in w'.registry && w'.registry[h] == w.registry[h] && w.log <= w'.log
    requires Told(r, h, w.registry, w.log)
    ensures Told(r, h, w'.registry, w'.log)
  {
    hide Wants;
    assert forall d :: d in w.log ==> d in w'.log;
  }

  lemma RegisterKeepsInv(s: Scene, cb: Callback, present: Option<seq<Descriptor>>)
    requires SceneInv(s) && Enabled(s.w, Add(cb))
    ensures SceneInv(Acted(s, Register(cb, present)))
  {
    var s' := Acted(s, Register(cb, present));
    StepKeepsInv(s.w, Add(cb));
    NewHandle(s.w, cb);
    hide Inv, Wants;
    forall h | h in s'.calls
      ensures CallOk(s', h)
    {
      if h in s.calls {
        assert CallOk(s, h) && h != cb.handle;
      }
    }
  }

  /** A new handle was never given out before, and nothing has happened to it. */
  lemma NewHandle(w: World, cb: Callback)
    requires Inv(w) && Enabled(w, Add(cb))
    ensures cb.handle !in w.registry && Freed(cb.handle) !in w.log
  {
    assert Freed(cb.handle).handle == cb.handle;
    hide LogInv, CursorInv, WalkInv, Descending, OnList;
  }

  /** Calling the function changes nothing but the log. */
  lemma CallKeepsInv(w: World, h: int, n: Notice)
    requires Inv(w) && OnList(w.cbs, h) && !Node(w, h).needsFree
    ensures Inv(w.(log := w.log + [Called(h, n)]))
  {
    OnListIff(w, h);
    LogGrows(w.log, Called(h, n));
    QuietDeed(w, Called(h, n));
    hide Sound, LogInv, CursorGood, Place, Wants, OnList, Examined;
    var later := w.(log := w.log + [Called(h, n)]);
    assert WalkInv(later);
  }

  lemma ExamineKeepsInv(s: Scene, h: int)
    requires SceneInv(s) && Possible(s, Examine(h))
    ensures SceneInv(Acted(s, Examine(h)))
  {
    assert CallOk(s, h);
    OnListIff(s.w, h);
    var s', r := Acted(s, Examine(h)), s.calls[h];
    if OnList(s.w.cbs, h) && s'.calls[h].stage.InFunction? {
      CallKeepsInv(s.w, h, Present(r));
    }
    hide Inv, OnList, Place;
    forall x | x in s'.calls
      ensures CallOk(s', x)
    {
      assert CallOk(s, x);
      LaterStillTold(s.calls[x], x, s.w, s'.w);
      assert forall d: Deed :: !d.Called? ==> (d in s.w.log <==> d in s'.w.log);
    }
  }

  lemma ReturnKeepsInv(s: Scene, h: int)
    requires SceneInv(s) && Possible(s, Return(h))
    ensures SceneInv(Acted(s, Return(h)))
  {
    hide Inv, Wants;
    var s' := Acted(s, Return(h));
    forall x | x in s'.calls
      ensures CallOk(s', x)
    {
      assert CallOk(s, x) && CallOk(s, h);
    }
  }

  lemma FinishKeepsInv(s: Scene, h: int)
    requires SceneInv(s) && Possible(s, Finish(h))
    ensures SceneInv(Acted(s, Finish(h)))
  {
    assert CallOk(s, h);
    OnListIff(s.w, h);
    DropKeepsInv(s.w, h);
    StepOnlyAdds(s.w, Drop(h));
    var s' := Acted(s, Finish(h));
    hide Inv, OnList, Wants;
    forall x | x in s'.calls
      ensures CallOk(s', x)
    {
      assert CallOk(s, x);
      LaterStillTold(s.calls[x], x, s.w, s'.w);
      assert forall d :: d in s.w.log ==> d in s'.w.log;
      assert forall d :: d in s'.w.log ==> d in s.w.log || d == Dropped(h);
    }
  }

  lemma ActKeepsInv(s: Scene, a: Act)
    requires SceneInv(s) && Possible(s, a)
    ensures SceneInv(Acted(s, a))
  {
    hide SceneInv, Acted;
    match a
    case Other(m) => OtherKeepsInv(s, m);
    case Register(cb, present) => RegisterKeepsInv(s, cb, present);
    case Examine(h) => ExamineKeepsInv(s, h);
    case Return(h) => ReturnKeepsInv(s, h);
    case Finish(h) => FinishKeepsInv(s, h);
  }

  // ------------------------------------------------------------------- whole runs

  ghost predicate Plays(s: Scene, acts: seq<Act>)
    decreases |acts|
  {
    acts != [] ==> Possible(s, acts[0]) && Plays(Acted(s, acts[0]), acts[1..])
  }

  ghost function Played(s: Scene, acts: seq<Act>): Scene
    requires Plays(s, acts)
    decreases |acts|
  {
    if acts == [] then s else Played(Acted(s, acts[0]), acts[1..])
  }

  lemma {:induction false} PlayInv(s: Scene, acts: seq<Act>)
    requires SceneInv(s) && Plays(s, acts)
    ensures SceneInv(Played(s, acts))
    decreases |acts|
  {
    hide SceneInv, Acted, Possible;
    if acts != [] {
      ActKeepsInv(s, acts[0]);
      PlayInv(Acted(s, acts[0]), acts[1..]);
    }
  }

  lemma OpeningInv()
    ensures SceneInv(OPENING)
  {
  }

  /** What holds of the list and the walk holds as well while callbacks are being registered: the walk
      follows no freed node, no function is called after its callback was deregistered, neither by the
      walk nor by a registration, and nothing is freed without a reason. */
  lemma CallbacksStaySafe(acts: seq<Act>)
    requires Plays(OPENING, acts)
    ensures var w := Played(OPENING, acts).w;
            && !w.strayed
            && (forall i, j, n :: 0 <= i < j < |w.log| && w.log[i].Dropped? ==> w.log[j] != Called(w.log[i].handle, n))
            && (forall h :: Freed(h) in w.log ==> Dropped(h) in w.log || Asked(h) in w.log)
            && (forall h :: OnList(w.cbs, h) <==> h in w.registry && Freed(h) !in w.log)
  {
    OpeningInv();
    PlayInv(OPENING, acts);
    var w := Played(OPENING, acts).w;
    forall h
      ensures OnList(w.cbs, h) <==> h in w.registry && Freed(h) !in w.log
    {
      OnListIff(w, h);
    }
    hide Plays, Played, Sound, CursorInv, WalkInv, OnList;
  }

  /** The exact condition. A registration that has returned looked at a freed node if and only if a walk
      freed its callback while it was under way; otherwise it went through all devices, and told the
      function about every one that matches, unless the callback was deregistered. */
  lemma RegistrationIsSafeIff(acts: seq<Act>, h: int)
    requires Plays(OPENING, acts)
    requires var s := Played(OPENING, acts); h in s.calls && s.calls[h].stage.Done?
    ensures var s := Played(OPENING, acts); h in s.w.registry && (h in s.dangling <==> h in s.early)
    ensures var s := Played(OPENING, acts);
            var present := s.calls[h].present;
            h !in s.early && present.Some? && Dropped(h) !in s.w.log ==>
              forall i :: 0 <= i < |present.value| && Wants(s.w.registry[h], About(Arrival, present.value[i])) ==>
                Called(h, About(Arrival, present.value[i])) in s.w.log
  {
    OpeningInv();
    PlayInv(OPENING, acts);
    var s := Played(OPENING, acts);
    assert CallOk(s, h);
    hide Plays, Played, Inv, Wants;
  }

  /** What a caller can do about it: nothing goes wrong for a callback that nobody deregisters and whose
      function does not ask to be removed. */
  lemma UntouchedRegistrationIsSafe(acts: seq<Act>, h: int)
    requires Plays(OPENING, acts)
    requires var s := Played(OPENING, acts); Dropped(h) !in s.w.log && Asked(h) !in s.w.log
    ensures var s := Played(OPENING, acts); h !in s.early && h !in s.dangling
  {
    OpeningInv();
    PlayInv(OPENING, acts);
    var s := Played(OPENING, acts);
    if h in s.calls {
      assert CallOk(s, h);
    }
    hide Plays, Played, Sound, CursorInv, WalkInv, Told;
  }

  // ------------------------------------------------------------ a run that goes wrong

  lemma {:induction false} PlayOn(s: Scene, acts: seq<Act>, a: Act)
    requires Plays(s, acts) && Possible(Played(s, acts), a)
    ensures Plays(s, acts + [a]) && Played(s, acts + [a]) == Acted(Played(s, acts), a)
    decreases |acts|
  {
    hide Acted, Possible;
    if acts == [] {
      assert acts + [a] == [a] && [a][1..] == [];
    } else {
      assert (acts + [a])[1..] == acts[1..] + [a];
      PlayOn(Acted(s, acts[0]), acts[1..], a);
    }
  }

  function Anything(marked: bool): Callback {
    Callback(1, {Arrival}, MATCH_ANY, MATCH_ANY, MATCH_ANY, marked)
  }

  /** Registered, and in the function for the first device. */
  lemma ToldOfFirst(d: Descriptor) returns (acts: seq<Act>)
    ensures Plays(OPENING, acts)
    ensures Played(OPENING, acts) ==
            Scene(World([Anything(false)], 2, Idle, false, map[1 := Anything(false)], [Called(1, About(Arrival, d))]),
                  map[1 := Registration(Some([d]), 0, InFunction)], {}, {})
  {
    hide Plays, Played;
    NoActs(OPENING);
    PlayOn(OPENING, [], Register(Anything(false), Some([d])));
    acts := [] + [Register(Anything(false), Some([d]))];
    var s := Played(OPENING, acts);
    assert s.w.cbs == [Anything(false)] && Handles(s.w.cbs) == [1] && Place([1], 1) == 0;
    PlayOn(OPENING, acts, Examine(1));
    acts := acts + [Examine(1)];
  }

  lemma NoActs(s: Scene)
    ensures Plays(s, []) && Played(s, []) == s
  {
  }

  /** The function has deregistered its own callback, and the walk for that message has come to it. */
  lemma DeregisteredInFunction(d: Descriptor) returns (acts: seq<Act>)
    ensures Plays(OPENING, acts)
    ensures var s := Played(OPENING, acts);
            && s.w.cbs == [Anything(true)] && s.calls == map[1 := Registration(Some([d]), 0, InFunction)]
            && s.early == s.dangling == {} && Freed(1) !in s.w.log
            && s.w.walk.Walk? && s.w.walk.cur == Some(1) && s.w.walk.next == None && s.w.walk.phase == Returned(true)
  {
    hide Plays, Played;
    acts := ToldOfFirst(d);
    var cbs := [Anything(false)];
    assert Handles(cbs) == [1] && Place([1], 1) == 0;
    PlayOn(OPENING, acts, Other(Drop(1)));
    acts := acts + [Other(Drop(1))];
    var s := Played(OPENING, acts);
    assert s.w.cbs == [Anything(true)] && Handles(s.w.cbs) == [1];
    PlayOn(OPENING, acts, Other(Begin(Nothing)));
    acts := acts + [Other(Begin(Nothing))];
    PlayOn(OPENING, acts, Other(Look));
    acts := acts + [Other(Look)];
  }

  /** The failing run: a callback is registered and told about a device; its function deregisters it;
      the thread that handles events finds it marked and frees it; the function returns, and the
      registration ends by looking at the freed node. */
  lemma FreedWhileRegistering(d: Descriptor) returns (acts: seq<Act>)
    ensures Plays(OPENING, acts)
    ensures var s := Played(OPENING, acts); s.dangling == s.early == {1} && 1 in s.calls && s.calls[1].stage.Done?
  {
    hide Plays, Played;
    acts := DeregisteredInFunction(d);
    var s := Played(OPENING, acts);
    assert Handles(s.w.cbs) == [1] && Place([1], 1) == 0;
    assert Removed(s.w.cbs, 1) == [] && Handles([]) == [];
    PlayOn(OPENING, acts, Other(Advance));
    acts := acts + [Other(Advance)];
    assert Freed(1) in Played(OPENING, acts).w.log;
    PlayOn(OPENING, acts, Return(1));
    acts := acts + [Return(1)];
    PlayOn(OPENING, acts, Finish(1));
    acts := acts + [Finish(1)];
  }
}
