/**
 The part of a libusb context that event_data_lock protects: the event pipe, the poll
 descriptors and their cached array, the close counter, and the two message lists.
 Every section under the lock is a method, specified by a function on its state.
 */
module EventData {
  import opened Usb

  datatype PollFd = PollFd(fd: int, events: int)

  /** A hotplug message; `Deregister` is the one that names no device. */
  datatype Message = Arrived(device: nat) | Left(device: nat) | Deregister

  type TransferId = nat

  /** `tokens` counts the unread bytes in the event pipe. `blockedRead` records that somebody
      read from the empty pipe, which blocks for ever with the lock held. */
  datatype EventState = EventState(
    tokens: nat, blockedRead: bool,
    ipollfds: seq<PollFd>, pollfds: seq<PollFd>, pollfdsCnt: int, modified: bool,
    deviceClose: nat, msgs: seq<Message>, completed: seq<TransferId>)

  /** The usbi_pending_events macro. */
  predicate Pending(d: EventState) {
    d.deviceClose > 0 || d.modified || d.msgs != [] || d.completed != []
  }

  // --------------------------------------------------- the sections, as functions

  function SignalUnless(pending: bool, d: EventState): EventState {
    if pending then d else d.(tokens := d.tokens + 1)
  }

  /** usbi_clear_event: read one byte. */
  function ClearEvent(d: EventState): EventState {
    if d.tokens > 0 then d.(tokens := d.tokens - 1) else d.(blockedRead := true)
  }

  function ClearIfIdle(d: EventState): EventState {
    if Pending(d) then d else ClearEvent(d)
  }

  function AddPollFd(d: EventState, p: PollFd): EventState {
    SignalUnless(Pending(d), d.(ipollfds := d.ipollfds + [p], pollfdsCnt := d.pollfdsCnt + 1, modified := true))
  }

  function WithoutFd(list: seq<PollFd>, fd: int): seq<PollFd> {
    if list == [] then [] else if list[0].fd == fd then list[1..] else [list[0]] + WithoutFd(list[1..], fd)
  }

  predicate Watches(list: seq<PollFd>, fd: int) {
    exists i :: 0 <= i < |list| && list[i].fd == fd
  }

  /** The first entry with the descriptor is gone, and the others are as they were. */
  ghost predicate FirstRemoved(list: seq<PollFd>, list': seq<PollFd>, fd: int) {
    exists i ::
      && 0 <= i < |list| && list[i].fd == fd
      && (forall k :: 0 <= k < i ==> list[k].fd != fd)
      && list' == list[..i] + list[i + 1..]
  }

  function RemovePollFd(d: EventState, fd: int): EventState {
    if !Watches(d.ipollfds, fd) then d
    else SignalUnless(Pending(d),
                      d.(ipollfds := WithoutFd(d.ipollfds, fd), pollfdsCnt := d.pollfdsCnt - 1, modified := true))
  }

  /** The head of handle_events: refresh the array of poll descriptors if need be. */
  function PreparePoll(d: EventState): EventState {
    if d.modified then ClearIfIdle(d.(pollfds := d.ipollfds, modified := false)) else d
  }

  function NotifyHotplug(d: EventState, m: Message): EventState {
    SignalUnless(Pending(d), d.(msgs := d.msgs + [m]))
  }

  function SignalCompletion(d: EventState, t: TransferId): EventState {
    SignalUnless(Pending(d), d.(completed := d.completed + [t]))
  }

  function BeginClose(d: EventState): EventState {
    SignalUnless(Pending(d), d.(deviceClose := d.deviceClose + 1))
  }

  function EndClose(d: EventState): EventState {
    ClearIfIdle(d.(deviceClose := if d.deviceClose > 0 then d.deviceClose - 1 else 0))
  }

  function TakeMessage(d: EventState): (EventState, Option<Message>) {
    if d.msgs == [] then (d, None) else (d.(msgs := d.msgs[1..]), Some(d.msgs[0]))
  }

  function TakeCompleted(d: EventState): (EventState, Option<TransferId>) {
    if d.completed == [] then (d, None) else (d.(completed := d.completed[1..]), Some(d.completed[0]))
  }

  /** What any thread may do to the data at any time: signal a hotplug event, complete a transfer,
      watch a descriptor or stop watching one. */
  datatype Notice = Watch(p: PollFd) | Unwatch(fd: int) | Hotplug(m: Message) | Completion(t: TransferId)

  function Noticed(d: EventState, n: Notice): EventState {
    match n
    case Watch(p) => AddPollFd(d, p)
    case Unwatch(fd) => RemovePollFd(d, fd)
    case Hotplug(m) => NotifyHotplug(d, m)
    case Completion(t) => SignalCompletion(d, t)
  }

  /** Events are pending exactly when whoever comes to handle them finds something: a closing thread to
      give way to, an array to refresh, a message to deliver or a transfer to complete. */
  lemma PendingMeansWork(d: EventState)
    ensures Pending(d) <==>
            || d.deviceClose > 0
            || PreparePoll(d) != d
            || TakeMessage(d).1.Some?
            || TakeCompleted(d).1.Some?
  {
    if d.modified {
      assert !PreparePoll(d).modified;
    }
  }

  /** Pending events have a byte in the pipe, and nobody read from the empty pipe. */
  ghost predicate DataOk(d: EventState) {
    !d.blockedRead && (Pending(d) ==> d.tokens >= 1)
  }

  // ------------------------------------------------------------ the poll array cache

  /** `internal` are the descriptors libusb itself watches: the event pipe, and after it the
      timerfd if there is one. They lead the list, the count is exact, and an array that is not
      marked stale is the list, element by element. */
  ghost predicate CacheInv(d: EventState, internal: seq<PollFd>) {
    && internal != []
    && internal <= d.ipollfds
    && d.pollfdsCnt == |d.ipollfds|
    && (!d.modified ==> d.pollfds == d.ipollfds)
  }

  lemma {:induction false} WithoutFdProperties(list: seq<PollFd>, internal: seq<PollFd>, fd: int)
    requires internal <= list && Watches(list, fd) && !Watches(internal, fd)
    ensures internal <= WithoutFd(list, fd) && |WithoutFd(list, fd)| == |list| - 1
  {
    if list[0].fd != fd {
      var i :| 0 <= i < |list| && list[i].fd == fd;
      assert list[1..][i - 1].fd == fd;
      var rest := if internal == [] then [] else internal[1..];
      assert forall j :: 0 <= j < |rest| ==> rest[j] == internal[j + 1];
      WithoutFdProperties(list[1..], rest, fd);
    }
  }

  /** What handlers and closing threads do under the lock keeps the cache faithful; refreshing makes
      the array the list, whatever it was. */
  lemma SectionsKeepCache(d: EventState, internal: seq<PollFd>)
    requires CacheInv(d, internal)
    ensures CacheInv(PreparePoll(d), internal) && CacheInv(BeginClose(d), internal) && CacheInv(EndClose(d), internal)
    ensures CacheInv(ClearIfIdle(d), internal)
    ensures CacheInv(TakeMessage(d).0, internal) && CacheInv(TakeCompleted(d).0, internal)
    ensures PreparePoll(d).pollfds == d.ipollfds && internal <= PreparePoll(d).pollfds
  {
  }

  /** So does what any thread may do at any time, as long as it leaves libusb's own descriptors
      watched. */
  lemma NoticesKeepCache(d: EventState, n: Notice, internal: seq<PollFd>)
    requires CacheInv(d, internal) && (n.Unwatch? ==> !Watches(internal, n.fd))
    ensures CacheInv(Noticed(d, n), internal) && Noticed(d, n).pollfds == d.pollfds
  {
    match n
    case Unwatch(fd) =>
      if Watches(d.ipollfds, fd) {
        WithoutFdProperties(d.ipollfds, internal, fd);
      }
    case _ =>
  }

  // -------------------------------------------------------------------- the context

  class EventContext {
    var tokens: nat
    ghost var blockedRead: bool
    var ipollfds: seq<PollFd>
    var pollfds: array<PollFd>
    var pollfdsCnt: int
    var modified: bool
    var deviceClose: nat
    var msgs: seq<Message>
    var completed: seq<TransferId>

    /** libusb's own descriptors. */
    ghost const internal: seq<PollFd>

    ghost function State(): EventState
      reads this, pollfds
    {
      EventState(tokens, blockedRead, ipollfds, pollfds[..], pollfdsCnt, modified, deviceClose, msgs, completed)
    }

    /** What every section under event_data_lock keeps: a faithful cache, a byte in the pipe for
        pending events, and no read from the empty pipe. */
    ghost predicate Healthy()
      reads this, pollfds
    {
      CacheInv(State(), internal) && DataOk(State())
    }

    /** Nothing waits for a handler. */
    predicate Quiet()
      reads this
    {
      deviceClose == 0 && !modified && msgs == [] && completed == []
    }

    /** usbi_io_init, as far as it concerns events: the pipe is watched, and the timerfd if any. */
    constructor (pipe: PollFd, timer: Option<PollFd>)
      ensures State() == InitialEvents(pipe, timer) && fresh(pollfds)
      ensures internal == InternalFds(pipe, timer) && Healthy()
    {
      internal := InternalFds(pipe, timer);
      tokens, blockedRead, ipollfds, pollfdsCnt, modified := 0, false, [], 0, false;
      deviceClose, msgs, completed := 0, [], [];
      pollfds := new PollFd[0];
      new;
      assert State() == EventState(0, false, [], [], 0, false, 0, [], []);
      Add(pipe);
      if timer.Some? {
        Add(timer.value);
      }
    }

    method PendingEvents() returns (r: bool)
      ensures r == Pending(State())
    {
      r := deviceClose > 0 || modified || msgs != [] || completed != [];
    }

    method SignalEvent()
      modifies this`tokens
      ensures tokens == old(tokens) + 1
    {
      tokens := tokens + 1;
    }

    method ClearPipe()
      modifies this`tokens, this`blockedRead
      ensures State() == ClearEvent(old(State()))
    {
      if tokens > 0 {
        tokens := tokens - 1;
      } else {
        blockedRead := true;
      }
    }

    /** usbi_fd_notification */
    method FdNotification()
      modifies this`modified, this`tokens
      ensures old(Healthy()) ==> Healthy()
      ensures State() == SignalUnless(Pending(old(State())), old(State()).(modified := true))
      ensures tokens == old(tokens) + if old(Quiet()) then 1 else 0
    {
      var pending := PendingEvents();
      modified := true;
      if !pending {
        SignalEvent();
      }
    }

    /** usbi_add_pollfd */
    method Add(p: PollFd)
      modifies this`ipollfds, this`pollfdsCnt, this`modified, this`tokens
      ensures old(Healthy()) ==> Healthy()
      ensures State() == AddPollFd(old(State()), p)
      ensures ipollfds == old(ipollfds) + [p] && pollfdsCnt == old(pollfdsCnt) + 1 && modified
      ensures tokens == old(tokens) + if old(Quiet()) then 1 else 0
    {
      ipollfds := ipollfds + [p];
      pollfdsCnt := pollfdsCnt + 1;
      FdNotification();
    }

    /** usbi_remove_pollfd */
    method Remove(fd: int)
      modifies this`ipollfds, this`pollfdsCnt, this`modified, this`tokens
      ensures old(Healthy()) && !Watches(internal, fd) ==> Healthy()
      ensures State() == RemovePollFd(old(State()), fd)
      ensures (forall k :: 0 <= k < |old(ipollfds)| ==> old(ipollfds)[k].fd != fd) ==>
                State() == old(State())
      ensures (exists k :: 0 <= k < |old(ipollfds)| && old(ipollfds)[k].fd == fd) ==>
                && modified && pollfdsCnt == old(pollfdsCnt) - 1
                && FirstRemoved(old(ipollfds), ipollfds, fd)
                && tokens == old(tokens) + if old(Quiet()) then 1 else 0
    {
      var i := 0;
      while i < |ipollfds|
        invariant 0 <= i <= |ipollfds|
        invariant forall k :: 0 <= k < i ==> ipollfds[k].fd != fd
      {
        if ipollfds[i].fd == fd {
          break;
        }
        i := i + 1;
      }
      if i == |ipollfds| {
        return;
      }
      WithoutFdAt(ipollfds, fd, i);
      ipollfds := ipollfds[..i] + ipollfds[i + 1..];
      pollfdsCnt := pollfdsCnt - 1;
      FdNotification();
    }

    /** The locked section at the head of handle_events. The array is allocated with the counted
        size and filled from the list, so the count has to be right. */
    method Prepare()
      requires pollfdsCnt == |ipollfds|
      modifies this`pollfds, this`modified, this`tokens, this`blockedRead
      ensures old(Healthy()) ==> Healthy() && internal <= pollfds[..] == ipollfds
      ensures State() == PreparePoll(old(State()))
      ensures !modified && (old(tokens) > 0 ==> tokens == old(tokens) - if old(modified) && Quiet() then 1 else 0)
    {
      if modified {
        var fds := new PollFd[pollfdsCnt](_ => PollFd(0, 0));
        var i := 0;
        while i < |ipollfds|
          invariant 0 <= i <= |ipollfds| == fds.Length
          invariant fds[..i] == ipollfds[..i]
          modifies fds
        {
          fds[i] := ipollfds[i];
          i := i + 1;
        }
        pollfds := fds;
        modified := false;
        assert pollfds[..] == ipollfds;
        var pending := PendingEvents();
        if !pending {
          ClearPipe();
        }
      }
    }

    /** usbi_hotplug_notification */
    method Notify(m: Message)
      modifies this`msgs, this`tokens
      ensures old(Healthy()) ==> Healthy()
      ensures State() == NotifyHotplug(old(State()), m)
      ensures msgs == old(msgs) + [m]
      ensures tokens == old(tokens) + if old(Quiet()) then 1 else 0
    {
      var pending := PendingEvents();
      msgs := msgs + [m];
      if !pending {
        SignalEvent();
      }
    }

    /** usbi_signal_transfer_completion */
    method Complete(t: TransferId)
      modifies this`completed, this`tokens
      ensures old(Healthy()) ==> Healthy()
      ensures State() == SignalCompletion(old(State()), t)
      ensures completed == old(completed) + [t]
      ensures tokens == old(tokens) + if old(Quiet()) then 1 else 0
    {
      var pending := PendingEvents();
      completed := completed + [t];
      if !pending {
        SignalEvent();
      }
    }

    /** handle_events, at the event pipe: the next hotplug message, if any. */
    method NextMessage() returns (m: Option<Message>)
      modifies this`msgs
      ensures old(Healthy()) ==> Healthy()
      ensures (State(), m) == TakeMessage(old(State()))
      ensures old(msgs) == [] ==> m == None && msgs == []
      ensures old(msgs) != [] ==> m == Some(old(msgs)[0]) && old(msgs) == [m.value] + msgs
    {
      m := None;
      if msgs != [] {
        m := Some(msgs[0]);
        msgs := msgs[1..];
      }
    }

    /** handle_events, at the event pipe: the next completed transfer, if any. */
    method NextCompleted() returns (t: Option<TransferId>)
      modifies this`completed
      ensures old(Healthy()) ==> Healthy()
      ensures (State(), t) == TakeCompleted(old(State()))
      ensures old(completed) == [] ==> t == None && completed == []
      ensures old(completed) != [] ==> t == Some(old(completed)[0]) && old(completed) == [t.value] + completed
    {
      t := None;
      if completed != [] {
        t := Some(completed[0]);
        completed := completed[1..];
      }
    }

    /** handle_events, at the event pipe: the last thing done under the lock. The pipe was seen readable. */
    method DrainIfIdle()
      modifies this`tokens, this`blockedRead
      ensures old(Healthy()) && old(tokens) > 0 ==> Healthy()
      ensures State() == ClearIfIdle(old(State()))
      ensures old(tokens) > 0 ==> tokens == old(tokens) - if Quiet() then 1 else 0
    {
      var pending := PendingEvents();
      if !pending {
        ClearPipe();
      }
    }

    /** The first locked section of libusb_close. */
    method StartClosing()
      modifies this`deviceClose, this`tokens
      ensures old(Healthy()) ==> Healthy()
      ensures State() == BeginClose(old(State()))
      ensures deviceClose == old(deviceClose) + 1
      ensures tokens == old(tokens) + if old(Quiet()) then 1 else 0
    {
      var pending := PendingEvents();
      deviceClose := deviceClose + 1;
      if !pending {
        SignalEvent();
      }
    }

    /** The last locked section of libusb_close; the counter is unsigned. */
    method DoneClosing()
      requires deviceClose > 0
      modifies this`deviceClose, this`tokens, this`blockedRead
      ensures old(Healthy()) ==> Healthy()
      ensures State() == EndClose(old(State()))
      ensures deviceClose == old(deviceClose) - 1
      ensures old(tokens) > 0 ==> tokens == old(tokens) - if Quiet() then 1 else 0
    {
      deviceClose := deviceClose - 1;
      var pending := PendingEvents();
      if !pending {
        ClearPipe();
      }
    }
  }

  function InitialEvents(pipe: PollFd, timer: Option<PollFd>): EventState {
    var d := AddPollFd(EventState(0, false, [], [], 0, false, 0, [], []), pipe);
    if timer.Some? then AddPollFd(d, timer.value) else d
  }

  function InternalFds(pipe: PollFd, timer: Option<PollFd>): seq<PollFd> {
    if timer.Some? then [pipe, timer.value] else [pipe]
  }

  lemma {:induction false} WithoutFdAt(list: seq<PollFd>, fd: int, i: nat)
    requires i < |list| && list[i].fd == fd && forall k :: 0 <= k < i ==> list[k].fd != fd
    ensures WithoutFd(list, fd) == list[..i] + list[i + 1..]
    ensures Watches(list, fd)
  {
    if i > 0 {
      WithoutFdAt(list[1..], fd, i - 1);
      assert list[..i] == [list[0]] + list[1..][..i - 1];
      assert list[i + 1..] == list[1..][i..];
    }
  }
}
