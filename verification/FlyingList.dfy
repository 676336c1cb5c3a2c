/**
 The flying-transfers list of a context on its intrusive ring, with the timerfd. Every operation
 is tied to the list as a value (module Timeouts).
 */
module FlyingList {
  import opened Usb
  import opened Deadlines
  import opened Timeouts
  import I = IntrusiveList

  /** struct usbi_transfer, as far as the list and the timeouts use it. `ticket` numbers its
      submission. */
  class Transfer {
    const list: I.Link
    var timeout: Timeval
    var flags: Flags
    ghost var ticket: nat

    constructor (timeout: Timeval, flags: Flags, ghost ticket: nat)
      ensures this.timeout == timeout && this.flags == flags && this.ticket == ticket && fresh(list)
    {
      list := new I.Link();
      this.timeout, this.flags, this.ticket := timeout, flags, ticket;
    }

    ghost function Value(): Entry
      reads this
    {
      Entry(timeout, ticket, flags)
    }

    /** libusb_cancel_transfer, where `answer` is what the back end returns. */
    method Cancel(answer: Code) returns (r: Code)
      modifies this`flags
      ensures (flags, r) == Cancelled(old(flags), answer)
      ensures r == if old(flags).inFlight && !old(flags).cancelling then answer else ErrorNotFound
      ensures flags.cancelling <==> old(flags).cancelling || old(flags).inFlight
      ensures flags.disappeared <==>
              old(flags).disappeared || (old(flags).inFlight && !old(flags).cancelling && answer == ErrorNoDevice)
    {
      if !flags.inFlight || flags.cancelling {
        return ErrorNotFound;
      }
      r := answer;
      if r == ErrorNoDevice {
        flags := flags.(disappeared := true);
      }
      flags := flags.(cancelling := true);
    }

    /** handle_timeout */
    method HandleTimeout(answer: Code)
      modifies this`flags
      ensures flags == TimedOutFlags(old(flags), answer)
      ensures flags.timeoutHandled
      ensures flags.timedOut <==>
              old(flags).timedOut || (old(flags).inFlight && !old(flags).cancelling && answer == Success)
    {
      flags := flags.(timeoutHandled := true);
      var r := Cancel(answer);
      if r == Success {
        flags := flags.(timedOut := true);
      }
    }

    /** usbi_handle_transfer_cancellation: a timeout is reported as such. */
    method HandleCancellation() returns (status: TransferStatus)
      ensures status == CancellationStatus(flags)
    {
      if flags.timedOut {
        return TimedOut;
      }
      return TransferCancelled;
    }
  }

  ghost function Links(items: seq<Transfer>): (ls: seq<I.Link>)
    ensures |ls| == |items|
  {
    seq(|items|, i requires 0 <= i < |items| => items[i].list)
  }

  ghost function Values(items: seq<Transfer>): (es: seq<Entry>)
    reads items
    ensures |es| == |items|
    ensures forall i :: 0 <= i < |items| ==> es[i] == items[i].Value()
  {
    seq(|items|, i requires 0 <= i < |items| reads items => items[i].Value())
  }

  lemma LinksInserted(items: seq<Transfer>, pos: nat, t: Transfer)
    requires pos <= |items|
    ensures Links(Inserted(items, pos, t)) == Inserted(Links(items), pos, t.list)
  {
  }

  lemma EntriesFound(entryOf: map<I.Link, Transfer>, items: seq<Transfer>, pos: nat, t: Transfer)
    requires pos <= |items| && t.list !in Links(items)
    requires forall i :: 0 <= i < |items| ==> items[i].list in entryOf && entryOf[items[i].list] == items[i]
    ensures var longer, found := Inserted(items, pos, t), entryOf[t.list := t];
            forall i :: 0 <= i < |longer| ==> longer[i].list in found && found[longer[i].list] == longer[i]
  {
    forall i | 0 <= i < |items|
      ensures items[i].list != t.list
    {
      assert Links(items)[i] in Links(items);
    }
  }

  lemma LinksWithout(items: seq<Transfer>, k: nat)
    requires k < |items|
    ensures Links(Without(items, k)) == Without(Links(items), k)
  {
  }

  /** The list head and the timerfd of a context. `entryOf` stands for the address arithmetic of
      list_entry; `items` are the listed transfers in order. */
  class FlyingTransfers {
    const head: I.Link
    const usingTimerfd: bool
    var entryOf: map<I.Link, Transfer>
    var timer: Option<Timeval>
    ghost var items: seq<Transfer>

    ghost predicate Valid()
      reads this, head, Links(items)
    {
      && I.Ring(head, Links(items))
      && forall i :: 0 <= i < |items| ==> items[i].list in entryOf && entryOf[items[i].list] == items[i]
    }

    constructor (usingTimerfd: bool)
      ensures Valid() && items == [] && timer == None && this.usingTimerfd == usingTimerfd && fresh(head)
    {
      head := new I.Link();
      this.usingTimerfd := usingTimerfd;
      entryOf, timer, items := map[], None, [];
      new;
      I.ListInit(head);
      assert Links(items) == [];
    }

    lemma NextStation(k: nat)
      requires Valid() && k <= |items|
      ensures I.Station(head, Links(items), k).next == I.Station(head, Links(items), k + 1)
      ensures I.Station(head, Links(items), k + 1) == head <==> k == |items|
    {
      if k < |items| {
        assert Links(items)[k] in Links(items);
      }
    }

    /** timerfd_settime for an absolute time, or to disarm; it may fail. */
    method SetTimer(at: Option<Timeval>, ok: bool) returns (r: Code)
      modifies this`timer
      ensures r == if ok then Success else ErrorOther
      ensures timer == if ok then at else old(timer)
    {
      if !ok {
        return ErrorOther;
      }
      timer := at;
      return Success;
    }

    /** arm_timerfd_for_next_timeout */
    method ArmForNextTimeout(timerOk: bool) returns (r: Code)
      requires Valid()
      modifies this`timer
      ensures r == if timerOk then Success else ErrorOther
      ensures timer == if timerOk then NextArming(Values(items)) else old(timer)
    {
      ghost var es, k := Values(items), 0;
      NextStation(0);
      var cur := head.next;
      assert es[0..] == es;
      while cur != head
        invariant 0 <= k <= |items| && cur == I.Station(head, Links(items), k + 1)
        invariant NextArming(es) == NextArming(es[k..])
        invariant timer == old(timer)
        decreases |items| - k
      {
        NextStation(k);
        var t := entryOf[cur];
        assert t == items[k] && es[k..][0] == t.Value() && es[k..][1..] == es[k + 1..];
        if !IsSet(t.timeout) {
          break;
        }
        if !t.flags.timeoutHandled {
          r := SetTimer(Some(t.timeout), timerOk);
          return;
        }
        NextStation(k + 1);
        cur, k := cur.next, k + 1;
      }
      NextStation(k);
      r := SetTimer(None, timerOk);
    }

    /** The walk of add_to_flying_list: put `t` before the first transfer that expires later.
        `first` tells whether there was no transfer before it. */
    method InsertSorted(t: Transfer) returns (first: bool, ghost pos: nat)
      requires Valid() && items != [] && IsSet(t.timeout) && t.list != head && t.list !in Links(items)
      modifies t.list, head, Links(items)
      ensures pos == InsertPos(old(Values(items)), t.timeout) && (first <==> pos == 0)
      ensures I.Ring(head, Inserted(Links(items), pos, t.list))
    {
      hide InsertPos, InsertReached;
      ghost var es := Values(items);
      first, pos := true, 0;
      NextStation(0);
      InsertBegins(es, t.timeout);
      var cur := head.next;
      while cur != head
        invariant 0 <= pos <= |items| && cur == I.Station(head, Links(items), pos + 1)
        invariant first <==> pos == 0
        invariant InsertReached(es, t.timeout, pos)
        decreases |items| - pos
        modifies {}
      {
        NextStation(pos);
        InsertAt(es, t.timeout, pos);
        var c := entryOf[cur];
        assert c == items[pos] && es[pos] == c.Value();
        if !IsSet(c.timeout) || c.timeout.sec > t.timeout.sec
           || (c.timeout.sec == t.timeout.sec && c.timeout.usec > t.timeout.usec) {
          break;
        }
        first := false;
        NextStation(pos + 1);
        cur, pos := cur.next, pos + 1;
      }
      NextStation(pos);
      InsertAt(es, t.timeout, pos);
      I.ListAddTail(t.list, cur, head, Links(items), pos);
    }

    lemma UnsetGoesLast(es: seq<Entry>, deadline: Timeval)
      requires !IsSet(deadline)
      ensures InsertPos(es, deadline) == |es|
    {
      if es != [] {
        UnsetGoesLast(es[1..], deadline);
      }
    }

    /** The placing part of add_to_flying_list; `first` is what the source's variable holds. */
    method Place(t: Transfer) returns (first: bool, ghost pos: nat)
      requires Valid() && t.list != head && t.list !in Links(items)
      modifies t.list, head, Links(items)
      ensures pos == InsertPos(old(Values(items)), t.timeout) && pos <= |items|
      ensures IsSet(t.timeout) ==> (first <==> pos == 0)
      ensures I.Ring(head, Inserted(Links(items), pos, t.list))
    {
      first, pos := true, 0;
      var empty := I.ListEmpty(head, Links(items));
      if empty {
        I.ListAdd(t.list, head, head, Links(items), 0);
      } else if !IsSet(t.timeout) {
        UnsetGoesLast(Values(items), t.timeout);
        pos := |items|;
        I.ListAddTail(t.list, head, head, Links(items), pos);
      } else {
        first, pos := InsertSorted(t);
      }
    }

    /** add_to_flying_list. On failure the transfer is not on the list. */
    method Add(t: Transfer, timerOk: bool) returns (r: Code)
      requires Valid() && t.list != head && t.list !in Links(items)
      modifies this, t.list, head, Links(items)
      ensures Valid()
      ensures var pos := InsertPos(old(Values(items)), t.timeout);
              var arms := usingTimerfd && pos == 0 && IsSet(t.timeout);
              if arms && !timerOk then
                r == ErrorOther && items == old(items) && timer == old(timer) && t.list.next == null
              else
                && r == Success
                && items == Inserted(old(items), pos, t)
                && timer == if arms then Some(t.timeout) else old(timer)
    {
      r := Success;
      ghost var links := Links(items);
      var first, pos := Place(t);
      if first && usingTimerfd && IsSet(t.timeout) {
        r := SetTimer(Some(t.timeout), timerOk);
      }
      if r != Success {
        Withdraw(t, links, pos);
      } else {
        LinksInserted(items, pos, t);
        EntriesFound(entryOf, items, pos, t);
        entryOf := entryOf[t.list := t];
        items := Inserted(items, pos, t);
      }
    }

    /** The way out of add_to_flying_list when the timer cannot be armed. */
    method Withdraw(t: Transfer, ghost links: seq<I.Link>, ghost pos: nat)
      requires pos <= |links| && I.Ring(head, Inserted(links, pos, t.list))
      modifies t.list, head, links
      ensures I.Ring(head, links) && t.list.next == null
    {
      WithoutInserted(links, pos, t.list);
      MembersInserted(links, pos, t.list);
      I.ListDel(t.list, head, Inserted(links, pos, t.list), pos);
    }

    /** remove_from_flying_list: the transfer always leaves the list. */
    method Remove(t: Transfer, timerOk: bool, ghost k: nat) returns (r: Code)
      requires Valid() && k < |items| && items[k] == t
      modifies this, head, Links(items)
      ensures Valid()
      ensures items == Without(old(items), k) && t.list.next == null
      ensures var rearm := usingTimerfd && k == 0 && IsSet(t.timeout);
              && r == (if rearm && !timerOk then ErrorOther else Success)
              && timer == if rearm && timerOk then NextArming(Values(items)) else old(timer)
    {
      r := Success;
      NextStation(0);
      var rearm := IsSet(t.timeout) && entryOf[head.next] == t;
      assert entryOf[head.next] == items[0];
      assert rearm <==> IsSet(t.timeout) && k == 0 by {
        if k > 0 {
          assert Links(items)[0] != Links(items)[k];
        }
      }
      ghost var links := Links(items);
      I.ListDel(t.list, head, links, k);
      LinksWithout(items, k);
      items := Without(items, k);
      if usingTimerfd && rearm {
        r := ArmForNextTimeout(timerOk);
      }
    }

    /** handle_timeouts_locked; `answers(t)` is what the back end returns for cancelling t. The clock
        is not read when the list is empty, and nothing is marked when it cannot be read. */
    method HandleTimeouts(clock: Clock, answers: Transfer -> Code) returns (r: Code)
      requires Valid()
      modifies items
      ensures Valid()
      ensures if items == [] then r == Success
              else if clock.Fails? then r == clock.code && Values(items) == old(Values(items))
              else r == Success &&
                   Values(items) == Scan(old(Values(items)), ToTimeval(clock.now), Answers(items, answers))
    {
      var empty := I.ListEmpty(head, Links(items));
      if empty {
        return Success;
      }
      if clock.Fails? {
        return clock.code;
      }
      ExpireDue(ToTimeval(clock.now), answers);
      r := Success;
    }

    /** The loop of handle_timeouts_locked. */
    method ExpireDue(now: Timeval, answers: Transfer -> Code)
      requires Valid()
      modifies items
      ensures Valid() && Values(items) == Scan(old(Values(items)), now, Answers(items, answers))
    {
      hide Scan, ScanReached;
      ghost var es, ans, k := Values(items), Answers(items, answers), 0;
      ghost var result := Scan(es, now, ans);
      ScanBegins(es, now, ans);
      NextStation(0);
      var cur := head.next;
      while cur != head
        invariant Valid()
        invariant 0 <= k <= |items| && cur == I.Station(head, Links(items), k + 1)
        invariant forall i :: 0 <= i < |items| ==> items[i].Value() == if i < k then result[i] else es[i]
        invariant ScanReached(es, now, ans, k)
        decreases |items| - k
      {
        NextStation(k);
        var t := entryOf[cur];
        assert t == items[k] && t.Value() == es[k];
        if !IsSet(t.timeout) {
          break;
        }
        if !(t.flags.timeoutHandled || t.flags.osHandles) {
          if Later(t.timeout, now) {
            break;
          }
          ExpireAt(t, answers(t), k);
        }
        ScanAt(es, now, ans, k);
        NextStation(k + 1);
        cur, k := cur.next, k + 1;
      }
      NextStation(k);
      ScanEnds(es, now, ans, k);
    }

    method ExpireAt(t: Transfer, answer: Code, ghost k: nat)
      requires Valid() && k < |items| && items[k] == t
      modifies t`flags
      ensures Valid() && t.Value() == Expire(old(t.Value()), answer)
      ensures forall i :: 0 <= i < |items| && i != k ==> items[i].Value() == old(items[i].Value())
    {
      DistinctItems(k);
      t.HandleTimeout(answer);
    }

    lemma DistinctItems(k: nat)
      requires Valid() && k < |items|
      ensures forall i :: 0 <= i < |items| && i != k ==> items[i] != items[k]
    {
      forall i | 0 <= i < |items| && i != k
        ensures items[i] != items[k]
      {
        assert Links(items)[i] != Links(items)[k];
      }
    }

    /** handle_timerfd_trigger: the timer is set anew only if the timeouts could be handled. */
    method HandleTrigger(clock: Clock, answers: Transfer -> Code, timerOk: bool) returns (r: Code)
      requires Valid() && (clock.Fails? ==> clock.code != Success)
      modifies this`timer, items
      ensures Valid()
      ensures if items != [] && clock.Fails? then
                r == clock.code && timer == old(timer) && Values(items) == old(Values(items))
              else
                && (items != [] ==>
                      Values(items) == Scan(old(Values(items)), ToTimeval(clock.now), Answers(items, answers)))
                && r == (if timerOk then Success else ErrorOther)
                && timer == (if timerOk then NextArming(Values(items)) else old(timer))
    {
      r := HandleTimeouts(clock, answers);
      if r != Success {
        return;
      }
      r := ArmForNextTimeout(timerOk);
    }

    /** libusb_get_next_timeout; a clock that cannot be read counts as no timeout. */
    method GetNextTimeout(clock: Clock) returns (r: Option<Timeval>)
      requires Valid()
      ensures r == if usingTimerfd || clock.Fails? then None else NextTimeout(Values(items), ToTimeval(clock.now))
    {
      if usingTimerfd {
        return None;
      }
      var next := FirstOpen();
      if next.None? || clock.Fails? {
        return None;
      }
      var now := ToTimeval(clock.now);
      r := Some(if Later(next.value, now) then Minus(next.value, now) else Timeval(0, 0));
    }

    /** The walk of libusb_get_next_timeout: the first transfer whose timeout nobody has handled, if it
        has a deadline. */
    method FirstOpen() returns (next: Option<Timeval>)
      requires Valid()
      ensures next == FirstOpenDeadline(Values(items))
    {
      ghost var es, k := Values(items), 0;
      NextStation(0);
      var cur := head.next;
      assert es[0..] == es;
      while cur != head
        invariant 0 <= k <= |items| && cur == I.Station(head, Links(items), k + 1)
        invariant FirstOpenDeadline(es) == FirstOpenDeadline(es[k..])
        decreases |items| - k
      {
        NextStation(k);
        var t := entryOf[cur];
        assert t == items[k] && es[k..][0] == t.Value() && es[k..][1..] == es[k + 1..];
        if !(t.flags.timeoutHandled || t.flags.osHandles) {
          return if IsSet(t.timeout) then Some(t.timeout) else None;
        }
        NextStation(k + 1);
        cur, k := cur.next, k + 1;
      }
      return None;
    }
  }

  function Answers(items: seq<Transfer>, answers: Transfer -> Code): (r: seq<Code>)
    ensures |r| == |items|
  {
    seq(|items|, i requires 0 <= i < |items| => answers(items[i]))
  }

  // ------------------------------------------------------ the methods are the changes

  /** An addition with a timerfd that works is the change of the same name: the list and the timer that Add
      promises are those of module Timeouts. */
  lemma AddIsChange(items: seq<Transfer>, timer: Option<Timeval>, t: Transfer)
    requires !t.flags.timeoutHandled
    ensures var es, pos := Values(items), InsertPos(Values(items), t.timeout);
            Changed(Flying(es, timer, t.ticket), Change.Add(t.timeout, t.flags)) ==
            Flying(Values(Inserted(items, pos, t)), if pos == 0 && IsSet(t.timeout) then Some(t.timeout) else timer,
                   t.ticket + 1)
  {
    var pos := InsertPos(Values(items), t.timeout);
    assert Values(Inserted(items, pos, t)) == Inserted(Values(items), pos, t.Value());
  }

  /** So is a removal. */
  lemma RemoveIsChange(items: seq<Transfer>, timer: Option<Timeval>, tickets: nat, k: nat)
    requires k < |items|
    ensures Changed(Flying(Values(items), timer, tickets), Change.Remove(k)) ==
            Flying(Values(Without(items, k)),
                   if k == 0 && IsSet(items[0].timeout) then NextArming(Values(Without(items, k))) else timer, tickets)
  {
    assert Values(Without(items, k)) == Without(Values(items), k);
    assert Values(items)[0].deadline == items[0].timeout;
  }
}
