# Proofs about libusb's transfer and event core

This project models the core of the USB library under `Intelligence/Projet3/libusb` (libusb 1.0.20
with its Linux back end) and proves what that core promises to its callers.

| files | component |
|---|---|
| `BulkUrbs.dfy`, `BulkRuns.dfy`, `BulkContents.dfy`, `BulkReports.dfy` | bulk and interrupt transfers: splitting over URBs, the reap state machine, compaction of surplus data, the final report |
| `IsoUrbs.dfy`, `IsoReap.dfy` | isochronous transfers: counting and packing packets, filling in packet results |
| `EventData.dfy`, `EventProtocol.dfy`, `EventSafety.dfy`, `EventOrder.dfy` | event pipe, poll array, events lock, waiters and closing threads; the order of delivery |
| `IntrusiveList.dfy`, `FlyingList.dfy`, `Timeouts.dfy`, `Deadlines.dfy` | the list of flying transfers, timeouts and the timerfd |
| `Lifecycle.dfy`, `Sync.dfy`, `Disconnect.dfy` | submit, complete, cancel, resubmit; synchronous calls; what happens when a device goes |
| `Descriptors.dfy`, `DescriptorRoundTrip.dfy`, `DescriptorAccounting.dfy` | the configuration descriptor parser and a serialiser for it |
| `Hotplug.dfy`, `HotplugDelivery.dfy`, `HotplugCallbacks.dfy`, `HotplugRegister.dfy` | device references while messages travel through the event pipe, the callback list, and registering while it is walked |
| `Usb.dfy` | shared vocabulary |

Code that changes objects step by step is a class or a method, specified by a function of the old
state; what the library promises is proved about those functions. Where several threads are at work
the model is a step system whose steps are the sections between taking and dropping a lock, and the
results hold for every run. Integers are unbounded except where the code depends on their width (the
isochronous packet lengths).

The kernel, the clock and the application are the environment. URBs come back once each, in the
order of submission, with no more bytes than their buffer holds; apart from that the kernel may
accept any prefix of a submission, write any bytes into URBs it has, and give any status. Callbacks
may close handles, register and deregister, but do not handle events themselves.

## Where the code does not keep the promise

- A stall or a removal leaves the reap action at `NORMAL`, so bytes of later URBs are counted but not
  moved: `BulkRuns.HoleExample`. The exact condition is `BulkRuns.ContiguousIffNoGap` for one reap,
  `BulkContents.ContiguousForAllContentsIff` for a run with any contents, and
  `BulkRuns.ContiguousRunIff` for a run with given ones.
- An overflow in a URB that is not the last ends the transfer while URBs are still out, and nothing
  else does (`BulkRuns.EarlyReportIff`); the runs exclude it.
- A packet length of 2^31 or more passes the size check and is never packed
  (`IsoUrbs.HugePacketSlipsThrough`); the exact condition is `IsoUrbs.AcceptedAndPackedIff`.
- A close inside a callback clears `event_handler_active` although its thread goes on handling events
  (`EventSafety.CallbackCloseDropsFlag`); nothing else does (`EventSafety.HandlerFlagIff`).
- With a user timeout of 0 a transfer keeps the deadline of its last use (`Deadlines.CalculateTimeout`).
- The timer is only sure to cover the head of the list (`Timeouts.FirstOpenDeadlineUnarmed`); it covers
  every unhandled deadline exactly as long as additions are in time (`Timeouts.AddCoversIff`,
  `Timeouts.AlwaysCoversIff`).
- A device that leaves before the message list is ready keeps the list's reference for ever, and only
  such a device does (`Hotplug.LostForEver`, `Hotplug.DepartureBeforeReady`).
- A walk can free a callback whose registration is still going through the devices that are there
  already, and the registration then looks at the freed node (`HotplugRegister.FreedWhileRegistering`);
  nothing else makes it do so (`HotplugRegister.RegistrationIsSafeIff`).
- A truncated class descriptor makes the parser drop the ones before it, and can leave
  `bNumEndpoints` without endpoints (`DescriptorAccounting.EndpointExtraIff`,
  `DescriptorAccounting.AltExtraIff`, `DescriptorAccounting.EndpointCountIff`).

## What the interface allows but no back end does

`libusbi.h:1016-1021` lets a back end both report devices as gone and complete transfers without the
transfer's lock. Such a back end could have a submission marked and overtaken at the same time, and the
transfer would be delisted and unreferenced twice (`Lifecycle.DelistedTwice`,
`Lifecycle.UnreferencedTwice`; exactly then, by `Lifecycle.BrokenIffClash`). The Linux back end takes the
lock first (`linux_usbfs.c:2215`, `2355`, `2471`), and no other back end reports devices as gone, so with
the back ends there are this does not happen (`Lifecycle.LifeCorrectHere`).

## Model

| member | source | states |
|---|---|---|
| `BulkUrbs.UrbsTile` | Intelligence/Projet3/libusb/os/linux_usbfs.c:1825-1871 | For every length and block size the slices of the URBs follow each other without gap or overlap, none is longer than a block, and the last one ends where the transfer ends |
| `BulkUrbs.CountIsQuotient` | Intelligence/Projet3/libusb/os/linux_usbfs.c:1825-1833 | The number of URBs computed by division is the number of blocks it takes to cover the transfer |
| `BulkUrbs.SliceByProduct` | Intelligence/Projet3/libusb/os/linux_usbfs.c:1862-1871 | The offset computed by multiplication and the length computed by remainder are the slice that follows the one before |
| `BulkUrbs.PlanSplit` | Intelligence/Projet3/libusb/os/linux_usbfs.c:1802-1833 | The block size for each combination of kernel capabilities, the number of URBs, and whether the last URB is partial |
| `BulkUrbs.FillUrb` | Intelligence/Projet3/libusb/os/linux_usbfs.c:1845-1879 | Offset, length and flags of one URB: short-not-ok on every IN URB but the last, continuation on every URB but the first, the zero packet on the last OUT URB only |
| `BulkUrbs.UrbShape` | Intelligence/Projet3/libusb/os/linux_usbfs.c:1802-1879 | What the capability bits mean for the URBs handed to the kernel: one URB or URBs of 16 kB of which only the last is shorter, continuation on every URB but the first, short-not-ok on every IN URB but the last, the zero packet on the last OUT URB |
| `BulkUrbs.BulkTransfer.Submit` | Intelligence/Projet3/libusb/os/linux_usbfs.c:1765-1935 | The whole new state and the answer for every way the kernel can accept a prefix of the URBs: unsubmitted URBs count as retired, a refused first URB fails the call, a later refusal is reported as success and discards what was accepted unless it means "completed early" |
| `BulkUrbs.BulkTransfer.SwitchOnStatus` | Intelligence/Projet3/libusb/os/linux_usbfs.c:2268-2305 | What each URB status does to a healthy transfer, status by status: the first complaint is kept, a removal is stored whatever came before, an overflow ends the transfer at once |
| `BulkUrbs.BulkTransfer.KeepSurplus` | Intelligence/Projet3/libusb/os/linux_usbfs.c:2228-2251 | Surplus bytes of an ending transfer are moved right behind what was received before |
| `BulkUrbs.BulkTransfer.MemMove` | Intelligence/Projet3/libusb/os/linux_usbfs.c:2248 | Overlapping bytes are copied as if through a second buffer, and nothing else in the buffer changes |
| `BulkUrbs.BulkTransfer.HandleCompletion` | Intelligence/Projet3/libusb/os/linux_usbfs.c:2208-2342 | One reaped URB: the new engine, the new buffer, the report if it is the last one, and the URBs that are to be discarded |
| `BulkUrbs.BulkTransfer.ReapEnding` | Intelligence/Projet3/libusb/os/linux_usbfs.c:2228-2259 | A URB of an ending transfer only hands over surplus bytes, and the transfer is finished when it was the last one out |
| `BulkUrbs.BulkTransfer.ReapHealthy` | Intelligence/Projet3/libusb/os/linux_usbfs.c:2262-2333 | A URB of a healthy transfer is counted, its status decides what becomes of the transfer, and a short or bad one makes the URBs behind it be discarded |
| `BulkUrbs.BulkTransfer.Cancel` | Intelligence/Projet3/libusb/os/linux_usbfs.c:2152-2177 | A cancellation is granted only if the discards say so; a failed bulk transfer keeps its own fate, an interrupt transfer does not |
| `BulkUrbs.DiscardUrbs` | Intelligence/Projet3/libusb/os/linux_usbfs.c:1715-1749 | Discarding from the last URB down: the complaint of the lowest URB wins, and a URB that is no longer there only counts when it is the last |
| `BulkUrbs.DiscardSucceedsIff` | Intelligence/Projet3/libusb/os/linux_usbfs.c:1726-1748 | Discarding succeeds if and only if the last URB was still there and no other answer was worse than "already finished" |
| `BulkUrbs.DiscardCodeIs` | Intelligence/Projet3/libusb/os/linux_usbfs.c:1726-1748 | Which code discarding returns, for every list of answers: that of the lowest URB with a complaint worse than "not there", or "not found" when only the last URB is gone |
| `BulkRuns.SubmissionStarts` | Intelligence/Projet3/libusb/os/linux_usbfs.c:1839-1935 | Every accepted submission, partial or not, starts in the invariant of the runs |
| `BulkRuns.InvKept` | Intelligence/Projet3/libusb/os/linux_usbfs.c:2219-2342 | Every step of kernel and user keeps num_retired = unsubmitted + reaped, `transferred` = the bytes received so far and at most where the next slice starts, and one report exactly when the last accepted URB is back |
| `BulkRuns.UnreapedUntouched` | Intelligence/Projet3/libusb/os/linux_usbfs.c:2228-2251 | The in-place move of a reap never touches the slice of a URB that is not reaped yet |
| `BulkRuns.ContiguityKept` | Intelligence/Projet3/libusb/os/linux_usbfs.c:2241-2263 | A step that is no gap keeps the front of the buffer equal to the concatenation of what the URBs brought |
| `BulkRuns.ContiguousIffNoGap` | Intelligence/Projet3/libusb/os/linux_usbfs.c:2241-2305 | The exact condition for one reap: the data stays contiguous for every content of the URB if and only if the URB is empty, or data is being moved, or its slice starts where the data so far ends |
| `BulkRuns.GapNeedsStallOrRemoval` | Intelligence/Projet3/libusb/os/linux_usbfs.c:2276-2285 | A gap can only open after an earlier URB reported a stall or a removal, because those leave the reap action at NORMAL |
| `BulkRuns.SilentRunsAreGapFree` | Intelligence/Projet3/libusb/os/linux_usbfs.c:2276-2285 | A run in which no bytes arrive after a stall or a removal opens no gap |
| `BulkRuns.HoleExample` | Intelligence/Projet3/libusb/os/linux_usbfs.c:2276-2285 | The promise of contiguous data is false in general: a submission of 32 kB split over two URBs, the first of which stalls after one byte while the second brings one byte, ends with a hole and one report |
| `BulkRuns.ContiguousRunIff` | Intelligence/Projet3/libusb/os/linux_usbfs.c:2228-2285 | The exact condition over whole runs: the front of the buffer is the concatenation of what the URBs brought if and only if no reap met a gap whose bytes differ from those received |
| `BulkRuns.HoleStaysInRun` | Intelligence/Projet3/libusb/os/linux_usbfs.c:2228-2251 | A wrong byte below `transferred` is never put right later |
| `BulkContents.ContiguousForAllContentsIff` | Intelligence/Projet3/libusb/os/linux_usbfs.c:2228-2285 | The exact condition over whole runs, without looking at bytes: whatever was in the buffer and whatever the kernel writes, the data ends up contiguous, if and only if no reap of the run is a gap |
| `BulkContents.EndingHasNoGap` | Intelligence/Projet3/libusb/os/linux_usbfs.c:2221-2259 | Once a transfer is being torn down its data is moved, and no later reap of the run is a gap |
| `BulkRuns.EarlyReportIff` | Intelligence/Projet3/libusb/os/linux_usbfs.c:2286-2291 | A transfer is reported while URBs are still out if and only if a URB that is not the last reports an overflow |
| `BulkRuns.BulkRunCorrect` | Intelligence/Projet3/libusb/os/linux_usbfs.c:2208-2342 | Main result: after any gap-free run of writes, reaps and cancellations buffer[0..transferred) is the concatenation, in URB order, of the bytes each reaped URB received, `transferred` is their sum and at most the transfer length, and there is one report exactly when all accepted URBs are back |
| `BulkRuns.ReportedOnce` | Intelligence/Projet3/libusb/os/linux_usbfs.c:1881-1931 | Gap or not, for every mix of partial submission, early completion, stall, error and cancellation: no report before the last accepted URB is reaped, exactly one then, never a second |
| `BulkRuns.CancellationSticks` | Intelligence/Projet3/libusb/os/linux_usbfs.c:2169-2173 | After a granted cancellation the only report the user can get is "cancelled", whatever the URBs bring |
| `BulkRuns.CompletedIff` | Intelligence/Projet3/libusb/os/linux_usbfs.c:2253-2336 | From any submission, when all accepted URBs are back: "completed" is reported if and only if the kernel took all URBs or refused one because the transfer was complete, no cancellation was granted, and no URB that came back before the tear-down reported an error |
| `BulkReports.FinalReport` | Intelligence/Projet3/libusb/os/linux_usbfs.c:2208-2342 | Main result: the exact final report of every run of every submission, read off what the kernel said: "cancelled" if a cancellation was granted; otherwise "no device" if and only if a URB that came back while the transfer was healthy found the device gone; otherwise "stall", "overflow" or an error by the first URB that went wrong, an error also when the kernel refused a later URB for another reason than completion; and "completed" if nothing went wrong |
| `BulkReports.CallsOffIff` | Intelligence/Projet3/libusb/os/linux_usbfs.c:2268-2333 | Which reap makes the remaining URBs be discarded: one of a healthy transfer, with other URBs still out, that came back bad or short |
| `BulkReports.GrantedIff` | Intelligence/Projet3/libusb/os/linux_usbfs.c:2152-2177 | A run ends cancelled if and only if some cancellation in it was granted while URBs were out and had not failed for good, judged by the events alone |
| `IsoUrbs.CountUrbs` | Intelligence/Projet3/libusb/os/linux_usbfs.c:1961-1975 | The counting loop with unsigned space and signed URB length, including what wraps |
| `IsoUrbs.SwallowPackets` | Intelligence/Projet3/libusb/os/linux_usbfs.c:1997-2010 | The inner loop takes as many packets as one URB can hold and adds up their bytes |
| `IsoUrbs.PackUrbs` | Intelligence/Projet3/libusb/os/linux_usbfs.c:1988-2035 | The packing loop fills the counted number of URBs greedily |
| `IsoUrbs.CountIsGroups` | Intelligence/Projet3/libusb/os/linux_usbfs.c:1961-1975 | The count equals the number of groups the second pass would form, and 1 for an empty list |
| `IsoUrbs.PackWithinLimit` | Intelligence/Projet3/libusb/os/linux_usbfs.c:1997-2010 | No packed URB is over the limit |
| `IsoUrbs.IsoPassesAgree` | Intelligence/Projet3/libusb/os/linux_usbfs.c:1961-2035 | Main result: for every list whose packets fit, filling the counted number of URBs uses every packet in order, no URB is over the limit, and each packet lies at the sum of the lengths before it |
| `IsoUrbs.IsoCountMinimal` | Intelligence/Projet3/libusb/os/linux_usbfs.c:1961-1975 | For a non-empty list the count is the least over all ways of cutting the list into consecutive groups within the limit, and is attained by one |
| `IsoUrbs.AcceptedAndPackedIff` | Intelligence/Projet3/libusb/os/linux_usbfs.c:1961-2035 | Exactly when counting accepts a list and packing uses all of it: when no packet is over the limit |
| `IsoUrbs.RejectedIff` | Intelligence/Projet3/libusb/os/linux_usbfs.c:1966-1971 | Among packet lengths that fit in a signed int, the list is rejected exactly when some packet is over the limit |
| `IsoUrbs.HugePacketSlipsThrough` | Intelligence/Projet3/libusb/os/linux_usbfs.c:1966-1971 | A packet length of 2^31 or more turns negative in `this_urb_len`, is accepted, and is never packed |
| `IsoUrbs.GetIsoPacketBuffer` | Intelligence/Projet3/libusb/libusb.h:1678-1699 | The address of packet j is the sum of the lengths of the packets before it, for every list, and NULL outside the list |
| `IsoUrbs.SetIsoPacketLengths` | Intelligence/Projet3/libusb/libusb.h:1654-1660 | All packet lengths of the transfer are set to the given one |
| `IsoUrbs.SimpleAgreesIff` | Intelligence/Projet3/libusb/libusb.h:1720-1736 | On packets of one length the multiplication form gives the offset of the summing form if and only if that offset fits in an int |
| `IsoReap.IsoTransfer.Submit` | Intelligence/Projet3/libusb/os/linux_usbfs.c:1937-2088 | The whole new state and the answer for every prefix of the URBs the kernel accepts: the accepted URBs are the packed ones in order, and they are discarded when a later one is refused |
| `IsoReap.IsoTransfer.HandleCompletion` | Intelligence/Projet3/libusb/os/linux_usbfs.c:2344-2463 | One reaped URB: each of the next descriptors gets the actual length of its packet and the status that tells how the packet went, status by status, and keeps its requested length; no other descriptor changes; and the report is made at the last URB |
| `IsoReap.IsoSubmissionStarts` | Intelligence/Projet3/libusb/os/linux_usbfs.c:1988-2084 | Whatever the descriptors and however many of the URBs packed from them are accepted, the submission starts in the invariant of the runs |
| `IsoReap.IsoInvKept` | Intelligence/Projet3/libusb/os/linux_usbfs.c:2371-2458 | Every reap and cancellation keeps the results at the descriptors they belong to, the count of retired URBs, and the single report |
| `IsoReap.IsoRunCorrect` | Intelligence/Projet3/libusb/os/linux_usbfs.c:1988-2458 | Main result: after any run from what was packed from the descriptors, the descriptor that packet k of URB i was packed from has the actual length that packet brought, the status that tells how it went, and its requested length as it was; descriptors past the reaped prefix are untouched; and completion is reported once, when the last accepted URB is back |
| `IsoReap.AllDescriptorsFilled` | Intelligence/Projet3/libusb/os/linux_usbfs.c:1961-2458 | When every packet fits and all URBs are back, every descriptor has the actual length and the status of its own packet, field by field |
| `IsoReap.IsoReport` | Intelligence/Projet3/libusb/os/linux_usbfs.c:2392-2458 | The final report of any run: "cancelled" if a cancellation was granted, an error if the kernel refused some URBs, and otherwise what the status of the last URB says, status by status, whatever the earlier ones said |
| `EventData.EventContext.constructor` | Intelligence/Projet3/libusb/io.c:1126-1154 | A new context watches the event pipe first and the timerfd, if any, second |
| `EventData.EventContext.FdNotification` | Intelligence/Projet3/libusb/io.c:2579-2589 | Keeps the context healthy, that is a faithful poll array, a byte in the pipe for pending events and no read from the empty pipe; the array is marked stale, with a byte unless something was pending |
| `EventData.EventContext.Add` | Intelligence/Projet3/libusb/io.c:2594-2612 | Keeps the context healthy; the descriptor is appended to the watched list, the count and the mark follow |
| `EventData.EventContext.Remove` | Intelligence/Projet3/libusb/io.c:2615-2641 | Keeps the context healthy unless one of libusb's own descriptors is taken out; the first entry with the descriptor goes, the rest keeps its order, and an unknown descriptor changes nothing |
| `EventData.EventContext.Prepare` | Intelligence/Projet3/libusb/io.c:2057-2093 | Keeps the context healthy and leaves an array that is the list, whatever it was, with libusb's own descriptors in front; the pipe is drained if nothing else is pending |
| `EventData.EventContext.Notify` | Intelligence/Projet3/libusb/hotplug.c:206-228 | Keeps the context healthy: a hotplug message is queued last, with a byte exactly when nothing was pending |
| `EventData.EventContext.Complete` | Intelligence/Projet3/libusb/io.c:1680-1691 | Keeps the context healthy: a completed transfer is queued last, with a byte exactly when nothing was pending |
| `EventData.EventContext.NextMessage` | Intelligence/Projet3/libusb/io.c:2136-2141 | Keeps the context healthy; the oldest message is taken and the others stay in their order, or there is none |
| `EventData.EventContext.NextCompleted` | Intelligence/Projet3/libusb/io.c:2144-2152 | Keeps the context healthy; the oldest completed transfer is taken and the others stay in their order, or there is none |
| `EventData.EventContext.DrainIfIdle` | Intelligence/Projet3/libusb/io.c:2155-2156 | Keeps the context healthy if there was a byte to drain; one byte is drained exactly when nothing is pending |
| `EventData.EventContext.StartClosing` | Intelligence/Projet3/libusb/core.c:1403-1408 | Keeps the context healthy: the close is counted and pending events have a byte |
| `EventData.EventContext.DoneClosing` | Intelligence/Projet3/libusb/core.c:1418-1423 | Keeps the context healthy: the close is uncounted, and the pipe drained, without blocking, if nothing is pending |
| `EventData.PendingMeansWork` | Intelligence/Projet3/libusb/libusbi.h:319-321 | Events are pending exactly when the next handler finds work: a closing thread to give way to, an array to refresh, a message or a completed transfer |
| `EventData.SectionsKeepCache` | Intelligence/Projet3/libusb/io.c:2057-2093 | What handlers and closing threads do keeps the count equal to the list, libusb's own descriptors in front, and an array not marked stale equal to the list; a refresh makes the array the list whatever it was |
| `EventData.NoticesKeepCache` | Intelligence/Projet3/libusb/io.c:2579-2641 | So does what any other thread does at any time, unless it stops watching one of libusb's own descriptors, and the array in use is not touched |
| `EventProtocol.LocalLock` | Intelligence/Projet3/libusb/io.c:1712-1781 | Every step of a thread keeps the recursion depth of the events lock equal to what its place in the code says |
| `EventProtocol.LocalWaiters` | Intelligence/Projet3/libusb/io.c:1832-1848 | Every step keeps event_waiters_lock with the threads whose place says they hold it |
| `EventProtocol.LocalCount` | Intelligence/Projet3/libusb/core.c:1403-1423 | Every step moves the close counter exactly with the threads inside libusb_close |
| `EventProtocol.LocalTokens` | Intelligence/Projet3/libusb/io.c:2117-2158 | Every step keeps a byte in the pipe while something is pending, and never reads the empty pipe |
| `EventProtocol.LocalActive` | Intelligence/Projet3/libusb/io.c:1712-1781 | event_handler_active is only raised by a thread that holds the events lock |
| `EventProtocol.LocalDebt` | Intelligence/Projet3/libusb/io.c:1769-1781 | A thread that owes a broadcast owes it until it has made it |
| `EventProtocol.LocalCache` | Intelligence/Projet3/libusb/io.c:2057-2093 | Every step of a thread keeps the poll array faithful |
| `EventProtocol.LocalFlag` | Intelligence/Projet3/libusb/core.c:1315-1427 | Every step of the thread that handles events keeps event_handler_active at 1 exactly until that thread has finished a close in a callback |
| `EventSafety.StepKeepsInv` | Intelligence/Projet3/libusb/io.c:2030-2212 | Every step of every one of unboundedly many threads, and every signal from outside, keeps every invariant |
| `EventSafety.RunInv` | Intelligence/Projet3/libusb/io.c:1712-2310 | The invariants hold in every state of every run from the initial one |
| `EventSafety.NoLostEvent` | Intelligence/Projet3/libusb/io.c:2117-2158 | In every reachable state pending events have an unread byte in the pipe, and nobody has read from the empty pipe, although the completion loop drops the lock and callbacks close handles |
| `EventSafety.NoLostWakeup` | Intelligence/Projet3/libusb/io.c:2280-2310 | Whenever a thread is parked in libusb_wait_for_event, another thread still owes a broadcast, whatever completion flag is awaited |
| `EventSafety.HandlersExclude` | Intelligence/Projet3/libusb/io.c:1712-1781 | event_handler_active implies that the events lock is held; at most one thread handles events or works inside a close; a close about to end is counted |
| `EventSafety.PollArrayFaithful` | Intelligence/Projet3/libusb/io.c:2057-2093 | In every reachable state the count is the length of the list, the event pipe is entry 0, and an array not marked stale is the list, element by element; the array a handler polls, or polls again although it is stale, starts with libusb's own descriptors |
| `EventSafety.ParkedCanBeWoken` | Intelligence/Projet3/libusb/io.c:1769-1848 | Every run that has parked a thread goes on, by steps of other threads that are neither parked nor idle, to a broadcast that wakes it; no lock is in the way, so the hand-off of event handling cannot deadlock |
| `EventSafety.PayDebt` | Intelligence/Projet3/libusb/io.c:1769-1848 | From every state with a parked thread and a debtor that the events lock does not keep out, the debtor and the holders of the waiters lock in its way lead to a broadcast |
| `EventSafety.HandlerFlagIff` | Intelligence/Projet3/libusb/core.c:1315-1427 | The exact condition: in every reachable state a thread between setting and clearing event_handler_active holds the events lock, and the flag is 1 if and only if that thread has not finished a close in a callback since it set the flag |
| `EventSafety.CallbackCloseDropsFlag` | Intelligence/Projet3/libusb/core.c:1315-1427 | A run from the initial state that ends with the flag at 0 while the thread still holds the events lock and goes on handling events |
| `EventOrder.DeliveredInOrder` | Intelligence/Projet3/libusb/io.c:2135-2162 | Main result: over every run of the protocol, with callbacks that close devices in between, the hotplug messages delivered so far, the one in the hand of the handler and those still queued are together exactly the messages signalled so far, in order; and so are the transfers completed and those still waiting |
| `EventOrder.StepHands` | Intelligence/Projet3/libusb/io.c:2135-2162 | One move of any thread: what is delivered leaves at the front, what is signalled joins at the end, and nothing else happens to either queue |
| `EventOrder.MovesOfRun` | Intelligence/Projet3/libusb/io.c:2030-2212 | Every run of the protocol is made by such moves, so the order holds in every run |
| `HotplugDelivery.MovesAreSections` | Intelligence/Projet3/libusb/hotplug.c:206-228 | The announcements and the taking of a message in the model of device references are the sections under event_data_lock that queue and take messages, and no other move touches the queue |
| `HotplugDelivery.TakenInOrder` | Intelligence/Projet3/libusb/io.c:2136-2141 | In every run of monitor and handler the messages taken and those still queued are the messages announced, in order |
| `HotplugDelivery.QueuedDevicesLive` | Intelligence/Projet3/libusb/io.c:2135-2169 | The two histories meet: when the messages announced by the monitor are those signalled in a run of the event protocol, the handler delivers the messages the device model has taken, and every device named by a message still queued or in the hand of the handler is alive |
| `IntrusiveList.ListInit` | Intelligence/Projet3/libusb/libusbi.h:111-114 | A new head is an empty well-formed ring |
| `IntrusiveList.ListEmpty` | Intelligence/Projet3/libusb/libusbi.h:109 | The head points to itself exactly when the ring has no entries |
| `IntrusiveList.ListAdd` | Intelligence/Projet3/libusb/libusbi.h:116-123 | Insertion behind any station keeps a well-formed ring with the entry at that place |
| `IntrusiveList.ListAddTail` | Intelligence/Projet3/libusb/libusbi.h:125-133 | Insertion before any station keeps a well-formed ring with the entry at that place |
| `IntrusiveList.ListDel` | Intelligence/Projet3/libusb/libusbi.h:135-140 | Removal keeps a well-formed ring without the entry, whose own links are cleared |
| `Deadlines.CalculateTimeout` | Intelligence/Projet3/libusb/io.c:1195-1222 | The stored deadline is normalised and is start plus timeout truncated to microseconds; with a user timeout of 0 the old deadline stays, and so does it when the clock fails |
| `Deadlines.ToTimevalTruncates` | Intelligence/Projet3/libusb/libusbi.h:165-169 | The conversion from timespec truncates to microseconds |
| `Deadlines.LaterIsMore` | Intelligence/Projet3/libusb/io.c:1383-1388 | The comparison spelled out on seconds and microseconds is the order of the times |
| `Deadlines.MinusIsDifference` | Intelligence/Projet3/libusb/io.c:2533-2539 | The remaining time computed field by field is the difference of the times, normalised |
| `Deadlines.PollRoundsUp` | Intelligence/Projet3/libusb/io.c:2095-2099 | The poll timeout is the remaining time rounded up by less than a millisecond |
| `Deadlines.FullSleepExpires` | Intelligence/Projet3/libusb/io.c:2095-2106 | A poll that sleeps its full timeout slept the user's own timeout or finds the deadline expired by the test of the scan |
| `Timeouts.InsertKeepsSorted` | Intelligence/Projet3/libusb/io.c:1360-1399 | Insertion of the newest transfer keeps finite deadlines ascending, equal ones in submission order and unset ones last |
| `Timeouts.RemoveKeepsSorted` | Intelligence/Projet3/libusb/io.c:1430-1445 | Removal keeps that order |
| `Timeouts.ScanIsFull` | Intelligence/Projet3/libusb/io.c:1955-1995 | On a sorted list the early-stopping scan marks exactly the transfers a full scan would |
| `Timeouts.ScanLeavesNothingDue` | Intelligence/Projet3/libusb/io.c:1955-1995 | After a scan nothing is due at that time any more |
| `Timeouts.ScanMarks` | Intelligence/Projet3/libusb/io.c:1940-1993 | The scan flag by flag: a transfer is marked handled if it was due; a cancellation is asked for if it was also in flight and not being cancelled; and it is timed out if and only if that was granted, or it was before |
| `Timeouts.TimedOutIff` | Intelligence/Projet3/libusb/io.c:1665-1674 | A cancelled transfer is reported as timed out if and only if its own timeout was the first to ask for the cancellation while it was in flight, and was granted it, for every sequence of attempts and answers |
| `Timeouts.ArmingIsLeast` | Intelligence/Projet3/libusb/io.c:1321-1348 | The timer is set to the least finite deadline that is not marked handled, and disarmed exactly when there is none |
| `Timeouts.NextTimeoutIsLeast` | Intelligence/Projet3/libusb/io.c:2487-2542 | The next timeout is the least remaining time over all unhandled finite deadlines, floored at zero, and absent exactly when there is none |
| `Timeouts.ChangeKeepsInv` | Intelligence/Projet3/libusb/io.c:1321-1348 | Adding, removing, triggering and scanning keep the order and the arming of the timer |
| `Timeouts.FlyingRun` | Intelligence/Projet3/libusb/io.c:1401-1445 | Main result: after any sequence of these, whenever the list head has a finite deadline and is not handled, the timer is armed no later than that deadline, and the list is in expiry order |
| `Timeouts.ArmingCoversAll` | Intelligence/Projet3/libusb/io.c:1321-1348 | Right after arming, every unhandled finite deadline is covered, handled heads notwithstanding |
| `Timeouts.AddCoversIff` | Intelligence/Projet3/libusb/io.c:1401-1420 | The exact condition for an addition: every unhandled deadline stays covered if and only if the new transfer has no deadline, becomes the head, or finds the timer armed early enough |
| `Timeouts.RemoveKeepsCovers` | Intelligence/Projet3/libusb/io.c:1430-1445 | A removal uncovers nothing |
| `Timeouts.ScanKeepsCovers` | Intelligence/Projet3/libusb/io.c:1955-2025 | A trigger covers every unhandled deadline, covered before or not; a scan alone uncovers nothing |
| `Timeouts.AlwaysCoversIff` | Intelligence/Projet3/libusb/io.c:1321-1445 | Main result over runs: every unhandled deadline is covered all the time if and only if every addition is in time |
| `Timeouts.FirstOpenDeadlineUnarmed` | Intelligence/Projet3/libusb/io.c:1401-1420 | A run from the empty list, for any two deadlines in order: the first transfer is handled by a trigger, the second is added behind it and finds the timer disarmed |
| `FlyingList.Transfer.Cancel` | Intelligence/Projet3/libusb/io.c:1536-1569 | Flags and answer of a cancellation, for every answer of the back end |
| `FlyingList.Transfer.HandleTimeout` | Intelligence/Projet3/libusb/io.c:1940-1953 | The timeout is marked handled, and as timed out exactly if the transfer was in flight, not being cancelled, and the back end granted the cancellation |
| `FlyingList.Transfer.HandleCancellation` | Intelligence/Projet3/libusb/io.c:1665-1674 | A cancelled transfer is completed as timed out if it is marked so, and as cancelled otherwise |
| `FlyingList.AddIsChange` | Intelligence/Projet3/libusb/io.c:1360-1424 | What an addition promises about ring and timer is the step of that name in the runs of the list |
| `FlyingList.RemoveIsChange` | Intelligence/Projet3/libusb/io.c:1430-1445 | So is what a removal promises |
| `FlyingList.FlyingTransfers.constructor` | Intelligence/Projet3/libusb/io.c:1126-1130 | The list starts as an empty ring with the timer disarmed |
| `FlyingList.FlyingTransfers.SetTimer` | Intelligence/Projet3/libusb/io.c:1321-1348 | The timer changes exactly when the call succeeds |
| `FlyingList.FlyingTransfers.ArmForNextTimeout` | Intelligence/Projet3/libusb/io.c:1321-1348 | The timer is set to the first finite deadline not marked handled, or disarmed |
| `FlyingList.FlyingTransfers.InsertSorted` | Intelligence/Projet3/libusb/io.c:1383-1399 | The walk puts the transfer before the first one that expires later |
| `FlyingList.FlyingTransfers.Place` | Intelligence/Projet3/libusb/io.c:1370-1399 | Empty list, unset deadline and finite deadline all lead to the specified place |
| `FlyingList.FlyingTransfers.Add` | Intelligence/Projet3/libusb/io.c:1360-1424 | The ring, its order and the timer after an insertion; a failing timer leaves list and timer as they were |
| `FlyingList.FlyingTransfers.Remove` | Intelligence/Projet3/libusb/io.c:1430-1445 | The transfer always leaves the ring; the timer is set anew only when it was the head with a finite deadline |
| `FlyingList.FlyingTransfers.HandleTimeouts` | Intelligence/Projet3/libusb/io.c:1955-1995 | The clock is not read for an empty list; a clock that fails leaves every transfer as it is and its code is returned |
| `FlyingList.FlyingTransfers.ExpireDue` | Intelligence/Projet3/libusb/io.c:1974-1993 | Walking the ring marks exactly what the specified scan marks |
| `FlyingList.FlyingTransfers.HandleTrigger` | Intelligence/Projet3/libusb/io.c:2008-2025 | A timer trigger scans, then arms for the next deadline; when the clock fails the timer stays as it was; the answer tells which |
| `FlyingList.FlyingTransfers.GetNextTimeout` | Intelligence/Projet3/libusb/io.c:2487-2542 | The specified next timeout, and none when the timerfd is in use or the clock fails |
| `FlyingList.FlyingTransfers.FirstOpen` | Intelligence/Projet3/libusb/io.c:2505-2517 | Walking the ring finds the deadline of the first transfer nobody has handled |
| `Disconnect.FindVictim` | Intelligence/Projet3/libusb/io.c:2733-2746 | One pass marks the handle's own transfers up to the first one in flight and nothing else |
| `Disconnect.RoundKeepsSets` | Intelligence/Projet3/libusb/io.c:2730-2758 | One round: its victim was in flight or on its way and is not any more, every other transfer in flight stays so, and transfers of other handles are untouched |
| `Disconnect.RoundsKeepSets` | Intelligence/Projet3/libusb/io.c:2711-2760 | Over any number of rounds, with transfers entering, being noted in flight, withdrawing and being cancelled in between: nobody is completed twice, and who was in flight is completed or still in flight |
| `Disconnect.HandleDisconnect` | Intelligence/Projet3/libusb/io.c:2711-2760 | The sweep ends whatever callbacks and other threads do between the rounds, its rounds are rounds as specified, and its last pass finds nothing in flight |
| `Disconnect.SweepIsExact` | Intelligence/Projet3/libusb/io.c:2711-2760 | Main result: every transfer that was in flight for the handle is completed, exactly once; none is completed that was not in flight or on its way to it, and none twice; what is left of the handle is marked and not in flight; no round touches transfers of other handles |
| `Disconnect.MovesMatchFlags` | Intelligence/Projet3/libusb/io.c:1536-1569 | A cancellation and a mark of the sweep do to the flags of a listed transfer what the moves of that name do in its life, and the sweep takes only what is in flight |
| `Lifecycle.StepKeepsInv` | Intelligence/Projet3/libusb/io.c:1459-1520 | Every move of submit, completion, cancel and sweep keeps the books: until some submission is both marked by the sweep and overtaken nothing is amiss, and a submit that ends although its completion has begun leaves one delisting too many |
| `Lifecycle.LifeCorrectHere` | Intelligence/Projet3/libusb/io.c:1616-1657 | Main result for the back ends there are, over any interleaving with resubmission and without any proviso: listed at most once, every delisting and unreferencing is due, a failed submission gets no callback and none gets two, and a quiet transfer is off the list, holds no reference and has reported every success. It needs that completions wait for the lock that submit holds, as in the Linux back end, or that the device is never reported as gone, as in the others |
| `Lifecycle.NobodyOvertaken` | Intelligence/Projet3/libusb/os/linux_usbfs.c:2208-2217 | When completions begin with the transfer's lock in hand, no submission of any run is overtaken by its own completion |
| `Lifecycle.NobodyMarked` | Intelligence/Projet3/libusb/libusbi.h:1016-1017 | A back end that never reports a device as gone leaves no submission marked |
| `Lifecycle.LifeCorrect` | Intelligence/Projet3/libusb/io.c:1616-1657 | The same for every back end that the interface allows, in all runs in which no submission is both marked by the sweep and overtaken by its completion |
| `Lifecycle.BrokenIffClash` | Intelligence/Projet3/libusb/libusbi.h:1016-1021 | That proviso is exact: in every run a delisting or unreferencing that was not due needs a submission that was marked during its submit and overtaken by its completion, and such a submission has led to one by the time the transfer is quiet |
| `Lifecycle.EveryLifeSettles` | Intelligence/Projet3/libusb/io.c:1459-1520 | From every state some continuation makes the transfer quiet, where the condition is exact in both directions |
| `Lifecycle.DelistedTwice` | Intelligence/Projet3/libusb/libusbi.h:1016-1021 | With a back end that both reports devices as gone and completes without the transfer's lock, which the interface allows and no back end does: a run from a fresh transfer in which the submit takes it off the list although the completion has done so |
| `Lifecycle.UnreferencedTwice` | Intelligence/Projet3/libusb/libusbi.h:1016-1021 | With such a back end: a run from a fresh transfer in which the submit drops the device reference although the completion has done so |
| `Lifecycle.SyncFreesSafelyHere` | Intelligence/Projet3/libusb/sync.c:37-61 | When a synchronous call frees its transfer, the transfer is off the list and nobody will touch it again but the dropped reference, with the back ends there are |
| `Lifecycle.SyncFreesSafely` | Intelligence/Projet3/libusb/sync.c:37-61 | The same for every back end that the interface allows, if no submission was both marked and overtaken |
| `Lifecycle.CallbacksSeeReports` | Intelligence/Projet3/libusb/io.c:1616-1657 | Over any number of submissions, what a callback finds in the transfer is what the completion of its own submission reported |
| `Sync.WaitForCompletion` | Intelligence/Projet3/libusb/sync.c:45-61 | The wait ends before the first turn that finds the flag set and not earlier; each failing turn costs one cancellation, an interruption none |
| `Sync.SubmitAndWait` | Intelligence/Projet3/libusb/sync.c:174-180 | The call is over exactly when the submission was refused or the callback has run; then the transfer may be freed, and while the call waits the transfer holds its device |
| `Sync.SyncCode` | Intelligence/Projet3/libusb/sync.c:184-207 | The answer of a synchronous call for each status of its transfer: a timeout, a stall, an overflow and a removal have codes of their own, a failed or cancelled transfer is an input/output error, and a status nobody knows another one |
| `Sync.BulkTransfer` | Intelligence/Projet3/libusb/sync.c:159-211 | The answer and the actual length are those the callback found in the transfer, for every status, known or not, and only once the callback has run |
| `Sync.ControlTransfer` | Intelligence/Projet3/libusb/sync.c:91-157 | Setup and outgoing data are what is submitted; the bytes the callback found replace the front of the caller's buffer and nothing else, on an incoming transfer and only once the callback has run; and the answer is their number or the error |
| `Sync.SyncCallSeesItsReport` | Intelligence/Projet3/libusb/sync.c:37-61 | The whole call is one life of the transfer, and what the call returns is what was reported, by the back end or the disconnect sweep, as the end of the one submission it made |
| `Lifecycle.MarkedSubmissionDelists` | Intelligence/Projet3/libusb/io.c:1496-1517 | A submission that the sweep marked, and that was not overtaken, delists its transfer, drops the reference and fails |
| `Descriptors.ParseDescriptor` | Intelligence/Projet3/libusb/descriptor.c:45-93 | The table-driven reader yields the fields of the format and the number of bytes it spans |
| `Descriptors.SkipClassDescriptors` | Intelligence/Projet3/libusb/descriptor.c:144-167 | How the skipping of class descriptors ends and how many bytes it takes |
| `Descriptors.ReadEndpointHeader` | Intelligence/Projet3/libusb/descriptor.c:128-135 | The long and the short form of an endpoint descriptor, field by field and with the packet size in either byte order |
| `Descriptors.ReadEndpoint` | Intelligence/Projet3/libusb/descriptor.c:101-189 | Errors, nothing parsed (exactly when something else or a truncated descriptor is next), or the endpoint with its extra bytes, for every byte string |
| `Descriptors.ReadEndpoints` | Intelligence/Projet3/libusb/descriptor.c:335-348 | As many endpoints as announced, fewer if something else comes first |
| `Descriptors.ReadAlt` | Intelligence/Projet3/libusb/descriptor.c:245-349 | One alternate setting, cut short where the code returns early; none exactly when something else or a truncated descriptor is next; too short a descriptor or more than 32 endpoints are refused |
| `Descriptors.ReadInterface` | Intelligence/Projet3/libusb/descriptor.c:216-363 | All alternate settings of the same interface number |
| `Descriptors.ReadInterfaces` | Intelligence/Projet3/libusb/descriptor.c:427-490 | The interfaces of a configuration with the skipping before each |
| `Descriptors.ReadConfig` | Intelligence/Projet3/libusb/descriptor.c:378-497 | The whole parser equals its specification on every byte string, with the low byte first unless the data is in the order of the host; a header that is not that of a whole configuration of at most 32 interfaces is refused; being a total method, it terminates and never looks past the given size |
| `DescriptorRoundTrip.FieldsOfPack` | Intelligence/Projet3/libusb/descriptor.c:45-93 | Every list of fields that fits a format is read back from its serialisation, in both byte orders |
| `DescriptorRoundTrip.FormatMeans` | Intelligence/Projet3/libusb/descriptor.c:53-89 | What the format characters stand for: how many bytes each takes, and the number that a byte, a word or a double word is, in both byte orders |
| `DescriptorRoundTrip.EndpointTrip` | Intelligence/Projet3/libusb/descriptor.c:101-189 | An endpoint with its class descriptors is read back, whatever boundary follows |
| `DescriptorRoundTrip.EndpointsTrip` | Intelligence/Projet3/libusb/descriptor.c:335-348 | A list of endpoints is read back |
| `DescriptorRoundTrip.AltTrip` | Intelligence/Projet3/libusb/descriptor.c:245-349 | An alternate setting is read back |
| `DescriptorRoundTrip.AltsTrip` | Intelligence/Projet3/libusb/descriptor.c:216-363 | The alternate settings of one interface are read back and end where another interface starts |
| `DescriptorRoundTrip.InterfacesTrip` | Intelligence/Projet3/libusb/descriptor.c:427-490 | A list of interfaces with different neighbours is read back |
| `DescriptorRoundTrip.ConfigRoundTrip` | Intelligence/Projet3/libusb/descriptor.c:378-497 | Main result: every well-formed configuration, serialised as in sections 9.6.3, 9.6.5 and 9.6.6 of the USB 2.0 specification, is parsed back to itself with nothing left over |
| `DescriptorRoundTrip.ReadLaidOut` | Intelligence/Projet3/libusb/descriptor.c:378-497 | The same for the operation itself on every host: without host_endian what is laid out low byte first is read back, and with it what is laid out the way the host does |
| `DescriptorAccounting.SkipTakesRun` | Intelligence/Projet3/libusb/descriptor.c:144-167 | What is skipped is a run of whole descriptors of no standard type |
| `DescriptorAccounting.SkipSettles` | Intelligence/Projet3/libusb/descriptor.c:144-167 | Behind what was skipped nothing more can be skipped, and the skipping is called short exactly when a truncated descriptor follows |
| `DescriptorAccounting.MalformedIff` | Intelligence/Projet3/libusb/descriptor.c:146-152 | Skipping fails exactly when, behind some whole class descriptors, the next one is shorter than its own header |
| `DescriptorAccounting.EndpointFailsIff` | Intelligence/Projet3/libusb/descriptor.c:109-152 | The exact condition for an endpoint to be refused |
| `DescriptorAccounting.EndpointsFailIff` | Intelligence/Projet3/libusb/descriptor.c:335-348 | The endpoints of a setting are refused exactly when one of those announced is, all before it having been read |
| `DescriptorAccounting.AltFailsIff` | Intelligence/Projet3/libusb/descriptor.c:245-348 | The exact condition for an alternate setting to be refused |
| `DescriptorAccounting.InterfaceSettles` | Intelligence/Projet3/libusb/descriptor.c:466-478 | Behind an interface nothing is left to skip, so class descriptors of a configuration are only ever taken before the first interface |
| `DescriptorAccounting.ConfigAccount` | Intelligence/Projet3/libusb/descriptor.c:378-497 | Main result on arbitrary bytes: the input is the header, a run of class descriptors, the spans of the interfaces, their settings and their endpoints one after the other, and the leftover; every setting and endpoint of the tree has the fields and the class descriptors of its own span; and the settings of an interface share its number |
| `DescriptorAccounting.AltsSpelled` | Intelligence/Projet3/libusb/descriptor.c:216-363 | The same for the bytes one interface is read from, setting by setting, all with the number of the first |
| `DescriptorAccounting.EndpointExtraIff` | Intelligence/Projet3/libusb/descriptor.c:143-186 | An endpoint's class descriptors are always consumed, and saved exactly when no truncated one follows or there are none |
| `DescriptorAccounting.AltExtraIff` | Intelligence/Projet3/libusb/descriptor.c:276-319 | The same for an alternate setting, which also loses all of its endpoints exactly when a truncated descriptor follows its class descriptors |
| `DescriptorAccounting.EndpointCountIff` | Intelligence/Projet3/libusb/descriptor.c:284-349 | bNumEndpoints is the number of endpoints present exactly when no truncated class descriptor cut the setting short and the endpoints were all there, or none was announced |
| `Hotplug.UnrefCounts` | Intelligence/Projet3/libusb/core.c:1132-1158 | Dropping a reference to a live device takes exactly one off its counter and no other, and destroys it at zero |
| `Hotplug.StepKeepsInv` | Intelligence/Projet3/libusb/core.c:687-724 | Every step of monitor, event handler and application keeps counter = holders for every device, and every announced arrival covered |
| `Hotplug.CoveredIsAlive` | Intelligence/Projet3/libusb/core.c:687-724 | An arrival is covered by the list, by the monitor, or by a later "left" message; what is covered is alive |
| `Hotplug.MessagesNameLiveDevices` | Intelligence/Projet3/libusb/io.c:2135-2169 | Main result: in every run every device named by a queued message or by the one at hand is alive although arrivals hold no reference, and no reference is dropped on a dead device |
| `Hotplug.NoReferenceLost` | Intelligence/Projet3/libusb/core.c:687-724 | When the queue is drained the live devices are exactly those listed, those the application holds, and those whose departure was announced before the message list was ready at some time of the run |
| `Hotplug.LostForEver` | Intelligence/Projet3/libusb/core.c:705-724 | Over any run the references held by nobody are exactly the departures announced before the message list was ready, and a device that has one is alive in every later state, whatever happens |
| `Hotplug.DepartureBeforeReady` | Intelligence/Projet3/libusb/core.c:705-724 | A run in which a device comes and goes before the list is ready and ends neither listed nor used nor destroyed |
| `HotplugCallbacks.CallbackList.Register` | Intelligence/Projet3/libusb/hotplug.c:230-306 | Without hotplug support or with insane filters nothing changes; otherwise a new callback with the next handle is put at the head, told about the devices that are there already if the flags ask for them, and marked again if these cannot be listed; without other threads, which HotplugRegister adds |
| `HotplugCallbacks.CallbackList.Enumerate` | Intelligence/Projet3/libusb/hotplug.c:291-296 | Examining the new callback for each device calls its function for the specified devices, also when the function deregisters its own callback |
| `HotplugCallbacks.ToldIff` | Intelligence/Projet3/libusb/hotplug.c:150-180 | A device that is there already is told about exactly when it matches and no device told about before made the function deregister itself |
| `HotplugCallbacks.CallsAscend` | Intelligence/Projet3/libusb/hotplug.c:291-296 | Devices that are there already are told about in order, each at most once |
| `HotplugCallbacks.CallbackList.Deregister` | Intelligence/Projet3/libusb/hotplug.c:308-331 | Every callback with the handle is marked, all others stay as they were, in place, and nothing else changes |
| `HotplugCallbacks.CallbackList.Examine` | Intelligence/Projet3/libusb/hotplug.c:150-180 | A function is called exactly when its callback is not marked, the message is about an event it asked for, and vendor, product and class are any or those of the device; a message without a device matches none and is never looked into |
| `HotplugCallbacks.StepKeepsInv` | Intelligence/Projet3/libusb/hotplug.c:182-204 | Every step of the walk, and every registration and deregistration in between, keeps both pointers of the walk on the list and the rest of the list what is left to visit |
| `HotplugCallbacks.CallbacksAreSafe` | Intelligence/Projet3/libusb/hotplug.c:150-204 | Main result, for all interleavings: the walk never follows a freed node, a callback is never called after its deregistration, nodes are freed only if deregistered or by their own request, and the list has exactly the registered callbacks that were not freed, newest first |
| `HotplugCallbacks.WalkIsComplete` | Intelligence/Projet3/libusb/hotplug.c:182-204 | When a walk ends it has visited each callback that was there when it began once, in order, has called those whose filter matches unless they were deregistered, and has freed those deregistered before it began and those that ever asked for it |
| `HotplugRegister.ActKeepsInv` | Intelligence/Projet3/libusb/hotplug.c:262-303 | Every step of any number of registrations going through the devices that are there already, of the walk, and of other registrations and deregistrations in between keeps the invariants of the walk and of each registration |
| `HotplugRegister.CallbacksStaySafe` | Intelligence/Projet3/libusb/hotplug.c:150-204 | With registrations under way the walk still follows no freed node, no function is called, by walk or registration, after its callback was deregistered, and nothing is freed without a reason |
| `HotplugRegister.RegistrationIsSafeIff` | Intelligence/Projet3/libusb/hotplug.c:280-303 | The exact condition: a registration that has returned looked at a freed node if and only if a walk freed its callback while it was under way; otherwise its function was told about every device that matches, unless it was deregistered |
| `HotplugRegister.UntouchedRegistrationIsSafe` | Intelligence/Projet3/libusb/hotplug.c:280-303 | Nothing goes wrong for a callback that nobody deregisters and whose function does not ask to be removed |
| `HotplugRegister.FreedWhileRegistering` | Intelligence/Projet3/libusb/hotplug.c:280-303 | A run from the empty list: the function of a callback that is being registered deregisters it, the thread that handles events frees it, and the registration ends by looking at the freed node |

## Left out

- Kernel calls (ioctl, poll, timerfd, udev, netlink) and the clock: parameters or free steps of the environment.
- The other back ends (Darwin, Haiku, NetBSD, OpenBSD, Windows) and the poll and thread wrappers.
- Sync.SubmitAndWait: the wait is followed as far as the given rounds go, and what stream and endpoint the transfer is filled in with is left out.
- Control transfers, transfer type dispatch and stream ids: one URB, no splitting.
- Freeing a transfer on completion, and the rewriting of a short completed transfer to an error: bookkeeping after the flags are settled.
- Allocation failure: every allocation succeeds.
- `libusb_exit`, and closing a handle with transfers in flight: documented misuse, where `do_close` delists without dropping the reference.
- The sysfs descriptor walk (`seek_to_next_descriptor`) and the single-descriptor accessors: they only add easy members.
- The alignment of destination fields in `usbi_parse_descriptor`: the fields are a sequence.
- FlyingList.FlyingTransfers.HandleTimeouts: the lock order between flags_lock and the list lock is not modelled, and the flags of one transfer change in one step.
- Pointer arithmetic of list_entry: `FlyingList` finds the transfer of a link in a map.
- Disconnect.HandleDisconnect: works on the list as a value, so that aliasing is not captured; other threads take turns with whole passes of the inner loop, which holds the list lock.
- EventSafety.ParkedCanBeWoken: a continuation that wakes the thread always exists; that the scheduler takes one (fairness) is not part of the model.
- The pipe never fills up: a signal always adds its byte.
- Hotplug.MessagesNameLiveDevices: the references a device holds on its parent count as references of the application.
- HotplugCallbacks.CallbackList.Register: runs alone, only its own function deregisters the new callback, and no walk is under way; HotplugRegister has the steps of other threads, but not what a freed node reads as.
- HotplugCallbacks.CallbacksAreSafe: looking at a node and starting its function are one step, so a deregistration that falls between the two counts as earlier than the call or later than the look.
- IsoUrbs.SetIsoPacketLengths: the lengths are an array of their own, not a field of each descriptor.
- Logging, error names, version and capability queries, and the Arduino and Android programs: bounded tables, clamps and I/O.
