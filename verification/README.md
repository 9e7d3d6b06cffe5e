# Verified model of the embedded-Linux toolbox

This project models the parts of the repository whose correctness is decided by their own code, and proves what they
promise, for every input, every run and every interleaving they meet:

* `Evb2*.dfy`, `Qent.dfy`: the evb2 event loop. Handles live on a descriptor list, a sorted timer list, a ready list and
  an asynchronous list. Callbacks may re-enter every entry point, and other threads may submit one-shot timers before any
  lock is taken. `Evb2Spec`, `Evb2Ops` and `Evb2Turns` hold the state machine, its invariant and what each operation
  keeps; `Evb2` is the imperative loop, each method tied to its specification function; `Evb2Calls` says what each call
  gives its caller; `Evb2Runs` covers whole runs; `Qent` is the singly linked list underneath, over pointers.
* `Strcmp.dfy`, `Rb*.dfy`: the red-black tree macros, as the keyval store instantiates them, over a memory of node cells.
* `Wifi*.dfy`: the Wi-Fi manager with failsafe provisioning, its two credential files, the temporary file both are written
  through, and its configuration parser.
* `Options.dfy`, `Bytes.dfy`, `Crc.dfy`, `Settings*.dfy`: shared types, CRC-32, and the stored-settings codec with its tree index.
* `Ipc*.dfy`: framing of the inter-processor byte stream, the locked sender and the receiver.
* `Flash*.dfy`: the CC1352 flasher against the ROM loader.
* `Att*.dfy`: the Bluetooth ATT server (Bluetooth Core Specification, Vol 3, Part F), with discovering and reading clients.
* `Buffers.dfy`, `Bt601.dfy`, `Rg10*.dfy`, `Demosaic*.dfy`: the image converters, fast forms against simple ones, and both
  against the colours of ITU-R BT.601.
* `AnnexB.dfy`: the splitter of H.264 byte streams (ITU-T H.264, Annex B).

`dafny verify dfyconfig.toml` checks everything. Methods are written the way the source is, with loops and updates in
place, and state their effect by specification functions on values; lemmas then prove what those functions mean, in
terms that do not come from them: bytes at their places, a reader of its own, a history, a published check value.

## Where the code does not do what it says

Each of these is the code's behaviour, kept as it is; the members named say when it happens.

* A pure timer whose deadline saturates at `UINT64_MAX` is put on no list. Destroying the context neither tells nor frees
  it; nothing else is ever left behind (`Evb2Turns.TeardownLeavesOrphans`, `Evb2Runs.WholeRun`).
* `aloe_evb2_cancel_fd` does not cancel the handle whose own callback calls it (`Evb2.Loop.CancelFd`).
* A handle that sets its own timeout from the CANCELLED callback it gets while asynchronous timers are installed is freed
  but stays on the timer list, exactly when the call is accepted and the new deadline is finite
  (`Evb2Runs.RetimingACancelledHandle`). The header calls the handle invalid by then.
* A callback that retimes a handle which is already ready does not take back the TIMEOUT it is queued with
  (`Evb2Calls.RetimeGives`).
* Nothing locks the Wi-Fi credential files, and both provisioning calls write through one temporary file, which they rename
  while it is still empty and fill with fclose. What the design promises of the official credentials is that they are the
  first ones, or given to (or cleared by) `app_wifi_provision`, or given to the failsafe call and what wpa_supplicant ran
  with when an address was seen. Over any run of single accesses, this holds at every moment at which no call has the
  official file open, if and only if no access spoils the file and leaves there what has no such justification
  (`WifiSafety.StaysJustified`, `WifiSafety.OfficialIsJustified`). Two accesses spoil it. One is the rename of IPSETUP, when
  wpa_supplicant does not run with the try file or no single call has written it: it happens when a turn falls between the
  two halves of a failsafe call, and when a whole call falls into a turn (`WifiSafety.UntriedWasReplaced`,
  `WifiRuns.RaceCommitsUntried`). The other is the last fclose on the official file, when it is a failsafe call's, or not
  the first one there, or does not get all of the text out: two calls that overlap leave the failsafe text in the official
  file without any turn of IPSETUP (`WifiRuns.OverlapMixes`). `WifiSafety.KeptAwayIsJustified` is the condition a caller can
  keep: calls that write come one after the other and get all of their text out, and no commit falls between a failsafe call
  and the next start with its file.
* When removing the try file of a failed try fails, the same credentials are tried again (`WifiRuns.FailedUnlinkTriesAgain`).
  `app_wifi_provision` removes the try file even when it then fails to write the new one (`Wifi.Manager.Provisions`).
* Settings come back exactly if and only if every key has at most 255 bytes, every value at most 65535 and the payload is
  below 4 GiB (`SettingsCodec.RoundTripExactly`). The value returned is the size only below 2 GiB: it is negative from there
  to 4 GiB, and small for the few sizes that reach 4 GiB (`SettingsCodec.ReturnsSize`). A load that fails has already
  inserted records (`SettingsCodec.CorruptionIsDetected`).
* An IPC stream is delivered exactly if and only if every payload fits the receiver's buffer (`IpcSpec.DeliveredExactly`); one
  that does not is dropped, and the receiver only then looks for the leading bytes again (`IpcSpec.OversizeIsDropped`).
* A write that fails inside a frame leaves the frame torn and releases the lock. The messages before it still arrive in lock
  order (`Ipc.ReceivedInLockOrder`), but the receiver completes the torn one with the start of the next frame
  (`Ipc.TornFrameMisleads`, `Ipc.TornHeaderMisleads`, `Ipc.TornRun`).
* `ble_notify` stores the new value even if sending it fails (`Att.Ble.Notify`).
* The fused demosaicing loop never narrows its channels to a byte, so its luma differs from the reference as soon as one
  sample is 1022 or more (`DemosaicSpec.FusedAgrees`). Repeating the frame's edge mixes colours, in exactly the channels that
  lose a neighbour (`DemosaicSpec.ColourShinesThrough`).
* A three-byte start code swallows a zero at the end of the unit before it (`AnnexB.SplitUndoesStream`).

## Model

| member | source | states |
|---|---|---|
| Evb2Spec.ClassesExclude | package/aloe/sys_linux/evb2.c:73-102 | a live handle is in exactly one class: waiting on the asynchronous list, armed, ready, notifying or being told it is cancelled; armed means on the descriptor list iff its descriptor is not negative and on the timer list iff its deadline is finite |
| Evb2Spec.LinkUsedOnce | package/aloe/sys_linux/evb2.c:73-85 | the link shared by the descriptor, ready and asynchronous lists is on at most one of them, and every listed handle is allocated |
| Evb2Spec.SortedAfterInsert | package/aloe/sys_linux/evb2.c:164-174 | inserting a timer keeps the list sorted by deadline, equal deadlines in order of queueing |
| Evb2Spec.StepTransitive | package/aloe/sys_linux/evb2.c:485-658 | what re-entrant callbacks and other threads may do to every handle composes over any number of calls |
| Evb2Spec.WantedElsewhere | package/aloe/sys_linux/evb2.c:249-267 | a change to one handle leaves the OR of requested flags of every other descriptor as it is |
| Evb2Ops.LogsWhatItHandsOut | package/aloe/sys_linux/evb2.c:485-564 | a call records a handle in the history exactly when it returns one |
| Evb2Ops.AddFdStep | package/aloe/sys_linux/evb2.c:485-533 | registration keeps the invariant (classes, sorted timers, epoll agreement, unbroken histories) and disturbs no other handle |
| Evb2Ops.AddOneshotTimerStep | package/aloe/sys_linux/evb2.c:538-564 | so does a submission from another thread |
| Evb2Ops.CancelStep | package/aloe/sys_linux/evb2.c:567-598 | so does cancelling in any state of the handle |
| Evb2Ops.SetTimeoutStep | package/aloe/sys_linux/evb2.c:629-658 | so does changing a timeout in any state of the handle |
| Evb2Ops.RefreshAgrees | package/aloe/sys_linux/evb2.c:249-300 | after a refresh the interest registered for the descriptor is the OR of what its listed handles ask for, absent when there are none, unless the kernel refused |
| Evb2Calls.AddGives | package/aloe/sys_linux/evb2.c:485-533 | a registration is accepted iff the context runs on, there is a callback, the arguments ask for something and epoll agrees; then exactly the new handle is added, waits for what was asked, and its deadline is the clock plus the timeout, or the end of time if that is infinite or too far; refused, it changes nothing |
| Evb2Calls.SubmitGives | package/aloe/sys_linux/evb2.c:538-564 | likewise for a timer submitted from any thread, which waits on the asynchronous list |
| Evb2Calls.RetimeGives | package/aloe/sys_linux/evb2.c:629-658 | a timeout is set iff the handle is the user's, not on its way out, and keeps something to wait for; then only its timeout and deadline change, and it is on the timer list iff it waits there with a finite deadline |
| Evb2Calls.CancelGives | package/aloe/sys_linux/evb2.c:567-598 | cancelling from the own callback asks for the free that follows, on a list frees exactly that handle, and is refused for internal handles and handles on no list |
| Evb2Calls.RearmGives | package/aloe/sys_linux/evb2.c:746-757 | a persistent handle waits again for what it was registered for, due its timeout, or a millisecond if it has none, after the clock of the re-arm |
| Evb2Turns.EndWithRearmKeeps | package/aloe/sys_linux/evb2.c:746-757 | re-arming a persistent handle after its callback restores the whole invariant |
| Evb2Turns.InstallStep | package/aloe/sys_linux/evb2.c:312-333 | a submitted timer with a finite deadline becomes an armed one and nothing else changes |
| Evb2Turns.CancelCycle | package/aloe/sys_linux/evb2.c:403-406 | around whatever the CANCELLED callback does, the handle ends told once and freed once and the invariant holds |
| Evb2Turns.ScannedMore | package/aloe/sys_linux/evb2.c:706-727 | one epoll event moves exactly the listed handles on its descriptor that it concerns, with the flags the event raises |
| Evb2Turns.NothingDueLeft | package/aloe/sys_linux/evb2.c:729-734 | once the head of the timer list is not due, nothing on it is |
| Evb2Turns.ExpireDone | package/aloe/sys_linux/evb2.c:729-734 | expiry queues exactly the armed handles whose deadline has passed, with TIMEOUT |
| Evb2Turns.TurnKeepsPass | package/aloe/sys_linux/evb2.c:736-757 | through any callback, each ready handle is dispatched at most once with the flags it was queued with, a one-shot handle is freed, a persistent one kept unless cancelled or the loop stops, and nothing is added to the ready list |
| Evb2Turns.TeardownLeavesOrphans | package/aloe/sys_linux/evb2.c:408-451 | after teardown every handle that was on a list is freed, after exactly one CANCELLED callback or by a cancel in one; what is left was on no list, which means a pure timer with a saturated deadline |
| Evb2Sweep.SweepDone | package/aloe/sys_linux/evb2.c:601-627 | the three walks free exactly the listed handles on the descriptor and count them |
| Evb2.Loop.EpollRefresh | package/aloe/sys_linux/evb2.c:249-300 | the walk and the epoll_ctl calls with their retries are the specified refresh |
| Evb2.Loop.TimerInsert | package/aloe/sys_linux/evb2.c:164-174 | the pointer walk is the sorted insertion |
| Evb2.Loop.AddFd | package/aloe/sys_linux/evb2.c:485-526 | the method, with its failure path, is the specified transition and keeps the invariant |
| Evb2.Loop.AddOneshotTimer | package/aloe/sys_linux/evb2.c:538-564 | likewise |
| Evb2.Loop.Cancel | package/aloe/sys_linux/evb2.c:567-598 | likewise, with the return value |
| Evb2.Loop.CancelFd | package/aloe/sys_linux/evb2.c:601-627 | refuses pseudo and internal descriptors; otherwise frees exactly the listed handles on the descriptor and returns their number |
| Evb2.Loop.SetTimeout | package/aloe/sys_linux/evb2.c:629-658 | the method is the specified transition and keeps the invariant |
| Evb2.Loop.UserCallback | package/aloe/include/aloe/evb2.h:82-86 | any finite sequence of calls with any arguments keeps the invariant and adds nothing to the ready list |
| Evb2.Loop.NotifyCancel | package/aloe/sys_linux/evb2.c:403-406 | the handle is told once and freed, around any callback |
| Evb2.Loop.InstallOne | package/aloe/sys_linux/evb2.c:315-332 | the head of the asynchronous list is installed if the loop runs on and its deadline is finite, else told and freed; the work left shrinks |
| Evb2.Loop.InstallAsync | package/aloe/sys_linux/evb2.c:312-333 | leaves the asynchronous list empty and the invariant intact |
| Evb2.Loop.ScanEvents | package/aloe/sys_linux/evb2.c:701-727 | every handle ends as the events, in order, leave it |
| Evb2.Loop.ExpireTimers | package/aloe/sys_linux/evb2.c:729-734 | every handle ends as expiry leaves it; no due handle stays on the timer list |
| Evb2.Loop.DispatchOne | package/aloe/sys_linux/evb2.c:736-757 | one turn: after the callback the handle is freed or re-armed by exactly the stated rule, and the ready list is shorter |
| Evb2.Loop.DispatchReady | package/aloe/sys_linux/evb2.c:736-757 | the loop ends; each handle is dispatched at most once; the count is that of user handles |
| Evb2.Loop.Finalize | package/aloe/sys_linux/evb2.c:408-451 | ends with all lists empty, whatever callbacks and other threads do meanwhile |
| Evb2.Loop.WaitMs | package/aloe/sys_linux/evb2.c:677-690 | the sleep is the smallest of the first deadline, the user's timeout and INT_MAX; endless only without either |
| Evb2.Loop.RunOnce | package/aloe/sys_linux/evb2.c:661-760 | refused while stopping or re-entered; otherwise a pass over the given events, or a failure of epoll_wait, with its return value, and deferred destruction when a callback asked for it |
| Evb2.Loop.Destroy | package/aloe/sys_linux/evb2.c:468-482 | from inside a run only marks the loop; otherwise tears it down |
| Evb2Runs.LifeCounts | package/aloe/sys_linux/evb2.c:403-451 | in any history that satisfies the invariant a handle is added, told and freed at most once each |
| Evb2Runs.LastEvents | package/aloe/include/aloe/evb2.h:28-31 | no event of a handle follows its free, and only its free follows its CANCELLED callback |
| Evb2Runs.PassDispatches | package/aloe/sys_linux/evb2.c:699-757 | a pass dispatches a handle at most once, exactly when an event or its deadline concerned it, in this pass with the flags collected then, unless a callback cancels it first; then frees it if one-shot |
| Evb2Runs.TimeoutOnlyWhenDue | package/aloe/sys_linux/evb2.c:716-733 | TIMEOUT is reported iff the deadline has passed; CANCELLED never by a pass |
| Evb2Runs.NoTimeoutEarly | package/aloe/sys_linux/evb2.c:176-183 | over any pass, TIMEOUT is dispatched only to a handle for which, at the start of the pass, at least its timeout has passed since it was last added, retimed or re-armed |
| Evb2Runs.NoTimeoutMissed | package/aloe/sys_linux/evb2.c:729-757 | a handle on the timer list for which its timeout, and at least a millisecond, has passed is dispatched with TIMEOUT in this pass, unless a callback cancels it first |
| Evb2Runs.ReturnsServed | package/aloe/sys_linux/evb2.c:736-759 | the number a pass returns is that of the user's handles whose callbacks it called, each counted once |
| Evb2Runs.InterestIsAsked | package/aloe/sys_linux/evb2.c:229-246 | the epoll bits registered for flags, bit by bit |
| Evb2Runs.TellsExactly | package/aloe/sys_linux/evb2.c:229-246 | the flags an epoll event says, flag by flag: a hangup can be read and is an exception as well |
| Evb2Runs.RaisedMeans | package/aloe/sys_linux/evb2.c:706-727 | a callback is told exactly what it asked for and epoll says, its timeout if due, and of an error or hangup the exception if it asked for nothing that epoll says |
| Evb2Runs.FirstHitIsFirst | package/aloe/sys_linux/evb2.c:701-727 | the first event that concerns a handle decides what it is told |
| Evb2Runs.RetimingACancelledHandle | package/aloe/sys_linux/evb2.c:629-658 | when a freed handle stays on the timer list: iff the call is accepted and the deadline finite |
| Evb2Runs.Create | package/aloe/sys_linux/evb2.c:363-401 | the context starts within the invariant, or everything is undone |
| Evb2Runs.SettledAtTheEnd | package/aloe/sys_linux/evb2.c:736-759 | with the lists empty, a handle is freed or a saturated pure timer |
| Evb2Runs.WholeRun | package/aloe/sys_linux/evb2.c:363-760 | over any run from create to destroy, every handle handed out at any moment is freed in the end, saturated pure timers apart |
| Qent.InsertTail | package/aloe/sys_linux/evb2.c:124-131 | over pointers: the list ends in the new cell |
| Qent.Remove | package/aloe/sys_linux/evb2.c:133-145 | the list without the cell, or untouched if the cell is elsewhere |
| Qent.Contains | package/aloe/sys_linux/evb2.c:147-152 | membership |
| Qent.Pop | package/aloe/sys_linux/evb2.c:154-162 | head and rest, or null |
| Qent.Move | package/aloe/sys_linux/evb2.c:213-217 | a cell removed from one list before it joins another leaves both lists right |
| Qent.InsertWhileLinked | package/aloe/sys_linux/evb2.c:124-131 | without the removal the other list loses everything behind the cell: why one class at a time matters |
| Strcmp.CmpAntisymmetric | package/tester1/settings.cpp:23-25 | swapping the keys negates the sign of the comparison, which is zero only for equal keys |
| Strcmp.LessTransitive | package/tester1/settings.cpp:23-25 | the comparison is transitive |
| Strcmp.CmpIsFirstDifference | package/tester1/settings.cpp:23-25 | the first byte in which two keys differ, or the end of the shorter one, decides the comparison, bytes being unsigned |
| RbSpec.RotationIsRotated | package/aloe/include/aloe/compat/openbsd/sys/tree.h:337-376 | the pointer stores of a rotation turn memory that represents a tree into memory that represents the rotated tree, all else unchanged |
| RbSpec.RotatedInorder | package/aloe/include/aloe/compat/openbsd/sys/tree.h:337-376 | a rotation keeps the order of nodes |
| RbBalance.HeightBound | package/aloe/include/aloe/compat/openbsd/sys/tree.h:48-56 | a balanced tree of n nodes is at most 2 lg (n + 1) high |
| RbInsert.UncleRed | package/aloe/include/aloe/compat/openbsd/sys/tree.h:403-444 | recolouring moves the red-red pair up two levels and keeps black height and order |
| RbInsert.Inner | package/aloe/include/aloe/compat/openbsd/sys/tree.h:403-444 | rotating an inner grandchild outwards keeps everything else |
| RbInsert.Outer | package/aloe/include/aloe/compat/openbsd/sys/tree.h:403-444 | the last rotation leaves no red-red pair and equal black heights |
| RbSearch.SearchEnds | package/aloe/include/aloe/compat/openbsd/sys/tree.h:591-634 | a search that ends at a leaf has excluded every key |
| RbSearch.AttachedInOrder | package/aloe/include/aloe/compat/openbsd/sys/tree.h:591-618 | putting the node where the search ended is inserting it in key order |
| RbSearch.InsertedThenWithout | package/aloe/include/aloe/compat/openbsd/sys/tree.h:523-618 | insertion adds exactly one node, and removing it restores the sequence |
| RbSearch.SearchBound | package/aloe/include/aloe/compat/openbsd/sys/tree.h:48-56 | no search passes more than 2 lg (n + 1) nodes |
| RbRemove.RedSibling | package/aloe/include/aloe/compat/openbsd/sys/tree.h:447-520 | a red sibling is turned into a black one without changing order or debt |
| RbRemove.BlackChildren | package/aloe/include/aloe/compat/openbsd/sys/tree.h:447-520 | recolouring the sibling moves the missing black up one level |
| RbRemove.NearRed | package/aloe/include/aloe/compat/openbsd/sys/tree.h:447-520 | rotating the near red nephew prepares the far case |
| RbRemove.FarRed | package/aloe/include/aloe/compat/openbsd/sys/tree.h:447-520 | the far case pays the missing black |
| RbRemove.TwoChildrenOut | package/aloe/include/aloe/compat/openbsd/sys/tree.h:523-588 | putting the successor in the place of a node with two children takes exactly that node out of the order |
| RbRemove.SuccessorTakenOut | package/aloe/include/aloe/compat/openbsd/sys/tree.h:523-588 | what that leaves at the successor's old place is balanced or one black short there |
| Rb.Head.Rotate | package/aloe/include/aloe/compat/openbsd/sys/tree.h:337-376 | the method rotates the subtree in memory |
| Rb.Head.InsertColor | package/aloe/include/aloe/compat/openbsd/sys/tree.h:403-444 | the recolouring loop ends with a balanced, correctly linked tree of the same order |
| Rb.Head.RemoveColor | package/aloe/include/aloe/compat/openbsd/sys/tree.h:447-520 | so does the loop after a removal |
| Rb.Head.Descend | package/aloe/include/aloe/compat/openbsd/sys/tree.h:591-634 | the search loop finds the key or the hole where it belongs, within 2 lg (n + 1) turns |
| Rb.Head.Insert | package/aloe/include/aloe/compat/openbsd/sys/tree.h:591-618 | inserts in key order and keeps the tree valid, or returns the node that has the key and changes nothing |
| Rb.Head.Remove | package/aloe/include/aloe/compat/openbsd/sys/tree.h:523-588 | takes exactly the node out and keeps the tree valid |
| Rb.Head.Find | package/aloe/include/aloe/compat/openbsd/sys/tree.h:622-636 | the node with the key, or 0 iff there is none |
| Rb.Head.MinMax | package/aloe/include/aloe/compat/openbsd/sys/tree.h:704-716 | first or last node, 0 when empty |
| Rb.Head.Next | package/aloe/include/aloe/compat/openbsd/sys/tree.h:661-680 | the successor in key order |
| Rb.Head.Foreach | package/aloe/include/aloe/compat/openbsd/sys/tree.h:730-733 | every node once, in key order |
| WifiConf.NetworkConfigured | package/tester1/app_network.c:363-423 | the loop over fgets chunks computes the scanner's verdict on any file |
| WifiConf.ProvisionedIsUsable | package/tester1/app_network.c:363-423 | every file written for an accepted ssid and password is recognised as configured, also when the ssid line is longer than the line buffer |
| WifiText.UsableExactly | package/tester1/app_network.c:363-423 | a file is usable iff among the chunks fgets makes of it one opens a network, a later one names an ssid and a still later one is the first to close that network |
| WifiText.HasSsidExactly | package/tester1/app_network.c:402-414 | what follows `ssid=` names an ssid iff behind spaces there is something, and not an empty quoted string |
| WifiText.ChunkExactly | package/tester1/app_network.c:378 | fgets stops behind the first newline, at a full buffer or at the end of the file |
| WifiText.CStrExactly | package/tester1/app_network.c:633-688 | a C string ends before its first zero |
| WifiText.SaysWhatWasAsked | package/tester1/app_network.c:664-688 | a reader of network blocks that shares nothing with the writer finds in the text exactly the two global settings and the networks asked for, setting by setting |
| WifiText.ProvisionedSays | package/tester1/app_network.c:633-688 | for every accepted call: one open network with the ssid without a password, else an SAE network with ieee80211w=2 and a WPA-PSK network, both with the ssid and the password |
| WifiText.CredentialsDiffer | package/tester1/app_network.c:633-688 | two accepted calls write the same text iff they were given the same ssid and the same password |
| WifiText.AcceptedExactly | package/tester1/app_network.c:633-660 | a call is accepted iff there is an ssid, a password has 8 to 63 characters or is absent or empty, and neither has a quote, a backslash or a line end |
| WifiSpec.RunKeepsTries | package/tester1/app_network.c:714-790 | over every run of single accesses, while a network is tried and no call has replaced the try file or written to it, a usable try file is what wpa_supplicant runs with |
| WifiSpec.TurnIsAccesses | package/tester1/app_network.c:800-845 | access by access, a turn that nothing interrupts does what the handlers say |
| WifiSafety.OfficialAfter | package/tester1/app_network.h:23-33 | only the rename of IPSETUP, and the unlink, rename and fclose of a call, change the official file, and to what; a failed try leaves it alone |
| WifiSafety.CommitSawAddress | package/tester1/app_network.c:763-768 | on the way to a commit, an address has been seen with the configuration wpa_supplicant runs with |
| WifiSafety.StaysJustified | package/tester1/app_network.c:431-442 | the exact guard: an access keeps the official credentials justified unless it commits a try file that wpa_supplicant does not run with or no single call has written, or is a last fclose on the official file by a failsafe call, by a later call or with text missing, and what it leaves there is not justified otherwise |
| WifiSafety.OfficialIsJustified | package/tester1/app_network.c:28-97 | over every run, of any accesses of any threads in any order, the official credentials are, whenever no call has the file open, the initial ones, ones given to or cleared by app_wifi_provision, or ones given to the failsafe call that wpa_supplicant ran with when an address was seen, if and only if no access commits an untried file or writes the official one amiss and leaves there what is none of these |
| WifiSafety.UntriedWasReplaced | package/tester1/app_network.c:929-944 | an untried commit needs a call that has replaced or written the try file since wpa_supplicant was last started with it, or a try file that no single call has written as a whole |
| WifiSafety.KeptAwayIsJustified | package/tester1/app_network.c:28-97 | so the credentials stay justified whenever calls that write come one after the other, get their text out, and no commit falls between a failsafe call and the next start with its file |
| WifiSafety.WriterWasGiven | package/tester1/app_network.c:633-706 | over every run, what a call has still to write is what it was given, whatever happens to its file meanwhile |
| WifiSafety.AttemptWasGiven | package/tester1/app_network.c:929-944 | over every run, a try file written as a whole by one call holds what some call was given |
| WifiSafety.CallByItself | package/tester1/app_network.c:653-703 | a call that nothing overlaps makes its file appear empty, and leaves exactly its text there |
| WifiCalls.ProvisionByItself | package/tester1/app_network.c:906-923 | app_wifi_provision with nothing in between, for every outcome of its file operations: what both files hold afterwards, and that the thread goes to RESET iff it succeeds |
| WifiCalls.FailsafeByItself | package/tester1/app_network.c:929-944 | likewise: the try file holds the text, the official one stays |
| WifiCalls.StartAndStop | package/tester1/app_network.c:800-899 | app_wifi_init, with the start of its thread, and app_wifi_deinit |
| WifiRuns.RaceCommitsUntried | package/tester1/app_network.c:929-944 | two runs that commit credentials never tried: a turn between the two halves of a failsafe call, and a whole call within a turn |
| WifiRuns.OverlapMixes | package/tester1/app_network.c:653-703 | for any two accepted calls that overlap, a run without any commit that leaves the failsafe text in the official file, over the end of a longer provisioned one; it is justified iff it happens to be the provisioned text or the old file |
| WifiRuns.ResetStarts | package/tester1/app_network.c:714-740 | RESET with a usable try file starts it with the connect timeout |
| WifiRuns.WaitingStations | package/tester1/app_network.c:714-790 | INIT, PROVISIONING and CONNECTED: what each waits for, and that it then goes to RESET |
| WifiRuns.ResetStation | package/tester1/app_network.c:714-748 | RESET, also when requested from anywhere: starts the try file if usable, else the official one, with 30 seconds to connect, else the access point, else comes back |
| WifiRuns.TryingStations | package/tester1/app_network.c:750-783 | CONNECTING and IPSETUP: success goes on with 30 more seconds or commits; a timeout removes the try file, or without one tries again |
| WifiRuns.TurnBounds | package/tester1/app_network.c:750-783 | an uninterrupted turn of a try ends it, or keeps both files and the deadline, or goes on to IPSETUP with a new deadline |
| WifiRuns.TurnProgress | package/tester1/app_network.c:146-166 | every turn of a try lowers the pair of the station still ahead and the time left before the deadline |
| WifiRuns.TryIsResolved | package/tester1/app_network.c:714-783 | once started, a try is committed or removed within the connect plus IP-setup timeouts counted in turns; a dropped try leaves the official file as it was |
| WifiRuns.TryInTime | package/tester1/app_network.c:750-783 | the same bound on the clock, for turns that are at most d seconds apart |
| WifiRuns.FailedUnlinkTriesAgain | package/tester1/app_network.c:755-783 | after either timeout of a try, the next RESET tries the same credentials again exactly if unlink failed or they are the official ones |
| Wifi.ConfNeedsEscape | package/tester1/app_network.c:624-631 | the loop is true iff the text has a quote, a backslash, a newline or a carriage return |
| Wifi.WriteProvisionConf | package/tester1/app_network.c:633-688 | refuses what cannot be written; otherwise the text to be written is the one of which WifiText.ProvisionedSays tells what it says |
| Wifi.Manager.WriteConf | package/tester1/app_network.c:653-706 | fopen, rename, unlink when that fails, and fclose, in this order with anything of the thread and of other calls in between; it fails also when another call has renamed the temporary file |
| Wifi.Manager.OnReset | package/tester1/app_network.c:714-740 | the handler kills the daemons, tests the files and starts what it chose; with any calls of other threads in between, all that happens is a run of the specified single accesses, to the end of the handler |
| Wifi.Manager.OnConnecting | package/tester1/app_network.c:750-761 | the handler waits for the link, or aborts; with any calls of other threads in between, all that happens is a run of the specified single accesses, to the end of the handler |
| Wifi.Manager.OnIpSetup | package/tester1/app_network.c:763-783 | the handler waits for an address, commits or aborts; with any calls of other threads in between, all that happens is a run of the specified single accesses, to the end of the handler |
| Wifi.Manager.OnConnected | package/tester1/app_network.c:785-790 | the handler goes back to RESET when link or address is lost; with any calls of other threads in between, all that happens is a run of the specified single accesses, to the end of the handler |
| Wifi.Manager.CommitTryConf | package/tester1/app_network.c:431-442 | tests the try file again and renames it, with other threads in between |
| Wifi.Manager.ThreadTurns | package/tester1/app_network.c:800-845 | one turn, from the test of the reset flag to the end of the handler, is a run of single accesses of the thread and of others |
| Wifi.Manager.Provisions | package/tester1/app_network.c:906-923 | the accesses of the call, in order, with anything in between, and its result, for every outcome of its file operations |
| Wifi.Manager.FailsafeProvisions | package/tester1/app_network.c:929-944 | likewise |
| Wifi.Manager.Deinitialise | package/tester1/app_network.c:880-899 | likewise, between two turns |
| Bytes.Num32Le32 | package/tester1/settings.cpp:84-134 | a little-endian field reads back every number below 2^32 |
| Bytes.Weights | package/tester1/settings.cpp:84-134 | which byte of a little-endian or big-endian field has which weight |
| Crc.AloeCrc32 | package/aloe/util.cpp:435-450 | the nested loops compute the checksum |
| Crc.CheckValue | package/aloe/util.cpp:435-450 | the checksum of the nine digits from 1 is CBF43926, the check value of CRC-32 |
| Crc.FlasherCrc32 | package/cc1352-flash/cc1352-flash.c:165-174 | the branch-free loop equals aloe_crc32 with seed 0 on every input |
| Crc.Chaining | package/aloe/util.cpp:435-450 | checksumming two pieces one after the other is checksumming them together |
| Crc.StepBitBijective | package/aloe/util.cpp:435-450 | one bit of the register is a bijection, with its inverse |
| Crc.UpdateInjective | package/aloe/util.cpp:435-450 | different registers stay different over the same bytes |
| Crc.OneByteDiffers | package/aloe/util.cpp:435-450 | inputs of one length that differ in exactly one byte never share a checksum |
| SettingsCodec.RoundTrip | package/tester1/settings.cpp:84-222 | loading what was saved yields the records as their length fields leave them, for any bytes after the file |
| SettingsCodec.RoundTripExactly | package/tester1/settings.cpp:84-222 | the records come back exactly iff keys, values and payload fit their length fields |
| SettingsCodec.ReturnsSize | package/tester1/settings.cpp:139-230 | the value returned is the size iff it fits an int; it is not negative below 2 GiB and again from 4 GiB, where it is the size less 4 GiB |
| SettingsCodec.AcceptedExactly | package/tester1/settings.cpp:154-162 | a file saved with one tag and version and loaded with others: refused before any record iff another tag is asked for, or another version, where a tag that begins with a zero byte and the version 0 ask for nothing; else loaded |
| SettingsCodec.FileLayout | package/tester1/settings.cpp:42-58 | where tag, version, checksum and length stand in a saved file, and which bytes the checksum is of |
| SettingsCodec.RecordLayout | package/tester1/settings.cpp:67-137 | where the lengths, the key and the value of a record stand |
| SettingsCodec.TruncationIsDetected | package/tester1/settings.cpp:139-230 | a saved file that is cut off anywhere does not load |
| SettingsCodec.CKeyEndsAtZero | package/tester1/settings.cpp:139-230 | a stored key is read up to its first zero |
| SettingsCodec.CorruptionIsDetected | package/tester1/settings.cpp:213-221 | changing one stored key or value byte makes loading fail |
| SettingsCodec.HeaderCorruptionIsDetected | package/tester1/settings.cpp:139-230 | so does changing a byte of tag, version or checksum |
| SettingsStore.InsertedIsInsertRec | package/tester1/settings.cpp:209 | inserting the node in the tree is inserting its record in key order |
| SettingsStore.InsertRecMeans | package/tester1/settings.cpp:201-203 | a loaded record is added in key order unless its key is taken, and everything else stays |
| SettingsStore.SavedThenLoaded | package/tester1/settings.cpp:67-230 | saving a store and loading into an empty one gives the same store iff everything fits |
| Settings.Store.InsertNew | package/tester1/settings.cpp:189-210 | allocation and RB_INSERT of one record; a key already there keeps its first value |
| Settings.KeyvalSave | package/tester1/settings.cpp:67-137 | writes exactly the file at the file position and returns its size, or -1 iff there is no room |
| Settings.ReadRecord | package/tester1/settings.cpp:165-187 | reads one record and its checksum, or fails iff it is short |
| Settings.KeyvalLoad | package/tester1/settings.cpp:139-230 | returns what the codec says of the file and inserts its records, for every file |
| Settings.BufExpand | package/aloe/util.cpp:76-94 | the buffer has room for what is wanted, is never smaller than before, and grows only when it is too small |
| IpcSpec.NeverMoreData | package/tester1/ipc.cpp:83-138 | on any stream, a dispatched message is all the buffer holds: the branch for more data is dead |
| IpcSpec.FeedJoin | package/tester1/ipc.cpp:83-138 | how the stream is cut into reads makes no difference |
| IpcSpec.FrameLayout | package/tester1/ipc.cpp:172-246 | which bytes a frame has on the wire, and that one of at most 2048 bytes fits the receiver |
| IpcSpec.BorderFree | package/tester1/ipc.cpp:39-40 | the leading bytes cannot begin inside clean garbage and end in a frame |
| IpcSpec.Delivered | package/tester1/ipc.cpp:83-138 | after any clean garbage the receiver dispatches exactly the frames sent, in order |
| IpcSpec.DeliveredExactly | package/tester1/ipc.cpp:83-138 | after clean garbage, exactly the messages sent are dispatched iff all of them fit |
| IpcSpec.OversizeIsDropped | package/tester1/ipc.cpp:83-138 | a frame that does not fit is dropped after a full buffer |
| Ipc.Receiver.InputByte | package/tester1/ipc.cpp:83-138 | one turn over the buffer in place is one step of the specification |
| Ipc.Receiver.Input | package/tester1/ipc.cpp:83-138 | so is the whole loop |
| Ipc.WriteAll | package/tester1/ipc.cpp:172-246 | through any short writes a prefix goes out, all of it unless a write fails |
| Ipc.Sender.Write | package/tester1/ipc.cpp:172-246 | sends the frame with the next sequence number and returns how much of the payload went out |
| Ipc.AlwaysInLockOrder | package/tester1/ipc.cpp:172-246 | for any interleaving of threads and any failing writes, the stream and what the lock holder still has to write are the frames in lock order until a frame is torn, and a torn frame comes behind all before it |
| Ipc.ReceivedInLockOrder | package/tester1/ipc.cpp:83-246 | so for any clean garbage and any part of the stream that has arrived, the receiver has dispatched the messages before the first torn frame in lock order, none twice and none made up, as far as they have arrived; without a torn frame these are all |
| IpcRuns.OncePerCall | package/tester1/ipc.cpp:172-246 | over any run, the lock order has a message at most as often as threads asked for it, and exactly, those still waiting for the lock apart, if no write fails |
| IpcRuns.NumberedInTurn | package/tester1/ipc.cpp:172-246 | messages are numbered from 1 on in lock order, modulo 65536; a number is left out only when a write fails |
| Ipc.TornFrameMisleads | package/tester1/ipc.cpp:172-246 | after a torn frame the receiver dispatches a message completed with the start of the next frame, which is wrong unless the bytes happen to agree |
| Ipc.TornRun | package/tester1/ipc.cpp:172-246 | such a run, for any two messages |
| Ipc.TornHeaderMisleads | package/tester1/ipc.cpp:172-246 | a frame torn inside its header takes the rest of the header, its size included, from the next frame, and what that describes is dispatched if it fits and is there |
| FlashSpec.VerifyIsHarmless | package/cc1352-flash/cc1352-flash.c:339-356 | a verify-only run has no erase, download or data packet |
| FlashSpec.FlashDataPackets | package/cc1352-flash/cc1352-flash.c:348-355 | every data packet carries 1 to 252 bytes, a multiple of four |
| FlashSpec.ReceiveAll | package/cc1352-flash/test_protocol.py:54-94 | the loader's parser recovers exactly the packets the host sends |
| FlashSpec.ChecksumAgrees | package/cc1352-flash/test_protocol.py:54-94 | the checksum byte the host sends with a packet is the one the loader wants: the sum of command and data modulo 256 |
| FlashSpec.FlashedImage | package/cc1352-flash/test_protocol.py:54-94 | a loader that receives a whole flashing script holds the image, has refused nothing and has been reset |
| Flash.Host.Put | package/cc1352-flash/cc1352-flash.c:63-93 | through any fragmentation a prefix is written, all of it while calls succeed |
| Flash.Host.Get | package/cc1352-flash/cc1352-flash.c:63-93 | reads exactly the next bytes, or fails |
| Flash.Host.ExpectAck | package/cc1352-flash/cc1352-flash.c:94-110 | succeeds only on an acknowledgement after idle zeros, and whenever the line works and one comes |
| Flash.Host.Command | package/cc1352-flash/cc1352-flash.c:111-125 | sends the encoded packet and needs its acknowledgement |
| Flash.Host.Response | package/cc1352-flash/cc1352-flash.c:126-145 | accepts exactly a response with the right length and checksum, and refuses a damaged one with NACK |
| Flash.Host.Program | package/cc1352-flash/cc1352-flash.c:339-356 | erase, download and the loop over the image follow the script |
| Flash.Host.Run | package/cc1352-flash/cc1352-flash.c:300-372 | what is sent stays on the script; status 0 only with the whole script; RESET only after CRC equality; status 0 whenever the peer cooperates over a line that works |
| FlashRuns.SuccessMeansFlashed | package/cc1352-flash/cc1352-flash.c:300-372 | after a successful flashing run the flash has 704 KiB, begins with the firmware file, and is FF from its end on |
| FlashRuns.VerifyKeepsFlash | package/cc1352-flash/test_protocol.py:54-94 | a verify-only run, wherever it stops, leaves the flash as it was |
| FlashRuns.VerifyCompletes | package/cc1352-flash/test_protocol.py:54-94 | a complete one is obeyed without a refusal |
| FlashRuns.Served | package/cc1352-flash/test_protocol.py:46-94 | the host understands everything a faithful loader sends, with any idle zeros |
| FlashRuns.FlashingSucceeds | package/cc1352-flash/test_protocol.py:46-94 | a flashing run against a faithful loader cooperates, whatever its flash held |
| FlashRuns.VerifyingSucceeds | package/cc1352-flash/test_protocol.py:46-94 | a verify-only run does iff the flash has the CRC of the image |
| FlashRuns.OneWrongByteIsNoticed | package/cc1352-flash/cc1352-flash.c:357-370 | flash that differs from the image in one byte never passes |
| AttSpec.ResponseFits | package/tester1/blegatt.cpp:651-829 | every response to every request fits the MTU the server holds |
| AttSpec.StaysSane | package/tester1/blegatt.cpp:633-675 | the MTU stays in 23..128 and the value within 64 bytes |
| AttRuns.StateIsHistory | package/tester1/blegatt.cpp:540-829 | over any history of connections, requests and notifications, the server holds the smaller of 128 and the last offer since the connection, 23 without one, and the configuration and the value last accepted |
| AttRuns.SentFitsOffer | package/tester1/blegatt.cpp:651-829 | so every response and notification has at most as many bytes as the client last offered |
| AttRuns.ExchangeAnswer | package/tester1/blegatt.cpp:663-675 | an offer of at least 23 is answered with 128; a malformed or smaller one with Invalid PDU, and changes nothing |
| AttRuns.NotifiesWhenAsked | package/tester1/blegatt.cpp:1037-1066 | a notification goes out, with the text, iff a client is connected and has asked for it, and the text fits the value and the MTU |
| AttRuns.FindsTheTable | package/tester1/blegatt.cpp:676-701 | discovery finds exactly the ten attributes of the table, handle by handle |
| AttRuns.ReadsAs | package/tester1/blegatt.cpp:787-808 | what every handle reads as, whole, for every MTU; Invalid Handle elsewhere |
| AttRuns.WriteOutcome | package/tester1/blegatt.cpp:633-649 | for every handle and value what a write does and answers, as request and as command |
| AttRuns.ConfigurationReadsBack | package/tester1/blegatt.cpp:809-823 | a written client configuration reads back |
| AttRuns.Refuses | package/tester1/blegatt.cpp:651-829 | the answer to every malformed or unknown request, which changes nothing |
| AttRuns.GroupTypeRefused | package/tester1/blegatt.cpp:733-786 | grouping is only supported for primary services |
| AttRuns.OffsetRefused | package/tester1/blegatt.cpp:787-808 | reading beyond the end is refused |
| AttRanges.BadRange | package/tester1/blegatt.cpp:676-786 | for all four discovery requests the answers to a range that is empty, starts at 0, or lies beyond the table |
| AttRanges.InfoOverRange | package/tester1/blegatt.cpp:676-701 | over any range, Find Information answers with a stretch of the table from the first handle on, of one size of type, that ends only where the range, the size or the room does |
| AttRanges.FindsServices | package/tester1/blegatt.cpp:702-732 | over any range, Find By Type Value answers with exactly the primary services of that UUID that start in it, with their ends |
| AttRanges.ReadsByType | package/tester1/blegatt.cpp:733-786 | over any range, Read By Type and Read By Group Type answer with the first handles of that type, in order, with their values, cut to the MTU |
| AttClient.DiscoversAttributes | package/tester1/blegatt.cpp:676-701 | for every MTU and value, repeating Find Information from the last handle plus one yields every attribute once, in order, then Attribute Not Found |
| AttClient.DiscoversServices | package/tester1/blegatt.cpp:733-786 | likewise Read By Group Type and the services |
| AttClient.Reassembles | package/tester1/blegatt.cpp:787-808 | Read followed by Read Blob at growing offsets yields exactly the value, for every MTU |
| AttClient.WriteThenRead | package/tester1/blegatt.cpp:633-649 | a write of at most 64 bytes reads back whole; a longer one is refused and changes nothing |
| Att.Ble.FindInfoInto | package/tester1/blegatt.cpp:676-701 | the bytes put in the response buffer are the specified response |
| Att.Ble.FindByTypeInto | package/tester1/blegatt.cpp:702-732 | likewise |
| Att.Ble.ReadByTypeInto | package/tester1/blegatt.cpp:733-786 | likewise, with truncation and the rule that all entries have one size |
| Att.Ble.ReadInto | package/tester1/blegatt.cpp:787-808 | likewise |
| Att.Ble.WriteInto | package/tester1/blegatt.cpp:809-823 | likewise, with the new state |
| Att.Ble.AttWrite | package/tester1/blegatt.cpp:633-649 | error codes and the new state for every handle and value |
| Att.Ble.AttOnPdu | package/tester1/blegatt.cpp:651-829 | for every request the response and the new state are the specified ones |
| Att.Ble.Notify | package/tester1/blegatt.cpp:1037-1066 | the PDU never exceeds the MTU; the value is stored whether or not it goes out |
| Att.AlwaysSane | package/tester1/blegatt.cpp:651-1066 | in every reachable state MTU and value are in range, so every response fits |
| Rg10Spec.YuvRange | package/aloe/rg10_rgb8_i420_v4.cpp:66-98 | luma is in 16..235 and chroma in 17..240, so the clamps never act |
| Rg10Planes.FollowsBt601 | package/aloe/rg10_rgb8_i420_v4.cpp:66-98 | the integer formulas stay less than one code from the luma of ITU-R BT.601, and less than two from its chroma, since C cuts towards zero |
| Rg10Spec.ChannelIsSamples | package/aloe/rg10_rgb8_i420_v4.cpp:426-437 | the shuffled, shifted and saturated SSE2 lanes are the samples four apart |
| Rg10Spec.LumaLaneIsLuma | package/aloe/rg10_rgb8_i420_v4.cpp:45-57 | 16-bit lane arithmetic never wraps and gives the luma |
| Rg10.RowPair5 | package/aloe/rg10_rgb8_i420_v4.cpp:344-421 | a pair of rows by 8-pixel blocks plus tail |
| Rg10.Row6 | package/aloe/rg10_rgb8_i420_v4.cpp:444-538 | one row by lanes plus tail |
| Rg10.V5 | package/aloe/rg10_rgb8_i420_v4.cpp:344-421 | the buffers become exactly the converted frame; refused sizes change nothing |
| Rg10.V6 | package/aloe/rg10_rgb8_i420_v4.cpp:444-538 | the same frame with unit gains, for every size and all 16-bit samples; with tables, the frame after the tables |
| Rg10.WholeFrame | package/aloe/rg10_rgb8_i420_v4.cpp:344-538 | row by row, whatever the buffers held, they end as the four planes |
| Rg10Planes.FrameShows | package/aloe/rg10_rgb8_i420_v4.cpp:344-538 | where every pixel of a converted frame ends up: red, green and blue from which samples, in this order, its luma, and the blue difference in the U plane and the red one in the V plane for the lower right pixel of every two by two, by BT.601; planes that are not wanted stay |
| DemosaicSpec.MeanOfColour | package/aloe/simd/rggb10_rgb888_i420_simd.cpp:191-299 | wherever the frame's edge cuts off no neighbour it needs, a channel is the sample at a place of its colour, and else the mean of that colour's samples in the 3 x 3 window |
| DemosaicSpec.ColourShinesThrough | package/aloe/simd/rggb10_rgb888_i420_simd.cpp:205-209 | that is exactly where: at every other place of every frame size, samples of another colour reach the channel |
| DemosaicPlanes.PixelIsMixed | package/aloe/simd/rggb10_rgb888_i420_simd.cpp:191-299 | at every place, edge and all, a channel is that sample or mean in the frame with its edge repeated twice all around |
| DemosaicPlanes.SampleShows | package/aloe/simd/rggb10_rgb888_i420_simd.cpp:306-443 | red, green and blue bytes, in this order: at its own place a sample shows in its own colour, as RGGB has it |
| DemosaicPlanes.FrameShows | package/aloe/simd/rggb10_rgb888_i420_simd.cpp:306-443 | where every pixel of a demosaiced frame ends up: its three bytes, its luma, and the chroma of every two by two mean in the U and the V plane, less than one code from BT.601 for all ten-bit samples; planes that are not wanted stay |
| DemosaicSpec.GreyIsNeutral | package/aloe/simd/rggb10_rgb888_i420_simd_v2.cpp:80-116 | grey has neutral chroma, and luma from 16 to 235 |
| DemosaicSpec.LumaDiffersAbove1021 | package/aloe/rggb10_rgb888_i420.cpp:713-801 | the luma planes with and without narrowing are equal iff no sample is above 1021 |
| DemosaicSpec.RgbNeverDiffers | package/aloe/rggb10_rgb888_i420.cpp:713-763 | the RGB planes always are |
| DemosaicSpec.FusedAgrees | package/aloe/rggb10_rgb888_i420.cpp:525-847 | the fused frame is the reference frame iff no I420 is wanted or no sample is above 1021 |
| Demosaic.AverageBlock | package/aloe/simd/rggb10_rgb888_i420_simd.cpp:394-433 | the second pass's sums over re-interpolated pixels are the block's mean |
| Demosaic.Reference | package/aloe/simd/rggb10_rgb888_i420_simd.cpp:306-443 | two passes fill the buffers with exactly the frame's planes |
| DemosaicCache.CachedIsBlock | package/aloe/simd/rggb10_rgb888_i420_simd_v2.cpp:345-400 | the bytes kept in the row cache give the block's mean |
| DemosaicCache.RowPair | package/aloe/simd/rggb10_rgb888_i420_simd_v2.cpp:275-402 | two rows through the cache add exactly their RGB, luma and chroma |
| DemosaicCache.ConvertScalar | package/aloe/simd/rggb10_rgb888_i420_simd_v2.cpp:235-404 | the same frame as the reference, for every even size and all samples |
| DemosaicFused.BlockIsPixels | package/aloe/rggb10_rgb888_i420.cpp:570-712 | the edge-replicated row and column pointers give the four pixels the reference interpolates one by one |
| DemosaicFused.BlockRow | package/aloe/rggb10_rgb888_i420.cpp:606-845 | writing two rows at once fills both, and the chroma between |
| DemosaicFused.Fused | package/aloe/rggb10_rgb888_i420.cpp:525-847 | the unnarrowed frame, equal to the reference's iff no I420 is wanted or no sample is above 1021 |
| AnnexB.Split | package/tester1/tester_v4l2rtsp2.cpp:73-94 | the nested loops deliver the units between start codes |
| AnnexB.DeliveredIsProper | package/tester1/tester_v4l2rtsp2.cpp:73-94 | on any stream no unit is empty or has a start code inside |
| AnnexB.SplitOfStream | package/tester1/tester_v4l2rtsp2.cpp:62-94 | splitting a stream of plain units gives them back, less a last zero that a three-byte code swallows |
| AnnexB.SplitUndoesStream | package/tester1/tester_v4l2rtsp2.cpp:62-94 | the units come back unchanged iff none is empty, holds a start code, or ends in a zero before a three-byte code |
| AnnexB.LeadingBytes | package/tester1/tester_v4l2rtsp2.cpp:73-94 | bytes before the first start code are ignored |
| AnnexB.ConformingUnits | package/tester1/tester_v4l2rtsp2.cpp:62-94 | units as ITU-T H.264 section 7.4.1 has them come back whatever their start codes |

## Left out

- Evb2.Loop.InstallAsync: the calls that callbacks and other threads still make while it runs are bounded by a finite budget; CANCELLED callbacks that keep adding saturated timers for ever would keep it going for ever.
- Evb2Spec.WantedElsewhere: agreement with epoll is stated for descriptors whose last epoll_ctl succeeded.
- Evb2.Loop.RunOnce: clock readings are arbitrary, and are not taken to be monotone; nothing proved needs it.
- Evb2.Loop.UserCallback: calls on handles that are no longer valid are not modelled, apart from the one in Evb2Runs.RetimingACancelledHandle.
- evb2: malloc failure, the pipe calls and their errors, closing descriptors, and the data race on `stopping` outside the lock.
- Wifi.Manager.WriteConf: stdio is taken to hold all of a text back until fclose, where a text longer than its buffer would go out in parts before; unlink of the temporary file does not fail while the file is there.
- WifiSafety.OfficialIsJustified: nothing is said of the official file while a call has it open. It is empty from the rename to fclose, and a RESET in between does not find it usable.
- Wifi.Manager.InitCreates: two threads in app_wifi_init at once.
- Wi-Fi: daemons, interface resets, the access-point configuration, logging, app_wifi_get_state and app_wifi_reload; links, addresses and start-up results are arbitrary inputs.
- Settings.KeyvalLoad: malloc failure; the file is an in-memory device with a position, and a failing save may leave part of the new contents behind.
- Ipc.Receiver.Input: the `func` field is read from an uninitialised variable for a callback message shorter than it; the message is handed on without it here.
- Ipc: opening the device, poll and the callback table.
- Flash.Host.Run: line setup, GPIO and locking; a deadline is the end of the list of read and write results.
- Att: sockets, advertising and the HCI commands; text handed to ble_notify is bytes.
- Rb.Head.Remove: RB_NFIND, RB_PREV and RB_AUGMENT are not modelled, and nodes are addresses into a map of cells.
- Rg10.V6: the NEON build, and how floating-point gains become the tables; the tables themselves are arbitrary.
- Rg10.V5: v4 and aloe_i420_rgb8 of the same file.
- DemosaicFused.Fused: the first converter of that file, which rounds differently, and the NEON and AVX2 paths of the others; planes of one I420 buffer are separate arrays, and a frame is a sequence of rows.
- AnnexB.Split: the pipeline around it; Live555, x264 and V4L2 are not part of this model.
- The older event loop ev.c, cli.cpp, wifi.cpp, btrfcomm.cpp, epd_v21.c, the SPLAY macros and the kernel module would only add easy or repeated members.
