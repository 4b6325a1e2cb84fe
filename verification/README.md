# A Dafny model of KWayland client state

KWayland's client classes mostly forward requests, but a handful of them keep real state that is driven by an
unbounded stream of server events. This project models those classes in Dafny and proves what they keep over every
run of events.

Each component comes in two layers.

* A module of *values*: the state as a datatype, one function per event, the run over a list of events, and the
  theorems about all runs. Signals are recorded in the state, so that a theorem can speak about what listeners are
  told and when.
* A module of *classes* with the fields of the original, whose methods are the callbacks and requests. A ghost field
  `history` holds the events delivered so far; `Valid()` says that the fields are what the run over `history` leads
  to. Every method extends `history` by its event and keeps `Valid()`, so every theorem about runs is a theorem about
  the objects.

| component | values | classes |
|---|---|---|
| window management and its item model | `PlasmaWindowData`, `PlasmaWindowWorld`, `PlasmaWindowCoherence`, `PlasmaWindowInvariants`, `PlasmaWindowSteps`, `PlasmaWindowTheorems`, `PlasmaWindowSignals`, `PlasmaWindowPids`, `PlasmaWindowAttributes`, `PlasmaWindowParents`, `PlasmaWindowFocus`, `PlasmaWindowNotices` | `PlasmaWindows` |
| stacking order | `StackingOrderStates` | `StackingOrders` |
| shared-memory pool and buffers | `ShmPoolState`, `ShmPoolTheorems`, `ShmHandouts` | `ShmPools` |
| output modes | `OutputModes` (as intended), `OutputModeLoop` (as written) | `Outputs` |
| touch sequences | `TouchSequences` | `Touches` |
| text input, versions 0 and 2 | `TextInputStates` | `TextInputs` |
| UTF-8 offsets of the surrounding text | `SurroundingText` | |
| xdg-shell toplevels, versions 5, 6 and stable | `XdgToplevelStates` | `XdgToplevels` |
| region mirror | `RegionStates` | `Regions` |
| outputs of a surface | `SurfaceOutputStates` | `SurfaceOutputs` |
| registry globals | `RegistryGlobals` | `Registries` |

Two kinds of results complement each other. Some relate parts of a state over all runs: a view and its model, bytes and
their owners, two protocol versions. Others, whose names speak of what was *said*, read every part of the state off the
list of events alone, without the steps, so that each step is also pinned from outside.

`Collections` holds options and the list operations that several components share.

What the server, the operating system or the caller decides is a parameter of an event: which system calls of a pool
request succeed, the bytes that Qt writes for half a surrogate pair, what an erase of QList moves in memory, the table
of supported interfaces, decoded protocol enumerators whose numbers come from protocol files outside the repository.

Six documented expectations do not hold of the code on every run. Each is stated with its exact condition and with a
concrete run or input that fails.

* Making a mode current that the list already holds makes the loop of `addMode` use an iterator that an erase has
  invalidated. If every erase moves the entries behind it, the loop then reads past the end of the list. QList of Qt 6
  drops its first entry by moving its beginning instead; there the loop reads past the end exactly if another mode
  precedes an entry of this one. `AddModeExact` and, over runs, `WrittenRunsExact` say so for both; the second of two
  modes becoming current is enough under either, `SecondModeCannotBecomeCurrent`.
* The row of a window shows its pid, but no signal announces a new pid: `PidCoherenceExact`,
  `RowCanShowAnOldPid`. A row keeps the pid its window had when the row was inserted: `ViewIsRightExactly`.
* `activeWindow()` is documented as the active window or null. If the server activates a second window before it
  deactivates the first, the first one is lost: `ActiveWindowExact`, `ActiveWindowCanBeLost`.
* `parentWindowChanged` is documented for every change of the parent. When a parent is deleted while it is one, its
  children lose it silently: `ParentSignalExact`, `ParentCanVanishSilently`.
* A touch event for a point that is still down after a cancel, or a second cancel, breaks the order of signals that
  `Touch` documents: `GrammarExact`, `CancelsCanRepeat`.
* The byte offsets of `setSurroundingText` can lie beyond the text that the server receives, because that text is cut
  at a U+0000: `OffsetInSentTextExact`, `OffsetCanBeBeyond`. They cut through a character exactly if the index splits
  a surrogate pair: `PrefixExact`, `OffsetCanCutPair`.

## Model

A row that says "step" names a method whose contract is that the fields make the step of the values module for the
event or call; the rest of such a row says in words what that step is. What follows from the steps is in the rows of
lemmas.

| member | source | states |
|---|---|---|
| PlasmaWindowData.SetterChangesOneRole | src/client/plasmawindowmodel.cpp:57-155 | the tables of setters, signals and roles fit: a setter's change can show only in the role that the model refreshes for the setter's signal |
| PlasmaWindowData.SetterShows | src/client/plasmawindowmanagement.cpp:1006-1014 | a real change of a flag shows in that role, except that from version 8 on the all-desktops flag decides nothing |
| PlasmaWindowAttributes.AttributesAreSaid | src/client/plasmawindowmanagement.cpp:501-735 | over every run each window has the identity of its announcement and in every attribute what was said of it last: title, app id, icon, geometry, pid, the flags of the last state event, and the desktops entered and not left since, in order |
| PlasmaWindowAttributes.RolesShowWhatIsSaid | src/client/plasmawindowmodel.cpp:203-266 | over every run a fresh read of a row gives, role by role, what the events said of its window; all-desktops from version 8 on if and only if every desktop entered has been left since, before that if and only if the last state event says so |
| PlasmaWindowAttributes.StateIsSet | src/client/plasmawindowmanagement.cpp:644-667 | after a state event the flags are exactly those of the event, whatever they were |
| PlasmaWindowNotices.StateTellsInOrder | src/client/plasmawindowmanagement.cpp:644-667 | a state event tells of its flags in the order of the setters |
| PlasmaWindowNotices.RolesAreToldExactly | src/client/plasmawindowmodel.cpp:57-155 | over every run an attribute event announces exactly the roles it concerns, each as often as a row of the window was ever inserted, and no other event announces any role |
| PlasmaWindowNotices.EventSignalsExact | src/client/plasmawindowmanagement.cpp:367-383 | unmapped, windowCreated and the two interface signals are emitted by exactly their events |
| PlasmaWindowTheorems.ViewAgreesWithModel | src/client/plasmawindowmodel.cpp:34-162 | over every run, a view that listens only to insert, remove, reset and dataChanged has exactly the model's rows, without duplicates, and for every role but Pid what a fresh `data` returns |
| PlasmaWindowTheorems.PidCoherenceExact | src/client/plasmawindowmanagement.cpp:564-572 | a view that is also right about Pid stays so after an event if and only if the event does not really change the pid of a window that has a row |
| PlasmaWindowSignals.RowCanShowAnOldPid | src/client/plasmawindowmanagement.cpp:564-572 | a concrete run after which the only row shows an old pid |
| PlasmaWindowPids.RowsShowInsertedPids | src/client/plasmawindowmodel.cpp:34-55 | over every run each cached row shows the pid that its window had when that row was inserted, whatever pids were announced since |
| PlasmaWindowPids.ViewIsRightExactly | src/client/plasmawindowmodel.cpp:158-162 | over every run the view is right about Pid if and only if every window with a row has the pid of its insertion again |
| PlasmaWindowTheorems.RowsFollowLedger | src/client/plasmawindowmodel.cpp:164-181 | over every run the manager lists exactly the mapped windows in order of arrival, and the rows are exactly the windows present at the model's construction or initialised since, while mapped and until release |
| PlasmaWindowTheorems.UnmapLists | src/client/plasmawindowmanagement.cpp:593-600 | unmapping takes the window, and nothing else, out of the window list and the rows |
| PlasmaWindowTheorems.ParentIsMappedAndSubscribed | src/client/plasmawindowmanagement.cpp:513-529 | in every reachable state a parent is a mapped window of the list and its child holds exactly one unmap subscription, to that parent; without a parent it holds none |
| PlasmaWindowParents.ParentIsLastSent | src/client/plasmawindowmanagement.cpp:490-529 | over every run p is the parent of a window if and only if its last parent event named p, by a native object that p was the first mapped window to wrap, and p has neither been unmapped nor deleted since |
| PlasmaWindowParents.UnmappedIsSaid | src/client/plasmawindowmanagement.cpp:593-600 | a window counts as unmapped if and only if its unmapped event came |
| PlasmaWindowTheorems.UnmapClearsExactlyChildren | src/client/plasmawindowmanagement.cpp:513-529 | unmapping clears the parent of all children of the window and of no other, with one signal for each; a former parent never clears a newer one |
| PlasmaWindowInvariants.UnmapKeeps | src/client/plasmawindowmanagement.cpp:593-600 | the invariants of windows, rows, connections and parent links survive the delivery of `unmapped`, during which subscriptions disappear |
| PlasmaWindowInvariants.SetParentKeeps | src/client/plasmawindowmanagement.cpp:513-529 | the same for a change of parent, which drops the old subscription by its handle |
| PlasmaWindowInvariants.DisconnectEffect | src/client/plasmawindowmanagement.cpp:516 | in every reachable state the handle of a child removes exactly the subscriptions made for that child and no other |
| PlasmaWindowInvariants.StaleDisconnectsNothing | src/client/plasmawindowmanagement.cpp:516 | a handle left over from a deleted parent removes nothing |
| PlasmaWindowSteps.DestroyedIsNoOp | src/client/plasmawindowmanagement.cpp:275-278 | after `unmapped` the slots of `destroyed` find nothing left to remove |
| PlasmaWindowSteps.StepKeepsInv | src/client/plasmawindowmanagement.cpp:258-296 | every possible event keeps the invariant of the three classes |
| PlasmaWindowSteps.StepKeepsCoherence | src/client/plasmawindowmodel.cpp:158-162 | every possible event keeps the view coherent, Pid included unless the event is a change of pid |
| PlasmaWindowSteps.RunKeeps | src/client/plasmawindowmanagement.cpp:258-296 | every reachable state satisfies the invariant and is coherent |
| PlasmaWindowSignals.ActiveSignalExact | src/client/plasmawindowmanagement.cpp:267-295 | activeWindowChanged is emitted once if the event changes `activeWindow` and not at all otherwise |
| PlasmaWindowSignals.ParentSignalExact | src/client/plasmawindowmanagement.cpp:526-528 | parentWindowChanged of a window that is not itself being deleted is emitted exactly when its parent pointer changes, if and only if the event is not the deletion of its parent |
| PlasmaWindowSignals.DeletedIsForgotten | src/client/plasmawindowmanagement.cpp:275 | a window deleted at any time, unmapped or not, leaves list and rows and nothing else does; exactly the pointers to it become null, without a signal |
| PlasmaWindowSignals.ParentCanVanishSilently | src/client/plasmawindowmanagement.cpp:94 | a concrete run in which a window loses its parent and no parentWindowChanged is emitted |
| PlasmaWindowSignals.ActiveWindowIsListed | src/client/plasmawindowmanagement.cpp:267-295 | in every reachable state a non-null `activeWindow` is in the list, mapped and active |
| PlasmaWindowFocus.ActiveIsLastActivated | src/client/plasmawindowmanagement.cpp:279-295 | over every run, orderly or not, `activeWindow` is w if and only if w was the last mapped window to be activated and has not been deactivated, unmapped or deleted since |
| PlasmaWindowSignals.ActiveWindowExact | src/client/plasmawindowmanagement.h:150-155 | if `activeWindow` is exactly the active mapped window, it is so after an event if and only if the event does not activate a mapped window while another one is active |
| PlasmaWindowSignals.OrderlyRunsAreExact | src/client/plasmawindowmanagement.h:150-155 | over every run in which the server deactivates the old window first, `activeWindow` is the one active mapped window, and null if there is none |
| PlasmaWindowSignals.ActiveWindowCanBeLost | src/client/plasmawindowmanagement.cpp:279-295 | a concrete run in the other order after which an active mapped window exists and `activeWindow` is null |
| PlasmaWindows.PlasmaWindowModel.RemoveWindow | src/client/plasmawindowmodel.cpp:45-52 | removes the first row of the window, if any, and announces exactly that row |
| PlasmaWindows.PlasmaWindowModel.InsertRow | src/client/plasmawindowmodel.cpp:40-43 | the window becomes the last row and exactly that row is announced |
| PlasmaWindows.PlasmaWindowModel.Reset | src/client/plasmawindowmodel.cpp:168-172 | all rows go with one reset |
| PlasmaWindows.PlasmaWindowManagement.Data | src/client/plasmawindowmodel.cpp:203-266 | what a fresh read of a row and role returns in the current state; an invalid value outside the rows |
| PlasmaWindows.PlasmaWindowManagement.NotifyModel | src/client/plasmawindowmodel.cpp:158-162 | step: emits one dataChanged for the window's row, with an invalid index if it has none |
| PlasmaWindows.PlasmaWindowManagement.EmitToModel | src/client/plasmawindowmodel.cpp:57-155 | step: a signal of a window runs every subscription that addWindow made for it, no more and no fewer |
| PlasmaWindows.PlasmaWindowManagement.FollowActive | src/client/plasmawindowmanagement.cpp:279-295 | step: the manager's reaction to activeChanged makes the step of the state |
| PlasmaWindows.PlasmaWindowManagement.SetFlag | src/client/plasmawindowmanagement.cpp:739-908 | step: a setter writes the flag and emits its signal only on change |
| PlasmaWindows.PlasmaWindowManagement.StateChanged | src/client/plasmawindowmanagement.cpp:644-667 | step: all nineteen setters run in order, each on the state the one before left |
| PlasmaWindows.PlasmaWindowManagement.TitleChanged | src/client/plasmawindowmanagement.cpp:540-550 | step: stores and announces a new title, ignores the same one |
| PlasmaWindows.PlasmaWindowManagement.AppIdChanged | src/client/plasmawindowmanagement.cpp:552-562 | step: stores and announces a new id, ignores the same one |
| PlasmaWindows.PlasmaWindowManagement.IconChanged | src/client/plasmawindowmanagement.cpp:725-735 | step: stores the icon and announces it, changed or not |
| PlasmaWindows.PlasmaWindowManagement.GeometryChanged | src/client/plasmawindowmanagement.cpp:501-511 | step: stores and announces a new geometry, ignores the same one |
| PlasmaWindows.PlasmaWindowManagement.VirtualDesktopEntered | src/client/plasmawindowmanagement.cpp:602-612 | step: appends the desktop, announces it, and announces all-desktops when the list stops being empty |
| PlasmaWindows.PlasmaWindowManagement.VirtualDesktopLeft | src/client/plasmawindowmanagement.cpp:614-624 | step: removes every occurrence, announces it, and announces all-desktops when the list is empty |
| PlasmaWindows.PlasmaWindowManagement.PidChanged | src/client/plasmawindowmanagement.cpp:564-572 | step: writes the pid and emits nothing |
| PlasmaWindows.PlasmaWindowManagement.SetParentWindow | src/client/plasmawindowmanagement.cpp:513-529 | step: disconnects by the old handle, then attaches to a mapped parent or detaches, and signals a changed pointer |
| PlasmaWindows.PlasmaWindowManagement.ParentWindow | src/client/plasmawindowmanagement.cpp:490-499 | step: the parent becomes the listed window that wraps the native object, or null |
| PlasmaWindows.PlasmaWindowManagement.FindNativeWindow | src/client/plasmawindowmanagement.cpp:490-499 | the first window of the list that wraps the native object, or none |
| PlasmaWindows.PlasmaWindowManagement.AddRow | src/client/plasmawindowmodel.cpp:34-55 | step: a window without a row gets the last one and one more set of subscriptions |
| PlasmaWindows.PlasmaWindowManagement.ForgetRow | src/client/plasmawindowmodel.cpp:45-55 | step: unmapped and destroyed take the row away |
| PlasmaWindows.PlasmaWindowManagement.ForgetWindow | src/client/plasmawindowmanagement.cpp:267-273 | step: removes every occurrence from the list and resets `activeWindow` with its signal |
| PlasmaWindows.PlasmaWindowManagement.CreateWindowModel | src/client/plasmawindowmodel.cpp:164-181 | step: the new model has a row for every window of the manager, in order |
| PlasmaWindows.PlasmaWindowManagement.WindowCreated | src/client/plasmawindowmanagement.cpp:258-296 | step: a new window joins the end of the list with the manager's subscription |
| PlasmaWindows.PlasmaWindowManagement.InitialState | src/client/plasmawindowmanagement.cpp:531-538 | step: an unmapped window stays out; any other is announced and gets its row |
| PlasmaWindows.PlasmaWindowManagement.RunSlots | src/client/plasmawindowmanagement.cpp:275-278 | step: delivery runs the subscriptions present at emission in order, skipping those disconnected meanwhile |
| PlasmaWindows.PlasmaWindowManagement.UnmappedCallback | src/client/plasmawindowmanagement.cpp:593-600 | step: marks the window and delivers `unmapped` |
| PlasmaWindows.PlasmaWindowManagement.DeleteWindow | src/client/plasmawindowmanagement.cpp:275-278 | step: the deletion of a window, deferred after `unmapped` or at any other time: the slots of `destroyed` run, pointers to the window become null and its subscriptions vanish |
| PlasmaWindows.PlasmaWindowManagement.Release | src/client/plasmawindowmanagement.cpp:376-383 | step: a bound manager resets the model before it unbinds; an unbound one does nothing |
| PlasmaWindows.PlasmaWindowManagement.Destroy | src/client/plasmawindowmanagement.cpp:367-374 | step: a bound manager announces and unbinds; rows stay |
| PlasmaWindows.PlasmaWindowManagement.Setup | src/client/plasmawindowmanagement.cpp:175-180 | step: binds the manager |
| PlasmaWindows.PlasmaWindowManagement.Deliver | src/client/plasmawindowmanagement.cpp:258-296 | the objects after any possible event are what the run over all events so far leads to |
| PlasmaWindows.PlasmaWindowManagement.ActiveWindow | src/client/plasmawindowmanagement.h:150-155 | what is returned is listed, mapped and active; in an orderly run it is every active mapped window |
| PlasmaWindows.PlasmaWindowManagement.ParentWindowOf | src/client/plasmawindowmanagement.cpp:513-529 | the parent returned is listed and mapped |
| PlasmaWindows.PlasmaWindowManagement.RowCount | src/client/plasmawindowmodel.cpp:276-279 | the number of rows is that of the windows admitted by the events so far |
| StackingOrderStates.SplitJoin | src/client/plasmawindowmanagement.cpp:305-310 | a list of uuids without separators survives being joined by the server and split by the client |
| StackingOrderStates.JoinSplit | src/client/plasmawindowmanagement.cpp:305-310 | splitting loses nothing: joining the parts gives the string back |
| StackingOrderStates.PublishedIsComplete | src/client/plasmawindowmanagement.cpp:312-345 | however objects interleave, the published list is the complete list of the event that published last: all windows told to that object, in order, or the parts of the string |
| StackingOrderStates.OthersDoNotMatter | src/client/plasmawindowmanagement.cpp:312-317 | what an object has collected after any run is what it would have collected alone: every event of other objects or of whole lists can be left out |
| StackingOrderStates.EmptyUntilPublished | src/client/plasmawindowmanagement.cpp:347-354 | nothing partial is ever shown before the first finished list |
| StackingOrderStates.SignalExactlyOnChange | src/client/plasmawindowmanagement.cpp:347-354 | the change signal fires exactly when the published list differs from the one before |
| StackingOrders.StackingOrder.StackingOrderDone | src/client/plasmawindowmanagement.cpp:319-327 | publishes exactly the finished object's complete list |
| StackingOrders.StackingOrder.StackingOrderUuids | src/client/plasmawindowmanagement.cpp:305-310 | step: the parts of the string between separators become the list |
| StackingOrders.StackingOrder.StackingOrder2 | src/client/plasmawindowmanagement.cpp:334-345 | step: a new object starts with an empty list |
| StackingOrders.StackingOrder.StackingOrderWindow | src/client/plasmawindowmanagement.cpp:312-317 | step: the uuid joins the list of its object only |
| StackingOrders.StackingOrder.SetStackingOrder | src/client/plasmawindowmanagement.cpp:347-354 | step: an equal list changes nothing; another one is stored with one signal |
| ShmPoolTheorems.EveryByteHasOneOwner | src/client/shm_pool.cpp:263-280 | over every run the bytes below the offset, and only they, belong to a buffer, each to exactly one, and the offset never passes the size |
| ShmPoolTheorems.SlackIsConserved | src/client/shm_pool.cpp:62-105 | over every run the room left at the end plus what went into buffers without growth equals the room at setup plus what refused requests added |
| ShmPoolTheorems.SlackIsBounded | src/client/shm_pool.cpp:263-280 | the room left is within the pool's size at setup if and only if no more was lost than carved; it is whenever no growth ended without a buffer, whatever else was refused |
| ShmPoolTheorems.ContentsAreIsolated | src/client/shm_pool.cpp:158-174 | over every run the buffers of the one byte region hold exactly what separate memories would, across allocation, reuse and growth; new memory is zero |
| ShmPoolTheorems.CreatedContentsStay | src/client/shm_pool.cpp:214-225 | a buffer made from raw bytes holds those bytes until something is written to that very buffer |
| ShmPoolTheorems.HandedOutAfterRelease | src/client/shm_pool.cpp:252-262 | between two hand-outs of the same buffer it was released |
| ShmPoolTheorems.HandedIsBusy | src/client/shm_pool.cpp:252-262 | a buffer handed out matches size, stride and format exactly, was released and not used before, and is not released after |
| ShmPoolTheorems.FirstFitExact | src/client/shm_pool.cpp:250-281 | the first buffer that qualifies is handed out; a new one if and only if none qualifies and the system refuses nothing; none if and only if it refuses |
| ShmHandouts.BuffersAreSaid | src/client/buffer.cpp:46-113 | over every run a buffer exists if and only if it was handed out since the pool was last emptied, has the shape asked for, and is released or used by the last word on it: the release event, a hand-out, or its user |
| ShmHandouts.RequestsAreServedExactly | src/client/shm_pool.cpp:250-281 | by the events alone: a request gets the first buffer of its shape whose last word is released and not used; without one a new buffer behind all others, if and only if it fits or the file grows and maps, and the native buffer is made |
| ShmHandouts.RequestsGrowExactly | src/client/shm_pool.cpp:263-280 | the size grows by the bytes asked for exactly if no buffer qualifies, they do not fit and ftruncate succeeds; the offset moves exactly with a new buffer |
| ShmHandouts.CreateIsServedAlike | src/client/shm_pool.cpp:214-225 | a request with raw bytes is served like one without, bytes aside, and does nothing for an empty size or an invalid pool |
| ShmHandouts.UsedIsNotHandedOut | src/client/buffer.cpp:110-113 | a buffer marked as used is handed out to nobody until it is marked as unused or the pool is emptied |
| ShmHandouts.LifeIsSaid | src/client/shm_pool.cpp:62-105 | the pool is bound since its last setup until release or destroy, and valid if that setup succeeded |
| ShmPools.ShmPool.ResizePool | src/client/shm_pool.cpp:158-174 | a refused ftruncate changes nothing; otherwise the size moves even if mapping fails, the bytes stay and the new ones are zero |
| ShmPools.ShmPool.CopyBytes | src/client/buffer.cpp:60-68 | copying changes exactly the bytes of the target range |
| ShmPools.ShmPool.FindFree | src/client/shm_pool.cpp:252-262 | the loop finds the first buffer that is released, unused and of the same shape, or none |
| ShmPools.ShmPool.Find | src/client/shm_pool.cpp:250-281 | step: the buffer handed out and the pool left behind are those of the request |
| ShmPools.ShmPool.Write | src/client/buffer.cpp:65-68 | step: writing through the address reaches the bytes of that buffer only |
| ShmPools.ShmPool.SetUsed | src/client/buffer.cpp:110-113 | step: marks that buffer only |
| ShmPools.ShmPool.GetBuffer | src/client/shm_pool.cpp:241-281 | step: the call hands out what its event hands out in the run so far |
| ShmPools.ShmPool.CreateBuffer | src/client/shm_pool.cpp:214-225 | step: the same for a request with raw bytes, which does nothing for an empty size or an invalid pool |
| ShmPools.ShmPool.SetReleased | src/client/buffer.cpp:46-51 | step: the release event marks the buffer |
| ShmPools.ShmPool.Setup | src/client/shm_pool.cpp:99-156 | step: setup keeps the size the pool had grown to and starts with a zero file |
| ShmPools.ShmPool.Release | src/client/shm_pool.cpp:62-97 | step: release and destroy drop buffers and offset but not the size |
| OutputModes.ListIsSurvivors | src/client/output.cpp:204-240 | intended behaviour: after any run the list holds, in order of arrival, the modes that no later current event repeats, and only the one of the last current event carries the flag |
| OutputModes.CurrentIsUnique | src/client/output.cpp:218-234 | intended behaviour: at most one entry is current; there is one exactly if currentMode is set, and they are equal |
| OutputModes.CurrentModeIsLast | src/client/output.cpp:310-367 | intended behaviour: currentMode is the last mode announced as current, and unset exactly if there was none |
| OutputModes.DistinctExactly | src/client/output.cpp:226-231 | intended behaviour: an event keeps all pairs of size and refresh rate distinct if and only if it is current or brings a new pair |
| OutputModes.FreshRuns | src/client/output.cpp:235-239 | intended behaviour: while non-current events bring new pairs, the entries are distinct and as many as modeAdded signals |
| OutputModes.ListenersKnowTheList | src/client/output.cpp:222-239 | intended behaviour: then a listener to modeAdded and modeChanged knows exactly the list, flags included |
| OutputModes.EventTellsExactly | src/client/output.cpp:218-239 | intended behaviour: an event tells first that the mode that was current is so no longer, if it replaces one, and then of its own mode: as changed if it becomes current and is in the list, as added otherwise |
| OutputModes.FlagsAreBits | src/client/output.cpp:206-215 | bit 0 of the flags says current, bit 1 preferred, and no other matters |
| OutputModeLoop.AddModeExact | src/client/output.cpp:204-240 | the code as written: it reads past the end of the list if and only if the mode is current and erasing its older entries moves the appended one; otherwise it does exactly what is intended |
| OutputModeLoop.MovesExactly | src/client/output.cpp:226-228 | that is so, if every erase moves what follows, exactly when the mode is in the list; if erasing the first entry only moves the beginning, exactly when another mode precedes an entry of it |
| OutputModeLoop.WrittenRunsExact | src/client/output.cpp:204-240 | a run of the code is defined if and only if no event makes a mode current whose surviving older announcements, when erased, move the appended entry, and then it is the intended run |
| OutputModeLoop.HarmlessIsNeverAgain | src/client/output.cpp:226-228 | if every erase moves what follows, that is a run in which no event makes a mode current that was announced before |
| OutputModeLoop.LoopRunsOut | src/client/output.cpp:219-232 | once the appended entry has moved the loop erases it too and never meets its iterator within the list |
| OutputModeLoop.SecondModeCannotBecomeCurrent | src/client/output.cpp:216-233 | a concrete run that reads past the end whatever an erase moves: two modes, then the second becomes current |
| OutputModeLoop.FirstModeDependsOnTheList | src/client/output.cpp:216-233 | the first of two modes can become current exactly if erasing the first entry only moves the beginning of the list |
| Outputs.Output.MakeCurrent | src/client/output.cpp:219-233 | intended behaviour: the loop with erasure in place leaves the swept list, with the signals in order; it terminates on the distance to the appended entry |
| Outputs.Output.LoopAsWritten | src/client/output.cpp:219-232 | the loop as written, on the list in place, under either effect of erasing the first entry: it completes with the result of the loop function or stops where it would read past the end |
| Outputs.Output.AddModeAsWritten | src/client/output.cpp:204-240 | the callback as written: it succeeds if and only if the mode is not current or erasing its older entries leaves the appended one in place, and then makes the intended step |
| Outputs.Output.AddMode | src/client/output.cpp:204-240 | intended behaviour: the entry is appended, older ones of the same mode go if it is current, and the one signal tells a new mode from a changed one |
| Outputs.Output.PixelSize | src/client/output.cpp:353-359 | intended behaviour: the size of the last current event, or an invalid size if there was none |
| Outputs.Output.RefreshRate | src/client/output.cpp:361-367 | intended behaviour: the refresh rate of the last current event, or zero |
| Outputs.Output.Geometry | src/client/output.cpp:310-316 | intended behaviour: the global position with the size of the last current event, or an empty rectangle |
| TouchSequences.GrammarExact | src/client/touch.h:137-168 | the signals of a run form (start (added, moved, removed)* (end or cancel))* if and only if each event was acceptable when it came, and then tell whether the sequence is open |
| TouchSequences.CancelsCanRepeat | src/client/touch.cpp:220-226 | concrete runs that break the form: a second cancel, and a motion of a point left down by a cancel |
| TouchSequences.SignalsCountPoints | src/client/touch.cpp:174-193 | whatever the server sends, points down are started plus added minus removed, and sequenceEnded follows exactly the removals that bring that to zero |
| TouchSequences.MotionTellsItsPoint | src/client/touch.cpp:202-211 | a motion is told once, of exactly the point it moves: the first one down under its id, which gains the position and the time; every other point and everything else stays; without such a point nothing happens |
| TouchSequences.UpTellsItsPoint | src/client/touch.cpp:174-193 | an up event is told once, of exactly the point that stops being down, which gains the time and the serial; the end of the sequence follows if and only if no point is left down |
| TouchSequences.DownTellsItsPoint | src/client/touch.cpp:136-154 | a down event is told once, of exactly the point just appended, with its id, serial, surface, position and time; the earlier points stay or, if no sequence was going on, are gone |
| TouchSequences.FrameAndCancelTell | src/client/touch.cpp:213-226 | a frame and a cancel are told and touch no point; a cancel closes the sequence |
| TouchSequences.UniqueExactly | src/client/touch.h:32-37 | ids of points down stay unique after an event if and only if a new point of an open sequence gets an id no point down has |
| TouchSequences.PointsKeepTracks | src/client/touch.cpp:136-211 | with fresh ids every point down has recorded exactly the positions and times sent for its id since it went down |
| TouchSequences.EveryPositionHasATime | src/client/touch.h:50-54 | whatever the server sends, a point has a timestamp for every position, and one more once it is up |
| Touches.Touch.Down | src/client/touch.cpp:136-154 | step: starts a new sequence, dropping the old points, or extends the open one |
| Touches.Touch.GetActivePoint | src/client/touch.cpp:156-165 | the first point of that id that is down |
| Touches.Touch.Up | src/client/touch.cpp:174-193 | step: lifts the point with one signal and ends the sequence if none is down |
| Touches.Touch.Motion | src/client/touch.cpp:202-211 | step: records position and time of the point |
| Touches.Touch.Cancel | src/client/touch.cpp:220-226 | step: closes the sequence and leaves its points |
| Touches.Touch.Frame | src/client/touch.cpp:213-218 | step: announces the frame and changes nothing else |
| TextInputStates.VersionsAreEquivalent | src/client/textinput_v0.cpp:72-232 | on every stream of corresponding events both versions show the same preedit, commit, panel, language, direction and signals |
| TextInputStates.DeletionExact | src/client/textinput_v0.cpp:161-167 | index = -before and length = before + after, modulo 2^32, ask for that deletion in version 0, and a deletion can be asked for if and only if before is at most 2^31 - 1 |
| TextInputStates.PreEditIsItsBatch | src/client/textinput_v2.cpp:116-146 | a preedit string publishes its texts with the last cursor sent since the previous one, or the end of the text |
| TextInputStates.CommitIsItsBatch | src/client/textinput_v2.cpp:148-178 | a commit string publishes its text with the last cursor and deletion sent since the previous one and zeros for the rest; the first batch is no exception |
| TextInputStates.PreEditIsItsBatch0 | src/client/textinput_v0.cpp:106-137 | the same of version 0 for the preedit, on every stream |
| TextInputStates.CommitIsItsBatch0 | src/client/textinput_v0.cpp:139-167 | the same of version 0 for the commit, whatever numbers its deletions carry |
| TextInputStates.SameBatchShowsTheSame | src/client/textinput_v2.cpp:116-146 | after any past that is empty or ends in a preedit string, a batch makes a client show the preedit that a new client would show |
| TextInputStates.SameBatchCommitsTheSame | src/client/textinput_v2.cpp:148-178 | after any past that is empty or ends in a commit string, a batch makes a client show the commit that a new client would show |
| TextInputStates.ShownIsLastSaid | src/client/textinput_v2.cpp:76-247 | over every run of version 2 surface, serial, panel, language, direction, preedit and commit are what the last event about each said |
| TextInputStates.ShownIsLastSaid0 | src/client/textinput_v0.cpp:72-232 | the same of version 0, which keeps no serial |
| TextInputStates.Deletion0Exact | src/client/textinput_v0.cpp:161-167 | for any numbers, the deletion of version 0 starts as far back as the index says in absolute value, and before and after together are the length modulo 2^32 |
| TextInputStates.SignalsExactly2 | src/client/textinput_v2.cpp:76-247 | language and direction are announced exactly on change, the panel exactly when the number differs from the flag; every string, enter and leave is announced, and a key event with what it carries if its state is known |
| TextInputs.TextInputUnstableV0.constructor | src/client/textinput.cpp:12-19 | a new object is what the empty run leads to: nothing pending, all lengths zero |
| TextInputs.TextInputUnstableV0.DeleteSurroundingText | src/client/textinput_v0.cpp:161-167 | step: the callback makes the version 0 step, with unsigned wrap-around |
| TextInputs.TextInputUnstableV0.PreEditString | src/client/textinput_v0.cpp:106-119 | step: publishes the pending preedit and starts an empty one |
| TextInputs.TextInputUnstableV0.CommitString | src/client/textinput_v0.cpp:139-151 | step: publishes the pending commit and starts an empty one |
| TextInputs.TextInputUnstableV0.Enter | src/client/textinput_v0.cpp:72-78 | step: stores the surface |
| TextInputs.TextInputUnstableV0.Leave | src/client/textinput_v0.cpp:80-86 | step: forgets the surface |
| TextInputs.TextInputUnstableV0.InputPanelState | src/client/textinput_v0.cpp:96-104 | step: compares the flag with the number on the wire |
| TextInputs.TextInputUnstableV0.PreEditCursor | src/client/textinput_v0.cpp:131-137 | step: sets the pending cursor |
| TextInputs.TextInputUnstableV0.CursorPosition | src/client/textinput_v0.cpp:153-159 | step: sets the pending cursor and anchor of the commit |
| TextInputs.TextInputUnstableV0.Keysym | src/client/textinput_v0.cpp:169-195 | step: announces a key with a known state and ignores any other |
| TextInputs.TextInputUnstableV0.Language | src/client/textinput_v0.cpp:197-206 | step: stores and announces a new language only |
| TextInputs.TextInputUnstableV0.TextDirection | src/client/textinput_v0.cpp:208-232 | step: stores and announces a new direction only, ignoring unknown numbers |
| TextInputs.TextInputUnstableV2.constructor | src/client/textinput.cpp:12-19 | the same of version 2 |
| TextInputs.TextInputUnstableV2.DeleteSurroundingText | src/client/textinput_v2.cpp:169-178 | step: the callback makes the version 2 step |
| TextInputs.TextInputUnstableV2.PreEditString | src/client/textinput_v2.cpp:116-128 | step: publishes the pending preedit and starts an empty one |
| TextInputs.TextInputUnstableV2.CommitString | src/client/textinput_v2.cpp:148-159 | step: publishes the pending commit and starts an empty one |
| TextInputs.TextInputUnstableV2.InputPanelState | src/client/textinput_v2.cpp:95-114 | step: compares the flag with the number on the wire, so any number but 0 and 1 is always a change |
| TextInputs.TextInputUnstableV2.Enter | src/client/textinput_v2.cpp:76-83 | step: stores serial and surface |
| TextInputs.TextInputUnstableV2.Leave | src/client/textinput_v2.cpp:85-93 | step: stores the serial and forgets the surface |
| TextInputs.TextInputUnstableV2.PreEditCursor | src/client/textinput_v2.cpp:140-146 | step: sets the pending cursor |
| TextInputs.TextInputUnstableV2.CursorPosition | src/client/textinput_v2.cpp:161-167 | step: sets the pending cursor and anchor of the commit |
| TextInputs.TextInputUnstableV2.Keysym | src/client/textinput_v2.cpp:188-212 | step: announces a key with a known state and ignores any other |
| TextInputs.TextInputUnstableV2.Language | src/client/textinput_v2.cpp:214-222 | step: stores and announces a new language only |
| TextInputs.TextInputUnstableV2.TextDirection | src/client/textinput_v2.cpp:224-247 | step: stores and announces a new direction only, ignoring unknown numbers |
| SurroundingText.SliceIsEncodingOfSlice | src/client/textinput_v2.cpp:319-327 | for any text and indices that split no surrogate pair, cutting the encoded text at their offsets gives the encoding of the text between |
| SurroundingText.SelectionIsExact | src/client/textinput_v0.cpp:284-292 | the offset of a request that is no index into a pair has before it exactly the UTF-8 of the text before cursor or anchor, and between the two offsets is that of the text between |
| SurroundingText.ServerReadsTheSelection | src/client/textinput_v2.cpp:319-327 | a server that decodes the request reads the text, before each offset the text before the index, and between the offsets the selection |
| SurroundingText.PrefixExact | src/client/textinput_v2.cpp:319-327 | the bytes before an offset encode the text before the index if and only if the index splits no surrogate pair |
| SurroundingText.OffsetsAreMonotone | src/client/textinput_v2.cpp:319-327 | offsets grow with indices, even inside a pair, and never pass the end of the encoded text |
| SurroundingText.OffsetInSentTextExact | src/client/textinput_v2.cpp:324-326 | an offset, for any index, lies within the string the server receives if and only if no U+0000 comes before the index |
| SurroundingText.SentTextExact | src/client/textinput_v2.cpp:324 | what the server receives is the encoding of the text up to its first U+0000 |
| SurroundingText.OffsetInPair | src/client/textinput_v2.cpp:325-326 | an index inside a surrogate pair counts what stands for its first half |
| SurroundingText.OffsetCanBeBeyond | src/client/textinput_v2.cpp:324-326 | a concrete text, U+0000 and a letter, whose end offset is beyond the string the server receives |
| SurroundingText.OffsetCanCutPair | src/client/textinput_v2.cpp:325 | a concrete index inside a pair whose offset cuts a character |
| SurroundingText.DecodeEncode | src/client/textinput_v2.cpp:324 | decoding by the rules of section 3 of RFC 3629 gives well-formed text back |
| SurroundingText.EncodeDecode | src/client/textinput_v2.cpp:324 | and nothing decodes that is not the encoding of well-formed text |
| XdgToplevelStates.DecodeDependsOnKnownNumbers | src/client/xdgshell_stable.cpp:310-326 | two state arrays decode to the same states if and only if the same known numbers occur in them |
| XdgToplevelStates.TwoPhasesMatchOne | src/client/xdgshell_v6.cpp:277-314 | on every stream in which each surface configure concludes a toplevel configure, versions 6 and stable show the size and the signals that version 5 shows for the last toplevel configure of each batch |
| XdgToplevelStates.BareConfigure | src/client/xdgshell_stable.cpp:292-302 | otherwise the request carries no states, and the null size if the last toplevel configure left the size to the client, else an invalid one, which then becomes the size |
| XdgToplevelStates.SizeIsAnnounced | src/client/xdgshell.cpp:292-299 | size() is always the last size announced, and no announcement repeats the one before |
| XdgToplevelStates.EventsTellExactly5 | src/client/xdgshell_v5.cpp:158-198 | version 5: a configure event asks once for its size, its serial and exactly the states whose numbers it carries, and the size follows if and only if it is not null and another one |
| XdgToplevelStates.EventsTellExactly | src/client/xdgshell_stable.cpp:292-328 | versions 6 and stable: nothing is told before the surface configure, which asks for exactly the size and the states of the latest toplevel configure, in the same way |
| XdgToplevels.DecodeStates | src/client/xdgshell_v5.cpp:167-185 | the loop collects exactly the states whose number occurs in the array |
| XdgToplevels.XdgShellSurface.SetSize | src/client/xdgshell.cpp:292-299 | a new size is stored and announced; the same size does nothing |
| XdgToplevels.XdgShellSurfaceUnstableV5.Configure | src/client/xdgshell_v5.cpp:158-191 | step: the one-phase callback makes the version 5 step |
| XdgToplevels.XdgShellSurfaceUnstableV5.Close | src/client/xdgshell_v5.cpp:193-198 | step: announces the request |
| XdgToplevels.XdgTopLevel.Configure | src/client/xdgshell_v6.cpp:289-314 | step: the toplevel callback only stores what is pending |
| XdgToplevels.XdgTopLevel.SurfaceConfigure | src/client/xdgshell_stable.cpp:292-302 | step: the surface callback applies what is pending and resets it |
| XdgToplevels.XdgTopLevel.Close | src/client/xdgshell_stable.cpp:331-336 | step: announces the request and leaves what is pending |
| RegionStates.ServerMirrorsClient | src/client/region.cpp:36-64 | over every run of additions, subtractions, releases and new setups, with empty rectangles or not, while the wrapper is valid the server's region has exactly the points of the client's, in whatever rectangles it was sent |
| RegionStates.ClientIsExact | src/client/region.cpp:99-121 | a point is in the client's region if and only if the last addition or subtraction that concerns it added it; no rectangle is empty |
| RegionStates.RequestsAreProper | src/client/region.cpp:87-121 | the server is told of an empty rectangle if and only if one was passed alone while the wrapper was valid; the decomposition of regions never makes one |
| RegionStates.ValidExactly | src/client/region.cpp:77-92 | the wrapper is valid since the last setup until it is released |
| RegionStates.SendsExactly | src/client/region.cpp:36-121 | while it is valid every change is sent exactly once, one request for each rectangle that was passed, in order |
| Regions.Region.InstallRegion | src/client/region.cpp:44-49 | one add request for each rectangle, in order, and none while invalid |
| Regions.Region.UninstallRegion | src/client/region.cpp:59-64 | one subtract request for each rectangle, in order, and none while invalid |
| Regions.Region.Setup | src/client/region.cpp:87-92 | step: a new server region is told any non-empty rectangles that make up the client's region |
| Regions.Region.AddRegion | src/client/region.cpp:105-109 | step: the rectangles join the client's region and are sent one by one while valid |
| Regions.Region.SubtractRegion | src/client/region.cpp:117-121 | step: the rectangles are cut out of the client's region and sent one by one while valid |
| Regions.Region.AddRect | src/client/region.cpp:99-103 | step: the rectangle joins the client's region unless it is empty, and is sent as it is while valid |
| Regions.Region.SubtractRect | src/client/region.cpp:111-115 | step: the rectangle is cut out of the client's region and sent as it is while valid |
| Regions.Region.Release | src/client/region.cpp:77-85 | step: no server region any more; the client keeps its own |
| SurfaceOutputStates.SignalsCountEntries | src/client/surface.cpp:89-116 | over every run entered minus left is an output's multiplicity in the list, and its removal subscriptions are as many as it was entered, hence at least that |
| SurfaceOutputStates.RemovalIsComplete | src/client/surface.cpp:105-107 | when an output is removed all its entries go, with one left signal for each, and the rest of the list keeps its order |
| SurfaceOutputStates.EventsMoveOneEntry | src/client/surface.cpp:89-116 | an entered output joins the end of the list, a left one loses its first entry, each with one signal; the order of the others stays |
| SurfaceOutputStates.RemovalTellsOnly | src/client/surface.cpp:105-107 | a removal tells of nothing but the removed output having been left |
| SurfaceOutputs.Surface.EnterCallback | src/client/surface.cpp:96-109 | step: a known output joins the list with one signal and one removal subscription; an unknown one is ignored |
| SurfaceOutputs.Surface.LeaveCallback | src/client/surface.cpp:111-116 | step: a known output loses one entry with one signal and keeps its subscriptions; an unknown one is ignored |
| SurfaceOutputs.Surface.RemoveOutput | src/client/surface.cpp:89-94 | step: takes away the first entry with one signal, or does nothing |
| SurfaceOutputs.Surface.OutputRemoved | src/client/surface.cpp:89-107 | the surface has left the output completely |
| RegistryGlobals.GlobalsAreLive | src/client/registry.cpp:495-532 | while names are unique among live globals, the stored list is exactly the known globals announced and not removed since, in announce order |
| RegistryGlobals.RemoveForgetsAllExactly | src/client/registry.cpp:518-532 | removing the first entry of a name forgets the name if and only if there is at most one |
| RegistryGlobals.InterfaceIsLatest | src/client/registry.cpp:554-561 | interface() is the last live announcement of the interface |
| RegistryGlobals.InterfacesAreLive | src/client/registry.cpp:542-552 | interfaces() is exactly the live globals of the interface, in announce order |
| RegistryGlobals.AnnounceTellsExactly | src/client/registry.cpp:495-516 | an announcement tells the signal of its interface, if that is known, and then the one for any interface |
| RegistryGlobals.RemoveTellsExactly | src/client/registry.cpp:518-532 | a removal tells the signal of the interface that the live global of that name has, if there is one, and then the one for any name |
| RegistryGlobals.NoInterface | src/client/registry.cpp:554-561 | and (0, 0) if nothing of the interface is live |
| RegistryGlobals.LookupsAgree | src/client/registry.cpp:534-572 | a live global is found under its name and among those of its interface |
| RegistryGlobals.BindExact | src/client/registry.cpp:590-594 | bind succeeds if and only if that global of that interface is live with at least the smaller of the supported and the requested version, and binds that version |
| RegistryGlobals.ListenersKnowTheGlobals | src/client/registry.cpp:495-532 | whatever the server announces, the announced and removed signals tell exactly the stored list |
| RegistryGlobals.NamesAndInterfaces | src/client/registry.cpp:484-492 | in a table with distinct names, a row's name leads to its interface and the interface to its supported version |
| Registries.Registry.HandleAnnounce | src/client/registry.cpp:495-516 | step: a global of a known interface is appended and announced; an unknown one is only passed on |
| Registries.Registry.HandleRemove | src/client/registry.cpp:518-532 | step: the first entry of the name goes and its removal is announced |
| Registries.Registry.NameToInterface | src/client/registry.cpp:484-492 | the interface of the row with that name, or unknown |
| Registries.Registry.HasInterface | src/client/registry.cpp:534-540 | true if and only if some stored global is of the interface |
| Registries.Registry.AllOf | src/client/registry.cpp:542-552 | the stored globals of the interface, in order |
| Registries.Registry.Interface | src/client/registry.cpp:554-561 | the last stored global of the interface, or zeros |
| Registries.Registry.InterfaceForName | src/client/registry.cpp:563-572 | with unique names, the interface of the live global of that name |
| Registries.Registry.Bind | src/client/registry.cpp:791-806 | a request is sent if and only if some stored global offers at least the version |
| Registries.Registry.BindCapped | src/client/registry.cpp:791-806 | the search and the version cap together bind exactly the bindable globals |

## Left out

- PlasmaWindows: a pointer to a window is the window's number, and parent pointers, connection tables and rows hold such numbers; aliasing of PlasmaWindow pointers is not modelled beyond that. Release or destroy of a single PlasmaWindow by the client is not an event; its deletion is.
- PlasmaWindow attributes that follow the pattern of title and appId (resource name, application menu, activities, client geometry, show desktop) and the requests of the model and of windows.
- CreateWindowModel: one model per manager; several models would each be such a model with its own subscriptions.
- StateChanged: the bits of the plasma window state are not decoded, because the protocol file is not part of this model; a state event carries the set of flags.
- IconChanged: the event is the arrival of an icon, a number here; pipes, threads and theme lookups are not modelled, nor the pipe that cannot be created, after which nothing happens.
- The deferred creation of windows by a zero timer: the creation itself is the event.
- OutputModes: the results describe the loop as intended, with `currentIt` staying on the appended entry; `OutputModeLoop` says when the code as written meets them. Listeners that copy the list or change it during a signal are not modelled.
- GetBuffer: requires a valid pool, which the original does not check; on another one it would send requests on objects that do not exist. The same holds of a copy into a pool whose mapping has failed; these are not events of the model.
- ShmPools: createBuffer from a QImage with its format conversion. Sizes are not negative and sums fit 32 bits, as the callers must ensure.
- ShmPools: the file is an array of bytes and a mapping a view on it; mmap, memfd and ftruncate are reduced to success or failure.
- Touches: positions are fixed-point numbers, surfaces are opaque numbers.
- TextInputs: the callbacks that the original leaves unimplemented are events without effect; requests other than setSurroundingText are left out. The absolute value of the smallest 32-bit integer is undefined in the original and excluded.
- TextInputStates: the numbers of text directions and key states come from protocol files that are not part of this model; an event carries the decoded enumerator or an unknown number.
- XdgToplevels: XdgTopLevelUnstableV6 and XdgTopLevelStable have the same code for configuration and share one class here. Popups, positioners and the other requests are left out.
- RegionStates: QRegion's own decomposition after a subtraction is replaced by another one with the same points; what is sent at setup may be any decomposition.
- SurfaceOutputs: an output object that is deleted without a removal signal leaves a dangling pointer in the original; that is not modelled.
- NamesAndInterfaces: the rows of the interface table are data and appear as a parameter; that the names of the real table are distinct is a condition.
- RegistryGlobals: the claims are for one lifetime of the registry, since the list is not cleared by release; wl_fixes and the factories that create wrappers are left out.
- StackingOrders: the guard for a manager that is gone when a stacking-order object finishes.
- XdgOutput, DataDevice, Seat, Dpms, virtual-desktop lists, pointer and keyboard wrappers, decorations, effects and the other wrappers: request forwarding or easier instances of the patterns above.
- Connections, event queues, threads and file watchers: input and output plumbing.
