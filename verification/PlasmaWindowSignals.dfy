/** The manager's signals fire exactly on change; when `activeWindow` is what its documentation says. */
module PlasmaWindowSignals {
  import opened Collections
  import opened PlasmaWindowData
  import opened PlasmaWindowWorld
  import opened PlasmaWindowCoherence
  import opened PlasmaWindowInvariants
  import opened PlasmaWindowSteps
  import opened PlasmaWindowTheorems

  // ---------- frames ----------

  lemma {:induction false} AddRowsFrame(s: World, ws: seq<WinId>)
    ensures var t := AddRows(s, ws);
            t.signals == s.signals && t.active == s.active && t.links.parent == s.links.parent
            && t.attrs == s.attrs && t.unmapped == s.unmapped
    decreases |ws|
  {
    if ws != [] {
      AddRowsFrame(s, ws[..|ws| - 1]);
    }
  }

  function Changed(b: bool): int {
    if b then 1 else 0
  }

  // The active window moves with one signal, or stays without any.
  ghost predicate ActiveTold(s: World, t: World) {
    Emitted(s, t, ActiveWindowChanged) == Changed(s.active != t.active)
  }

  ghost predicate ParentTold(s: World, t: World, c: WinId) {
    Emitted(s, t, ParentWindowChanged(c)) == Changed(ParentOf(s.links, c) != ParentOf(t.links, c))
  }

  lemma MovedTold(s: World, t: World, w: WinId, on: bool)
    requires w in s.attrs && MovesActive(s, t, w, on)
    ensures ActiveTold(s, t) && forall c :: ParentTold(s, t, c)
  {
    assert t.signals == s.signals + (if t.active != s.active then [ActiveWindowChanged] else []);
  }

  // stateChangedCallback, as far as the manager is concerned.
  lemma StateTold(s: World, w: WinId, state: set<StateFlag>)
    requires w in s.attrs
    ensures var t := SetFlags(s, w, state, SetterOrder());
            ActiveTold(s, t) && forall c :: ParentTold(s, t, c)
  {
    StateMovesActive(s, w, state);
    MovedTold(s, SetFlags(s, w, state, SetterOrder()), w, Active in state);
  }

  lemma ApplyTold(s: World, w: WinId, ch: Change)
    requires w in s.attrs
    ensures ActiveTold(s, Apply(s, w, ch)) && forall c :: ParentTold(s, Apply(s, w, ch), c)
  {
    if ch.State? {
      StateTold(s, w, ch.state);
    } else {
      ApplyQuiet(s, w, ch);
    }
  }

  // ---------- delivery of `unmapped` ----------

  // During delivery the active window can only go from w to none, with one signal.
  ghost predicate ActiveLeaves(s: World, t: World, w: WinId) {
    || (t.active == s.active && Emitted(s, t, ActiveWindowChanged) == 0)
    || (s.active == Some(w) && t.active == None && Emitted(s, t, ActiveWindowChanged) == 1)
  }

  lemma RunSlotActive(s: World, w: WinId, slot: Slot)
    ensures ActiveLeaves(s, RunSlot(s, w, slot), w)
    ensures RunSlot(s, w, slot).attrs == s.attrs && RunSlot(s, w, slot).unmapped == s.unmapped
  {
  }

  lemma {:induction false} RunSlotsActive(s: World, w: WinId, rest: seq<Slot>)
    ensures ActiveLeaves(s, RunSlots(s, w, rest), w)
    ensures RunSlots(s, w, rest).attrs == s.attrs && RunSlots(s, w, rest).unmapped == s.unmapped
    decreases |rest|
  {
    if rest != [] {
      RunSlotActive(s, w, rest[0]);
      RunSlotsActive(RunSlot(s, w, rest[0]), w, rest[1..]);
    }
  }

  lemma UnmapActive(s: World, w: WinId)
    requires Inv(s) && w in s.links.slots
    ensures var t := Unmap(s, w);
            && t.active == (if s.active == Some(w) then None else s.active) && ActiveTold(s, t)
            && t.attrs == s.attrs && t.unmapped == s.unmapped + {w}
  {
    var u, rest := MarkUnmapped(s, w), s.links.slots[w];
    RunSlotsActive(u, w, rest);
    UnmapKeeps(s, w);
    MappedAreListed(Unmap(s, w), w);
  }

  // ---------- exact signals ----------

  lemma DeleteActive(s: World, w: WinId)
    requires Inv(s)
    ensures var t := Delete(s, w);
            && t.active == (if s.active == Some(w) then None else s.active) && ActiveTold(s, t)
            && t.attrs == s.attrs - {w} && t.unmapped == s.unmapped - {w}
  {
    assert ActiveTold(s, ManagerForgets(s, w));
  }

  // activeWindowChanged fires exactly when activeWindow changes.
  lemma {:induction false} ActiveSignalExact(s: World, e: Event)
    requires Possible(s, e) && Inv(s)
    ensures ActiveTold(s, Step(s, e))
  {
    if e.ChangeEvent? {
      ApplyTold(s, e.w, e.change);
    } else if e.UnmappedEvent? {
      UnmapActive(s, e.w);
    } else if e.DeletedEvent? {
      DeleteActive(s, e.w);
    } else if e.CreateModelEvent? {
      AddRowsFrame(s.(model := Some(Model([], []))), s.windows);
    } else if e.ParentEvent? {
      SetParentTold(s, e.w, ParentTarget(s, e.parentNative), e.w);
    } else {
      OtherEventsTold(s, e);
    }
  }

  // Only two signals tell of the active window and of parents.
  lemma OtherSignalsTellNothing(s: World, t: World)
    requires t.active == s.active && t.links.parent == s.links.parent
    requires t.signals == s.signals || (|t.signals| == |s.signals| + 1 && t.signals[..|s.signals|] == s.signals
               && !t.signals[|s.signals|].ActiveWindowChanged? && !t.signals[|s.signals|].ParentWindowChanged?)
    ensures ActiveTold(s, t) && forall c :: ParentTold(s, t, c)
  {
    if t.signals != s.signals {
      assert t.signals == s.signals + [t.signals[|s.signals|]];
    }
  }

  lemma OtherEventsTold(s: World, e: Event)
    requires Possible(s, e)
    requires !e.ChangeEvent? && !e.UnmappedEvent? && !e.DeletedEvent? && !e.CreateModelEvent? && !e.ParentEvent?
    ensures ActiveTold(s, Step(s, e)) && forall c :: ParentTold(s, Step(s, e), c)
  {
    hide ActiveTold, ParentTold;
    OtherSignalsTellNothing(s, Step(s, e));
  }

  // Deletion makes the list and the rows forget the window, and the parent pointers to it become null
  // without a signal.
  lemma {:induction false} DeletedIsForgotten(s: World, w: WinId, c: WinId)
    requires Inv(s) && w in s.attrs
    ensures var t := Delete(s, w);
            && t.windows == Without(s.windows, w) && Rows(t) == Without(Rows(s), w) && w !in t.attrs
            && ParentOf(t.links, c)
               == (if c == w || ParentOf(s.links, c) == Some(w) then None else ParentOf(s.links, c))
            && Emitted(s, t, ParentWindowChanged(c)) == 0
  {
    ForgottenLists(s, w);
    WithoutAbsent([], w);
  }

  // parentWindowChanged of a window that stays fires exactly when its parent pointer changes, unless the
  // change is that the parent was deleted while it was one.
  lemma {:induction false} ParentSignalExact(s: World, e: Event, c: WinId)
    requires Possible(s, e) && Inv(s)
    requires !(e.DeletedEvent? && e.w == c)
    ensures ParentTold(s, Step(s, e), c) <==> !(e.DeletedEvent? && ParentOf(s.links, c) == Some(e.w))
  {
    if e.ChangeEvent? {
      ApplyTold(s, e.w, e.change);
    } else if e.UnmappedEvent? {
      UnmapClearsExactlyChildren(s, e.w, c);
    } else if e.DeletedEvent? {
      DeletedIsForgotten(s, e.w, c);
    } else if e.ParentEvent? {
      SetParentTold(s, e.w, ParentTarget(s, e.parentNative), c);
    } else if e.CreateModelEvent? {
      AddRowsFrame(s.(model := Some(Model([], []))), s.windows);
    } else {
      OtherEventsTold(s, e);
    }
  }

  lemma SetParentTold(s: World, w: WinId, p: Option<WinId>, c: WinId)
    requires Inv(s)
    ensures ActiveTold(s, SetParent(s, w, p)) && ParentTold(s, SetParent(s, w, p), c)
  {
    SetParentResult(s, w, p);
  }

  lemma Adopt(run: seq<Event>, s: World) returns (t: World)
    requires Outcome(run) == Some(s) && s.windows == [0, 1] && {0, 1} <= s.attrs.Keys && s.attrs[0].native == 10
    requires s.attrs[1].native == 11 && {0, 1} <= s.links.slots.Keys && s.unmapped == {}
    ensures Outcome(run + [ParentEvent(0, Some(11))]) == Some(t)
    ensures ParentOf(t.links, 0) == Some(1) && t.attrs == s.attrs
  {
    assert s.windows[1..] == [1];
    assert FindNative(s.windows, s.attrs, 11) == Some(1);
    Extend(run, ParentEvent(0, Some(11)));
    SetParentResult(s, 0, Some(1));
    t := SetParent(s, 0, Some(1));
  }

  lemma LoseParent(run: seq<Event>, s: World, w: WinId, c: WinId) returns (t: World)
    requires Outcome(run) == Some(s) && w in s.attrs && c != w && ParentOf(s.links, c) == Some(w)
    ensures Outcome(run + [DeletedEvent(w)]) == Some(t) && ParentOf(t.links, c) == None
    ensures Emitted(s, t, ParentWindowChanged(c)) == 0
  {
    hide Inv, Coherent, Delete, Emitted;
    RunKeeps(run);
    Extend(run, DeletedEvent(w));
    DeletedIsForgotten(s, w, c);
    t := Delete(s, w);
  }

  lemma NothingYet()
    ensures Outcome([]) == Some(Initial())
    ensures var s := Initial(); s.windows == [] && s.unmapped == {} && s.nextId == 0
  {
  }

  lemma TwoWindows() returns (s: World)
    ensures Outcome([] + [WindowEvent(10, 1, "a")] + [WindowEvent(11, 1, "b")]) == Some(s)
    ensures s.windows == [0, 1] && {0, 1} <= s.attrs.Keys && s.attrs[0].native == 10
    ensures s.attrs[1].native == 11 && {0, 1} <= s.links.slots.Keys && s.unmapped == {}
  {
    NothingYet();
    hide *;
    var t := NewWindow([], Initial(), 10, 1, "a");
    s := NewWindow([] + [WindowEvent(10, 1, "a")], t, 11, 1, "b");
    assert 0 in t.attrs && 0 in t.links.slots;
  }

  // A concrete run: a window loses its parent and nothing tells it.
  lemma ParentCanVanishSilently()
    ensures var run := [] + [WindowEvent(10, 1, "a")] + [WindowEvent(11, 1, "b")] + [ParentEvent(0, Some(11))];
            var s, t := Outcome(run), Outcome(run + [DeletedEvent(1)]);
            && s.Some? && ParentOf(s.value.links, 0) == Some(1)
            && t.Some? && ParentOf(t.value.links, 0) == None
            && Emitted(s.value, t.value, ParentWindowChanged(0)) == 0
  {
    hide *;
    var run := [] + [WindowEvent(10, 1, "a")] + [WindowEvent(11, 1, "b")];
    var s := TwoWindows();
    var t := Adopt(run, s);
    run := run + [ParentEvent(0, Some(11))];
    var u := LoseParent(run, t, 1, 0);
  }

  // ---------- the active window ----------

  // A non-null activeWindow is in the window list, mapped and active.
  lemma ActiveWindowIsListed(events: seq<Event>)
    requires Outcome(events).Some? && Outcome(events).value.active.Some?
    ensures var s := Outcome(events).value; var w := s.active.value;
            w in s.windows && w in s.attrs && w !in s.unmapped && Active in s.attrs[w].flags
  {
    RunKeeps(events);
    MappedAreListed(Outcome(events).value, Outcome(events).value.active.value);
  }

  ghost predicate MappedActive(s: World, w: WinId) {
    w in s.attrs && w !in s.unmapped && Active in s.attrs[w].flags
  }

  // What the documentation of activeWindow() promises.
  ghost predicate ActiveExact(s: World) {
    forall w: WinId :: MappedActive(s, w) <==> s.active == Some(w)
  }

  lemma MovedKeepsExactly(s: World, t: World, w: WinId, on: bool)
    requires Inv(s) && ActiveExact(s) && w in s.attrs && MovesActive(s, t, w, on)
    ensures ActiveExact(t) <==> !(on && w !in s.unmapped && s.active.Some? && s.active != Some(w))
  {
    MovedKeepsActive(s, t, w, on);
    MappedAreListed(s, w);
    forall x: WinId | x != w ensures MappedActive(t, x) == MappedActive(s, x) {
    }
    assert MappedActive(t, w) <==> w !in s.unmapped && on;
    if s.active.Some? && s.active != Some(w) && w !in s.unmapped && on {
      assert MappedActive(t, s.active.value) && MappedActive(t, w);
    }
  }

  lemma StateKeepsExactly(s: World, w: WinId, state: set<StateFlag>)
    requires Inv(s) && ActiveExact(s) && w in s.attrs
    ensures ActiveExact(SetFlags(s, w, state, SetterOrder())) <==>
      !(Active in state && w !in s.unmapped && s.active.Some? && s.active != Some(w))
  {
    StateMovesActive(s, w, state);
    MovedKeepsExactly(s, SetFlags(s, w, state, SetterOrder()), w, Active in state);
  }

  // The server activates a mapped window while another mapped window is still active.
  ghost predicate ActivatesSecond(s: World, e: Event) {
    e.ChangeEvent? && e.change.State? && Active in e.change.state
    && e.w !in s.unmapped && s.active.Some? && s.active != Some(e.w)
  }

  // The promise survives an event exactly unless the event activates a second window.
  lemma {:induction false} ActiveWindowExact(s: World, e: Event)
    requires Possible(s, e) && Inv(s) && ActiveExact(s)
    ensures ActiveExact(Step(s, e)) <==> !ActivatesSecond(s, e)
  {
    if e.ChangeEvent? && e.change.State? {
      StateKeepsExactly(s, e.w, e.change.state);
    } else {
      forall w: WinId ensures MappedActive(Step(s, e), w) <==> Step(s, e).active == Some(w) {
        ActiveElsewhere(s, e, w);
      }
    }
  }

  // Which windows are mapped and active depends on little of the state.
  lemma SameActive(s: World, t: World, w: WinId)
    requires t.active == s.active && t.unmapped == s.unmapped && t.attrs.Keys == s.attrs.Keys
    requires w in s.attrs ==> t.attrs[w].flags == s.attrs[w].flags
    requires MappedActive(s, w) <==> s.active == Some(w)
    ensures MappedActive(t, w) <==> t.active == Some(w)
  {
  }

  lemma NewWindowIsNotActive(s: World, native: nat, version: nat, uuid: string, w: WinId)
    requires Inv(s) && (MappedActive(s, w) <==> s.active == Some(w))
    ensures var t := AddWindow(s, native, version, uuid); MappedActive(t, w) <==> t.active == Some(w)
  {
    if w == s.nextId {
      assert s.active != Some(w);
    }
  }

  lemma ChangeKeepsActive(s: World, x: WinId, ch: Change, w: WinId)
    requires x in s.attrs && !ch.State? && (MappedActive(s, w) <==> s.active == Some(w))
    ensures MappedActive(Apply(s, x, ch), w) <==> Apply(s, x, ch).active == Some(w)
  {
    hide Apply;
    ApplyQuiet(s, x, ch);
    SameActive(s, Apply(s, x, ch), w);
  }

  lemma ActiveElsewhere(s: World, e: Event, w: WinId)
    requires Possible(s, e) && Inv(s) && !(e.ChangeEvent? && e.change.State?)
    requires MappedActive(s, w) <==> s.active == Some(w)
    ensures MappedActive(Step(s, e), w) <==> Step(s, e).active == Some(w)
  {
    hide RowsInv, ParentsInv, ConnsInv, HandlesOld, Subscribed, WindowsInv, Apply, Unmap, Delete, AddRows;
    match e
    case CreateModelEvent => AddRowsFrame(s.(model := Some(Model([], []))), s.windows);
    case UnmappedEvent(x) => UnmapActive(s, x);
    case DeletedEvent(x) => DeleteActive(s, x);
    case WindowEvent(native, version, uuid) => NewWindowIsNotActive(s, native, version, uuid, w);
    case ChangeEvent(x, ch) => ChangeKeepsActive(s, x, ch, w);
    case _ => SameActive(s, Step(s, e), w);
  }

  // A run in which the server always deactivates the old window first
  ghost predicate Orderly(events: seq<Event>)
    decreases |events|
  {
    events == [] ||
    (var before, e := events[..|events| - 1], events[|events| - 1];
     Orderly(before) && (Outcome(before).Some? ==> !ActivatesSecond(Outcome(before).value, e)))
  }

  // Then activeWindow is the one active mapped window whenever there is one, and null otherwise.
  lemma {:induction false} OrderlyRunsAreExact(events: seq<Event>)
    requires Outcome(events).Some? && Orderly(events)
    ensures ActiveExact(Outcome(events).value)
    decreases |events|
  {
    if events != [] {
      var before, e := events[..|events| - 1], events[|events| - 1];
      OrderlyRunsAreExact(before);
      RunKeeps(before);
      ActiveWindowExact(Outcome(before).value, e);
    }
  }

  // The failing order on a concrete run: the second of two windows is activated before the first is
  // deactivated, then deactivated. No window is reported although the first one is active.
  lemma ActiveWindowCanBeLost()
    ensures var events := [] + [WindowEvent(10, 1, "a")] + [WindowEvent(11, 1, "b")] + [ChangeEvent(0, State({Active}))]
                        + [ChangeEvent(1, State({Active}))] + [ChangeEvent(1, State({}))];
            Outcome(events).Some? && Outcome(events).value.active == None && MappedActive(Outcome(events).value, 0)
  {
    var run, s := [], Initial();
    s := NewWindow(run, s, 10, 1, "a");
    run := run + [WindowEvent(10, 1, "a")];
    s := NewWindow(run, s, 11, 1, "b");
    run := run + [WindowEvent(11, 1, "b")];
    s := Activate(run, s, 0, {Active});
    run := run + [ChangeEvent(0, State({Active}))];
    s := Activate(run, s, 1, {Active});
    run := run + [ChangeEvent(1, State({Active}))];
    s := Activate(run, s, 1, {});
  }

  lemma Extend(events: seq<Event>, e: Event)
    requires Outcome(events).Some? && Possible(Outcome(events).value, e)
    ensures Outcome(events + [e]) == Some(Step(Outcome(events).value, e))
  {
    assert (events + [e])[..|events|] == events;
  }

  lemma NewWindow(run: seq<Event>, s: World, native: nat, version: nat, uuid: string) returns (t: World)
    requires Outcome(run) == Some(s)
    ensures t == AddWindow(s, native, version, uuid)
    ensures Outcome(run + [WindowEvent(native, version, uuid)]) == Some(t)
    ensures t.active == s.active && t.unmapped == s.unmapped && t.nextId == s.nextId + 1
    ensures t.windows == s.windows + [s.nextId] && t.attrs[s.nextId].native == native
    ensures t.model == s.model && t.attrs[s.nextId].pid == 0
    ensures t.attrs.Keys == s.attrs.Keys + {s.nextId} && t.attrs[s.nextId].flags == {}
    ensures t.links.slots.Keys == s.links.slots.Keys + {s.nextId}
    ensures forall w | w in s.attrs && w != s.nextId :: t.attrs[w] == s.attrs[w]
  {
    Extend(run, WindowEvent(native, version, uuid));
    t := AddWindow(s, native, version, uuid);
  }

  lemma Activate(run: seq<Event>, s: World, w: WinId, state: set<StateFlag>) returns (t: World)
    requires Outcome(run) == Some(s) && w in s.attrs && w in s.links.slots && w !in s.unmapped
    ensures Outcome(run + [ChangeEvent(w, State(state))]) == Some(t) && OnlyAttrs(s, t, w)
    ensures Active in t.attrs[w].flags <==> Active in state
    ensures (Active in s.attrs[w].flags) != (Active in state) ==>
      t.active == if Active in state then Some(w) else if s.active == Some(w) then None else s.active
  {
    t := SetFlags(s, w, state, SetterOrder());
    Extend(run, ChangeEvent(w, State(state)));
    StateMovesActive(s, w, state);
  }

  lemma StartWithModel() returns (s: World)
    ensures Outcome([] + [CreateModelEvent]) == Some(s) && Coherent(s, true)
    ensures s.model == Some(Model([], [])) && s.unmapped == {} && s.nextId == 0
  {
    Extend([], CreateModelEvent);
    s := CreateModel(Initial());
  }

  lemma ShowFirstRow(run: seq<Event>, s: World) returns (t: World)
    requires Outcome(run) == Some(s) && s.model == Some(Model([], [])) && Coherent(s, true)
    requires 0 in s.attrs && 0 in s.links.slots && 0 !in s.unmapped
    ensures Outcome(run + [InitialStateEvent(0)]) == Some(t) && Coherent(t, true)
    ensures t.model.Some? && t.model.value.rows == [0] && t.attrs == s.attrs && 0 in t.links.slots
  {
    hide Inv, Coherent;
    RunKeeps(run);
    Extend(run, InitialStateEvent(0));
    StepKeepsCoherence(s, InitialStateEvent(0), true);
    t := InitialState(s, 0);
  }

  lemma ChangePid(run: seq<Event>, s: World)
    requires Outcome(run) == Some(s) && Coherent(s, true) && s.model.Some? && s.model.value.rows == [0]
    requires 0 in s.attrs && 0 in s.links.slots && s.attrs[0].pid == 0
    ensures var t := Outcome(run + [ChangeEvent(0, NewPid(7))]); t.Some? && !Coherent(t.value, true)
  {
    hide Coherent;
    Extend(run, ChangeEvent(0, NewPid(7)));
    PidChangeIsMissed(s, 0, 7);
  }

  // The pid failure on a concrete run: the only row is right until the pid of its window changes.
  lemma RowCanShowAnOldPid()
    ensures var run := [] + [CreateModelEvent] + [WindowEvent(10, 1, "a")] + [InitialStateEvent(0)];
            var s, t := Outcome(run), Outcome(run + [ChangeEvent(0, NewPid(7))]);
            s.Some? && Coherent(s.value, true) && t.Some? && !Coherent(t.value, true)
  {
    hide Inv, Coherent, AddWindow;
    var s := StartWithModel();
    var run := [] + [CreateModelEvent];
    RunKeeps(run);
    StepKeepsCoherence(s, WindowEvent(10, 1, "a"), true);
    s := NewWindow(run, s, 10, 1, "a");
    run := run + [WindowEvent(10, 1, "a")];
    s := ShowFirstRow(run, s);
    run := run + [InitialStateEvent(0)];
    ChangePid(run, s);
  }
}
