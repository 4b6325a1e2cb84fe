/**
 What a view knows of the pids. No signal announces a new pid, so a row keeps the one its window had when
 the row was inserted, and it is right exactly while the window has that pid.
 */
module PlasmaWindowPids {
  import opened Collections
  import opened PlasmaWindowData
  import opened PlasmaWindowWorld
  import opened PlasmaWindowCoherence
  import opened PlasmaWindowInvariants
  import opened PlasmaWindowSteps
  import opened PlasmaWindowTheorems

  function PidOf(row: CachedRow): Option<Value> {
    if Pid in row.values then Some(row.values[Pid]) else None
  }

  // Some cached row of w has this pid.
  ghost predicate ViewShows(view: seq<CachedRow>, w: WinId, pid: Option<Value>) {
    exists r :: 0 <= r < |view| && view[r].window == w && PidOf(view[r]) == pid
  }

  ghost predicate Shows(s: World, w: WinId, pid: Option<Value>) {
    s.model.Some? && ViewShows(Replay(s.model.value.trace), w, pid)
  }

  // The view learns no pid on the way from s to t.
  ghost predicate LearnsNone(s: World, t: World) {
    forall w, pid | Shows(t, w, pid) :: Shows(s, w, pid)
  }

  ghost predicate ModelLearnsNone(m: Model, n: Model) {
    forall w, pid | ViewShows(Replay(n.trace), w, pid) :: ViewShows(Replay(m.trace), w, pid)
  }

  // ---------- notices ----------

  lemma NotifyLearnsNone(m: Model, attrs: map<WinId, Attrs>, w: WinId, role: Role)
    requires role != Pid
    ensures ModelLearnsNone(m, Notify(m, attrs, w, role))
  {
    var index := IndexOf(m.rows, w);
    var n := DataChanged(index, role, DataAt(m.rows, attrs, index, role));
    ReplayNext(m.trace, n);
    var view, view' := Replay(m.trace), ApplyNotice(Replay(m.trace), n);
    forall x, pid | ViewShows(view', x, pid) ensures ViewShows(view, x, pid) {
      var r :| 0 <= r < |view'| && view'[r].window == x && PidOf(view'[r]) == pid;
      assert view[r].window == x && PidOf(view[r]) == pid;
    }
  }

  lemma {:induction false} NotifyTimesLearnsNone(m: Model, attrs: map<WinId, Attrs>, w: WinId, role: Role, n: nat)
    requires role != Pid
    ensures ModelLearnsNone(m, NotifyTimes(m, attrs, w, role, n))
  {
    hide ViewShows;
    if n > 0 {
      NotifyTimesLearnsNone(m, attrs, w, role, n - 1);
      NotifyLearnsNone(NotifyTimes(m, attrs, w, role, n - 1), attrs, w, role);
    }
  }

  lemma RemoveRowLearnsNone(m: Model, w: WinId)
    ensures ModelLearnsNone(m, RemoveRow(m, w))
  {
    var row := IndexOf(m.rows, w);
    if row != -1 {
      ReplayNext(m.trace, RowRemoved(row));
      var view, view' := Replay(m.trace), ApplyNotice(Replay(m.trace), RowRemoved(row));
      forall x, pid | ViewShows(view', x, pid) ensures ViewShows(view, x, pid) {
        var r :| 0 <= r < |view'| && view'[r].window == x && PidOf(view'[r]) == pid;
        var q := if row < |view| && r >= row then r + 1 else r;
        assert view[q] == view'[r];
      }
    }
  }

  // The new row has the pid of its window; the others are as before.
  lemma AddRowShows(s: World, w: WinId, x: WinId, pid: Option<Value>)
    requires s.model.Some? && RowsReplayed(s.model.value) && Shows(AddRow(s, w), x, pid)
    ensures Shows(s, x, pid) ||
      (x == w && w in s.attrs && w !in Rows(s) && w in Rows(AddRow(s, w)) && pid == Some(Data(s.attrs[w], Pid)))
  {
    var t := AddRow(s, w);
    if t != s {
      var m := s.model.value;
      var n := RowInserted(|m.rows|, w, RowData(s.attrs[w]));
      ReplayNext(m.trace, n);
      var view := Replay(m.trace);
      assert ApplyNotice(view, n) == view + [CachedRow(w, RowData(s.attrs[w]))];
    }
  }

  // ---------- signals and attributes ----------

  lemma EmitLearnsNone(s: World, w: WinId, sig: Signal)
    ensures LearnsNone(s, Emit(s, w, sig))
  {
    hide ViewShows;
    var t := if sig == ActiveChanged then FollowActive(s, w) else s;
    if t.model.Some? && w in t.bundles {
      NotifyTimesLearnsNone(t.model.value, t.attrs, w, RoleOfSignal(sig), t.bundles[w]);
    }
  }

  lemma UpdateLearnsNone(s: World, w: WinId, a: Attrs, sig: Signal)
    ensures LearnsNone(s, Update(s, w, a, sig))
  {
    EmitLearnsNone(s.(attrs := s.attrs[w := a]), w, sig);
  }

  lemma {:induction false} SetFlagsLearnsNone(s: World, w: WinId, state: set<StateFlag>, order: seq<StateFlag>)
    requires w in s.attrs
    ensures LearnsNone(s, SetFlags(s, w, state, order))
    decreases |order|
  {
    hide Shows, Update;
    if order != [] {
      SetFlagsLearnsNone(s, w, state, order[..|order| - 1]);
      var t, f := SetFlags(s, w, state, order[..|order| - 1]), order[|order| - 1];
      UpdateLearnsNone(t, w, t.attrs[w].(flags := Toggle(t.attrs[w].flags, f, f in state)), SignalOfSetter(f));
    }
  }

  lemma DesktopsLearnNone(s: World, w: WinId, a: Attrs, sig: Signal)
    ensures LearnsNone(s, Update(s, w, a, sig))
    ensures LearnsNone(s, Emit(Update(s, w, a, sig), w, OnAllDesktopsChanged))
  {
    hide Shows, Update, Emit;
    UpdateLearnsNone(s, w, a, sig);
    EmitLearnsNone(Update(s, w, a, sig), w, OnAllDesktopsChanged);
  }

  lemma ApplyLearnsNone(s: World, w: WinId, ch: Change)
    requires w in s.attrs
    ensures LearnsNone(s, Apply(s, w, ch))
  {
    hide ViewShows, Update, Emit, SetFlags;
    var a := s.attrs[w];
    match ch
    case State(state) => SetFlagsLearnsNone(s, w, state, SetterOrder());
    case Title(title) => UpdateLearnsNone(s, w, a.(title := title), TitleChanged);
    case AppIdentifier(appId) => UpdateLearnsNone(s, w, a.(appId := appId), AppIdChanged);
    case NewIcon(icon) => UpdateLearnsNone(s, w, a.(icon := icon), IconChanged);
    case NewGeometry(geometry) => UpdateLearnsNone(s, w, a.(geometry := geometry), GeometryChanged);
    case NewPid(pid) =>
    case DesktopEntered(id) =>
      DesktopsLearnNone(s, w, a.(desktops := a.desktops + [id]), PlasmaVirtualDesktopEntered);
    case DesktopLeft(id) =>
      DesktopsLearnNone(s, w, a.(desktops := Without(a.desktops, id)), PlasmaVirtualDesktopLeft);
  }

  // ---------- steps ----------

  lemma ForgetsLearnsNone(s: World, w: WinId)
    ensures LearnsNone(s, ModelForgets(s, w))
  {
    hide ViewShows;
    if s.model.Some? {
      RemoveRowLearnsNone(s.model.value, w);
    }
  }

  lemma RunSlotLearnsNone(s: World, w: WinId, slot: Slot)
    ensures LearnsNone(s, RunSlot(s, w, slot))
  {
    hide ViewShows;
    ForgetsLearnsNone(s, w);
  }

  lemma {:induction false} RunSlotsLearnsNone(s: World, w: WinId, slots: seq<Slot>)
    ensures LearnsNone(s, RunSlots(s, w, slots))
    decreases |slots|
  {
    hide Shows, RunSlot;
    if slots != [] {
      RunSlotLearnsNone(s, w, slots[0]);
      RunSlotsLearnsNone(RunSlot(s, w, slots[0]), w, slots[1..]);
    }
  }

  // The view of a reset model shows nothing.
  lemma NothingAfterReset(trace: seq<Notice>, w: WinId, pid: Option<Value>)
    ensures !ViewShows(Replay(trace + [ModelReset]), w, pid)
  {
    ReplayNext(trace, ModelReset);
  }

  lemma ReleaseLearnsNone(s: World)
    ensures LearnsNone(s, Release(s))
  {
    hide ViewShows, Replay;
    if s.bound && s.model.Some? {
      forall w, pid ensures !Shows(Release(s), w, pid) {
        NothingAfterReset(s.model.value.trace, w, pid);
      }
    }
  }

  lemma DeleteLearnsNone(s: World, w: WinId)
    ensures LearnsNone(s, Delete(s, w))
  {
    hide ViewShows, Unlink, RemoveRow;
    var t := ManagerForgets(s, w);
    ForgetsLearnsNone(t, w);
    assert Delete(s, w).model == ModelForgets(t, w).model && t.model == s.model;
    forall x, pid | Shows(Delete(s, w), x, pid) ensures Shows(s, x, pid) {
      assert Shows(ModelForgets(t, w), x, pid);
    }
  }

  // Only a new row tells the view a pid.
  lemma StepLearnsNone(s: World, e: Event)
    requires Possible(s, e) && !e.InitialStateEvent? && !e.CreateModelEvent?
    ensures LearnsNone(s, Step(s, e))
  {
    hide ViewShows, Delete, Release;
    match e
    case ChangeEvent(w, change) => ApplyLearnsNone(s, w, change);
    case UnmappedEvent(w) =>
      RunSlotsLearnsNone(s.(unmapped := s.unmapped + {w}, signals := s.signals + [Unmapped(w)]), w, s.links.slots[w]);
    case DeletedEvent(w) => DeleteLearnsNone(s, w);
    case ReleaseEvent => ReleaseLearnsNone(s);
    case _ =>
  }

  // ---------- runs ----------

  // The pid that w had when its row was inserted last.
  ghost function PidWhenInserted(events: seq<Event>, w: WinId): nat
    requires Outcome(events).Some?
    decreases |events|
  {
    if events == [] then 0
    else
      var before := events[..|events| - 1];
      var s, t := Outcome(before).value, Outcome(events).value;
      if w in Rows(t) && w !in Rows(s) && w in t.attrs then t.attrs[w].pid else PidWhenInserted(before, w)
  }

  // A run and its last step
  lemma LastStep(events: seq<Event>) returns (s: World, e: Event)
    requires Outcome(events).Some? && events != []
    ensures e == events[|events| - 1] && Outcome(events[..|events| - 1]) == Some(s)
    ensures Possible(s, e) && Outcome(events) == Some(Step(s, e)) && Inv(s) && Coherent(s, false)
  {
    s, e := Outcome(events[..|events| - 1]).value, events[|events| - 1];
    RunKeeps(events[..|events| - 1]);
  }

  lemma ShownHasRow(s: World, w: WinId, pid: Option<Value>)
    requires Coherent(s, false) && Shows(s, w, pid)
    ensures w in Rows(s)
  {
  }

  lemma ShownIsCurrent(s: World, w: WinId, pid: Option<Value>)
    requires Coherent(s, true) && Shows(s, w, pid)
    ensures w in Rows(s) && w in s.attrs && pid == Some(Number(s.attrs[w].pid))
  {
    var view, rows := Replay(s.model.value.trace), s.model.value.rows;
    var r :| 0 <= r < |view| && view[r].window == w && PidOf(view[r]) == pid;
    assert RowCoherent(view[r], s.attrs[rows[r]], true, {});
    assert Fresh(view[r], s.attrs[w], Pid);
  }

  // The first rows of a new model
  lemma CreateModelShows(s: World, w: WinId, pid: Option<Value>)
    requires Possible(s, CreateModelEvent) && Inv(s) && Shows(Step(s, CreateModelEvent), w, pid)
    ensures var t := Step(s, CreateModelEvent);
            w in Rows(t) && w !in Rows(s) && w in t.attrs && pid == Some(Number(t.attrs[w].pid))
  {
    StepKeepsCoherence(s, CreateModelEvent, true);
    ShownIsCurrent(Step(s, CreateModelEvent), w, pid);
  }

  lemma InitialStateShows(s: World, x: WinId, w: WinId, pid: Option<Value>)
    requires Coherent(s, false) && Shows(InitialState(s, x), w, pid)
    ensures var t := InitialState(s, x);
            || Shows(s, w, pid)
            || (w in Rows(t) && w !in Rows(s) && w in t.attrs && pid == Some(Number(t.attrs[w].pid)))
  {
    hide ViewShows;
    if x !in s.unmapped && s.model.Some? {
      AddRowShows(s.(signals := s.signals + [WindowCreated(x)]), x, w, pid);
    }
  }

  // What a step shows was shown before or is the pid of a window whose row it inserts.
  lemma StepShows(s: World, e: Event, w: WinId, pid: Option<Value>)
    requires Possible(s, e) && Inv(s) && Coherent(s, false) && Shows(Step(s, e), w, pid)
    ensures var t := Step(s, e);
            || (Shows(s, w, pid) && w in Rows(s))
            || (w in Rows(t) && w !in Rows(s) && w in t.attrs && pid == Some(Number(t.attrs[w].pid)))
  {
    hide Shows, Inv, Coherent, InitialState;
    if e.CreateModelEvent? {
      CreateModelShows(s, w, pid);
    } else if e.InitialStateEvent? {
      InitialStateShows(s, e.w, w, pid);
    } else {
      StepLearnsNone(s, e);
    }
    if Shows(s, w, pid) {
      ShownHasRow(s, w, pid);
    }
  }

  // Over every run: whatever happens to the pids, a cached row has the one its window had at insertion.
  lemma {:induction false} ShownIsInserted(events: seq<Event>, w: WinId, pid: Option<Value>)
    requires Outcome(events).Some? && Shows(Outcome(events).value, w, pid)
    ensures pid == Some(Number(PidWhenInserted(events, w)))
    decreases |events|
  {
    if events != [] {
      var s, e := LastStep(events);
      hide Shows, Inv, Coherent, Step;
      StepShows(s, e, w, pid);
      if w in Rows(s) && Shows(s, w, pid) {
        ShownIsInserted(events[..|events| - 1], w, pid);
      }
    }
  }

  lemma RowsShowInsertedPids(events: seq<Event>)
    requires Outcome(events).Some? && Outcome(events).value.model.Some?
    ensures var m := Outcome(events).value.model.value;
            var view := Replay(m.trace);
            && |view| == |m.rows|
            && forall r | 0 <= r < |view| ::
                 && view[r].window == m.rows[r] && Pid in view[r].values
                 && view[r].values[Pid] == Number(PidWhenInserted(events, m.rows[r]))
  {
    RunKeeps(events);
    var s := Outcome(events).value;
    var view, rows := Replay(s.model.value.trace), s.model.value.rows;
    forall r | 0 <= r < |view|
      ensures Pid in view[r].values && view[r].values[Pid] == Number(PidWhenInserted(events, rows[r]))
    {
      assert Shows(s, rows[r], PidOf(view[r]));
      ShownIsInserted(events, rows[r], PidOf(view[r]));
    }
  }

  // So a view is right about Pid exactly if every window with a row has the pid of its insertion again.
  lemma ViewIsRightExactly(events: seq<Event>)
    requires Outcome(events).Some?
    ensures var s := Outcome(events).value;
            Coherent(s, true) <==>
              forall w | w in Rows(s) && w in s.attrs :: s.attrs[w].pid == PidWhenInserted(events, w)
  {
    RunKeeps(events);
    var s := Outcome(events).value;
    if s.model.Some? {
      RowsShowInsertedPids(events);
      var view, rows := Replay(s.model.value.trace), s.model.value.rows;
      forall r | 0 <= r < |view|
        ensures RowCoherent(view[r], s.attrs[rows[r]], true, {})
            <==> s.attrs[rows[r]].pid == PidWhenInserted(events, rows[r])
      {
        assert RowCoherent(view[r], s.attrs[rows[r]], false, {});
        RowIsRight(view[r], s.attrs[rows[r]]);
      }
      RightRows(s);
    }
  }

  lemma RowIsRight(row: CachedRow, a: Attrs)
    requires RowCoherent(row, a, false, {})
    ensures RowCoherent(row, a, true, {}) <==> PidOf(row) == Some(Number(a.pid))
  {
    if RowCoherent(row, a, true, {}) {
      assert Fresh(row, a, Pid);
    }
    if PidOf(row) == Some(Number(a.pid)) {
      forall role: Role ensures Fresh(row, a, role) {
        assert role != Pid ==> Fresh(row, a, role);
      }
    }
  }

  lemma RightRows(s: World)
    requires Coherent(s, false) && s.model.Some?
    ensures var m := s.model.value;
            && |Replay(m.trace)| == |m.rows| && (forall x | x in m.rows :: x in s.attrs)
            && (Coherent(s, true) <==> forall r | 0 <= r < |m.rows| ::
                  RowCoherent(Replay(m.trace)[r], s.attrs[m.rows[r]], true, {}))
  {
  }
}
