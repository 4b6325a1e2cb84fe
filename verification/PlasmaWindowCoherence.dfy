/**
 Cache coherence of PlasmaWindowModel. A view that reads a row when it is inserted, drops it when it is
 removed, forgets everything on reset and re-reads one role on dataChanged agrees with the model for
 every role but Pid; for Pid the exact condition is given.
 */
module PlasmaWindowCoherence {
  import opened Collections
  import opened PlasmaWindowData
  import opened PlasmaWindowWorld

  // ---------- the view ----------

  datatype CachedRow = CachedRow(window: WinId, values: map<Role, Value>)

  function ApplyNotice(view: seq<CachedRow>, n: Notice): seq<CachedRow> {
    match n
    case RowInserted(row, w, values) =>
      if row <= |view| then view[..row] + [CachedRow(w, values)] + view[row..] else view
    case RowRemoved(row) => if row < |view| then RemoveAt(view, row) else view
    case ModelReset => []
    case DataChanged(index, role, value) =>
      if 0 <= index < |view| then
        view[index := view[index].(values := view[index].values[role := value])]
      else view
  }

  function Replay(trace: seq<Notice>): seq<CachedRow>
    decreases |trace|
  {
    if trace == [] then []
    else ApplyNotice(Replay(trace[..|trace| - 1]), trace[|trace| - 1])
  }

  lemma ReplayNext(trace: seq<Notice>, n: Notice)
    ensures Replay(trace + [n]) == ApplyNotice(Replay(trace), n)
  {
    assert (trace + [n])[..|trace|] == trace;
  }

  // ---------- coherence ----------

  // The view has exactly the model's rows.
  ghost predicate RowsReplayed(m: Model) {
    var view := Replay(m.trace);
    |view| == |m.rows| && forall r | 0 <= r < |view| :: view[r].window == m.rows[r]
  }

  ghost predicate Fresh(row: CachedRow, a: Attrs, role: Role) {
    role in row.values && row.values[role] == Data(a, role)
  }

  // The cached row agrees with a fresh read, except perhaps in the roles of `stale`; Pid is considered
  // only on request.
  ghost predicate RowCoherent(row: CachedRow, a: Attrs, withPid: bool, stale: set<Role>) {
    forall role: Role | role !in stale && (role == Pid ==> withPid) :: Fresh(row, a, role)
  }

  // All cached rows are coherent, except that the row of w may be out of date in `stale`.
  ghost predicate CoherentExcept(m: Model, attrs: map<WinId, Attrs>, withPid: bool, w: WinId, stale: set<Role>) {
    var view := Replay(m.trace);
    && RowsReplayed(m)
    && (forall x | x in m.rows :: x in attrs)
    && (forall r | 0 <= r < |view| ::
          RowCoherent(view[r], attrs[m.rows[r]], withPid, if m.rows[r] == w then stale else {}))
  }

  ghost predicate Coherent(s: World, withPid: bool) {
    s.model.Some? ==> CoherentExcept(s.model.value, s.attrs, withPid, 0, {})
  }

  // What addWindow leaves behind for the signals: distinct rows, each subscribed at least once.
  ghost predicate Subscribed(s: World) {
    && (s.model.None? ==> s.bundles == map[])
    && (forall x | x in s.bundles :: s.bundles[x] >= 1)
    && (s.model.Some? ==>
         && Distinct(s.model.value.rows)
         && forall x | x in s.model.value.rows :: x in s.bundles)
  }

  lemma NotifyRefreshes(m: Model, attrs: map<WinId, Attrs>, withPid: bool, w: WinId, stale: set<Role>, role: Role)
    requires CoherentExcept(m, attrs, withPid, w, stale) && Distinct(m.rows)
    ensures Notify(m, attrs, w, role).rows == m.rows
    ensures CoherentExcept(Notify(m, attrs, w, role), attrs, withPid, w, stale - {role})
  {
    var index := IndexOf(m.rows, w);
    var n := DataChanged(index, role, DataAt(m.rows, attrs, index, role));
    ReplayNext(m.trace, n);
    var view, view' := Replay(m.trace), ApplyNotice(Replay(m.trace), n);
    forall r | 0 <= r < |view|
      ensures RowCoherent(view'[r], attrs[m.rows[r]], withPid, if m.rows[r] == w then stale - {role} else {})
    {
      assert RowCoherent(view[r], attrs[m.rows[r]], withPid, if m.rows[r] == w then stale else {});
      if r != index {
        assert m.rows[r] != w;
        assert view'[r] == view[r];
      }
    }
  }

  // Every further notification of the role leaves it clean.
  lemma {:induction false} NotifyTimesRefreshes(
    m: Model, attrs: map<WinId, Attrs>, withPid: bool, w: WinId, stale: set<Role>, role: Role, n: nat)
    requires CoherentExcept(m, attrs, withPid, w, stale) && Distinct(m.rows) && n > 0
    ensures NotifyTimes(m, attrs, w, role, n).rows == m.rows
    ensures CoherentExcept(NotifyTimes(m, attrs, w, role, n), attrs, withPid, w, stale - {role})
  {
    if n == 1 {
      assert NotifyTimes(m, attrs, w, role, 1) == Notify(m, attrs, w, role);
      NotifyRefreshes(m, attrs, withPid, w, stale, role);
    } else {
      NotifyTimesRefreshes(m, attrs, withPid, w, stale, role, n - 1);
      NotifyRefreshes(NotifyTimes(m, attrs, w, role, n - 1), attrs, withPid, w, stale - {role}, role);
      assert stale - {role} - {role} == stale - {role};
    }
  }

  // A row whose window is not subscribed does not exist, so emitting a signal always cleans its role.
  lemma EmitToModelRefreshes(s: World, withPid: bool, w: WinId, stale: set<Role>, role: Role)
    requires Subscribed(s)
    requires s.model.Some? ==> CoherentExcept(s.model.value, s.attrs, withPid, w, stale)
    ensures Subscribed(EmitToModel(s, w, role))
    ensures EmitToModel(s, w, role).attrs == s.attrs
    ensures var t := EmitToModel(s, w, role);
            t.model.Some? ==> CoherentExcept(t.model.value, t.attrs, withPid, w, stale - {role})
  {
    if s.model.Some? {
      if w in s.bundles {
        NotifyTimesRefreshes(s.model.value, s.attrs, withPid, w, stale, role, s.bundles[w]);
      } else {
        NoRowNothingStale(s.model.value, s.attrs, withPid, w, stale, stale - {role});
      }
    }
  }

  lemma EmitRefreshes(s: World, withPid: bool, w: WinId, stale: set<Role>, sig: Signal)
    requires Subscribed(s)
    requires s.model.Some? ==> CoherentExcept(s.model.value, s.attrs, withPid, w, stale)
    ensures Subscribed(Emit(s, w, sig))
    ensures Emit(s, w, sig).attrs == s.attrs
    ensures var t := Emit(s, w, sig);
            t.model.Some? ==> CoherentExcept(t.model.value, t.attrs, withPid, w, stale - {RoleOfSignal(sig)})
  {
    var t := if sig == ActiveChanged then FollowActive(s, w) else s;
    EmitToModelRefreshes(t, withPid, w, stale, RoleOfSignal(sig));
  }

  lemma NoRowNothingStale(
    m: Model, attrs: map<WinId, Attrs>, withPid: bool, w: WinId, stale: set<Role>, stale': set<Role>)
    requires CoherentExcept(m, attrs, withPid, w, stale) && w !in m.rows
    ensures CoherentExcept(m, attrs, withPid, w, stale')
  {
  }

  // Writing the attributes of w makes stale only the roles in which old and new differ.
  lemma WriteStales(s: World, withPid: bool, w: WinId, a: Attrs, stale: set<Role>)
    requires w in s.attrs && Coherent(s, withPid)
    requires forall role | (role == Pid ==> withPid) && Data(a, role) != Data(s.attrs[w], role) :: role in stale
    ensures s.model.Some? ==> CoherentExcept(s.model.value, s.attrs[w := a], withPid, w, stale)
  {
    if s.model.Some? {
      var m := s.model.value;
      var view := Replay(m.trace);
      forall r | 0 <= r < |view|
        ensures RowCoherent(view[r], s.attrs[w := a][m.rows[r]], withPid, if m.rows[r] == w then stale else {})
      {
        assert RowCoherent(view[r], s.attrs[m.rows[r]], withPid, {});
        if m.rows[r] == w {
          WriteStalesRow(view[r], s.attrs[w], a, withPid, stale);
        }
      }
    }
  }

  lemma WriteStalesRow(row: CachedRow, a: Attrs, a': Attrs, withPid: bool, stale: set<Role>)
    requires RowCoherent(row, a, withPid, {})
    requires forall role | (role == Pid ==> withPid) && Data(a', role) != Data(a, role) :: role in stale
    ensures RowCoherent(row, a', withPid, stale)
  {
    forall role: Role | role !in stale && (role == Pid ==> withPid)
      ensures Fresh(row, a', role)
    {
      assert Fresh(row, a, role);
    }
  }

  lemma CleanIsCoherent(s: World, withPid: bool, w: WinId)
    requires s.model.Some? ==> CoherentExcept(s.model.value, s.attrs, withPid, w, {})
    ensures Coherent(s, withPid)
  {
  }

  // The common shape of the attribute setters: a write that shows in one role, then its signal.
  lemma UpdateKeepsCoherence(s: World, withPid: bool, w: WinId, a: Attrs, sig: Signal)
    requires w in s.attrs && Coherent(s, withPid) && Subscribed(s)
    requires forall role | Data(a, role) != Data(s.attrs[w], role) :: role == RoleOfSignal(sig)
    ensures Coherent(Update(s, w, a, sig), withPid) && Subscribed(Update(s, w, a, sig))
    ensures Update(s, w, a, sig).attrs == s.attrs[w := a]
  {
    var stale := {RoleOfSignal(sig)};
    WriteStales(s, withPid, w, a, stale);
    EmitRefreshes(s.(attrs := s.attrs[w := a]), withPid, w, stale, sig);
    assert stale - stale == {};
    CleanIsCoherent(Update(s, w, a, sig), withPid, w);
  }

  lemma SetFlagKeepsCoherence(s: World, withPid: bool, w: WinId, f: StateFlag, on: bool)
    requires w in s.attrs && Coherent(s, withPid) && Subscribed(s)
    ensures Coherent(SetFlag(s, w, f, on), withPid) && Subscribed(SetFlag(s, w, f, on))
  {
    var a := s.attrs[w];
    if (f in a.flags) != on {
      var a' := a.(flags := Toggle(a.flags, f, on));
      var sig := SignalOfSetter(f);
      forall role | Data(a', role) != Data(a, role) ensures role == RoleOfSignal(sig) {
        SetterChangesOneRole(a, f, on, role);
      }
      UpdateKeepsCoherence(s, withPid, w, a', sig);
    }
  }

  lemma {:induction false} SetFlagsKeepsCoherence(
    s: World, withPid: bool, w: WinId, state: set<StateFlag>, order: seq<StateFlag>)
    requires w in s.attrs && Coherent(s, withPid) && Subscribed(s)
    ensures Coherent(SetFlags(s, w, state, order), withPid) && Subscribed(SetFlags(s, w, state, order))
    decreases |order|
  {
    if order != [] {
      SetFlagsKeepsCoherence(s, withPid, w, state, order[..|order| - 1]);
      var t := SetFlags(s, w, state, order[..|order| - 1]);
      var f := order[|order| - 1];
      SetFlagKeepsCoherence(t, withPid, w, f, f in state);
    }
  }

  // Two roles show the desktop list; the second signal is sent exactly when the second role needs it.
  lemma DesktopsKeepCoherence(s: World, withPid: bool, w: WinId, desktops: seq<string>, sig: Signal, again: bool)
    requires w in s.attrs && Coherent(s, withPid) && Subscribed(s)
    requires sig == PlasmaVirtualDesktopEntered || sig == PlasmaVirtualDesktopLeft
    requires (desktops == []) != (s.attrs[w].desktops == []) ==> again
    ensures var t := Update(s, w, s.attrs[w].(desktops := desktops), sig);
            var u := if again then Emit(t, w, OnAllDesktopsChanged) else t;
            Coherent(u, withPid) && Subscribed(u)
  {
    var a := s.attrs[w].(desktops := desktops);
    if again {
      TwoSignalsKeepCoherence(s, withPid, w, a, sig);
    } else {
      UpdateKeepsCoherence(s, withPid, w, a, sig);
    }
  }

  lemma TwoSignalsKeepCoherence(s: World, withPid: bool, w: WinId, a: Attrs, sig: Signal)
    requires w in s.attrs && Coherent(s, withPid) && Subscribed(s)
    requires forall role | Data(a, role) != Data(s.attrs[w], role) ::
      role == RoleOfSignal(sig) || role == IsOnAllDesktops
    requires RoleOfSignal(sig) != IsOnAllDesktops
    ensures var u := Emit(Update(s, w, a, sig), w, OnAllDesktopsChanged); Coherent(u, withPid) && Subscribed(u)
  {
    var stale := {RoleOfSignal(sig), IsOnAllDesktops};
    WriteStales(s, withPid, w, a, stale);
    EmitTwiceRefreshes(s.(attrs := s.attrs[w := a]), withPid, w, sig, OnAllDesktopsChanged);
  }

  lemma EmitTwiceRefreshes(s: World, withPid: bool, w: WinId, first: Signal, second: Signal)
    requires Subscribed(s) && RoleOfSignal(first) != RoleOfSignal(second)
    requires s.model.Some? ==>
      CoherentExcept(s.model.value, s.attrs, withPid, w, {RoleOfSignal(first), RoleOfSignal(second)})
    ensures var u := Emit(Emit(s, w, first), w, second); Coherent(u, withPid) && Subscribed(u)
  {
    var a, b := RoleOfSignal(first), RoleOfSignal(second);
    EmitRefreshes(s, withPid, w, {a, b}, first);
    var t := Emit(s, w, first);
    assert {a, b} - {a} == {b};
    EmitRefreshes(t, withPid, w, {b}, second);
    assert {b} - {b} == {};
    CleanIsCoherent(Emit(t, w, second), withPid, w);
  }

  lemma EnterLeaveKeepCoherence(s: World, withPid: bool, w: WinId, id: string)
    requires w in s.attrs && Coherent(s, withPid) && Subscribed(s)
    ensures Coherent(EnterDesktop(s, w, id), withPid) && Subscribed(EnterDesktop(s, w, id))
    ensures Coherent(LeaveDesktop(s, w, id), withPid) && Subscribed(LeaveDesktop(s, w, id))
  {
    var d := s.attrs[w].desktops;
    DesktopsKeepCoherence(s, withPid, w, d + [id], PlasmaVirtualDesktopEntered, |d + [id]| == 1);
    DesktopsKeepCoherence(s, withPid, w, Without(d, id), PlasmaVirtualDesktopLeft, Without(d, id) == []);
  }

  // ---------- rows come and go ----------

  lemma AddRowKeepsCoherence(s: World, withPid: bool, w: WinId)
    requires Coherent(s, withPid) && Subscribed(s)
    ensures Coherent(AddRow(s, w), withPid) && Subscribed(AddRow(s, w))
  {
    if AddRow(s, w) != s {
      var m := s.model.value;
      var n := RowInserted(|m.rows|, w, RowData(s.attrs[w]));
      ReplayNext(m.trace, n);
      var view := Replay(m.trace);
      assert ApplyNotice(view, n) == view + [CachedRow(w, RowData(s.attrs[w]))];
    }
  }

  lemma {:induction false} AddRowsKeepsCoherence(s: World, withPid: bool, ws: seq<WinId>)
    requires Coherent(s, withPid) && Subscribed(s)
    ensures Coherent(AddRows(s, ws), withPid) && Subscribed(AddRows(s, ws))
    decreases |ws|
  {
    if ws != [] {
      AddRowsKeepsCoherence(s, withPid, ws[..|ws| - 1]);
      AddRowKeepsCoherence(AddRows(s, ws[..|ws| - 1]), withPid, ws[|ws| - 1]);
    }
  }

  // A view without its row agrees with the rows without it.
  lemma RemoveFromView(view: seq<CachedRow>, rows: seq<WinId>, attrs: map<WinId, Attrs>, withPid: bool, row: nat)
    requires row < |rows| && |view| == |rows| && forall r | 0 <= r < |rows| :: rows[r] in attrs
    requires forall r | 0 <= r < |view| ::
      view[r].window == rows[r] && RowCoherent(view[r], attrs[rows[r]], withPid, {})
    ensures var view', rows' := RemoveAt(view, row), RemoveAt(rows, row);
            forall r | 0 <= r < |view'| ::
              && rows'[r] in attrs && view'[r].window == rows'[r]
              && RowCoherent(view'[r], attrs[rows'[r]], withPid, {})
  {
    var view', rows' := RemoveAt(view, row), RemoveAt(rows, row);
    forall r | 0 <= r < |view'|
      ensures rows'[r] in attrs && view'[r].window == rows'[r] && RowCoherent(view'[r], attrs[rows'[r]], withPid, {})
    {
      var q := if r < row then r else r + 1;
      assert RowCoherent(view[q], attrs[rows[q]], withPid, {});
    }
  }

  lemma RemoveRowKeepsCoherence(m: Model, attrs: map<WinId, Attrs>, withPid: bool, w: WinId)
    requires CoherentExcept(m, attrs, withPid, 0, {}) && Distinct(m.rows) && w in m.rows
    ensures CoherentExcept(RemoveRow(m, w), attrs, withPid, 0, {}) && Distinct(RemoveRow(m, w).rows)
    ensures forall x | x in RemoveRow(m, w).rows :: x in m.rows
  {
    var row := IndexOf(m.rows, w);
    ReplayNext(m.trace, RowRemoved(row));
    RemoveFromView(Replay(m.trace), m.rows, attrs, withPid, row);
  }

  lemma ModelForgetsKeepsCoherence(s: World, withPid: bool, w: WinId)
    requires Coherent(s, withPid) && Subscribed(s)
    ensures Coherent(ModelForgets(s, w), withPid) && Subscribed(ModelForgets(s, w))
  {
    if s.model.Some? && w in s.model.value.rows {
      RemoveRowKeepsCoherence(s.model.value, s.attrs, withPid, w);
    }
  }

  lemma ResetIsCoherent(trace: seq<Notice>, attrs: map<WinId, Attrs>, withPid: bool)
    ensures CoherentExcept(Model([], trace + [ModelReset]), attrs, withPid, 0, {})
  {
    ReplayNext(trace, ModelReset);
  }

  // Whatever the view knew, a reset clears it.
  lemma ResetKeepsCoherence(s: World, withPid: bool)
    requires s.model.Some? ==> Subscribed(s)
    ensures s.model.Some? ==> Coherent(Reset(s), withPid) && Subscribed(Reset(s))
    ensures s.model.None? ==> Reset(s) == s
  {
    if s.model.Some? {
      ResetIsCoherent(s.model.value.trace, s.attrs, withPid);
    }
  }
}
