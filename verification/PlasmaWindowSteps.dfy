/** Every event keeps the invariants and the coherence of the view; hence so does every run. */
module PlasmaWindowSteps {
  import opened Collections
  import opened PlasmaWindowData
  import opened PlasmaWindowWorld
  import opened PlasmaWindowCoherence
  import opened PlasmaWindowInvariants

  // ---------- active window ----------

  lemma FollowActiveKeeps(s: World, w: WinId, on: bool)
    requires Inv(s) && w in s.attrs && (Active in s.attrs[w].flags) != on
    ensures var a := s.attrs[w].(flags := Toggle(s.attrs[w].flags, Active, on));
            ActiveInv(FollowActive(s.(attrs := s.attrs[w := a]), w))
  {
    assert !ManagerPending([]);
  }

  lemma StateKeepsActive(s: World, w: WinId, state: set<StateFlag>)
    requires Inv(s) && w in s.attrs
    ensures ActiveInv(SetFlags(s, w, state, SetterOrder()))
  {
    StateMovesActive(s, w, state);
    MovedKeepsActive(s, SetFlags(s, w, state, SetterOrder()), w, Active in state);
  }

  lemma MovedKeepsActive(s: World, t: World, w: WinId, on: bool)
    requires Inv(s) && w in s.attrs && MovesActive(s, t, w, on)
    ensures ActiveInv(t)
  {
    if (Active in s.attrs[w].flags) != on {
      FollowActiveKeeps(s, w, on);
    }
  }

  // ---------- subscriptions that are not parent links ----------

  lemma SubscribeKeepsLinks(l: Links, unmapped: set<WinId>, w: WinId, slot: Slot)
    requires ConnsInv(l) && ParentsInv(l, unmapped, 0, [])
    requires slot.conn == l.nextConn && !slot.ClearsParentOf?
    requires w in l.slots || forall c | c in l.handles :: l.handles[c].sender != w
    ensures ConnsInv(Subscribe(l, w, slot)) && ParentsInv(Subscribe(l, w, slot), unmapped, 0, [])
  {
    var l' := Subscribe(l, w, slot);
    forall c | c in l'.parent ensures LinkOk(l', unmapped, c, 0, []) {
      assert LinkOk(l, unmapped, c, 0, []);
    }
    forall x, y | x in l'.slots && y in l'.slots[x] ensures SlotExact(l', x, y) {
      if x in l.slots && y in l.slots[x] {
        assert SlotExact(l, x, y);
      }
    }
  }

  lemma SubscribeKeepsPending(l: Links, w: WinId, slot: Slot)
    ensures var l' := Subscribe(l, w, slot);
            && (forall x | x in l.slots && ManagerPending(l.slots[x]) :: ManagerPending(l'.slots[x]))
            && (forall x | x in l.slots && ModelPending(l.slots[x]) :: ModelPending(l'.slots[x]))
            && (slot.ManagerRemoves? ==> ManagerPending(l'.slots[w]))
            && (slot.ModelRemoves? ==> ModelPending(l'.slots[w]))
  {
    var l' := Subscribe(l, w, slot);
    assert slot in l'.slots[w];
    forall x | x in l.slots
      ensures ManagerPending(l.slots[x]) ==> ManagerPending(l'.slots[x])
      ensures ModelPending(l.slots[x]) ==> ModelPending(l'.slots[x])
    {
      assert forall y | y in l.slots[x] :: y in l'.slots[x];
    }
  }

  lemma AddWindowKeeps(s: World, native: nat, version: nat, uuid: string)
    requires Inv(s)
    ensures Inv(AddWindow(s, native, version, uuid))
  {
    hide WindowsInv, RowsInv, Subscribed, ConnsInv, ParentsInv;
    SubscribeKeepsLinks(s.links, s.unmapped, s.nextId, ManagerRemoves(s.links.nextConn));
    AddWindowKeepsLists(s, native, version, uuid);
  }

  lemma AddWindowKeepsLists(s: World, native: nat, version: nat, uuid: string)
    requires Inv(s)
    ensures var t := AddWindow(s, native, version, uuid);
            WindowsInv(t, 0, []) && ActiveInv(t) && RowsInv(t, 0, []) && Subscribed(t)
  {
    hide ConnsInv, ParentsInv, HandlesOld;
    SubscribeKeepsPending(s.links, s.nextId, ManagerRemoves(s.links.nextConn));
    AddWindowKeepsRows(s, native, version, uuid);
    hide RowsInv, Subscribed;
  }

  lemma AddWindowKeepsRows(s: World, native: nat, version: nat, uuid: string)
    requires WindowsInv(s, 0, []) && RowsInv(s, 0, []) && Subscribed(s)
    ensures var t := AddWindow(s, native, version, uuid); RowsInv(t, 0, []) && Subscribed(t)
  {
    SubscribeKeepsPending(s.links, s.nextId, ManagerRemoves(s.links.nextConn));
  }

  lemma AddRowKeeps(s: World, w: WinId)
    requires Inv(s) && Coherent(s, false) && w in s.windows
    ensures Inv(AddRow(s, w)) && AddRow(s, w).windows == s.windows
  {
    assert w in s.links.slots;
    hide WindowsInv, RowsInv, Subscribed, ConnsInv, ParentsInv, HandlesOld;
    var slot := ModelRemoves(s.links.nextConn);
    SubscribeKeepsLinks(s.links, s.unmapped, w, slot);
    AddRowKeepsCoherence(s, false, w);
    AddRowKeepsLists(s, w);
  }

  lemma AddRowKeepsLists(s: World, w: WinId)
    requires WindowsInv(s, 0, []) && ActiveInv(s) && RowsInv(s, 0, []) && w in s.windows
    ensures var t := AddRow(s, w);
            WindowsInv(t, 0, []) && ActiveInv(t) && RowsInv(t, 0, []) && t.windows == s.windows
  {
    SubscribeKeepsPending(s.links, w, ModelRemoves(s.links.nextConn));
    assert !ManagerPending([]) && !ModelPending([]);
  }

  lemma {:induction false} AddRowsKeeps(s: World, ws: seq<WinId>)
    requires Inv(s) && Coherent(s, false) && (forall w | w in ws :: w in s.windows)
    ensures Inv(AddRows(s, ws)) && AddRows(s, ws).windows == s.windows
    decreases |ws|
  {
    if ws != [] {
      AddRowsKeeps(s, ws[..|ws| - 1]);
      AddRowsKeepsCoherence(s, false, ws[..|ws| - 1]);
      AddRowKeeps(AddRows(s, ws[..|ws| - 1]), ws[|ws| - 1]);
    }
  }

  // ---------- deletion ----------

  lemma {:induction false} DropChildMembers(slots: seq<Slot>, child: WinId)
    ensures forall slot | slot in DropChild(slots, child) ::
              slot in slots && !(slot.ClearsParentOf? && slot.child == child)
    ensures forall slot | slot in slots && !(slot.ClearsParentOf? && slot.child == child) ::
              slot in DropChild(slots, child)
  {
    if slots != [] {
      DropChildMembers(slots[1..], child);
    }
  }

  lemma {:induction false} DropChildDistinct(slots: seq<Slot>, child: WinId)
    requires ConnsDistinct(slots)
    ensures ConnsDistinct(DropChild(slots, child))
  {
    if slots != [] {
      DropChildDistinct(slots[1..], child);
      DropChildMembers(slots[1..], child);
      assert forall slot | slot in slots[1..] :: slot.conn != slots[0].conn;
    }
  }

  // No parent link leads to an unmapped window, so its deletion changes no other window's parent.
  lemma NoneFollowsUnmapped(l: Links, unmapped: set<WinId>, w: WinId)
    requires ParentsInv(l, unmapped, 0, []) && w in unmapped
    ensures forall c | c in l.parent :: l.parent[c] != w
    ensures forall c | c != w :: ParentOf(Unlink(l, w), c) == ParentOf(l, c)
  {
    forall c | c in l.parent ensures l.parent[c] != w {
      assert LinkOk(l, unmapped, c, 0, []);
    }
  }

  lemma UnlinkKeepsConns(l: Links, w: WinId)
    requires ConnsInv(l)
    ensures ConnsInv(Unlink(l, w))
  {
    var l' := Unlink(l, w);
    forall x | x in l'.slots ensures ConnsDistinct(l'.slots[x]) {
      DropChildDistinct(l.slots[x], w);
    }
    forall x, slot | x in l'.slots && slot in l'.slots[x] ensures slot.conn < l'.nextConn {
      DropChildMembers(l.slots[x], w);
    }
  }

  lemma UnlinkKeeps(l: Links, unmapped: set<WinId>, w: WinId)
    requires ParentsInv(l, unmapped, 0, [])
    ensures ParentsInv(Unlink(l, w), unmapped - {w}, 0, [])
  {
    var l' := Unlink(l, w);
    forall c | c in l'.handles && c !in l'.parent ensures Stale(l', c) {
      assert if c in l.parent then LinkOk(l, unmapped, c, 0, []) else Stale(l, c);
    }
    forall x, slot | x in l'.slots && slot in l'.slots[x] ensures SlotExact(l', x, slot) {
      DropChildMembers(l.slots[x], w);
      assert SlotExact(l, x, slot);
    }
    forall c | c in l'.parent ensures LinkOk(l', unmapped - {w}, c, 0, []) {
      assert LinkOk(l, unmapped, c, 0, []);
      DropChildMembers(l.slots[l.parent[c]], w);
    }
  }

  lemma UnlinkKeepsPending(l: Links, w: WinId)
    ensures Unlink(l, w).slots.Keys == l.slots.Keys - {w}
    ensures var l' := Unlink(l, w);
            forall x | x in l'.slots ::
              && ManagerPending(l'.slots[x]) == ManagerPending(l.slots[x])
              && ModelPending(l'.slots[x]) == ModelPending(l.slots[x])
  {
    var l' := Unlink(l, w);
    forall x | x in l'.slots
      ensures ManagerPending(l'.slots[x]) == ManagerPending(l.slots[x])
      ensures ModelPending(l'.slots[x]) == ModelPending(l.slots[x])
    {
      DropChildMembers(l.slots[x], w);
    }
  }

  // Once unmapped, a window is in no list: `destroyed` has nothing left to do.
  lemma DestroyedIsNoOp(s: World, w: WinId)
    requires Inv(s) && w in s.unmapped
    ensures w !in s.windows && s.active != Some(w) && (s.model.Some? ==> w !in s.model.value.rows)
    ensures ModelForgets(ManagerForgets(s, w), w) == s
  {
    assert !ManagerPending([]) && !ModelPending([]);
    WithoutAbsent(s.windows, w);
  }

  // What the two slots of `destroyed` leave of the lists.
  lemma ForgottenLists(s: World, w: WinId)
    requires Inv(s)
    ensures var t := ModelForgets(ManagerForgets(s, w), w);
            && t.windows == Without(s.windows, w) && Distinct(t.windows)
            && t.active == (if s.active == Some(w) then None else s.active)
            && t.model.Some? == s.model.Some?
            && (s.model.Some? ==> t.model.value.rows == Without(s.model.value.rows, w) && Distinct(t.model.value.rows))
  {
    WithoutDistinct(s.windows, w);
    if s.model.Some? {
      var rows := s.model.value.rows;
      WithoutDistinct(rows, w);
      if w in rows {
        RemoveFirstIsWithout(rows, w);
      } else {
        WithoutAbsent(rows, w);
      }
    }
  }

  lemma DeleteKeeps(s: World, w: WinId)
    requires Inv(s) && w in s.attrs
    ensures Inv(Delete(s, w))
  {
    hide WindowsInv, ActiveInv, RowsInv, Subscribed, ConnsInv, ParentsInv;
    ForgottenLists(s, w);
    UnlinkKeepsConns(s.links, w);
    UnlinkKeeps(s.links, s.unmapped, w);
    DeleteKeepsWindows(s, w);
    DeleteKeepsRows(s, w);
  }

  lemma DeleteKeepsWindows(s: World, w: WinId)
    requires Inv(s) && w in s.attrs
    ensures WindowsInv(Delete(s, w), 0, []) && ActiveInv(Delete(s, w))
  {
    hide RowsInv, Subscribed, ConnsInv, ParentsInv, HandlesOld, ModelForgets, ManagerForgets, Unlink;
    hide ManagerPending, ModelPending, Without;
    ForgottenLists(s, w);
    UnlinkKeepsPending(s.links, w);
    WithoutMembers(s.windows, w);
  }

  lemma DeleteKeepsRows(s: World, w: WinId)
    requires Inv(s) && w in s.attrs
    ensures RowsInv(Delete(s, w), 0, []) && Subscribed(Delete(s, w))
  {
    hide ConnsInv, ParentsInv, HandlesOld, ActiveInv, ModelForgets, ManagerForgets, Unlink;
    hide ManagerPending, ModelPending, Without;
    ForgottenLists(s, w);
    UnlinkKeepsPending(s.links, w);
    if s.model.Some? {
      WithoutMembers(s.model.value.rows, w);
    }
  }

  // ---------- coherence across delivery and deletion ----------

  lemma RunSlotKeepsCoherence(s: World, withPid: bool, w: WinId, slot: Slot)
    requires Coherent(s, withPid) && Subscribed(s)
    ensures Coherent(RunSlot(s, w, slot), withPid) && Subscribed(RunSlot(s, w, slot))
  {
    if slot.ModelRemoves? {
      ModelForgetsKeepsCoherence(s, withPid, w);
    } else {
      assert RunSlot(s, w, slot).model == s.model;
    }
  }

  lemma {:induction false} RunSlotsKeepsCoherence(s: World, withPid: bool, w: WinId, slots: seq<Slot>)
    requires Coherent(s, withPid) && Subscribed(s)
    ensures Coherent(RunSlots(s, w, slots), withPid)
    decreases |slots|
  {
    if slots != [] {
      RunSlotKeepsCoherence(s, withPid, w, slots[0]);
      RunSlotsKeepsCoherence(RunSlot(s, w, slots[0]), withPid, w, slots[1..]);
    }
  }

  lemma DeleteKeepsCoherence(s: World, withPid: bool, w: WinId)
    requires Inv(s) && Coherent(s, withPid)
    ensures Coherent(Delete(s, w), withPid)
  {
    var t := ModelForgets(ManagerForgets(s, w), w);
    ModelForgetsKeepsCoherence(ManagerForgets(s, w), withPid, w);
    ForgottenLists(s, w);
    if s.model.Some? {
      WithoutMembers(s.model.value.rows, w);
      OtherAttrsDoNotMatter(t.model.value, s.attrs, withPid, w);
    }
  }

  lemma OtherAttrsDoNotMatter(m: Model, attrs: map<WinId, Attrs>, withPid: bool, w: WinId)
    requires CoherentExcept(m, attrs, withPid, 0, {}) && w !in m.rows
    ensures CoherentExcept(m, attrs - {w}, withPid, 0, {})
  {
  }

  // ---------- every event, every run ----------

  // An attribute event of w that concerns neither links, nor the active window, nor the flags.
  ghost predicate Quiet(s: World, t: World, w: WinId)
    requires w in s.attrs
  {
    OnlyAttrs(s, t, w) && t.active == s.active && t.signals == s.signals && t.attrs[w].flags == s.attrs[w].flags
  }

  lemma UpdateQuiet(s: World, w: WinId, a: Attrs, sig: Signal)
    requires w in s.attrs && a.native == s.attrs[w].native && a.flags == s.attrs[w].flags && sig != ActiveChanged
    ensures Quiet(s, Update(s, w, a, sig), w)
  {
    UpdateOnly(s, w, a, sig);
  }

  lemma DesktopsQuiet(s: World, w: WinId, desktops: seq<string>, sig: Signal)
    requires w in s.attrs && sig != ActiveChanged
    ensures var t := Update(s, w, s.attrs[w].(desktops := desktops), sig);
            Quiet(s, t, w) && Quiet(s, Emit(t, w, OnAllDesktopsChanged), w)
  {
    var a := s.attrs[w].(desktops := desktops);
    UpdateQuiet(s, w, a, sig);
    EmitOnly(Update(s, w, a, sig), w, OnAllDesktopsChanged);
  }

  // The changes of one field, and the two changes of the desktop list.
  lemma SetterQuiet(s: World, w: WinId, ch: Change)
    requires w in s.attrs && !ch.State? && !ch.DesktopEntered? && !ch.DesktopLeft?
    ensures Quiet(s, Apply(s, w, ch), w)
  {
    hide Update, OnlyAttrs, SetPid;
    SelfOnly(s, w);
    var a := s.attrs[w];
    match ch
    case Title(title) => UpdateQuiet(s, w, a.(title := title), TitleChanged);
    case AppIdentifier(appId) => UpdateQuiet(s, w, a.(appId := appId), AppIdChanged);
    case NewIcon(icon) => UpdateQuiet(s, w, a.(icon := icon), IconChanged);
    case NewGeometry(geometry) => UpdateQuiet(s, w, a.(geometry := geometry), GeometryChanged);
    case NewPid(pid) => PidQuiet(s, w, pid);
  }

  lemma PidQuiet(s: World, w: WinId, pid: nat)
    requires w in s.attrs
    ensures Quiet(s, SetPid(s, w, pid), w)
  {
  }

  lemma ApplyQuiet(s: World, w: WinId, ch: Change)
    requires w in s.attrs && !ch.State?
    ensures Quiet(s, Apply(s, w, ch), w)
  {
    hide Update, Emit, Quiet;
    var d := s.attrs[w].desktops;
    if ch.DesktopEntered? {
      DesktopsQuiet(s, w, d + [ch.id], PlasmaVirtualDesktopEntered);
    } else if ch.DesktopLeft? {
      DesktopsQuiet(s, w, Without(d, ch.id), PlasmaVirtualDesktopLeft);
    } else {
      SetterQuiet(s, w, ch);
    }
  }

  lemma PidKeepsCoherence(s: World, w: WinId, pid: nat)
    requires w in s.attrs && Coherent(s, false) && Subscribed(s)
    ensures Coherent(SetPid(s, w, pid), false) && Subscribed(SetPid(s, w, pid))
  {
    WriteStales(s, false, w, s.attrs[w].(pid := pid), {});
    CleanIsCoherent(s.(attrs := s.attrs[w := s.attrs[w].(pid := pid)]), false, w);
  }

  // Every attribute event but a change of pid keeps the view coherent in the roles considered.
  lemma ApplyKeepsCoherence(s: World, w: WinId, ch: Change, withPid: bool)
    requires w in s.attrs && Coherent(s, withPid) && Subscribed(s)
    requires withPid ==> !ch.NewPid?
    ensures Coherent(Apply(s, w, ch), withPid) && Subscribed(Apply(s, w, ch))
  {
    hide Coherent, Subscribed, Update, SetFlags, SetPid, EnterDesktop, LeaveDesktop;
    var a := s.attrs[w];
    match ch
    case State(state) => SetFlagsKeepsCoherence(s, withPid, w, state, SetterOrder());
    case Title(title) => UpdateKeepsCoherence(s, withPid, w, a.(title := title), TitleChanged);
    case AppIdentifier(appId) => UpdateKeepsCoherence(s, withPid, w, a.(appId := appId), AppIdChanged);
    case NewIcon(icon) => UpdateKeepsCoherence(s, withPid, w, a.(icon := icon), IconChanged);
    case NewGeometry(geometry) => UpdateKeepsCoherence(s, withPid, w, a.(geometry := geometry), GeometryChanged);
    case NewPid(pid) => PidKeepsCoherence(s, w, pid);
    case DesktopEntered(id) => EnterLeaveKeepCoherence(s, withPid, w, id);
    case DesktopLeft(id) => EnterLeaveKeepCoherence(s, withPid, w, id);
  }

  ghost predicate PidEvent(e: Event) {
    e.ChangeEvent? && e.change.NewPid?
  }

  lemma {:induction false} StepKeepsCoherence(s: World, e: Event, withPid: bool)
    requires Possible(s, e) && Inv(s) && Coherent(s, withPid)
    requires withPid ==> !PidEvent(e)
    ensures Coherent(Step(s, e), withPid)
  {
    match e
    case ReleaseEvent => ResetKeepsCoherence(s.(signals := s.signals + [InterfaceAboutToBeReleased]), withPid);
    case CreateModelEvent => AddRowsKeepsCoherence(s.(model := Some(Model([], []))), withPid, s.windows);
    case InitialStateEvent(w) => AddRowKeepsCoherence(s.(signals := s.signals + [WindowCreated(w)]), withPid, w);
    case UnmappedEvent(w) => RunSlotsKeepsCoherence(MarkUnmapped(s, w), withPid, w, s.links.slots[w]);
    case DeletedEvent(w) => DeleteKeepsCoherence(s, withPid, w);
    case ChangeEvent(w, ch) => ApplyKeepsCoherence(s, w, ch, withPid);
    case _ =>
  }

  lemma ApplyKeeps(s: World, w: WinId, ch: Change)
    requires w in s.attrs && Inv(s) && Subscribed(Apply(s, w, ch))
    ensures Inv(Apply(s, w, ch))
  {
    if ch.State? {
      StateMovesActive(s, w, ch.state);
      StateKeepsActive(s, w, ch.state);
    } else {
      ApplyQuiet(s, w, ch);
    }
    SameLinksKeep(s, Apply(s, w, ch));
  }

  // The invariant does not look at signals and binding, and an emptied model satisfies it as well.
  lemma ManagerEventKeeps(s: World, e: Event)
    requires Possible(s, e) && Inv(s) && (e.SetupEvent? || e.ReleaseEvent? || e.DestroyEvent?)
    ensures Inv(Step(s, e))
  {
    hide ConnsInv, ParentsInv, HandlesOld;
  }

  lemma SignalsDoNotMatter(s: World, signal: ManagerSignal)
    requires Inv(s)
    ensures Inv(s.(signals := s.signals + [signal]))
    ensures forall withPid :: Coherent(s, withPid) ==> Coherent(s.(signals := s.signals + [signal]), withPid)
  {
    hide ConnsInv, ParentsInv, HandlesOld, CoherentExcept;
  }

  lemma InitialStateKeeps(s: World, w: WinId)
    requires Inv(s) && Coherent(s, false) && w in s.attrs
    ensures Inv(InitialState(s, w))
  {
    if w !in s.unmapped {
      SignalsDoNotMatter(s, WindowCreated(w));
      AddRowKeeps(s.(signals := s.signals + [WindowCreated(w)]), w);
    }
  }

  lemma CreateModelKeeps(s: World)
    requires Inv(s) && s.model.None?
    ensures Inv(CreateModel(s))
  {
    var t := s.(model := Some(Model([], [])));
    EmptyModelKeeps(s, t);
    AddRowsKeeps(t, s.windows);
  }

  lemma EmptyModelKeeps(s: World, t: World)
    requires Inv(s) && s.model.None? && t == s.(model := Some(Model([], [])))
    ensures Inv(t) && Coherent(t, false)
  {
    hide ConnsInv, ParentsInv, HandlesOld;
  }

  lemma {:induction false} StepKeepsInv(s: World, e: Event)
    requires Possible(s, e) && Inv(s) && Coherent(s, false)
    ensures Inv(Step(s, e))
  {
    hide WindowsInv, ActiveInv, RowsInv, ConnsInv, ParentsInv, HandlesOld, Coherent;
    match e
    case CreateModelEvent => CreateModelKeeps(s);
    case WindowEvent(native, version, uuid) => AddWindowKeeps(s, native, version, uuid);
    case InitialStateEvent(w) => InitialStateKeeps(s, w);
    case UnmappedEvent(w) => UnmapKeeps(s, w);
    case DeletedEvent(w) => DeleteKeeps(s, w);
    case ParentEvent(w, native) => SetParentKeeps(s, w, ParentTarget(s, native));
    case ChangeEvent(w, ch) => ApplyKeepsCoherence(s, w, ch, false); ApplyKeeps(s, w, ch);
    case _ => ManagerEventKeeps(s, e);
  }

  lemma {:induction false} RunKeeps(events: seq<Event>)
    requires Outcome(events).Some?
    ensures Inv(Outcome(events).value) && Coherent(Outcome(events).value, false)
    decreases |events|
  {
    if events != [] {
      var before := events[..|events| - 1];
      RunKeeps(before);
      StepKeepsCoherence(Outcome(before).value, events[|events| - 1], false);
      StepKeepsInv(Outcome(before).value, events[|events| - 1]);
    }
  }
}
