/**
 The client-side state of window management as a value: the windows that exist, their parent links,
 their subscriptions, the manager's list and active window, and the item model with everything it has
 told its views. Each server event is a function on this state; the classes of PlasmaWindows run the
 same steps on objects.
 */
module PlasmaWindowWorld {
  import opened Collections
  import opened PlasmaWindowData

  // Windows are numbered in creation order; a number is never reused.
  type WinId = nat

  // One subscription to a window's `unmapped` signal.
  datatype Slot =
    | ManagerRemoves(conn: nat)                 // windowRemoved, set up by windowCreated
    | ModelRemoves(conn: nat)                   // removeWindow, set up by addWindow
    | ClearsParentOf(conn: nat, child: WinId)   // set up by the child's setParentWindow

  // QMetaObject::Connection: the handle that identifies one subscription.
  datatype Connection = Connection(sender: WinId, conn: nat)

  // What PlasmaWindowModel tells its views, with what the view finds if it reads the model at once.
  datatype Notice =
    | RowInserted(row: nat, window: WinId, values: map<Role, Value>)
    | RowRemoved(row: nat)
    | ModelReset
    | DataChanged(index: int, role: Role, value: Value)

  datatype Model = Model(rows: seq<WinId>, trace: seq<Notice>)

  datatype ManagerSignal =
    | ActiveWindowChanged
    | WindowCreated(window: WinId)
    | ParentWindowChanged(window: WinId)
    | Unmapped(window: WinId)
    | InterfaceAboutToBeReleased
    | InterfaceAboutToBeDestroyed

  datatype Links = Links(
    parent: map<WinId, WinId>,            // the non-null parent pointers
    handles: map<WinId, Connection>,      // the valid parentWindowUnmappedConnection handles
    slots: map<WinId, seq<Slot>>,         // the subscriptions to `unmapped`, in connection order
    nextConn: nat)

  datatype World = World(
    attrs: map<WinId, Attrs>,             // the windows that exist
    unmapped: set<WinId>,
    links: Links,
    bundles: map<WinId, nat>,             // how often addWindow has subscribed to the window
    windows: seq<WinId>,
    active: Option<WinId>,
    model: Option<Model>,
    bound: bool,
    nextId: WinId,
    signals: seq<ManagerSignal>)

  function Initial(): World {
    World(map[], {}, Links(map[], map[], map[], 0), map[], [], None, None, false, 0, [])
  }

  // ---------- signals that reach the model ----------

  // PlasmaWindowModel::data: an index outside the rows gives an invalid QVariant.
  function DataAt(rows: seq<WinId>, attrs: map<WinId, Attrs>, index: int, role: Role): Value {
    if 0 <= index < |rows| && rows[index] in attrs then Data(attrs[rows[index]], role) else Invalid
  }

  // PlasmaWindowModel::Private::dataChanged; the index is invalid when the window has no row.
  function Notify(m: Model, attrs: map<WinId, Attrs>, w: WinId, role: Role): Model {
    var index := IndexOf(m.rows, w);
    m.(trace := m.trace + [DataChanged(index, role, DataAt(m.rows, attrs, index, role))])
  }

  function NotifyTimes(m: Model, attrs: map<WinId, Attrs>, w: WinId, role: Role, n: nat): Model {
    if n == 0 then m else Notify(NotifyTimes(m, attrs, w, role, n - 1), attrs, w, role)
  }

  function EmitToModel(s: World, w: WinId, role: Role): World {
    if s.model.None? || w !in s.bundles then s
    else s.(model := Some(NotifyTimes(s.model.value, s.attrs, w, role, s.bundles[w])))
  }

  // The manager's own subscription to activeChanged.
  function FollowActive(s: World, w: WinId): (t: World)
    ensures t == s.(active := t.active, signals := t.signals)
  {
    if w in s.unmapped || w !in s.attrs then s
    else if Active in s.attrs[w].flags then
      if s.active == Some(w) then s
      else s.(active := Some(w), signals := s.signals + [ActiveWindowChanged])
    else if s.active == Some(w) then
      s.(active := None, signals := s.signals + [ActiveWindowChanged])
    else s
  }

  function Emit(s: World, w: WinId, sig: Signal): World {
    EmitToModel(if sig == ActiveChanged then FollowActive(s, w) else s, w, RoleOfSignal(sig))
  }

  // A field write followed by the signal that announces it.
  function Update(s: World, w: WinId, a: Attrs, sig: Signal): World {
    Emit(s.(attrs := s.attrs[w := a]), w, sig)
  }

  // ---------- attribute events ----------

  function SetFlag(s: World, w: WinId, f: StateFlag, on: bool): World
    requires w in s.attrs
  {
    var a := s.attrs[w];
    if (f in a.flags) == on then s
    else Update(s, w, a.(flags := Toggle(a.flags, f, on)), SignalOfSetter(f))
  }

  function SetFlags(s: World, w: WinId, state: set<StateFlag>, order: seq<StateFlag>): (r: World)
    requires w in s.attrs
    ensures r.attrs.Keys == s.attrs.Keys
    decreases |order|
  {
    if order == [] then s
    else
      var before := SetFlags(s, w, state, order[..|order| - 1]);
      var f := order[|order| - 1];
      SetFlag(before, w, f, f in state)
  }

  function SetTitle(s: World, w: WinId, title: string): World
    requires w in s.attrs
  {
    if s.attrs[w].title == title then s
    else Update(s, w, s.attrs[w].(title := title), TitleChanged)
  }

  function SetAppId(s: World, w: WinId, appId: string): World
    requires w in s.attrs
  {
    if s.attrs[w].appId == appId then s
    else Update(s, w, s.attrs[w].(appId := appId), AppIdChanged)
  }

  function SetIcon(s: World, w: WinId, icon: nat): World
    requires w in s.attrs
  {
    Update(s, w, s.attrs[w].(icon := icon), IconChanged)
  }

  function SetGeometry(s: World, w: WinId, geometry: Rect): World
    requires w in s.attrs
  {
    if s.attrs[w].geometry == geometry then s
    else Update(s, w, s.attrs[w].(geometry := geometry), GeometryChanged)
  }

  // pidChangedCallback has no signal.
  function SetPid(s: World, w: WinId, pid: nat): World
    requires w in s.attrs
  {
    if s.attrs[w].pid == pid then s
    else s.(attrs := s.attrs[w := s.attrs[w].(pid := pid)])
  }

  function EnterDesktop(s: World, w: WinId, id: string): World
    requires w in s.attrs
  {
    var a := s.attrs[w].(desktops := s.attrs[w].desktops + [id]);
    var entered := Update(s, w, a, PlasmaVirtualDesktopEntered);
    if |a.desktops| == 1 then Emit(entered, w, OnAllDesktopsChanged) else entered
  }

  function LeaveDesktop(s: World, w: WinId, id: string): World
    requires w in s.attrs
  {
    var a := s.attrs[w].(desktops := Without(s.attrs[w].desktops, id));
    var left := Update(s, w, a, PlasmaVirtualDesktopLeft);
    if a.desktops == [] then Emit(left, w, OnAllDesktopsChanged) else left
  }

  // ---------- parent links ----------

  function DropConn(slots: seq<Slot>, conn: nat): seq<Slot> {
    if slots == [] then []
    else (if slots[0].conn == conn then [] else [slots[0]]) + DropConn(slots[1..], conn)
  }

  // QObject::disconnect with the child's handle; an invalid or stale handle does nothing.
  function Disconnect(l: Links, c: WinId): Links {
    if c in l.handles && l.handles[c].sender in l.slots then
      var h := l.handles[c];
      l.(slots := l.slots[h.sender := DropConn(l.slots[h.sender], h.conn)])
    else l
  }

  function ParentOf(l: Links, c: WinId): Option<WinId> {
    if c in l.parent then Some(l.parent[c]) else None
  }

  function Relink(l: Links, unmapped: set<WinId>, c: WinId, p: Option<WinId>): Links {
    if p.Some? && p.value in l.slots && p.value !in unmapped then
      Links(l.parent[c := p.value],
            l.handles[c := Connection(p.value, l.nextConn)],
            l.slots[p.value := l.slots[p.value] + [ClearsParentOf(l.nextConn, c)]],
            l.nextConn + 1)
    else
      l.(parent := l.parent - {c}, handles := l.handles - {c})
  }

  function SetParent(s: World, c: WinId, p: Option<WinId>): World {
    var links := Relink(Disconnect(s.links, c), s.unmapped, c, p);
    var emitted := if ParentOf(links, c) != ParentOf(s.links, c) then [ParentWindowChanged(c)] else [];
    s.(links := links, signals := s.signals + emitted)
  }

  // The first window of the list that wraps the native object.
  function FindNative(windows: seq<WinId>, attrs: map<WinId, Attrs>, native: nat): (r: Option<WinId>)
    ensures r.Some? ==> r.value in windows && r.value in attrs && attrs[r.value].native == native
    ensures r.None? ==> forall w | w in windows && w in attrs :: attrs[w].native != native
  {
    if windows == [] then None
    else if windows[0] in attrs && attrs[windows[0]].native == native then Some(windows[0])
    else FindNative(windows[1..], attrs, native)
  }

  // ---------- rows ----------

  // QObject::connect: a new subscription goes to the end of the sender's list.
  function Subscribe(l: Links, w: WinId, slot: Slot): Links {
    l.(slots := l.slots[w := (if w in l.slots then l.slots[w] else []) + [slot]],
       nextConn := l.nextConn + 1)
  }

  function AddRow(s: World, w: WinId): World {
    if s.model.None? || w !in s.attrs || w in s.model.value.rows then s
    else
      var m := s.model.value;
      s.(model := Some(Model(m.rows + [w],
                             m.trace + [RowInserted(|m.rows|, w, RowData(s.attrs[w]))])),
         links := Subscribe(s.links, w, ModelRemoves(s.links.nextConn)),
         bundles := s.bundles[w := (if w in s.bundles then s.bundles[w] else 0) + 1])
  }

  function AddRows(s: World, ws: seq<WinId>): World
    decreases |ws|
  {
    if ws == [] then s else AddRow(AddRows(s, ws[..|ws| - 1]), ws[|ws| - 1])
  }

  function RemoveRow(m: Model, w: WinId): Model {
    var row := IndexOf(m.rows, w);
    if row == -1 then m
    else Model(RemoveAt(m.rows, row), m.trace + [RowRemoved(row)])
  }

  function ModelForgets(s: World, w: WinId): (t: World)
    ensures t == s.(model := t.model)
  {
    if s.model.None? then s else s.(model := Some(RemoveRow(s.model.value, w)))
  }

  function ManagerForgets(s: World, w: WinId): (t: World)
    ensures t == s.(windows := t.windows, active := t.active, signals := t.signals)
  {
    var t := s.(windows := Without(s.windows, w));
    if s.active == Some(w) then
      t.(active := None, signals := t.signals + [ActiveWindowChanged])
    else t
  }

  // ---------- life cycle ----------

  function AddWindow(s: World, native: nat, version: nat, uuid: string): World {
    var w := s.nextId;
    s.(attrs := s.attrs[w := Attrs(native, version, uuid, "", "", 0, 0, {}, [], Rect(0, 0, 0, 0))],
       links := Subscribe(s.links, w, ManagerRemoves(s.links.nextConn)),
       windows := s.windows + [w],
       nextId := s.nextId + 1)
  }

  function RunSlot(s: World, w: WinId, slot: Slot): World {
    if w !in s.links.slots || slot !in s.links.slots[w] then s
    else
      match slot
      case ManagerRemoves(_) => ManagerForgets(s, w)
      case ModelRemoves(_) => ModelForgets(s, w)
      case ClearsParentOf(_, child) => SetParent(s, child, None)
  }

  // Signal delivery: the subscriptions present at emission, in order, unless disconnected meanwhile.
  function RunSlots(s: World, w: WinId, slots: seq<Slot>): World
    decreases |slots|
  {
    if slots == [] then s
    else RunSlots(RunSlot(s, w, slots[0]), w, slots[1..])
  }

  function Unmap(s: World, w: WinId): World
    requires w in s.links.slots
  {
    RunSlots(s.(unmapped := s.unmapped + {w}, signals := s.signals + [Unmapped(w)]), w, s.links.slots[w])
  }

  function DropChild(slots: seq<Slot>, child: WinId): seq<Slot> {
    if slots == [] then []
    else (if slots[0].ClearsParentOf? && slots[0].child == child then [] else [slots[0]])
         + DropChild(slots[1..], child)
  }

  // Pointers to the window become null and the subscriptions it made vanish, without any signal.
  function Unlink(l: Links, w: WinId): Links {
    l.(parent := map c | c in l.parent && c != w && l.parent[c] != w :: l.parent[c],
       handles := l.handles - {w},
       slots := map x | x in l.slots && x != w :: DropChild(l.slots[x], w))
  }

  // The window object goes, deferred after `unmapped` or at any other time: `destroyed` reaches the manager
  // and the model.
  function Delete(s: World, w: WinId): World {
    var t := ModelForgets(ManagerForgets(s, w), w);
    t.(attrs := t.attrs - {w}, unmapped := t.unmapped - {w}, links := Unlink(t.links, w),
       bundles := t.bundles - {w})
  }

  function InitialState(s: World, w: WinId): World {
    if w in s.unmapped then s
    else AddRow(s.(signals := s.signals + [WindowCreated(w)]), w)
  }

  function CreateModel(s: World): World {
    AddRows(s.(model := Some(Model([], []))), s.windows)
  }

  function Reset(s: World): World {
    if s.model.None? then s
    else s.(model := Some(Model([], s.model.value.trace + [ModelReset])))
  }

  function Release(s: World): World {
    if !s.bound then s
    else Reset(s.(signals := s.signals + [InterfaceAboutToBeReleased])).(bound := false)
  }

  function Destroy(s: World): World {
    if !s.bound then s
    else s.(signals := s.signals + [InterfaceAboutToBeDestroyed], bound := false)
  }

  // ---------- events ----------

  // The events that change an attribute of one window.
  datatype Change =
    | State(state: set<StateFlag>)
    | Title(title: string)
    | AppIdentifier(appId: string)
    | NewIcon(icon: nat)
    | NewGeometry(geometry: Rect)
    | NewPid(pid: nat)
    | DesktopEntered(id: string)
    | DesktopLeft(id: string)

  datatype Event =
    | SetupEvent
    | ReleaseEvent
    | DestroyEvent
    | CreateModelEvent
    | WindowEvent(native: nat, version: nat, uuid: string)
    | InitialStateEvent(w: WinId)
    | UnmappedEvent(w: WinId)
    | DeletedEvent(w: WinId)
    | ParentEvent(w: WinId, parentNative: Option<nat>)
    | ChangeEvent(w: WinId, change: Change)

  // An event can only reach an object that exists; setup asserts that the manager is unbound; the model is
  // created once.
  predicate Possible(s: World, e: Event) {
    match e
    case SetupEvent => !s.bound
    case ReleaseEvent => true
    case DestroyEvent => true
    case CreateModelEvent => s.model.None?
    case WindowEvent(_, _, _) => true
    case DeletedEvent(w) => w in s.attrs
    case _ => e.w in s.attrs && e.w in s.links.slots
  }

  function ParentTarget(s: World, parentNative: Option<nat>): Option<WinId> {
    if parentNative.None? then None else FindNative(s.windows, s.attrs, parentNative.value)
  }

  function Apply(s: World, w: WinId, change: Change): World
    requires w in s.attrs
  {
    match change
    case State(state) => SetFlags(s, w, state, SetterOrder())
    case Title(title) => SetTitle(s, w, title)
    case AppIdentifier(appId) => SetAppId(s, w, appId)
    case NewIcon(icon) => SetIcon(s, w, icon)
    case NewGeometry(geometry) => SetGeometry(s, w, geometry)
    case NewPid(pid) => SetPid(s, w, pid)
    case DesktopEntered(id) => EnterDesktop(s, w, id)
    case DesktopLeft(id) => LeaveDesktop(s, w, id)
  }

  function Step(s: World, e: Event): World
    requires Possible(s, e)
  {
    match e
    case SetupEvent => s.(bound := true)
    case ReleaseEvent => Release(s)
    case DestroyEvent => Destroy(s)
    case CreateModelEvent => CreateModel(s)
    case WindowEvent(native, version, uuid) => AddWindow(s, native, version, uuid)
    case InitialStateEvent(w) => InitialState(s, w)
    case UnmappedEvent(w) => Unmap(s, w)
    case DeletedEvent(w) => Delete(s, w)
    case ParentEvent(w, native) => SetParent(s, w, ParentTarget(s, native))
    case ChangeEvent(w, change) => Apply(s, w, change)
  }

  // The state a list of events leads to, if each of them is possible where it happens.
  ghost function Outcome(events: seq<Event>): Option<World>
    decreases |events|
  {
    if events == [] then Some(Initial())
    else
      var before := Outcome(events[..|events| - 1]);
      var e := events[|events| - 1];
      if before.Some? && Possible(before.value, e) then Some(Step(before.value, e)) else None
  }
}
