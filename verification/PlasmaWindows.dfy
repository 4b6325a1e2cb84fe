/**
 PlasmaWindow, PlasmaWindowModel and PlasmaWindowManagement as classes. Every callback updates fields
 and delivers the signals it emits; its contract says that the objects make exactly the step of
 PlasmaWindowWorld, whose runs are the subject of PlasmaWindowTheorems and PlasmaWindowSignals. A
 pointer to a window is the window's number; the callbacks of a window are methods of the management,
 which knows who is subscribed to the window.
 */
module PlasmaWindows {
  import opened Collections
  import opened PlasmaWindowData
  import opened PlasmaWindowWorld
  import opened PlasmaWindowCoherence
  import opened PlasmaWindowInvariants
  import opened PlasmaWindowSteps
  import opened PlasmaWindowTheorems
  import opened PlasmaWindowSignals

  // ---------- one more turn of a loop over a list ----------

  lemma SetFlagsNext(s: World, w: WinId, state: set<StateFlag>, order: seq<StateFlag>, k: nat)
    requires w in s.attrs && k < |order|
    ensures w in SetFlags(s, w, state, order[..k]).attrs
    ensures SetFlags(s, w, state, order[..k + 1])
         == SetFlag(SetFlags(s, w, state, order[..k]), w, order[k], order[k] in state)
  {
    assert order[..k + 1][..k] == order[..k];
  }

  lemma RunSlotsNext(s: World, w: WinId, slots: seq<Slot>, k: nat)
    requires k < |slots|
    ensures PlasmaWindowWorld.RunSlots(s, w, slots[k..])
         == PlasmaWindowWorld.RunSlots(PlasmaWindowWorld.RunSlot(s, w, slots[k]), w, slots[k + 1..])
  {
    assert slots[k..][1..] == slots[k + 1..];
  }

  lemma NoRowsAdded(s: World, ws: seq<WinId>)
    ensures AddRows(s, ws[..0]) == s
  {
  }

  lemma AddRowsNext(s: World, ws: seq<WinId>, k: nat)
    requires k < |ws|
    ensures AddRows(s, ws[..k + 1]) == PlasmaWindowWorld.AddRow(AddRows(s, ws[..k]), ws[k])
  {
    assert ws[..k + 1][..k] == ws[..k];
  }

  // What the callbacks rely on in every reachable state.
  ghost predicate Ready(s: World) {
    s.links.slots.Keys == s.attrs.Keys && s.nextId !in s.attrs && s.nextId !in s.unmapped
  }

  lemma ReachableIsReady(events: seq<Event>, s: World, e: Event)
    requires Outcome(events) == Some(s) && Possible(s, e)
    ensures Ready(s) && Outcome(events + [e]) == Some(Step(s, e))
  {
    RunKeeps(events);
    assert (events + [e])[..|events|] == events;
  }

  class PlasmaWindow {
    var d: Attrs   // the attributes, as in PlasmaWindow::Private
    var unmapped: bool

    constructor (native: nat, version: nat, uuid: string)
      ensures d == Attrs(native, version, uuid, "", "", 0, 0, {}, [], Rect(0, 0, 0, 0)) && !unmapped
    {
      d := Attrs(native, version, uuid, "", "", 0, 0, {}, [], Rect(0, 0, 0, 0));
      unmapped := false;
    }
  }

  class PlasmaWindowModel {
    var windows: seq<WinId>
    ghost var trace: seq<Notice>

    constructor ()
      ensures windows == [] && trace == []
    {
      windows, trace := [], [];
    }

    // The row part of Private::addWindow
    method InsertRow(w: WinId, ghost values: map<Role, Value>)
      modifies this
      ensures windows == old(windows) + [w]
      ensures trace == old(trace) + [RowInserted(old(|windows|), w, values)]
    {
      trace := trace + [RowInserted(|windows|, w, values)];
      windows := windows + [w];
    }

    // The removeWindow closure of Private::addWindow
    method RemoveWindow(w: WinId)
      modifies this
      ensures Model(windows, trace) == RemoveRow(Model(old(windows), old(trace)), w)
    {
      var row := IndexOf(windows, w);
      if row != -1 {
        windows := RemoveAt(windows, row);
        trace := trace + [RowRemoved(row)];
      }
    }

    // The slot of interfaceAboutToBeReleased
    method Reset()
      modifies this
      ensures windows == [] && trace == old(trace) + [ModelReset]
    {
      windows := [];
      trace := trace + [ModelReset];
    }
  }

  class PlasmaWindowManagement {
    var objects: map<WinId, PlasmaWindow>     // the windows that exist
    var links: Links                          // parent pointers and Qt's connection lists of `unmapped`
    var bundles: map<WinId, nat>              // how often the model is connected to a window's other signals
    var windows: seq<WinId>
    var activeWindow: Option<WinId>
    var model: PlasmaWindowModel?
    var bound: bool
    var nextId: WinId
    ghost var world: World
    ghost var history: seq<Event>

    ghost predicate AttrsAgree(attrs: map<WinId, Attrs>)
      reads this`objects, objects.Values`d
    {
      && objects.Keys == attrs.Keys
      && (forall i | i in objects :: objects[i].d == attrs[i])
    }

    ghost predicate Apart()
      reads this`objects
    {
      forall i, j | i in objects && j in objects && objects[i] == objects[j] :: i == j
    }

    ghost predicate UnmappedAgree(unmapped: set<WinId>)
      reads this`objects, objects.Values`unmapped
    {
      forall i | i in objects :: objects[i].unmapped <==> i in unmapped
    }

    ghost predicate ModelAgrees(m: Option<Model>)
      reads this`model, model
    {
      m == if model == null then None else Some(Model(model.windows, model.trace))
    }

    // The fields of the management itself.
    ghost predicate FieldsAgree(s: World)
      reads this`links, this`bundles, this`windows, this`activeWindow, this`bound, this`nextId
    {
      && links == s.links && bundles == s.bundles && windows == s.windows
      && activeWindow == s.active && bound == s.bound && nextId == s.nextId
    }

    ghost predicate Represents()
      reads this`objects, this`links, this`bundles, this`windows, this`activeWindow, this`model, this`bound,
            this`nextId, this`world, objects.Values, model
    {
      AttrsAgree(world.attrs) && RepresentsRest()
    }

    ghost predicate RepresentsRest()
      reads this`objects, this`links, this`bundles, this`windows, this`activeWindow, this`model, this`bound,
            this`nextId, this`world, objects.Values, model
    {
      && UnmappedAgree(world.unmapped) && Apart() && ModelAgrees(world.model) && FieldsAgree(world)
    }

    function At(w: WinId): PlasmaWindow
      requires w in objects
      reads this`objects
    {
      objects[w]
    }

    // The objects are what the events delivered so far lead to.
    ghost predicate Valid()
      reads this, objects.Values, model
    {
      Represents() && Outcome(history) == Some(world)
    }

    constructor ()
      ensures Valid() && history == [] && objects == map[] && model == null
    {
      objects, links, bundles, windows := map[], Links(map[], map[], map[], 0), map[], [];
      activeWindow, model, bound, nextId := None, null, false, 0;
      world, history := Initial(), [];
    }

    // PlasmaWindowModel::data
    method Data(index: int, role: Role) returns (value: Value)
      requires Represents() && model != null
      ensures value == DataAt(world.model.value.rows, world.attrs, index, role)
    {
      if index < 0 || index >= |model.windows| || model.windows[index] !in objects {
        return Invalid;
      }
      return PlasmaWindowData.Data(objects[model.windows[index]].d, role);
    }

    // ---------- signal delivery ----------

    // PlasmaWindowModel::Private::dataChanged, run by one subscription.
    method NotifyModel(w: WinId, role: Role)
      requires Represents() && model != null
      modifies this`world, model`trace
      ensures Represents()
      ensures world == old(world).(model := Some(Notify(old(world).model.value, old(world).attrs, w, role)))
    {
      var index := IndexOf(model.windows, w);
      var value := Data(index, role);
      model.trace := model.trace + [DataChanged(index, role, value)];
      world := world.(model := Some(Model(model.windows, model.trace)));
    }

    // The model's subscriptions to a signal of w, one per call of addWindow for it.
    method EmitToModel(w: WinId, role: Role)
      requires Represents()
      modifies this`world, model
      ensures Represents()
      ensures world == PlasmaWindowWorld.EmitToModel(old(world), w, role)
    {
      hide AttrsAgree, UnmappedAgree, Apart;
      if model == null || w !in bundles {
        return;
      }
      var n := 0;
      while n < bundles[w]
        invariant n <= bundles[w]
        invariant Represents()
        invariant world == old(world).(model := Some(NotifyTimes(old(world).model.value, old(world).attrs, w, role, n)))
      {
        NotifyModel(w, role);
        n := n + 1;
      }
    }

    // The manager's subscription to activeChanged.
    method FollowActive(w: WinId)
      requires Represents() && w in objects
      modifies this`world, this`activeWindow
      ensures Represents()
      ensures world == PlasmaWindowWorld.FollowActive(old(world), w)
    {
      var window := objects[w];
      if window.unmapped {
        return;
      }
      if Active in window.d.flags {
        if activeWindow == Some(w) {
          return;
        }
        activeWindow := Some(w);
      } else {
        if activeWindow != Some(w) {
          return;
        }
        activeWindow := None;
      }
      world := world.(active := activeWindow, signals := world.signals + [ActiveWindowChanged]);
    }

    method Emit(w: WinId, sig: Signal)
      requires Represents() && w in objects
      modifies this`world, this`activeWindow, model
      ensures Represents()
      ensures world == PlasmaWindowWorld.Emit(old(world), w, sig)
    {
      if sig == ActiveChanged {
        FollowActive(w);
      }
      EmitToModel(w, RoleOfSignal(sig));
    }

    // A field write without its signal.
    method Write(w: WinId, a: Attrs)
      requires Represents() && w in objects
      modifies this`world, At(w)`d
      ensures Represents()
      ensures w in old(world).attrs && world == old(world).(attrs := old(world).attrs[w := a])
    {
      hide UnmappedAgree, ModelAgrees;
      var window := At(w);
      window.d := a;
      world := world.(attrs := world.attrs[w := a]);
    }

    method Update(w: WinId, a: Attrs, sig: Signal)
      requires Represents() && w in objects
      modifies this`world, this`activeWindow, At(w)`d, model
      ensures Represents()
      ensures w in old(world).attrs && world == PlasmaWindowWorld.Update(old(world), w, a, sig)
    {
      Write(w, a);
      Emit(w, sig);
    }

    // ---------- attribute callbacks ----------

    // The setX functions of the state flags.
    method SetFlag(w: WinId, f: StateFlag, on: bool)
      requires Represents() && w in objects
      modifies this`world, this`activeWindow, At(w)`d, model
      ensures Represents()
      ensures w in old(world).attrs && world == PlasmaWindowWorld.SetFlag(old(world), w, f, on)
    {
      var d := objects[w].d;
      if (f in d.flags) != on {
        Update(w, d.(flags := Toggle(d.flags, f, on)), SignalOfSetter(f));
      }
    }

    method RunSetters(w: WinId, state: set<StateFlag>, order: seq<StateFlag>)
      requires Represents() && w in objects
      modifies this`world, this`activeWindow, At(w)`d, model
      ensures Represents()
      ensures w in old(world).attrs && world == SetFlags(old(world), w, state, order)
    {
      var k := 0;
      while k < |order|
        invariant k <= |order| && Represents() && w in old(world).attrs
        invariant world == SetFlags(old(world), w, state, order[..k])
      {
        SetFlagsNext(old(world), w, state, order, k);
        SetFlag(w, order[k], order[k] in state);
        k := k + 1;
      }
      assert order[..|order|] == order;
    }

    // stateChangedCallback
    method StateChanged(w: WinId, state: set<StateFlag>)
      requires Represents() && w in objects
      modifies this`world, this`activeWindow, At(w)`d, model
      ensures Represents()
      ensures w in old(world).attrs && world == SetFlags(old(world), w, state, SetterOrder())
    {
      RunSetters(w, state, SetterOrder());
    }

    method TitleChanged(w: WinId, title: string)
      requires Represents() && w in objects
      modifies this`world, this`activeWindow, At(w)`d, model
      ensures Represents()
      ensures w in old(world).attrs && world == SetTitle(old(world), w, title)
    {
      if objects[w].d.title != title {
        Update(w, objects[w].d.(title := title), Signal.TitleChanged);
      }
    }

    method AppIdChanged(w: WinId, appId: string)
      requires Represents() && w in objects
      modifies this`world, this`activeWindow, At(w)`d, model
      ensures Represents()
      ensures w in old(world).attrs && world == SetAppId(old(world), w, appId)
    {
      if objects[w].d.appId != appId {
        Update(w, objects[w].d.(appId := appId), Signal.AppIdChanged);
      }
    }

    method IconChanged(w: WinId, icon: nat)
      requires Represents() && w in objects
      modifies this`world, this`activeWindow, At(w)`d, model
      ensures Represents()
      ensures w in old(world).attrs && world == SetIcon(old(world), w, icon)
    {
      Update(w, objects[w].d.(icon := icon), Signal.IconChanged);
    }

    method GeometryChanged(w: WinId, geometry: Rect)
      requires Represents() && w in objects
      modifies this`world, this`activeWindow, At(w)`d, model
      ensures Represents()
      ensures w in old(world).attrs && world == SetGeometry(old(world), w, geometry)
    {
      if objects[w].d.geometry != geometry {
        Update(w, objects[w].d.(geometry := geometry), Signal.GeometryChanged);
      }
    }

    method PidChanged(w: WinId, pid: nat)
      requires Represents() && w in objects
      modifies this`world, At(w)`d
      ensures Represents()
      ensures w in old(world).attrs && world == SetPid(old(world), w, pid)
    {
      if objects[w].d.pid != pid {
        Write(w, objects[w].d.(pid := pid));
      }
    }

    // What both desktop callbacks end with
    method SetDesktops(w: WinId, desktops: seq<string>, sig: Signal, again: bool)
      requires Represents() && w in objects
      modifies this`world, this`activeWindow, At(w)`d, model
      ensures Represents() && w in old(world).attrs
      ensures var t := PlasmaWindowWorld.Update(old(world), w, old(world).attrs[w].(desktops := desktops), sig);
              world == if again then PlasmaWindowWorld.Emit(t, w, OnAllDesktopsChanged) else t
    {
      assert objects[w].d == world.attrs[w];
      hide *;
      Update(w, objects[w].d.(desktops := desktops), sig);
      if again {
        Emit(w, OnAllDesktopsChanged);
      }
    }

    method VirtualDesktopEntered(w: WinId, id: string)
      requires Represents() && w in objects
      modifies this`world, this`activeWindow, At(w)`d, model
      ensures Represents()
      ensures w in old(world).attrs && world == EnterDesktop(old(world), w, id)
    {
      assert objects[w].d == world.attrs[w];
      hide Represents, PlasmaWindowWorld.Update, PlasmaWindowWorld.Emit;
      var desktops := objects[w].d.desktops + [id];
      SetDesktops(w, desktops, PlasmaVirtualDesktopEntered, |desktops| == 1);
    }

    method VirtualDesktopLeft(w: WinId, id: string)
      requires Represents() && w in objects
      modifies this`world, this`activeWindow, At(w)`d, model
      ensures Represents()
      ensures w in old(world).attrs && world == LeaveDesktop(old(world), w, id)
    {
      assert objects[w].d == world.attrs[w];
      hide Represents, PlasmaWindowWorld.Update, PlasmaWindowWorld.Emit;
      var desktops := Without(objects[w].d.desktops, id);
      SetDesktops(w, desktops, PlasmaVirtualDesktopLeft, desktops == []);
    }

    // ---------- parent links ----------

    // QObject::disconnect(parentWindowUnmappedConnection)
    method Disconnect(c: WinId)
      modifies this`links
      ensures links == PlasmaWindowWorld.Disconnect(old(links), c)
    {
      if c in links.handles && links.handles[c].sender in links.slots {
        var h := links.handles[c];
        links := links.(slots := links.slots[h.sender := DropConn(links.slots[h.sender], h.conn)]);
      }
    }

    // The two branches of setParentWindow
    method Attach(c: WinId, p: WinId)
      requires p in links.slots
      modifies this`links
      ensures links == PlasmaWindowWorld.Relink(old(links), {}, c, Some(p))
    {
      var conn := links.nextConn;
      links := Links(links.parent[c := p], links.handles[c := Connection(p, conn)],
                     links.slots[p := links.slots[p] + [ClearsParentOf(conn, c)]], conn + 1);
    }

    method Detach(c: WinId)
      modifies this`links
      ensures links == PlasmaWindowWorld.Relink(old(links), {}, c, None)
    {
      links := links.(parent := links.parent - {c}, handles := links.handles - {c});
    }

    // The pointer and subscription part of setParentWindow
    method Relink(c: WinId, parent: Option<WinId>)
      requires UnmappedAgree(world.unmapped)
      requires parent.Some? ==> parent.value in objects && parent.value in links.slots
      modifies this`links
      ensures links == PlasmaWindowWorld.Relink(PlasmaWindowWorld.Disconnect(old(links), c), world.unmapped, c, parent)
    {
      Disconnect(c);
      if parent.Some? && !objects[parent.value].unmapped {
        Attach(c, parent.value);
      } else {
        Detach(c);
      }
    }

    // PlasmaWindow::Private::setParentWindow
    method SetParentWindow(c: WinId, parent: Option<WinId>)
      requires Represents() && (parent.Some? ==> parent.value in objects && parent.value in links.slots)
      modifies this`world, this`links
      ensures Represents() && world == SetParent(old(world), c, parent)
    {
      hide AttrsAgree, Apart, ModelAgrees, PlasmaWindowWorld.Relink, PlasmaWindowWorld.Disconnect;
      var before := ParentOf(links, c);
      Relink(c, parent);
      world := world.(links := links);
      if ParentOf(links, c) != before {
        world := world.(signals := world.signals + [ParentWindowChanged(c)]);
      }
    }

    // The search of parentWindowCallback through the window list
    method FindNativeWindow(native: nat) returns (w: Option<WinId>)
      requires Represents()
      ensures w == FindNative(windows, world.attrs, native)
    {
      var k := 0;
      while k < |windows|
        invariant k <= |windows|
        invariant FindNative(windows, world.attrs, native) == FindNative(windows[k..], world.attrs, native)
      {
        if windows[k] in objects && objects[windows[k]].d.native == native {
          return Some(windows[k]);
        }
        k := k + 1;
      }
      w := None;
    }

    // parentWindowCallback
    method ParentWindow(c: WinId, native: Option<nat>)
      requires Represents() && links.slots.Keys == objects.Keys
      modifies this`world, this`links
      ensures Represents() && world == SetParent(old(world), c, ParentTarget(old(world), native))
    {
      var parent := None;
      if native.Some? {
        parent := FindNativeWindow(native.value);
      }
      SetParentWindow(c, parent);
    }

    // ---------- rows ----------

    // The windowRemoved closure of windowCreated
    method ForgetWindow(w: WinId)
      requires Represents()
      modifies this`world, this`windows, this`activeWindow
      ensures Represents() && world == ManagerForgets(old(world), w)
    {
      windows := Without(windows, w);
      world := world.(windows := windows);
      if activeWindow == Some(w) {
        activeWindow := None;
        world := world.(active := None, signals := world.signals + [ActiveWindowChanged]);
      }
    }

    // The removeWindow closure of addWindow
    method ForgetRow(w: WinId)
      requires Represents()
      modifies this`world, model
      ensures Represents() && world == ModelForgets(old(world), w)
    {
      if model != null {
        model.RemoveWindow(w);
        world := world.(model := Some(Model(model.windows, model.trace)));
      }
    }

    // The subscriptions of addWindow
    method ConnectRow(w: WinId)
      requires Represents()
      modifies this`world, this`links, this`bundles
      ensures Represents()
      ensures world == old(world).(
        links := Subscribe(old(world).links, w, ModelRemoves(old(world).links.nextConn)),
        bundles := old(world).bundles[w := (if w in old(world).bundles then old(world).bundles[w] else 0) + 1])
    {
      hide AttrsAgree, UnmappedAgree, Apart, ModelAgrees;
      links := Subscribe(links, w, ModelRemoves(links.nextConn));
      bundles := bundles[w := (if w in bundles then bundles[w] else 0) + 1];
      world := world.(links := links, bundles := bundles);
    }

    method NewRow(w: WinId)
      requires Represents() && model != null && w in objects
      modifies this`world, model
      ensures Represents() && world.attrs == old(world).attrs && w in world.attrs
      ensures var m := old(world).model.value;
              world == old(world).(model := Some(Model(
                m.rows + [w], m.trace + [RowInserted(|m.rows|, w, RowData(world.attrs[w]))])))
    {
      model.InsertRow(w, RowData(objects[w].d));
      world := world.(model := Some(Model(model.windows, model.trace)));
    }

    // PlasmaWindowModel::Private::addWindow
    method AddRow(w: WinId)
      requires Represents()
      modifies this`world, this`links, this`bundles, model
      ensures Represents() && world == PlasmaWindowWorld.AddRow(old(world), w)
    {
      if model == null || w !in objects || w in model.windows {
        return;
      }
      NewRow(w);
      ConnectRow(w);
    }

    // The constructor of PlasmaWindowModel before it looks at the windows
    method NewModel()
      requires Represents() && model == null
      modifies this`world, this`model
      ensures Represents() && world == old(world).(model := Some(Model([], []))) && windows == world.windows
      ensures model != null && fresh(model)
    {
      hide AttrsAgree, UnmappedAgree, Apart;
      model := new PlasmaWindowModel();
      world := world.(model := Some(Model([], [])));
    }

    // The constructor of PlasmaWindowModel: its loop over the manager's windows
    method CreateWindowModel()
      requires Represents() && model == null
      modifies this`world, this`model, this`links, this`bundles
      ensures Represents() && world == CreateModel(old(world))
      ensures model != null && fresh(model)
    {
      hide Represents, AddRows, PlasmaWindowWorld.AddRow;
      NewModel();
      ghost var start := world;
      NoRowsAdded(start, windows);
      var k := 0;
      while k < |windows|
        invariant k <= |windows| && Represents() && model != null && fresh(model)
        invariant windows == start.windows && world == AddRows(start, windows[..k])
      {
        AddRowsNext(start, windows, k);
        AddRow(windows[k]);
        k := k + 1;
      }
      assert windows[..|windows|] == windows;
    }

    // ---------- life cycle ----------

    // A window object that is not known yet becomes that of the next number.
    method AddObject(window: PlasmaWindow)
      requires Represents() && nextId !in objects && nextId !in world.unmapped
      requires window !in objects.Values && !window.unmapped
      modifies this`objects, this`world
      ensures objects == old(objects)[nextId := window]
      ensures Represents() && world == old(world).(attrs := old(world).attrs[nextId := window.d])
    {
      hide ModelAgrees;
      world := world.(attrs := world.attrs[nextId := window.d]);
      objects := objects[nextId := window];
      assert AttrsAgree(world.attrs);
      hide AttrsAgree;
    }

    method NewObject(native: nat, version: nat, uuid: string)
      requires Represents() && nextId !in objects && nextId !in world.unmapped
      modifies this`objects, this`world
      ensures fresh(objects.Values - old(objects).Values)
      ensures Represents()
      ensures world == old(world).(attrs := old(world).attrs[
        nextId := Attrs(native, version, uuid, "", "", 0, 0, {}, [], Rect(0, 0, 0, 0))])
    {
      var window := new PlasmaWindow(native, version, uuid);
      assert window !in objects.Values;
      hide AttrsAgree, UnmappedAgree, Apart;
      AddObject(window);
    }

    method ListNewest()
      requires Represents()
      modifies this`world, this`links, this`windows, this`nextId
      ensures Represents()
      ensures world == old(world).(
        links := Subscribe(old(world).links, old(world).nextId, ManagerRemoves(old(world).links.nextConn)),
        windows := old(world).windows + [old(world).nextId],
        nextId := old(world).nextId + 1)
    {
      links := Subscribe(links, nextId, ManagerRemoves(links.nextConn));
      windows := windows + [nextId];
      nextId := nextId + 1;
      world := world.(links := links, windows := windows, nextId := nextId);
    }

    // windowCreated
    method WindowCreated(native: nat, version: nat, uuid: string)
      requires Represents() && nextId !in objects && nextId !in world.unmapped
      modifies this`world, this`objects, this`links, this`windows, this`nextId
      ensures Represents() && world == AddWindow(old(world), native, version, uuid)
      ensures fresh(objects.Values - old(objects).Values)
    {
      NewObject(native, version, uuid);
      ListNewest();
    }

    // initialStateCallback
    method InitialState(w: WinId)
      requires Represents() && w in objects
      modifies this`world, this`links, this`bundles, model
      ensures Represents() && world == PlasmaWindowWorld.InitialState(old(world), w)
    {
      if !objects[w].unmapped {
        world := world.(signals := world.signals + [ManagerSignal.WindowCreated(w)]);
        AddRow(w);
      }
    }

    // One subscription to `unmapped`; it does not run if it was disconnected after the signal was emitted.
    method RunSlot(w: WinId, slot: Slot)
      requires Represents()
      modifies this`world, this`windows, this`activeWindow, this`links, model
      ensures Represents() && world == PlasmaWindowWorld.RunSlot(old(world), w, slot)
    {
      if w !in links.slots || slot !in links.slots[w] {
        return;
      }
      match slot
      case ManagerRemoves(_) => ForgetWindow(w);
      case ModelRemoves(_) => ForgetRow(w);
      case ClearsParentOf(_, child) => SetParentWindow(child, None);
    }

    method MarkUnmapped(w: WinId)
      requires Represents() && w in objects
      modifies this`world, At(w)`unmapped
      ensures Represents()
      ensures world == old(world).(unmapped := old(world).unmapped + {w}, signals := old(world).signals + [Unmapped(w)])
    {
      objects[w].unmapped := true;
      world := world.(unmapped := world.unmapped + {w}, signals := world.signals + [Unmapped(w)]);
    }

    // Delivery of `unmapped` to the subscriptions present at emission
    method RunSlots(w: WinId, slots: seq<Slot>)
      requires Represents()
      modifies this`world, this`windows, this`activeWindow, this`links, model
      ensures Represents() && world == PlasmaWindowWorld.RunSlots(old(world), w, slots)
    {
      var k := 0;
      while k < |slots|
        invariant k <= |slots| && Represents()
        invariant PlasmaWindowWorld.RunSlots(world, w, slots[k..]) == PlasmaWindowWorld.RunSlots(old(world), w, slots)
      {
        RunSlotsNext(world, w, slots, k);
        RunSlot(w, slots[k]);
        k := k + 1;
      }
    }

    // unmappedCallback
    method UnmappedCallback(w: WinId)
      requires Represents() && w in objects && w in links.slots
      modifies this`world, this`windows, this`activeWindow, this`links, At(w)`unmapped, model
      ensures Represents() && w in old(world).links.slots && world == Unmap(old(world), w)
    {
      MarkUnmapped(w);
      RunSlots(w, links.slots[w]);
    }

    method DropObject(w: WinId)
      requires Represents()
      modifies this`objects, this`world
      ensures objects == old(objects) - {w}
      ensures Represents()
      ensures world == old(world).(attrs := old(world).attrs - {w}, unmapped := old(world).unmapped - {w})
    {
      objects := objects - {w};
      world := world.(attrs := world.attrs - {w}, unmapped := world.unmapped - {w});
    }

    method DropConnections(w: WinId)
      requires Represents()
      modifies this`world, this`links, this`bundles
      ensures Represents()
      ensures world == old(world).(links := Unlink(old(world).links, w), bundles := old(world).bundles - {w})
    {
      links, bundles := Unlink(links, w), bundles - {w};
      world := world.(links := links, bundles := bundles);
    }

    // The deletion of a window, deferred after `unmapped` or at any other time
    method DeleteWindow(w: WinId)
      requires Represents()
      modifies this`world, this`windows, this`activeWindow, this`objects, this`links, this`bundles, model
      ensures Represents() && world == Delete(old(world), w)
      ensures objects == old(objects) - {w}
    {
      ForgetWindow(w);
      ForgetRow(w);
      DropObject(w);
      DropConnections(w);
    }

    method Setup()
      requires Represents()
      modifies this`world, this`bound
      ensures Represents() && world == old(world).(bound := true)
    {
      bound := true;
      world := world.(bound := true);
    }

    method Release()
      requires Represents()
      modifies this`world, this`bound, model
      ensures Represents() && world == PlasmaWindowWorld.Release(old(world))
    {
      if !bound {
        return;
      }
      world := world.(signals := world.signals + [InterfaceAboutToBeReleased]);
      if model != null {
        model.Reset();
        world := world.(model := Some(Model(model.windows, model.trace)));
      }
      bound := false;
      world := world.(bound := false);
    }

    method Destroy()
      requires Represents()
      modifies this`world, this`bound
      ensures Represents() && world == PlasmaWindowWorld.Destroy(old(world))
    {
      if !bound {
        return;
      }
      bound := false;
      world := world.(signals := world.signals + [InterfaceAboutToBeDestroyed], bound := false);
    }

    // ---------- the dispatcher ----------

    // The callbacks that store one attribute
    method DeliverAttribute(w: WinId, change: Change)
      requires !change.State? && !change.DesktopEntered? && !change.DesktopLeft?
      requires Represents() && w in objects
      modifies this`world, this`activeWindow, At(w)`d, model
      ensures Represents() && w in old(world).attrs && world == Apply(old(world), w, change)
    {
      assert objects.Keys == world.attrs.Keys;
      hide Represents, SetFlags, PlasmaWindowWorld.SetTitle, PlasmaWindowWorld.SetAppId, PlasmaWindowWorld.SetIcon,
           PlasmaWindowWorld.SetGeometry, PlasmaWindowWorld.SetPid, EnterDesktop, LeaveDesktop;
      match change
      case Title(title) => TitleChanged(w, title);
      case AppIdentifier(appId) => AppIdChanged(w, appId);
      case NewIcon(icon) => IconChanged(w, icon);
      case NewGeometry(geometry) => GeometryChanged(w, geometry);
      case NewPid(pid) => PidChanged(w, pid);
    }

    // The callbacks that change attributes
    method DeliverChange(w: WinId, change: Change)
      requires Represents() && w in objects
      modifies this`world, this`activeWindow, At(w)`d, model
      ensures Represents() && w in old(world).attrs && world == Apply(old(world), w, change)
    {
      assert objects.Keys == world.attrs.Keys;
      hide Represents, SetFlags, PlasmaWindowWorld.SetTitle, PlasmaWindowWorld.SetAppId, PlasmaWindowWorld.SetIcon,
           PlasmaWindowWorld.SetGeometry, PlasmaWindowWorld.SetPid, EnterDesktop, LeaveDesktop;
      if change.State? {
        StateChanged(w, change.state);
      } else if change.DesktopEntered? {
        VirtualDesktopEntered(w, change.id);
      } else if change.DesktopLeft? {
        VirtualDesktopLeft(w, change.id);
      } else {
        DeliverAttribute(w, change);
      }
    }

    // The callbacks that take a window out of lists and links.
    method DispatchToLists(e: Event)
      requires Represents() && Ready(world) && Possible(world, e) && (e.UnmappedEvent? || e.DeletedEvent?)
      modifies this`world, this`windows, this`activeWindow, this`objects, this`links, this`bundles,
               objects.Values, model
      ensures Represents() && objects.Values <= old(objects).Values
      ensures Possible(old(world), e) && world == Step(old(world), e)
    {
      assert objects.Keys == world.attrs.Keys && links == world.links;
      hide Represents, Ready, Unmap, Delete;
      if e.UnmappedEvent? {
        UnmappedCallback(e.w);
      } else {
        DeleteWindow(e.w);
      }
    }

    // The callbacks that only tell of a window.
    method DispatchToWindow(e: Event)
      requires Represents() && Ready(world) && Possible(world, e)
      requires e.InitialStateEvent? || e.ParentEvent? || e.ChangeEvent?
      modifies this`world, this`activeWindow, this`links, this`bundles, objects.Values, model
      ensures Represents()
      ensures Possible(old(world), e) && world == Step(old(world), e)
    {
      assert objects.Keys == world.attrs.Keys && links == world.links && links.slots.Keys == objects.Keys;
      hide Represents, Ready, Apply, SetParent, ParentTarget, PlasmaWindowWorld.InitialState;
      if e.InitialStateEvent? {
        InitialState(e.w);
      } else if e.ParentEvent? {
        ParentWindow(e.w, e.parentNative);
      } else {
        DeliverChange(e.w, e.change);
      }
    }

    // The events of the management itself.
    method DispatchToManagement(e: Event)
      requires Represents() && Ready(world) && Possible(world, e)
      requires e.SetupEvent? || e.ReleaseEvent? || e.DestroyEvent? || e.CreateModelEvent? || e.WindowEvent?
      modifies this`world, this`windows, this`objects, this`links, this`bundles, this`model, this`bound, this`nextId,
               model
      ensures Represents()
      ensures Possible(old(world), e) && world == Step(old(world), e)
      ensures fresh(objects.Values - old(objects).Values) && (model == old(model) || fresh(model))
    {
      assert nextId == world.nextId && objects.Keys == world.attrs.Keys && (model == null <==> world.model.None?);
      hide Represents, RepresentsRest, CreateModel, AddWindow, PlasmaWindowWorld.Release, PlasmaWindowWorld.Destroy;
      match e
      case SetupEvent => Setup();
      case ReleaseEvent => Release();
      case DestroyEvent => Destroy();
      case CreateModelEvent => CreateWindowModel();
      case WindowEvent(native, version, uuid) => WindowCreated(native, version, uuid);
    }

    method Dispatch(e: Event)
      requires Represents() && Ready(world) && Possible(world, e)
      modifies this`world, this`windows, this`activeWindow, this`objects, this`links, this`bundles, this`model,
               this`bound, this`nextId, objects.Values, model
      ensures Represents()
      ensures Possible(old(world), e) && world == Step(old(world), e)
      ensures fresh(objects.Values - old(objects).Values) && (model == old(model) || fresh(model))
    {
      hide Represents, RepresentsRest, Ready, Possible, Step;
      match e
      case UnmappedEvent(_) => DispatchToLists(e);
      case DeletedEvent(_) => DispatchToLists(e);
      case ParentEvent(_, _) => DispatchToWindow(e);
      case InitialStateEvent(_) => DispatchToWindow(e);
      case ChangeEvent(_, _) => DispatchToWindow(e);
      case _ => DispatchToManagement(e);
    }

    // Any event that can reach the objects leads them where the run of all events so far leads.
    method Deliver(e: Event)
      requires Valid() && Possible(world, e)
      modifies this, objects.Values, model
      ensures Valid() && history == old(history) + [e]
      ensures fresh(objects.Values - old(objects).Values) && (model == old(model) || fresh(model))
    {
      hide Represents, Step, Ready;
      ReachableIsReady(history, world, e);
      history := history + [e];
      Dispatch(e);
    }

    // ---------- what a user reads ----------

    // PlasmaWindowManagement::activeWindow
    method ActiveWindow() returns (w: Option<WinId>)
      requires Valid()
      ensures w.Some? ==>
        && w.value in windows && w.value in objects
        && !objects[w.value].unmapped && Active in objects[w.value].d.flags
      ensures Orderly(history) ==>
        forall x | x in objects && !objects[x].unmapped && Active in objects[x].d.flags :: w == Some(x)
    {
      w := activeWindow;
      if w.Some? {
        ActiveWindowIsListed(history);
      }
      if Orderly(history) {
        OrderlyRunsAreExact(history);
        forall x | x in objects && !objects[x].unmapped && Active in objects[x].d.flags ensures w == Some(x) {
          assert MappedActive(world, x);
        }
      }
    }

    // PlasmaWindow::parentWindow
    method ParentWindowOf(c: WinId) returns (p: Option<WinId>)
      requires Valid()
      ensures p.Some? ==> p.value in windows && p.value in objects && !objects[p.value].unmapped
    {
      p := ParentOf(links, c);
      if p.Some? {
        ParentIsMappedAndSubscribed(history, c);
        RunKeeps(history);
      }
    }

    // PlasmaWindowModel::rowCount
    method RowCount() returns (n: nat)
      requires Valid() && model != null
      ensures n == |AccountAll(history).admitted|
    {
      RowsFollowLedger(history);
      n := |model.windows|;
    }
  }
}
