/**
 What the attributes of a window are after any run, read off the events alone: each attribute is what was
 said of it last, the virtual desktops are those entered and not left since, and every role of the model
 shows just that.
 */
module PlasmaWindowAttributes {
  import opened Collections
  import opened PlasmaWindowData
  import opened PlasmaWindowWorld
  import opened PlasmaWindowInvariants
  import opened PlasmaWindowSteps
  import opened PlasmaWindowTheorems
  import opened PlasmaWindowSignals

  // ---------- what the events say ----------

  datatype Field = StateField | TitleField | AppIdField | IconField | GeometryField | PidField | DesktopField

  function FieldOf(ch: Change): Field {
    match ch
    case State(_) => StateField
    case Title(_) => TitleField
    case AppIdentifier(_) => AppIdField
    case NewIcon(_) => IconField
    case NewGeometry(_) => GeometryField
    case NewPid(_) => PidField
    case DesktopEntered(_) => DesktopField
    case DesktopLeft(_) => DesktopField
  }

  // The last change of one field of w
  function LastSaid(events: seq<Event>, w: WinId, field: Field): (r: Option<Change>)
    ensures r.Some? ==> FieldOf(r.value) == field
  {
    if events == [] then None
    else
      var e := events[|events| - 1];
      if e.ChangeEvent? && e.w == w && FieldOf(e.change) == field then Some(e.change)
      else LastSaid(events[..|events| - 1], w, field)
  }

  function SaidFlags(events: seq<Event>, w: WinId): set<StateFlag> {
    var said := LastSaid(events, w, StateField);
    if said.Some? then said.value.state else {}
  }

  function SaidTitle(events: seq<Event>, w: WinId): string {
    var said := LastSaid(events, w, TitleField);
    if said.Some? then said.value.title else ""
  }

  function SaidAppId(events: seq<Event>, w: WinId): string {
    var said := LastSaid(events, w, AppIdField);
    if said.Some? then said.value.appId else ""
  }

  function SaidIcon(events: seq<Event>, w: WinId): nat {
    var said := LastSaid(events, w, IconField);
    if said.Some? then said.value.icon else 0
  }

  function SaidGeometry(events: seq<Event>, w: WinId): Rect {
    var said := LastSaid(events, w, GeometryField);
    if said.Some? then said.value.geometry else Rect(0, 0, 0, 0)
  }

  function SaidPid(events: seq<Event>, w: WinId): nat {
    var said := LastSaid(events, w, PidField);
    if said.Some? then said.value.pid else 0
  }

  // Event i tells that w has entered a desktop, and no later event that w has left it.
  ghost predicate Stays(events: seq<Event>, w: WinId, i: nat) {
    && i < |events| && events[i].ChangeEvent? && events[i].w == w && events[i].change.DesktopEntered?
    && forall j | i < j < |events| :: events[j] != ChangeEvent(w, DesktopLeft(events[i].change.id))
  }

  // The desktops that w stays on among those entered by the first k events, in order
  ghost function Desktops(events: seq<Event>, w: WinId, k: nat): seq<string>
    requires k <= |events|
  {
    if k == 0 then []
    else if Stays(events, w, k - 1) then Desktops(events, w, k - 1) + [events[k - 1].change.id]
    else Desktops(events, w, k - 1)
  }

  // The window events; number w announced window w.
  function Announcements(events: seq<Event>): (r: seq<Event>)
    ensures forall i | 0 <= i < |r| :: r[i].WindowEvent?
  {
    if events == [] then []
    else
      var e := events[|events| - 1];
      Announcements(events[..|events| - 1]) + if e.WindowEvent? then [e] else []
  }

  ghost predicate AsSaid(a: Attrs, events: seq<Event>, w: WinId) {
    && w < |Announcements(events)|
    && Announcements(events)[w] == WindowEvent(a.native, a.version, a.uuid)
    && a.title == SaidTitle(events, w) && a.appId == SaidAppId(events, w) && a.icon == SaidIcon(events, w)
    && a.geometry == SaidGeometry(events, w) && a.pid == SaidPid(events, w) && a.flags == SaidFlags(events, w)
    && a.desktops == Desktops(events, w, |events|)
  }

  // ---------- what one event writes ----------

  lemma UpdateWrites(s: World, w: WinId, a: Attrs, sig: Signal)
    ensures Update(s, w, a, sig).attrs == s.attrs[w := a]
    ensures Emit(Update(s, w, a, sig), w, OnAllDesktopsChanged).attrs == s.attrs[w := a]
  {
  }

  lemma {:induction false} SetFlagsWrites(s: World, w: WinId, state: set<StateFlag>, order: seq<StateFlag>)
    requires w in s.attrs
    ensures var flags := SetFlags(s, w, state, order).attrs[w].flags;
            && SetFlags(s, w, state, order).attrs == s.attrs[w := s.attrs[w].(flags := flags)]
            && forall f :: f in flags <==> if f in order then f in state else f in s.attrs[w].flags
    decreases |order|
  {
    hide Update;
    if order == [] {
      assert s.attrs[w := s.attrs[w].(flags := s.attrs[w].flags)] == s.attrs;
    } else {
      var last := |order| - 1;
      SetFlagsWrites(s, w, state, order[..last]);
      var t, f := SetFlags(s, w, state, order[..last]), order[last];
      UpdateWrites(t, w, t.attrs[w].(flags := Toggle(t.attrs[w].flags, f, f in state)), SignalOfSetter(f));
      assert order == order[..last] + [f];
    }
  }

  // The place of a flag's setter in stateChangedCallback
  function Rank(f: StateFlag): nat {
    match f
    case Active => 0
    case Minimized => 1
    case Maximized => 2
    case Fullscreen => 3
    case KeepAbove => 4
    case KeepBelow => 5
    case OnAllDesktops => 6
    case DemandsAttention => 7
    case Closeable => 8
    case Fullscreenable => 9
    case Maximizeable => 10
    case Minimizeable => 11
    case SkipsTaskbar => 12
    case SkipsSwitcher => 13
    case Shadeable => 14
    case Shaded => 15
    case Movable => 16
    case Resizable => 17
    case VirtualDesktopChangeable => 18
  }

  // Every flag has its setter.
  lemma AllFlagsSet(f: StateFlag)
    ensures Rank(f) < |SetterOrder()| && SetterOrder()[Rank(f)] == f && f in SetterOrder()
  {
  }

  // stateChanged: whatever the flags were, they are those of the event.
  lemma StateIsSet(s: World, w: WinId, state: set<StateFlag>)
    requires w in s.attrs
    ensures Apply(s, w, State(state)).attrs == s.attrs[w := s.attrs[w].(flags := state)]
  {
    SetFlagsWrites(s, w, state, SetterOrder());
    var flags := SetFlags(s, w, state, SetterOrder()).attrs[w].flags;
    forall f ensures f in flags <==> f in state {
      AllFlagsSet(f);
    }
    assert flags == state;
  }

  lemma ApplyWrites(s: World, w: WinId, ch: Change)
    requires w in s.attrs
    ensures var a := s.attrs[w];
            Apply(s, w, ch).attrs == s.attrs[w :=
              match ch
              case State(state) => a.(flags := state)
              case Title(title) => a.(title := title)
              case AppIdentifier(appId) => a.(appId := appId)
              case NewIcon(icon) => a.(icon := icon)
              case NewGeometry(geometry) => a.(geometry := geometry)
              case NewPid(pid) => a.(pid := pid)
              case DesktopEntered(id) => a.(desktops := a.desktops + [id])
              case DesktopLeft(id) => a.(desktops := Without(a.desktops, id))]
  {
    hide SetFlags, Update, Emit;
    var a := s.attrs[w];
    assert s.attrs[w := a] == s.attrs;
    match ch
    case State(state) => StateIsSet(s, w, state);
    case Title(title) => UpdateWrites(s, w, a.(title := title), TitleChanged);
    case AppIdentifier(appId) => UpdateWrites(s, w, a.(appId := appId), AppIdChanged);
    case NewIcon(icon) => UpdateWrites(s, w, a.(icon := icon), IconChanged);
    case NewGeometry(geometry) => UpdateWrites(s, w, a.(geometry := geometry), GeometryChanged);
    case NewPid(pid) =>
    case DesktopEntered(id) => UpdateWrites(s, w, a.(desktops := a.desktops + [id]), PlasmaVirtualDesktopEntered);
    case DesktopLeft(id) => UpdateWrites(s, w, a.(desktops := Without(a.desktops, id)), PlasmaVirtualDesktopLeft);
  }

  lemma AddRowFrame(s: World, w: WinId)
    ensures AddRow(s, w).attrs == s.attrs && AddRow(s, w).signals == s.signals
  {
  }

  // An event that is no change writes no attributes; windows come and go.
  lemma OthersWriteNothing(s: World, e: Event, w: WinId)
    requires Possible(s, e) && Inv(s) && !e.ChangeEvent? && w in Step(s, e).attrs
    ensures var t := Step(s, e);
            if e.WindowEvent? && w == s.nextId then
              t.attrs[w] == Attrs(e.native, e.version, e.uuid, "", "", 0, 0, {}, [], Rect(0, 0, 0, 0))
            else w in s.attrs && t.attrs[w] == s.attrs[w]
  {
    hide Inv, Relink, Disconnect, AddRow, Subscribe, RemoveRow, Unlink, NotifyTimes, RunSlots, AddRows, FindNative;
    match e
    case CreateModelEvent => AddRowsFrame(s.(model := Some(Model([], []))), s.windows);
    case InitialStateEvent(x) => AddRowFrame(s.(signals := s.signals + [WindowCreated(x)]), x);
    case UnmappedEvent(x) => RunSlotsActive(MarkUnmapped(s, x), x, s.links.slots[x]);
    case _ =>
  }

  // ---------- desktops ----------

  lemma StaysNext(events: seq<Event>, e: Event, w: WinId, i: nat)
    requires i < |events|
    ensures Stays(events + [e], w, i) <==>
      Stays(events, w, i) && e != ChangeEvent(w, DesktopLeft(events[i].change.id))
  {
    var all := events + [e];
    assert all[|events|] == e && forall j | 0 <= j < |events| :: all[j] == events[j];
  }

  lemma {:induction false} WithoutAppend(a: seq<string>, x: string, id: string)
    ensures Without(a + [x], id) == Without(a, id) + if x == id then [] else [x]
  {
    if a == [] {
      assert [] + [x] == [x];
    } else {
      WithoutAppend(a[1..], x, id);
      assert (a + [x])[1..] == a[1..] + [x];
    }
  }

  lemma {:induction false} DesktopsNext(events: seq<Event>, e: Event, w: WinId, k: nat)
    requires k <= |events|
    ensures Desktops(events + [e], w, k)
         == if e.ChangeEvent? && e.w == w && e.change.DesktopLeft? then Without(Desktops(events, w, k), e.change.id)
            else Desktops(events, w, k)
  {
    if k > 0 {
      DesktopsNext(events, e, w, k - 1);
      StaysNext(events, e, w, k - 1);
      if Stays(events, w, k - 1) && e.ChangeEvent? && e.w == w && e.change.DesktopLeft? {
        WithoutAppend(Desktops(events, w, k - 1), events[k - 1].change.id, e.change.id);
      }
    }
  }

  lemma DesktopsAfter(events: seq<Event>, e: Event, w: WinId)
    ensures var before, all := Desktops(events, w, |events|), events + [e];
            Desktops(all, w, |all|) ==
              if !(e.ChangeEvent? && e.w == w) then before
              else if e.change.DesktopEntered? then before + [e.change.id]
              else if e.change.DesktopLeft? then Without(before, e.change.id)
              else before
  {
    DesktopsNext(events, e, w, |events|);
    var all := events + [e];
    assert all[|events|] == e;
    assert Stays(all, w, |events|) <==> e.ChangeEvent? && e.w == w && e.change.DesktopEntered?;
  }

  lemma {:induction false} NoDesktops(events: seq<Event>, w: WinId, k: nat)
    requires k <= |events|
    ensures Desktops(events, w, k) == [] <==> forall i: nat | i < k :: !Stays(events, w, i)
  {
    if k > 0 {
      NoDesktops(events, w, k - 1);
    }
  }

  // ---------- runs ----------

  lemma SaidNext(events: seq<Event>, e: Event, w: WinId, field: Field)
    ensures LastSaid(events + [e], w, field) ==
      if e.ChangeEvent? && e.w == w && FieldOf(e.change) == field then Some(e.change) else LastSaid(events, w, field)
  {
    assert (events + [e])[..|events|] == events;
  }

  lemma AnnouncementsNext(events: seq<Event>, e: Event)
    ensures Announcements(events + [e]) == Announcements(events) + if e.WindowEvent? then [e] else []
  {
    assert (events + [e])[..|events|] == events;
  }

  lemma AllSaidNext(events: seq<Event>, e: Event, w: WinId)
    ensures forall field ::
              LastSaid(events + [e], w, field)
              == if e.ChangeEvent? && e.w == w && FieldOf(e.change) == field then Some(e.change)
                 else LastSaid(events, w, field)
  {
    forall field {
      SaidNext(events, e, w, field);
    }
  }

  predicate About(e: Event, w: WinId) {
    (e.InitialStateEvent? || e.UnmappedEvent? || e.DeletedEvent? || e.ParentEvent? || e.ChangeEvent?) && e.w == w
  }

  // Nothing is said of a window before it is announced.
  ghost predicate NothingSaid(events: seq<Event>, w: WinId) {
    forall i | 0 <= i < |events| :: !About(events[i], w)
  }

  lemma {:induction false} NothingSaidReads(events: seq<Event>, w: WinId, field: Field)
    requires NothingSaid(events, w)
    ensures LastSaid(events, w, field) == None
  {
    if events != [] {
      assert !About(events[|events| - 1], w);
      NothingSaidReads(events[..|events| - 1], w, field);
    }
  }

  lemma {:induction false} NewIsAsSaid(events: seq<Event>, e: Event, w: WinId)
    requires NothingSaid(events, w) && e.WindowEvent? && |Announcements(events)| == w
    ensures AsSaid(Attrs(e.native, e.version, e.uuid, "", "", 0, 0, {}, [], Rect(0, 0, 0, 0)), events + [e], w)
  {
    AllSaidNext(events, e, w);
    forall field ensures LastSaid(events, w, field) == None {
      NothingSaidReads(events, w, field);
    }
    AnnouncementsNext(events, e);
    DesktopsAfter(events, e, w);
    NoDesktops(events, w, |events|);
    forall i: nat | i < |events| ensures !Stays(events, w, i) {
      assert !About(events[i], w);
    }
  }

  lemma OtherIsAsSaid(a: Attrs, events: seq<Event>, e: Event, w: WinId)
    requires AsSaid(a, events, w) && !(e.ChangeEvent? && e.w == w)
    ensures AsSaid(a, events + [e], w)
  {
    hide LastSaid, Desktops, Announcements;
    AllSaidNext(events, e, w);
    AnnouncementsNext(events, e);
    DesktopsAfter(events, e, w);
  }

  lemma ChangedIsAsSaid(s: World, t: World, events: seq<Event>, w: WinId, ch: Change)
    requires w in s.attrs && w in t.attrs && t == Apply(s, w, ch) && AsSaid(s.attrs[w], events, w)
    ensures AsSaid(t.attrs[w], events + [ChangeEvent(w, ch)], w)
  {
    hide LastSaid, Desktops, Announcements, Apply;
    var e := ChangeEvent(w, ch);
    ApplyWrites(s, w, ch);
    AllSaidNext(events, e, w);
    AnnouncementsNext(events, e);
    DesktopsAfter(events, e, w);
  }

  ghost predicate AllAsSaid(s: World, events: seq<Event>) {
    && |Announcements(events)| == s.nextId
    && (forall w | w in s.attrs :: AsSaid(s.attrs[w], events, w))
    && (forall w: WinId | w >= s.nextId :: NothingSaid(events, w))
  }

  lemma NextIdAfter(s: World, e: Event)
    requires Possible(s, e) && Inv(s)
    ensures Step(s, e).nextId == s.nextId + if e.WindowEvent? then 1 else 0
  {
    var l := Ledger(s.windows, s.model.Some?, Rows(s), s.bound, s.nextId);
    StepKeepsBooks(s, e, l);
  }

  lemma {:induction false} StepIsAsSaid(s: World, events: seq<Event>, e: Event)
    requires Possible(s, e) && Inv(s) && AllAsSaid(s, events)
    ensures AllAsSaid(Step(s, e), events + [e])
  {
    hide AsSaid, Step, Announcements;
    var t, all := Step(s, e), events + [e];
    NextIdAfter(s, e);
    AnnouncementsNext(events, e);
    forall w | w in t.attrs ensures AsSaid(t.attrs[w], all, w) {
      WindowIsAsSaid(s, events, e, w);
    }
    forall w: WinId | w >= t.nextId ensures NothingSaid(all, w) {
      assert NothingSaid(events, w);
      if About(e, w) {
        OldIds(s, w);
      }
    }
  }

  lemma OldIds(s: World, w: WinId)
    requires Inv(s) && w in s.attrs
    ensures w < s.nextId
  {
  }

  lemma WindowIsAsSaid(s: World, events: seq<Event>, e: Event, w: WinId)
    requires Possible(s, e) && Inv(s) && AllAsSaid(s, events) && w in Step(s, e).attrs
    ensures AsSaid(Step(s, e).attrs[w], events + [e], w)
  {
    hide AsSaid, Apply, Inv, NothingSaid;
    if e.ChangeEvent? {
      ApplyWrites(s, e.w, e.change);
      if e.w == w {
        ChangedIsAsSaid(s, Step(s, e), events, w, e.change);
      } else {
        OtherIsAsSaid(s.attrs[w], events, e, w);
      }
    } else {
      OthersWriteNothing(s, e, w);
      if e.WindowEvent? && w == s.nextId {
        NewIsAsSaid(events, e, w);
      } else {
        OtherIsAsSaid(s.attrs[w], events, e, w);
      }
    }
  }

  lemma {:induction false} RunIsAsSaid(events: seq<Event>)
    requires Outcome(events).Some?
    ensures AllAsSaid(Outcome(events).value, events)
    decreases |events|
  {
    if events != [] {
      var before, e := events[..|events| - 1], events[|events| - 1];
      RunIsAsSaid(before);
      RunKeeps(before);
      assert before + [e] == events;
      hide AllAsSaid, Inv, Step, Possible;
      StepIsAsSaid(Outcome(before).value, before, e);
    }
  }

  // Over every run, each window has the identity of its announcement and in every attribute what was said
  // last: in particular the flags of the last state event, and the desktops entered and not left since.
  lemma {:induction false} AttributesAreSaid(events: seq<Event>, w: WinId)
    requires Outcome(events).Some? && w in Outcome(events).value.attrs
    ensures AsSaid(Outcome(events).value.attrs[w], events, w)
  {
    RunIsAsSaid(events);
  }

  // ---------- roles ----------

  // The values of a row are what was said of its window, role by role.
  ghost predicate RowAsSaid(row: map<Role, Value>, events: seq<Event>, w: WinId) {
    && (forall role: Role :: role in row) && w < |Announcements(events)|
    && row[Display] == Text(SaidTitle(events, w)) && row[AppId] == Text(SaidAppId(events, w))
    && row[Decoration] == Icon(SaidIcon(events, w)) && row[Pid] == Number(SaidPid(events, w))
    && row[Geometry] == Area(SaidGeometry(events, w)) && row[Uuid] == Text(Announcements(events)[w].uuid)
    && row[VirtualDesktops] == Texts(Desktops(events, w, |events|))
    && (forall role, f | FlagOfRole(role) == {f} && role != IsOnAllDesktops ::
          row[role] == Flag(f in SaidFlags(events, w)))
    && row[IsOnAllDesktops] == Flag(
         if Announcements(events)[w].version < 8 then OnAllDesktops in SaidFlags(events, w)
         else forall i: nat | i < |events| :: !Stays(events, w, i))
  }

  lemma SaidIsShown(a: Attrs, events: seq<Event>, w: WinId)
    requires AsSaid(a, events, w)
    ensures RowAsSaid(RowData(a), events, w)
  {
    hide SaidTitle, SaidAppId, SaidIcon, SaidPid, SaidGeometry, SaidFlags, Desktops, Stays, FlagOfRole;
    NoDesktops(events, w, |events|);
    FlagRolesReadFlags(a);
    OtherRolesRead(a);
    RowReads(a);
    hide Data, RowData;
  }

  lemma RowReads(a: Attrs)
    ensures forall role: Role :: role in RowData(a) && RowData(a)[role] == Data(a, role)
  {
  }

  lemma OtherRolesRead(a: Attrs)
    ensures Data(a, Display) == Text(a.title) && Data(a, AppId) == Text(a.appId) && Data(a, Uuid) == Text(a.uuid)
    ensures Data(a, Decoration) == Icon(a.icon) && Data(a, Pid) == Number(a.pid)
    ensures Data(a, Geometry) == Area(a.geometry) && Data(a, VirtualDesktops) == Texts(a.desktops)
    ensures Data(a, IsOnAllDesktops) == Flag(if a.version < 8 then OnAllDesktops in a.flags else a.desktops == [])
  {
  }

  lemma FlagRolesReadFlags(a: Attrs)
    ensures forall role, f | FlagOfRole(role) == {f} && role != IsOnAllDesktops :: Data(a, role) == Flag(f in a.flags)
  {
    forall role, f | FlagOfRole(role) == {f} && role != IsOnAllDesktops
      ensures Data(a, role) == Flag(f in a.flags)
    {
      RoleReadsFlag(a, role, f);
    }
  }

  // Over every run, a fresh read of a row gives what the events said of its window.
  lemma {:induction false} RolesShowWhatIsSaid(events: seq<Event>, r: nat)
    requires Outcome(events).Some? && r < |Rows(Outcome(events).value)|
    ensures var s := Outcome(events).value;
            RowAsSaid(map role: Role | true :: DataAt(Rows(s), s.attrs, r, role), events, Rows(s)[r])
  {
    hide AsSaid, RowAsSaid, Data, Inv, Outcome;
    RunKeeps(events);
    var s := Outcome(events).value;
    var w := Rows(s)[r];
    RowHasWindow(s, r);
    AttributesAreSaid(events, w);
    SaidIsShown(s.attrs[w], events, w);
    assert (map role: Role | true :: DataAt(Rows(s), s.attrs, r, role)) == RowData(s.attrs[w]);
  }

  lemma RowHasWindow(s: World, r: nat)
    requires Inv(s) && r < |Rows(s)|
    ensures Rows(s)[r] in s.attrs
  {
  }

  lemma RoleReadsFlag(a: Attrs, role: Role, f: StateFlag)
    requires FlagOfRole(role) == {f} && role != IsOnAllDesktops
    ensures Data(a, role) == Flag(f in a.flags)
  {
    assert f in FlagOfRole(role);
  }
}
