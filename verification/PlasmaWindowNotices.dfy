/**
 How often listeners are told: a change of an attribute is announced once by each subscription that the
 model has made, exactly for the roles concerned, and each other signal of the manager fires exactly on
 its event.
 */
module PlasmaWindowNotices {
  import opened Collections
  import opened PlasmaWindowData
  import opened PlasmaWindowWorld
  import opened PlasmaWindowCoherence
  import opened PlasmaWindowInvariants
  import opened PlasmaWindowSteps
  import opened PlasmaWindowTheorems
  import opened PlasmaWindowSignals
  import opened PlasmaWindowAttributes

  // ---------- notices of the model ----------

  // How often a role was announced as changed
  function Told(trace: seq<Notice>, role: Role): nat
    decreases |trace|
  {
    if trace == [] then 0
    else
      var last := trace[|trace| - 1];
      Told(trace[..|trace| - 1], role) + if last.DataChanged? && last.role == role then 1 else 0
  }

  // How often a row of w was inserted
  function Insertions(trace: seq<Notice>, w: WinId): nat
    decreases |trace|
  {
    if trace == [] then 0
    else
      var last := trace[|trace| - 1];
      Insertions(trace[..|trace| - 1], w) + if last.RowInserted? && last.window == w then 1 else 0
  }

  function TraceOf(s: World): seq<Notice> {
    if s.model.Some? then s.model.value.trace else []
  }

  function Subscriptions(s: World, w: WinId): nat {
    if s.model.Some? && w in s.bundles then s.bundles[w] else 0
  }

  // The roles that an attribute event announces, given the attributes before it
  ghost predicate Announces(a: Attrs, ch: Change, role: Role) {
    match ch
    case State(state) => exists f :: FlipsIn(a, state, f, role)
    case Title(title) => role == Display && a.title != title
    case AppIdentifier(appId) => role == AppId && a.appId != appId
    case NewIcon(_) => role == Decoration
    case NewGeometry(geometry) => role == Geometry && a.geometry != geometry
    case NewPid(_) => false
    case DesktopEntered(_) => role == VirtualDesktops || (role == IsOnAllDesktops && a.desktops == [])
    case DesktopLeft(id) =>
      role == VirtualDesktops || (role == IsOnAllDesktops && forall i | 0 <= i < |a.desktops| :: a.desktops[i] == id)
  }

  lemma NoticeCounts(trace: seq<Notice>, n: Notice, role: Role, w: WinId)
    ensures Told(trace + [n], role) == Told(trace, role) + if n.DataChanged? && n.role == role then 1 else 0
    ensures Insertions(trace + [n], w) == Insertions(trace, w) + if n.RowInserted? && n.window == w then 1 else 0
  {
    assert (trace + [n])[..|trace|] == trace;
  }

  lemma {:induction false} NotifyTimesCounts(
    m: Model, attrs: map<WinId, Attrs>, w: WinId, told: Role, n: nat, role: Role, x: WinId)
    ensures var t := NotifyTimes(m, attrs, w, told, n);
            && Told(t.trace, role) == Told(m.trace, role) + (if told == role then n else 0)
            && Insertions(t.trace, x) == Insertions(m.trace, x) && t.rows == m.rows
  {
    hide Told, Insertions, Notify;
    if n > 0 {
      NotifyTimesCounts(m, attrs, w, told, n - 1, role, x);
      NotifyCounts(NotifyTimes(m, attrs, w, told, n - 1), attrs, w, told, role, x);
    }
  }

  lemma NotifyCounts(m: Model, attrs: map<WinId, Attrs>, w: WinId, told: Role, role: Role, x: WinId)
    ensures var t := Notify(m, attrs, w, told);
            && Told(t.trace, role) == Told(m.trace, role) + (if told == role then 1 else 0)
            && Insertions(t.trace, x) == Insertions(m.trace, x) && t.rows == m.rows
  {
    hide Told, Insertions;
    var index := IndexOf(m.rows, w);
    NoticeCounts(m.trace, DataChanged(index, told, DataAt(m.rows, attrs, index, told)), role, x);
  }

  // Between s and t the role was announced n times, and nothing was inserted or subscribed.
  ghost predicate Tells(s: World, t: World, role: Role, n: nat) {
    && Told(TraceOf(t), role) == Told(TraceOf(s), role) + n
    && (forall x: WinId :: Insertions(TraceOf(t), x) == Insertions(TraceOf(s), x))
    && t.bundles == s.bundles && t.model.Some? == s.model.Some? && Rows(t) == Rows(s)
  }

  lemma EmitToModelTells(s: World, w: WinId, told: Role, role: Role)
    ensures Tells(s, EmitToModel(s, w, told), role, if role == told then Subscriptions(s, w) else 0)
  {
    hide Told, Insertions, NotifyTimes;
    if s.model.Some? && w in s.bundles {
      var m, n := s.model.value, s.bundles[w];
      NotifyTimesCounts(m, s.attrs, w, told, n, role, w);
      forall x: WinId ensures Insertions(NotifyTimes(m, s.attrs, w, told, n).trace, x) == Insertions(m.trace, x) {
        NotifyTimesCounts(m, s.attrs, w, told, n, role, x);
      }
    }
  }

  lemma EmitTells(s: World, w: WinId, sig: Signal, role: Role)
    ensures Tells(s, Emit(s, w, sig), role, if role == RoleOfSignal(sig) then Subscriptions(s, w) else 0)
  {
    hide Told, Insertions, EmitToModel, FollowActive;
    EmitToModelTells(if sig == ActiveChanged then FollowActive(s, w) else s, w, RoleOfSignal(sig), role);
  }

  lemma UpdateTells(s: World, w: WinId, a: Attrs, sig: Signal, role: Role)
    ensures Tells(s, Update(s, w, a, sig), role, if role == RoleOfSignal(sig) then Subscriptions(s, w) else 0)
    ensures Update(s, w, a, sig).attrs == s.attrs[w := a]
  {
    hide Told, Insertions, Emit;
    var t := s.(attrs := s.attrs[w := a]);
    EmitTells(t, w, sig, role);
    EmitKeepsAttrs(t, w, sig);
  }

  lemma EmitKeepsAttrs(s: World, w: WinId, sig: Signal)
    ensures Emit(s, w, sig).attrs == s.attrs
  {
  }

  // The role of a flag's signal shows that flag and no other.
  lemma SetterRoles(f: StateFlag, role: Role)
    ensures role == RoleOfSignal(SignalOfSetter(f)) <==> f in FlagOfRole(role)
  {
    ShownByItsRole(f);
    hide FlagOfRole, RoleOfSignal, SignalOfSetter;
    if f in FlagOfRole(role) {
      RoleShowsFlag(f, role);
    }
  }

  lemma ShownByItsRole(f: StateFlag)
    ensures f in FlagOfRole(RoleOfSignal(SignalOfSetter(f)))
  {
  }

  lemma OneFlag(role: Role, f: StateFlag, g: StateFlag)
    requires f in FlagOfRole(role) && g in FlagOfRole(role)
    ensures f == g
  {
    assert |FlagOfRole(role)| <= 1 by {
      assert role == RoleOfSignal(SignalOfSetter(f));
    }
  }

  predicate FlipsIn(a: Attrs, state: set<StateFlag>, f: StateFlag, role: Role) {
    (f in a.flags) != (f in state) && f in FlagOfRole(role)
  }

  ghost predicate Flips(a: Attrs, state: set<StateFlag>, order: seq<StateFlag>, role: Role) {
    exists f | f in order :: FlipsIn(a, state, f, role)
  }

  lemma FlipsNext(a: Attrs, state: set<StateFlag>, order: seq<StateFlag>, f: StateFlag, role: Role)
    ensures Flips(a, state, order + [f], role) <==> Flips(a, state, order, role) || FlipsIn(a, state, f, role)
  {
    hide FlipsIn;
    var all := order + [f];
    assert all[|order|] == f;
    forall g | g in order ensures g in all {
    }
  }

  lemma SetFlagTells(s: World, w: WinId, f: StateFlag, on: bool, role: Role)
    requires w in s.attrs
    ensures Tells(s, SetFlag(s, w, f, on), role,
                  if (f in s.attrs[w].flags) != on && f in FlagOfRole(role) then Subscriptions(s, w) else 0)
  {
    hide Tells, Update, FlagOfRole, RoleOfSignal, SignalOfSetter, Subscriptions;
    NothingTold(s, role);
    SetterRoles(f, role);
    UpdateTells(s, w, s.attrs[w].(flags := Toggle(s.attrs[w].flags, f, on)), SignalOfSetter(f), role);
  }

  lemma {:induction false} SetFlagsTells(s: World, w: WinId, state: set<StateFlag>, order: seq<StateFlag>, role: Role)
    requires w in s.attrs && Distinct(order)
    ensures var n := if Flips(s.attrs[w], state, order, role) then Subscriptions(s, w) else 0;
            Tells(s, SetFlags(s, w, state, order), role, n)
    decreases |order|
  {
    hide Update, FlagOfRole, Tells, Flips, Subscriptions, RoleOfSignal, SignalOfSetter;
    if order == [] {
      NoFlips(s.attrs[w], state, role);
      NothingTold(s, role);
    } else {
      var before, f := order[..|order| - 1], order[|order| - 1];
      assert order == before + [f] && f !in before;
      SetFlagsTells(s, w, state, before, role);
      SetFlagsWrites(s, w, state, before);
      var t := SetFlags(s, w, state, before);
      SetFlagTells(t, w, f, f in state, role);
      var n := if Flips(s.attrs[w], state, before, role) then Subscriptions(s, w) else 0;
      TellsKeepsSubscriptions(s, t, w, role, n);
      var k := if (f in t.attrs[w].flags) != (f in state) && f in FlagOfRole(role) then Subscriptions(s, w) else 0;
      TwoTell(s, t, SetFlags(s, w, state, order), role, n, k);
      FlipsNext(s.attrs[w], state, before, f, role);
      if f in FlagOfRole(role) {
        NotFlippedBefore(s.attrs[w], state, before, f, role);
      }
    }
  }

  lemma NoFlips(a: Attrs, state: set<StateFlag>, role: Role)
    ensures !Flips(a, state, [], role)
  {
  }

  lemma NotFlippedBefore(a: Attrs, state: set<StateFlag>, order: seq<StateFlag>, f: StateFlag, role: Role)
    requires f in FlagOfRole(role) && f !in order
    ensures !Flips(a, state, order, role)
  {
    forall g | g in order ensures g !in FlagOfRole(role) {
      if g in FlagOfRole(role) {
        OneFlag(role, f, g);
      }
    }
  }

  lemma TwoTell(s: World, t: World, u: World, role: Role, n: nat, k: nat)
    requires Tells(s, t, role, n) && Tells(t, u, role, k)
    ensures Tells(s, u, role, n + k)
  {
  }

  lemma DesktopsTell(s: World, w: WinId, desktops: seq<string>, sig: Signal, again: bool, role: Role)
    requires w in s.attrs && (sig == PlasmaVirtualDesktopEntered || sig == PlasmaVirtualDesktopLeft)
    ensures var t := Update(s, w, s.attrs[w].(desktops := desktops), sig);
            var n := Subscriptions(s, w);
            Tells(s, if again then Emit(t, w, OnAllDesktopsChanged) else t, role,
                  if role == VirtualDesktops || (again && role == IsOnAllDesktops) then n else 0)
  {
    hide Tells, Update, Emit;
    var t := Update(s, w, s.attrs[w].(desktops := desktops), sig);
    UpdateTells(s, w, s.attrs[w].(desktops := desktops), sig, role);
    TellsKeepsSubscriptions(s, t, w, role, if role == VirtualDesktops then Subscriptions(s, w) else 0);
    if again {
      EmitTells(t, w, OnAllDesktopsChanged, role);
      var n, k := if role == VirtualDesktops then Subscriptions(s, w) else 0,
                  if role == IsOnAllDesktops then Subscriptions(s, w) else 0;
      TwoTell(s, t, Emit(t, w, OnAllDesktopsChanged), role, n, k);
    }
  }

  lemma TellsKeepsSubscriptions(s: World, t: World, w: WinId, role: Role, n: nat)
    requires Tells(s, t, role, n)
    ensures Subscriptions(t, w) == Subscriptions(s, w)
  {
  }

  lemma {:induction false} LeavesNone(desktops: seq<string>, id: string)
    ensures Without(desktops, id) == [] <==> forall i | 0 <= i < |desktops| :: desktops[i] == id
  {
    if desktops != [] {
      var rest := desktops[1..];
      LeavesNone(rest, id);
      assert forall i | 0 <= i < |rest| :: rest[i] == desktops[i + 1];
      assert (forall i | 0 <= i < |desktops| :: desktops[i] == id) <==>
        desktops[0] == id && forall i | 0 <= i < |rest| :: rest[i] == id by {
        if desktops[0] == id && forall i | 0 <= i < |rest| :: rest[i] == id {
          forall i | 0 <= i < |desktops| ensures desktops[i] == id {
            assert i > 0 ==> desktops[i] == rest[i - 1];
          }
        }
      }
    }
  }

  // An attribute event announces each role it concerns once by every subscription to the window, and no
  // other role at all.
  lemma {:induction false} ChangeTellsExactly(s: World, w: WinId, ch: Change, role: Role)
    requires w in s.attrs
    ensures Tells(s, Apply(s, w, ch), role, if Announces(s.attrs[w], ch, role) then Subscriptions(s, w) else 0)
  {
    hide Tells, Update, Emit, SetFlags, SetterOrder, FlagOfRole, Subscriptions;
    var a := s.attrs[w];
    NothingTold(s, role);
    match ch
    case State(state) =>
      OrderIsDistinct();
      SetFlagsTells(s, w, state, SetterOrder(), role);
      AnyFlips(a, state, role);
    case Title(title) => UpdateTells(s, w, a.(title := title), TitleChanged, role);
    case AppIdentifier(appId) => UpdateTells(s, w, a.(appId := appId), AppIdChanged, role);
    case NewIcon(icon) => UpdateTells(s, w, a.(icon := icon), IconChanged, role);
    case NewGeometry(geometry) => UpdateTells(s, w, a.(geometry := geometry), GeometryChanged, role);
    case NewPid(pid) => PidTellsNothing(s, w, pid, role);
    case DesktopEntered(id) =>
      DesktopsTell(s, w, a.desktops + [id], PlasmaVirtualDesktopEntered, |a.desktops + [id]| == 1, role);
    case DesktopLeft(id) =>
      LeavesNone(a.desktops, id);
      var left := Without(a.desktops, id);
      DesktopsTell(s, w, left, PlasmaVirtualDesktopLeft, left == [], role);
  }

  lemma AnyFlips(a: Attrs, state: set<StateFlag>, role: Role)
    ensures Flips(a, state, SetterOrder(), role) <==> Announces(a, State(state), role)
  {
    hide FlagOfRole, SetterOrder;
    forall f ensures f in SetterOrder() {
      AllFlagsSet(f);
    }
  }

  lemma OrderIsDistinct()
    ensures Distinct(SetterOrder())
  {
  }

  lemma NothingTold(s: World, role: Role)
    ensures Tells(s, s, role, 0)
  {
  }

  lemma PidTellsNothing(s: World, w: WinId, pid: nat, role: Role)
    requires w in s.attrs
    ensures Tells(s, SetPid(s, w, pid), role, 0)
  {
  }

  // ---------- the order of notices ----------

  // What is appended tells only of roles of these flags, in the order of their setters.
  ghost predicate InOrder(notices: seq<Notice>, order: seq<StateFlag>) {
    && (forall i | 0 <= i < |notices| :: notices[i].DataChanged? && IsRoleOf(notices[i].role, order))
    && (forall i, j, f, g | 0 <= i < j < |notices| && notices[i].DataChanged? && notices[j].DataChanged?
            && f in FlagOfRole(notices[i].role) && g in FlagOfRole(notices[j].role) :: Rank(f) <= Rank(g))
  }

  ghost predicate IsRoleOf(role: Role, order: seq<StateFlag>) {
    exists f | f in order :: f in FlagOfRole(role)
  }

  lemma {:induction false} NotifyTimesAppends(m: Model, attrs: map<WinId, Attrs>, w: WinId, role: Role, n: nat)
    ensures var t := NotifyTimes(m, attrs, w, role, n);
            && |t.trace| == |m.trace| + n && t.trace[..|m.trace|] == m.trace
            && forall i | |m.trace| <= i < |t.trace| :: t.trace[i].DataChanged? && t.trace[i].role == role
  {
    hide Notify;
    if n > 0 {
      NotifyTimesAppends(m, attrs, w, role, n - 1);
      NotifyAppends(NotifyTimes(m, attrs, w, role, n - 1), attrs, w, role);
    }
  }

  lemma NotifyAppends(m: Model, attrs: map<WinId, Attrs>, w: WinId, role: Role)
    ensures var t := Notify(m, attrs, w, role).trace;
            |t| == |m.trace| + 1 && t[..|m.trace|] == m.trace && t[|m.trace|].DataChanged? && t[|m.trace|].role == role
  {
  }

  lemma EmitAppends(s: World, w: WinId, sig: Signal)
    ensures var t, n := TraceOf(Emit(s, w, sig)), |TraceOf(s)|;
            && |t| >= n && t[..n] == TraceOf(s)
            && forall i | n <= i < |t| :: t[i].DataChanged? && t[i].role == RoleOfSignal(sig)
  {
    var t := if sig == ActiveChanged then FollowActive(s, w) else s;
    if t.model.Some? && w in t.bundles {
      NotifyTimesAppends(t.model.value, t.attrs, w, RoleOfSignal(sig), t.bundles[w]);
    }
  }

  lemma SetFlagAppends(s: World, w: WinId, f: StateFlag, on: bool)
    requires w in s.attrs
    ensures var t, n := TraceOf(SetFlag(s, w, f, on)), |TraceOf(s)|;
            && |t| >= n && t[..n] == TraceOf(s)
            && forall i | n <= i < |t| :: t[i].DataChanged? && FlagOfRole(t[i].role) == {f}
  {
    hide Emit, FlagOfRole, RoleOfSignal, SignalOfSetter;
    OnlyItsFlag(f);
    var a := s.attrs[w].(flags := Toggle(s.attrs[w].flags, f, on));
    EmitAppends(s.(attrs := s.attrs[w := a]), w, SignalOfSetter(f));
  }

  lemma OnlyItsFlag(f: StateFlag)
    ensures FlagOfRole(RoleOfSignal(SignalOfSetter(f))) == {f}
  {
  }

  lemma RankedBefore(f: StateFlag, order: seq<StateFlag>)
    requires f in order && order <= SetterOrder()
    ensures Rank(f) < |order|
  {
    var i :| 0 <= i < |order| && order[i] == f;
    assert SetterOrder()[i] == f;
    AllFlagsSet(f);
    OrderIsDistinct();
  }

  lemma InOrderNext(before: seq<Notice>, more: seq<Notice>, order: seq<StateFlag>, f: StateFlag)
    requires InOrder(before, order) && order + [f] <= SetterOrder()
    requires forall i | 0 <= i < |more| :: more[i].DataChanged? && FlagOfRole(more[i].role) == {f}
    ensures InOrder(before + more, order + [f])
  {
    hide FlagOfRole, SetterOrder, Rank;
    var all, flags := before + more, order + [f];
    assert flags[|order|] == f && order <= SetterOrder();
    LastIsRanked(order, f);
    forall i | 0 <= i < |all| ensures all[i].DataChanged? && IsRoleOf(all[i].role, flags) {
      if i < |before| {
        assert IsRoleOf(before[i].role, order);
        var g :| g in order && g in FlagOfRole(before[i].role);
        assert g in flags;
      } else {
        assert f in FlagOfRole(all[i].role) && f in flags;
      }
    }
    forall i, j, g, h | 0 <= i < j < |all| && g in FlagOfRole(all[i].role) && h in FlagOfRole(all[j].role)
      ensures Rank(g) <= Rank(h)
    {
      if j >= |before| {
        assert h == f;
        if i < |before| {
          assert IsRoleOf(before[i].role, order);
          var x :| x in order && x in FlagOfRole(before[i].role);
          OneFlag(before[i].role, g, x);
          RankedBefore(g, order);
        }
      }
    }
  }

  lemma LastIsRanked(order: seq<StateFlag>, f: StateFlag)
    requires order + [f] <= SetterOrder()
    ensures Rank(f) == |order|
  {
    var flags := order + [f];
    assert SetterOrder()[|order|] == flags[|order|] == f;
  }

  // A state event tells of its flags in the order of the setters.
  lemma {:induction false} StateTellsInOrder(s: World, w: WinId, state: set<StateFlag>, order: seq<StateFlag>)
    requires w in s.attrs && order <= SetterOrder()
    ensures var t, n := TraceOf(SetFlags(s, w, state, order)), |TraceOf(s)|;
            |t| >= n && t[..n] == TraceOf(s) && InOrder(t[n..], order)
    decreases |order|
  {
    hide InOrder, SetFlag, SetterOrder, TraceOf;
    var n := |TraceOf(s)|;
    if order == [] {
      NothingInOrder();
      assert TraceOf(s)[n..] == [];
    } else {
      var before, f := order[..|order| - 1], order[|order| - 1];
      assert order == before + [f];
      StateTellsInOrder(s, w, state, before);
      var t := SetFlags(s, w, state, before);
      SetFlagAppends(t, w, f, f in state);
      var a, b := TraceOf(t), TraceOf(SetFlag(t, w, f, f in state));
      InOrderNext(a[n..], b[|a|..], before, f);
      assert b[n..] == a[n..] + b[|a|..] && b[..n] == a[..n];
    }
  }

  lemma NothingInOrder()
    ensures InOrder([], [])
  {
  }

  // ---------- subscriptions ----------

  // No role is announced, no row inserted and no subscription made.
  ghost predicate Silent(s: World, t: World) {
    && (forall role: Role :: Told(TraceOf(t), role) == Told(TraceOf(s), role))
    && (forall x: WinId :: Insertions(TraceOf(t), x) == Insertions(TraceOf(s), x))
    && t.bundles == s.bundles && t.model.Some? == s.model.Some?
  }

  lemma NoticeIsSilent(s: World, t: World, n: Notice)
    requires TraceOf(t) == TraceOf(s) + [n] && (n.RowRemoved? || n.ModelReset?)
    requires t.bundles == s.bundles && t.model.Some? == s.model.Some?
    ensures Silent(s, t)
  {
    hide Told, Insertions, TraceOf;
    forall role: Role ensures Told(TraceOf(t), role) == Told(TraceOf(s), role) {
      NoticeCounts(TraceOf(s), n, role, 0);
    }
    forall x: WinId ensures Insertions(TraceOf(t), x) == Insertions(TraceOf(s), x) {
      NoticeCounts(TraceOf(s), n, Display, x);
    }
  }

  lemma ForgetsIsSilent(s: World, w: WinId)
    ensures Silent(s, ModelForgets(s, w))
  {
    hide Told, Insertions;
    if s.model.Some? && IndexOf(s.model.value.rows, w) != -1 {
      NoticeIsSilent(s, ModelForgets(s, w), RowRemoved(IndexOf(s.model.value.rows, w)));
    }
  }

  lemma RunSlotIsSilent(s: World, w: WinId, slot: Slot)
    ensures Silent(s, RunSlot(s, w, slot))
  {
    hide Told, Insertions, RemoveRow, Relink, Disconnect;
    ForgetsIsSilent(s, w);
  }

  lemma {:induction false} RunSlotsIsSilent(s: World, w: WinId, slots: seq<Slot>)
    ensures Silent(s, RunSlots(s, w, slots))
    decreases |slots|
  {
    hide Told, Insertions, RunSlot, TraceOf;
    if slots != [] {
      RunSlotIsSilent(s, w, slots[0]);
      RunSlotsIsSilent(RunSlot(s, w, slots[0]), w, slots[1..]);
    }
  }

  lemma ReleaseIsSilent(s: World)
    ensures Silent(s, Release(s))
  {
    hide Told, Insertions;
    if s.bound && s.model.Some? {
      NoticeIsSilent(s, Release(s), ModelReset);
    }
  }

  // Every subscription to a window was made with a row of it, and none is made without one.
  ghost predicate EachRowSubscribed(s: World) {
    s.model.Some? ==>
      && (forall w | w in s.attrs :: Subscriptions(s, w) == Insertions(s.model.value.trace, w))
      && (forall w: WinId | w >= s.nextId :: Insertions(s.model.value.trace, w) == 0)
  }

  lemma SilentKeepsSubscribed(s: World, t: World)
    requires Silent(s, t) && EachRowSubscribed(s) && t.attrs.Keys <= s.attrs.Keys && t.nextId >= s.nextId
    ensures EachRowSubscribed(t)
  {
    hide Told, Insertions;
    assert s.model.Some? ==> TraceOf(s) == s.model.value.trace && TraceOf(t) == t.model.value.trace;
  }

  lemma AddRowCounts(s: World, w: WinId)
    requires EachRowSubscribed(s) && (w in s.attrs ==> w < s.nextId)
    ensures EachRowSubscribed(AddRow(s, w))
    ensures forall role: Role :: Told(TraceOf(AddRow(s, w)), role) == Told(TraceOf(s), role)
  {
    hide Told, Insertions;
    var t := AddRow(s, w);
    if t != s {
      var trace, n := s.model.value.trace, RowInserted(|s.model.value.rows|, w, RowData(s.attrs[w]));
      assert t.model.value.trace == trace + [n];
      forall x: WinId ensures Insertions(trace + [n], x) == Insertions(trace, x) + if x == w then 1 else 0 {
        NoticeCounts(trace, n, Display, x);
      }
      forall role: Role ensures Told(trace + [n], role) == Told(trace, role) {
        NoticeCounts(trace, n, role, w);
      }
    }
  }

  lemma {:induction false} AddRowsCounts(s: World, ws: seq<WinId>)
    requires EachRowSubscribed(s) && forall w | w in ws && w in s.attrs :: w < s.nextId
    ensures var t := AddRows(s, ws);
            && EachRowSubscribed(t) && t.attrs == s.attrs && t.nextId == s.nextId
            && forall role: Role :: Told(TraceOf(t), role) == Told(TraceOf(s), role)
    decreases |ws|
  {
    if ws != [] {
      var before := ws[..|ws| - 1];
      AddRowsCounts(s, before);
      hide EachRowSubscribed, Told, TraceOf;
      AddRowCounts(AddRows(s, before), ws[|ws| - 1]);
    }
  }

  lemma DeleteCounts(s: World, w: WinId)
    requires EachRowSubscribed(s)
    ensures EachRowSubscribed(Delete(s, w))
    ensures forall role: Role :: Told(TraceOf(Delete(s, w)), role) == Told(TraceOf(s), role)
  {
    hide Told, Insertions, RemoveRow, Unlink;
    var t := ManagerForgets(s, w);
    ForgetsIsSilent(t, w);
    SilentKeepsSubscribed(s, ModelForgets(t, w));
  }

  // No event but an attribute event announces a role.
  lemma OthersTellNothing(s: World, e: Event, role: Role)
    requires Possible(s, e) && Inv(s) && EachRowSubscribed(s) && !e.ChangeEvent?
    ensures EachRowSubscribed(Step(s, e)) && Told(TraceOf(Step(s, e)), role) == Told(TraceOf(s), role)
  {
    hide Told, Insertions, EachRowSubscribed, SetParent, AddRow, AddRows, Delete, RunSlots, Release, Unlink;
    match e
    case CreateModelEvent => NewModelCounts(s, role);
    case InitialStateEvent(w) =>
      var t := s.(signals := s.signals + [WindowCreated(w)]);
      SilentKeepsSubscribed(s, t);
      OldIds(s, w);
      AddRowCounts(t, w);
    case UnmappedEvent(w) =>
      RunSlotsIsSilent(MarkUnmapped(s, w), w, s.links.slots[w]);
      RunSlotsActive(MarkUnmapped(s, w), w, s.links.slots[w]);
      NextIdAfter(s, e);
      SilentKeepsSubscribed(s, Step(s, e));
    case DeletedEvent(w) => DeleteCounts(s, w);
    case ReleaseEvent => ReleaseIsSilent(s); ReleaseKeepsWindows(s); SilentKeepsSubscribed(s, Release(s));
    case WindowEvent(native, version, uuid) => NewWindowCounts(s, native, version, uuid);
    case ParentEvent(w, native) => ParentIsSilent(s, w, ParentTarget(s, native));
    case SetupEvent => SilentKeepsSubscribed(s, Step(s, e));
    case DestroyEvent => SilentKeepsSubscribed(s, Step(s, e));
  }

  lemma ReleaseKeepsWindows(s: World)
    ensures Release(s).attrs == s.attrs && Release(s).nextId == s.nextId
  {
  }

  lemma ParentIsSilent(s: World, w: WinId, p: Option<WinId>)
    requires EachRowSubscribed(s)
    ensures EachRowSubscribed(SetParent(s, w, p)) && TraceOf(SetParent(s, w, p)) == TraceOf(s)
  {
    hide Told, Insertions, Relink, Disconnect;
    SilentKeepsSubscribed(s, SetParent(s, w, p));
  }

  lemma NewWindowCounts(s: World, native: nat, version: nat, uuid: string)
    requires Inv(s) && EachRowSubscribed(s)
    ensures var t := AddWindow(s, native, version, uuid); EachRowSubscribed(t) && TraceOf(t) == TraceOf(s)
  {
    hide Told, Insertions, Subscribe;
    if s.model.Some? {
      NewHasNoBundle(s);
    }
  }

  lemma NewHasNoBundle(s: World)
    requires Inv(s)
    ensures s.nextId !in s.bundles
  {
  }

  lemma NewModelCounts(s: World, role: Role)
    requires Inv(s) && s.model.None?
    ensures EachRowSubscribed(CreateModel(s)) && Told(TraceOf(CreateModel(s)), role) == Told(TraceOf(s), role)
  {
    hide AddRows;
    var t := s.(model := Some(Model([], [])));
    NothingSubscribed(s);
    assert EachRowSubscribed(t);
    ListedIds(s);
    AddRowsCounts(t, s.windows);
  }

  lemma NothingSubscribed(s: World)
    requires Inv(s) && s.model.None?
    ensures s.bundles == map[]
  {
  }

  lemma ListedIds(s: World)
    requires Inv(s)
    ensures forall w | w in s.attrs :: w < s.nextId
  {
  }

  lemma ChangeKeepsSubscribed(s: World, w: WinId, ch: Change)
    requires Possible(s, ChangeEvent(w, ch)) && Inv(s) && EachRowSubscribed(s)
    ensures EachRowSubscribed(Apply(s, w, ch))
  {
    hide Told, Insertions, Apply, Inv, Announces;
    ChangeTellsExactly(s, w, ch, Display);
    ApplyWrites(s, w, ch);
    NextIdAfter(s, ChangeEvent(w, ch));
  }

  lemma {:induction false} RunEachRowSubscribed(events: seq<Event>)
    requires Outcome(events).Some?
    ensures EachRowSubscribed(Outcome(events).value)
    decreases |events|
  {
    if events != [] {
      var before, e := events[..|events| - 1], events[|events| - 1];
      RunEachRowSubscribed(before);
      RunKeeps(before);
      hide EachRowSubscribed, Inv, Apply;
      if e.ChangeEvent? {
        ChangeKeepsSubscribed(Outcome(before).value, e.w, e.change);
      } else {
        OthersTellNothing(Outcome(before).value, e, Display);
      }
    }
  }

  // Over every run: an attribute event announces exactly the roles it concerns, each as often as a row of
  // the window was ever inserted; no other event announces any role.
  lemma {:induction false} RolesAreToldExactly(events: seq<Event>, e: Event, role: Role)
    requires Outcome(events + [e]).Some? && Outcome(events).Some?
    ensures var s, t := Outcome(events).value, Outcome(events + [e]).value;
            Told(TraceOf(t), role) - Told(TraceOf(s), role) ==
              if e.ChangeEvent? && e.w in s.attrs && Announces(s.attrs[e.w], e.change, role) then
                Insertions(TraceOf(s), e.w)
              else 0
  {
    var s := Outcome(events).value;
    assert (events + [e])[..|events|] == events;
    RunKeeps(events);
    RunEachRowSubscribed(events);
    hide Told, Insertions, Announces, Apply, Inv;
    if e.ChangeEvent? {
      ChangeTellsExactly(s, e.w, e.change, role);
    } else {
      OthersTellNothing(s, e, role);
    }
  }

  // ---------- the manager's other signals ----------

  predicate OfEvents(sig: ManagerSignal) {
    !sig.ActiveWindowChanged? && !sig.ParentWindowChanged?
  }

  lemma RunSlotEmitsNone(s: World, w: WinId, slot: Slot, sig: ManagerSignal)
    requires OfEvents(sig)
    ensures Emitted(s, RunSlot(s, w, slot), sig) == 0
  {
  }

  lemma {:induction false} RunSlotsEmitsNone(s: World, w: WinId, slots: seq<Slot>, sig: ManagerSignal)
    requires OfEvents(sig)
    ensures Emitted(s, RunSlots(s, w, slots), sig) == 0
    decreases |slots|
  {
    hide RunSlot;
    if slots != [] {
      RunSlotEmitsNone(s, w, slots[0], sig);
      RunSlotsEmitsNone(RunSlot(s, w, slots[0]), w, slots[1..], sig);
    }
  }

  lemma ChangeEmitsNone(s: World, w: WinId, ch: Change, sig: ManagerSignal)
    requires w in s.attrs && OfEvents(sig)
    ensures Emitted(s, Apply(s, w, ch), sig) == 0
  {
    hide SetFlags, OnlyAttrs;
    if ch.State? {
      StateMovesActive(s, w, ch.state);
    } else {
      ApplyQuiet(s, w, ch);
    }
  }

  // Over every run: which event emits which of the manager's signals; activeWindowChanged and
  // parentWindowChanged have results of their own.
  lemma {:induction false} EventSignalsExact(s: World, e: Event, sig: ManagerSignal)
    requires Possible(s, e) && Inv(s) && OfEvents(sig)
    ensures Emitted(s, Step(s, e), sig) == Changed(
      match sig
      case Unmapped(w) => e == UnmappedEvent(w)
      case WindowCreated(w) => e == InitialStateEvent(w) && w !in s.unmapped
      case InterfaceAboutToBeReleased => e.ReleaseEvent? && s.bound
      case InterfaceAboutToBeDestroyed => e.DestroyEvent? && s.bound)
  {
    hide Emitted, Inv, SetParent, AddRow, AddRows, Subscribe, Delete, Unlink, RunSlots, Apply, FindNative, Release;
    match e
    case ChangeEvent(w, ch) => ChangeEmitsNone(s, w, ch, sig);
    case CreateModelEvent =>
      AddRowsFrame(s.(model := Some(Model([], []))), s.windows);
      EmitsOnly(s, Step(s, e), [], sig);
    case InitialStateEvent(w) => InitialStateEmits(s, w, sig);
    case UnmappedEvent(w) =>
      var t := MarkUnmapped(s, w);
      EmitsOnly(s, t, [Unmapped(w)], sig);
      RunSlotsEmitsNone(t, w, s.links.slots[w], sig);
      TwoEmit(s, t, RunSlots(t, w, s.links.slots[w]), sig);
    case DeletedEvent(w) => DeleteEmitsNone(s, w, sig);
    case ParentEvent(w, native) => ParentEmitsNone(s, w, ParentTarget(s, native), sig);
    case ReleaseEvent => ReleaseEmits(s, sig);
    case DestroyEvent => EmitsOnly(s, Step(s, e), if s.bound then [InterfaceAboutToBeDestroyed] else [], sig);
    case SetupEvent => EmitsOnly(s, Step(s, e), [], sig);
    case WindowEvent(_, _, _) => EmitsOnly(s, Step(s, e), [], sig);
  }

  lemma EmitsOnly(s: World, t: World, more: seq<ManagerSignal>, sig: ManagerSignal)
    requires t.signals == s.signals + more && |more| <= 1
    ensures Emitted(s, t, sig) == Changed(more == [sig])
  {
    assert more != [] ==> more == [more[0]];
  }

  lemma TwoEmit(s: World, t: World, u: World, sig: ManagerSignal)
    ensures Emitted(s, u, sig) == Emitted(s, t, sig) + Emitted(t, u, sig)
  {
  }

  lemma InitialStateEmits(s: World, w: WinId, sig: ManagerSignal)
    ensures Emitted(s, InitialState(s, w), sig) == Changed(sig == WindowCreated(w) && w !in s.unmapped)
  {
    hide Emitted, AddRow;
    AddRowFrame(s.(signals := s.signals + [WindowCreated(w)]), w);
    EmitsOnly(s, InitialState(s, w), if w in s.unmapped then [] else [WindowCreated(w)], sig);
  }

  lemma DeleteEmitsNone(s: World, w: WinId, sig: ManagerSignal)
    requires OfEvents(sig)
    ensures Emitted(s, Delete(s, w), sig) == 0
  {
    hide Emitted, RemoveRow, Unlink;
    EmitsOnly(s, Delete(s, w), if s.active == Some(w) then [ActiveWindowChanged] else [], sig);
  }

  lemma ParentEmitsNone(s: World, w: WinId, p: Option<WinId>, sig: ManagerSignal)
    requires OfEvents(sig)
    ensures Emitted(s, SetParent(s, w, p), sig) == 0
  {
    hide Emitted, Relink, Disconnect;
    var t := SetParent(s, w, p);
    EmitsOnly(s, t, if ParentOf(t.links, w) != ParentOf(s.links, w) then [ParentWindowChanged(w)] else [], sig);
  }

  lemma ReleaseEmits(s: World, sig: ManagerSignal)
    ensures Emitted(s, Release(s), sig) == Changed(sig == InterfaceAboutToBeReleased && s.bound)
  {
    hide Emitted;
    EmitsOnly(s, Release(s), if s.bound then [InterfaceAboutToBeReleased] else [], sig);
  }
}
