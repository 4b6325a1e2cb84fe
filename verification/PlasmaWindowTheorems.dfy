/** What holds over every run of window events: the results a user of the three classes relies on. */
module PlasmaWindowTheorems {
  import opened Collections
  import opened PlasmaWindowData
  import opened PlasmaWindowWorld
  import opened PlasmaWindowCoherence
  import opened PlasmaWindowInvariants
  import opened PlasmaWindowSteps

  // ---------- the item model ----------

  // A view that listens only to notifications has exactly the model's rows, and for every role but Pid
  // it has what a fresh read returns.
  lemma ViewAgreesWithModel(events: seq<Event>)
    requires Outcome(events).Some? && Outcome(events).value.model.Some?
    ensures var s := Outcome(events).value;
            var m, view := s.model.value, Replay(s.model.value.trace);
            && |view| == |m.rows| && Distinct(m.rows)
            && (forall r | 0 <= r < |view| :: view[r].window == m.rows[r])
            && (forall r, role: Role | 0 <= r < |view| && role != Pid ::
                  role in view[r].values && view[r].values[role] == DataAt(m.rows, s.attrs, r, role))
  {
    RunKeeps(events);
    var s := Outcome(events).value;
    var view := Replay(s.model.value.trace);
    forall r, role: Role | 0 <= r < |view| && role != Pid
      ensures role in view[r].values && view[r].values[role] == DataAt(s.model.value.rows, s.attrs, r, role)
    {
      assert Fresh(view[r], s.attrs[s.model.value.rows[r]], role);
    }
  }

  // A changed pid shows in a row, and nothing tells the view.
  lemma PidChangeIsMissed(s: World, w: WinId, pid: nat)
    requires w in s.attrs && Coherent(s, true) && s.model.Some? && w in s.model.value.rows && pid != s.attrs[w].pid
    ensures !Coherent(SetPid(s, w, pid), true)
  {
    var m, view, t := s.model.value, Replay(s.model.value.trace), SetPid(s, w, pid);
    var r := IndexOf(m.rows, w);
    assert RowCoherent(view[r], s.attrs[w], true, {});
    assert Fresh(view[r], s.attrs[w], Pid) && !Fresh(view[r], t.attrs[w], Pid);
    assert !RowCoherent(view[r], t.attrs[w], true, {});
  }

  lemma PidChangeIsHarmless(s: World, w: WinId, pid: nat)
    requires w in s.attrs && Coherent(s, true)
    requires s.model.None? || w !in s.model.value.rows || pid == s.attrs[w].pid
    ensures Coherent(SetPid(s, w, pid), true)
  {
    var t := SetPid(s, w, pid);
    if s.attrs[w].pid != pid && s.model.Some? {
      WriteStales(s, true, w, t.attrs[w], {Pid});
      NoRowNothingStale(s.model.value, t.attrs, true, w, {Pid}, {});
      CleanIsCoherent(t, true, w);
    }
  }

  // A view that is right about everything, Pid included, stays so exactly unless the pid of a window
  // that has a row really changes.
  lemma {:induction false} PidCoherenceExact(s: World, e: Event)
    requires Possible(s, e) && Inv(s) && Coherent(s, true)
    ensures Coherent(Step(s, e), true) <==>
      !(PidEvent(e) && s.model.Some? && e.w in s.model.value.rows && e.change.pid != s.attrs[e.w].pid)
  {
    if !PidEvent(e) {
      StepKeepsCoherence(s, e, true);
    } else if s.model.None? || e.w !in s.model.value.rows || e.change.pid == s.attrs[e.w].pid {
      PidChangeIsHarmless(s, e.w, e.change.pid);
    } else {
      PidChangeIsMissed(s, e.w, e.change.pid);
    }
  }

  // The bookkeeping the three classes amount to: which windows are mapped, and which of them have been
  // shown to the model, each in order of arrival.
  datatype Ledger = Ledger(mapped: seq<WinId>, hasModel: bool, admitted: seq<WinId>, bound: bool, next: WinId)

  function Account(l: Ledger, e: Event): Ledger {
    match e
    case SetupEvent => l.(bound := true)
    case ReleaseEvent => if l.bound then l.(bound := false, admitted := []) else l
    case DestroyEvent => l.(bound := false)
    case CreateModelEvent => l.(hasModel := true, admitted := l.mapped)
    case WindowEvent(_, _, _) => l.(mapped := l.mapped + [l.next], next := l.next + 1)
    case InitialStateEvent(w) =>
      if l.hasModel && w in l.mapped && w !in l.admitted then l.(admitted := l.admitted + [w]) else l
    case UnmappedEvent(w) => l.(mapped := Without(l.mapped, w), admitted := Without(l.admitted, w))
    case DeletedEvent(w) => l.(mapped := Without(l.mapped, w), admitted := Without(l.admitted, w))
    case _ => l
  }

  function AccountAll(events: seq<Event>): Ledger
    decreases |events|
  {
    if events == [] then Ledger([], false, [], false, 0)
    else Account(AccountAll(events[..|events| - 1]), events[|events| - 1])
  }

  ghost predicate Books(l: Ledger, s: World) {
    && s.windows == l.mapped && s.nextId == l.next && s.bound == l.bound
    && s.model.Some? == l.hasModel
    && l.admitted == (if s.model.Some? then s.model.value.rows else [])
  }

  ghost predicate Removes(before: seq<WinId>, after: seq<WinId>, w: WinId) {
    after == before || after == Without(before, w)
  }

  lemma RemovesTwice(a: seq<WinId>, b: seq<WinId>, c: seq<WinId>, w: WinId)
    requires Removes(a, b, w) && Removes(b, c, w)
    ensures Removes(a, c, w)
  {
    WithoutMembers(a, w);
    WithoutAbsent(Without(a, w), w);
  }

  function Rows(s: World): seq<WinId> {
    if s.model.Some? then s.model.value.rows else []
  }

  lemma RunSlotLists(s: World, w: WinId, slot: Slot)
    requires Subscribed(s)
    ensures var t := RunSlot(s, w, slot);
            && Removes(s.windows, t.windows, w) && Removes(Rows(s), Rows(t), w)
            && t.model.Some? == s.model.Some? && t.nextId == s.nextId && t.bound == s.bound
  {
    if s.model.Some? && w in s.model.value.rows {
      RemoveFirstIsWithout(s.model.value.rows, w);
    }
  }

  lemma {:induction false} RunSlotsLists(s: World, w: WinId, rest: seq<Slot>)
    requires Mid(s, w, rest)
    ensures var t := RunSlots(s, w, rest);
            && Removes(s.windows, t.windows, w) && Removes(Rows(s), Rows(t), w)
            && t.model.Some? == s.model.Some? && t.nextId == s.nextId && t.bound == s.bound
    decreases |rest|
  {
    if rest != [] {
      var t := RunSlot(s, w, rest[0]);
      SlotKeeps(s, w, rest);
      RunSlotLists(s, w, rest[0]);
      RunSlotsLists(t, w, rest[1..]);
      var u := RunSlots(t, w, rest[1..]);
      RemovesTwice(s.windows, t.windows, u.windows, w);
      RemovesTwice(Rows(s), Rows(t), Rows(u), w);
    }
  }

  // After `unmapped` the window has left both lists, which are otherwise unchanged.
  lemma {:induction false} UnmapLists(s: World, w: WinId)
    requires Inv(s) && w in s.links.slots
    ensures var t := Unmap(s, w);
            && t.windows == Without(s.windows, w) && Rows(t) == Without(Rows(s), w)
            && t.model.Some? == s.model.Some? && t.nextId == s.nextId && t.bound == s.bound
  {
    var u, rest := MarkUnmapped(s, w), s.links.slots[w];
    MarkStartsMid(s, w);
    RunSlotsKeeps(u, w, rest);
    RunSlotsLists(u, w, rest);
    var t := RunSlots(u, w, rest);
    assert !ManagerPending([]) && !ModelPending([]);
    if t.windows == s.windows {
      WithoutAbsent(s.windows, w);
    }
    if Rows(t) == Rows(s) {
      WithoutAbsent(Rows(s), w);
    }
  }

  lemma {:induction false} AddRowsLists(s: World, ws: seq<WinId>)
    requires s.model == Some(Model([], [])) && Distinct(ws) && (forall w | w in ws :: w in s.attrs)
    ensures var t := AddRows(s, ws);
            t.model.Some? && t.model.value.rows == ws && t.attrs == s.attrs && t.windows == s.windows
            && t.nextId == s.nextId && t.bound == s.bound
    decreases |ws|
  {
    if ws != [] {
      AddRowsLists(s, ws[..|ws| - 1]);
    }
  }

  lemma ApplyKeepsBooks(s: World, w: WinId, ch: Change, l: Ledger)
    requires w in s.attrs && Books(l, s)
    ensures Books(l, Apply(s, w, ch))
  {
    if ch.State? {
      StateMovesActive(s, w, ch.state);
    } else {
      ApplyQuiet(s, w, ch);
    }
  }

  lemma StepKeepsBooks(s: World, e: Event, l: Ledger)
    requires Possible(s, e) && Inv(s) && Books(l, s)
    ensures Books(Account(l, e), Step(s, e))
  {
    match e
    case CreateModelEvent => AddRowsLists(s.(model := Some(Model([], []))), s.windows);
    case UnmappedEvent(w) => UnmapLists(s, w); WithoutAbsent([], w);
    case DeletedEvent(w) => ForgottenLists(s, w); WithoutAbsent([], w);
    case InitialStateEvent(w) => MappedAreListed(s, w);
    case ChangeEvent(w, ch) => ApplyKeepsBooks(s, w, ch, l);
    case _ =>
  }

  lemma MappedAreListed(s: World, w: WinId)
    requires Inv(s) && w in s.attrs
    ensures w in s.windows <==> w !in s.unmapped
  {
    assert !ManagerPending([]);
  }

  // Over every run the manager's list is exactly the mapped windows, and the model's rows are exactly
  // the windows present at its construction or initialised since, while mapped and until release.
  lemma {:induction false} RowsFollowLedger(events: seq<Event>)
    requires Outcome(events).Some?
    ensures Books(AccountAll(events), Outcome(events).value)
    decreases |events|
  {
    if events != [] {
      var before := events[..|events| - 1];
      RowsFollowLedger(before);
      RunKeeps(before);
      StepKeepsBooks(Outcome(before).value, events[|events| - 1], AccountAll(before));
    }
  }

  // ---------- parent links ----------

  // The j-th subscription to `unmapped` of x clears the parent of c.
  ghost predicate IsSlotFor(l: Links, x: WinId, j: int, c: WinId) {
    x in l.slots && 0 <= j < |l.slots[x]| && l.slots[x][j].ClearsParentOf? && l.slots[x][j].child == c
  }

  // A subscription for c is on its parent and has the number of its handle.
  lemma SlotNamesParent(l: Links, unmapped: set<WinId>, x: WinId, j: int, c: WinId)
    requires ParentsInv(l, unmapped, 0, []) && IsSlotFor(l, x, j, c)
    ensures c in l.parent && c in l.handles && x == l.parent[c] && l.slots[x][j].conn == l.handles[c].conn
  {
    assert SlotExact(l, x, l.slots[x][j]);
    assert if c in l.parent then LinkOk(l, unmapped, c, 0, []) else Stale(l, c);
  }

  lemma OneSlotOnParent(l: Links, unmapped: set<WinId>, c: WinId) returns (i: int)
    requires ConnsInv(l) && ParentsInv(l, unmapped, 0, []) && c in l.parent
    ensures l.parent[c] in l.slots && l.parent[c] !in unmapped && IsSlotFor(l, l.parent[c], i, c)
    ensures forall x, j | IsSlotFor(l, x, j, c) :: x == l.parent[c] && j == i
  {
    assert LinkOk(l, unmapped, c, 0, []);
    var p := l.parent[c];
    i :| 0 <= i < |l.slots[p]| && l.slots[p][i] == ClearsParentOf(l.handles[c].conn, c);
    forall x, j | IsSlotFor(l, x, j, c) ensures x == p && j == i {
      SlotNamesParent(l, unmapped, x, j, c);
      assert ConnsDistinct(l.slots[p]);
    }
  }

  // A parent is a mapped window of the list, and the child holds exactly one subscription to it.
  lemma {:induction false} ParentIsMappedAndSubscribed(events: seq<Event>, c: WinId)
    requires Outcome(events).Some?
    ensures var s := Outcome(events).value;
            match ParentOf(s.links, c)
            case Some(p) =>
              && p in s.windows && p !in s.unmapped
              && (exists i :: IsSlotFor(s.links, p, i, c)
                   && forall x, j | IsSlotFor(s.links, x, j, c) :: x == p && j == i)
            case None => forall x, j :: !IsSlotFor(s.links, x, j, c)
  {
    RunKeeps(events);
    var s := Outcome(events).value;
    if c in s.links.parent {
      var i := OneSlotOnParent(s.links, s.unmapped, c);
      AttrsAreSlots(s);
      MappedAreListed(s, s.links.parent[c]);
    } else {
      hide WindowsInv, RowsInv, Subscribed, ParentsInv, ConnsInv, HandlesOld, Coherent;
      forall x, j | IsSlotFor(s.links, x, j, c) ensures false {
        SlotNamesParent(s.links, s.unmapped, x, j, c);
      }
    }
  }

  lemma AttrsAreSlots(s: World)
    requires Inv(s)
    ensures s.links.slots.Keys == s.attrs.Keys
  {
  }

  function Emitted(s: World, t: World, sig: ManagerSignal): int {
    multiset(t.signals)[sig] as int - multiset(s.signals)[sig] as int
  }

  // While `unmapped` of w is delivered a parent can only go from w to null, with one signal.
  ghost predicate OnlyLeaves(s: World, t: World, w: WinId, c: WinId) {
    || (ParentOf(t.links, c) == ParentOf(s.links, c) && Emitted(s, t, ParentWindowChanged(c)) == 0)
    || (ParentOf(s.links, c) == Some(w) && ParentOf(t.links, c) == None && Emitted(s, t, ParentWindowChanged(c)) == 1)
  }

  // The subscription of a child is on its parent.
  lemma ChildOfSender(l: Links, unmapped: set<WinId>, w: WinId, slot: Slot, rest: seq<Slot>)
    requires ParentsInv(l, unmapped, w, rest) && w in l.slots && slot in l.slots[w] && slot.ClearsParentOf?
    ensures ParentOf(l, slot.child) == Some(w)
  {
    assert SlotExact(l, w, slot);
    var c := slot.child;
    assert if c in l.parent then LinkOk(l, unmapped, c, w, rest) else Stale(l, c);
  }

  lemma SetParentLeaves(s: World, w: WinId, child: WinId, c: WinId)
    requires ParentOf(s.links, child) == Some(w)
    ensures OnlyLeaves(s, SetParent(s, child, None), w, c)
  {
    assert SetParent(s, child, None).signals == s.signals + [ParentWindowChanged(child)];
  }

  lemma RunSlotLeaves(s: World, w: WinId, slot: Slot, c: WinId, rest: seq<Slot>)
    requires ParentsInv(s.links, s.unmapped, w, rest)
    ensures OnlyLeaves(s, RunSlot(s, w, slot), w, c)
  {
    hide ParentsInv, SetParent;
    if w in s.links.slots && slot in s.links.slots[w] && slot.ClearsParentOf? {
      ChildOfSender(s.links, s.unmapped, w, slot, rest);
      SetParentLeaves(s, w, slot.child, c);
    }
  }

  lemma {:induction false} RunSlotsLeave(s: World, w: WinId, rest: seq<Slot>, c: WinId)
    requires Mid(s, w, rest)
    ensures OnlyLeaves(s, RunSlots(s, w, rest), w, c)
    decreases |rest|
  {
    hide RunSlot, MidLists, ParentsInv, ConnsInv;
    if rest != [] {
      SlotKeeps(s, w, rest);
      RunSlotLeaves(s, w, rest[0], c, rest);
      RunSlotsLeave(RunSlot(s, w, rest[0]), w, rest[1..], c);
    }
  }

  // Unmapping a window clears the parent of all its children and of no other window, and announces
  // exactly those changes. In particular unmapping a former parent leaves a newer one alone.
  lemma {:induction false} UnmapClearsExactlyChildren(s: World, w: WinId, c: WinId)
    requires Inv(s) && w in s.links.slots
    ensures var t := Unmap(s, w);
            && ParentOf(t.links, c) == (if ParentOf(s.links, c) == Some(w) then None else ParentOf(s.links, c))
            && Emitted(s, t, ParentWindowChanged(c)) == (if ParentOf(s.links, c) == Some(w) then 1 else 0)
  {
    var u, rest := MarkUnmapped(s, w), s.links.slots[w];
    MarkStartsMid(s, w);
    RunSlotsLeave(u, w, rest, c);
    RunSlotsKeeps(u, w, rest);
    MidEndsInInv(RunSlots(u, w, rest), w);
    var t := Unmap(s, w);
    if c in t.links.parent {
      NoneFollowsUnmapped(t.links, t.unmapped, w);
    }
  }
}
