/**
 What every event keeps: the manager's list holds exactly the mapped windows, every parent link is
 backed by exactly one subscription on a mapped window, every row is subscribed, and no connection
 handle is ambiguous. While `unmapped` of w is being delivered the invariants hold except for what the
 subscriptions in `rest` are still going to do; with an empty `rest` nothing is excepted.
 */
module PlasmaWindowInvariants {
  import opened Collections
  import opened PlasmaWindowData
  import opened PlasmaWindowWorld
  import opened PlasmaWindowCoherence

  ghost predicate ManagerPending(slots: seq<Slot>) {
    exists slot | slot in slots :: slot.ManagerRemoves?
  }

  ghost predicate ModelPending(slots: seq<Slot>) {
    exists slot | slot in slots :: slot.ModelRemoves?
  }

  ghost predicate ConnsDistinct(slots: seq<Slot>) {
    forall i, j | 0 <= i < j < |slots| :: slots[i].conn != slots[j].conn
  }

  ghost predicate WindowsInv(s: World, w: WinId, rest: seq<Slot>) {
    && s.links.slots.Keys == s.attrs.Keys && s.unmapped <= s.attrs.Keys
    && (forall x | x in s.attrs :: x < s.nextId)
    && Distinct(s.windows)
    && (forall x | x in s.windows :: x in s.attrs && (x in s.unmapped ==> x == w && ManagerPending(rest)))
    && (forall x | x in s.attrs && x !in s.unmapped :: x in s.windows && ManagerPending(s.links.slots[x]))
  }

  ghost predicate ActiveInv(s: World) {
    s.active.Some? ==>
      s.active.value in s.windows && s.active.value in s.attrs && Active in s.attrs[s.active.value].flags
  }

  ghost predicate RowsInv(s: World, w: WinId, rest: seq<Slot>) {
    && s.bundles.Keys <= s.attrs.Keys
    && (s.model.Some? ==> forall x | x in s.model.value.rows ::
          && x in s.links.slots && ModelPending(s.links.slots[x])
          && (x in s.unmapped ==> x == w && ModelPending(rest)))
  }

  ghost predicate ConnsInv(l: Links) {
    && (forall x | x in l.slots :: ConnsDistinct(l.slots[x]))
    && (forall x, slot | x in l.slots && slot in l.slots[x] :: slot.conn < l.nextConn)
  }

  // The link of c is backed by a subscription, and leads to a mapped window or to the window whose
  // delivery will still clear it.
  ghost predicate LinkOk(l: Links, unmapped: set<WinId>, c: WinId, w: WinId, rest: seq<Slot>)
    requires c in l.parent
  {
    var p := l.parent[c];
    && p in l.slots
    && c in l.handles
    && l.handles[c].sender == p
    && var slot := ClearsParentOf(l.handles[c].conn, c);
       slot in l.slots[p] && (p in unmapped ==> p == w && slot in rest)
  }

  // A subscription that clears a parent is the one its child's handle names.
  ghost predicate SlotExact(l: Links, p: WinId, slot: Slot) {
    slot.ClearsParentOf? ==> slot.child in l.handles && l.handles[slot.child] == Connection(p, slot.conn)
  }

  // A handle without a parent is stale: the parent was deleted while it was one.
  ghost predicate Stale(l: Links, c: WinId)
    requires c in l.handles
  {
    l.handles[c].sender !in l.slots
  }

  ghost predicate ParentsInv(l: Links, unmapped: set<WinId>, w: WinId, rest: seq<Slot>) {
    && l.parent.Keys <= l.handles.Keys <= l.slots.Keys
    && (forall c | c in l.handles && c !in l.parent :: Stale(l, c))
    && (forall c | c in l.parent :: LinkOk(l, unmapped, c, w, rest))
    && (forall p, slot | p in l.slots && slot in l.slots[p] :: SlotExact(l, p, slot))
  }

  // No handle names a window that is still to come.
  ghost predicate HandlesOld(l: Links, nextId: WinId) {
    forall c | c in l.handles :: l.handles[c].sender < nextId
  }

  ghost predicate Inv(s: World) {
    && WindowsInv(s, 0, []) && ActiveInv(s) && RowsInv(s, 0, []) && Subscribed(s)
    && ConnsInv(s.links) && ParentsInv(s.links, s.unmapped, 0, []) && HandlesOld(s.links, s.nextId)
  }

  // ---------- attribute events ----------

  // What the attribute events leave alone.
  ghost predicate SameLinks(s: World, t: World) {
    && s.attrs.Keys == t.attrs.Keys && s.unmapped == t.unmapped
    && s.links == t.links && s.bundles == t.bundles && s.windows == t.windows
    && s.nextId == t.nextId && s.bound == t.bound
    && s.model.Some? == t.model.Some?
    && (s.model.Some? ==> s.model.value.rows == t.model.value.rows)
  }

  // Besides the links, an attribute event leaves alone the other windows, and the native handle.
  ghost predicate OnlyAttrs(s: World, t: World, w: WinId) {
    && SameLinks(s, t)
    && (forall x | x in s.attrs && x != w :: t.attrs[x] == s.attrs[x])
    && (w in s.attrs ==> t.attrs[w].native == s.attrs[w].native)
  }

  lemma SameLinksKeep(s: World, t: World)
    requires SameLinks(s, t)
    requires Inv(s) && ActiveInv(t) && Subscribed(t)
    ensures Inv(t)
  {
  }

  lemma {:induction false} NotifyTimesRows(m: Model, attrs: map<WinId, Attrs>, w: WinId, role: Role, n: nat)
    ensures NotifyTimes(m, attrs, w, role, n).rows == m.rows
  {
    if n > 0 {
      NotifyTimesRows(m, attrs, w, role, n - 1);
    }
  }

  lemma EmitToModelOnly(s: World, w: WinId, role: Role)
    ensures OnlyAttrs(s, EmitToModel(s, w, role), w)
    ensures var t := EmitToModel(s, w, role);
            t.attrs == s.attrs && t.active == s.active && t.signals == s.signals
  {
    if s.model.Some? && w in s.bundles {
      NotifyTimesRows(s.model.value, s.attrs, w, role, s.bundles[w]);
    }
  }

  lemma FollowActiveOnly(s: World, w: WinId)
    ensures OnlyAttrs(s, FollowActive(s, w), w) && FollowActive(s, w).attrs == s.attrs
  {
  }

  lemma EmitOnly(s: World, w: WinId, sig: Signal)
    ensures OnlyAttrs(s, Emit(s, w, sig), w)
    ensures Emit(s, w, sig).attrs == s.attrs
    ensures var t := if sig == ActiveChanged then FollowActive(s, w) else s;
            Emit(s, w, sig).active == t.active && Emit(s, w, sig).signals == t.signals
  {
    var t := if sig == ActiveChanged then FollowActive(s, w) else s;
    EmitToModelOnly(t, w, RoleOfSignal(sig));
    FollowActiveOnly(s, w);
  }

  lemma UpdateOnly(s: World, w: WinId, a: Attrs, sig: Signal)
    requires w in s.attrs && a.native == s.attrs[w].native
    ensures OnlyAttrs(s, Update(s, w, a, sig), w)
    ensures Update(s, w, a, sig).attrs == s.attrs[w := a]
    ensures sig != ActiveChanged ==>
      Update(s, w, a, sig).active == s.active && Update(s, w, a, sig).signals == s.signals
  {
    EmitOnly(s.(attrs := s.attrs[w := a]), w, sig);
  }

  lemma SelfOnly(s: World, w: WinId)
    ensures OnlyAttrs(s, s, w)
  {
  }

  lemma SetFlagOnly(s: World, w: WinId, f: StateFlag, on: bool)
    requires w in s.attrs
    ensures OnlyAttrs(s, SetFlag(s, w, f, on), w)
    ensures SetFlag(s, w, f, on).attrs[w].flags == Toggle(s.attrs[w].flags, f, on)
    ensures f != Active ==> SetFlag(s, w, f, on).active == s.active && SetFlag(s, w, f, on).signals == s.signals
    ensures f == Active && (Active in s.attrs[w].flags) == on ==>
      SetFlag(s, w, f, on) == s
    ensures f == Active && (Active in s.attrs[w].flags) != on ==>
      var a := s.attrs[w].(flags := Toggle(s.attrs[w].flags, Active, on));
      var t := FollowActive(s.(attrs := s.attrs[w := a]), w);
      SetFlag(s, w, f, on).active == t.active && SetFlag(s, w, f, on).signals == t.signals
  {
    hide Emit, FollowActive, OnlyAttrs;
    SelfOnly(s, w);
    var a := s.attrs[w];
    if (f in a.flags) != on {
      var a' := a.(flags := Toggle(a.flags, f, on));
      UpdateOnly(s, w, a', SignalOfSetter(f));
      EmitOnly(s.(attrs := s.attrs[w := a']), w, SignalOfSetter(f));
    }
  }

  // The setters after the first one do not touch the active flag or the active window.
  lemma {:induction false} SetFlagsOnly(s: World, w: WinId, state: set<StateFlag>, order: seq<StateFlag>)
    requires w in s.attrs
    ensures OnlyAttrs(s, SetFlags(s, w, state, order), w)
    ensures Active !in order ==>
      var t := SetFlags(s, w, state, order);
      t.active == s.active && t.signals == s.signals && (Active in t.attrs[w].flags <==> Active in s.attrs[w].flags)
    ensures order != [] && order[0] == Active && Active !in order[1..] ==>
      var t, u := SetFlags(s, w, state, order), SetFlag(s, w, Active, Active in state);
      t.active == u.active && t.signals == u.signals && (Active in t.attrs[w].flags <==> Active in state)
    decreases |order|
  {
    if order != [] {
      var front, f := order[..|order| - 1], order[|order| - 1];
      SetFlagsOnly(s, w, state, front);
      SetFlagOnly(SetFlags(s, w, state, front), w, f, f in state);
      SetFlagOnly(s, w, Active, Active in state);
      if |order| > 1 {
        assert front[0] == order[0] && front[1..] == order[1..|order| - 1];
        assert f in order[1..];
      }
    }
  }

  // To the manager t is s after setActive(on) of w.
  ghost predicate MovesActive(s: World, t: World, w: WinId, on: bool)
    requires w in s.attrs
  {
    && OnlyAttrs(s, t, w) && (Active in t.attrs[w].flags <==> on)
    && var a := s.attrs[w].(flags := Toggle(s.attrs[w].flags, Active, on));
       var u := if (Active in s.attrs[w].flags) == on then s else FollowActive(s.(attrs := s.attrs[w := a]), w);
       t.active == u.active && t.signals == u.signals
  }

  // stateChangedCallback moves the active window as setActive alone would.
  lemma {:induction false} StateMovesActive(s: World, w: WinId, state: set<StateFlag>)
    requires w in s.attrs
    ensures MovesActive(s, SetFlags(s, w, state, SetterOrder()), w, Active in state)
  {
    hide SetFlags, MovesActive;
    OrderMovesActive(s, w, state, SetterOrder());
  }

  lemma OrderMovesActive(s: World, w: WinId, state: set<StateFlag>, order: seq<StateFlag>)
    requires w in s.attrs && order != [] && order[0] == Active && Active !in order[1..]
    ensures MovesActive(s, SetFlags(s, w, state, order), w, Active in state)
  {
    SetFlagsOnly(s, w, state, order);
    SetFlagOnly(s, w, Active, Active in state);
  }

  // ---------- disconnecting ----------

  lemma {:induction false} DropConnMembers(slots: seq<Slot>, conn: nat)
    ensures forall slot | slot in DropConn(slots, conn) :: slot in slots && slot.conn != conn
    ensures forall slot | slot in slots && slot.conn != conn :: slot in DropConn(slots, conn)
  {
    if slots != [] {
      DropConnMembers(slots[1..], conn);
    }
  }

  lemma {:induction false} DropConnDistinct(slots: seq<Slot>, conn: nat)
    requires ConnsDistinct(slots)
    ensures ConnsDistinct(DropConn(slots, conn))
  {
    if slots != [] {
      DropConnDistinct(slots[1..], conn);
      DropConnMembers(slots[1..], conn);
      assert forall slot | slot in slots[1..] :: slot.conn != slots[0].conn;
    }
  }

  lemma SameConnSameSlot(slots: seq<Slot>, a: Slot, b: Slot)
    requires ConnsDistinct(slots) && a in slots && b in slots && a.conn == b.conn
    ensures a == b
  {
  }

  // ---------- setParentWindow ----------

  ghost predicate AgreeBut(a: seq<Slot>, b: seq<Slot>, c: WinId) {
    forall slot: Slot | !(slot.ClearsParentOf? && slot.child == c) :: slot in a <==> slot in b
  }

  // The two states have the same subscriptions apart from those of child c.
  ghost predicate SlotsAgree(l: Links, l': Links, c: WinId) {
    l.slots.Keys == l'.slots.Keys && forall x | x in l.slots :: AgreeBut(l.slots[x], l'.slots[x], c)
  }

  // The handle of a child with a parent names the child's own subscription only.
  lemma DropOwn(l: Links, c: WinId, unmapped: set<WinId>, w: WinId, rest: seq<Slot>)
    requires ConnsInv(l) && ParentsInv(l, unmapped, w, rest) && c in l.parent
    ensures var h := l.handles[c];
            && h.sender in l.slots && ConnsDistinct(DropConn(l.slots[h.sender], h.conn))
            && forall slot :: slot in DropConn(l.slots[h.sender], h.conn) <==>
                 slot in l.slots[h.sender] && slot != ClearsParentOf(h.conn, c)
  {
    assert LinkOk(l, unmapped, c, w, rest);
    var h := l.handles[c];
    var own, was := ClearsParentOf(h.conn, c), l.slots[h.sender];
    DropConnMembers(was, h.conn);
    DropConnDistinct(was, h.conn);
    forall slot | slot in was && slot.conn == h.conn ensures slot == own {
      SameConnSameSlot(was, slot, own);
    }
  }

  // A stale handle, or none, disconnects nothing.
  lemma StaleDisconnectsNothing(l: Links, c: WinId, unmapped: set<WinId>, w: WinId, rest: seq<Slot>)
    requires ParentsInv(l, unmapped, w, rest) && c !in l.parent
    ensures Disconnect(l, c) == l
    ensures forall x, slot | x in l.slots && slot in l.slots[x] :: !(slot.ClearsParentOf? && slot.child == c)
  {
    forall x, slot | x in l.slots && slot in l.slots[x] ensures !(slot.ClearsParentOf? && slot.child == c) {
      assert SlotExact(l, x, slot);
      assert c in l.handles ==> Stale(l, c);
    }
  }

  // Dropping the handle of c removes every subscription made for c, and no other.
  lemma {:induction false} DisconnectEffect(l: Links, c: WinId, unmapped: set<WinId>, w: WinId, rest: seq<Slot>)
    requires ConnsInv(l) && ParentsInv(l, unmapped, w, rest)
    ensures SlotsAgree(l, Disconnect(l, c), c)
    ensures ConnsInv(Disconnect(l, c))
    ensures forall x, slot | x in l.slots && slot in Disconnect(l, c).slots[x] ::
              slot in l.slots[x] && !(slot.ClearsParentOf? && slot.child == c)
  {
    if c in l.parent {
      DropOwn(l, c, unmapped, w, rest);
      forall x, slot | x in l.slots && slot in Disconnect(l, c).slots[x]
        ensures slot in l.slots[x] && !(slot.ClearsParentOf? && slot.child == c)
      {
        assert SlotExact(l, x, slot);
      }
    } else {
      StaleDisconnectsNothing(l, c, unmapped, w, rest);
    }
  }

  lemma RelinkEffect(l: Links, unmapped: set<WinId>, c: WinId, p: Option<WinId>)
    requires ConnsInv(l)
    ensures SlotsAgree(l, Relink(l, unmapped, c, p), c) && ConnsInv(Relink(l, unmapped, c, p))
  {
    if p.Some? && p.value in l.slots && p.value !in unmapped {
      assert Relink(l, unmapped, c, p).slots[p.value] == l.slots[p.value] + [ClearsParentOf(l.nextConn, c)];
    }
  }

  lemma AgreeTransitive(l: Links, l': Links, l'': Links, c: WinId)
    requires SlotsAgree(l, l', c) && SlotsAgree(l', l'', c)
    ensures SlotsAgree(l, l'', c)
  {
    forall x | x in l.slots ensures AgreeBut(l.slots[x], l''.slots[x], c) {
      assert AgreeBut(l.slots[x], l'.slots[x], c) && AgreeBut(l'.slots[x], l''.slots[x], c);
    }
  }

  // Between disconnect and the new link: child c has no subscription at all, the others are as before.
  ghost predicate Detached(l: Links, unmapped: set<WinId>, c: WinId, w: WinId, rest: seq<Slot>) {
    && l.parent.Keys <= l.handles.Keys <= l.slots.Keys
    && (forall b | b in l.handles && b !in l.parent && b != c :: Stale(l, b))
    && (forall b | b in l.parent && b != c :: LinkOk(l, unmapped, b, w, rest))
    && (forall p, slot | p in l.slots && slot in l.slots[p] ::
          SlotExact(l, p, slot) && !(slot.ClearsParentOf? && slot.child == c))
  }

  // A subscription of c that was still to be run is used up.
  lemma DisconnectDetaches(
    l: Links, c: WinId, unmapped: set<WinId>, w: WinId, rest: seq<Slot>, rest': seq<Slot>)
    requires ConnsInv(l) && ParentsInv(l, unmapped, w, rest)
    requires forall slot | slot in rest && slot.ClearsParentOf? && slot.child != c :: slot in rest'
    ensures Detached(Disconnect(l, c), unmapped, c, w, rest')
  {
    var d := Disconnect(l, c);
    DisconnectEffect(l, c, unmapped, w, rest);
    forall b | b in d.parent && b != c ensures LinkOk(d, unmapped, b, w, rest') {
      assert LinkOk(l, unmapped, b, w, rest);
      assert AgreeBut(l.slots[l.parent[b]], d.slots[l.parent[b]], c);
    }
    forall p, slot | p in d.slots && slot in d.slots[p]
      ensures SlotExact(d, p, slot) && !(slot.ClearsParentOf? && slot.child == c)
    {
      assert SlotExact(l, p, slot);
    }
  }

  lemma RelinkAttaches(d: Links, unmapped: set<WinId>, c: WinId, p: Option<WinId>, w: WinId, rest: seq<Slot>)
    requires Detached(d, unmapped, c, w, rest) && c in d.slots
    ensures ParentsInv(Relink(d, unmapped, c, p), unmapped, w, rest)
  {
    var l := Relink(d, unmapped, c, p);
    forall b | b in l.parent ensures LinkOk(l, unmapped, b, w, rest) {
      if b != c {
        assert LinkOk(d, unmapped, b, w, rest);
      }
    }
    forall x, slot | x in l.slots && slot in l.slots[x] ensures SlotExact(l, x, slot) {
      if slot in d.slots[x] {
        assert SlotExact(d, x, slot);
      }
    }
  }

  lemma SetParentKeepsLinks(
    l: Links, unmapped: set<WinId>, c: WinId, p: Option<WinId>, w: WinId, rest: seq<Slot>, rest': seq<Slot>)
    requires ConnsInv(l) && ParentsInv(l, unmapped, w, rest) && c in l.slots
    requires forall slot | slot in rest && slot.ClearsParentOf? && slot.child != c :: slot in rest'
    ensures var l' := Relink(Disconnect(l, c), unmapped, c, p);
            ParentsInv(l', unmapped, w, rest') && ConnsInv(l') && SlotsAgree(l, l', c)
  {
    var d := Disconnect(l, c);
    DisconnectEffect(l, c, unmapped, w, rest);
    DisconnectDetaches(l, c, unmapped, w, rest, rest');
    RelinkEffect(d, unmapped, c, p);
    RelinkAttaches(d, unmapped, c, p, w, rest');
    AgreeTransitive(l, d, Relink(d, unmapped, c, p), c);
  }

  // Only the parent of c changes, to the requested window if that is mapped, and
  // parentWindowChanged fires exactly on a change.
  lemma SetParentResult(s: World, c: WinId, p: Option<WinId>)
    requires s.unmapped <= s.links.slots.Keys
    ensures var t := SetParent(s, c, p);
            && ParentOf(t.links, c)
            == (if p.Some? && p.value in s.links.slots && p.value !in s.unmapped then p else None)
            && (forall b | b != c :: ParentOf(t.links, b) == ParentOf(s.links, b))
            && t.signals
            == s.signals + (if ParentOf(t.links, c) != ParentOf(s.links, c) then [ParentWindowChanged(c)] else [])
  {
  }

  lemma AgreeKeepsPending(l: Links, l': Links, c: WinId)
    requires SlotsAgree(l, l', c)
    ensures forall x | x in l.slots :: ManagerPending(l'.slots[x]) == ManagerPending(l.slots[x])
    ensures forall x | x in l.slots :: ModelPending(l'.slots[x]) == ModelPending(l.slots[x])
  {
    forall x | x in l.slots
      ensures ManagerPending(l'.slots[x]) == ManagerPending(l.slots[x])
      ensures ModelPending(l'.slots[x]) == ModelPending(l.slots[x])
    {
      assert AgreeBut(l.slots[x], l'.slots[x], c);
    }
  }

  lemma SetParentKeepsLists(s: World, t: World, c: WinId)
    requires Inv(s) && t == s.(links := t.links, signals := t.signals) && SlotsAgree(s.links, t.links, c)
    ensures WindowsInv(t, 0, []) && ActiveInv(t) && RowsInv(t, 0, []) && Subscribed(t)
  {
    AgreeKeepsPending(s.links, t.links, c);
  }

  lemma {:induction false} SetParentKeeps(s: World, c: WinId, p: Option<WinId>)
    requires Inv(s) && c in s.attrs
    ensures Inv(SetParent(s, c, p))
  {
    assert c in s.links.slots;
    hide WindowsInv, ActiveInv, RowsInv, Subscribed, ConnsInv, ParentsInv, HandlesOld;
    var t := SetParent(s, c, p);
    SetParentKeepsLinks(s.links, s.unmapped, c, p, 0, [], []);
    SetParentKeepsLists(s, t, c);
    SetParentKeepsHandles(s, c, p);
  }

  lemma SetParentKeepsHandles(s: World, c: WinId, p: Option<WinId>)
    requires Inv(s)
    ensures HandlesOld(SetParent(s, c, p).links, s.nextId)
  {
    hide RowsInv, Subscribed, ConnsInv, ParentsInv;
  }

  // ---------- delivery of `unmapped` ----------

  // The state while `unmapped` of w is being delivered and the subscriptions `rest` are still to run.
  ghost predicate Mid(s: World, w: WinId, rest: seq<Slot>) {
    MidLists(s, w, rest) && MidLinks(s.links, s.unmapped, w, rest) && HandlesOld(s.links, s.nextId)
  }

  ghost predicate MidLists(s: World, w: WinId, rest: seq<Slot>) {
    WindowsInv(s, w, rest) && ActiveInv(s) && RowsInv(s, w, rest) && Subscribed(s) && w in s.unmapped
  }

  ghost predicate MidLinks(l: Links, unmapped: set<WinId>, w: WinId, rest: seq<Slot>) {
    && ConnsInv(l) && ParentsInv(l, unmapped, w, rest)
    && w in l.slots && ConnsDistinct(rest) && (forall slot | slot in rest :: slot in l.slots[w])
  }

  lemma PendingTail(rest: seq<Slot>)
    requires rest != []
    ensures ManagerPending(rest) ==> rest[0].ManagerRemoves? || ManagerPending(rest[1..])
    ensures ModelPending(rest) ==> rest[0].ModelRemoves? || ModelPending(rest[1..])
    ensures forall slot | slot in rest && slot.ClearsParentOf? && !rest[0].ClearsParentOf? :: slot in rest[1..]
  {
    assert forall slot | slot in rest :: slot == rest[0] || slot in rest[1..];
  }

  // Running a subscription that clears no parent uses up no link.
  lemma LinksWait(l: Links, unmapped: set<WinId>, w: WinId, rest: seq<Slot>)
    requires MidLinks(l, unmapped, w, rest) && rest != [] && !rest[0].ClearsParentOf?
    ensures MidLinks(l, unmapped, w, rest[1..])
  {
    PendingTail(rest);
    forall c | c in l.parent ensures LinkOk(l, unmapped, c, w, rest[1..]) {
      assert LinkOk(l, unmapped, c, w, rest);
    }
  }

  lemma ManagerSlotKeeps(s: World, w: WinId, rest: seq<Slot>)
    requires MidLists(s, w, rest) && rest != [] && rest[0].ManagerRemoves?
    ensures MidLists(ManagerForgets(s, w), w, rest[1..])
  {
    PendingTail(rest);
    WithoutMembers(s.windows, w);
    WithoutDistinct(s.windows, w);
  }

  lemma ModelSlotKeeps(s: World, w: WinId, rest: seq<Slot>)
    requires MidLists(s, w, rest) && rest != [] && rest[0].ModelRemoves?
    ensures MidLists(ModelForgets(s, w), w, rest[1..])
  {
    PendingTail(rest);
    if s.model.Some? && w in s.model.value.rows {
      RemoveFirstIsWithout(s.model.value.rows, w);
      WithoutMembers(s.model.value.rows, w);
      WithoutDistinct(s.model.value.rows, w);
    }
  }

  lemma ParentSlotKeepsLists(s: World, t: World, c: WinId, w: WinId, rest: seq<Slot>)
    requires MidLists(s, w, rest) && rest != [] && rest[0].ClearsParentOf?
    requires t == s.(links := t.links, signals := t.signals) && SlotsAgree(s.links, t.links, c)
    ensures MidLists(t, w, rest[1..])
  {
    PendingTail(rest);
    AgreeKeepsPending(s.links, t.links, c);
  }

  lemma ParentSlotKeepsLinks(l: Links, unmapped: set<WinId>, w: WinId, rest: seq<Slot>)
    requires MidLinks(l, unmapped, w, rest) && rest != [] && rest[0].ClearsParentOf?
    ensures var c := rest[0].child; var l' := Relink(Disconnect(l, c), unmapped, c, None);
            MidLinks(l', unmapped, w, rest[1..]) && SlotsAgree(l, l', c)
  {
    var c := rest[0].child;
    assert c in l.slots by {
      assert SlotExact(l, w, rest[0]);
    }
    SetParentKeepsLinks(l, unmapped, c, None, w, rest, rest[1..]);
    OthersStillToRun(l, Relink(Disconnect(l, c), unmapped, c, None), unmapped, w, rest);
  }

  lemma SlotKeeps(s: World, w: WinId, rest: seq<Slot>)
    requires Mid(s, w, rest) && rest != []
    ensures Mid(RunSlot(s, w, rest[0]), w, rest[1..])
  {
    var slot := rest[0];
    if slot.ManagerRemoves? {
      ManagerSlotKeeps(s, w, rest);
      LinksWait(s.links, s.unmapped, w, rest);
    } else if slot.ModelRemoves? {
      ModelSlotKeeps(s, w, rest);
      LinksWait(s.links, s.unmapped, w, rest);
    } else {
      var t := SetParent(s, slot.child, None);
      ParentSlotKeepsLinks(s.links, s.unmapped, w, rest);
      ParentSlotKeepsLists(s, t, slot.child, w, rest);
    }
  }

  lemma OthersStillToRun(l: Links, l': Links, unmapped: set<WinId>, w: WinId, rest: seq<Slot>)
    requires ParentsInv(l, unmapped, w, rest) && w in l.slots && ConnsDistinct(rest)
    requires rest != [] && rest[0].ClearsParentOf? && SlotsAgree(l, l', rest[0].child)
    requires forall slot | slot in rest :: slot in l.slots[w]
    ensures forall slot | slot in rest[1..] :: slot in l'.slots[w]
  {
    var c := rest[0].child;
    forall slot | slot in rest[1..] ensures slot in l'.slots[w] {
      assert slot.conn != rest[0].conn;
      assert SlotExact(l, w, rest[0]) && SlotExact(l, w, slot);
      assert AgreeBut(l.slots[w], l'.slots[w], c);
    }
  }

  lemma {:induction false} RunSlotsKeeps(s: World, w: WinId, rest: seq<Slot>)
    requires Mid(s, w, rest)
    ensures Mid(RunSlots(s, w, rest), w, [])
    decreases |rest|
  {
    if rest != [] {
      SlotKeeps(s, w, rest);
      RunSlotsKeeps(RunSlot(s, w, rest[0]), w, rest[1..]);
    }
  }

  function MarkUnmapped(s: World, w: WinId): World {
    s.(unmapped := s.unmapped + {w}, signals := s.signals + [Unmapped(w)])
  }

  lemma MarkStartsMid(s: World, w: WinId)
    requires Inv(s) && w in s.links.slots
    ensures Mid(MarkUnmapped(s, w), w, s.links.slots[w])
  {
    var l, rest := s.links, s.links.slots[w];
    assert !ManagerPending([]) && !ModelPending([]);
    forall c | c in l.parent ensures LinkOk(l, s.unmapped + {w}, c, w, rest) {
      assert LinkOk(l, s.unmapped, c, 0, []);
    }
  }

  lemma MidEndsInInv(s: World, w: WinId)
    requires Mid(s, w, [])
    ensures Inv(s)
  {
    assert !ManagerPending([]) && !ModelPending([]);
    forall c | c in s.links.parent ensures LinkOk(s.links, s.unmapped, c, 0, []) {
      assert LinkOk(s.links, s.unmapped, c, w, []);
    }
  }

  lemma {:induction false} UnmapKeeps(s: World, w: WinId)
    requires Inv(s) && w in s.links.slots
    ensures Inv(Unmap(s, w))
  {
    MarkStartsMid(s, w);
    RunSlotsKeeps(MarkUnmapped(s, w), w, s.links.slots[w]);
    MidEndsInInv(Unmap(s, w), w);
  }
}
