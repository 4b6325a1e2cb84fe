/**
 The parent of a window after any run, read off the events alone: the window that the last parent event
 named, for as long as that window stays mapped. And which windows are unmapped.
 */
module PlasmaWindowParents {
  import opened Collections
  import opened PlasmaWindowData
  import opened PlasmaWindowWorld
  import opened PlasmaWindowInvariants
  import opened PlasmaWindowSteps
  import opened PlasmaWindowTheorems
  import opened PlasmaWindowSignals
  import opened PlasmaWindowAttributes

  // Of the windows mapped after the events, p is the first that was announced with this native object.
  ghost predicate FirstMapped(events: seq<Event>, native: nat, p: WinId) {
    var mapped := AccountAll(events).mapped;
    exists i :: 0 <= i < |mapped| && mapped[i] == p && Wraps(events, p, native)
      && forall j | 0 <= j < i :: !Wraps(events, mapped[j], native)
  }

  ghost predicate Wraps(events: seq<Event>, w: WinId, native: nat) {
    w < |Announcements(events)| && Announcements(events)[w].native == native
  }

  // Event k makes p the parent of c, and no later event gives c another one or takes p away.
  ghost predicate Adopts(events: seq<Event>, k: nat, c: WinId, p: WinId) {
    && k < |events| && events[k].ParentEvent? && events[k].w == c && events[k].parentNative.Some?
    && FirstMapped(events[..k], events[k].parentNative.value, p)
    && forall j | k < j < |events| :: !EndsAdoption(events[j], c, p)
  }

  predicate EndsAdoption(e: Event, c: WinId, p: WinId) {
    (e.ParentEvent? && e.w == c) || ((e.UnmappedEvent? || e.DeletedEvent?) && e.w == p)
  }

  ghost predicate Adopted(events: seq<Event>, c: WinId, p: WinId) {
    exists k: nat :: Adopts(events, k, c, p)
  }

  lemma AdoptsNext(events: seq<Event>, e: Event, k: nat, c: WinId, p: WinId)
    requires k < |events|
    ensures Adopts(events + [e], k, c, p) <==> Adopts(events, k, c, p) && !EndsAdoption(e, c, p)
  {
    hide FirstMapped;
    var all := events + [e];
    assert all[|events|] == e && all[..k] == events[..k] && forall j | 0 <= j < |events| :: all[j] == events[j];
  }

  lemma AdoptedNext(events: seq<Event>, e: Event, c: WinId, p: WinId)
    ensures Adopted(events + [e], c, p) <==>
      if e.ParentEvent? && e.w == c then e.parentNative.Some? && FirstMapped(events, e.parentNative.value, p)
      else Adopted(events, c, p) && !EndsAdoption(e, c, p)
  {
    hide FirstMapped;
    var all := events + [e];
    assert all[|events|] == e && all[..|events|] == events;
    forall k: nat | k < |events|
      ensures Adopts(all, k, c, p) <==> Adopts(events, k, c, p) && !EndsAdoption(e, c, p)
    {
      AdoptsNext(events, e, k, c, p);
    }
    if e.ParentEvent? && e.w == c {
      assert Adopts(all, |events|, c, p)
        <==> e.parentNative.Some? && FirstMapped(events, e.parentNative.value, p);
    } else if Adopted(events, c, p) && !EndsAdoption(e, c, p) {
      var k: nat :| Adopts(events, k, c, p);
      assert Adopts(all, k, c, p);
    }
  }

  // ---------- what one event does to a parent ----------

  ghost predicate FirstAt(ws: seq<WinId>, attrs: map<WinId, Attrs>, native: nat, i: nat) {
    && i < |ws| && (forall w | w in ws :: w in attrs) && attrs[ws[i]].native == native
    && forall j | 0 <= j < i :: attrs[ws[j]].native != native
  }

  lemma {:induction false} FindNativeIsFirst(ws: seq<WinId>, attrs: map<WinId, Attrs>, native: nat, p: WinId)
    requires forall w | w in ws :: w in attrs
    ensures FindNative(ws, attrs, native) == Some(p) <==>
      exists i: nat | i < |ws| :: FirstAt(ws, attrs, native, i) && ws[i] == p
  {
    if ws != [] {
      var rest := ws[1..];
      assert forall i | 0 <= i < |rest| :: rest[i] == ws[i + 1];
      FindNativeIsFirst(rest, attrs, native, p);
      if attrs[ws[0]].native == native {
        assert FirstAt(ws, attrs, native, 0);
      } else {
        forall i: nat | i < |rest| ensures FirstAt(rest, attrs, native, i) <==> FirstAt(ws, attrs, native, i + 1) {
        }
        if i: nat :| i < |ws| && FirstAt(ws, attrs, native, i) && ws[i] == p {
          assert FirstAt(rest, attrs, native, i - 1);
        }
      }
    }
  }

  lemma TargetIsFirstMapped(events: seq<Event>, s: World, native: nat, p: WinId)
    requires Inv(s) && AllAsSaid(s, events) && Books(AccountAll(events), s)
    ensures FindNative(s.windows, s.attrs, native) == Some(p) <==> FirstMapped(events, native, p)
  {
    hide Inv, Books, AccountAll, FindNative;
    ListIsAccounted(events, s);
    FindNativeIsFirst(s.windows, s.attrs, native, p);
    forall w | w in s.windows ensures Wraps(events, w, native) <==> s.attrs[w].native == native {
      assert AsSaid(s.attrs[w], events, w);
    }
    forall i: nat | i < |s.windows|
      ensures FirstAt(s.windows, s.attrs, native, i) <==>
        Wraps(events, s.windows[i], native) && forall j | 0 <= j < i :: !Wraps(events, s.windows[j], native)
    {
    }
  }

  lemma ListIsAccounted(events: seq<Event>, s: World)
    requires Inv(s) && Books(AccountAll(events), s)
    ensures s.windows == AccountAll(events).mapped && forall w | w in s.windows :: w in s.attrs
  {
  }

  lemma SetParentMeetsTarget(s: World, c: WinId, native: Option<nat>)
    requires Inv(s)
    ensures ParentOf(SetParent(s, c, ParentTarget(s, native)).links, c) == ParentTarget(s, native)
    ensures forall b | b != c :: ParentOf(SetParent(s, c, ParentTarget(s, native)).links, b) == ParentOf(s.links, b)
  {
    hide Relink, Disconnect, SetParent;
    var p := ParentTarget(s, native);
    SetParentResult(s, c, p);
    if p.Some? {
      AttrsAreSlots(s);
      MappedAreListed(s, p.value);
    }
  }

  lemma OthersKeepParents(s: World, e: Event, c: WinId)
    requires Possible(s, e) && Inv(s) && !e.ParentEvent? && !e.UnmappedEvent? && !e.DeletedEvent?
    ensures ParentOf(Step(s, e).links, c) == ParentOf(s.links, c)
  {
    hide Inv, SetFlags, RemoveRow;
    match e
    case ChangeEvent(w, ch) =>
      if ch.State? {
        StateMovesActive(s, w, ch.state);
      } else {
        ApplyQuiet(s, w, ch);
      }
    case CreateModelEvent => AddRowsFrame(s.(model := Some(Model([], []))), s.windows);
    case _ =>
  }

  ghost predicate ParentAsSaid(s: World, events: seq<Event>, c: WinId) {
    forall p: WinId :: ParentOf(s.links, c) == Some(p) <==> Adopted(events, c, p)
  }

  lemma StepParentAsSaid(s: World, events: seq<Event>, e: Event, c: WinId)
    requires Possible(s, e) && Inv(s) && AllAsSaid(s, events) && Books(AccountAll(events), s)
    requires c in s.attrs && ParentAsSaid(s, events, c) && !(e.DeletedEvent? && e.w == c)
    ensures ParentAsSaid(Step(s, e), events + [e], c)
  {
    hide Inv, AllAsSaid, Books, Adopted, SetParent, Unmap, Delete, ParentOf;
    forall p: WinId ensures ParentOf(Step(s, e).links, c) == Some(p) <==> Adopted(events + [e], c, p) {
      AdoptedNext(events, e, c, p);
      if e.ParentEvent? {
        SetParentMeetsTarget(s, e.w, e.parentNative);
        if e.parentNative.Some? {
          TargetIsFirstMapped(events, s, e.parentNative.value, p);
        }
      } else if e.UnmappedEvent? {
        UnmapClearsExactlyChildren(s, e.w, c);
      } else if e.DeletedEvent? {
        DeletedIsForgotten(s, e.w, c);
      } else {
        OthersKeepParents(s, e, c);
      }
    }
  }

  lemma NewHasNoParent(s: World, events: seq<Event>, e: Event)
    requires Possible(s, e) && Inv(s) && AllAsSaid(s, events) && e.WindowEvent?
    ensures ParentAsSaid(Step(s, e), events + [e], s.nextId)
  {
    var c := s.nextId;
    assert NothingSaid(events, c);
    hide AllAsSaid, Adopted;
    forall p: WinId ensures ParentOf(Step(s, e).links, c) == Some(p) <==> Adopted(events + [e], c, p) {
      AdoptedNext(events, e, c, p);
      NotAdopted(events, c, p);
      UnknownHasNoParent(s, c);
    }
  }

  lemma NotAdopted(events: seq<Event>, c: WinId, p: WinId)
    requires NothingSaid(events, c)
    ensures !Adopted(events, c, p)
  {
    forall k: nat ensures !Adopts(events, k, c, p) {
      if k < |events| {
        assert !About(events[k], c);
      }
    }
  }

  lemma UnknownHasNoParent(s: World, c: WinId)
    requires Inv(s) && c == s.nextId
    ensures ParentOf(s.links, c) == None
  {
    if c in s.links.parent {
      LinkedHasId(s, c);
    }
  }

  lemma LinkedHasId(s: World, c: WinId)
    requires Inv(s) && c in s.links.parent
    ensures c < s.nextId
  {
    assert LinkOk(s.links, s.unmapped, c, 0, []);
  }

  // Over every run, the parent of a window is p exactly if its last parent event named p, by a native
  // object that p was the first mapped window to wrap, and p has neither been unmapped nor deleted since.
  lemma {:induction false} ParentIsLastSent(events: seq<Event>, c: WinId, p: WinId)
    requires Outcome(events).Some? && c in Outcome(events).value.attrs
    ensures ParentOf(Outcome(events).value.links, c) == Some(p) <==> Adopted(events, c, p)
  {
    RunParentAsSaid(events, c);
  }

  lemma {:induction false} RunParentAsSaid(events: seq<Event>, c: WinId)
    requires Outcome(events).Some? && c in Outcome(events).value.attrs
    ensures ParentAsSaid(Outcome(events).value, events, c)
    decreases |events|
  {
    if events != [] {
      var before, e := events[..|events| - 1], events[|events| - 1];
      assert before + [e] == events;
      var s := Outcome(before).value;
      RunKeeps(before);
      RunIsAsSaid(before);
      RowsFollowLedger(before);
      hide ParentAsSaid, AllAsSaid, Inv, Books;
      StepKeepsWindow(s, e, c);
      hide Step;
      if c in s.attrs {
        RunParentAsSaid(before, c);
        StepParentAsSaid(s, before, e, c);
      } else {
        NewHasNoParent(s, before, e);
      }
    }
  }

  lemma StepKeepsWindow(s: World, e: Event, c: WinId)
    requires Possible(s, e) && Inv(s) && c in Step(s, e).attrs
    ensures !(e.DeletedEvent? && e.w == c)
    ensures c in s.attrs || (e.WindowEvent? && c == s.nextId)
  {
    hide Inv, Unlink, Apply;
    if e.ChangeEvent? {
      ApplyWrites(s, e.w, e.change);
    } else if !e.DeletedEvent? {
      OthersWriteNothing(s, e, c);
    }
  }

  // ---------- which windows are unmapped ----------

  lemma OthersKeepUnmapped(s: World, e: Event)
    requires Possible(s, e) && Inv(s) && !e.UnmappedEvent? && !e.DeletedEvent?
    ensures Step(s, e).unmapped == s.unmapped
  {
    hide Inv, SetFlags, SetParent, AddRow, AddRows, Release;
    match e
    case ChangeEvent(w, ch) =>
      if ch.State? {
        StateMovesActive(s, w, ch.state);
      } else {
        ApplyQuiet(s, w, ch);
      }
    case CreateModelEvent => AddRowsFrame(s.(model := Some(Model([], []))), s.windows);
    case InitialStateEvent(w) => RowKeepsUnmapped(s.(signals := s.signals + [WindowCreated(w)]), w);
    case ParentEvent(w, native) => LinksKeepUnmapped(s, w, ParentTarget(s, native));
    case ReleaseEvent => ReleaseKeepsUnmapped(s);
    case _ =>
  }

  lemma RowKeepsUnmapped(s: World, w: WinId)
    ensures AddRow(s, w).unmapped == s.unmapped
  {
  }

  lemma LinksKeepUnmapped(s: World, w: WinId, p: Option<WinId>)
    ensures SetParent(s, w, p).unmapped == s.unmapped
  {
  }

  lemma ReleaseKeepsUnmapped(s: World)
    ensures Release(s).unmapped == s.unmapped
  {
  }

  // The flag that says so is set exactly by the window's unmapped event.
  lemma {:induction false} UnmappedIsSaid(events: seq<Event>, w: WinId)
    requires Outcome(events).Some? && w in Outcome(events).value.attrs
    ensures w in Outcome(events).value.unmapped <==> UnmappedEvent(w) in events
    decreases |events|
  {
    if events != [] {
      var before, e := events[..|events| - 1], events[|events| - 1];
      assert events == before + [e];
      var s := Outcome(before).value;
      RunKeeps(before);
      StepKeepsWindow(s, e, w);
      hide Inv, Step;
      if e.UnmappedEvent? {
        UnmapActive(s, e.w);
      } else if e.DeletedEvent? {
        DeleteActive(s, e.w);
      } else {
        OthersKeepUnmapped(s, e);
      }
      StepIs(s, e);
      if w in s.attrs {
        UnmappedIsSaid(before, w);
      } else {
        RunIsAsSaid(before);
        NewIsMapped(s, before);
      }
    }
  }

  lemma StepIs(s: World, e: Event)
    requires Possible(s, e) && Inv(s)
    ensures e.UnmappedEvent? ==> Step(s, e) == Unmap(s, e.w)
    ensures e.DeletedEvent? ==> Step(s, e) == Delete(s, e.w)
  {
    hide Inv, Unmap, Delete;
  }

  lemma NewIsMapped(s: World, events: seq<Event>)
    requires Inv(s) && AllAsSaid(s, events)
    ensures s.nextId !in s.unmapped && UnmappedEvent(s.nextId) !in events
  {
    assert NothingSaid(events, s.nextId);
    forall i | 0 <= i < |events| ensures events[i] != UnmappedEvent(s.nextId) {
      assert !About(events[i], s.nextId);
    }
  }
}
