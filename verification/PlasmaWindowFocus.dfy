/**
 The active window after any run, read off the events alone: the window that was activated last, unless it
 has been deactivated, unmapped or deleted since, whatever other windows are active.
 */
module PlasmaWindowFocus {
  import opened Collections
  import opened PlasmaWindowData
  import opened PlasmaWindowWorld
  import opened PlasmaWindowInvariants
  import opened PlasmaWindowSteps
  import opened PlasmaWindowTheorems
  import opened PlasmaWindowSignals
  import opened PlasmaWindowAttributes
  import opened PlasmaWindowParents

  // Event k makes the mapped window w active, which it was not.
  ghost predicate Activates(events: seq<Event>, k: nat, w: WinId) {
    && k < |events| && events[k].ChangeEvent? && events[k].w == w && events[k].change.State?
    && Active in events[k].change.state && Active !in SaidFlags(events[..k], w) && UnmappedEvent(w) !in events[..k]
  }

  predicate EndsActivity(e: Event, w: WinId) {
    || ((e.UnmappedEvent? || e.DeletedEvent?) && e.w == w)
    || (e.ChangeEvent? && e.w == w && e.change.State? && Active !in e.change.state)
  }

  // Event k activated w and nothing has ended that or activated another window since.
  ghost predicate ActiveSince(events: seq<Event>, k: nat, w: WinId) {
    && Activates(events, k, w)
    && forall j: nat | k < j < |events| :: !EndsActivity(events[j], w) && OnlyActivates(events, j, w)
  }

  ghost predicate OnlyActivates(events: seq<Event>, j: nat, w: WinId) {
    forall x: WinId | x != w :: !Activates(events, j, x)
  }

  ghost predicate LastActivated(events: seq<Event>, w: WinId) {
    exists k: nat :: ActiveSince(events, k, w)
  }

  lemma ActivatesBefore(events: seq<Event>, e: Event, k: nat, w: WinId)
    requires k < |events|
    ensures Activates(events + [e], k, w) <==> Activates(events, k, w)
  {
    assert (events + [e])[..k] == events[..k] && (events + [e])[k] == events[k];
  }

  lemma ActiveSinceNext(events: seq<Event>, e: Event, k: nat, w: WinId)
    requires k < |events|
    ensures ActiveSince(events + [e], k, w) <==>
      ActiveSince(events, k, w) && !EndsActivity(e, w) && OnlyActivates(events + [e], |events|, w)
  {
    hide Activates;
    var all := events + [e];
    ActivatesBefore(events, e, k, w);
    assert all[|events|] == e;
    forall j: nat | j < |events|
      ensures all[j] == events[j] && OnlyActivates(all, j, w) == OnlyActivates(events, j, w)
    {
      forall x: WinId ensures Activates(all, j, x) == Activates(events, j, x) {
        ActivatesBefore(events, e, j, x);
      }
    }
  }

  lemma LastActivatedNext(events: seq<Event>, e: Event, w: WinId)
    ensures var all := events + [e];
            LastActivated(all, w) <==>
              || Activates(all, |events|, w)
              || (LastActivated(events, w) && !EndsActivity(e, w) && OnlyActivates(all, |events|, w))
  {
    hide Activates, OnlyActivates, EndsActivity;
    var all := events + [e];
    forall k: nat | k < |events|
      ensures ActiveSince(all, k, w) <==>
        ActiveSince(events, k, w) && !EndsActivity(e, w) && OnlyActivates(all, |events|, w)
    {
      ActiveSinceNext(events, e, k, w);
    }
    if Activates(all, |events|, w) {
      assert ActiveSince(all, |events|, w);
    }
    if LastActivated(events, w) && !EndsActivity(e, w) && OnlyActivates(all, |events|, w) {
      var k: nat :| ActiveSince(events, k, w);
      ActivityHasIndex(events, k, w);
      assert ActiveSince(all, k, w);
    }
    if k: nat :| ActiveSince(all, k, w) {
      ActivityHasIndex(all, k, w);
    }
  }

  lemma ActivityHasIndex(events: seq<Event>, k: nat, w: WinId)
    requires ActiveSince(events, k, w)
    ensures k < |events| && Activates(events, k, w)
  {
  }

  // ---------- what one event does ----------

  lemma StateMovesFocus(s: World, w: WinId, state: set<StateFlag>)
    requires Inv(s) && w in s.attrs
    ensures Apply(s, w, State(state)).active ==
      if Active in state && Active !in s.attrs[w].flags && w !in s.unmapped then Some(w)
      else if Active !in state && s.active == Some(w) then None
      else s.active
  {
    hide Inv, SetFlags, OnlyAttrs;
    StateMovesActive(s, w, state);
    if s.active.Some? {
      ActiveIsMapped(s);
    }
  }

  lemma ActiveIsMapped(s: World)
    requires Inv(s) && s.active.Some?
    ensures var w := s.active.value; w in s.attrs && w !in s.unmapped && Active in s.attrs[w].flags
  {
    MappedAreListed(s, s.active.value);
  }

  lemma OthersKeepFocus(s: World, e: Event)
    requires Possible(s, e) && Inv(s) && !e.UnmappedEvent? && !e.DeletedEvent?
    requires !(e.ChangeEvent? && e.change.State?)
    ensures Step(s, e).active == s.active
  {
    hide Inv, SetFlags, SetParent, AddRow, AddRows, Release;
    match e
    case ChangeEvent(w, ch) => ApplyQuiet(s, w, ch);
    case CreateModelEvent => AddRowsFrame(s.(model := Some(Model([], []))), s.windows);
    case InitialStateEvent(w) => RowKeepsFocus(s.(signals := s.signals + [WindowCreated(w)]), w);
    case ParentEvent(w, native) => LinksKeepFocus(s, w, ParentTarget(s, native));
    case ReleaseEvent => ReleaseKeepsFocus(s);
    case _ =>
  }

  lemma RowKeepsFocus(s: World, w: WinId)
    ensures AddRow(s, w).active == s.active
  {
  }

  lemma LinksKeepFocus(s: World, w: WinId, p: Option<WinId>)
    ensures SetParent(s, w, p).active == s.active
  {
  }

  lemma ReleaseKeepsFocus(s: World)
    ensures Release(s).active == s.active
  {
  }

  lemma NextActivates(events: seq<Event>, e: Event, w: WinId)
    ensures Activates(events + [e], |events|, w) <==>
      && e.ChangeEvent? && e.w == w && e.change.State? && Active in e.change.state
      && Active !in SaidFlags(events, w) && UnmappedEvent(w) !in events
  {
    assert (events + [e])[..|events|] == events && (events + [e])[|events|] == e;
  }

  lemma OthersActivateNone(events: seq<Event>, e: Event, w: WinId)
    requires !(e.ChangeEvent? && e.change.State?)
    ensures OnlyActivates(events + [e], |events|, w) && !Activates(events + [e], |events|, w)
  {
    hide Activates;
    NextActivates(events, e, w);
    forall x: WinId | x != w ensures !Activates(events + [e], |events|, x) {
      NextActivates(events, e, x);
    }
  }

  // Only the window of the event can be activated by it.
  lemma OnlyOneActivates(events: seq<Event>, e: Event, w: WinId)
    requires e.ChangeEvent?
    ensures OnlyActivates(events + [e], |events|, w) <==> e.w == w || !Activates(events + [e], |events|, e.w)
  {
    hide Activates;
    forall x: WinId | x != e.w ensures !Activates(events + [e], |events|, x) {
      NextActivates(events, e, x);
    }
  }

  ghost predicate FocusAsSaid(s: World, events: seq<Event>, w: WinId) {
    s.active == Some(w) <==> LastActivated(events, w)
  }

  lemma StateFocusAsSaid(events: seq<Event>, s: World, e: Event, w: WinId)
    requires Outcome(events) == Some(s) && Possible(s, e) && Inv(s) && e.ChangeEvent? && e.change.State?
    requires FocusAsSaid(s, events, w)
    ensures FocusAsSaid(Step(s, e), events + [e], w)
  {
    hide LastActivated, Activates, OnlyActivates, Inv, Outcome, AsSaid;
    LastActivatedNext(events, e, w);
    OnlyOneActivates(events, e, w);
    NextActivates(events, e, e.w);
    NextActivates(events, e, w);
    AttributesAreSaid(events, e.w);
    FlagsAsSaid(s.attrs[e.w], events, e.w);
    UnmappedIsSaid(events, e.w);
    StateMovesFocus(s, e.w, e.change.state);
    hide SaidFlags, Apply;
    if LastActivated(events, w) {
      ActiveIsMapped(s);
    }
  }

  lemma FlagsAsSaid(a: Attrs, events: seq<Event>, w: WinId)
    requires AsSaid(a, events, w)
    ensures a.flags == SaidFlags(events, w)
  {
  }

  lemma StepFocusAsSaid(events: seq<Event>, s: World, e: Event, w: WinId)
    requires Outcome(events) == Some(s) && Possible(s, e) && Inv(s) && FocusAsSaid(s, events, w)
    ensures FocusAsSaid(Step(s, e), events + [e], w)
  {
    hide LastActivated, Activates, OnlyActivates, Inv, Unmap, Delete, Outcome;
    if e.ChangeEvent? && e.change.State? {
      StateFocusAsSaid(events, s, e, w);
    } else {
      LastActivatedNext(events, e, w);
      OthersActivateNone(events, e, w);
      if e.UnmappedEvent? {
        UnmapActive(s, e.w);
      } else if e.DeletedEvent? {
        DeleteActive(s, e.w);
      } else {
        OthersKeepFocus(s, e);
      }
    }
  }

  // Over every run, orderly or not: activeWindow is w exactly if w was the last mapped window to be activated
  // and has not been deactivated, unmapped or deleted since.
  lemma {:induction false} ActiveIsLastActivated(events: seq<Event>, w: WinId)
    requires Outcome(events).Some?
    ensures Outcome(events).value.active == Some(w) <==> LastActivated(events, w)
    decreases |events|
  {
    if events != [] {
      var before, e := events[..|events| - 1], events[|events| - 1];
      assert before + [e] == events;
      ActiveIsLastActivated(before, w);
      RunKeeps(before);
      hide LastActivated, Inv, Step;
      StepFocusAsSaid(before, Outcome(before).value, e, w);
    } else {
      NothingActivated(w);
    }
  }

  lemma NothingActivated(w: WinId)
    ensures !LastActivated([], w)
  {
  }
}
