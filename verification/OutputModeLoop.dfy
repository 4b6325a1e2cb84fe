/**
 The loop of addMode as it is written. The iterator to the appended entry is a place in memory that no
 erase changes, and reading at or past the end of the list is undefined. What an erase moves is a
 parameter: the entries after the erased one always, unless that is the first of several entries and
 the list drops it by moving its beginning, as QList does since Qt 6. (Its documentation promises
 neither: any erase invalidates the iterator.) The loop meets its intention, as OutputModes describes it,
 exactly while no erase moves the appended entry.
 */
module OutputModeLoop {
  import opened Collections
  import opened OutputModes

  datatype Sweeping = Sweeping(modes: seq<Mode>, signals: seq<Signal>, existing: bool)

  // The body of the loop: the entry loses its flag, and its place if it is the same mode.
  function OneTurn(s: Sweeping, mode: Mode, it: nat): Sweeping
    requires it < |s.modes|
  {
    var m := s.modes[it];
    var signals := if m.current then s.signals + [ModeChanged(Cleared(m))] else s.signals;
    if KeyOf(m) == KeyOf(mode) then Sweeping(RemoveAt(s.modes, it), signals, true)
    else Sweeping(s.modes[it := Cleared(m)], signals, s.existing)
  }

  function NextPosition(s: Sweeping, mode: Mode, it: nat): nat
    requires it < |s.modes|
  {
    if KeyOf(s.modes[it]) == KeyOf(mode) then it else it + 1
  }

  // Positions count from the beginning of the list: where it moves, the place currentIt gets a lower one.
  function NextTarget(s: Sweeping, mode: Mode, n: nat, it: nat, moving: bool): nat
    requires it < |s.modes| && it < n
  {
    if moving && it == 0 && |s.modes| > 1 && KeyOf(s.modes[it]) == KeyOf(mode) then n - 1 else n
  }

  // The loop from position `it` on, with currentIt at position n, and where it ends. None: it reads past
  // the end. `moving` says whether erasing the first of several entries moves the beginning.
  function Loop(s: Sweeping, mode: Mode, n: nat, it: nat, moving: bool): (r: Option<(Sweeping, nat)>)
    requires it <= n
    decreases n - it + |s.modes|
  {
    if it == n then Some((s, it))
    else if it >= |s.modes| then None
    else Loop(OneTurn(s, mode, it), mode, NextTarget(s, mode, n, it, moving), NextPosition(s, mode, it), moving)
  }

  // Private::addMode as written
  function AddModeAsWritten(s: State, mode: Mode, moving: bool): Option<State> {
    var modes := s.modes + [mode];
    if !mode.current then Some(s.(modes := modes, signals := s.signals + [ModeAdded(mode)]))
    else
      var swept := Loop(Sweeping(modes, s.signals, false), mode, |s.modes|, 0, moving);
      if swept.None? || swept.value.1 >= |swept.value.0.modes| then None
      else
        var (t, currentIt) := swept.value;
        var signal := if t.existing then ModeChanged(mode) else ModeAdded(mode);
        Some(State(t.modes, Some(t.modes[currentIt]), t.signals + [signal]))
  }

  // Once the appended entry has moved to a lower position, the loop takes it for an old one: it is erased
  // as well, and the iterator is never reached within the list.
  lemma {:induction false} LoopRunsOut(s: Sweeping, mode: Mode, n: nat, it: nat, moving: bool)
    requires it < |s.modes| <= n && KeyOf(s.modes[|s.modes| - 1]) == KeyOf(mode)
    ensures Loop(s, mode, n, it, moving) == None
    decreases n - it + |s.modes|
  {
    var t, next, m := OneTurn(s, mode, it), NextPosition(s, mode, it), NextTarget(s, mode, n, it, moving);
    if next < |t.modes| {
      LoopRunsOut(t, mode, m, next, moving);
    }
  }

  // ---------- what an erase moves ----------

  // Some entry is another mode.
  predicate Foreign(ms: seq<Mode>, key: Key) {
    exists i :: 0 <= i < |ms| && KeyOf(ms[i]) != key
  }

  // Erasing the entries of this mode moves the appended one: there is such an entry and, if erasing the
  // first one only moves the beginning, one that another mode precedes.
  predicate Moves(ms: seq<Mode>, key: Key, moving: bool) {
    exists i :: 0 <= i < |ms| && KeyOf(ms[i]) == key && (moving ==> Foreign(ms[..i], key))
  }

  lemma ForeignNext(ms: seq<Mode>, m: Mode, key: Key)
    ensures Foreign(ms + [m], key) <==> Foreign(ms, key) || KeyOf(m) != key
  {
    var all := ms + [m];
    assert all[|ms|] == m && forall i | 0 <= i < |ms| :: all[i] == ms[i];
  }

  lemma MovesNext(ms: seq<Mode>, m: Mode, key: Key, moving: bool)
    ensures Moves(ms + [m], key, moving) <==>
      Moves(ms, key, moving) || (KeyOf(m) == key && (moving ==> Foreign(ms, key)))
  {
    var all := ms + [m];
    assert all[|ms|] == m && all[..|ms|] == ms;
    assert forall i | 0 <= i < |ms| :: all[i] == ms[i] && all[..i] == ms[..i];
  }

  lemma MovesMore(ms: seq<Mode>, key: Key, moving: bool, k: nat)
    requires k <= |ms| && Moves(ms[..k], key, moving)
    ensures Moves(ms, key, moving)
  {
    var i :| 0 <= i < k && KeyOf(ms[..k][i]) == key && (moving ==> Foreign(ms[..k][..i], key));
    assert ms[..k][..i] == ms[..i] && ms[..k][i] == ms[i];
  }

  lemma {:induction false} SweptAway(ms: seq<Mode>, mode: Mode)
    ensures Sweep(ms, mode) == [] <==> !Foreign(ms, KeyOf(mode))
  {
    if ms != [] {
      var last := |ms| - 1;
      SweptAway(ms[..last], mode);
      ForeignNext(ms[..last], ms[last], KeyOf(mode));
      assert ms[..last] + [ms[last]] == ms;
    }
  }

  // ---------- the turns one by one ----------

  // The first k entries have had their turn and the iterator is behind what is left of them.
  ghost predicate AtTurn(ms: seq<Mode>, mode: Mode, start: seq<Signal>, k: nat, s: Sweeping, it: nat) {
    && k <= |ms|
    && s == Sweeping(Turned(ms, mode, k), start + SweepSignals(ms[..k]), Known(ms[..k], KeyOf(mode)))
    && it == |Sweep(ms[..k], mode)|
  }

  lemma SweepTurn(ms: seq<Mode>, mode: Mode, k: nat)
    requires k < |ms|
    ensures Sweep(ms[..k + 1], mode)
         == if KeyOf(ms[k]) == KeyOf(mode) then Sweep(ms[..k], mode) else Sweep(ms[..k], mode) + [Cleared(ms[k])]
    ensures SweepSignals(ms[..k + 1])
         == if ms[k].current then SweepSignals(ms[..k]) + [ModeChanged(Cleared(ms[k]))] else SweepSignals(ms[..k])
    ensures Known(ms[..k + 1], KeyOf(mode)) <==> Known(ms[..k], KeyOf(mode)) || KeyOf(ms[k]) == KeyOf(mode)
  {
    hide KeyOf, Cleared;
    var upTo := ms[..k + 1];
    assert upTo[..k] == ms[..k] && upTo[k] == ms[k];
    assert forall i | 0 <= i < k :: ms[..k][i] == upTo[i];
  }

  // Taking or clearing the entry in the middle of a list
  lemma Surgery(front: seq<Mode>, m: Mode, back: seq<Mode>, mode: Mode, n: Mode)
    ensures var list := front + ([m] + back) + [mode];
            && |front| < |list| - 1 && list[|front|] == m
            && RemoveAt(list, |front|) == front + back + [mode]
            && list[|front| := n] == front + [n] + back + [mode]
  {
  }

  lemma ListTurn(ms: seq<Mode>, mode: Mode, k: nat)
    requires k < |ms|
    ensures var list, it := Turned(ms, mode, k), |Sweep(ms[..k], mode)|;
            && it < |list| - 1 && list[it] == ms[k]
            && Turned(ms, mode, k + 1) ==
                 (if KeyOf(ms[k]) == KeyOf(mode) then RemoveAt(list, it) else list[it := Cleared(ms[k])])
  {
    hide Sweep, KeyOf, Cleared, RemoveAt;
    SweepTurn(ms, mode, k);
    assert ms[k..] == [ms[k]] + ms[k + 1..];
    Surgery(Sweep(ms[..k], mode), ms[k], ms[k + 1..], mode, Cleared(ms[k]));
  }

  lemma NextTurn(ms: seq<Mode>, mode: Mode, start: seq<Signal>, k: nat, s: Sweeping, it: nat)
    requires AtTurn(ms, mode, start, k, s, it) && k < |ms|
    ensures it < |s.modes| && AtTurn(ms, mode, start, k + 1, OneTurn(s, mode, it), NextPosition(s, mode, it))
  {
    hide Sweep, SweepSignals, Known, Turned;
    SweepTurn(ms, mode, k);
    ListTurn(ms, mode, k);
    if ms[k].current {
      assert start + (SweepSignals(ms[..k]) + [ModeChanged(Cleared(ms[k]))])
          == start + SweepSignals(ms[..k]) + [ModeChanged(Cleared(ms[k]))];
    }
  }

  // The intended loop ends when the iterator reaches the appended entry, wherever that is by then.
  lemma LastTurn(ms: seq<Mode>, mode: Mode, start: seq<Signal>, k: nat, s: Sweeping, it: nat)
    requires AtTurn(ms, mode, start, k, s, it)
    ensures k <= |ms| && |s.modes| > 0 && it <= |s.modes| - 1
    ensures it == |s.modes| - 1 <==> k == |ms|
    ensures k == |ms| ==>
      s == Sweeping(Sweep(ms, mode) + [mode], start + SweepSignals(ms), Known(ms, KeyOf(mode)))
  {
    hide Sweep, SweepSignals, Known;
    if k == |ms| {
      assert ms[..k] == ms;
    }
  }

  lemma FirstTurn(ms: seq<Mode>, mode: Mode, start: seq<Signal>)
    ensures AtTurn(ms, mode, start, 0, Sweeping(ms + [mode], start, false), 0)
  {
  }

  lemma AppendedIsLast(ms: seq<Mode>, mode: Mode, start: seq<Signal>, k: nat, s: Sweeping, it: nat)
    requires AtTurn(ms, mode, start, k, s, it)
    ensures s.modes != [] && s.modes[|s.modes| - 1] == mode && |s.modes| == it + |ms| - k + 1
  {
    hide Sweep, SweepSignals, Known;
  }

  // One turn on: what is known of the entries that had theirs.
  lemma MovesAtTurn(ms: seq<Mode>, key: Key, moving: bool, k: nat)
    requires k < |ms|
    ensures Moves(ms[..k + 1], key, moving) <==>
      Moves(ms[..k], key, moving) || (KeyOf(ms[k]) == key && (moving ==> Foreign(ms[..k], key)))
  {
    assert ms[..k + 1] == ms[..k] + [ms[k]];
    MovesNext(ms[..k], ms[k], key, moving);
  }

  // From turn k on, with the appended entry still in its place, the loop as written completes exactly if
  // no erase moves that entry.
  lemma {:induction false} LoopFrom(
    ms: seq<Mode>, mode: Mode, start: seq<Signal>, k: nat, s: Sweeping, it: nat, moving: bool)
    requires AtTurn(ms, mode, start, k, s, it) && !Moves(ms[..k], KeyOf(mode), moving) && it < |s.modes|
    ensures Loop(s, mode, |s.modes| - 1, it, moving) ==
      if Moves(ms, KeyOf(mode), moving) then None
      else Some((Sweeping(Sweep(ms, mode) + [mode], start + SweepSignals(ms), Known(ms, KeyOf(mode))),
                 |Sweep(ms, mode)|))
    decreases |ms| - k
  {
    hide AtTurn, OneTurn, NextPosition, NextTarget, Moves, Foreign, Sweep, SweepSignals, Known, KeyOf;
    LastTurn(ms, mode, start, k, s, it);
    if k == |ms| {
      assert ms[..k] == ms;
    } else {
      NextTurn(ms, mode, start, k, s, it);
      MovesAtTurn(ms, KeyOf(mode), moving, k);
      var t, next := OneTurn(s, mode, it), NextPosition(s, mode, it);
      LastTurn(ms, mode, start, k + 1, t, next);
      TargetFollows(ms, mode, start, k, s, it, moving);
      if Moves(ms[..k + 1], KeyOf(mode), moving) {
        MovesMore(ms, KeyOf(mode), moving, k + 1);
        AppendedIsLast(ms, mode, start, k + 1, t, next);
        LoopRunsOut(t, mode, |s.modes| - 1, next, moving);
      } else {
        LoopFrom(ms, mode, start, k + 1, t, next, moving);
      }
    }
  }

  // The iterator stays with the appended entry in one turn exactly if the turn does not move the entry.
  lemma TargetFollows(
    ms: seq<Mode>, mode: Mode, start: seq<Signal>, k: nat, s: Sweeping, it: nat, moving: bool)
    requires AtTurn(ms, mode, start, k, s, it) && k < |ms| && it < |s.modes| - 1
    ensures
      var left, target := |OneTurn(s, mode, it).modes|, NextTarget(s, mode, |s.modes| - 1, it, moving);
      if KeyOf(ms[k]) == KeyOf(mode) && (moving ==> Foreign(ms[..k], KeyOf(mode))) then
        left == |s.modes| - 1 == target
      else target == left - 1
  {
    ListTurn(ms, mode, k);
    SweptAway(ms[..k], mode);
  }

  // The code reads past the end exactly if the mode becomes current and erasing the older entries of it
  // moves the appended one; otherwise it does what it is meant to do.
  lemma {:induction false} AddModeExact(s: State, mode: Mode, moving: bool)
    ensures AddModeAsWritten(s, mode, moving) ==
      if mode.current && Moves(s.modes, KeyOf(mode), moving) then None else Some(AddMode(s, mode))
  {
    if mode.current {
      var start := Sweeping(s.modes + [mode], s.signals, false);
      FirstTurn(s.modes, mode, s.signals);
      LoopFrom(s.modes, mode, s.signals, 0, start, 0, moving);
    }
  }

  // The condition in terms of the list: with an erase that always moves what follows, the mode must not be
  // known; otherwise its entries must come first.
  lemma MovesExactly(ms: seq<Mode>, key: Key)
    ensures Moves(ms, key, false) <==> Known(ms, key)
    ensures Moves(ms, key, true) <==> exists i, k | 0 <= i < k < |ms| :: KeyOf(ms[i]) != key && KeyOf(ms[k]) == key
  {
    if i, k :| 0 <= i < k < |ms| && KeyOf(ms[i]) != key && KeyOf(ms[k]) == key {
      assert ms[..k][i] == ms[i];
    }
    if Moves(ms, key, true) {
      var k :| 0 <= k < |ms| && KeyOf(ms[k]) == key && Foreign(ms[..k], key);
      var i :| 0 <= i < k && KeyOf(ms[..k][i]) != key;
      assert ms[..k][i] == ms[i];
    }
  }

  // ---------- runs ----------

  function RunAsWritten(events: seq<Mode>, moving: bool): Option<State> {
    if events == [] then Some(State([], None, []))
    else
      var before := RunAsWritten(events[..|events| - 1], moving);
      if before.None? then None else AddModeAsWritten(before.value, events[|events| - 1], moving)
  }

  // What is left of the modes of the first k events moves the appended entry when this one becomes current.
  ghost predicate MovedBy(events: seq<Mode>, k: nat, key: Key, moving: bool)
    requires k <= |events|
  {
    exists i: nat | i < k ::
      && Survives(events, i) && KeyOf(events[i]) == key
      && (moving ==> exists h: nat | h < i :: Survives(events, h) && KeyOf(events[h]) != key)
  }

  // No event makes a mode current whose older entries, when erased, move the appended one.
  ghost predicate Harmless(events: seq<Mode>, moving: bool) {
    forall j: nat | j < |events| && events[j].current :: !MovedBy(events[..j], j, KeyOf(events[j]), moving)
  }

  lemma {:induction false} ForeignIsMet(events: seq<Mode>, k: nat, key: Key)
    requires k <= |events|
    ensures Foreign(Expected(events, k), key) <==>
      exists h: nat | h < k :: Survives(events, h) && KeyOf(events[h]) != key
  {
    if k > 0 {
      ForeignIsMet(events, k - 1, key);
      ForeignNext(Expected(events, k - 1), Shown(events, k - 1), key);
    }
  }

  lemma {:induction false} MovesIsMovedBy(events: seq<Mode>, k: nat, key: Key, moving: bool)
    requires k <= |events|
    ensures Moves(Expected(events, k), key, moving) <==> MovedBy(events, k, key, moving)
  {
    if k > 0 {
      hide Foreign, Moves;
      MovesIsMovedBy(events, k - 1, key, moving);
      ForeignIsMet(events, k - 1, key);
      MovesNext(Expected(events, k - 1), Shown(events, k - 1), key, moving);
      MovedByNext(events, k, key, moving);
    } else {
      assert !Moves([], key, moving);
    }
  }

  lemma MovedByNext(events: seq<Mode>, k: nat, key: Key, moving: bool)
    requires 0 < k <= |events|
    ensures MovedBy(events, k, key, moving) <==>
      || MovedBy(events, k - 1, key, moving)
      || (&& Survives(events, k - 1) && KeyOf(events[k - 1]) == key
          && (moving ==> exists h: nat | h < k - 1 :: Survives(events, h) && KeyOf(events[h]) != key))
  {
    hide Survives, KeyOf;
  }

  lemma HarmlessNext(before: seq<Mode>, e: Mode, moving: bool)
    ensures Harmless(before + [e], moving) <==>
      Harmless(before, moving) && !(e.current && MovedBy(before, |before|, KeyOf(e), moving))
  {
    hide MovedBy, KeyOf;
    var all, last := before + [e], |before|;
    assert all[last] == e && all[..last] == before;
    assert forall j: nat | j < last :: all[j] == before[j] && all[..j] == before[..j];
  }

  // A run of the code is defined exactly if no event moves the appended entry; then it is the intended run,
  // and all that OutputModes proves holds of the code.
  lemma {:induction false} WrittenRunsExact(events: seq<Mode>, moving: bool)
    ensures RunAsWritten(events, moving) == if Harmless(events, moving) then Some(Run(events)) else None
  {
    hide Harmless, AddMode, AddModeAsWritten, KeyOf, Expected, MovedBy;
    if events == [] {
      NothingHarms(moving);
    } else {
      var last := |events| - 1;
      var before, e := events[..last], events[last];
      assert before + [e] == events;
      WrittenRunsExact(before, moving);
      HarmlessNext(before, e, moving);
      ListIsSurvivors(before);
      MovesIsMovedBy(before, last, KeyOf(e), moving);
      AddModeExact(Run(before), e, moving);
    }
  }

  lemma NothingHarms(moving: bool)
    ensures Harmless([], moving) && NeverAgain([])
  {
  }

  // ---------- if every erase moves what follows ----------

  // No event makes a mode current that an earlier event announced.
  ghost predicate NeverAgain(events: seq<Mode>) {
    forall i, j | 0 <= i < j < |events| && events[j].current :: KeyOf(events[i]) != KeyOf(events[j])
  }

  // While that is so, every mode announced stays in the list.
  lemma {:induction false} AllKnown(events: seq<Mode>, key: Key)
    requires NeverAgain(events)
    ensures Known(Run(events).modes, key) <==> Known(events, key)
  {
    if events != [] {
      var last := |events| - 1;
      var before, e := events[..last], events[last];
      AllKnown(before, key);
      KnownNext(before, e, key);
      assert before + [e] == events;
      var ms := Run(before).modes;
      if e.current {
        SweepKnows(ms, e, key);
        KnownNext(Sweep(ms, e), e, key);
      } else {
        KnownNext(ms, e, key);
      }
    }
  }

  lemma KnownNext(ms: seq<Mode>, m: Mode, key: Key)
    ensures Known(ms + [m], key) <==> Known(ms, key) || KeyOf(m) == key
  {
    var all := ms + [m];
    assert all[|ms|] == m && forall i | 0 <= i < |ms| :: all[i] == ms[i];
  }

  lemma {:induction false} SweepKnows(ms: seq<Mode>, mode: Mode, key: Key)
    ensures Known(Sweep(ms, mode), key) <==> Known(ms, key) && key != KeyOf(mode)
  {
    if ms != [] {
      var last := |ms| - 1;
      SweepKnows(ms[..last], mode, key);
      assert ms[..last] + [ms[last]] == ms;
      KnownNext(ms[..last], ms[last], key);
      if KeyOf(ms[last]) != KeyOf(mode) {
        KnownNext(Sweep(ms[..last], mode), Cleared(ms[last]), key);
      }
    }
  }

  lemma NeverAgainNext(before: seq<Mode>, e: Mode)
    ensures NeverAgain(before + [e]) <==> NeverAgain(before) && !(e.current && Known(before, KeyOf(e)))
  {
    var all, last := before + [e], |before|;
    assert all[last] == e && forall i | 0 <= i < last :: all[i] == before[i];
    if e.current && Known(before, KeyOf(e)) {
      var i :| 0 <= i < last && KeyOf(before[i]) == KeyOf(e);
      assert all[last].current && KeyOf(all[i]) == KeyOf(all[last]);
    }
  }

  // Then the run is defined exactly if no event makes a mode current that was announced before.
  lemma {:induction false} HarmlessIsNeverAgain(events: seq<Mode>)
    ensures Harmless(events, false) <==> NeverAgain(events)
  {
    hide NeverAgain, Harmless, Known, Moves, MovedBy, Expected, Run, KeyOf;
    if events == [] {
      NothingHarms(false);
    } else {
      var last := |events| - 1;
      var before, e := events[..last], events[last];
      assert before + [e] == events;
      HarmlessIsNeverAgain(before);
      HarmlessNext(before, e, false);
      NeverAgainNext(before, e);
      if NeverAgain(before) {
        AllKnown(before, KeyOf(e));
        ListIsSurvivors(before);
        MovesIsMovedBy(before, last, KeyOf(e), false);
        MovesExactly(Run(before).modes, KeyOf(e));
      }
    }
  }

  // ---------- the smallest harmful case ----------

  lemma NextWritten(events: seq<Mode>, mode: Mode, moving: bool)
    ensures RunAsWritten(events + [mode], moving) ==
      var before := RunAsWritten(events, moving);
      if before.None? then None else AddModeAsWritten(before.value, mode, moving)
  {
    assert (events + [mode])[..|events|] == events;
  }

  lemma TwoModes(a: Mode, b: Mode, moving: bool)
    requires !a.current && !b.current
    ensures var two := [] + [a] + [b];
            && Run(two) == State([a, b], None, [ModeAdded(a), ModeAdded(b)])
            && RunAsWritten(two, moving) == Some(Run(two))
  {
    hide *;
    NoModes(moving);
    NextMode([], a);
    NextWritten([], a, moving);
    OtherMode(Run([]), a, moving);
    NextMode([] + [a], b);
    NextWritten([] + [a], b, moving);
    OtherMode(Run([] + [a]), b, moving);
    assert [] + [a] + [b] == [a, b] && [] + [ModeAdded(a)] + [ModeAdded(b)] == [ModeAdded(a), ModeAdded(b)];
  }

  lemma NoModes(moving: bool)
    ensures Run([]) == State([], None, []) && RunAsWritten([], moving) == Some(Run([]))
  {
  }

  lemma OtherMode(s: State, m: Mode, moving: bool)
    requires !m.current
    ensures AddMode(s, m) == State(s.modes + [m], s.currentMode, s.signals + [ModeAdded(m)])
    ensures AddModeAsWritten(s, m, moving) == Some(AddMode(s, m))
  {
  }

  lemma NextMode(events: seq<Mode>, mode: Mode)
    ensures Run(events + [mode]) == AddMode(Run(events), mode)
  {
    assert (events + [mode])[..|events|] == events;
  }

  lemma SweepOfTwo(a: Mode, b: Mode, c: Mode)
    requires !a.current && KeyOf(a) != KeyOf(c) && KeyOf(b) == KeyOf(c)
    ensures Sweep([a, b], c) == [a]
  {
    hide KeyOf;
    assert [a, b][..1] == [a] && [a][..0] == [];
    assert Sweep([a], c) == Sweep([], c) + [Cleared(a)];
  }

  lemma MovesOfTwo(a: Mode, b: Mode, c: Mode, moving: bool)
    requires KeyOf(a) != KeyOf(c) && KeyOf(b) == KeyOf(c)
    ensures Moves([a, b], KeyOf(c), moving)
  {
    assert [a, b][..1] == [a] && KeyOf([a][0]) != KeyOf(c);
    assert KeyOf([a, b][1]) == KeyOf(c) && Foreign([a, b][..1], KeyOf(c));
  }

  // Of two modes the second one becomes current: whatever an erase moves, the code reads past the end.
  lemma SecondModeCannotBecomeCurrent(a: Mode, b: Mode, moving: bool)
    requires !a.current && !b.current && KeyOf(a) != KeyOf(b)
    ensures var two, c := [] + [a] + [b], b.(current := true);
            && RunAsWritten(two, moving) == Some(State([a, b], None, [ModeAdded(a), ModeAdded(b)]))
            && RunAsWritten(two + [c], moving) == None
            && Run(two + [c]).modes == [a, c]
  {
    var two, c := [] + [a] + [b], b.(current := true);
    assert KeyOf(c) == KeyOf(b);
    hide KeyOf, Moves, Known, Sweep, Run, RunAsWritten, AddModeAsWritten;
    TwoModes(a, b, moving);
    NextMode(two, c);
    NextWritten(two, c, moving);
    AddModeExact(Run(two), c, moving);
    MovesOfTwo(a, b, c, moving);
    SweepOfTwo(a, b, c);
  }

  // The first one can, if erasing it only moves the beginning of the list.
  lemma FirstModeDependsOnTheList(a: Mode, b: Mode, moving: bool)
    requires !a.current && !b.current && KeyOf(a) != KeyOf(b)
    ensures RunAsWritten([] + [a] + [b] + [a.(current := true)], moving).Some? <==> moving
  {
    var two, c := [] + [a] + [b], a.(current := true);
    assert KeyOf(c) == KeyOf(a);
    TwoModes(a, b, moving);
    hide Moves, Run, RunAsWritten, AddModeAsWritten;
    NextWritten(two, c, moving);
    AddModeExact(Run(two), c, moving);
    MovesExactly([a, b], KeyOf(c));
    assert KeyOf([a, b][0]) == KeyOf(c);
  }
}
