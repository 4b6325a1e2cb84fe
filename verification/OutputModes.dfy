/**
 The mode list of an Output as a function of the mode events it received. The loop of addMode keeps an
 iterator to the entry it has just appended; it is taken to stay on that entry when earlier entries are
 erased, which is what the loop is written for.
 */
module OutputModes {
  import opened Collections

  datatype Size = Size(width: int, height: int)

  // An entry of the list; also what one mode event announces.
  datatype Mode = Mode(size: Size, refreshRate: int, current: bool, preferred: bool)

  // The arguments of one wl_output.mode event: bit 0 of the flags says current, bit 1 preferred.
  function ModeOf(flags: nat, width: int, height: int, refresh: int): Mode {
    Mode(Size(width, height), refresh, flags % 2 == 1, flags / 2 % 2 == 1)
  }

  datatype Signal = ModeAdded(mode: Mode) | ModeChanged(mode: Mode)

  datatype State = State(modes: seq<Mode>, currentMode: Option<Mode>, signals: seq<Signal>)

  type Key = (Size, int)

  function KeyOf(m: Mode): Key {
    (m.size, m.refreshRate)
  }

  function Cleared(m: Mode): Mode {
    m.(current := false)
  }

  predicate Known(ms: seq<Mode>, key: Key) {
    exists i :: 0 <= i < |ms| && KeyOf(ms[i]) == key
  }

  // What the loop leaves of the entries before the new one, and what it says meanwhile.
  function Sweep(ms: seq<Mode>, mode: Mode): seq<Mode> {
    if ms == [] then []
    else
      var last := |ms| - 1;
      if KeyOf(ms[last]) == KeyOf(mode) then Sweep(ms[..last], mode)
      else Sweep(ms[..last], mode) + [Cleared(ms[last])]
  }

  // The whole list after the first k turns of the loop
  function Turned(ms: seq<Mode>, mode: Mode, k: nat): seq<Mode>
    requires k <= |ms|
  {
    Sweep(ms[..k], mode) + ms[k..] + [mode]
  }

  function SweepSignals(ms: seq<Mode>): seq<Signal> {
    if ms == [] then []
    else
      var last := |ms| - 1;
      if ms[last].current then SweepSignals(ms[..last]) + [ModeChanged(Cleared(ms[last]))]
      else SweepSignals(ms[..last])
  }

  // Private::addMode
  function AddMode(s: State, mode: Mode): State {
    if mode.current then
      var signal := if Known(s.modes, KeyOf(mode)) then ModeChanged(mode) else ModeAdded(mode);
      State(Sweep(s.modes, mode) + [mode], Some(mode), s.signals + SweepSignals(s.modes) + [signal])
    else
      s.(modes := s.modes + [mode], signals := s.signals + [ModeAdded(mode)])
  }

  function Run(events: seq<Mode>): State {
    if events == [] then State([], None, [])
    else AddMode(Run(events[..|events| - 1]), events[|events| - 1])
  }

  // ---------- the list in closed form ----------

  // No later event makes the same mode current.
  ghost predicate Survives(events: seq<Mode>, i: nat)
    requires i < |events|
  {
    forall j | i < j < |events| && events[j].current :: KeyOf(events[j]) != KeyOf(events[i])
  }

  ghost predicate LastCurrent(events: seq<Mode>, i: nat) {
    i < |events| && events[i].current && forall j | i < j < |events| :: !events[j].current
  }

  ghost function Shown(events: seq<Mode>, i: nat): Mode
    requires i < |events|
  {
    events[i].(current := LastCurrent(events, i))
  }

  // The modes of the first k events that survive all of them.
  ghost function Expected(events: seq<Mode>, k: nat): seq<Mode>
    requires k <= |events|
  {
    if k == 0 then []
    else if Survives(events, k - 1) then Expected(events, k - 1) + [Shown(events, k - 1)]
    else Expected(events, k - 1)
  }

  lemma SurvivesNext(events: seq<Mode>, e: Mode, i: nat)
    requires i < |events|
    ensures Survives(events + [e], i) <==>
      Survives(events, i) && (e.current ==> KeyOf(e) != KeyOf(events[i]))
    ensures Shown(events + [e], i) == if e.current then Cleared(Shown(events, i)) else Shown(events, i)
  {
    var all := events + [e];
    assert all[|events|] == e && forall j | 0 <= j < |events| :: all[j] == events[j];
  }

  lemma {:induction false} ExpectedNext(events: seq<Mode>, e: Mode, k: nat)
    requires k <= |events|
    ensures Expected(events + [e], k)
         == if e.current then Sweep(Expected(events, k), e) else Expected(events, k)
  {
    if k > 0 {
      ExpectedNext(events, e, k - 1);
      SurvivesNext(events, e, k - 1);
      var before, now := Expected(events, k - 1), Expected(events, k);
      if Survives(events, k - 1) {
        assert now[..|now| - 1] == before;
      }
    }
  }

  // After any run the list holds, in order of arrival, the modes that no later event made current again;
  // the one of the last current event carries the flag.
  lemma {:induction false} ListIsSurvivors(events: seq<Mode>)
    ensures Run(events).modes == Expected(events, |events|)
  {
    if events != [] {
      var last := |events| - 1;
      var before, e := events[..last], events[last];
      assert before + [e] == events;
      ListIsSurvivors(before);
      ExpectedNext(before, e, last);
      assert Survives(events, last) && Shown(events, last) == e;
    }
  }

  // ---------- the current mode ----------

  ghost predicate OnlyCurrent(s: State) {
    && (forall i | 0 <= i < |s.modes| && s.modes[i].current :: s.currentMode == Some(s.modes[i]))
    && (forall i, j | 0 <= i < j < |s.modes| :: !(s.modes[i].current && s.modes[j].current))
    && (s.currentMode.Some? ==> s.currentMode.value in s.modes && s.currentMode.value.current)
  }

  lemma {:induction false} SweepClears(ms: seq<Mode>, mode: Mode)
    ensures forall i | 0 <= i < |Sweep(ms, mode)| ::
      var m := Sweep(ms, mode)[i]; !m.current && KeyOf(m) != KeyOf(mode) && Known(ms, KeyOf(m))
  {
    if ms != [] {
      var last := |ms| - 1;
      SweepClears(ms[..last], mode);
    }
  }

  // At most one entry is current; there is one exactly if currentMode is set, and the two are equal.
  lemma {:induction false} CurrentIsUnique(events: seq<Mode>)
    ensures OnlyCurrent(Run(events))
  {
    if events != [] {
      var before, e := events[..|events| - 1], events[|events| - 1];
      CurrentIsUnique(before);
      SweepClears(Run(before).modes, e);
    }
  }

  // The readers of currentMode show the last current event.
  lemma {:induction false} CurrentModeIsLast(events: seq<Mode>, i: nat)
    ensures LastCurrent(events, i) ==> Run(events).currentMode == Some(events[i])
    ensures Run(events).currentMode.None? <==> forall j | 0 <= j < |events| :: !events[j].current
  {
    if events != [] {
      var last := |events| - 1;
      CurrentModeIsLast(events[..last], i);
      if events[last].current && LastCurrent(events, i) {
        assert i == last;
      }
    }
  }

  // ---------- distinct modes ----------

  ghost predicate KeysDistinct(ms: seq<Mode>) {
    forall i, j | 0 <= i < j < |ms| :: KeyOf(ms[i]) != KeyOf(ms[j])
  }

  predicate Fresh(ms: seq<Mode>, mode: Mode) {
    mode.current || !Known(ms, KeyOf(mode))
  }

  lemma {:induction false} SweepKeepsKeys(ms: seq<Mode>, mode: Mode)
    requires KeysDistinct(ms)
    ensures KeysDistinct(Sweep(ms, mode))
    ensures |Sweep(ms, mode)| == |ms| - if Known(ms, KeyOf(mode)) then 1 else 0
  {
    if ms != [] {
      var last := |ms| - 1;
      var front := ms[..last];
      SweepKeepsKeys(front, mode);
      SweepClears(front, mode);
      assert forall i | 0 <= i < last :: front[i] == ms[i];
      assert !Known(front, KeyOf(ms[last]));
      assert Known(ms, KeyOf(mode)) <==> Known(front, KeyOf(mode)) || KeyOf(ms[last]) == KeyOf(mode);
    }
  }

  // An event leaves all (size, refresh rate) pairs distinct exactly if it is current or brings a new one.
  lemma DistinctExactly(s: State, mode: Mode)
    requires KeysDistinct(s.modes)
    ensures KeysDistinct(AddMode(s, mode).modes) <==> Fresh(s.modes, mode)
  {
    var after := AddMode(s, mode).modes;
    if mode.current {
      SweepKeepsKeys(s.modes, mode);
      SweepClears(s.modes, mode);
    } else if Known(s.modes, KeyOf(mode)) {
      var i :| 0 <= i < |s.modes| && KeyOf(s.modes[i]) == KeyOf(mode);
      assert KeyOf(after[i]) == KeyOf(after[|s.modes|]);
    }
  }

  ghost predicate AlwaysFresh(events: seq<Mode>) {
    events == [] ||
    (AlwaysFresh(events[..|events| - 1]) && Fresh(Run(events[..|events| - 1]).modes, events[|events| - 1]))
  }

  function AddedCount(signals: seq<Signal>): nat {
    if signals == [] then 0
    else AddedCount(signals[..|signals| - 1]) + if signals[|signals| - 1].ModeAdded? then 1 else 0
  }

  lemma AddedNext(signals: seq<Signal>, signal: Signal)
    ensures AddedCount(signals + [signal]) == AddedCount(signals) + if signal.ModeAdded? then 1 else 0
  {
    assert (signals + [signal])[..|signals|] == signals;
  }

  lemma {:induction false} SweepAddsNone(signals: seq<Signal>, ms: seq<Mode>)
    ensures AddedCount(signals + SweepSignals(ms)) == AddedCount(signals)
  {
    if ms == [] {
      assert signals + SweepSignals(ms) == signals;
    } else {
      var last := |ms| - 1;
      SweepAddsNone(signals, ms[..last]);
      if ms[last].current {
        var signal := ModeChanged(Cleared(ms[last]));
        AddedNext(signals + SweepSignals(ms[..last]), signal);
        assert signals + SweepSignals(ms) == signals + SweepSignals(ms[..last]) + [signal];
      }
    }
  }

  // While every non-current event brings a new mode, the modes are distinct and there are as many as
  // modeAdded signals.
  lemma {:induction false} FreshRuns(events: seq<Mode>)
    requires AlwaysFresh(events)
    ensures var s := Run(events); KeysDistinct(s.modes) && |s.modes| == AddedCount(s.signals)
  {
    if events != [] {
      var before, e := events[..|events| - 1], events[|events| - 1];
      FreshRuns(before);
      var s, t := Run(before), Run(events);
      DistinctExactly(s, e);
      SweepKeepsKeys(s.modes, e);
      SweepAddsNone(s.signals, s.modes);
      AddedNext(if e.current then s.signals + SweepSignals(s.modes) else s.signals, t.signals[|t.signals| - 1]);
    }
  }

  // ---------- listeners ----------

  // What a listener that keeps the last mode it was told of for each (size, refresh rate) knows.
  function Listen(view: map<Key, Mode>, signals: seq<Signal>): map<Key, Mode> {
    if signals == [] then view
    else
      var last := signals[|signals| - 1];
      Listen(view, signals[..|signals| - 1])[KeyOf(last.mode) := last.mode]
  }

  function ByKey(ms: seq<Mode>): map<Key, Mode> {
    if ms == [] then map[]
    else
      var last := ms[|ms| - 1];
      ByKey(ms[..|ms| - 1])[KeyOf(last) := last]
  }

  function ClearedAll(ms: seq<Mode>): seq<Mode> {
    if ms == [] then [] else ClearedAll(ms[..|ms| - 1]) + [Cleared(ms[|ms| - 1])]
  }

  lemma ByKeyNext(ms: seq<Mode>, m: Mode)
    ensures ByKey(ms + [m]) == ByKey(ms)[KeyOf(m) := m]
  {
    assert (ms + [m])[..|ms|] == ms;
  }

  lemma ListenNext(view: map<Key, Mode>, signals: seq<Signal>, signal: Signal)
    ensures Listen(view, signals + [signal]) == Listen(view, signals)[KeyOf(signal.mode) := signal.mode]
  {
    assert (signals + [signal])[..|signals|] == signals;
  }

  lemma {:induction false} ListenAppend(view: map<Key, Mode>, a: seq<Signal>, b: seq<Signal>)
    ensures Listen(view, a + b) == Listen(Listen(view, a), b)
  {
    if b == [] {
      assert a + b == a;
    } else {
      var last := |b| - 1;
      ListenAppend(view, a, b[..last]);
      ListenNext(view, a + b[..last], b[last]);
      assert a + b == a + b[..last] + [b[last]];
    }
  }

  // Signals about other modes do not interfere with what is known of this one.
  lemma {:induction false} SweepLeavesOthers(view: map<Key, Mode>, ms: seq<Mode>, m: Mode)
    requires !Known(ms, KeyOf(m))
    ensures Listen(view[KeyOf(m) := m], SweepSignals(ms)) == Listen(view, SweepSignals(ms))[KeyOf(m) := m]
  {
    if ms != [] {
      var last := |ms| - 1;
      assert KeyOf(ms[last]) != KeyOf(m);
      assert forall i | 0 <= i < last :: ms[..last][i] == ms[i];
      SweepLeavesOthers(view, ms[..last], m);
      if ms[last].current {
        ListenNext(view, SweepSignals(ms[..last]), ModeChanged(Cleared(ms[last])));
        ListenNext(view[KeyOf(m) := m], SweepSignals(ms[..last]), ModeChanged(Cleared(ms[last])));
      }
    }
  }

  lemma FrontIsDistinct(ms: seq<Mode>)
    requires ms != [] && KeysDistinct(ms)
    ensures KeysDistinct(ms[..|ms| - 1])
  {
  }

  lemma {:induction false} SweepIsHeard(ms: seq<Mode>)
    requires KeysDistinct(ms)
    ensures Listen(ByKey(ms), SweepSignals(ms)) == ByKey(ClearedAll(ms))
  {
    if ms != [] {
      var last := |ms| - 1;
      var front, m := ms[..last], ms[last];
      assert !Known(front, KeyOf(m));
      hide Listen, Known, KeysDistinct;
      assert KeysDistinct(front) by {
        FrontIsDistinct(ms);
      }
      SweepIsHeard(front);
      SweepLeavesOthers(ByKey(front), front, m);
      ByKeyNext(ClearedAll(front), Cleared(m));
      if m.current {
        ListenNext(ByKey(ms), SweepSignals(front), ModeChanged(Cleared(m)));
      }
    }
  }

  lemma SetOver<K, V>(a: map<K, V>, b: map<K, V>, k: K, v: V, j: K, w: V)
    requires a[k := v] == b[k := v]
    ensures j == k ==> a[k := v] == b[j := w][k := v]
    ensures j != k ==> a[j := w][k := v] == b[j := w][k := v]
  {
    if j != k {
      assert a[j := w][k := v] == a[k := v][j := w];
      assert b[j := w][k := v] == b[k := v][j := w];
    }
  }

  lemma {:induction false} SweptByKey(ms: seq<Mode>, mode: Mode)
    ensures ByKey(Sweep(ms, mode))[KeyOf(mode) := mode] == ByKey(ClearedAll(ms))[KeyOf(mode) := mode]
  {
    if ms != [] {
      var last := |ms| - 1;
      var swept, cleared, m := Sweep(ms[..last], mode), ClearedAll(ms[..last]), Cleared(ms[last]);
      SweptByKey(ms[..last], mode);
      ByKeyNext(cleared, m);
      ByKeyNext(swept, m);
      SetOver(ByKey(swept), ByKey(cleared), KeyOf(mode), mode, KeyOf(m), m);
    }
  }

  // A listener to modeAdded and modeChanged then knows exactly the list, flags included.
  lemma {:induction false} ListenersKnowTheList(events: seq<Mode>)
    requires AlwaysFresh(events)
    ensures Listen(map[], Run(events).signals) == ByKey(Run(events).modes)
  {
    if events != [] {
      var before, e := events[..|events| - 1], events[|events| - 1];
      ListenersKnowTheList(before);
      FreshRuns(before);
      var s, t := Run(before), Run(events);
      var told := t.signals[..|t.signals| - 1];
      ListenNext(map[], told, t.signals[|t.signals| - 1]);
      if e.current {
        assert told == s.signals + SweepSignals(s.modes);
        ListenAppend(map[], s.signals, SweepSignals(s.modes));
        SweepIsHeard(s.modes);
        SweptByKey(s.modes, e);
        ByKeyNext(Sweep(s.modes, e), e);
      } else {
        assert told == s.signals;
        ByKeyNext(s.modes, e);
      }
    }
  }

  // ---------- what one event tells ----------

  // The flags of the event: bit 0 says current, bit 1 preferred; others do not matter.
  lemma FlagsAreBits(rest: nat, preferred: bool, current: bool, width: int, height: int, refresh: int)
    ensures ModeOf(4 * rest + (if preferred then 2 else 0) + (if current then 1 else 0), width, height, refresh)
         == Mode(Size(width, height), refresh, current, preferred)
  {
  }

  lemma {:induction false} OnlyOneIsCleared(ms: seq<Mode>, k: nat)
    requires k < |ms| && ms[k].current && forall i | 0 <= i < |ms| && i != k :: !ms[i].current
    ensures SweepSignals(ms) == [ModeChanged(Cleared(ms[k]))]
  {
    var last := |ms| - 1;
    if k == last {
      NoneIsCleared(ms[..last]);
    } else {
      OnlyOneIsCleared(ms[..last], k);
    }
  }

  lemma {:induction false} NoneIsCleared(ms: seq<Mode>)
    requires forall i | 0 <= i < |ms| :: !ms[i].current
    ensures SweepSignals(ms) == []
  {
    if ms != [] {
      NoneIsCleared(ms[..|ms| - 1]);
    }
  }

  // Over every run: an event that is not current only announces its mode. A current one tells first that the
  // mode that was current, if there was one, is so no longer, and then of its own mode: as changed if the list
  // has an entry of it, as added otherwise.
  lemma {:induction false} EventTellsExactly(events: seq<Mode>, e: Mode)
    ensures var s, t := Run(events), Run(events + [e]);
            var cleared := if e.current && s.currentMode.Some? then
                             [ModeChanged(s.currentMode.value.(current := false))] else [];
            var known := exists i :: 0 <= i < |s.modes| && s.modes[i].size == e.size
                                     && s.modes[i].refreshRate == e.refreshRate;
            t.signals == s.signals + cleared + [if e.current && known then ModeChanged(e) else ModeAdded(e)]
  {
    var s := Run(events);
    assert (events + [e])[..|events|] == events;
    CurrentIsUnique(events);
    if s.currentMode.Some? {
      var k :| 0 <= k < |s.modes| && s.modes[k] == s.currentMode.value;
      OnlyOneIsCleared(s.modes, k);
    } else {
      NoneIsCleared(s.modes);
    }
    assert Known(s.modes, KeyOf(e)) <==>
      exists i :: 0 <= i < |s.modes| && s.modes[i].size == e.size && s.modes[i].refreshRate == e.refreshRate by {
      if i :| 0 <= i < |s.modes| && s.modes[i].size == e.size && s.modes[i].refreshRate == e.refreshRate {
        assert KeyOf(s.modes[i]) == KeyOf(e);
      }
    }
    assert s.signals + [] == s.signals;
  }
}
