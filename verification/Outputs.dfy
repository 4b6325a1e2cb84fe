/**
 The part of Output that handles modes, as a class. AddModeAsWritten is the code, which reads past the end
 when an erase moves the appended entry; AddMode is what it is meant to do, with an iterator that stays on the
 appended entry. OutputModes says what the intended steps amount to, OutputModeLoop when the two agree.
 */
module Outputs {
  import opened Collections
  import opened OutputModes
  import opened OutputModeLoop

  datatype Point = Point(x: int, y: int)
  datatype Rect = Rect(position: Point, size: Size)

  class Output {
    var globalPosition: Point
    var modes: seq<Mode>
    var currentMode: Option<Mode>
    ghost var signals: seq<Signal>
    ghost var history: seq<Mode>

    ghost function State(): State
      reads this
    {
      OutputModes.State(modes, currentMode, signals)
    }

    ghost predicate Valid()
      reads this
    {
      State() == Run(history)
    }

    constructor ()
      ensures Valid() && history == []
    {
      globalPosition, modes, currentMode, signals, history := Point(0, 0), [], None, [], [];
    }

    // The body of the loop of addMode
    method ClearEntry(it: nat, mode: Mode, ghost existing: bool) returns (erased: bool)
      requires it < |modes|
      modifies this`modes, this`signals
      ensures erased == (KeyOf(old(modes)[it]) == KeyOf(mode)) && |modes| == old(|modes|) - if erased then 1 else 0
      ensures Sweeping(modes, signals, existing || erased)
           == OneTurn(Sweeping(old(modes), old(signals), existing), mode, it)
    {
      if modes[it].current {
        modes := modes[it := modes[it].(current := false)];
        signals := signals + [ModeChanged(modes[it])];
      }
      erased := modes[it].refreshRate == mode.refreshRate && modes[it].size == mode.size;
      if erased {
        modes := RemoveAt(modes, it);
      }
    }

    // The loop of addMode as intended, for a new last entry that is current
    method MakeCurrent(mode: Mode, ghost before: seq<Mode>) returns (existing: bool)
      requires modes == before + [mode]
      modifies this`modes, this`signals
      ensures modes == Sweep(before, mode) + [mode]
      ensures signals == old(signals) + SweepSignals(before) && existing == Known(before, KeyOf(mode))
    {
      hide AtTurn, OneTurn, Sweep, SweepSignals, Known, KeyOf;
      var currentIt, it := |modes| - 1, 0;
      existing := false;
      ghost var start, k := signals, 0;
      FirstTurn(before, mode, start);
      LastTurn(before, mode, start, k, Sweeping(modes, signals, existing), it);
      while it != currentIt
        invariant currentIt == |modes| - 1 && it <= currentIt && k <= |before| && (it == currentIt <==> k == |before|)
        invariant AtTurn(before, mode, start, k, Sweeping(modes, signals, existing), it)
        decreases currentIt - it
      {
        NextTurn(before, mode, start, k, Sweeping(modes, signals, existing), it);
        var erased := ClearEntry(it, mode, existing);
        k := k + 1;
        if erased {
          currentIt := currentIt - 1;
          existing := true;
        } else {
          it := it + 1;
        }
        LastTurn(before, mode, start, k, Sweeping(modes, signals, existing), it);
      }
      LastTurn(before, mode, start, k, Sweeping(modes, signals, existing), it);
    }

    // The loop of addMode as written: the iterator to the appended entry stays at its place in memory,
    // which is a lower position once the beginning has moved.
    method LoopAsWritten(mode: Mode, target: nat, moving: bool) returns (ok: bool, existing: bool, currentIt: nat)
      modifies this`modes, this`signals
      ensures Loop(Sweeping(old(modes), old(signals), false), mode, target, 0, moving) ==
        if ok then Some((Sweeping(modes, signals, existing), currentIt)) else None
    {
      var it := 0;
      existing, currentIt := false, target;
      while it != currentIt
        invariant it <= currentIt
        invariant Loop(Sweeping(modes, signals, existing), mode, currentIt, it, moving)
               == Loop(Sweeping(old(modes), old(signals), false), mode, target, 0, moving)
        decreases currentIt - it + |modes|
      {
        if it >= |modes| {
          return false, existing, currentIt;
        }
        var several := |modes| > 1;
        var erased := ClearEntry(it, mode, existing);
        if erased {
          existing := true;
          if moving && it == 0 && several {
            currentIt := currentIt - 1;
          }
        } else {
          it := it + 1;
        }
      }
      ok := true;
    }

    // modeCallback and Private::addMode as written; false if it reads past the end of the list.
    method AddModeAsWritten(flags: nat, width: int, height: int, refresh: int, moving: bool) returns (ok: bool)
      requires Valid()
      modifies this`modes, this`currentMode, this`signals, this`history
      ensures var mode := ModeOf(flags, width, height, refresh);
              && ok == !(mode.current && Moves(old(modes), KeyOf(mode), moving))
              && (ok ==> Valid() && history == old(history) + [mode])
    {
      var mode := ModeOf(flags, width, height, refresh);
      AddModeExact(State(), mode, moving);
      NextMode(history, mode);
      hide Loop, Moves, OutputModes.AddMode, Run, KeyOf;
      modes := modes + [mode];
      var existing := false;
      if mode.current {
        var currentIt: nat;
        ok, existing, currentIt := LoopAsWritten(mode, |modes| - 1, moving);
        if !ok || currentIt >= |modes| {
          return false;
        }
        currentMode := Some(modes[currentIt]);
      }
      signals := signals + [if existing then ModeChanged(mode) else ModeAdded(mode)];
      history := history + [mode];
      ok := true;
    }

    // What modeCallback and Private::addMode are meant to do
    method AddMode(flags: nat, width: int, height: int, refresh: int)
      requires Valid()
      modifies this`modes, this`currentMode, this`signals, this`history
      ensures Valid() && history == old(history) + [ModeOf(flags, width, height, refresh)]
    {
      var mode := ModeOf(flags, width, height, refresh);
      modes := modes + [mode];
      var existing := false;
      if mode.current {
        existing := MakeCurrent(mode, old(modes));
        currentMode := Some(modes[|modes| - 1]);
      }
      signals := signals + [if existing then ModeChanged(mode) else ModeAdded(mode)];
      history := history + [mode];
      assert history[..|history| - 1] == old(history);
    }

    method SetGlobalPosition(position: Point)
      requires Valid()
      modifies this`globalPosition
      ensures Valid() && globalPosition == position
    {
      globalPosition := position;
    }

    // Output::pixelSize; QSize() is (-1, -1).
    method PixelSize() returns (size: Size)
      requires Valid()
      ensures forall i: nat | LastCurrent(history, i) :: size == history[i].size
      ensures (forall j | 0 <= j < |history| :: !history[j].current) ==> size == Size(-1, -1)
    {
      CurrentModeShown();
      size := if currentMode.None? then Size(-1, -1) else currentMode.value.size;
    }

    // Output::refreshRate
    method RefreshRate() returns (rate: int)
      requires Valid()
      ensures forall i: nat | LastCurrent(history, i) :: rate == history[i].refreshRate
      ensures (forall j | 0 <= j < |history| :: !history[j].current) ==> rate == 0
    {
      CurrentModeShown();
      rate := if currentMode.None? then 0 else currentMode.value.refreshRate;
    }

    // Output::geometry; QRect() has no extent.
    method Geometry() returns (rect: Rect)
      requires Valid()
      ensures forall i: nat | LastCurrent(history, i) :: rect == Rect(globalPosition, history[i].size)
      ensures (forall j | 0 <= j < |history| :: !history[j].current) ==> rect == Rect(Point(0, 0), Size(0, 0))
    {
      CurrentModeShown();
      if currentMode.None? {
        return Rect(Point(0, 0), Size(0, 0));
      }
      var size := PixelSize();
      rect := Rect(globalPosition, size);
    }

    lemma CurrentModeShown()
      requires Valid()
      ensures forall i: nat | LastCurrent(history, i) :: currentMode == Some(history[i])
      ensures currentMode.None? <==> forall j | 0 <= j < |history| :: !history[j].current
    {
      CurrentModeIsLast(history, 0);
      forall i: nat | LastCurrent(history, i) ensures currentMode == Some(history[i]) {
        CurrentModeIsLast(history, i);
      }
    }
  }
}
