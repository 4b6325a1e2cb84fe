/** Touch and TouchPoint as classes; every callback makes the step of TouchSequences for its event. */
module Touches {
  import opened TouchSequences

  class TouchPoint {
    const id: int
    const downSerial: nat
    const surface: nat
    var upSerial: nat
    var positions: seq<Position>
    var timestamps: seq<nat>
    var down: bool

    constructor (serial: nat, time: nat, id: int, position: Position, surface: nat)
      ensures Value() == Pressed(serial, time, id, position, surface)
    {
      this.id, downSerial, this.surface, upSerial := id, serial, surface, 0;
      positions, timestamps, down := [position], [time], true;
    }

    function Value(): Point
      reads this
    {
      Point(id, downSerial, upSerial, surface, positions, timestamps, down)
    }

    method Lift(serial: nat, time: nat)
      modifies this
      ensures Value() == Lifted(old(Value()), serial, time)
    {
      timestamps := timestamps + [time];
      upSerial := serial;
      down := false;
    }

    method Move(time: nat, position: Position)
      modifies this
      ensures Value() == Moved(old(Value()), time, position)
    {
      positions := positions + [position];
      timestamps := timestamps + [time];
    }
  }

  class Touch {
    var active: bool
    var sequence: seq<TouchPoint>
    ghost var signals: seq<Signal>
    ghost var history: seq<Event>

    ghost predicate PointsAgree(points: seq<Point>)
      reads this`sequence, sequence
    {
      && |sequence| == |points| && (forall i | 0 <= i < |points| :: sequence[i].Value() == points[i])
      && forall i, j | 0 <= i < j < |sequence| :: sequence[i] != sequence[j]
    }

    ghost predicate Represents(s: State)
      reads this`active, this`sequence, this`signals, sequence
    {
      PointsAgree(s.sequence) && active == s.active && signals == s.signals
    }

    // The objects are what the events so far lead to.
    ghost predicate Valid()
      reads this, sequence
    {
      Represents(Run(history))
    }

    constructor ()
      ensures Valid() && history == []
    {
      active, sequence, signals, history := false, [], [], [];
    }

    ghost method Record(e: Event)
      requires Represents(Step(Run(history), e))
      modifies this`history
      ensures Valid() && history == old(history) + [e]
    {
      assert (history + [e])[..|history|] == history;
      history := history + [e];
    }

    // Private::getActivePoint
    method GetActivePoint(id: int) returns (k: int)
      requires Valid()
      ensures k == ActivePoint(Run(history).sequence, id) && k < |sequence|
    {
      k := 0;
      while k < |sequence|
        invariant 0 <= k <= |sequence|
        invariant forall j | 0 <= j < k :: !IsActive(Run(history).sequence[j], id)
      {
        if sequence[k].id == id && sequence[k].down {
          return;
        }
        k := k + 1;
      }
      k := -1;
    }

    // Private::down
    method Down(serial: nat, time: nat, id: int, position: Position, surface: nat)
      requires Valid()
      modifies this
      ensures Valid() && history == old(history) + [Event.Down(serial, time, id, position, surface)]
      ensures forall p | p in sequence :: p in old(sequence) || fresh(p)
    {
      var p := new TouchPoint(serial, time, id, position, surface);
      if active {
        signals := signals + [PointAdded(|sequence|)];
        sequence := sequence + [p];
      } else {
        sequence := [p];
        active := true;
        signals := signals + [SequenceStarted(0)];
      }
      Record(Event.Down(serial, time, id, position, surface));
    }

    // The loop at the end of Private::up
    method FindDown(ghost points: seq<Point>) returns (found: bool)
      requires PointsAgree(points)
      ensures found == AnyDown(points)
    {
      var k := 0;
      while k < |sequence|
        invariant 0 <= k <= |sequence|
        invariant forall j | 0 <= j < k :: !points[j].down
      {
        if sequence[k].down {
          assert points[k].down;
          return true;
        }
        k := k + 1;
      }
      return false;
    }

    // The part of Private::up before the loop
    method LiftPoint(k: nat, serial: nat, time: nat)
      requires Valid() && k < |sequence|
      modifies this`signals, sequence[k]
      ensures var s := Run(history);
              k < |s.sequence|
              && Represents(Say(s.(sequence := s.sequence[k := Lifted(s.sequence[k], serial, time)]), PointRemoved(k)))
    {
      sequence[k].Lift(serial, time);
      signals := signals + [PointRemoved(k)];
    }

    // Private::up
    method Up(serial: nat, time: nat, id: int)
      requires Valid()
      modifies this`active, this`signals, this`history, sequence
      ensures Valid() && history == old(history) + [Event.Up(serial, time, id)]
    {
      ghost var s := Run(history);
      var k := GetActivePoint(id);
      if k >= 0 {
        LiftPoint(k, serial, time);
        EndIfNoneDown(Say(s.(sequence := s.sequence[k := Lifted(s.sequence[k], serial, time)]), PointRemoved(k)));
      }
      Record(Event.Up(serial, time, id));
    }

    method EndIfNoneDown(ghost t: State)
      requires Represents(t)
      modifies this`active, this`signals
      ensures Represents(if AnyDown(t.sequence) then t else Say(t.(active := false), SequenceEnded))
    {
      var found := FindDown(t.sequence);
      if found {
        return;
      }
      active := false;
      signals := signals + [SequenceEnded];
    }

    // Private::motion
    method Motion(time: nat, id: int, position: Position)
      requires Valid()
      modifies this`signals, this`history, sequence
      ensures Valid() && history == old(history) + [Event.Motion(time, id, position)]
    {
      var k := GetActivePoint(id);
      if k >= 0 {
        sequence[k].Move(time, position);
        signals := signals + [PointMoved(k)];
      }
      Record(Event.Motion(time, id, position));
    }

    // frameCallback
    method Frame()
      requires Valid()
      modifies this`signals, this`history
      ensures Valid() && history == old(history) + [Event.Frame]
    {
      signals := signals + [FrameEnded];
      Record(Event.Frame);
    }

    // cancelCallback
    method Cancel()
      requires Valid()
      modifies this`active, this`signals, this`history
      ensures Valid() && history == old(history) + [Event.Cancel]
    {
      active := false;
      signals := signals + [SequenceCanceled];
      Record(Event.Cancel);
    }
  }
}
