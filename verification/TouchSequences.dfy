/**
 The touch state as a value: the points of the latest sequence, whether it is still going on, and the
 signals emitted. Points are named by their position in the sequence.
 */
module TouchSequences {
  import opened Collections

  // In units of 1/256, as wl_fixed_t
  datatype Position = Position(x: int, y: int)

  datatype Point = Point(
    id: int, downSerial: nat, upSerial: nat, surface: nat,
    positions: seq<Position>, timestamps: seq<nat>, down: bool)

  datatype Signal =
    | SequenceStarted(k: nat)
    | PointAdded(k: nat)
    | PointMoved(k: nat)
    | PointRemoved(k: nat)
    | SequenceEnded
    | SequenceCanceled
    | FrameEnded

  datatype State = State(active: bool, sequence: seq<Point>, signals: seq<Signal>)

  datatype Event =
    | Down(serial: nat, time: nat, id: int, position: Position, surface: nat)
    | Up(serial: nat, time: nat, id: int)
    | Motion(time: nat, id: int, position: Position)
    | Frame
    | Cancel

  predicate IsActive(p: Point, id: int) {
    p.id == id && p.down
  }

  // Private::getActivePoint: the first match, or -1.
  function ActivePoint(points: seq<Point>, id: int): (r: int)
    ensures -1 <= r < |points|
    ensures r >= 0 ==> IsActive(points[r], id) && forall k | 0 <= k < r :: !IsActive(points[k], id)
    ensures r == -1 ==> forall k | 0 <= k < |points| :: !IsActive(points[k], id)
  {
    if points == [] then -1
    else if IsActive(points[0], id) then 0
    else
      var r := ActivePoint(points[1..], id);
      if r == -1 then -1 else r + 1
  }

  predicate AnyDown(points: seq<Point>) {
    exists k :: 0 <= k < |points| && points[k].down
  }

  function Pressed(serial: nat, time: nat, id: int, position: Position, surface: nat): Point {
    Point(id, serial, 0, surface, [position], [time], true)
  }

  function Lifted(p: Point, serial: nat, time: nat): Point {
    p.(timestamps := p.timestamps + [time], upSerial := serial, down := false)
  }

  function Moved(p: Point, time: nat, position: Position): Point {
    p.(positions := p.positions + [position], timestamps := p.timestamps + [time])
  }

  function Say(s: State, signal: Signal): State {
    s.(signals := s.signals + [signal])
  }

  function PutDown(s: State, p: Point): State {
    if s.active then Say(s.(sequence := s.sequence + [p]), PointAdded(|s.sequence|))
    else Say(s.(active := true, sequence := [p]), SequenceStarted(0))
  }

  function LiftUp(s: State, serial: nat, time: nat, id: int): State {
    var k := ActivePoint(s.sequence, id);
    if k == -1 then s
    else
      var t := Say(s.(sequence := s.sequence[k := Lifted(s.sequence[k], serial, time)]), PointRemoved(k));
      if AnyDown(t.sequence) then t else Say(t.(active := false), SequenceEnded)
  }

  function Move(s: State, time: nat, id: int, position: Position): State {
    var k := ActivePoint(s.sequence, id);
    if k == -1 then s
    else Say(s.(sequence := s.sequence[k := Moved(s.sequence[k], time, position)]), PointMoved(k))
  }

  function Step(s: State, e: Event): State {
    match e
    case Down(serial, time, id, position, surface) => PutDown(s, Pressed(serial, time, id, position, surface))
    case Up(serial, time, id) => LiftUp(s, serial, time, id)
    case Motion(time, id, position) => Move(s, time, id, position)
    case Frame => Say(s, FrameEnded)
    case Cancel => Say(s.(active := false), SequenceCanceled)
  }

  function Run(events: seq<Event>): State {
    if events == [] then State(false, [], [])
    else Step(Run(events[..|events| - 1]), events[|events| - 1])
  }

  // ---------- the grammar of the signals ----------

  // Whether a sequence is open after the signals; None if they are not of the form
  // (start (added | moved | removed)* (end | cancel))*, frames aside.
  function Parse(signals: seq<Signal>): Option<bool> {
    if signals == [] then Some(false)
    else
      var open := Parse(signals[..|signals| - 1]);
      match signals[|signals| - 1]
      case SequenceStarted(_) => if open == Some(false) then Some(true) else None
      case FrameEnded => open
      case SequenceEnded => if open == Some(true) then Some(false) else None
      case SequenceCanceled => if open == Some(true) then Some(false) else None
      case _ => if open == Some(true) then open else None
  }

  // A gesture that is over gets no further event: a cancel needs an open sequence, and so does an event
  // for a point that is still down.
  predicate Acceptable(s: State, e: Event) {
    match e
    case Down(_, _, _, _, _) => true
    case Up(_, _, id) => ActivePoint(s.sequence, id) >= 0 ==> s.active
    case Motion(_, id, _) => ActivePoint(s.sequence, id) >= 0 ==> s.active
    case Frame => true
    case Cancel => s.active
  }

  predicate AllAcceptable(events: seq<Event>) {
    events == [] ||
    (AllAcceptable(events[..|events| - 1]) && Acceptable(Run(events[..|events| - 1]), events[|events| - 1]))
  }

  lemma ParseNext(signals: seq<Signal>, signal: Signal)
    ensures Parse(signals + [signal]) ==
      (match signal
       case SequenceStarted(_) => if Parse(signals) == Some(false) then Some(true) else None
       case FrameEnded => Parse(signals)
       case SequenceEnded => if Parse(signals) == Some(true) then Some(false) else None
       case SequenceCanceled => if Parse(signals) == Some(true) then Some(false) else None
       case _ => if Parse(signals) == Some(true) then Parse(signals) else None)
  {
    assert (signals + [signal])[..|signals|] == signals;
  }

  // Whether the next signal fits a sequence that is open or not
  lemma SayParses(s: State, signal: Signal)
    ensures Parse(Say(s, signal).signals) ==
      (match signal
       case SequenceStarted(_) => if Parse(s.signals) == Some(false) then Some(true) else None
       case FrameEnded => Parse(s.signals)
       case SequenceEnded => if Parse(s.signals) == Some(true) then Some(false) else None
       case SequenceCanceled => if Parse(s.signals) == Some(true) then Some(false) else None
       case _ => if Parse(s.signals) == Some(true) then Parse(s.signals) else None)
  {
    ParseNext(s.signals, signal);
  }

  lemma LiftParses(s: State, serial: nat, time: nat, id: int)
    requires Parse(s.signals) == Some(s.active) || Parse(s.signals) == None
    ensures var t := LiftUp(s, serial, time, id);
            Parse(t.signals) ==
              if Parse(s.signals).Some? && (ActivePoint(s.sequence, id) >= 0 ==> s.active) then Some(t.active) else None
  {
    hide Parse, AnyDown;
    var k := ActivePoint(s.sequence, id);
    if k >= 0 {
      var u := s.(sequence := s.sequence[k := Lifted(s.sequence[k], serial, time)]);
      SayParses(u, PointRemoved(k));
      var t := Say(u, PointRemoved(k));
      SayParses(t.(active := false), SequenceEnded);
    }
  }

  lemma StepParses(s: State, e: Event)
    requires Parse(s.signals) == Some(s.active) || Parse(s.signals) == None
    ensures Parse(Step(s, e).signals)
         == if Parse(s.signals).Some? && Acceptable(s, e) then Some(Step(s, e).active) else None
  {
    hide Parse, LiftUp;
    match e
    case Down(serial, time, id, position, surface) =>
      var p := Pressed(serial, time, id, position, surface);
      SayParses(s.(sequence := s.sequence + [p]), PointAdded(|s.sequence|));
      SayParses(s.(active := true, sequence := [p]), SequenceStarted(0));
    case Up(serial, time, id) => LiftParses(s, serial, time, id);
    case Motion(time, id, position) =>
      var k := ActivePoint(s.sequence, id);
      if k >= 0 {
        SayParses(s.(sequence := s.sequence[k := Moved(s.sequence[k], time, position)]), PointMoved(k));
      }
    case Frame => SayParses(s, FrameEnded);
    case Cancel => SayParses(s.(active := false), SequenceCanceled);
  }

  // The signals have the documented form exactly if every event was acceptable when it came; then the
  // form also says whether the sequence is still open.
  lemma {:induction false} GrammarExact(events: seq<Event>)
    ensures Parse(Run(events).signals) == if AllAcceptable(events) then Some(Run(events).active) else None
  {
    if events != [] {
      GrammarExact(events[..|events| - 1]);
      StepParses(Run(events[..|events| - 1]), events[|events| - 1]);
    }
  }

  // Concrete runs that break the form: a second cancel, and a motion of a point that the cancel left down.
  lemma CancelsCanRepeat(down: Event)
    requires down.Down?
    ensures Parse(Run([down, Cancel, Cancel]).signals) == None
    ensures forall time, position :: Parse(Run([down, Cancel, Motion(time, down.id, position)]).signals) == None
  {
    var s := CanceledAfter(down);
    assert [down, Cancel, Cancel][..2] == [down, Cancel];
    GrammarExact([down, Cancel, Cancel]);
    forall time, position ensures Parse(Run([down, Cancel, Motion(time, down.id, position)]).signals) == None {
      var e := Motion(time, down.id, position);
      assert [down, Cancel, e][..2] == [down, Cancel];
      assert IsActive(s.sequence[0], down.id);
      GrammarExact([down, Cancel, e]);
    }
  }

  lemma CanceledAfter(down: Event) returns (s: State)
    requires down.Down?
    ensures s == Run([down, Cancel]) && !s.active && |s.sequence| == 1
    ensures s.sequence[0].id == down.id && s.sequence[0].down
  {
    var one, two := [down], [down, Cancel];
    assert one[..0] == [] && two[..1] == one;
    assert Run(one) == Step(State(false, [], []), down);
    s := Run(two);
    assert s == Step(Run(one), Cancel);
  }

  // ---------- points down ----------

  // Started plus added minus removed, since the last start.
  function Balance(signals: seq<Signal>): int {
    if signals == [] then 0
    else
      var before := Balance(signals[..|signals| - 1]);
      match signals[|signals| - 1]
      case SequenceStarted(_) => 1
      case PointAdded(_) => before + 1
      case PointRemoved(_) => before - 1
      case _ => before
  }

  function DownCount(points: seq<Point>): nat {
    if points == [] then 0
    else DownCount(points[..|points| - 1]) + if points[|points| - 1].down then 1 else 0
  }

  lemma BalanceNext(signals: seq<Signal>, signal: Signal)
    ensures Balance(signals + [signal]) ==
      (match signal
       case SequenceStarted(_) => 1
       case PointAdded(_) => Balance(signals) + 1
       case PointRemoved(_) => Balance(signals) - 1
       case _ => Balance(signals))
  {
    assert (signals + [signal])[..|signals|] == signals;
  }

  lemma {:induction false} DownCountUpdate(points: seq<Point>, k: nat, p: Point)
    requires k < |points|
    ensures DownCount(points[k := p])
         == DownCount(points) - (if points[k].down then 1 else 0) + (if p.down then 1 else 0)
  {
    var last := |points| - 1;
    if k == last {
      assert points[k := p][..last] == points[..last];
    } else {
      DownCountUpdate(points[..last], k, p);
      assert points[k := p][..last] == points[..last][k := p];
    }
  }

  lemma {:induction false} NoneDown(points: seq<Point>)
    ensures DownCount(points) > 0 <==> AnyDown(points)
  {
    if points != [] {
      var last := |points| - 1;
      NoneDown(points[..last]);
      assert AnyDown(points) <==> AnyDown(points[..last]) || points[last].down by {
        if AnyDown(points) {
          var k :| 0 <= k < |points| && points[k].down;
          assert k < last ==> points[..last][k].down;
        }
        if AnyDown(points[..last]) {
          var k :| 0 <= k < last && points[..last][k].down;
          assert points[k].down;
        }
      }
    }
  }

  // A sequence that ends does so right after the removal that leaves no point down, and every such
  // removal ends it.
  ghost predicate EndsAt(signals: seq<Signal>, k: nat)
    requires k < |signals|
  {
    signals[k] == SequenceEnded <==> LastRemoved(signals[..k])
  }

  ghost predicate LastRemoved(signals: seq<Signal>) {
    signals != [] && signals[|signals| - 1].PointRemoved? && Balance(signals) == 0
  }

  ghost predicate Counted(s: State) {
    && Balance(s.signals) == DownCount(s.sequence)
    && !LastRemoved(s.signals)
    && forall k: nat | k < |s.signals| :: EndsAt(s.signals, k)
  }

  lemma SayCounted(signals: seq<Signal>, signal: Signal)
    requires forall k: nat | k < |signals| :: EndsAt(signals, k)
    requires signal == SequenceEnded <==> LastRemoved(signals)
    ensures forall k: nat | k < |signals| + 1 :: EndsAt(signals + [signal], k)
  {
    var all := signals + [signal];
    forall k: nat | k < |all| ensures EndsAt(all, k) {
      if k < |signals| {
        assert EndsAt(signals, k) && all[..k] == signals[..k];
      } else {
        assert all[..k] == signals;
      }
    }
  }

  lemma LiftCounted(s: State, serial: nat, time: nat, id: int)
    requires Counted(s)
    ensures Counted(LiftUp(s, serial, time, id))
  {
    var k := ActivePoint(s.sequence, id);
    if k >= 0 {
      var t := Say(s.(sequence := s.sequence[k := Lifted(s.sequence[k], serial, time)]), PointRemoved(k));
      DownCountUpdate(s.sequence, k, t.sequence[k]);
      BalanceNext(s.signals, PointRemoved(k));
      SayCounted(s.signals, PointRemoved(k));
      NoneDown(t.sequence);
      if !AnyDown(t.sequence) {
        BalanceNext(t.signals, SequenceEnded);
        SayCounted(t.signals, SequenceEnded);
      }
    }
  }

  lemma StepCounted(s: State, e: Event)
    requires Counted(s)
    ensures Counted(Step(s, e))
  {
    match e
    case Up(serial, time, id) => LiftCounted(s, serial, time, id);
    case Motion(time, id, position) =>
      var k := ActivePoint(s.sequence, id);
      if k >= 0 {
        DownCountUpdate(s.sequence, k, Moved(s.sequence[k], time, position));
        BalanceNext(s.signals, PointMoved(k));
        SayCounted(s.signals, PointMoved(k));
      }
    case Down(serial, time, id, position, surface) =>
      var signal := if s.active then PointAdded(|s.sequence|) else SequenceStarted(0);
      assert Step(s, e).sequence[..|Step(s, e).sequence| - 1] == if s.active then s.sequence else [];
      BalanceNext(s.signals, signal);
      SayCounted(s.signals, signal);
    case Frame => BalanceNext(s.signals, FrameEnded); SayCounted(s.signals, FrameEnded);
    case Cancel => BalanceNext(s.signals, SequenceCanceled); SayCounted(s.signals, SequenceCanceled);
  }

  // The number of points down is what the signals say, and the end comes exactly when it reaches zero,
  // whatever the server sends.
  lemma {:induction false} SignalsCountPoints(events: seq<Event>)
    ensures Counted(Run(events))
  {
    if events != [] {
      SignalsCountPoints(events[..|events| - 1]);
      StepCounted(Run(events[..|events| - 1]), events[|events| - 1]);
    }
  }

  // ---------- identities and tracks ----------

  ghost predicate IdsUnique(points: seq<Point>) {
    forall i, j | 0 <= i < j < |points| && points[i].down && points[j].down :: points[i].id != points[j].id
  }

  // A point joins an open sequence under an id that no point down has.
  predicate FreshId(s: State, e: Event) {
    e.Down? && s.active ==> ActivePoint(s.sequence, e.id) == -1
  }

  predicate AlwaysFresh(events: seq<Event>) {
    events == [] ||
    (AlwaysFresh(events[..|events| - 1]) && FreshId(Run(events[..|events| - 1]), events[|events| - 1]))
  }

  // Ids of points down stay unique exactly while the server picks fresh ones.
  lemma UniqueExactly(s: State, e: Event)
    requires IdsUnique(s.sequence)
    ensures IdsUnique(Step(s, e).sequence) <==> FreshId(s, e)
  {
    var t := Step(s, e);
    if e.Down? && s.active && ActivePoint(s.sequence, e.id) >= 0 {
      var k := ActivePoint(s.sequence, e.id);
      assert t.sequence[k].down && t.sequence[|s.sequence|].down && t.sequence[k].id == t.sequence[|s.sequence|].id;
    }
  }

  // The samples sent for an id since it last went down.
  datatype Sample = Sample(position: Position, time: nat)

  function Track(events: seq<Event>, id: int): seq<Sample> {
    if events == [] then []
    else
      var before := Track(events[..|events| - 1], id);
      match events[|events| - 1]
      case Down(_, time, i, position, _) => if i == id then [Sample(position, time)] else before
      case Motion(time, i, position) => if i == id then before + [Sample(position, time)] else before
      case _ => before
  }

  function Positions(track: seq<Sample>): seq<Position> {
    seq(|track|, i requires 0 <= i < |track| => track[i].position)
  }

  function Times(track: seq<Sample>): seq<nat> {
    seq(|track|, i requires 0 <= i < |track| => track[i].time)
  }

  // Every position has a timestamp, and a lifted point has one more.
  predicate Timed(p: Point) {
    |p.positions| >= 1 && |p.timestamps| == |p.positions| + if p.down then 0 else 1
  }

  // A point down has recorded exactly its track.
  ghost predicate Recorded(p: Point, track: seq<Sample>) {
    && (p.down ==> p.positions == Positions(track) && p.timestamps == Times(track))
    && Timed(p)
  }

  ghost predicate AllRecorded(points: seq<Point>, events: seq<Event>) {
    forall i | 0 <= i < |points| :: Recorded(points[i], Track(events, points[i].id))
  }

  lemma TrackAppend(track: seq<Sample>, x: Sample)
    ensures Positions(track + [x]) == Positions(track) + [x.position]
    ensures Times(track + [x]) == Times(track) + [x.time]
  {
  }

  lemma MoveRecords(s: State, before: seq<Event>, e: Event)
    requires e.Motion? && IdsUnique(s.sequence) && AllRecorded(s.sequence, before)
    ensures AllRecorded(Step(s, e).sequence, before + [e])
  {
    var t, all := Step(s, e), before + [e];
    assert all[..|before|] == before;
    TrackAppend(Track(before, e.id), Sample(e.position, e.time));
    forall i | 0 <= i < |t.sequence| ensures Recorded(t.sequence[i], Track(all, t.sequence[i].id)) {
      assert Recorded(s.sequence[i], Track(before, s.sequence[i].id));
    }
  }

  lemma OtherRecords(s: State, before: seq<Event>, e: Event)
    requires !e.Motion? && FreshId(s, e) && AllRecorded(s.sequence, before)
    ensures AllRecorded(Step(s, e).sequence, before + [e])
  {
    var t, all := Step(s, e), before + [e];
    assert all[..|before|] == before;
    forall i | 0 <= i < |t.sequence| ensures Recorded(t.sequence[i], Track(all, t.sequence[i].id)) {
      if i < |s.sequence| && !(e.Down? && !s.active) {
        assert Recorded(s.sequence[i], Track(before, s.sequence[i].id));
      }
    }
  }

  // With fresh ids, ids of points down are unique, every point down has exactly the positions and times
  // sent for its id since it went down, and every lifted point has one timestamp more.
  lemma {:induction false} PointsKeepTracks(events: seq<Event>)
    requires AlwaysFresh(events)
    ensures IdsUnique(Run(events).sequence) && AllRecorded(Run(events).sequence, events)
  {
    if events != [] {
      var before, e := events[..|events| - 1], events[|events| - 1];
      PointsKeepTracks(before);
      UniqueExactly(Run(before), e);
      assert before + [e] == events;
      if e.Motion? {
        MoveRecords(Run(before), before, e);
      } else {
        OtherRecords(Run(before), before, e);
      }
    }
  }

  lemma StepKeepsTimes(s: State, e: Event)
    requires forall k | 0 <= k < |s.sequence| :: Timed(s.sequence[k])
    ensures forall k | 0 <= k < |Step(s, e).sequence| :: Timed(Step(s, e).sequence[k])
  {
  }

  // Whatever the server sends, every position has its timestamp.
  lemma {:induction false} EveryPositionHasATime(events: seq<Event>)
    ensures forall k | 0 <= k < |Run(events).sequence| :: Timed(Run(events).sequence[k])
  {
    if events != [] {
      var before := events[..|events| - 1];
      EveryPositionHasATime(before);
      StepKeepsTimes(Run(before), events[|events| - 1]);
    }
  }

  // ---------- what listeners are told ----------

  // Point k is the first one down under the id.
  ghost predicate FirstDown(points: seq<Point>, id: int, k: nat) {
    && k < |points| && points[k].id == id && points[k].down
    && forall j | 0 <= j < k :: !(points[j].id == id && points[j].down)
  }

  // Nothing but point k changes.
  ghost predicate OnlyPoint(a: seq<Point>, b: seq<Point>, k: nat) {
    |a| == |b| && forall j | 0 <= j < |a| && j != k :: b[j] == a[j]
  }

  // A motion is told of exactly the point it moves: the first one down under its id, which records the
  // position and the time and keeps everything else.
  lemma MotionTellsItsPoint(s: State, time: nat, id: int, position: Position)
    ensures var t := Step(s, Motion(time, id, position));
            && (forall k: nat | FirstDown(s.sequence, id, k) ::
                  && t.signals == s.signals + [PointMoved(k)] && t.active == s.active
                  && OnlyPoint(s.sequence, t.sequence, k)
                  && t.sequence[k] == s.sequence[k].(positions := s.sequence[k].positions + [position],
                                                     timestamps := s.sequence[k].timestamps + [time]))
            && ((forall k: nat | k < |s.sequence| :: !FirstDown(s.sequence, id, k)) ==> t == s)
  {
    OneFirst(s.sequence, id);
    var k := ActivePoint(s.sequence, id);
    if k >= 0 {
      assert FirstDown(s.sequence, id, k);
    }
  }

  lemma OneFirst(points: seq<Point>, id: int)
    ensures forall k: nat :: FirstDown(points, id, k) <==> k == ActivePoint(points, id)
  {
  }

  // An up event is told of exactly the point it lifts: the first one down under its id, which records the
  // time and the serial. The sequence ends, and says so, exactly if no point is left down.
  lemma UpTellsItsPoint(s: State, serial: nat, time: nat, id: int)
    ensures var t := Step(s, Up(serial, time, id));
            && (forall k: nat | FirstDown(s.sequence, id, k) ::
                  && OnlyPoint(s.sequence, t.sequence, k)
                  && t.sequence[k] == s.sequence[k].(timestamps := s.sequence[k].timestamps + [time],
                                                     upSerial := serial, down := false)
                  && (if exists j :: 0 <= j < |t.sequence| && t.sequence[j].down then
                        t.signals == s.signals + [PointRemoved(k)] && t.active == s.active
                      else
                        t.signals == s.signals + [PointRemoved(k), SequenceEnded] && !t.active))
            && ((forall k: nat | k < |s.sequence| :: !FirstDown(s.sequence, id, k)) ==> t == s)
  {
    OneFirst(s.sequence, id);
    var k := ActivePoint(s.sequence, id);
    if k >= 0 {
      assert FirstDown(s.sequence, id, k);
      assert s.signals + [PointRemoved(k)] + [SequenceEnded] == s.signals + [PointRemoved(k), SequenceEnded];
    }
  }

  // A down event is told of exactly the point it puts down, the last one of the sequence: the only one if
  // none was going on, behind the others, which stay, if one was.
  lemma DownTellsItsPoint(s: State, serial: nat, time: nat, id: int, position: Position, surface: nat)
    ensures var t := Step(s, Down(serial, time, id, position, surface));
            var kept := if s.active then s.sequence else [];
            && t.active && |t.sequence| == |kept| + 1 && t.sequence[..|kept|] == kept
            && t.signals == s.signals + [if s.active then PointAdded(|t.sequence| - 1) else SequenceStarted(0)]
            && var p := t.sequence[|kept|];
               && p.id == id && p.down && p.positions == [position] && p.timestamps == [time]
               && p.downSerial == serial && p.upSerial == 0 && p.surface == surface
  {
  }

  // Frames and cancels are told of and touch no point; a cancel closes the sequence.
  lemma FrameAndCancelTell(s: State)
    ensures Step(s, Frame) == State(s.active, s.sequence, s.signals + [FrameEnded])
    ensures Step(s, Cancel) == State(false, s.sequence, s.signals + [SequenceCanceled])
  {
  }
}
