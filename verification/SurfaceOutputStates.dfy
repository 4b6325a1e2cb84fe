/**
 The outputs a Surface is on. Every enter event adds an entry and subscribes once more to the output's
 removal; leave and removal each take entries away, but no subscription.
 */
module SurfaceOutputStates {
  import opened Collections

  type OutputId = nat

  datatype Signal = OutputEntered(output: OutputId) | OutputLeft(output: OutputId)

  datatype State = State(outputs: seq<OutputId>, subscriptions: multiset<OutputId>, signals: seq<Signal>)

  // Output::get finds no object for an output this client does not know.
  datatype Event =
    | Enter(output: Option<OutputId>)
    | Leave(output: Option<OutputId>)
    | Removed(removed: OutputId)

  // removeOutput
  function RemoveOutput(s: State, o: OutputId): State {
    var i := IndexOf(s.outputs, o);
    if i == -1 then s
    else s.(outputs := RemoveAt(s.outputs, i), signals := s.signals + [OutputLeft(o)])
  }

  // Every subscription to the removal of o runs once.
  function RemoveTimes(s: State, o: OutputId, n: nat): State {
    if n == 0 then s else RemoveOutput(RemoveTimes(s, o, n - 1), o)
  }

  function Step(s: State, e: Event): State {
    match e
    case Enter(None) => s
    case Leave(None) => s
    case Enter(Some(o)) =>
      State(s.outputs + [o], s.subscriptions + multiset{o}, s.signals + [OutputEntered(o)])
    case Leave(Some(o)) => RemoveOutput(s, o)
    case Removed(o) => RemoveTimes(s, o, s.subscriptions[o])
  }

  function Run(events: seq<Event>): State {
    if events == [] then State([], multiset{}, [])
    else Step(Run(events[..|events| - 1]), events[|events| - 1])
  }

  function Count(outputs: seq<OutputId>, o: OutputId): nat {
    if outputs == [] then 0
    else Count(outputs[1..], o) + if outputs[0] == o then 1 else 0
  }

  lemma {:induction false} CountAppend(a: seq<OutputId>, x: OutputId, o: OutputId)
    ensures Count(a + [x], o) == Count(a, o) + if x == o then 1 else 0
  {
    if a == [] {
      assert a + [x] == [x];
    } else {
      CountAppend(a[1..], x, o);
      assert (a + [x])[1..] == a[1..] + [x];
    }
  }

  lemma {:induction false} CountRemove(a: seq<OutputId>, i: nat, o: OutputId)
    requires i < |a|
    ensures Count(RemoveAt(a, i), o) == Count(a, o) - if a[i] == o then 1 else 0
  {
    if i == 0 {
      assert RemoveAt(a, 0) == a[1..];
    } else {
      CountRemove(a[1..], i - 1, o);
      assert RemoveAt(a, i)[1..] == RemoveAt(a[1..], i - 1);
    }
  }

  lemma {:induction false} CountZero(a: seq<OutputId>, o: OutputId)
    ensures Count(a, o) == 0 <==> o !in a
  {
    if a != [] {
      CountZero(a[1..], o);
      assert a == [a[0]] + a[1..];
    }
  }

  function Times(s: State, signal: Signal): nat {
    multiset(s.signals)[signal]
  }

  // What holds of one output in every reachable state.
  ghost predicate Balanced(s: State, o: OutputId) {
    && Times(s, OutputEntered(o)) == Times(s, OutputLeft(o)) + Count(s.outputs, o)
    && s.subscriptions[o] == Times(s, OutputEntered(o))
  }

  lemma RemoveOutputCounts(s: State, r: OutputId, o: OutputId)
    ensures var t := RemoveOutput(s, r);
            var gone := if r == o && Count(s.outputs, o) > 0 then 1 else 0;
            && Count(t.outputs, o) == Count(s.outputs, o) - gone
            && Times(t, OutputLeft(o)) == Times(s, OutputLeft(o)) + gone
            && Times(t, OutputEntered(o)) == Times(s, OutputEntered(o))
            && t.subscriptions == s.subscriptions
  {
    CountZero(s.outputs, r);
    var i := IndexOf(s.outputs, r);
    if i >= 0 {
      CountRemove(s.outputs, i, o);
    }
  }

  // n runs of the removal take away n entries of the output, if it has that many, and no others.
  lemma {:induction false} RemoveTimesCounts(s: State, r: OutputId, n: nat, o: OutputId)
    ensures var t := RemoveTimes(s, r, n);
            var gone := if r != o then 0 else if n < Count(s.outputs, o) then n else Count(s.outputs, o);
            && Count(t.outputs, o) == Count(s.outputs, o) - gone
            && Times(t, OutputLeft(o)) == Times(s, OutputLeft(o)) + gone
            && Times(t, OutputEntered(o)) == Times(s, OutputEntered(o))
            && t.subscriptions == s.subscriptions
  {
    hide RemoveOutput, Count;
    if n > 0 {
      RemoveTimesCounts(s, r, n - 1, o);
      RemoveOutputCounts(RemoveTimes(s, r, n - 1), r, o);
    }
  }

  lemma StepBalances(s: State, e: Event, o: OutputId)
    requires Balanced(s, o)
    ensures Balanced(Step(s, e), o)
  {
    match e
    case Enter(None) =>
    case Leave(None) =>
    case Enter(Some(x)) => CountAppend(s.outputs, x, o);
    case Leave(Some(x)) => RemoveOutputCounts(s, x, o);
    case Removed(x) => RemoveTimesCounts(s, x, s.subscriptions[x], o);
  }

  // Over every run: entered minus left is the number of entries, and there are at least as many
  // subscriptions as entries, namely one for every time the output was entered.
  lemma {:induction false} SignalsCountEntries(events: seq<Event>, o: OutputId)
    ensures Balanced(Run(events), o)
  {
    if events != [] {
      var last := |events| - 1;
      SignalsCountEntries(events[..last], o);
      StepBalances(Run(events[..last]), events[last], o);
    }
  }

  lemma RemoveOutputKeepsOthers(s: State, o: OutputId)
    ensures Without(RemoveOutput(s, o).outputs, o) == Without(s.outputs, o)
  {
    var i := IndexOf(s.outputs, o);
    if i >= 0 {
      WithoutSkips(s.outputs, i, o);
    }
  }

  // Entries of other outputs keep their order.
  lemma {:induction false} RemoveTimesKeepsOthers(s: State, o: OutputId, n: nat)
    ensures Without(RemoveTimes(s, o, n).outputs, o) == Without(s.outputs, o)
  {
    hide RemoveOutput, Without;
    if n > 0 {
      RemoveTimesKeepsOthers(s, o, n - 1);
      RemoveOutputKeepsOthers(RemoveTimes(s, o, n - 1), o);
    }
  }

  lemma {:induction false} WithoutSkips(a: seq<OutputId>, i: nat, o: OutputId)
    requires i < |a| && a[i] == o
    ensures Without(RemoveAt(a, i), o) == Without(a, o)
  {
    if i == 0 {
      assert RemoveAt(a, 0) == a[1..];
    } else {
      WithoutSkips(a[1..], i - 1, o);
      assert RemoveAt(a, i)[1..] == RemoveAt(a[1..], i - 1);
    }
  }

  // When an output is removed the surface leaves it completely: all its entries go, one left signal for
  // each, and the rest of the list is as before.
  lemma {:induction false} RemovalIsComplete(events: seq<Event>, o: OutputId)
    ensures var s, t := Run(events), Run(events + [Removed(o)]);
            && t.outputs == Without(s.outputs, o) && o !in t.outputs
            && Times(t, OutputLeft(o)) == Times(s, OutputLeft(o)) + Count(s.outputs, o)
  {
    var s := Run(events);
    assert (events + [Removed(o)])[..|events|] == events;
    SignalsCountEntries(events, o);
    var n := s.subscriptions[o];
    RemoveTimesCounts(s, o, n, o);
    RemoveTimesKeepsOthers(s, o, n);
    var t := RemoveTimes(s, o, n);
    CountZero(t.outputs, o);
    WithoutAbsent(t.outputs, o);
    WithoutMembers(s.outputs, o);
  }

  // What one event does: an entered output joins the end of the list, a left one loses its first entry, each
  // with one signal and in place of nothing else; unknown outputs are ignored.
  lemma {:induction false} EventsMoveOneEntry(events: seq<Event>, o: OutputId)
    ensures var s, entered, left := Run(events), Run(events + [Enter(Some(o))]), Run(events + [Leave(Some(o))]);
            && entered.outputs == s.outputs + [o] && entered.signals == s.signals + [OutputEntered(o)]
            && (o !in s.outputs ==> left.outputs == s.outputs && left.signals == s.signals)
            && (forall i | 0 <= i < |s.outputs| && s.outputs[i] == o && o !in s.outputs[..i] ::
                  && left.outputs == s.outputs[..i] + s.outputs[i + 1..]
                  && left.signals == s.signals + [OutputLeft(o)])
    ensures Run(events + [Enter(None)]) == Run(events) == Run(events + [Leave(None)])
  {
    RunNext(events, Enter(Some(o)));
    RunNext(events, Leave(Some(o)));
    RunNext(events, Enter(None));
    RunNext(events, Leave(None));
    hide Run, IndexOf;
    var s := Run(events);
    forall i | 0 <= i < |s.outputs| && s.outputs[i] == o && o !in s.outputs[..i] ensures i == IndexOf(s.outputs, o) {
      FirstIndex(s.outputs, i, o);
    }
  }

  lemma RunNext(events: seq<Event>, e: Event)
    ensures Run(events + [e]) == Step(Run(events), e)
  {
    assert (events + [e])[..|events|] == events;
  }

  lemma {:induction false} FirstIndex(a: seq<OutputId>, i: nat, o: OutputId)
    requires i < |a| && a[i] == o && o !in a[..i]
    ensures IndexOf(a, o) == i
  {
    if i > 0 {
      assert a[..i][0] == a[0] && a[1..][..i - 1] == a[..i][1..];
      FirstIndex(a[1..], i - 1, o);
    }
  }

  // A removal takes the entries away with nothing but left signals of that output.
  lemma {:induction false} RemovalTellsOnly(events: seq<Event>, o: OutputId, x: OutputId)
    ensures var s, t := Run(events), Run(events + [Removed(o)]);
            && Times(t, OutputEntered(x)) == Times(s, OutputEntered(x))
            && (x != o ==> Times(t, OutputLeft(x)) == Times(s, OutputLeft(x)))
            && t.subscriptions == s.subscriptions
  {
    assert (events + [Removed(o)])[..|events|] == events;
    RemoveTimesCounts(Run(events), o, Run(events).subscriptions[o], x);
  }
}
