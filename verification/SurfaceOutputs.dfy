/** The part of Surface that keeps track of outputs, as a class. */
module SurfaceOutputs {
  import opened Collections
  import opened SurfaceOutputStates

  class Surface {
    var outputs: seq<OutputId>
    var subscriptions: multiset<OutputId>   // Qt's connections to Output::removed, by output
    ghost var signals: seq<Signal>
    ghost var history: seq<Event>

    ghost function State(): State
      reads this
    {
      SurfaceOutputStates.State(outputs, subscriptions, signals)
    }

    ghost predicate Valid()
      reads this
    {
      State() == Run(history)
    }

    constructor ()
      ensures Valid() && history == []
    {
      outputs, subscriptions, signals, history := [], multiset{}, [], [];
    }

    ghost method Record(e: Event)
      requires State() == Step(Run(history), e)
      modifies this`history
      ensures Valid() && history == old(history) + [e]
    {
      assert (history + [e])[..|history|] == history;
      history := history + [e];
    }

    // Private::removeOutput
    method RemoveOutput(o: OutputId)
      modifies this`outputs, this`signals
      ensures State() == SurfaceOutputStates.RemoveOutput(old(State()), o)
    {
      var i := IndexOf(outputs, o);
      if i != -1 {
        outputs := RemoveAt(outputs, i);
        signals := signals + [OutputLeft(o)];
      }
    }

    method EnterCallback(output: Option<OutputId>)
      requires Valid()
      modifies this
      ensures Valid() && history == old(history) + [Enter(output)]
    {
      if output.Some? {
        outputs := outputs + [output.value];
        subscriptions := subscriptions + multiset{output.value};
        signals := signals + [OutputEntered(output.value)];
      }
      Record(Enter(output));
    }

    method LeaveCallback(output: Option<OutputId>)
      requires Valid()
      modifies this
      ensures Valid() && history == old(history) + [Leave(output)]
    {
      if output.Some? {
        RemoveOutput(output.value);
      }
      Record(Leave(output));
    }

    // The subscriptions of this surface to the removal of an output run one after the other.
    method RunSubscriptions(o: OutputId, times: nat)
      modifies this`outputs, this`signals
      ensures State() == RemoveTimes(old(State()), o, times)
      decreases times
    {
      hide SurfaceOutputStates.RemoveOutput;
      if times > 0 {
        RunSubscriptions(o, times - 1);
        RemoveOutput(o);
      }
    }

    // Output::removed
    method OutputRemoved(o: OutputId)
      requires Valid()
      modifies this
      ensures Valid() && history == old(history) + [Removed(o)]
      ensures o !in outputs
    {
      RemovalIsComplete(history, o);
      RunSubscriptions(o, subscriptions[o]);
      Record(Removed(o));
    }
  }
}
