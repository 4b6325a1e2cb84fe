/** The toplevel surfaces of the xdg-shell versions as classes; callbacks make the steps of XdgToplevelStates. */
module XdgToplevels {
  import opened XdgToplevelStates

  // The loop over the state array that every version's configureCallback contains
  method DecodeStates(numbers: seq<nat>) returns (states: set<StateFlag>)
    ensures forall f: StateFlag :: f in states <==> Number(f) in numbers
    ensures states == Decode(numbers)
  {
    states := {};
    var i := 0;
    while i < |numbers|
      invariant i <= |numbers| && states == Decode(numbers[..i])
    {
      assert numbers[..i + 1][..i] == numbers[..i];
      match numbers[i] {
        case 1 => states := states + {Maximized};
        case 2 => states := states + {Fullscreen};
        case 3 => states := states + {Resizing};
        case 4 => states := states + {Activated};
        case _ =>
      }
      i := i + 1;
    }
    assert numbers[..i] == numbers;
    forall f: StateFlag ensures f in states <==> Number(f) in numbers {
      DecodeMembers(numbers, f);
    }
  }

  // XdgShellSurface: the part every version shares
  class XdgShellSurface {
    var size: Size
    ghost var signals: seq<Signal>

    ghost function Shown(): Shown
      reads this
    {
      XdgToplevelStates.Shown(size, signals)
    }

    constructor ()
      ensures Shown() == XdgToplevelStates.Shown(NO_SIZE, [])
    {
      size, signals := NO_SIZE, [];
    }

    method SetSize(newSize: Size)
      modifies this
      ensures Shown() == XdgToplevelStates.SetSize(old(Shown()), newSize)
    {
      if size == newSize {
        return;
      }
      size := newSize;
      signals := signals + [SizeChanged(newSize)];
    }

    method Emit(signal: Signal)
      modifies this`signals
      ensures Shown() == Say(old(Shown()), signal)
    {
      signals := signals + [signal];
    }
  }

  class XdgShellSurfaceUnstableV5 {
    const q: XdgShellSurface
    ghost var history: seq<Event5>

    ghost predicate Valid()
      reads this, q
    {
      q.Shown() == Run5(history)
    }

    constructor ()
      ensures Valid() && history == [] && fresh(q)
    {
      q := new XdgShellSurface();
      history := [];
    }

    ghost method Record(e: Event5)
      requires q.Shown() == Step5(Run5(history), e)
      modifies this
      ensures Valid() && history == old(history) + [e]
    {
      Run5Next(history, e);
      history := history + [e];
    }

    // configureCallback
    method Configure(width: int, height: int, wlStates: seq<nat>, serial: nat)
      requires Valid()
      modifies this, q
      ensures Valid() && history == old(history) + [Configure5(Size(width, height), wlStates, serial)]
    {
      var states := DecodeStates(wlStates);
      var size := Size(width, height);
      q.Emit(ConfigureRequested(size, states, serial));
      if !IsNull(size) {
        q.SetSize(size);
      }
      Record(Configure5(size, wlStates, serial));
    }

    // closeCallback
    method Close()
      requires Valid()
      modifies this, q
      ensures Valid() && history == old(history) + [Close5]
    {
      q.Emit(CloseRequested);
      Record(Close5);
    }

    method SetSize(size: Size)
      requires Valid()
      modifies this, q
      ensures Valid() && history == old(history) + [UserSize5(size)]
    {
      q.SetSize(size);
      Record(UserSize5(size));
    }
  }

  // XdgTopLevelUnstableV6 and XdgTopLevelStable
  class XdgTopLevel {
    const q: XdgShellSurface
    var pendingSize: Size
    var pendingState: set<StateFlag>
    ghost var history: seq<Event>

    ghost predicate Valid()
      reads this, q
    {
      Run(history) == State(q.Shown(), pendingSize, pendingState)
    }

    constructor ()
      ensures Valid() && history == [] && fresh(q)
    {
      q := new XdgShellSurface();
      pendingSize, pendingState, history := NO_SIZE, {}, [];
    }

    ghost method Record(e: Event)
      requires Step(Run(history), e) == State(q.Shown(), pendingSize, pendingState)
      modifies this`history
      ensures Valid() && history == old(history) + [e]
    {
      assert (history + [e])[..|history|] == history;
      history := history + [e];
    }

    // The toplevel's configureCallback
    method Configure(width: int, height: int, wlStates: seq<nat>)
      requires Valid()
      modifies this
      ensures Valid() && history == old(history) + [ToplevelConfigure(Size(width, height), wlStates)]
    {
      var states := DecodeStates(wlStates);
      pendingSize := Size(width, height);
      pendingState := states;
      Record(ToplevelConfigure(Size(width, height), wlStates));
    }

    // surfaceConfigureCallback
    method SurfaceConfigure(serial: nat)
      requires Valid()
      modifies this, q
      ensures Valid() && history == old(history) + [Event.SurfaceConfigure(serial)]
    {
      q.Emit(ConfigureRequested(pendingSize, pendingState, serial));
      if !IsNull(pendingSize) {
        q.SetSize(pendingSize);
        pendingSize := NO_SIZE;
      }
      pendingState := {};
      Record(Event.SurfaceConfigure(serial));
    }

    // closeCallback
    method Close()
      requires Valid()
      modifies this, q
      ensures Valid() && history == old(history) + [Event.Close]
    {
      q.Emit(CloseRequested);
      Record(Event.Close);
    }

    method SetSize(size: Size)
      requires Valid()
      modifies this, q
      ensures Valid() && history == old(history) + [UserSize(size)]
    {
      q.SetSize(size);
      Record(UserSize(size));
    }
  }
}
