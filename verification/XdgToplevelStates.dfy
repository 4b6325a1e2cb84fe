/**
 Configuration of an xdg-shell toplevel. Version 5 configures in one event; version 6 and the stable
 version, whose code is the same, collect a toplevel configure and apply it at the surface configure.
 */
module XdgToplevelStates {
  import opened Collections

  datatype Size = Size(width: int, height: int)

  // QSize() is invalid, which is not the same as null.
  const NO_SIZE := Size(-1, -1)

  predicate IsNull(s: Size) {
    s.width == 0 && s.height == 0
  }

  datatype StateFlag = Maximized | Fullscreen | Resizing | Activated

  // The numbers of the xdg-shell protocol, the same in all versions
  function Number(f: StateFlag): nat {
    match f
    case Maximized => 1
    case Fullscreen => 2
    case Resizing => 3
    case Activated => 4
  }

  function FlagOf(n: nat): Option<StateFlag> {
    if n == 1 then Some(Maximized)
    else if n == 2 then Some(Fullscreen)
    else if n == 3 then Some(Resizing)
    else if n == 4 then Some(Activated)
    else None
  }

  // The loop over the state array
  function Decode(states: seq<nat>): set<StateFlag> {
    if states == [] then {}
    else
      var last := FlagOf(states[|states| - 1]);
      Decode(states[..|states| - 1]) + if last.Some? then {last.value} else {}
  }

  lemma {:induction false} DecodeMembers(states: seq<nat>, f: StateFlag)
    ensures f in Decode(states) <==> Number(f) in states
  {
    if states != [] {
      var last := |states| - 1;
      DecodeMembers(states[..last], f);
      assert states == states[..last] + [states[last]];
    }
  }

  // Order, repetition and unknown numbers do not matter, and nothing else is lost.
  lemma DecodeDependsOnKnownNumbers(a: seq<nat>, b: seq<nat>)
    ensures Decode(a) == Decode(b) <==> forall n | 1 <= n <= 4 :: n in a <==> n in b
  {
    forall f: StateFlag ensures (f in Decode(a) <==> Number(f) in a) && (f in Decode(b) <==> Number(f) in b) {
      DecodeMembers(a, f);
      DecodeMembers(b, f);
    }
    if Decode(a) == Decode(b) {
      forall n | 1 <= n <= 4 ensures n in a <==> n in b {
        assert Number(FlagOf(n).value) == n;
      }
    }
  }

  datatype Signal =
    | ConfigureRequested(size: Size, states: set<StateFlag>, serial: nat)
    | SizeChanged(size: Size)
    | CloseRequested

  // What every version shows its user
  datatype Shown = Shown(size: Size, signals: seq<Signal>)

  function Say(s: Shown, signal: Signal): Shown {
    s.(signals := s.signals + [signal])
  }

  // XdgShellSurface::setSize
  function SetSize(s: Shown, size: Size): Shown {
    if s.size == size then s else Say(s.(size := size), SizeChanged(size))
  }

  function Request(s: Shown, size: Size, states: set<StateFlag>, serial: nat): Shown {
    var asked := Say(s, ConfigureRequested(size, states, serial));
    if IsNull(size) then asked else SetSize(asked, size)
  }

  // ---------- version 5 ----------

  datatype Event5 =
    | Configure5(size: Size, states: seq<nat>, serial: nat)
    | Close5
    | UserSize5(size: Size)   // the client calls setSize

  function Step5(s: Shown, e: Event5): Shown {
    match e
    case Configure5(size, states, serial) => Request(s, size, Decode(states), serial)
    case Close5 => Say(s, CloseRequested)
    case UserSize5(size) => SetSize(s, size)
  }

  function Run5(events: seq<Event5>): Shown {
    if events == [] then Shown(NO_SIZE, []) else Step5(Run5(events[..|events| - 1]), events[|events| - 1])
  }

  // ---------- version 6 and stable ----------

  datatype State = State(shown: Shown, pendingSize: Size, pendingState: set<StateFlag>)

  datatype Event =
    | ToplevelConfigure(size: Size, states: seq<nat>)
    | SurfaceConfigure(serial: nat)
    | Close
    | UserSize(size: Size)

  function Step(s: State, e: Event): State {
    match e
    case ToplevelConfigure(size, states) => s.(pendingSize := size, pendingState := Decode(states))
    case SurfaceConfigure(serial) =>
      State(Request(s.shown, s.pendingSize, s.pendingState, serial),
            if IsNull(s.pendingSize) then s.pendingSize else NO_SIZE, {})
    case Close => s.(shown := Say(s.shown, CloseRequested))
    case UserSize(size) => s.(shown := SetSize(s.shown, size))
  }

  function Run(events: seq<Event>): State {
    if events == [] then State(Shown(NO_SIZE, []), NO_SIZE, {})
    else Step(Run(events[..|events| - 1]), events[|events| - 1])
  }

  // ---------- equivalence ----------

  // The last toplevel configure since the last surface configure
  function Latest(events: seq<Event>): Option<Event>
    ensures Latest(events).Some? ==> Latest(events).value.ToplevelConfigure?
  {
    if events == [] then None
    else
      var last := events[|events| - 1];
      if last.ToplevelConfigure? then Some(last)
      else if last.SurfaceConfigure? then None
      else Latest(events[..|events| - 1])
  }

  // The protocol's rule: every surface configure concludes at least one toplevel configure.
  predicate Proper(events: seq<Event>) {
    events == [] ||
    (Proper(events[..|events| - 1])
     && (events[|events| - 1].SurfaceConfigure? ==> Latest(events[..|events| - 1]).Some?))
  }

  // The version 5 stream with one configure for each batch, made of its last toplevel configure
  function Collapsed(events: seq<Event>): seq<Event5>
    requires Proper(events)
  {
    if events == [] then []
    else
      var before := events[..|events| - 1];
      Collapsed(before) + match events[|events| - 1]
        case ToplevelConfigure(_, _) => []
        case SurfaceConfigure(serial) => [Configure5(Latest(before).value.size, Latest(before).value.states, serial)]
        case Close => [Close5]
        case UserSize(size) => [UserSize5(size)]
  }

  lemma Run5Next(events: seq<Event5>, e: Event5)
    ensures Run5(events + [e]) == Step5(Run5(events), e)
  {
    assert (events + [e])[..|events|] == events;
  }

  lemma {:induction false} PendingIsLatest(events: seq<Event>)
    ensures var latest := Latest(events);
            latest.Some? ==>
              && Run(events).pendingSize == latest.value.size
              && Run(events).pendingState == Decode(latest.value.states)
  {
    if events != [] {
      PendingIsLatest(events[..|events| - 1]);
    }
  }

  // On every stream that keeps the protocol's rule, version 6 and stable show exactly what version 5
  // shows for the collapsed stream: the same size and the same signals in the same order.
  lemma {:induction false} TwoPhasesMatchOne(events: seq<Event>)
    requires Proper(events)
    ensures Run(events).shown == Run5(Collapsed(events))
  {
    if events != [] {
      var before, e := events[..|events| - 1], events[|events| - 1];
      TwoPhasesMatchOne(before);
      PendingIsLatest(before);
      match e
      case ToplevelConfigure(_, _) => assert Collapsed(events) == Collapsed(before);
      case SurfaceConfigure(serial) =>
        Run5Next(Collapsed(before), Configure5(Latest(before).value.size, Latest(before).value.states, serial));
      case Close => Run5Next(Collapsed(before), Close5);
      case UserSize(size) => Run5Next(Collapsed(before), UserSize5(size));
    }
  }

  // What is pending when no toplevel configure has come since the last surface configure.
  ghost predicate Spent(s: State) {
    s.pendingState == {} && (s.pendingSize == NO_SIZE || IsNull(s.pendingSize))
  }

  // The last toplevel configure left the size to the client.
  predicate SizeIsLeft(events: seq<Event>) {
    events != [] &&
    (var e := events[|events| - 1];
     if e.ToplevelConfigure? then e.size == Size(0, 0) else SizeIsLeft(events[..|events| - 1]))
  }

  lemma {:induction false} NothingLatestIsSpent(events: seq<Event>)
    requires Latest(events).None?
    ensures Spent(Run(events)) && Run(events).pendingSize == if SizeIsLeft(events) then Size(0, 0) else NO_SIZE
  {
    if events != [] {
      var before := events[..|events| - 1];
      if !events[|events| - 1].SurfaceConfigure? {
        NothingLatestIsSpent(before);
      } else if Latest(before).Some? {
        PendingIsLatest(before);
        LatestLeaves(before);
      } else {
        NothingLatestIsSpent(before);
      }
    }
  }

  lemma {:induction false} LatestLeaves(events: seq<Event>)
    requires Latest(events).Some?
    ensures SizeIsLeft(events) <==> Latest(events).value.size == Size(0, 0)
  {
    if !events[|events| - 1].ToplevelConfigure? {
      LatestLeaves(events[..|events| - 1]);
    }
  }

  // A surface configure against the rule announces no state and no usable size, and makes the size
  // invalid exactly unless the last toplevel configure left the size to the client.
  lemma {:induction false} BareConfigure(events: seq<Event>, serial: nat)
    requires Latest(events).None?
    ensures var s, t := Run(events), Run(events + [SurfaceConfigure(serial)]);
            && t.shown.signals[|s.shown.signals|..][0]
               == ConfigureRequested(if SizeIsLeft(events) then Size(0, 0) else NO_SIZE, {}, serial)
            && t.shown.size == if SizeIsLeft(events) then s.shown.size else NO_SIZE
  {
    NothingLatestIsSpent(events);
    assert (events + [SurfaceConfigure(serial)])[..|events|] == events;
  }

  // ---------- sizes ----------

  // The size a listener to sizeChanged knows
  function Announced(signals: seq<Signal>): Size {
    if signals == [] then NO_SIZE
    else
      var last := signals[|signals| - 1];
      if last.SizeChanged? then last.size else Announced(signals[..|signals| - 1])
  }

  // Every announcement is a change.
  predicate OnlyChanges(signals: seq<Signal>) {
    signals == [] ||
    (var before, last := signals[..|signals| - 1], signals[|signals| - 1];
     OnlyChanges(before) && (last.SizeChanged? ==> last.size != Announced(before)))
  }

  ghost predicate Told(s: Shown) {
    s.size == Announced(s.signals) && OnlyChanges(s.signals)
  }

  lemma SayTold(s: Shown, signal: Signal)
    requires Told(s) && !signal.SizeChanged?
    ensures Told(Say(s, signal))
  {
    assert (s.signals + [signal])[..|s.signals|] == s.signals;
  }

  lemma SetSizeTold(s: Shown, size: Size)
    requires Told(s)
    ensures Told(SetSize(s, size))
  {
    assert (s.signals + [SizeChanged(size)])[..|s.signals|] == s.signals;
  }

  // size() is always the last size announced, and no announcement repeats the one before.
  lemma {:induction false} SizeIsAnnounced(events: seq<Event>)
    ensures Told(Run(events).shown)
  {
    if events != [] {
      var before, e := events[..|events| - 1], events[|events| - 1];
      SizeIsAnnounced(before);
      var s := Run(before);
      match e
      case ToplevelConfigure(_, _) =>
      case SurfaceConfigure(serial) =>
        var request := ConfigureRequested(s.pendingSize, s.pendingState, serial);
        SayTold(s.shown, request);
        SetSizeTold(Say(s.shown, request), s.pendingSize);
      case Close => SayTold(s.shown, CloseRequested);
      case UserSize(size) => SetSizeTold(s.shown, size);
    }
  }

  // ---------- what a user is told ----------

  // The signals of a configure request: the size, states and serial asked for, then the new size if the
  // compositor decided one and it is another one.
  ghost predicate Asks(s: Shown, t: Shown, size: Size, states: seq<nat>, serial: nat) {
    exists flags: set<StateFlag> ::
      && (forall f :: f in flags <==> Number(f) in states)
      && (if (size.width == 0 && size.height == 0) || size == s.size then
            t == Shown(s.size, s.signals + [ConfigureRequested(size, flags, serial)])
          else
            t == Shown(size, s.signals + [ConfigureRequested(size, flags, serial), SizeChanged(size)]))
  }

  lemma RequestAsks(s: Shown, size: Size, states: seq<nat>, serial: nat)
    ensures Asks(s, Request(s, size, Decode(states), serial), size, states, serial)
  {
    var flags := Decode(states);
    forall f ensures f in flags <==> Number(f) in states {
      DecodeMembers(states, f);
    }
    var asked := s.signals + [ConfigureRequested(size, flags, serial)];
    assert asked + [SizeChanged(size)] == s.signals + [ConfigureRequested(size, flags, serial), SizeChanged(size)];
    assert forall f :: f in flags <==> Number(f) in states;
  }

  // The client's own size, or none
  ghost predicate Resized(s: Shown, t: Shown, size: Size) {
    t == if size == s.size then s else Shown(size, s.signals + [SizeChanged(size)])
  }

  // Version 5: a configure event asks for exactly what it carries.
  lemma EventsTellExactly5(events: seq<Event5>, e: Event5)
    ensures var s, t := Run5(events), Run5(events + [e]);
            match e
            case Configure5(size, states, serial) => Asks(s, t, size, states, serial)
            case Close5 => t == Shown(s.size, s.signals + [CloseRequested])
            case UserSize5(size) => Resized(s, t, size)
  {
    Run5Next(events, e);
    if e.Configure5? {
      RequestAsks(Run5(events), e.size, e.states, e.serial);
    }
  }

  // Versions 6 and stable: nothing is told before the surface configure, which then asks for exactly what
  // the latest toplevel configure carried.
  lemma {:induction false} EventsTellExactly(events: seq<Event>, e: Event)
    ensures var s, t, latest := Run(events).shown, Run(events + [e]).shown, Latest(events);
            match e
            case ToplevelConfigure(_, _) => t == s
            case SurfaceConfigure(serial) =>
              latest.Some? ==> Asks(s, t, latest.value.size, latest.value.states, serial)
            case Close => t == Shown(s.size, s.signals + [CloseRequested])
            case UserSize(size) => Resized(s, t, size)
  {
    assert (events + [e])[..|events|] == events;
    if e.SurfaceConfigure? && Latest(events).Some? {
      PendingIsLatest(events);
      RequestAsks(Run(events).shown, Latest(events).value.size, Latest(events).value.states, e.serial);
    }
  }
}
