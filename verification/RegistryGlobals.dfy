/**
 The globals a Registry knows. The table of supported interfaces is a parameter: any table whose names
 are distinct. The server's rule, one live global per name (interface wl_registry of the Wayland core
 protocol), is the condition UniqueNames where a result needs it.
 */
module RegistryGlobals {
  import opened Collections

  // One row of s_interfaces, in key order
  datatype Row = Row(interface: nat, maxVersion: nat, name: string)

  type Table = seq<Row>

  ghost predicate Consistent(table: Table) {
    forall i, j | 0 <= i < j < |table| ::
      table[i].name != table[j].name && table[i].interface != table[j].interface
  }

  // nameToInterface; None is Interface::Unknown.
  function InterfaceOf(table: Table, name: string): (r: Option<nat>)
    ensures r.Some? <==> exists k :: 0 <= k < |table| && table[k].name == name
    ensures r.Some? ==> exists k :: 0 <= k < |table| && table[k].name == name && r == Some(table[k].interface)
  {
    if table == [] then None
    else if table[0].name == name then Some(table[0].interface)
    else
      var r := InterfaceOf(table[1..], name);
      assert r.Some? ==> forall k | 0 <= k < |table| - 1 :: table[1..][k] == table[k + 1];
      r
  }

  function MaxVersion(table: Table, interface: nat): nat {
    if table == [] then 0
    else if table[0].interface == interface then table[0].maxVersion
    else MaxVersion(table[1..], interface)
  }

  datatype Global = Global(interface: nat, name: nat, version: nat)

  datatype Signal =
    | Announced(interface: nat, name: nat, version: nat)    // the signal of the interface
    | Removed(interface: nat, name: nat)
    | InterfaceAnnounced(iname: string, name: nat, version: nat)
    | InterfaceRemoved(name: nat)

  datatype State = State(globals: seq<Global>, signals: seq<Signal>)

  datatype Event =
    | Announce(name: nat, interface: string, version: nat)
    | Remove(name: nat)

  function FirstNamed(gs: seq<Global>, name: nat): (r: int)
    ensures -1 <= r < |gs|
    ensures r >= 0 ==> gs[r].name == name && forall k | 0 <= k < r :: gs[k].name != name
    ensures r == -1 ==> forall k | 0 <= k < |gs| :: gs[k].name != name
  {
    if gs == [] then -1
    else if gs[0].name == name then 0
    else
      var r := FirstNamed(gs[1..], name);
      if r == -1 then -1 else r + 1
  }

  function HandleAnnounce(table: Table, s: State, name: nat, interface: string, version: nat): State {
    var i := InterfaceOf(table, interface);
    var t :=
      if i.None? then s
      else State(s.globals + [Global(i.value, name, version)], s.signals + [Announced(i.value, name, version)]);
    t.(signals := t.signals + [InterfaceAnnounced(interface, name, version)])
  }

  function HandleRemove(s: State, name: nat): State {
    var k := FirstNamed(s.globals, name);
    var t :=
      if k == -1 then s
      else State(RemoveAt(s.globals, k), s.signals + [Removed(s.globals[k].interface, name)]);
    t.(signals := t.signals + [InterfaceRemoved(name)])
  }

  function Step(table: Table, s: State, e: Event): State {
    match e
    case Announce(name, interface, version) => HandleAnnounce(table, s, name, interface, version)
    case Remove(name) => HandleRemove(s, name)
  }

  function Run(table: Table, events: seq<Event>): State {
    if events == [] then State([], [])
    else Step(table, Run(table, events[..|events| - 1]), events[|events| - 1])
  }

  // ---------- the live set ----------

  ghost predicate NamesDistinct(gs: seq<Global>) {
    forall i, j | 0 <= i < j < |gs| :: gs[i].name != gs[j].name
  }

  function WithoutName(gs: seq<Global>, name: nat): seq<Global> {
    if gs == [] then []
    else
      var last := |gs| - 1;
      if gs[last].name == name then WithoutName(gs[..last], name) else WithoutName(gs[..last], name) + [gs[last]]
  }

  lemma {:induction false} AbsentName(gs: seq<Global>, name: nat)
    requires forall k | 0 <= k < |gs| :: gs[k].name != name
    ensures WithoutName(gs, name) == gs
  {
    if gs != [] {
      AbsentName(gs[..|gs| - 1], name);
    }
  }

  lemma {:induction false} WithoutNameShorter(gs: seq<Global>, name: nat, i: nat, j: nat)
    requires i < |gs| && gs[i].name == name
    ensures |WithoutName(gs, name)| <= |gs| - if i < j < |gs| && gs[j].name == name then 2 else 1
    decreases |gs|
  {
    var last := |gs| - 1;
    var front := gs[..last];
    if i < last {
      WithoutNameShorter(front, name, i, j);
    } else {
      WithoutNameAtMost(front, name);
    }
  }

  lemma {:induction false} WithoutNameAtMost(gs: seq<Global>, name: nat)
    ensures |WithoutName(gs, name)| <= |gs|
  {
    if gs != [] {
      WithoutNameAtMost(gs[..|gs| - 1], name);
    }
  }

  lemma {:induction false} RemoveFirstOnly(gs: seq<Global>, k: nat, name: nat)
    requires k < |gs| && gs[k].name == name
    requires forall j | 0 <= j < |gs| && j != k :: gs[j].name != name
    ensures RemoveAt(gs, k) == WithoutName(gs, name)
  {
    var last := |gs| - 1;
    if k == last {
      AbsentName(gs[..last], name);
    } else {
      RemoveFirstOnly(gs[..last], k, name);
    }
  }

  // handleRemove forgets every global of the name exactly if there is at most one.
  lemma {:induction false} RemoveForgetsAllExactly(s: State, name: nat)
    ensures HandleRemove(s, name).globals == WithoutName(s.globals, name)
       <==> forall i, j | 0 <= i < j < |s.globals| :: !(s.globals[i].name == name && s.globals[j].name == name)
  {
    var gs := s.globals;
    var k := FirstNamed(gs, name);
    if i, j :| 0 <= i < j < |gs| && gs[i].name == name && gs[j].name == name {
      WithoutNameShorter(gs, name, i, j);
      assert |RemoveAt(gs, k)| == |gs| - 1;
    } else if k == -1 {
      AbsentName(gs, name);
    } else {
      RemoveFirstOnly(gs, k, name);
    }
  }

  // The server announces no known interface under a name that is still live.
  predicate FreshName(table: Table, s: State, e: Event) {
    e.Announce? && InterfaceOf(table, e.interface).Some? ==> FirstNamed(s.globals, e.name) == -1
  }

  predicate UniqueNames(table: Table, events: seq<Event>) {
    events == [] ||
    (UniqueNames(table, events[..|events| - 1])
     && FreshName(table, Run(table, events[..|events| - 1]), events[|events| - 1]))
  }

  // Event k of the run announced a known global and no later event removed it.
  ghost predicate Live(table: Table, events: seq<Event>, k: nat) {
    && k < |events| && events[k].Announce? && InterfaceOf(table, events[k].interface).Some?
    && forall j | k < j < |events| :: events[j] != Remove(events[k].name)
  }

  function Known(table: Table, e: Event): Global
    requires e.Announce? && InterfaceOf(table, e.interface).Some?
  {
    Global(InterfaceOf(table, e.interface).value, e.name, e.version)
  }

  // The live globals among those announced by the first k events, in order
  ghost function LiveGlobals(table: Table, events: seq<Event>, k: nat): seq<Global>
    requires k <= |events|
  {
    if k == 0 then []
    else if Live(table, events, k - 1) then LiveGlobals(table, events, k - 1) + [Known(table, events[k - 1])]
    else LiveGlobals(table, events, k - 1)
  }

  lemma LiveNext(table: Table, events: seq<Event>, e: Event, k: nat)
    requires k < |events|
    ensures Live(table, events + [e], k) <==>
      Live(table, events, k) && !(e.Remove? && e.name == events[k].name)
  {
    var all := events + [e];
    assert all[|events|] == e && forall j | 0 <= j < |events| :: all[j] == events[j];
  }

  lemma {:induction false} LiveGlobalsNext(table: Table, events: seq<Event>, e: Event, k: nat)
    requires k <= |events|
    ensures LiveGlobals(table, events + [e], k)
         == if e.Remove? then WithoutName(LiveGlobals(table, events, k), e.name) else LiveGlobals(table, events, k)
  {
    if k > 0 {
      LiveGlobalsNext(table, events, e, k - 1);
      LiveNext(table, events, e, k - 1);
      var before, now := LiveGlobals(table, events, k - 1), LiveGlobals(table, events, k);
      if Live(table, events, k - 1) {
        assert now[..|now| - 1] == before;
      }
    }
  }

  // While the server keeps names unique, the stored list is exactly the known globals announced and not
  // removed since, in announce order, each under its own name.
  lemma {:induction false} GlobalsAreLive(table: Table, events: seq<Event>)
    requires UniqueNames(table, events)
    ensures Run(table, events).globals == LiveGlobals(table, events, |events|)
    ensures NamesDistinct(Run(table, events).globals)
  {
    if events != [] {
      var last := |events| - 1;
      var before, e := events[..last], events[last];
      assert before + [e] == events;
      GlobalsAreLive(table, before);
      LiveGlobalsNext(table, before, e, last);
      if e.Remove? {
        RemoveForgetsAllExactly(Run(table, before), e.name);
      }
    }
  }

  lemma {:induction false} LiveGlobalAt(table: Table, events: seq<Event>, n: nat, g: Global)
    requires n <= |events|
    ensures g in LiveGlobals(table, events, n) <==>
      exists k: nat | k < n && Live(table, events, k) :: Known(table, events[k]) == g
  {
    if n > 0 {
      LiveGlobalAt(table, events, n - 1, g);
    }
  }

  // ---------- lookups ----------

  // Private::interfaces
  function Interfaces(gs: seq<Global>, interface: nat): seq<Global> {
    if gs == [] then []
    else
      var last := |gs| - 1;
      if gs[last].interface == interface then Interfaces(gs[..last], interface) + [gs[last]]
      else Interfaces(gs[..last], interface)
  }

  // Private::interface: the one announced last, or zeros.
  function Interface(gs: seq<Global>, interface: nat): (nat, nat) {
    var all := Interfaces(gs, interface);
    if all == [] then (0, 0) else (all[|all| - 1].name, all[|all| - 1].version)
  }

  lemma {:induction false} InterfacesMembers(gs: seq<Global>, interface: nat, g: Global)
    ensures g in Interfaces(gs, interface) <==> g in gs && g.interface == interface
  {
    if gs != [] {
      var last := |gs| - 1;
      InterfacesMembers(gs[..last], interface, g);
      assert gs == gs[..last] + [gs[last]];
    }
  }

  // A live global of an interface, as a caller would describe it
  ghost predicate LiveAs(table: Table, events: seq<Event>, k: nat, interface: nat) {
    Live(table, events, k) && Known(table, events[k]).interface == interface
  }

  // Event k is the last of the first n that announced a live global of the interface.
  ghost predicate LatestAs(table: Table, events: seq<Event>, n: nat, k: nat, interface: nat) {
    k < n && LiveAs(table, events, k, interface) && forall j | k < j < n :: !LiveAs(table, events, j, interface)
  }

  ghost predicate EndsWithLatest(table: Table, events: seq<Event>, n: nat, interface: nat, all: seq<Global>) {
    all != [] && exists k: nat ::
      k < |events| && LatestAs(table, events, n, k, interface) && all[|all| - 1] == Known(table, events[k])
  }

  lemma {:induction false} InterfacesEnd(table: Table, events: seq<Event>, n: nat, interface: nat)
    requires n <= |events|
    ensures var all := Interfaces(LiveGlobals(table, events, n), interface);
            if all == [] then forall k: nat | k < n :: !LiveAs(table, events, k, interface)
            else EndsWithLatest(table, events, n, interface, all)
  {
    hide Live, InterfaceOf;
    if n > 0 {
      InterfacesEnd(table, events, n - 1, interface);
      var before, now := LiveGlobals(table, events, n - 1), LiveGlobals(table, events, n);
      if Live(table, events, n - 1) {
        assert now[..|now| - 1] == before;
      }
      if LiveAs(table, events, n - 1, interface) {
        assert LatestAs(table, events, n, n - 1, interface);
      } else {
        assert Interfaces(now, interface) == Interfaces(before, interface);
        forall k: nat | LatestAs(table, events, n - 1, k, interface) ensures LatestAs(table, events, n, k, interface) {
        }
      }
    }
  }

  lemma OneLatest(table: Table, events: seq<Event>, n: nat, k: nat, l: nat, interface: nat)
    requires LatestAs(table, events, n, k, interface) && LatestAs(table, events, n, l, interface)
    ensures k == l
  {
  }

  // interface() is the last live announcement of the interface.
  lemma {:induction false} InterfaceIsLatest(table: Table, events: seq<Event>, interface: nat, k: nat)
    requires UniqueNames(table, events) && k < |events| && LatestAs(table, events, |events|, k, interface)
    ensures Interface(Run(table, events).globals, interface) == (events[k].name, events[k].version)
  {
    var n := |events|;
    var gs := LiveGlobals(table, events, n);
    GlobalsAreLive(table, events);
    InterfacesEnd(table, events, n, interface);
    var all := Interfaces(gs, interface);
    assert EndsWithLatest(table, events, n, interface, all);
    var l: nat :| l < n && LatestAs(table, events, n, l, interface) && all[|all| - 1] == Known(table, events[l]);
    OneLatest(table, events, n, k, l, interface);
  }

  // Without a live announcement it is (0, 0).
  lemma {:induction false} NoInterface(table: Table, events: seq<Event>, interface: nat)
    requires UniqueNames(table, events)
    requires forall k: nat | k < |events| :: !LiveAs(table, events, k, interface)
    ensures Interface(Run(table, events).globals, interface) == (0, 0)
  {
    GlobalsAreLive(table, events);
    InterfacesEnd(table, events, |events|, interface);
  }

  // ---------- bind ----------

  // What a bind request carries
  datatype Binding = Binding(name: nat, interface: nat, version: nat)

  predicate Offers(g: Global, interface: nat, name: nat, version: nat) {
    g.interface == interface && g.name == name && g.version >= version
  }

  // Private::bind
  function Bind(gs: seq<Global>, interface: nat, name: nat, version: nat): Option<Binding> {
    if exists g :: g in gs && Offers(g, interface, name, version) then Some(Binding(name, interface, version)) else None
  }

  function Capped(table: Table, interface: nat, version: nat): nat {
    if MaxVersion(table, interface) < version then MaxVersion(table, interface) else version
  }

  // The functions that BIND2 generates
  function BindCapped(table: Table, gs: seq<Global>, interface: nat, name: nat, version: nat): Option<Binding> {
    Bind(gs, interface, name, Capped(table, interface, version))
  }

  // The global of that name is live, of that interface, and announced with at least this version.
  ghost predicate Bindable(table: Table, events: seq<Event>, interface: nat, name: nat, version: nat) {
    exists k: nat ::
      k < |events| && LiveAs(table, events, k, interface) && events[k].name == name && events[k].version >= version
  }

  lemma OfferIsBindable(table: Table, events: seq<Event>, g: Global, interface: nat, name: nat, version: nat)
    requires g in LiveGlobals(table, events, |events|) && Offers(g, interface, name, version)
    ensures Bindable(table, events, interface, name, version)
  {
    LiveGlobalAt(table, events, |events|, g);
    var k: nat :| k < |events| && Live(table, events, k) && Known(table, events[k]) == g;
    assert LiveAs(table, events, k, interface);
  }

  lemma BindableIsOffered(table: Table, events: seq<Event>, interface: nat, name: nat, version: nat) returns (g: Global)
    requires Bindable(table, events, interface, name, version)
    ensures g in LiveGlobals(table, events, |events|) && Offers(g, interface, name, version)
  {
    var k: nat :|
      k < |events| && LiveAs(table, events, k, interface) && events[k].name == name && events[k].version >= version;
    g := Known(table, events[k]);
    LiveGlobalAt(table, events, |events|, g);
  }

  // Binding succeeds exactly if the global is bindable at the smaller of the supported and the requested
  // version, which is the version bound.
  lemma {:induction false} BindExact(table: Table, events: seq<Event>, interface: nat, name: nat, version: nat)
    requires UniqueNames(table, events)
    ensures var supported := MaxVersion(table, interface);
            var v := if supported < version then supported else version;
            var bound := BindCapped(table, Run(table, events).globals, interface, name, version);
            && (bound.Some? <==> Bindable(table, events, interface, name, v))
            && (bound.Some? ==> bound.value == Binding(name, interface, v))
  {
    hide UniqueNames, Run, LiveGlobals, Bindable, Offers;
    GlobalsAreLive(table, events);
    var gs, v := Run(table, events).globals, Capped(table, interface, version);
    if g :| g in gs && Offers(g, interface, name, v) {
      OfferIsBindable(table, events, g, interface, name, v);
    }
    if Bindable(table, events, interface, name, v) {
      var g := BindableIsOffered(table, events, interface, name, v);
    }
  }

  // A name leads to one interface: the lookups by name and by interface agree.
  lemma {:induction false} LookupsAgree(table: Table, events: seq<Event>, k: nat)
    requires UniqueNames(table, events) && Live(table, events, k)
    ensures var gs, g := Run(table, events).globals, Known(table, events[k]);
            && g in Interfaces(gs, g.interface)
            && FirstNamed(gs, g.name) >= 0 && gs[FirstNamed(gs, g.name)] == g
  {
    GlobalsAreLive(table, events);
    var gs, g := Run(table, events).globals, Known(table, events[k]);
    LiveGlobalAt(table, events, |events|, g);
    InterfacesMembers(gs, g.interface, g);
    var i :| 0 <= i < |gs| && gs[i] == g;
    assert FirstNamed(gs, g.name) == i;
  }

  // ---------- listeners ----------

  function Hear(known: seq<Global>, signal: Signal): seq<Global> {
    match signal
    case Announced(interface, name, version) => known + [Global(interface, name, version)]
    case Removed(_, name) => Forget(known, name)
    case _ => known
  }

  function Forget(known: seq<Global>, name: nat): seq<Global> {
    var k := FirstNamed(known, name);
    if k == -1 then known else RemoveAt(known, k)
  }

  // What a listener to the signals of the interfaces has been told, in order
  function Heard(signals: seq<Signal>): seq<Global> {
    if signals == [] then [] else Hear(Heard(signals[..|signals| - 1]), signals[|signals| - 1])
  }

  lemma HeardNext(signals: seq<Signal>, signal: Signal)
    ensures Heard(signals + [signal]) == Hear(Heard(signals), signal)
  {
    assert (signals + [signal])[..|signals|] == signals;
  }

  lemma StepIsHeard(table: Table, s: State, e: Event)
    requires Heard(s.signals) == s.globals
    ensures Heard(Step(table, s, e).signals) == Step(table, s, e).globals
  {
    match e
    case Announce(name, interface, version) =>
      var i := InterfaceOf(table, interface);
      if i.Some? {
        HeardNext(s.signals, Announced(i.value, name, version));
        HeardNext(s.signals + [Announced(i.value, name, version)], InterfaceAnnounced(interface, name, version));
      } else {
        HeardNext(s.signals, InterfaceAnnounced(interface, name, version));
      }
    case Remove(name) =>
      var k := FirstNamed(s.globals, name);
      if k >= 0 {
        HeardNext(s.signals, Removed(s.globals[k].interface, name));
        HeardNext(s.signals + [Removed(s.globals[k].interface, name)], InterfaceRemoved(name));
      } else {
        HeardNext(s.signals, InterfaceRemoved(name));
      }
  }

  // Whatever the server announces, the signals tell exactly the stored list.
  lemma {:induction false} ListenersKnowTheGlobals(table: Table, events: seq<Event>)
    ensures Heard(Run(table, events).signals) == Run(table, events).globals
  {
    if events != [] {
      var last := |events| - 1;
      ListenersKnowTheGlobals(table, events[..last]);
      StepIsHeard(table, Run(table, events[..last]), events[last]);
    }
  }

  // nameToInterface is the inverse of the table.
  lemma {:induction false} NamesAndInterfaces(table: Table, k: nat)
    requires Consistent(table) && k < |table|
    ensures InterfaceOf(table, table[k].name) == Some(table[k].interface)
    ensures MaxVersion(table, table[k].interface) == table[k].maxVersion
  {
    if k > 0 {
      assert forall i | 0 <= i < |table| - 1 :: table[1..][i] == table[i + 1];
      NamesAndInterfaces(table[1..], k - 1);
    }
  }

  // An interface that is not in the table is supported at no version.
  lemma {:induction false} UnknownInterface(table: Table, interface: nat)
    requires forall k | 0 <= k < |table| :: table[k].interface != interface
    ensures MaxVersion(table, interface) == 0
  {
    if table != [] {
      assert table[0].interface != interface;
      assert forall k | 0 <= k < |table| - 1 :: table[1..][k] == table[k + 1];
      UnknownInterface(table[1..], interface);
    }
  }

  // The live globals of one interface among those announced by the first k events, in order
  ghost function LiveOf(table: Table, events: seq<Event>, k: nat, interface: nat): seq<Global>
    requires k <= |events|
  {
    if k == 0 then []
    else if LiveAs(table, events, k - 1, interface) then
      LiveOf(table, events, k - 1, interface) + [Known(table, events[k - 1])]
    else LiveOf(table, events, k - 1, interface)
  }

  lemma {:induction false} InterfacesOfLive(table: Table, events: seq<Event>, k: nat, interface: nat)
    requires k <= |events|
    ensures Interfaces(LiveGlobals(table, events, k), interface) == LiveOf(table, events, k, interface)
  {
    if k > 0 {
      InterfacesOfLive(table, events, k - 1, interface);
      var before, now := LiveGlobals(table, events, k - 1), LiveGlobals(table, events, k);
      if Live(table, events, k - 1) {
        assert now[..|now| - 1] == before;
      }
    }
  }

  // interfaces() lists exactly the live globals of the interface, in announce order.
  lemma {:induction false} InterfacesAreLive(table: Table, events: seq<Event>, interface: nat)
    requires UniqueNames(table, events)
    ensures Interfaces(Run(table, events).globals, interface) == LiveOf(table, events, |events|, interface)
  {
    GlobalsAreLive(table, events);
    InterfacesOfLive(table, events, |events|, interface);
  }

  // What an announcement tells: the signal of a known interface, then the one for any interface.
  lemma AnnounceTellsExactly(table: Table, events: seq<Event>, name: nat, interface: string, version: nat)
    ensures var s, t := Run(table, events), Run(table, events + [Announce(name, interface, version)]);
            && ((forall k | 0 <= k < |table| :: table[k].name != interface) ==>
                  t.signals == s.signals + [InterfaceAnnounced(interface, name, version)])
            && (Consistent(table) ==> forall k | 0 <= k < |table| && table[k].name == interface ::
                  t.signals == s.signals + [Announced(table[k].interface, name, version),
                                            InterfaceAnnounced(interface, name, version)])
  {
    var s, e := Run(table, events), Announce(name, interface, version);
    assert (events + [e])[..|events|] == events;
    forall k | Consistent(table) && 0 <= k < |table| && table[k].name == interface
      ensures InterfaceOf(table, interface) == Some(table[k].interface)
    {
      NamesAndInterfaces(table, k);
    }
    var i := InterfaceOf(table, interface);
    if i.Some? {
      assert s.signals + [Announced(i.value, name, version)] + [InterfaceAnnounced(interface, name, version)]
          == s.signals + [Announced(i.value, name, version), InterfaceAnnounced(interface, name, version)];
    }
  }

  // What a removal tells: the signal of the interface that the live global of that name has, if there is one,
  // then the one for any name.
  lemma {:induction false} RemoveTellsExactly(table: Table, events: seq<Event>, name: nat)
    requires UniqueNames(table, events)
    ensures var s, t := Run(table, events), Run(table, events + [Remove(name)]);
            && (forall k: nat | Live(table, events, k) && events[k].name == name ::
                  t.signals == s.signals + [Removed(Known(table, events[k]).interface, name), InterfaceRemoved(name)])
            && ((forall k: nat | Live(table, events, k) :: events[k].name != name) ==>
                  t.signals == s.signals + [InterfaceRemoved(name)])
  {
    var s := Run(table, events);
    assert (events + [Remove(name)])[..|events|] == events;
    var f := FirstNamed(s.globals, name);
    if f >= 0 {
      assert s.signals + [Removed(s.globals[f].interface, name)] + [InterfaceRemoved(name)]
          == s.signals + [Removed(s.globals[f].interface, name), InterfaceRemoved(name)];
      GlobalsAreLive(table, events);
      LiveGlobalAt(table, events, |events|, s.globals[f]);
    }
    forall k: nat | Live(table, events, k) && events[k].name == name
      ensures f >= 0 && s.globals[f] == Known(table, events[k])
    {
      LookupsAgree(table, events, k);
    }
  }
}
