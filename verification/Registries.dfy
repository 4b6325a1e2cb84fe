/** Registry as a class: callbacks make the steps of RegistryGlobals, lookups are its functions. */
module Registries {
  import opened Collections
  import opened RegistryGlobals

  class Registry {
    const table: Table
    var interfaces: seq<Global>    // m_interfaces
    ghost var signals: seq<Signal>
    ghost var history: seq<Event>

    ghost predicate Valid()
      reads this
    {
      Run(table, history) == State(interfaces, signals)
    }

    constructor (table: Table)
      ensures Valid() && history == [] && this.table == table
    {
      this.table := table;
      interfaces, signals, history := [], [], [];
    }

    ghost method Record(e: Event)
      requires Step(table, Run(table, history), e) == State(interfaces, signals)
      modifies this`history
      ensures Valid() && history == old(history) + [e]
    {
      assert (history + [e])[..|history|] == history;
      history := history + [e];
    }

    // nameToInterface
    method NameToInterface(name: string) returns (r: Option<nat>)
      ensures r == InterfaceOf(table, name)
    {
      var k := 0;
      while k < |table|
        invariant k <= |table| && InterfaceOf(table, name) == InterfaceOf(table[k..], name)
      {
        if table[k].name == name {
          return Some(table[k].interface);
        }
        k := k + 1;
      }
      return None;
    }

    // handleAnnounce
    method HandleAnnounce(name: nat, interface: string, version: nat)
      requires Valid()
      modifies this
      ensures Valid() && history == old(history) + [Announce(name, interface, version)]
    {
      var i := NameToInterface(interface);
      if i.Some? {
        interfaces := interfaces + [Global(i.value, name, version)];
        signals := signals + [Announced(i.value, name, version)];
      }
      signals := signals + [InterfaceAnnounced(interface, name, version)];
      Record(Announce(name, interface, version));
    }

    // The find_if over names that handleRemove and interfaceForName share
    method FindName(name: nat) returns (k: int)
      ensures k == FirstNamed(interfaces, name)
    {
      k := 0;
      while k < |interfaces|
        invariant 0 <= k <= |interfaces| && forall j | 0 <= j < k :: interfaces[j].name != name
      {
        if interfaces[k].name == name {
          return;
        }
        k := k + 1;
      }
      k := -1;
    }

    // handleRemove
    method HandleRemove(name: nat)
      requires Valid()
      modifies this
      ensures Valid() && history == old(history) + [Remove(name)]
    {
      var k := FindName(name);
      if k != -1 {
        var data := interfaces[k];
        interfaces := RemoveAt(interfaces, k);
        signals := signals + [Removed(data.interface, data.name)];
      }
      signals := signals + [InterfaceRemoved(name)];
      Record(Remove(name));
    }

    method HasInterface(interface: nat) returns (found: bool)
      ensures found <==> exists g :: g in interfaces && g.interface == interface
    {
      var k := 0;
      while k < |interfaces|
        invariant k <= |interfaces| && forall j | 0 <= j < k :: interfaces[j].interface != interface
      {
        if interfaces[k].interface == interface {
          return true;
        }
        k := k + 1;
      }
      return false;
    }

    method AllOf(interface: nat) returns (all: seq<Global>)
      ensures all == Interfaces(interfaces, interface)
    {
      all := [];
      var k := 0;
      while k < |interfaces|
        invariant k <= |interfaces| && all == Interfaces(interfaces[..k], interface)
      {
        assert interfaces[..k + 1][..k] == interfaces[..k];
        if interfaces[k].interface == interface {
          all := all + [interfaces[k]];
        }
        k := k + 1;
      }
      assert interfaces[..k] == interfaces;
    }

    // Private::interface: with unique names, the last live announcement
    method Interface(interface: nat) returns (name: nat, version: nat)
      requires Valid()
      ensures (name, version) == RegistryGlobals.Interface(Run(table, history).globals, interface)
    {
      var all := AllOf(interface);
      if all == [] {
        return 0, 0;
      }
      return all[|all| - 1].name, all[|all| - 1].version;
    }

    method InterfaceForName(name: nat) returns (interface: Option<nat>)
      requires Valid()
      ensures interface.None? ==> forall g | g in interfaces :: g.name != name
      ensures interface.Some? ==> exists g :: g in interfaces && g.name == name && g.interface == interface.value
      ensures UniqueNames(table, history) ==>
        forall k: nat | k < |history| && Live(table, history, k) && history[k].name == name ::
          interface == Some(Known(table, history[k]).interface)
    {
      var k := FindName(name);
      forall l: nat | l < |history| && UniqueNames(table, history) && Live(table, history, l) && history[l].name == name
        ensures k >= 0 && interfaces[k] == Known(table, history[l])
      {
        LookupsAgree(table, history, l);
      }
      interface := if k == -1 then None else Some(interfaces[k].interface);
    }

    // Private::bind, with the request it sends
    method Bind(interface: nat, name: nat, version: nat) returns (bound: Option<Binding>)
      ensures bound == RegistryGlobals.Bind(interfaces, interface, name, version)
    {
      var k := 0;
      while k < |interfaces|
        invariant k <= |interfaces| && forall j | 0 <= j < k :: !Offers(interfaces[j], interface, name, version)
      {
        if Offers(interfaces[k], interface, name, version) {
          return Some(Binding(name, interface, version));
        }
        k := k + 1;
      }
      return None;
    }

    // The functions that BIND2 generates
    method BindCapped(interface: nat, name: nat, version: nat) returns (bound: Option<Binding>)
      requires Valid() && UniqueNames(table, history)
      ensures bound.Some? <==> Bindable(table, history, interface, name, Capped(table, interface, version))
      ensures bound.Some? ==> bound.value == Binding(name, interface, Capped(table, interface, version))
    {
      BindExact(table, history, interface, name, version);
      bound := Bind(interface, name, Capped(table, interface, version));
    }
  }
}
