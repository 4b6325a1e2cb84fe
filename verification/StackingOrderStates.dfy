/**
 The stacking order of PlasmaWindowManagement. Any number of stacking-order objects may be collecting
 windows at once; a finished one replaces the published list, as does an event that carries the whole
 list in one string.
 */
module StackingOrderStates {
  type ObjectId = nat
  type Uuid = string

  datatype State = State(published: seq<Uuid>, collecting: map<ObjectId, seq<Uuid>>, changes: nat)

  datatype Event =
    | Started(o: ObjectId)               // stackingOrder2Callback requests an object
    | Window(o: ObjectId, uuid: Uuid)
    | Done(o: ObjectId)
    | Uuids(joined: string)

  // QByteArray::split(';')
  function Split(s: string): (r: seq<Uuid>)
    ensures |r| >= 1
  {
    if s == [] then [[]]
    else
      var rest := Split(s[1..]);
      if s[0] == ';' then [[]] + rest else [[s[0]] + rest[0]] + rest[1..]
  }

  function Join(parts: seq<Uuid>): string {
    if parts == [] then []
    else if |parts| == 1 then parts[0]
    else parts[0] + ";" + Join(parts[1..])
  }

  lemma JoinPrepend(c: char, parts: seq<Uuid>)
    requires parts != []
    ensures Join([[c] + parts[0]] + parts[1..]) == [c] + Join(parts)
  {
    var p := [[c] + parts[0]] + parts[1..];
    if |parts| > 1 {
      var rest := Join(parts[1..]);
      assert p[1..] == parts[1..];
      assert [c] + parts[0] + ";" + rest == [c] + (parts[0] + ";" + rest);
    }
  }

  lemma JoinEmpty(parts: seq<Uuid>)
    requires parts != []
    ensures Join([[]] + parts) == ";" + Join(parts)
  {
    assert ([[]] + parts)[1..] == parts;
    assert [] + ";" + Join(parts) == ";" + Join(parts);
  }

  lemma {:induction false} JoinSplit(s: string)
    ensures Join(Split(s)) == s
  {
    if s != [] {
      JoinSplit(s[1..]);
      JoinPrepend(s[0], Split(s[1..]));
      JoinEmpty(Split(s[1..]));
    }
  }

  lemma {:induction false} SplitPart(part: Uuid, rest: string)
    requires ';' !in part
    ensures Split(part + ";" + rest) == [part] + Split(rest)
    ensures Split(part) == [part]
  {
    if part == [] {
      assert part + ";" + rest == ";" + rest;
      assert (";" + rest)[1..] == rest;
    } else {
      SplitPart(part[1..], rest);
      assert (part + ";" + rest)[1..] == part[1..] + ";" + rest;
      assert [part[0]] + part[1..] == part;
    }
  }

  // A list of uuids, none of which holds a separator, survives the wire.
  lemma {:induction false} SplitJoin(parts: seq<Uuid>)
    requires parts != [] && forall i | 0 <= i < |parts| :: ';' !in parts[i]
    ensures Split(Join(parts)) == parts
  {
    if |parts| == 1 {
      SplitPart(parts[0], []);
    } else {
      SplitJoin(parts[1..]);
      SplitPart(parts[0], Join(parts[1..]));
    }
  }

  // setStackingOrder
  function Publish(s: State, uuids: seq<Uuid>): State {
    if s.published == uuids then s else s.(published := uuids, changes := s.changes + 1)
  }

  function Step(s: State, e: Event): State {
    match e
    case Started(o) => s.(collecting := s.collecting[o := []])
    case Window(o, uuid) =>
      if o in s.collecting then s.(collecting := s.collecting[o := s.collecting[o] + [uuid]]) else s
    case Done(o) =>
      if o in s.collecting then Publish(s.(collecting := s.collecting - {o}), s.collecting[o]) else s
    case Uuids(joined) => Publish(s, Split(joined))
  }

  function Run(events: seq<Event>): State {
    if events == [] then State([], map[], 0)
    else Step(Run(events[..|events| - 1]), events[|events| - 1])
  }

  // ---------- what one object is told ----------

  function WindowsOf(events: seq<Event>, o: ObjectId): seq<Uuid> {
    if events == [] then []
    else
      var last := events[|events| - 1];
      if last.Window? && last.o == o then WindowsOf(events[..|events| - 1], o) + [last.uuid]
      else WindowsOf(events[..|events| - 1], o)
  }

  // Object o was created by event k and has neither finished nor been created again since.
  ghost predicate OpenSince(events: seq<Event>, o: ObjectId, k: nat) {
    && k < |events| && events[k] == Started(o)
    && forall j | k < j < |events| :: events[j] != Started(o) && events[j] != Done(o)
  }

  ghost predicate Open(events: seq<Event>, o: ObjectId) {
    exists k: nat :: OpenSince(events, o, k)
  }

  lemma OpenNext(events: seq<Event>, o: ObjectId, k: nat)
    requires events != []
    ensures var last := |events| - 1;
            OpenSince(events, o, k) <==>
              || (k == last && events[last] == Started(o))
              || (OpenSince(events[..last], o, k) && events[last] != Started(o) && events[last] != Done(o))
  {
  }

  // What an event does to the list of an object
  lemma StepCollects(s: State, e: Event, o: ObjectId)
    ensures var t := Step(s, e);
            && (o in t.collecting <==> e == Started(o) || (o in s.collecting && e != Done(o)))
            && (o in t.collecting ==>
                  t.collecting[o] == if e == Started(o) then []
                                     else if e.Window? && e.o == o then s.collecting[o] + [e.uuid]
                                     else s.collecting[o])
  {
  }

  lemma WindowsNext(events: seq<Event>, o: ObjectId, k: nat)
    requires k < |events| - 1
    ensures var last := |events| - 1;
            var before, e := WindowsOf(events[..last][k + 1..], o), events[last];
            WindowsOf(events[k + 1..], o) == if e.Window? && e.o == o then before + [e.uuid] else before
  {
    var last := |events| - 1;
    assert events[k + 1..][..last - k - 1] == events[..last][k + 1..];
  }

  lemma NoWindows(events: seq<Event>, o: ObjectId)
    ensures WindowsOf(events[|events|..], o) == []
  {
  }

  lemma {:induction false} CollectingIs(events: seq<Event>, o: ObjectId)
    ensures o in Run(events).collecting <==> Open(events, o)
    ensures forall k: nat | OpenSince(events, o, k) ::
      o in Run(events).collecting && Run(events).collecting[o] == WindowsOf(events[k + 1..], o)
  {
    if events == [] {
      assert !Open(events, o);
    } else {
      var last := |events| - 1;
      var before := events[..last];
      CollectingIs(before, o);
      forall k: nat ensures OpenSince(events, o, k) <==>
        || (k == last && events[last] == Started(o))
        || (k < last && OpenSince(before, o, k) && events[last] != Started(o) && events[last] != Done(o))
      {
        OpenNext(events, o, k);
      }
      var s, e := Run(before), events[last];
      StepCollects(s, e, o);
      hide OpenSince, Step, WindowsOf;
      if events[last] == Started(o) {
        assert OpenSince(events, o, last);
      }
      forall k: nat | OpenSince(events, o, k)
        ensures o in Run(events).collecting && Run(events).collecting[o] == WindowsOf(events[k + 1..], o)
      {
        if k < last {
          WindowsNext(events, o, k);
        } else {
          NoWindows(events, o);
        }
      }
    }
  }

  // ---------- the published list ----------

  // Event k publishes: it finishes an object that is collecting, or carries the list.
  ghost predicate Publishes(events: seq<Event>, k: nat) {
    k < |events| && (events[k].Uuids? || (events[k].Done? && Open(events[..k], events[k].o)))
  }

  ghost predicate LastPublishes(events: seq<Event>, k: nat) {
    Publishes(events, k) && forall j: nat | k < j < |events| :: !Publishes(events, j)
  }

  // The list of event k: all windows its object was told of, in order, or the parts of its string.
  ghost predicate IsListOf(list: seq<Uuid>, events: seq<Event>, k: nat)
    requires k < |events|
  {
    if events[k].Uuids? then list == Split(events[k].joined)
    else events[k].Done?
         && exists i: nat :: OpenSince(events[..k], events[k].o, i) && list == WindowsOf(events[i + 1..k], events[k].o)
  }

  lemma PublishedNow(events: seq<Event>)
    requires events != [] && Publishes(events, |events| - 1)
    ensures IsListOf(Run(events).published, events, |events| - 1)
  {
    var last := |events| - 1;
    if events[last].Done? {
      var o := events[last].o;
      CollectingIs(events[..last], o);
      var i: nat :| OpenSince(events[..last], o, i);
      assert events[..last][i + 1..] == events[i + 1..last];
    }
  }

  lemma NothingPublished(events: seq<Event>)
    requires events != [] && !Publishes(events, |events| - 1)
    ensures Run(events).published == Run(events[..|events| - 1]).published
    ensures Run(events).changes == Run(events[..|events| - 1]).changes
  {
    var last := |events| - 1;
    if events[last].Done? {
      CollectingIs(events[..last], events[last].o);
    }
  }

  lemma PublishesBefore(events: seq<Event>, n: nat, k: nat)
    requires k < n <= |events|
    ensures Publishes(events[..n], k) == Publishes(events, k)
  {
    assert events[..n][..k] == events[..k];
  }

  // However the objects interleave, the published list is always the complete list of the event that
  // published last, with nothing of any other object in it.
  lemma {:induction false} PublishedIsComplete(events: seq<Event>, k: nat)
    requires LastPublishes(events, k)
    ensures IsListOf(Run(events).published, events, k)
  {
    var last := |events| - 1;
    if k == last {
      PublishedNow(events);
    } else {
      var before := events[..last];
      forall j: nat | j < last ensures Publishes(before, j) == Publishes(events, j) {
        PublishesBefore(events, last, j);
      }
      assert LastPublishes(before, k);
      PublishedIsComplete(before, k);
      assert !Publishes(events, last);
      NothingPublished(events);
      ListOfPrefix(Run(before).published, events, last, k);
    }
  }

  lemma ListOfPrefix(list: seq<Uuid>, events: seq<Event>, n: nat, k: nat)
    requires k < n <= |events| && IsListOf(list, events[..n], k)
    ensures IsListOf(list, events, k)
  {
    var before := events[..n];
    assert before[..k] == events[..k];
    if !events[k].Uuids? {
      var i: nat :| OpenSince(before[..k], before[k].o, i) && list == WindowsOf(before[i + 1..k], before[k].o);
      assert before[i + 1..k] == events[i + 1..k];
      assert OpenSince(events[..k], events[k].o, i) && list == WindowsOf(events[i + 1..k], events[k].o);
    }
  }

  // Without an event that publishes the list stays empty.
  lemma {:induction false} EmptyUntilPublished(events: seq<Event>)
    requires forall k: nat | k < |events| :: !Publishes(events, k)
    ensures Run(events).published == []
  {
    if events != [] {
      var last := |events| - 1;
      forall k: nat | k < last ensures !Publishes(events[..last], k) {
        PublishesBefore(events, last, k);
        assert !Publishes(events, k);
      }
      EmptyUntilPublished(events[..last]);
      assert !Publishes(events, last);
      NothingPublished(events);
    }
  }

  // The change signal fires exactly when the published list differs from the one before.
  lemma SignalExactlyOnChange(s: State, e: Event)
    ensures Step(s, e).changes == s.changes + if Step(s, e).published != s.published then 1 else 0
  {
  }

  // ---------- interleaving ----------

  // The event is about object o.
  predicate Concerns(e: Event, o: ObjectId) {
    !e.Uuids? && e.o == o
  }

  // The events about object o alone
  function Only(events: seq<Event>, o: ObjectId): seq<Event> {
    if events == [] then []
    else
      var last := |events| - 1;
      if Concerns(events[last], o) then Only(events[..last], o) + [events[last]] else Only(events[..last], o)
  }

  ghost predicate SameFor(s: State, t: State, o: ObjectId) {
    && (o in s.collecting <==> o in t.collecting)
    && (o in s.collecting ==> s.collecting[o] == t.collecting[o])
  }

  lemma StepForObject(s: State, t: State, e: Event, o: ObjectId)
    requires SameFor(s, t, o)
    ensures SameFor(Step(s, e), if Concerns(e, o) then Step(t, e) else t, o)
  {
  }

  // What an object has collected is what it would have collected alone: all other events, of other objects
  // and of whole lists, can be left out.
  lemma {:induction false} OthersDoNotMatter(events: seq<Event>, o: ObjectId)
    ensures SameFor(Run(events), Run(Only(events, o)), o)
  {
    if events != [] {
      var last := |events| - 1;
      OthersDoNotMatter(events[..last], o);
      var alone := Only(events[..last], o);
      StepForObject(Run(events[..last]), Run(alone), events[last], o);
      assert (alone + [events[last]])[..|alone|] == alone;
    }
  }
}
