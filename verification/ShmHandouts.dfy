/**
 Which buffer a request gets, read off the events alone: what was said of a buffer last decides whether it
 is handed out again, and the first one that qualifies is.
 */
module ShmHandouts {
  import opened Collections
  import opened ShmPoolState
  import opened ShmPoolTheorems

  predicate Clears(e: Event) {
    e.ReleasePool? || e.DestroyPool?
  }

  // Since the pool was last emptied buffer i has been handed out; its shape is that of the request.
  ghost function SaidShape(events: seq<Event>, i: nat): Option<Shape> {
    if events == [] then None
    else
      var last := |events| - 1;
      if Clears(events[last]) then None
      else if HandedAt(events, last) == Some(i) && Asked(events[last]).Some? then Some(Asked(events[last]).value.0)
      else SaidShape(events[..last], i)
  }

  // The last word on whether buffer i is released: the release event, or a hand-out.
  ghost function SaidReleased(events: seq<Event>, i: nat): bool {
    events != [] &&
    (var last := |events| - 1;
     if events[last].SetReleased? && events[last].i == i then events[last].released
     else !Clears(events[last]) && HandedAt(events, last) != Some(i) && SaidReleased(events[..last], i))
  }

  // The last word on whether buffer i is used
  ghost function SaidUsed(events: seq<Event>, i: nat): bool {
    events != [] &&
    (var last := |events| - 1;
     if events[last].SetUsed? && events[last].i == i then events[last].used
     else !Clears(events[last]) && SaidUsed(events[..last], i))
  }

  ghost predicate AsSaid(p: Pool, events: seq<Event>, i: nat) {
    if i < |p.buffers| then
      && SaidShape(events, i) == Some(p.buffers[i].shape)
      && SaidReleased(events, i) == p.buffers[i].released && SaidUsed(events, i) == p.buffers[i].used
    else SaidShape(events, i) == None && !SaidReleased(events, i) && !SaidUsed(events, i)
  }

  // ---------- what one event does to a buffer ----------

  lemma HandedAfter(events: seq<Event>, e: Event)
    requires Outcome(events).Some? && Possible(Outcome(events).value, e)
    ensures HandedAt(events + [e], |events|) == Handed(Outcome(events).value, e)
  {
    assert (events + [e])[..|events|] == events;
  }

  lemma SaidNext(events: seq<Event>, e: Event, i: nat)
    requires Outcome(events).Some? && Possible(Outcome(events).value, e)
    ensures var handed := Handed(Outcome(events).value, e) == Some(i);
            && SaidShape(events + [e], i) ==
                 (if Clears(e) then None
                  else if handed && Asked(e).Some? then Some(Asked(e).value.0) else SaidShape(events, i))
            && SaidReleased(events + [e], i) ==
                 (if e.SetReleased? && e.i == i then e.released
                  else !Clears(e) && !handed && SaidReleased(events, i))
            && SaidUsed(events + [e], i) ==
                 (if e.SetUsed? && e.i == i then e.used else !Clears(e) && SaidUsed(events, i))
  {
    HandedAfter(events, e);
    hide HandedAt, Outcome, Handed;
    assert (events + [e])[..|events|] == events;
  }

  // What a request leaves of the buffers
  lemma TakeLeaves(p: Pool, g: Shape, sys: System, i: nat)
    requires Inv(p) && p.valid && Sound(g)
    ensures var (q, r) := Take(p, g, sys);
            && |q.buffers| == |p.buffers| + (if r == Some(|p.buffers|) then 1 else 0)
            && (i < |q.buffers| ==>
                  q.buffers[i] == if r == Some(i) && i < |p.buffers| then p.buffers[i].(released := false)
                                  else if i < |p.buffers| then p.buffers[i]
                                  else Buffer(g, p.offset, false, false))
            && (r.Some? ==> r.value <= |p.buffers|)
            && (r == Some(i) && i < |p.buffers| ==> p.buffers[i].shape == g)
  {
  }

  lemma BuffersAfter(p: Pool, e: Event)
    requires Inv(p) && Possible(p, e) && !e.GetBuffer? && !e.CreateBuffer?
    ensures var q := Step(p, e);
            && Handed(p, e) == None
            && (Clears(e) ==> q.buffers == [])
            && (e.SetReleased? ==> q.buffers == p.buffers[e.i := p.buffers[e.i].(released := e.released)])
            && (e.SetUsed? ==> q.buffers == p.buffers[e.i := p.buffers[e.i].(used := e.used)])
            && (!Clears(e) && !e.SetReleased? && !e.SetUsed? ==> q.buffers == p.buffers)
  {
  }

  lemma RequestAfter(p: Pool, e: Event)
    requires Inv(p) && Possible(p, e) && (e.GetBuffer? || e.CreateBuffer?)
    ensures Asked(e).None? || !p.valid ==> Step(p, e) == p && Handed(p, e) == None
    ensures Asked(e).Some? && p.valid ==>
      var (g, sys) := Asked(e).value;
      Sound(g) && Step(p, e).buffers == Take(p, g, sys).0.buffers && Handed(p, e) == Take(p, g, sys).1
  {
    if Asked(e).Some? && p.valid {
      TakeKeeps(p, Asked(e).value.0, Asked(e).value.1);
    }
  }

  lemma StepAsSaid(p: Pool, events: seq<Event>, e: Event, i: nat)
    requires Outcome(events) == Some(p) && Possible(p, e) && AsSaid(p, events, i)
    ensures AsSaid(Step(p, e), events + [e], i)
  {
    SaidNext(events, e, i);
    hide SaidShape, SaidReleased, SaidUsed, Outcome, Inv, Step, Take;
    if e.GetBuffer? || e.CreateBuffer? {
      RequestAfter(p, e);
      if Asked(e).Some? && p.valid {
        TakeLeaves(p, Asked(e).value.0, Asked(e).value.1, i);
      }
    } else {
      BuffersAfter(p, e);
    }
  }

  lemma NothingSaid(i: nat)
    ensures Outcome([]).Some? && AsSaid(Outcome([]).value, [], i)
  {
  }

  // Over every run: a buffer exists if it was handed out since the pool was last emptied, with the shape
  // asked for, and its flags are the last word on them.
  lemma {:induction false} BuffersAreSaid(events: seq<Event>, i: nat)
    requires Outcome(events).Some?
    ensures AsSaid(Outcome(events).value, events, i)
    decreases |events|
  {
    if events == [] {
      NothingSaid(i);
    } else {
      var before, e := events[..|events| - 1], events[|events| - 1];
      BuffersAreSaid(before, i);
      assert before + [e] == events;
      hide AsSaid, Step, Possible, Inv;
      StepAsSaid(Outcome(before).value, before, e, i);
    }
  }

  // ---------- requests ----------

  // By what was said, buffer i can be handed out again to a request of this shape.
  ghost predicate Reusable(events: seq<Event>, i: nat, g: Shape) {
    SaidShape(events, i) == Some(g) && SaidReleased(events, i) && !SaidUsed(events, i)
  }

  // A request gets the first reusable buffer. Without one it gets a new buffer, numbered behind all others,
  // unless a system call that it needs fails: growing and mapping the file if the request does not fit into
  // the room left, and making the native buffer.
  lemma {:induction false} RequestsAreServedExactly(events: seq<Event>, g: Shape, sys: System, i: nat)
    requires Outcome(events).Some? && Possible(Outcome(events).value, GetBuffer(g, sys))
    ensures var p := Outcome(events).value;
            var none := forall k: nat | k < |p.buffers| :: !Reusable(events, k, g);
            var fits := p.offset + g.height * g.stride <= p.size;
            HandedAt(events + [GetBuffer(g, sys)], |events|) == Some(i) <==>
              || (Reusable(events, i, g) && forall k: nat | k < i :: !Reusable(events, k, g))
              || (none && SaidShape(events, i) == None && (forall k: nat | k < i :: SaidShape(events, k).Some?)
                  && sys.nativeOk && (fits || (sys.truncateOk && sys.mapOk)))
  {
    var p := Outcome(events).value;
    HandedAfter(events, GetBuffer(g, sys));
    HandedIsTaken(p, g, sys);
    FirstFitExact(p, g, sys, i);
    RefusedIs(p, g, sys);
    NoneReusable(events, g, |p.buffers|);
    if i <= |p.buffers| {
      NoneReusable(events, g, i);
    }
    ReusableIsFree(events, i, g);
    NextNumber(events, g, i);
    hide SaidShape, Reusable, Outcome, HandedAt, Take, Free, Handed, Refused, Possible;
  }

  lemma NoneReusable(events: seq<Event>, g: Shape, n: nat)
    requires Outcome(events).Some? && n <= |Outcome(events).value.buffers|
    ensures (forall k: nat | k < n :: !Reusable(events, k, g))
       <==> (forall k | 0 <= k < n :: !Free(Outcome(events).value.buffers[k], g))
  {
    hide Reusable, Free, Outcome;
    forall k: nat | k < n ensures Reusable(events, k, g) <==> Free(Outcome(events).value.buffers[k], g) {
      ReusableIsFree(events, k, g);
    }
  }

  // The next free number is that of the next new buffer.
  lemma NextNumber(events: seq<Event>, g: Shape, i: nat)
    requires Outcome(events).Some?
    ensures SaidShape(events, i) == None && (forall k: nat | k < i :: SaidShape(events, k).Some?)
       <==> i == |Outcome(events).value.buffers|
  {
    hide SaidShape, Outcome, Reusable;
    var n := |Outcome(events).value.buffers|;
    ReusableIsFree(events, i, g);
    if i == n {
      forall k: nat | k < i ensures SaidShape(events, k).Some? {
        ReusableIsFree(events, k, g);
      }
    } else if n < i {
      ReusableIsFree(events, n, g);
    }
  }

  lemma HandedIsTaken(p: Pool, g: Shape, sys: System)
    requires Inv(p) && Possible(p, GetBuffer(g, sys))
    ensures p.valid && Sound(g) && Handed(p, GetBuffer(g, sys)) == Take(p, g, sys).1
  {
  }

  lemma RefusedIs(p: Pool, g: Shape, sys: System)
    ensures Refused(p, GetBuffer(g, sys)) <==>
      !(sys.nativeOk && (p.offset + g.height * g.stride <= p.size || (sys.truncateOk && sys.mapOk)))
  {
  }

  lemma ReusableIsFree(events: seq<Event>, k: nat, g: Shape)
    requires Outcome(events).Some?
    ensures var p := Outcome(events).value;
            && (Reusable(events, k, g) <==> k < |p.buffers| && Free(p.buffers[k], g))
            && (SaidShape(events, k).Some? <==> k < |p.buffers|)
  {
    hide SaidShape, SaidReleased, SaidUsed, Outcome;
    BuffersAreSaid(events, k);
  }

  // createBuffer with raw bytes gets what getBuffer would, if the pool is valid and the size not empty.
  lemma CreateIsServedAlike(events: seq<Event>, g: Shape, src: seq<Byte>, sys: System)
    requires Outcome(events).Some? && Possible(Outcome(events).value, CreateBuffer(g, src, sys))
    ensures var p := Outcome(events).value;
            HandedAt(events + [CreateBuffer(g, src, sys)], |events|) ==
              if p.valid && g.width > 0 && g.height > 0 then HandedAt(events + [GetBuffer(g, sys)], |events|) else None
    ensures var p, created := Outcome(events).value, Outcome(events + [CreateBuffer(g, src, sys)]);
            if p.valid && g.width > 0 && g.height > 0 then
              var got := Outcome(events + [GetBuffer(g, sys)]);
              created.Some? && got.Some? && created.value == got.value.(file := created.value.file)
            else created == Some(p)
  {
    var p, create, get := Outcome(events).value, CreateBuffer(g, src, sys), GetBuffer(g, sys);
    CreateIsGetAndCopy(p, g, src, sys);
    HandedAfter(events, create);
    OutcomeAfter(events, create);
    hide Outcome, HandedAt, Possible, Inv, Step, Handed;
    if p.valid && g.width > 0 && g.height > 0 {
      HandedAfter(events, get);
      OutcomeAfter(events, get);
    }
  }

  lemma OutcomeAfter(events: seq<Event>, e: Event)
    requires Outcome(events).Some? && Possible(Outcome(events).value, e)
    ensures Outcome(events + [e]) == Some(Step(Outcome(events).value, e))
  {
    assert (events + [e])[..|events|] == events;
  }

  lemma CreateIsGetAndCopy(p: Pool, g: Shape, src: seq<Byte>, sys: System)
    requires Inv(p) && Possible(p, CreateBuffer(g, src, sys))
    ensures var create, get := CreateBuffer(g, src, sys), GetBuffer(g, sys);
            if p.valid && g.width > 0 && g.height > 0 then
              && Possible(p, get) && Handed(p, create) == Handed(p, get)
              && Step(p, create) == Step(p, get).(file := Step(p, create).file)
            else Handed(p, create) == None && Step(p, create) == p
  {
    if p.valid && !IsEmpty(g) {
      TakeKeeps(p, g, sys);
      hide Take, Inv;
    }
  }

  // What a served or refused request does to the pool besides
  lemma RequestsGrowExactly(events: seq<Event>, g: Shape, sys: System)
    requires Outcome(events).Some? && Possible(Outcome(events).value, GetBuffer(g, sys))
    ensures Outcome(events + [GetBuffer(g, sys)]).Some?
    ensures var p, q := Outcome(events).value, Outcome(events + [GetBuffer(g, sys)]).value;
            var n := g.height * g.stride;
            var none := forall k: nat | k < |p.buffers| :: !Reusable(events, k, g);
            && q.size == p.size + (if none && p.offset + n > p.size && sys.truncateOk then n else 0)
            && q.mapped == (if none && p.offset + n > p.size && sys.truncateOk then sys.mapOk else p.mapped)
            && q.offset == p.offset +
                 (if HandedAt(events + [GetBuffer(g, sys)], |events|) == Some(|p.buffers|) then n else 0)
  {
    var p, e := Outcome(events).value, GetBuffer(g, sys);
    assert (events + [e])[..|events|] == events;
    HandedAfter(events, e);
    forall k: nat | k < |p.buffers| ensures Reusable(events, k, g) <==> Free(p.buffers[k], g) {
      BuffersAreSaid(events, k);
    }
    hide Reusable, HandedAt;
    assert Outcome(events + [e]) == Some(Take(p, g, sys).0);
    TakeBooks(p, g, sys);
  }

  // ---------- used buffers ----------

  lemma PrefixOf(events: seq<Event>, m: nat, n: nat)
    requires m < n <= |events|
    ensures events[..n][..m] == events[..m] && events[..n][m] == events[m]
  {
  }

  lemma {:induction false} StaysUsed(events: seq<Event>, k: nat, n: nat, i: nat)
    requires k < n <= |events| && events[k] == SetUsed(i, true)
    requires forall m | k < m < n :: events[m] != SetUsed(i, false) && !Clears(events[m])
    ensures SaidUsed(events[..n], i)
    decreases n
  {
    PrefixOf(events, n - 1, n);
    if k < n - 1 {
      StaysUsed(events, k, n - 1, i);
    }
  }

  // While its user marks a buffer as used, nobody else gets it.
  lemma {:induction false} UsedIsNotHandedOut(events: seq<Event>, k: nat, l: nat, i: nat)
    requires Outcome(events).Some? && k < l < |events| && events[k] == SetUsed(i, true)
    requires forall m | k < m < l :: events[m] != SetUsed(i, false) && !Clears(events[m])
    ensures HandedAt(events, l) != Some(i)
  {
    StaysUsed(events, k, l, i);
    Prefix(events, l);
    BuffersAreSaid(events[..l], i);
    var p := Outcome(events[..l]).value;
    if HandedAt(events, l) == Some(i) {
      HandedIsBusy(p, events[l]);
    }
  }

  // ---------- the life of the pool ----------

  // Bound since the last setup, valid if that succeeded
  function SaidBound(events: seq<Event>): Option<bool> {
    if events == [] then None
    else
      var e := events[|events| - 1];
      if e.Setup? then Some(e.ok) else if Clears(e) then None else SaidBound(events[..|events| - 1])
  }

  lemma {:induction false} LifeIsSaid(events: seq<Event>)
    requires Outcome(events).Some?
    ensures var p := Outcome(events).value;
            && p.bound == SaidBound(events).Some? && p.valid == (SaidBound(events) == Some(true))
            && (p.valid || p.buffers == [])
    decreases |events|
  {
    if events != [] {
      LifeIsSaid(events[..|events| - 1]);
      var p, e := Outcome(events[..|events| - 1]).value, events[|events| - 1];
      StepLives(p, e);
    }
  }

  // Only requests change the size; setup, release and destroy keep it.
  lemma StepLives(p: Pool, e: Event)
    requires Inv(p) && Possible(p, e)
    ensures var q := Step(p, e);
            && q.bound == (e.Setup? || (p.bound && !Clears(e)))
            && q.valid == (if e.Setup? then e.ok else p.valid && !Clears(e))
            && (Asked(e).None? ==> q.mapped == if e.Setup? then e.ok else p.mapped && !Clears(e))
            && (Asked(e).None? ==> q.size == p.size)
  {
    if Asked(e).Some? && p.valid {
      TakeKeeps(p, Asked(e).value.0, Asked(e).value.1);
    }
  }
}
