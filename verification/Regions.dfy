/** Region as a class; each method makes the step of RegionStates for its event. */
module Regions {
  import opened RegionStates

  class Region {
    var valid: bool
    var qtRegion: seq<Rect>
    ghost var server: seq<Request>    // the requests since the wl_region was created
    ghost const init: seq<Rect>
    ghost var history: seq<Event>

    ghost predicate Valid()
      reads this
    {
      AllPossible(init, history) && Run(init, history) == State(valid, qtRegion, server)
    }

    constructor (region: seq<Rect>)
      ensures Valid() && history == [] && init == region
    {
      valid, qtRegion, server, init, history := false, region, [], region, [];
    }

    ghost method Record(e: Event)
      requires AllPossible(init, history) && Possible(Run(init, history), e)
      requires Step(Run(init, history), e) == State(valid, qtRegion, server)
      modifies this`history
      ensures Valid() && history == old(history) + [e]
    {
      assert (history + [e])[..|history|] == history;
      history := history + [e];
    }

    method InstallRect(rect: Rect)
      modifies this`server
      ensures server == if valid then old(server) + [Add(rect)] else old(server)
    {
      if !valid {
        return;
      }
      server := server + [Add(rect)];
    }

    // installRegion: one request for each rectangle of the region
    method InstallRegion(region: seq<Rect>)
      modifies this`server
      ensures server == if valid then old(server) + Adds(region) else old(server)
    {
      var i := 0;
      while i < |region|
        invariant i <= |region|
        invariant server == if valid then old(server) + Adds(region[..i]) else old(server)
      {
        InstallRect(region[i]);
        assert Adds(region[..i + 1]) == Adds(region[..i]) + [Add(region[i])];
        i := i + 1;
      }
      assert region[..i] == region;
    }

    method UninstallRect(rect: Rect)
      modifies this`server
      ensures server == if valid then old(server) + [Subtract(rect)] else old(server)
    {
      if !valid {
        return;
      }
      server := server + [Subtract(rect)];
    }

    method UninstallRegion(region: seq<Rect>)
      modifies this`server
      ensures server == if valid then old(server) + Subtracts(region) else old(server)
    {
      var i := 0;
      while i < |region|
        invariant i <= |region|
        invariant server == if valid then old(server) + Subtracts(region[..i]) else old(server)
      {
        UninstallRect(region[i]);
        assert Subtracts(region[..i + 1]) == Subtracts(region[..i]) + [Subtract(region[i])];
        i := i + 1;
      }
      assert region[..i] == region;
    }

    // Iterates qtRegion in the rectangles QRegion chooses for it.
    method Setup(rects: seq<Rect>)
      requires Valid() && !valid && Proper(rects) && SamePoints(rects, qtRegion)
      modifies this
      ensures Valid() && history == old(history) + [Event.Setup(rects)]
    {
      valid, server := true, [];
      InstallRegion(rects);
      Record(Event.Setup(rects));
    }

    // release and destroy
    method Release()
      requires Valid()
      modifies this
      ensures Valid() && history == old(history) + [Event.Release]
    {
      valid := false;
      Record(Event.Release);
    }

    method AddRegion(region: seq<Rect>)
      requires Valid() && Proper(region)
      modifies this
      ensures Valid() && history == old(history) + [Event.AddRegion(region)]
    {
      qtRegion := qtRegion + region;
      InstallRegion(region);
      Record(Event.AddRegion(region));
    }

    method AddRect(rect: Rect)
      requires Valid()
      modifies this
      ensures Valid() && history == old(history) + [Event.AddRect(rect)]
    {
      if NonEmpty(rect) {
        qtRegion := qtRegion + [rect];
      }
      InstallRect(rect);
      Record(Event.AddRect(rect));
    }

    method SubtractRegion(region: seq<Rect>)
      requires Valid() && Proper(region)
      modifies this
      ensures Valid() && history == old(history) + [Event.SubtractRegion(region)]
    {
      qtRegion := Subtracted(qtRegion, region);
      UninstallRegion(region);
      Record(Event.SubtractRegion(region));
    }

    method SubtractRect(rect: Rect)
      requires Valid()
      modifies this
      ensures Valid() && history == old(history) + [Event.SubtractRect(rect)]
    {
      qtRegion := CutAll(qtRegion, rect);
      UninstallRect(rect);
      Record(Event.SubtractRect(rect));
    }
  }
}
