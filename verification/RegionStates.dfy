/**
 A Region and the server's copy of it. The client's region is a list of rectangles that stands for the
 points in any of them; the server knows the requests sent since the wl_region was created and applies
 them in order to an empty region (interface wl_region of the Wayland core protocol).
 */
module RegionStates {
  datatype Rect = Rect(x: int, y: int, width: int, height: int)

  datatype Point = Point(x: int, y: int)

  predicate In(p: Point, r: Rect) {
    r.x <= p.x < r.x + r.width && r.y <= p.y < r.y + r.height
  }

  predicate NonEmpty(r: Rect) {
    r.width > 0 && r.height > 0
  }

  predicate Proper(rs: seq<Rect>) {
    forall i | 0 <= i < |rs| :: NonEmpty(rs[i])
  }

  // Membership in a QRegion
  predicate Has(rs: seq<Rect>, p: Point) {
    exists i :: 0 <= i < |rs| && In(p, rs[i])
  }

  lemma HasAppend(a: seq<Rect>, b: seq<Rect>, p: Point)
    ensures Has(a + b, p) <==> Has(a, p) || Has(b, p)
  {
    if Has(a, p) {
      var i :| 0 <= i < |a| && In(p, a[i]);
      assert (a + b)[i] == a[i];
    }
    if Has(b, p) {
      var i :| 0 <= i < |b| && In(p, b[i]);
      assert (a + b)[|a| + i] == b[i];
    }
  }

  function Min(a: int, b: int): int { if a < b then a else b }
  function Max(a: int, b: int): int { if a > b then a else b }

  function Keep(r: Rect): seq<Rect> {
    if NonEmpty(r) then [r] else []
  }

  lemma KeepHas(r: Rect, p: Point)
    ensures Has(Keep(r), p) <==> In(p, r)
  {
    if In(p, r) {
      assert In(p, Keep(r)[0]);
    }
  }

  // What a hole leaves of a rectangle: the parts above, below, left and right of it.
  function Cut(r: Rect, hole: Rect): seq<Rect> {
    var x1, x2 := Max(r.x, hole.x), Min(r.x + r.width, hole.x + hole.width);
    var y1, y2 := Max(r.y, hole.y), Min(r.y + r.height, hole.y + hole.height);
    if x1 >= x2 || y1 >= y2 then [r]
    else
      Keep(Rect(r.x, r.y, r.width, y1 - r.y)) + Keep(Rect(r.x, y2, r.width, r.y + r.height - y2))
      + Keep(Rect(r.x, y1, x1 - r.x, y2 - y1)) + Keep(Rect(x2, y1, r.x + r.width - x2, y2 - y1))
  }

  lemma FourParts(a: Rect, b: Rect, c: Rect, d: Rect, p: Point)
    ensures Has(Keep(a) + Keep(b) + Keep(c) + Keep(d), p) <==> In(p, a) || In(p, b) || In(p, c) || In(p, d)
  {
    KeepHas(a, p);
    KeepHas(b, p);
    KeepHas(c, p);
    KeepHas(d, p);
    HasAppend(Keep(a), Keep(b), p);
    HasAppend(Keep(a) + Keep(b), Keep(c), p);
    HasAppend(Keep(a) + Keep(b) + Keep(c), Keep(d), p);
  }

  lemma OneRect(r: Rect, p: Point)
    ensures Has([r], p) <==> In(p, r)
  {
    if In(p, r) {
      assert In(p, [r][0]);
    }
  }

  lemma CutHas(r: Rect, hole: Rect, p: Point)
    ensures Has(Cut(r, hole), p) <==> In(p, r) && !In(p, hole)
    ensures NonEmpty(r) ==> Proper(Cut(r, hole))
  {
    var x1, x2 := Max(r.x, hole.x), Min(r.x + r.width, hole.x + hole.width);
    var y1, y2 := Max(r.y, hole.y), Min(r.y + r.height, hole.y + hole.height);
    if x1 >= x2 || y1 >= y2 {
      OneRect(r, p);
    } else {
      FourParts(Rect(r.x, r.y, r.width, y1 - r.y), Rect(r.x, y2, r.width, r.y + r.height - y2),
                Rect(r.x, y1, x1 - r.x, y2 - y1), Rect(x2, y1, r.x + r.width - x2, y2 - y1), p);
    }
  }

  lemma HasLast(rs: seq<Rect>, p: Point)
    requires rs != []
    ensures Has(rs, p) <==> Has(rs[..|rs| - 1], p) || In(p, rs[|rs| - 1])
  {
    var last := |rs| - 1;
    HasAppend(rs[..last], [rs[last]], p);
    OneRect(rs[last], p);
    assert rs == rs[..last] + [rs[last]];
  }

  function CutAll(rs: seq<Rect>, hole: Rect): seq<Rect> {
    if rs == [] then [] else CutAll(rs[..|rs| - 1], hole) + Cut(rs[|rs| - 1], hole)
  }

  lemma {:induction false} CutAllHas(rs: seq<Rect>, hole: Rect, p: Point)
    ensures Has(CutAll(rs, hole), p) <==> Has(rs, p) && !In(p, hole)
    ensures Proper(rs) ==> Proper(CutAll(rs, hole))
  {
    if rs != [] {
      var last := |rs| - 1;
      CutAllHas(rs[..last], hole, p);
      CutHas(rs[last], hole, p);
      HasAppend(CutAll(rs[..last], hole), Cut(rs[last], hole), p);
      HasLast(rs, p);
    }
  }

  // QRegion::subtracted
  function Subtracted(rs: seq<Rect>, holes: seq<Rect>): seq<Rect> {
    if holes == [] then rs
    else CutAll(Subtracted(rs, holes[..|holes| - 1]), holes[|holes| - 1])
  }

  lemma {:induction false} SubtractedHas(rs: seq<Rect>, holes: seq<Rect>, p: Point)
    ensures Has(Subtracted(rs, holes), p) <==> Has(rs, p) && !Has(holes, p)
    ensures Proper(rs) ==> Proper(Subtracted(rs, holes))
  {
    if holes != [] {
      var last := |holes| - 1;
      SubtractedHas(rs, holes[..last], p);
      CutAllHas(Subtracted(rs, holes[..last]), holes[last], p);
      HasLast(holes, p);
    }
  }

  // ---------- the server ----------

  datatype Request = Add(rect: Rect) | Subtract(rect: Rect)

  // A point is in the server's region if the last request that concerns it added it.
  predicate ServerHas(requests: seq<Request>, p: Point) {
    requests != [] &&
    (var last := requests[|requests| - 1];
     if In(p, last.rect) then last.Add? else ServerHas(requests[..|requests| - 1], p))
  }

  function Adds(rs: seq<Rect>): seq<Request> {
    seq(|rs|, i requires 0 <= i < |rs| => Add(rs[i]))
  }

  function Subtracts(rs: seq<Rect>): seq<Request> {
    seq(|rs|, i requires 0 <= i < |rs| => Subtract(rs[i]))
  }

  lemma {:induction false} ServerAdds(requests: seq<Request>, rs: seq<Rect>, p: Point)
    ensures ServerHas(requests + Adds(rs), p) <==> ServerHas(requests, p) || Has(rs, p)
  {
    if rs == [] {
      assert requests + Adds(rs) == requests;
    } else {
      var last := |rs| - 1;
      ServerAdds(requests, rs[..last], p);
      var all := requests + Adds(rs);
      assert all[..|all| - 1] == requests + Adds(rs[..last]);
      HasLast(rs, p);
    }
  }

  lemma {:induction false} ServerSubtracts(requests: seq<Request>, rs: seq<Rect>, p: Point)
    ensures ServerHas(requests + Subtracts(rs), p) <==> ServerHas(requests, p) && !Has(rs, p)
  {
    if rs == [] {
      assert requests + Subtracts(rs) == requests;
    } else {
      var last := |rs| - 1;
      ServerSubtracts(requests, rs[..last], p);
      var all := requests + Subtracts(rs);
      assert all[..|all| - 1] == requests + Subtracts(rs[..last]);
      HasLast(rs, p);
    }
  }

  // ---------- events ----------

  datatype State = State(valid: bool, region: seq<Rect>, server: seq<Request>)

  datatype Event =
    | Setup(rects: seq<Rect>)    // the rectangles in which the region is iterated
    | Release
    | AddRegion(rects: seq<Rect>)
    | SubtractRegion(rects: seq<Rect>)
    | AddRect(rect: Rect)
    | SubtractRect(rect: Rect)

  ghost predicate SamePoints(a: seq<Rect>, b: seq<Rect>) {
    forall p: Point :: Has(a, p) <==> Has(b, p)
  }

  // Setup needs a wrapper that holds nothing, and iterates the region in some non-empty rectangles that
  // make it up. The rectangles of a region are not empty; a rectangle that is passed alone may be.
  ghost predicate Possible(s: State, e: Event) {
    match e
    case Setup(rects) => !s.valid && Proper(rects) && SamePoints(rects, s.region)
    case Release => true
    case AddRegion(rects) => Proper(rects)
    case SubtractRegion(rects) => Proper(rects)
    case _ => true
  }

  function Sent(s: State, requests: seq<Request>): seq<Request> {
    if s.valid then s.server + requests else s.server
  }

  function Step(s: State, e: Event): State {
    match e
    case Setup(rects) => State(true, s.region, Adds(rects))
    case Release => s.(valid := false)
    case AddRegion(rects) => s.(region := s.region + rects, server := Sent(s, Adds(rects)))
    case SubtractRegion(rects) => s.(region := Subtracted(s.region, rects), server := Sent(s, Subtracts(rects)))
    case AddRect(rect) => s.(region := s.region + Keep(rect), server := Sent(s, [Add(rect)]))
    case SubtractRect(rect) => s.(region := CutAll(s.region, rect), server := Sent(s, [Subtract(rect)]))
  }

  // The state after the events, for a wrapper constructed with an initial region.
  function Run(init: seq<Rect>, events: seq<Event>): State {
    if events == [] then State(false, init, [])
    else Step(Run(init, events[..|events| - 1]), events[|events| - 1])
  }

  ghost predicate AllPossible(init: seq<Rect>, events: seq<Event>) {
    events == [] ||
    (AllPossible(init, events[..|events| - 1]) && Possible(Run(init, events[..|events| - 1]), events[|events| - 1]))
  }

  // ---------- the mirror ----------

  lemma StepMirrors(s: State, e: Event, p: Point)
    requires Possible(s, e)
    requires s.valid ==> (ServerHas(s.server, p) <==> Has(s.region, p))
    ensures var t := Step(s, e); t.valid ==> (ServerHas(t.server, p) <==> Has(t.region, p))
  {
    match e
    case Setup(rects) =>
      ServerAdds([], rects, p);
      assert [] + Adds(rects) == Adds(rects);
    case Release =>
    case AddRegion(rects) =>
      ServerAdds(s.server, rects, p);
      HasAppend(s.region, rects, p);
    case SubtractRegion(rects) =>
      ServerSubtracts(s.server, rects, p);
      SubtractedHas(s.region, rects, p);
    case AddRect(rect) =>
      ServerNext(s.server, Add(rect), p);
      HasAppend(s.region, Keep(rect), p);
      KeepHas(rect, p);
    case SubtractRect(rect) =>
      ServerNext(s.server, Subtract(rect), p);
      CutAllHas(s.region, rect, p);
  }

  lemma ServerNext(requests: seq<Request>, r: Request, p: Point)
    ensures ServerHas(requests + [r], p) <==> if In(p, r.rect) then r.Add? else ServerHas(requests, p)
  {
    assert (requests + [r])[..|requests|] == requests;
  }

  // Over every run of additions, subtractions, releases and new setups: while the wrapper is valid, the
  // server's region has exactly the points of the client's.
  lemma {:induction false} ServerMirrorsClient(init: seq<Rect>, events: seq<Event>, p: Point)
    requires AllPossible(init, events)
    ensures var s := Run(init, events); s.valid ==> (ServerHas(s.server, p) <==> Has(s.region, p))
  {
    if events != [] {
      var last := |events| - 1;
      ServerMirrorsClient(init, events[..last], p);
      StepMirrors(Run(init, events[..last]), events[last], p);
    }
  }

  // The intended contents: what the last addition or subtraction that concerns a point made of it.
  predicate Covered(init: seq<Rect>, events: seq<Event>, p: Point) {
    if events == [] then Has(init, p)
    else
      var before := Covered(init, events[..|events| - 1], p);
      match events[|events| - 1]
      case AddRegion(rects) => before || Has(rects, p)
      case SubtractRegion(rects) => before && !Has(rects, p)
      case AddRect(rect) => before || In(p, rect)
      case SubtractRect(rect) => before && !In(p, rect)
      case _ => before
  }

  // The client's region has exactly those points, in rectangles that are never empty.
  lemma {:induction false} ClientIsExact(init: seq<Rect>, events: seq<Event>, p: Point)
    requires Proper(init) && AllPossible(init, events)
    ensures Has(Run(init, events).region, p) <==> Covered(init, events, p)
    ensures Proper(Run(init, events).region)
  {
    if events != [] {
      var last := |events| - 1;
      ClientIsExact(init, events[..last], p);
      var region := Run(init, events[..last]).region;
      match events[last]
      case AddRegion(rects) => HasAppend(region, rects, p);
      case SubtractRegion(rects) => SubtractedHas(region, rects, p);
      case AddRect(rect) => HasAppend(region, Keep(rect), p); KeepHas(rect, p);
      case SubtractRect(rect) => CutAllHas(region, rect, p);
      case _ =>
    }
  }

  predicate ProperRequests(requests: seq<Request>) {
    forall i | 0 <= i < |requests| :: NonEmpty(requests[i].rect)
  }

  // Since the last setup an empty rectangle was passed on.
  predicate EmptyPassed(init: seq<Rect>, events: seq<Event>) {
    events != [] &&
    (var before, e := events[..|events| - 1], events[|events| - 1];
     !e.Setup? &&
     (EmptyPassed(init, before) ||
      ((e.AddRect? || e.SubtractRect?) && !NonEmpty(e.rect) && Run(init, before).valid)))
  }

  lemma ProperNext(a: seq<Request>, b: seq<Request>)
    ensures ProperRequests(a + b) <==> ProperRequests(a) && ProperRequests(b)
  {
    assert forall i | 0 <= i < |a| :: (a + b)[i] == a[i];
    assert forall i | 0 <= i < |b| :: (a + b)[|a| + i] == b[i];
  }

  // The server is told of an empty rectangle exactly if one was passed alone while it listened; the
  // decomposition of regions never makes one.
  lemma {:induction false} RequestsAreProper(init: seq<Rect>, events: seq<Event>)
    requires AllPossible(init, events)
    ensures ProperRequests(Run(init, events).server) <==> !EmptyPassed(init, events)
  {
    if events != [] {
      var last := |events| - 1;
      RequestsAreProper(init, events[..last]);
      var server := Run(init, events[..last]).server;
      match events[last]
      case AddRegion(rects) => ProperNext(server, Adds(rects));
      case SubtractRegion(rects) => ProperNext(server, Subtracts(rects));
      case AddRect(rect) => ProperNext(server, [Add(rect)]); assert [Add(rect)][0].rect == rect;
      case SubtractRect(rect) => ProperNext(server, [Subtract(rect)]); assert [Subtract(rect)][0].rect == rect;
      case _ =>
    }
  }

  // ---------- requests ----------

  // The wrapper holds a region since the last setup, until it is released.
  predicate SetUp(events: seq<Event>) {
    events != [] &&
    (var e := events[|events| - 1]; e.Setup? || (!e.Release? && SetUp(events[..|events| - 1])))
  }

  lemma {:induction false} ValidExactly(init: seq<Rect>, events: seq<Event>)
    ensures Run(init, events).valid == SetUp(events)
  {
    if events != [] {
      ValidExactly(init, events[..|events| - 1]);
    }
  }

  // While it is valid every change is sent exactly once: one request for each rectangle that was passed, in
  // order. A new region starts with the requests for its rectangles alone.
  lemma SendsExactly(s: State, e: Event)
    ensures var t := Step(s, e);
            match e
            case Setup(rects) => |t.server| == |rects| && forall i | 0 <= i < |rects| :: t.server[i] == Add(rects[i])
            case Release => t.server == s.server
            case _ =>
              var rects := if e.AddRegion? || e.SubtractRegion? then e.rects else [e.rect];
              && |t.server| == |s.server| + (if s.valid then |rects| else 0) && t.server[..|s.server|] == s.server
              && forall i | |s.server| <= i < |t.server| ::
                   t.server[i].rect == rects[i - |s.server|] && (t.server[i].Add? <==> e.AddRegion? || e.AddRect?)
  {
  }
}
