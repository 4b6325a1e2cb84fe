/** What holds over every run of pool events: who owns which byte, what it holds, and what growth wastes. */
module ShmPoolTheorems {
  import opened Collections
  import opened ShmPoolState

  lemma Prefix(events: seq<Event>, k: nat)
    requires Outcome(events).Some? && k <= |events|
    ensures Outcome(events[..k]).Some?
    decreases |events|
  {
    if k < |events| {
      var before := events[..|events| - 1];
      Prefix(before, k);
      assert before[..k] == events[..k];
    } else {
      assert events[..k] == events;
    }
  }

  // ---------- tiling ----------

  ghost predicate Owns(p: Pool, i: nat, k: int) {
    i < |p.buffers| && p.buffers[i].offset <= k < End(p.buffers[i])
  }

  lemma {:induction false} FindOwner(bs: seq<Buffer>, k: int) returns (i: nat)
    requires Tiled(bs) && 0 <= k < Top(bs)
    ensures i < |bs| && bs[i].offset <= k < End(bs[i])
    decreases |bs|
  {
    var last := |bs| - 1;
    assert Placed(bs, last);
    if bs[last].offset <= k {
      i := last;
    } else {
      var init := bs[..last];
      forall j | 0 <= j < last ensures Placed(init, j) {
        assert Placed(bs, j) && init[..j] == bs[..j];
      }
      i := FindOwner(init, k);
    }
  }

  // The bytes below the offset, and only they, belong to a buffer, each to exactly one.
  lemma {:induction false} EveryByteHasOneOwner(events: seq<Event>, k: nat)
    requires Outcome(events).Some?
    ensures var p := Outcome(events).value;
            && (k < p.offset <==> exists i :: Owns(p, i, k))
            && (forall i, j | Owns(p, i, k) && Owns(p, j, k) :: i == j)
            && p.offset <= p.size
  {
    var p := Outcome(events).value;
    if k < p.offset {
      var i := FindOwner(p.buffers, k);
      assert Owns(p, i, k);
    }
    forall i | Owns(p, i, k) ensures k < p.offset {
      InFile(p, i);
    }
    forall i, j | Owns(p, i, k) && Owns(p, j, k) ensures i == j {
      if i < j {
        Ordered(p.buffers, i, j);
      } else if j < i {
        Ordered(p.buffers, j, i);
      }
    }
  }

  // ---------- slack ----------

  // What became of the room at the end of the pool since setup: `carved` bytes went into buffers
  // without growth, `lost` bytes were added by a resize that produced no buffer.
  datatype Account = Account(start: nat, carved: nat, lost: nat)

  function Asked(e: Event): Option<(Shape, System)> {
    match e
    case GetBuffer(g, sys) => Some((g, sys))
    case CreateBuffer(g, _, sys) => if IsEmpty(g) then None else Some((g, sys))
    case _ => None
  }

  // A request that finds no buffer to reuse.
  predicate NeedsNew(p: Pool, e: Event) {
    p.valid && Asked(e).Some? && FirstFree(p.buffers, Asked(e).value.0) == -1
  }

  // The system refuses something that the request needs.
  predicate Refused(p: Pool, e: Event)
    requires Asked(e).Some?
  {
    var (g, sys) := Asked(e).value;
    !sys.nativeOk || (NeedsGrowth(p, g) && !(sys.truncateOk && sys.mapOk))
  }

  function Book(a: Account, p: Pool, e: Event): Account
    requires Possible(p, e)
  {
    if e.Setup? then Account(p.size, 0, 0)
    else if !NeedsNew(p, e) then a
    else
      var (g, sys) := Asked(e).value;
      if NeedsGrowth(p, g) then
        if Refused(p, e) && sys.truncateOk then a.(lost := a.lost + ByteCount(g)) else a
      else if Refused(p, e) then a
      else a.(carved := a.carved + ByteCount(g))
  }

  ghost function Books(events: seq<Event>): Account
    requires Outcome(events).Some?
    decreases |events|
  {
    if events == [] then Account(1024, 0, 0)
    else
      var before := events[..|events| - 1];
      Book(Books(before), Outcome(before).value, events[|events| - 1])
  }

  lemma TakeBooks(p: Pool, g: Shape, sys: System)
    requires Inv(p) && p.valid && Sound(g)
    ensures var (q, r) := Take(p, g, sys);
            var none, n := FirstFree(p.buffers, g) == -1, ByteCount(g);
            var ok := sys.nativeOk && (NeedsGrowth(p, g) ==> sys.truncateOk && sys.mapOk);
            && q.size == p.size + (if none && NeedsGrowth(p, g) && sys.truncateOk then n else 0)
            && q.offset == p.offset + (if none && ok then n else 0)
  {
  }

  lemma StepBooks(p: Pool, e: Event, a: Account)
    requires Inv(p) && Possible(p, e) && (p.valid ==> p.size - p.offset + a.carved == a.start + a.lost)
    ensures var q, b := Step(p, e), Book(a, p, e);
            q.valid ==> q.size - q.offset + b.carved == b.start + b.lost
  {
    if p.valid && Asked(e).Some? {
      TakeBooks(p, Asked(e).value.0, Asked(e).value.1);
    }
  }

  // Room at the end of the pool is conserved: what setup started with and failed requests added is what
  // went into buffers without growth and what is left.
  lemma {:induction false} SlackIsConserved(events: seq<Event>)
    requires Outcome(events).Some? && Outcome(events).value.valid
    ensures var p, a := Outcome(events).value, Books(events);
            p.size - p.offset + a.carved == a.start + a.lost
    decreases |events|
  {
    if events != [] {
      var before := events[..|events| - 1];
      if Outcome(before).value.valid {
        SlackIsConserved(before);
      }
      StepBooks(Outcome(before).value, events[|events| - 1], Books(before));
    }
  }

  // The request makes the file grow and ends without a buffer.
  predicate Wastes(p: Pool, e: Event) {
    NeedsNew(p, e)
    && (var (g, sys) := Asked(e).value;
        NeedsGrowth(p, g) && sys.truncateOk && !(sys.mapOk && sys.nativeOk))
  }

  // No request of this lifetime wasted any growth; other requests may well have been refused.
  ghost predicate NeverWasted(events: seq<Event>)
    requires Outcome(events).Some?
    decreases |events|
  {
    events == [] ||
    (var before, e := events[..|events| - 1], events[|events| - 1];
     e.Setup? || (NeverWasted(before) && !Wastes(Outcome(before).value, e)))
  }

  lemma {:induction false} NothingLost(events: seq<Event>)
    requires Outcome(events).Some? && NeverWasted(events)
    ensures Books(events).lost == 0
    decreases |events|
  {
    if events != [] && !events[|events| - 1].Setup? {
      NothingLost(events[..|events| - 1]);
    }
  }

  // The room left is within the pool's size at setup exactly if no more was lost than carved; while no
  // growth is wasted it always is.
  lemma {:induction false} SlackIsBounded(events: seq<Event>)
    requires Outcome(events).Some? && Outcome(events).value.valid
    ensures var p, a := Outcome(events).value, Books(events);
            && (p.size - p.offset <= a.start <==> a.lost <= a.carved)
            && (NeverWasted(events) ==> p.size - p.offset <= a.start)
  {
    SlackIsConserved(events);
    if NeverWasted(events) {
      NothingLost(events);
    }
  }

  // ---------- contents ----------

  function Contents(p: Pool, i: nat): seq<Byte>
    requires Inv(p) && i < |p.buffers|
  {
    InFile(p, i);
    p.file[p.buffers[i].offset..End(p.buffers[i])]
  }

  function View(p: Pool): (v: seq<seq<Byte>>)
    requires Inv(p)
    ensures |v| == |p.buffers| && forall i | 0 <= i < |v| :: v[i] == Contents(p, i)
  {
    seq(|p.buffers|, i requires 0 <= i < |p.buffers| => Contents(p, i))
  }

  // The simple picture: every buffer has memory of its own, which starts out zero.
  function Remember(m: seq<seq<Byte>>, e: Event, handed: Option<nat>): seq<seq<Byte>> {
    match e
    case ReleasePool => []
    case DestroyPool => []
    case GetBuffer(g, _) =>
      if handed.None? || handed.value < |m| || !Sound(g) then m else m + [Zeros(ByteCount(g))]
    case CreateBuffer(_, src, _) =>
      if handed.None? then m else if handed.value < |m| then m[handed.value := src] else m + [src]
    case Write(i, bytes) => if i < |m| then m[i := bytes] else m
    case _ => m
  }

  ghost function Memory(events: seq<Event>): seq<seq<Byte>>
    decreases |events|
  {
    if events == [] then []
    else
      var last := |events| - 1;
      Remember(Memory(events[..last]), events[last], HandedAt(events, last))
  }

  // Slices of a file that grows at the end
  lemma SliceOfGrown(file: seq<Byte>, more: seq<Byte>, a: nat, b: nat)
    requires a <= b <= |file|
    ensures (file + more)[a..b] == file[a..b]
  {
  }

  // Slices of a file in which src was written at a
  lemma SliceOfWritten(file: seq<Byte>, a: nat, src: seq<Byte>, x: nat, y: nat)
    requires a + |src| <= |file| && x <= y <= |file|
    ensures var written := file[..a] + src + file[a + |src|..];
            && |written| == |file|
            && (y <= a || a + |src| <= x ==> written[x..y] == file[x..y])
            && (x == a && y == a + |src| ==> written[x..y] == src)
  {
    var written := file[..a] + src + file[a + |src|..];
    if a + |src| <= x {
      assert forall k | x <= k < y :: written[k] == file[k];
    }
  }

  lemma TakeKeepsLayout(p: Pool, g: Shape, sys: System)
    requires Inv(p) && p.valid && Sound(g)
    ensures var q := Take(p, g, sys).0;
            && |p.buffers| <= |q.buffers| && p.file <= q.file
            && forall i | 0 <= i < |p.buffers| ::
                 q.buffers[i].shape == p.buffers[i].shape && q.buffers[i].offset == p.buffers[i].offset
  {
    hide ByteCount;
  }

  lemma TakeKeepsContents(p: Pool, g: Shape, sys: System)
    requires Inv(p) && p.valid && Sound(g) && Inv(Take(p, g, sys).0)
    ensures |p.buffers| <= |Take(p, g, sys).0.buffers|
    ensures forall i | 0 <= i < |p.buffers| :: Contents(Take(p, g, sys).0, i) == Contents(p, i)
  {
    hide ByteCount, Take;
    TakeKeepsLayout(p, g, sys);
    var q := Take(p, g, sys).0;
    var more := q.file[|p.file|..];
    assert q.file == p.file + more;
    forall i | 0 <= i < |p.buffers| ensures Contents(q, i) == Contents(p, i) {
      InFile(p, i);
      SliceOfGrown(p.file, more, p.buffers[i].offset, End(p.buffers[i]));
    }
  }

  lemma NewIsBlank(p: Pool, g: Shape, sys: System)
    requires Inv(p) && p.valid && Sound(g) && Take(p, g, sys).1 == Some(|p.buffers|) && Inv(Take(p, g, sys).0)
    ensures var q := Take(p, g, sys).0;
            |q.buffers| == |p.buffers| + 1 && Contents(q, |p.buffers|) == Zeros(ByteCount(g))
  {
    hide ByteCount;
    var q := Take(p, g, sys).0;
    InFile(q, |p.buffers|);
    assert forall k | p.offset <= k < q.size :: q.file[k] == 0;
  }

  lemma SameContentsSameView(p: Pool, q: Pool)
    requires Inv(p) && Inv(q) && |p.buffers| <= |q.buffers|
    requires forall i | 0 <= i < |p.buffers| :: Contents(q, i) == Contents(p, i)
    ensures |q.buffers| == |p.buffers| ==> View(q) == View(p)
    ensures |q.buffers| == |p.buffers| + 1 ==> View(q) == View(p) + [Contents(q, |p.buffers|)]
  {
    hide Contents, Inv;
  }

  lemma TakeView(p: Pool, g: Shape, sys: System)
    requires Inv(p) && p.valid && Sound(g)
    ensures var (q, r) := Take(p, g, sys);
            && Inv(q)
            && (r.Some? ==> r.value <= |p.buffers|)
            && View(q) == if r == Some(|p.buffers|) then View(p) + [Zeros(ByteCount(g))] else View(p)
  {
    TakeKeeps(p, g, sys);
    TakeKeepsContents(p, g, sys);
    var (q, r) := Take(p, g, sys);
    SameContentsSameView(p, q);
    if r == Some(|p.buffers|) {
      NewIsBlank(p, g, sys);
    }
    hide View, Contents, Inv, ByteCount;
  }

  lemma CopyView(p: Pool, i: nat, src: seq<Byte>)
    requires Inv(p) && p.valid && i < |p.buffers| && |src| == ByteCount(p.buffers[i].shape)
    requires End(p.buffers[i]) <= |p.file|
    ensures Inv(Copy(p, i, src)) && View(Copy(p, i, src)) == View(p)[i := src]
  {
    hide ByteCount;
    CopyKeeps(p, i, src);
    var q := Copy(p, i, src);
    forall j | 0 <= j < |p.buffers| ensures Contents(q, j) == View(p)[i := src][j] {
      CopyMovesOne(p, i, src, j);
    }
    hide Contents, Inv;
    assert View(q) == View(p)[i := src];
  }

  lemma CopyMovesOne(p: Pool, i: nat, src: seq<Byte>, j: nat)
    requires Inv(p) && p.valid && i < |p.buffers| && j < |p.buffers| && |src| == ByteCount(p.buffers[i].shape)
    requires End(p.buffers[i]) <= |p.file| && Inv(Copy(p, i, src))
    ensures Contents(Copy(p, i, src), j) == if j == i then src else Contents(p, j)
  {
    hide ByteCount, Tiled;
    InFile(p, j);
    if j < i {
      Ordered(p.buffers, j, i);
    } else if i < j {
      Ordered(p.buffers, i, j);
    }
    SliceOfWritten(p.file, p.buffers[i].offset, src, p.buffers[j].offset, End(p.buffers[j]));
  }

  lemma StepView(p: Pool, e: Event)
    requires Inv(p) && Possible(p, e)
    ensures Inv(Step(p, e)) && View(Step(p, e)) == Remember(View(p), e, Handed(p, e))
  {
    StepKeepsInv(p, e);
    match e
    case GetBuffer(g, sys) => TakeView(p, g, sys);
    case CreateBuffer(g, src, sys) =>
      if !IsEmpty(g) && p.valid {
        CreateView(p, g, src, sys);
      }
    case Write(i, bytes) => InFile(p, i); CopyView(p, i, bytes);
    case _ =>
  }

  lemma CreateView(p: Pool, g: Shape, src: seq<Byte>, sys: System)
    requires Inv(p) && p.valid && !IsEmpty(g)
    requires Possible(p, CreateBuffer(g, src, sys)) && Inv(Step(p, CreateBuffer(g, src, sys)))
    ensures View(Step(p, CreateBuffer(g, src, sys))) == Remember(View(p), CreateBuffer(g, src, sys), Take(p, g, sys).1)
  {
    TakeView(p, g, sys);
    TakeKeeps(p, g, sys);
    var (q, r) := Take(p, g, sys);
    if r.Some? {
      CopyView(q, r.value, src);
    }
  }

  // One byte region behaves like separate memories, across allocation, reuse and growth.
  lemma {:induction false} ContentsAreIsolated(events: seq<Event>)
    requires Outcome(events).Some?
    ensures View(Outcome(events).value) == Memory(events)
    decreases |events|
  {
    if events != [] {
      var last := |events| - 1;
      ContentsAreIsolated(events[..last]);
      StepView(Outcome(events[..last]).value, events[last]);
    }
  }

  // Event e may change what buffer i holds.
  predicate Touches(e: Event, handed: Option<nat>, i: nat) {
    e.ReleasePool? || e.DestroyPool? || (e.CreateBuffer? && handed == Some(i)) || (e.Write? && e.i == i)
  }

  ghost predicate TouchedAt(events: seq<Event>, m: nat, i: nat)
    requires m < |events|
  {
    Touches(events[m], HandedAt(events, m), i)
  }

  lemma SameBefore(events: seq<Event>, n: nat, m: nat, i: nat)
    requires m < n <= |events|
    ensures HandedAt(events[..n], m) == HandedAt(events, m)
    ensures TouchedAt(events[..n], m, i) == TouchedAt(events, m, i)
  {
    assert events[..n][..m] == events[..m];
  }

  lemma {:induction false} Untouched(events: seq<Event>, k: nat, n: nat, i: nat)
    requires k <= n <= |events| && i < |Memory(events[..k])|
    requires forall m | k <= m < n :: !TouchedAt(events, m, i)
    ensures i < |Memory(events[..n])| && Memory(events[..n])[i] == Memory(events[..k])[i]
    decreases n
  {
    hide HandedAt;
    if k < n {
      Untouched(events, k, n - 1, i);
      SameBefore(events, n, n - 1, i);
      assert !TouchedAt(events, n - 1, i);
      MemoryNext(events, n - 1);
    }
  }

  lemma MemoryNext(events: seq<Event>, n: nat)
    requires n < |events|
    ensures Memory(events[..n + 1]) == Remember(Memory(events[..n]), events[n], HandedAt(events, n))
  {
    assert events[..n + 1][..n] == events[..n];
    SameBefore(events, n + 1, n, 0);
  }

  // A buffer made from raw bytes holds those bytes until something is written to that very buffer.
  lemma {:induction false} CreatedContentsStay(events: seq<Event>, k: nat, i: nat)
    requires Outcome(events).Some? && k < |events| && events[k].CreateBuffer? && HandedAt(events, k) == Some(i)
    requires forall m | k < m < |events| :: !TouchedAt(events, m, i)
    ensures var p := Outcome(events).value;
            i < |p.buffers| && Contents(p, i) == events[k].src
  {
    Prefix(events, k);
    var p := Outcome(events[..k]).value;
    ContentsAreIsolated(events[..k]);
    TakeView(p, events[k].shape, events[k].sys);
    MemoryNext(events, k);
    Untouched(events, k + 1, |events|, i);
    assert events[..|events|] == events;
    ContentsAreIsolated(events);
  }

  // ---------- hand-out ----------

  lemma HandedIsBusy(p: Pool, e: Event)
    requires Inv(p) && Possible(p, e) && Handed(p, e).Some?
    ensures var q, i := Step(p, e), Handed(p, e).value;
            && i < |q.buffers| && !q.buffers[i].released
            && q.buffers[i].shape == Asked(e).value.0 && !q.buffers[i].used
            && (i < |p.buffers| ==> p.buffers[i].released && !p.buffers[i].used)
  {
  }

  predicate Frees(e: Event, i: nat) {
    e == SetReleased(i, true) || e.ReleasePool? || e.DestroyPool?
  }

  ghost predicate Busy(p: Pool, i: nat) {
    i < |p.buffers| && !p.buffers[i].released
  }

  lemma StepStaysBusy(p: Pool, e: Event, i: nat)
    requires Inv(p) && Possible(p, e) && Busy(p, i) && !Frees(e, i)
    ensures Busy(Step(p, e), i)
  {
  }

  ghost predicate BusyAt(events: seq<Event>, n: nat, i: nat)
    requires n <= |events|
  {
    Outcome(events[..n]).Some? && Busy(Outcome(events[..n]).value, i)
  }

  lemma NextIsBusy(events: seq<Event>, n: nat, i: nat)
    requires Outcome(events).Some? && n < |events|
    requires HandedAt(events, n) == Some(i) || (BusyAt(events, n, i) && !Frees(events[n], i))
    ensures BusyAt(events, n + 1, i)
  {
    Prefix(events, n + 1);
    assert events[..n + 1][..n] == events[..n];
    var p := Outcome(events[..n]).value;
    if HandedAt(events, n) == Some(i) {
      HandedIsBusy(p, events[n]);
    } else {
      StepStaysBusy(p, events[n], i);
    }
  }

  lemma {:induction false} StaysBusy(events: seq<Event>, k: nat, n: nat, i: nat)
    requires Outcome(events).Some? && k < n <= |events| && HandedAt(events, k) == Some(i)
    requires forall m | k < m < n :: !Frees(events[m], i)
    ensures BusyAt(events, n, i)
    decreases n
  {
    hide BusyAt, HandedAt, Outcome;
    if k < n - 1 {
      StaysBusy(events, k, n - 1, i);
    }
    NextIsBusy(events, n - 1, i);
  }

  // Between two hand-outs of the same buffer it was released.
  lemma {:induction false} HandedOutAfterRelease(events: seq<Event>, k: nat, l: nat, i: nat)
    requires Outcome(events).Some? && k < l < |events|
    requires HandedAt(events, k) == Some(i) == HandedAt(events, l)
    requires forall m | k < m < l :: !events[m].ReleasePool? && !events[m].DestroyPool?
    ensures exists m :: k < m < l && events[m] == SetReleased(i, true)
  {
    if forall m | k < m < l :: !Frees(events[m], i) {
      StaysBusy(events, k, l, i);
      HandedIsBusy(Outcome(events[..l]).value, events[l]);
    }
  }

  // The first buffer that fits is handed out; a new one is made, at the end, exactly if none fits and
  // the system does not refuse.
  lemma FirstFitExact(p: Pool, g: Shape, sys: System, i: nat)
    requires Inv(p) && p.valid && Sound(g)
    ensures var r := Take(p, g, sys).1;
            var none := forall k | 0 <= k < |p.buffers| :: !Free(p.buffers[k], g);
            && (r == Some(i) <==>
                 || (i < |p.buffers| && Free(p.buffers[i], g) && forall k | 0 <= k < i :: !Free(p.buffers[k], g))
                 || (i == |p.buffers| && none && !Refused(p, GetBuffer(g, sys))))
            && (r == None <==> none && Refused(p, GetBuffer(g, sys)))
  {
    var f := FirstFree(p.buffers, g);
    if i < |p.buffers| && Free(p.buffers[i], g) && (forall k | 0 <= k < i :: !Free(p.buffers[k], g)) {
      assert f >= 0 && f >= i;
    }
  }
}
