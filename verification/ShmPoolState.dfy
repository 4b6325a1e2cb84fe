/**
 The shared-memory pool as a value: a file of bytes, a bump offset and the buffers handed out so far.
 Whether the operating system grants a resize, a mapping or a native buffer is part of each request.
 */
module ShmPoolState {
  import opened Collections

  const INT32_MAX := 0x7fff_ffff

  type Byte = b: int | 0 <= b < 256

  datatype Format = ARGB32 | RGB32

  // What a request asks for and a buffer is matched by: QSize, stride and format.
  datatype Shape = Shape(width: int, height: int, stride: int, format: Format)

  // The callers' side of the contract: sizes are not negative.
  predicate Sound(g: Shape) {
    g.height >= 0 && g.stride >= 0
  }

  function ByteCount(g: Shape): (n: int)
    ensures Sound(g) ==> n >= 0
  {
    g.height * g.stride
  }

  // QSize::isEmpty
  predicate IsEmpty(g: Shape) {
    g.width <= 0 || g.height <= 0
  }

  datatype Buffer = Buffer(shape: Shape, offset: nat, released: bool, used: bool)

  function End(b: Buffer): int {
    b.offset + ByteCount(b.shape)
  }

  datatype Pool = Pool(
    bound: bool,             // the wl_shm is set
    valid: bool,
    mapped: bool,            // poolData is a mapping, not MAP_FAILED
    size: nat,
    offset: nat,
    buffers: seq<Buffer>,
    file: seq<Byte>)         // the bytes of the shared file; a mapping is a view on them

  function Initial(): Pool {
    Pool(false, false, false, 1024, 0, [], [])
  }

  // Which of the system calls of one request succeed.
  datatype System = System(truncateOk: bool, mapOk: bool, nativeOk: bool)

  predicate Free(b: Buffer, g: Shape) {
    b.released && !b.used && b.shape == g
  }

  // The first buffer that can be handed out again, or -1.
  function FirstFree(bs: seq<Buffer>, g: Shape): (r: int)
    ensures -1 <= r < |bs|
    ensures r >= 0 ==> Free(bs[r], g) && forall k | 0 <= k < r :: !Free(bs[k], g)
    ensures r == -1 ==> forall k | 0 <= k < |bs| :: !Free(bs[k], g)
  {
    if bs == [] then -1
    else if Free(bs[0], g) then 0
    else
      var r := FirstFree(bs[1..], g);
      if r == -1 then -1 else r + 1
  }

  function Zeros(n: nat): (z: seq<Byte>)
    ensures |z| == n && forall k | 0 <= k < n :: z[k] == 0
  {
    seq(n, _ => 0)
  }

  // Private::resizePool. The size moves even if the new mapping fails.
  function Resize(p: Pool, newSize: nat, sys: System): Pool
    requires |p.file| <= newSize
  {
    if !sys.truncateOk then p
    else p.(size := newSize, mapped := sys.mapOk, file := p.file + Zeros(newSize - |p.file|))
  }

  predicate NeedsGrowth(p: Pool, g: Shape) {
    p.offset + ByteCount(g) > p.size
  }

  // The pool after making room for a request
  function Room(p: Pool, g: Shape, sys: System): Pool
    requires Sound(g) && |p.file| == p.size
  {
    if NeedsGrowth(p, g) then Resize(p, p.size + ByteCount(g), sys) else p
  }

  predicate RoomRefused(p: Pool, g: Shape, sys: System) {
    NeedsGrowth(p, g) && !(sys.truncateOk && sys.mapOk)
  }

  // The pool after appending a new buffer at its offset
  function WithBuffer(p: Pool, g: Shape): Pool
    requires Sound(g)
  {
    p.(buffers := p.buffers + [Buffer(g, p.offset, false, false)], offset := p.offset + ByteCount(g))
  }

  // Private::getBuffer: the pool afterwards, and the position of the buffer handed out.
  function Take(p: Pool, g: Shape, sys: System): (Pool, Option<nat>)
    requires Sound(g) && |p.file| == p.size
  {
    var i := FirstFree(p.buffers, g);
    if i >= 0 then
      (p.(buffers := p.buffers[i := p.buffers[i].(released := false)]), Some(i))
    else if RoomRefused(p, g, sys) || !sys.nativeOk then (Room(p, g, sys), None)
    else (WithBuffer(Room(p, g, sys), g), Some(|p.buffers|))
  }

  // Buffer::copy
  function Copy(p: Pool, i: nat, src: seq<Byte>): Pool
    requires i < |p.buffers| && |src| == ByteCount(p.buffers[i].shape) && End(p.buffers[i]) <= |p.file|
  {
    var b := p.buffers[i];
    p.(file := p.file[..b.offset] + src + p.file[End(b)..])
  }

  // ---------- events ----------

  datatype Event =
    | Setup(ok: bool)
    | ReleasePool
    | DestroyPool
    | GetBuffer(shape: Shape, sys: System)
    | CreateBuffer(shape: Shape, src: seq<Byte>, sys: System)
    | SetReleased(i: nat, released: bool)   // the release event of the server sends true
    | SetUsed(i: nat, used: bool)
    | Write(i: nat, bytes: seq<Byte>)       // through Buffer::address

  // Where the next buffer begins.
  function Top(bs: seq<Buffer>): int {
    if bs == [] then 0 else End(bs[|bs| - 1])
  }

  ghost predicate Placed(bs: seq<Buffer>, i: nat)
    requires i < |bs|
  {
    Sound(bs[i].shape) && bs[i].offset == Top(bs[..i])
  }

  // The buffers lie one after the other, from 0 on.
  ghost predicate Tiled(bs: seq<Buffer>) {
    forall i | 0 <= i < |bs| :: Placed(bs, i)
  }

  lemma TiledAppend(bs: seq<Buffer>, b: Buffer)
    requires Tiled(bs) && Sound(b.shape) && b.offset == Top(bs)
    ensures Tiled(bs + [b]) && Top(bs + [b]) == End(b)
  {
    var cs := bs + [b];
    forall i | 0 <= i < |cs| ensures Placed(cs, i) {
      if i < |bs| {
        assert Placed(bs, i) && cs[..i] == bs[..i];
      } else {
        assert cs[..i] == bs;
      }
    }
  }

  // Flags have no part in the layout.
  lemma TiledUpdate(bs: seq<Buffer>, k: nat, b: Buffer)
    requires Tiled(bs) && k < |bs| && b.shape == bs[k].shape && b.offset == bs[k].offset
    ensures Tiled(bs[k := b]) && Top(bs[k := b]) == Top(bs)
  {
    var cs := bs[k := b];
    forall i | 0 <= i < |cs| ensures Placed(cs, i) {
      assert Placed(bs, i);
    }
  }

  // The file is as long as the pool says, and the part not handed out yet was never written.
  ghost predicate Blank(p: Pool) {
    |p.file| == p.size && forall k | p.offset <= k < p.size :: p.file[k] == 0
  }

  ghost predicate Inv(p: Pool) {
    && Tiled(p.buffers) && p.offset == Top(p.buffers) && p.offset <= p.size
    && (p.valid ==> p.bound && Blank(p))
    && (!p.valid ==> p.buffers == [])
  }

  lemma {:induction false} Ordered(bs: seq<Buffer>, i: nat, j: nat)
    requires Tiled(bs) && i < j < |bs|
    ensures End(bs[i]) <= bs[j].offset
    decreases j
  {
    assert Placed(bs, j);
    if i < j - 1 {
      assert Placed(bs, j - 1);
      Ordered(bs, i, j - 1);
    }
  }

  lemma InFile(p: Pool, i: nat)
    requires Inv(p) && i < |p.buffers|
    ensures p.buffers[i].offset <= End(p.buffers[i]) <= p.offset
  {
    assert Placed(p.buffers, i);
    if i < |p.buffers| - 1 {
      assert Placed(p.buffers, |p.buffers| - 1);
      Ordered(p.buffers, i, |p.buffers| - 1);
    }
  }

  // Requests must fit 32-bit arithmetic.
  predicate Requestable(p: Pool, g: Shape) {
    Sound(g) && p.size + ByteCount(g) <= INT32_MAX
  }

  // A request needs a pool (createBuffer checks it, getBuffer does not), and memory that is not mapped
  // cannot be written.
  ghost predicate Possible(p: Pool, e: Event) {
    match e
    case Setup(_) => !p.bound
    case GetBuffer(g, _) => p.valid && Requestable(p, g)
    case CreateBuffer(g, src, sys) =>
      p.valid && !IsEmpty(g) ==>
        Requestable(p, g) && |src| == ByteCount(g) && (Inv(p) && Take(p, g, sys).1.Some? ==> Take(p, g, sys).0.mapped)
    case SetReleased(i, _) => i < |p.buffers|
    case SetUsed(i, _) => i < |p.buffers|
    case Write(i, bytes) => p.mapped && i < |p.buffers| && |bytes| == ByteCount(p.buffers[i].shape)
    case _ => true
  }

  lemma TakeKeeps(p: Pool, g: Shape, sys: System)
    requires Inv(p) && p.valid && Sound(g)
    ensures var (q, r) := Take(p, g, sys);
            && Inv(q) && q.valid
            && (r.Some? ==>
                 && r.value < |q.buffers| && q.buffers[r.value].shape == g
                 && End(q.buffers[r.value]) <= |q.file|)
  {
    var (q, r) := Take(p, g, sys);
    var i := FirstFree(p.buffers, g);
    if i >= 0 {
      InFile(p, i);
      TiledUpdate(p.buffers, i, q.buffers[i]);
    } else if r.Some? {
      TiledAppend(p.buffers, Buffer(g, p.offset, false, false));
    }
  }

  function Clear(p: Pool): Pool {
    p.(bound := false, valid := false, mapped := false, offset := 0, buffers := [], file := [])
  }

  // The pool after an event.
  function Step(p: Pool, e: Event): Pool
    requires Possible(p, e) && Inv(p)
  {
    match e
    case Setup(ok) => p.(bound := true, valid := ok, mapped := ok, file := if ok then Zeros(p.size) else p.file)
    case ReleasePool => Clear(p)
    case DestroyPool => Clear(p)
    case GetBuffer(g, sys) => Take(p, g, sys).0
    case CreateBuffer(g, src, sys) =>
      if IsEmpty(g) || !p.valid then p
      else
        var (q, r) := Take(p, g, sys);
        TakeKeeps(p, g, sys);
        if r.None? then q else Copy(q, r.value, src)
    case SetReleased(i, released) => p.(buffers := p.buffers[i := p.buffers[i].(released := released)])
    case SetUsed(i, used) => p.(buffers := p.buffers[i := p.buffers[i].(used := used)])
    case Write(i, bytes) => InFile(p, i); Copy(p, i, bytes)
  }

  // The buffer an event hands out.
  function Handed(p: Pool, e: Event): Option<nat>
    requires Possible(p, e) && Inv(p)
  {
    match e
    case GetBuffer(g, sys) => Take(p, g, sys).1
    case CreateBuffer(g, src, sys) => if IsEmpty(g) || !p.valid then None else Take(p, g, sys).1
    case _ => None
  }

  lemma CopyKeeps(p: Pool, i: nat, src: seq<Byte>)
    requires Inv(p) && p.valid && i < |p.buffers| && |src| == ByteCount(p.buffers[i].shape)
    ensures End(p.buffers[i]) <= |p.file| && Inv(Copy(p, i, src))
  {
    InFile(p, i);
    var b, q := p.buffers[i], Copy(p, i, src);
    assert forall k | End(b) <= k < |p.file| :: q.file[k] == p.file[k];
  }

  lemma StepKeepsInv(p: Pool, e: Event)
    requires Possible(p, e) && Inv(p)
    ensures Inv(Step(p, e))
  {
    match e
    case GetBuffer(g, sys) => TakeKeeps(p, g, sys);
    case CreateBuffer(g, src, sys) =>
      if !IsEmpty(g) && p.valid {
        TakeKeeps(p, g, sys);
        var (q, r) := Take(p, g, sys);
        if r.Some? {
          CopyKeeps(q, r.value, src);
        }
      }
    case Write(i, bytes) => CopyKeeps(p, i, bytes);
    case SetReleased(i, released) => TiledUpdate(p.buffers, i, p.buffers[i].(released := released));
    case SetUsed(i, used) => TiledUpdate(p.buffers, i, p.buffers[i].(used := used));
    case _ =>
  }

  // The pool a list of events leads to, if each of them is possible where it happens.
  ghost function Outcome(events: seq<Event>): (r: Option<Pool>)
    ensures r.Some? ==> Inv(r.value)
    decreases |events|
  {
    if events == [] then Some(Initial())
    else
      var before := Outcome(events[..|events| - 1]);
      var e := events[|events| - 1];
      if before.Some? && Possible(before.value, e) then
        StepKeepsInv(before.value, e);
        Some(Step(before.value, e))
      else None
  }

  // The buffer handed out by event number k of a run.
  ghost function HandedAt(events: seq<Event>, k: nat): Option<nat>
    requires k < |events|
  {
    var before := Outcome(events[..k]);
    if before.Some? && Possible(before.value, events[k]) then Handed(before.value, events[k]) else None
  }
}
