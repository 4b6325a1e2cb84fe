/**
 ShmPool and Buffer as classes over a byte array. Each method makes the step of ShmPoolState that its
 event describes; ShmPoolTheorems says what follows for every sequence of calls.
 */
module ShmPools {
  import opened Collections
  import S = ShmPoolState
  import opened ShmPoolState
  import opened ShmPoolTheorems

  class Buffer {
    const shape: Shape
    const offset: nat
    var released: bool
    var used: bool

    constructor (shape: Shape, offset: nat)
      ensures this.shape == shape && this.offset == offset && !released && !used
    {
      this.shape, this.offset, released, used := shape, offset, false, false;
    }

    // A buffer that getBuffer may hand out again for this request
    predicate Fits(g: Shape)
      reads this
    {
      released && !used && shape == g
    }
  }

  class ShmPool {
    var bound: bool
    var valid: bool
    var mapped: bool
    var size: nat
    var offset: nat
    var buffers: seq<Buffer>
    var file: array<Byte>
    ghost var pool: Pool
    ghost var history: seq<Event>

    ghost predicate BuffersAgree(bs: seq<S.Buffer>)
      reads this`buffers, buffers
    {
      |buffers| == |bs| && forall i | 0 <= i < |bs| ::
        bs[i] == S.Buffer(buffers[i].shape, buffers[i].offset, buffers[i].released, buffers[i].used)
    }

    ghost predicate Apart()
      reads this`buffers
    {
      forall i, j | 0 <= i < j < |buffers| :: buffers[i] != buffers[j]
    }

    ghost predicate FieldsAgree(p: Pool)
      reads this`bound, this`valid, this`mapped, this`size, this`offset
    {
      bound == p.bound && valid == p.valid && mapped == p.mapped && size == p.size && offset == p.offset
    }

    ghost predicate Represents(p: Pool)
      reads this`bound, this`valid, this`mapped, this`size, this`offset, this`buffers, this`file, buffers, file
    {
      BuffersAgree(p.buffers) && Apart() && FieldsAgree(p) && file[..] == p.file
    }

    // The objects are what the calls so far lead to.
    ghost predicate Valid()
      reads this, buffers, file
    {
      Represents(pool) && Outcome(history) == Some(pool)
    }

    constructor ()
      ensures Valid() && history == [] && fresh(file)
    {
      bound, valid, mapped, size, offset, buffers := false, false, false, 1024, 0, [];
      file := new Byte[0];
      pool, history := Initial(), [];
      new;
      assert file[..] == [];
    }

    // The calls made and the pool they lead to, after one more.
    ghost method Record(e: Event)
      requires Outcome(history) == Some(pool) && Possible(pool, e)
      modifies this`pool, this`history
      ensures Inv(old(pool)) && Possible(old(pool), e)
      ensures history == old(history) + [e] && pool == Step(old(pool), e) && Outcome(history) == Some(pool)
      ensures HandedAt(history, |old(history)|) == Handed(old(pool), e)
    {
      assert (history + [e])[..|history|] == history;
      history := history + [e];
      pool := Step(pool, e);
    }

    // ---------- the file ----------

    // ftruncate to a larger size: the bytes stay, the new ones are zero.
    method Extend(newSize: nat)
      requires file.Length <= newSize
      modifies this`file
      ensures fresh(file) && file[..] == old(file[..]) + Zeros(newSize - old(file.Length))
    {
      var was, bytes := file, new Byte[newSize];
      var k := 0;
      while k < newSize
        invariant k <= newSize && was.Length == old(file.Length) && was[..] == old(file[..])
        invariant forall j | 0 <= j < k :: bytes[j] == if j < was.Length then was[j] else 0
      {
        bytes[k] := if k < was.Length then was[k] else 0;
        k := k + 1;
      }
      assert bytes[..] == was[..] + Zeros(newSize - was.Length);
      file := bytes;
    }

    // Private::resizePool
    method ResizePool(newSize: nat, sys: System) returns (ok: bool)
      requires file.Length <= newSize
      modifies this`file, this`size, this`mapped
      ensures ok == (sys.truncateOk && sys.mapOk)
      ensures !sys.truncateOk ==> file == old(file) && size == old(size) && mapped == old(mapped)
      ensures sys.truncateOk ==>
        fresh(file) && size == newSize && mapped == sys.mapOk
        && file[..] == old(file[..]) + Zeros(newSize - old(file.Length))
    {
      if !sys.truncateOk {
        return false;
      }
      Extend(newSize);
      size := newSize;
      mapped := sys.mapOk;
      return mapped;
    }

    // memcpy into the mapping
    method CopyBytes(start: nat, src: seq<Byte>)
      requires start + |src| <= file.Length
      modifies file
      ensures file[..] == old(file[..start]) + src + old(file[start + |src|..])
    {
      var k := 0;
      while k < |src|
        invariant k <= |src|
        invariant forall j | 0 <= j < file.Length ::
          file[j] == if start <= j < start + k then src[j - start] else old(file[j])
      {
        file[start + k] := src[k];
        k := k + 1;
      }
    }

    // Buffer::copy
    method CopyInto(i: nat, src: seq<Byte>, ghost p: Pool)
      requires Represents(p) && i < |p.buffers|
      requires |src| == ByteCount(p.buffers[i].shape) && End(p.buffers[i]) <= |p.file|
      modifies file
      ensures Represents(Copy(p, i, src))
    {
      CopyBytes(buffers[i].offset, src);
    }

    // ---------- requests ----------

    // The search of Private::getBuffer
    method FindFree(g: Shape) returns (i: int)
      requires BuffersAgree(pool.buffers)
      ensures i == FirstFree(pool.buffers, g)
    {
      i := 0;
      while i < |buffers|
        invariant 0 <= i <= |buffers|
        invariant forall k | 0 <= k < i :: !Free(pool.buffers[k], g)
      {
        if buffers[i].Fits(g) {
          return;
        }
        i := i + 1;
      }
      i := -1;
    }

    method HandOutAgain(i: nat)
      requires i < |buffers| && i < |pool.buffers| && BuffersAgree(pool.buffers) && Apart()
      modifies buffers[i]
      ensures BuffersAgree(pool.buffers[i := pool.buffers[i].(released := false)])
    {
      buffers[i].released := false;
    }

    method Append(g: Shape, ghost p: Pool)
      requires Represents(p) && Sound(g)
      modifies this`buffers, this`offset
      ensures Represents(WithBuffer(p, g))
      ensures forall b | b in buffers :: b in old(buffers) || fresh(b)
    {
      var buffer := new Buffer(g, offset);
      buffers := buffers + [buffer];
      offset := offset + ByteCount(g);
    }

    // The part of Private::getBuffer that makes room
    method MakeRoom(g: Shape, sys: System) returns (ok: bool)
      requires Represents(pool) && |pool.file| == pool.size && Sound(g)
      modifies this`size, this`mapped, this`file
      ensures ok == !RoomRefused(pool, g, sys) && Represents(Room(pool, g, sys))
      ensures file == old(file) || fresh(file)
    {
      ok := true;
      var byteCount := ByteCount(g);
      if offset + byteCount > size {
        ok := ResizePool(size + byteCount, sys);
      }
    }

    // The part of Private::getBuffer that makes a new buffer
    method MakeBuffer(g: Shape, sys: System) returns (it: Option<nat>)
      requires Represents(pool) && |pool.file| == pool.size && Sound(g) && FirstFree(pool.buffers, g) == -1
      modifies this`size, this`mapped, this`offset, this`buffers, this`file
      ensures it == Take(pool, g, sys).1 && Represents(Take(pool, g, sys).0)
      ensures file == old(file) || fresh(file)
      ensures forall b | b in buffers :: b in old(buffers) || fresh(b)
    {
      assert |buffers| == |pool.buffers|;
      hide Represents, Room, RoomRefused, WithBuffer;
      var ok := MakeRoom(g, sys);
      if !ok || !sys.nativeOk {
        return None;
      }
      it := Some(|buffers|);
      Append(g, Room(pool, g, sys));
    }

    // Private::getBuffer
    method Find(g: Shape, sys: System) returns (it: Option<nat>)
      requires Represents(pool) && |pool.file| == pool.size && Sound(g)
      modifies this`size, this`mapped, this`offset, this`buffers, this`file, buffers
      ensures it == Take(pool, g, sys).1 && Represents(Take(pool, g, sys).0)
      ensures file == old(file) || fresh(file)
      ensures forall b | b in buffers :: b in old(buffers) || fresh(b)
    {
      var i := FindFree(g);
      if i >= 0 {
        HandOutAgain(i);
        return Some(i);
      }
      it := MakeBuffer(g, sys);
    }

    // ShmPool::getBuffer
    method GetBuffer(g: Shape, sys: System) returns (it: Option<nat>)
      requires Valid() && valid && Sound(g) && size + ByteCount(g) <= INT32_MAX
      modifies this, buffers
      ensures Valid() && history == old(history) + [Event.GetBuffer(g, sys)]
      ensures it == HandedAt(history, |old(history)|)
      ensures (file == old(file) || fresh(file)) && forall b | b in buffers :: b in old(buffers) || fresh(b)
    {
      it := Find(g, sys);
      Record(Event.GetBuffer(g, sys));
    }

    // Find a buffer and fill it
    method FindAndCopy(g: Shape, src: seq<Byte>, sys: System) returns (it: Option<nat>)
      requires Represents(pool) && |pool.file| == pool.size && Inv(pool) && pool.valid
      requires Sound(g) && |src| == ByteCount(g)
      modifies this`size, this`mapped, this`offset, this`buffers, this`file, buffers, file
      ensures var (q, r) := Take(pool, g, sys);
              && it == r && Inv(q)
              && (r.Some? ==>
                   && r.value < |q.buffers| && |src| == ByteCount(q.buffers[r.value].shape)
                   && End(q.buffers[r.value]) <= |q.file|)
              && Represents(if r.None? then q else Copy(q, r.value, src))
      ensures (file == old(file) || fresh(file)) && forall b | b in buffers :: b in old(buffers) || fresh(b)
    {
      hide Represents, Take, Copy, Tiled, Blank, ByteCount, Inv;
      TakeKeeps(pool, g, sys);
      it := Find(g, sys);
      if it.Some? {
        CopyInto(it.value, src, Take(pool, g, sys).0);
      }
    }

    // ShmPool::createBuffer from raw bytes
    method CreateBuffer(g: Shape, src: seq<Byte>, sys: System) returns (it: Option<nat>)
      requires Valid() && Possible(pool, Event.CreateBuffer(g, src, sys))
      modifies this, buffers, file
      ensures Valid() && history == old(history) + [Event.CreateBuffer(g, src, sys)]
      ensures it == HandedAt(history, |old(history)|)
      ensures (file == old(file) || fresh(file)) && forall b | b in buffers :: b in old(buffers) || fresh(b)
    {
      assert valid == pool.valid && (valid ==> |pool.file| == pool.size);
      hide Represents, Take, Copy, Outcome, Inv, ByteCount, IsEmpty;
      it := None;
      if !IsEmpty(g) && valid {
        it := FindAndCopy(g, src, sys);
      }
      Record(Event.CreateBuffer(g, src, sys));
    }

    // Drawing through Buffer::address
    method Write(i: nat, bytes: seq<Byte>)
      requires Valid() && mapped && i < |buffers| && |bytes| == ByteCount(buffers[i].shape)
      modifies this`pool, this`history, file
      ensures Valid() && history == old(history) + [Event.Write(i, bytes)]
    {
      InFile(pool, i);
      CopyInto(i, bytes, pool);
      Record(Event.Write(i, bytes));
    }

    // Buffer::setReleased; the release event calls it with true.
    method SetReleased(i: nat, released: bool)
      requires Valid() && i < |buffers|
      modifies this`pool, this`history, buffers[i]
      ensures Valid() && history == old(history) + [Event.SetReleased(i, released)]
    {
      buffers[i].released := released;
      Record(Event.SetReleased(i, released));
    }

    method SetUsed(i: nat, used: bool)
      requires Valid() && i < |buffers|
      modifies this`pool, this`history, buffers[i]
      ensures Valid() && history == old(history) + [Event.SetUsed(i, used)]
    {
      buffers[i].used := used;
      Record(Event.SetUsed(i, used));
    }

    // ---------- life cycle ----------

    // ShmPool::setup and createPool
    method Setup(ok: bool)
      requires Valid() && !bound
      modifies this
      ensures Valid() && history == old(history) + [Event.Setup(ok)]
      ensures (file == old(file) || fresh(file)) && buffers == old(buffers)
    {
      bound, valid, mapped := true, ok, ok;
      if ok {
        file := new Byte[0];
        assert file[..] == [];
        Extend(size);
        assert file[..] == Zeros(size);
      }
      Record(Event.Setup(ok));
    }

    // ShmPool::release; ShmPool::destroy differs only in what it tells the server's objects.
    method Release(destroy: bool)
      requires Valid()
      modifies this
      ensures Valid() && history == old(history) + [if destroy then DestroyPool else ReleasePool]
      ensures fresh(file) && buffers == []
    {
      hide Outcome, Inv;
      buffers, file := [], new Byte[0];
      bound, valid, mapped, offset := false, false, false, 0;
      assert file[..] == [];
      Record(if destroy then DestroyPool else ReleasePool);
    }
  }
}
