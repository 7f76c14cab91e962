/** The memory zone of contrib/msgpack-c/src/zone.c and include/msgpack/zone.h: a list of chunks to
    allocate from and an array of finalizers to run when the zone goes. */
module Zone {
  import opened Bytes

  const ALIGN: nat := 8
  const FINALIZER_SIZE: nat := 16

  /** A chunk's data area. */
  datatype Chunk = Chunk(data: nat, size: nat)
  datatype Finalizer = Finalizer(func: nat, data: nat)
  datatype Region = Region(addr: nat, size: nat)
  datatype Memory = Null | At(data: nat)

  predicate Apart(a: Region, b: Region) {
    a.addr + a.size <= b.addr || b.addr + b.size <= a.addr
  }

  function Area(c: Chunk): Region {
    Region(c.data, c.size)
  }

  predicate Inside(r: Region, lo: nat, hi: nat) {
    lo <= r.addr && r.addr + r.size <= hi
  }

  predicate InChunk(chunks: seq<Chunk>, k: int, r: Region) {
    0 <= k < |chunks| && Inside(r, chunks[k].data, chunks[k].data + chunks[k].size)
  }

  /** The region lies in chunk k, and below the first free byte if that is the head. */
  predicate Placed(chunks: seq<Chunk>, ptr: nat, k: int, r: Region) {
    InChunk(chunks, k, r) && (k == 0 ==> r.addr + r.size <= ptr)
  }

  ghost predicate HasPlace(chunks: seq<Chunk>, ptr: nat, r: Region) {
    exists k :: Placed(chunks, ptr, k, r)
  }

  /** An allocation keeps its place when a chunk is put in front, and does not touch that chunk. */
  lemma BehindNewHead(chunks: seq<Chunk>, ptr: nat, r: Region, c: Chunk, ptr': nat)
    requires HasPlace(chunks, ptr, r)
    requires forall i :: 0 <= i < |chunks| ==> Apart(Area(c), Area(chunks[i]))
    ensures HasPlace([c] + chunks, ptr', r) && Apart(r, Area(c))
  {
    var k :| Placed(chunks, ptr, k, r);
    assert ([c] + chunks)[k + 1] == chunks[k];
    assert Placed([c] + chunks, ptr', k + 1, r);
    assert Apart(Area(c), Area(chunks[k]));
  }

  lemma InNewHead(chunks: seq<Chunk>, c: Chunk, r: Region)
    requires r.addr == c.data && r.size <= c.size
    ensures HasPlace([c] + chunks, c.data + r.size, r)
  {
    assert Placed([c] + chunks, c.data + r.size, 0, r);
  }

  /** An allocation keeps its place when the head's first free byte moves on, and does not touch the
      bytes it moves over. */
  lemma BesideBump(chunks: seq<Chunk>, ptr: nat, free: nat, r: Region, skip: nat, size: nat)
    requires HasPlace(chunks, ptr, r) && |chunks| > 0 && skip + size <= free
    requires chunks[0].data <= ptr && ptr + free == chunks[0].data + chunks[0].size
    requires forall i :: 0 < i < |chunks| ==> Apart(Area(chunks[0]), Area(chunks[i]))
    ensures HasPlace(chunks, ptr + (skip + size), r) && Apart(r, Region(ptr + skip, size))
  {
    var k :| Placed(chunks, ptr, k, r);
    assert Placed(chunks, ptr + (skip + size), k, r);
    assert k > 0 ==> Apart(Area(chunks[0]), Area(chunks[k]));
  }

  lemma InHead(chunks: seq<Chunk>, ptr: nat, free: nat, skip: nat, size: nat)
    requires |chunks| > 0 && skip + size <= free
    requires chunks[0].data <= ptr && ptr + free == chunks[0].data + chunks[0].size
    ensures HasPlace(chunks, ptr + (skip + size), Region(ptr + skip, size))
  {
    assert Placed(chunks, ptr + (skip + size), 0, Region(ptr + skip, size));
  }

  /** The next multiple of the alignment. */
  function AlignUp(n: nat): (r: nat)
    ensures r % ALIGN == 0 && n <= r < n + ALIGN && (n % ALIGN == 0 ==> r == n)
  {
    (n + (ALIGN - 1)) / ALIGN * ALIGN
  }

  /** How far away the next multiple is. */
  lemma AlignedBy(n: nat, r: nat)
    requires r % ALIGN == 0 && n <= r < n + ALIGN
    ensures r - n == (ALIGN - n % ALIGN) % ALIGN
  {
  }

  lemma AlignedStays(n: nat)
    requires n % ALIGN == 0
    ensures n / ALIGN * ALIGN == n
  {
  }

  function Reversed<T>(s: seq<T>): (r: seq<T>)
    ensures |r| == |s| && forall i :: 0 <= i < |s| ==> r[i] == s[|s| - 1 - i]
  {
    if s == [] then [] else Reversed(s[1..]) + [s[0]]
  }

  lemma {:induction false} ReversedLast<T>(s: seq<T>, x: T)
    ensures Reversed(s + [x]) == [x] + Reversed(s)
  {
    if s == [] {
      assert (s + [x])[1..] == [];
    } else {
      assert (s + [x])[1..] == s[1..] + [x];
      ReversedLast(s[1..], x);
    }
  }

  class Zone {
    const chunkSize: nat
    /** The list from head to last. */
    var chunks: seq<Chunk>
    var free: nat
    var ptr: nat
    var finalizers: array<Finalizer>
    var tail: nat
    /** What the outside has seen: finalizers called and chunks given back, in order. */
    var calls: seq<Finalizer>
    var released: seq<Chunk>
    ghost var live: seq<Region>

    ghost predicate ChunksValid()
      reads this
    {
      && |chunks| >= 1
      && chunks[|chunks| - 1].size == chunkSize
      && chunks[0].data <= ptr && ptr + free == chunks[0].data + chunks[0].size
      && (forall i :: 0 <= i < |chunks| ==> chunks[i].data % ALIGN == 0)
      && (forall i, j :: 0 <= i < j < |chunks| ==> Apart(Area(chunks[i]), Area(chunks[j])))
    }

    /** Every allocation lies in the used part of some chunk, and no two overlap. */
    ghost predicate LiveValid()
      reads this
    {
      && (forall i :: 0 <= i < |live| ==> HasPlace(chunks, ptr, live[i]))
      && (forall i, j :: 0 <= i < j < |live| ==> Apart(live[i], live[j]))
    }

    ghost predicate Valid()
      reads this
    {
      ChunksValid() && LiveValid() && Untouched() && tail <= finalizers.Length
    }

    /** No byte handed out since the start or the last clear. */
    ghost predicate NothingOut()
      reads this
    {
      forall i :: 0 <= i < |live| ==> live[i].size == 0
    }

    /** While no byte is out, the first chunk is the only one and all of it is free. */
    ghost predicate Untouched()
      reads this
    {
      NothingOut() ==> |chunks| == 1 && ptr == chunks[0].data
    }

    ghost function Registered(): seq<Finalizer>
      requires tail <= finalizers.Length
      reads `finalizers, `tail, finalizers
    {
      finalizers[..tail]
    }

    /** msgpack_zone_new, with the memory malloc gave for the first chunk. */
    constructor (chunkSize: nat, first: nat)
      requires first % ALIGN == 0
      ensures Valid() && this.chunkSize == chunkSize && live == [] && Registered() == [] && fresh(finalizers)
      ensures chunks == [Chunk(first, chunkSize)] && calls == [] && released == [] && free == chunkSize
    {
      this.chunkSize := chunkSize;
      chunks, free, ptr := [Chunk(first, chunkSize)], chunkSize, first;
      finalizers := new Finalizer[0];
      tail, calls, released, live := 0, [], [], [];
    }

    /** The chunk size search: doubling, or the size itself when doubling wraps in 64 bits. */
    method GrowTo(size: nat) returns (sz: nat)
      requires chunkSize < TWO_64 && size < TWO_64
      ensures size <= sz < TWO_64 && chunkSize <= sz && (sz == chunkSize || sz < 2 * size)
    {
      sz := chunkSize;
      while sz < size
        invariant chunkSize <= sz < TWO_64 && (sz == chunkSize || sz < 2 * size)
        decreases size - sz
      {
        var tmpSz := (sz * 2) % TWO_64;
        if tmpSz <= sz {
          sz := size;
          break;
        }
        sz := tmpSz;
      }
    }

    ghost predicate Fits(mem: Memory, sz: nat)
      reads this
    {
      mem.At? ==>
        && mem.data % ALIGN == 0
        && forall i :: 0 <= i < |chunks| ==> Apart(Region(mem.data, sz), Area(chunks[i]))
    }

    /** The new head chunk of msgpack_zone_malloc_expand, of which the first `size` bytes are taken. */
    method PushChunk(data: nat, sz: nat, size: nat)
      requires Valid() && 0 < size <= sz && Fits(At(data), sz)
      modifies this`chunks, this`free, this`ptr, this`live
      ensures Valid() && chunks == [Chunk(data, sz)] + old(chunks)
      ensures live == old(live) + [Region(data, size)]
      ensures forall i :: 0 <= i < |live| - 1 ==> Apart(live[i], Region(data, size))
    {
      hide HasPlace;
      ghost var c, now := Chunk(data, sz), live + [Region(data, size)];
      forall i | 0 <= i < |live|
        ensures HasPlace([c] + chunks, data + size, live[i]) && Apart(live[i], Area(c))
      {
        BehindNewHead(chunks, ptr, live[i], c, data + size);
      }
      InNewHead(chunks, c, Region(data, size));
      chunks := [Chunk(data, sz)] + chunks;
      free := sz - size;
      ptr := data + size;
      assert now[|live|].size > 0;
      live := now;
    }

    /** Bytes from the head chunk: `skip` for alignment, then `size`. */
    method Bump(skip: nat, size: nat) returns (addr: nat)
      requires Valid() && skip + size <= free && (ptr % ALIGN == 0 ==> skip == 0)
      modifies this`free, this`ptr, this`live
      ensures Valid() && addr == old(ptr) + skip && ptr == addr + size && live == old(live) + [Region(addr, size)]
      ensures forall i :: 0 <= i < |live| - 1 ==> Apart(live[i], Region(addr, size))
    {
      hide HasPlace;
      addr := ptr + skip;
      ghost var now, ptr' := live + [Region(addr, size)], ptr + (skip + size);
      forall i | 0 <= i < |live|
        ensures HasPlace(chunks, ptr', live[i]) && Apart(live[i], Region(addr, size))
      {
        BesideBump(chunks, ptr, free, live[i], skip, size);
      }
      InHead(chunks, ptr, free, skip, size);
      assert now[|live|].size == size && forall i :: 0 <= i < |live| ==> now[i] == live[i];
      free := free - (skip + size);
      ptr := ptr + (skip + size);
      live := now;
    }

    /** msgpack_zone_malloc: aligned bytes from the head chunk, or from a new one big enough.
        `malloc` says what the system allocator returns for each size. The result overlaps nothing
        handed out before. */
    method Malloc(size: nat, malloc: nat -> Memory) returns (r: Memory)
      requires Valid() && chunkSize < TWO_64 && size + ALIGN < TWO_64
      requires forall n: nat :: Fits(malloc(n), n)
      modifies this`chunks, this`free, this`ptr, this`live
      ensures Valid()
      ensures r.Null? ==> live == old(live) && chunks == old(chunks) && free == old(free) && ptr == old(ptr)
      ensures r.At? ==> r.data % ALIGN == 0 && |live| == |old(live)| + 1 && old(live) <= live
                        && live[|old(live)|].addr == r.data && live[|old(live)|].size >= size
                        && forall i :: 0 <= i < |old(live)| ==> Apart(live[i], Region(r.data, size))
      ensures |chunks| <= |old(chunks)| + 1 && chunks[|chunks| - 1] == old(chunks[|chunks| - 1])
      ensures var skip := (ALIGN - old(ptr) % ALIGN) % ALIGN;
              // with room in the head, the next aligned bytes of it, and the system allocator is not asked
              && (old(free) >= size + skip ==>
                    r == At(old(ptr) + skip) && chunks == old(chunks) && ptr == old(ptr) + skip + size)
              // without, what the system allocator returns for a chunk that is big enough
              && (old(free) < size + skip ==>
                    exists n: nat :: size + (ALIGN - 1) <= n && (n == chunkSize || n < 2 * (size + (ALIGN - 1)))
                              && r == malloc(n) && (r.At? ==> chunks == [Chunk(r.data, n)] + old(chunks)))
    {
      hide AlignUp, HasPlace;
      var aligned := AlignUp(ptr);
      AlignedBy(ptr, aligned);
      var adjusted := size + (aligned - ptr);
      if free >= adjusted {
        var addr := Bump(aligned - ptr, size);
        return At(addr);
      }
      var grown := GrowTo(size + (ALIGN - 1));
      var mem := malloc(grown);
      assert Fits(mem, grown) && size + (ALIGN - 1) <= grown;
      if mem.Null? {
        return Null;
      }
      AlignedStays(mem.data);
      PushChunk(mem.data, grown, size + (ALIGN - 1));
      r := At(mem.data / ALIGN * ALIGN);
    }

    method Realloc(nnext: nat) returns (tmp: array<Finalizer>)
      requires Valid() && finalizers.Length <= nnext
      ensures fresh(tmp) && tmp.Length == nnext && tmp[..tail] == finalizers[..tail]
    {
      tmp := new Finalizer[nnext];
      forall i | 0 <= i < finalizers.Length {
        tmp[i] := finalizers[i];
      }
    }

    /** msgpack_zone_push_finalizer and its expand: room for 4 first, then twice as much each time.
        A failed realloc leaves everything as it was. */
    method PushFinalizer(func: nat, data: nat, reallocOk: bool) returns (ok: bool)
      requires Valid()
      modifies this`finalizers, this`tail, finalizers
      ensures Valid()
      ensures !ok ==> !reallocOk && unchanged(`finalizers, `tail) && Registered() == old(Registered())
      ensures ok ==> Registered() == old(Registered()) + [Finalizer(func, data)]
      ensures finalizers == old(finalizers) || fresh(finalizers)
    {
      if tail == finalizers.Length {
        var nused := finalizers.Length;
        var nnext := if nused == 0 then 72 / FINALIZER_SIZE else nused * 2;
        if !reallocOk {
          return false;
        }
        finalizers := Realloc(nnext);
      }
      finalizers[tail] := Finalizer(func, data);
      tail := tail + 1;
      ok := true;
    }

    /** call_finalizer_array: every registered finalizer once, the last one first. */
    method CallFinalizers()
      requires Valid()
      modifies this`calls
      ensures calls == old(calls) + Reversed(Registered())
    {
      var fin := tail;
      ghost var start := calls;
      assert finalizers[tail..tail] == [];
      while fin > 0
        invariant 0 <= fin <= tail
        invariant calls == start + Reversed(finalizers[fin..tail])
      {
        assert finalizers[fin - 1..tail] == [finalizers[fin - 1]] + finalizers[fin..tail];
        assert finalizers[fin - 1..tail][1..] == finalizers[fin..tail];
        calls := calls + [finalizers[fin - 1]];
        fin := fin - 1;
      }
      assert finalizers[0..tail] == finalizers[..tail];
    }

    /** msgpack_zone_clear: all finalizers run and are forgotten, all chunks but the last are freed,
        and the last one, being of exactly chunk_size bytes, is empty again. */
    method Clear()
      requires Valid()
      modifies this
      ensures Valid() && Registered() == [] && live == [] && finalizers == old(finalizers)
      ensures calls == old(calls) + Reversed(old(Registered()))
      ensures chunks == [old(chunks[|chunks| - 1])] && released == old(released) + old(chunks[..|chunks| - 1])
      ensures free == chunkSize == chunks[0].size && ptr == chunks[0].data
    {
      hide HasPlace, Reversed;
      CallFinalizers();
      tail := 0;
      var c := 0;
      while c + 1 < |chunks|
        invariant c < |chunks| && chunks == old(chunks) && tail == 0 && finalizers == old(finalizers)
        invariant released == old(released) + chunks[..c]
        invariant calls == old(calls) + Reversed(old(Registered()))
      {
        released := released + [chunks[c]];
        assert chunks[..c + 1] == chunks[..c] + [chunks[c]];
        c := c + 1;
      }
      chunks := [chunks[c]];
      free := chunkSize;
      ptr := chunks[0].data;
      live := [];
    }

    /** msgpack_zone_destroy: all finalizers run, every chunk is freed once. */
    method Destroy()
      requires Valid()
      modifies this
      ensures calls == old(calls) + Reversed(old(Registered()))
      ensures released == old(released) + old(chunks)
    {
      CallFinalizers();
      var c := 0;
      while c < |chunks|
        invariant c <= |chunks| && chunks == old(chunks)
        invariant released == old(released) + chunks[..c]
        invariant calls == old(calls) + Reversed(old(Registered()))
      {
        released := released + [chunks[c]];
        assert chunks[..c + 1] == chunks[..c] + [chunks[c]];
        c := c + 1;
      }
      assert chunks[..c] == chunks;
    }

    /** msgpack_zone_is_empty: exactly when no finalizer is registered and no byte is out. */
    method IsEmpty() returns (r: bool)
      requires Valid()
      ensures r <==> Registered() == [] && NothingOut()
    {
      r := free == chunkSize && |chunks| == 1 && tail == 0;
      if r {
        forall i | 0 <= i < |live| ensures live[i].size == 0 {
          var k :| Placed(chunks, ptr, k, live[i]);
        }
      }
    }
  }
}
