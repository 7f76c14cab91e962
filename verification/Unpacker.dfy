/** The streaming buffer of contrib/msgpack-c/src/unpack.c. Parsed strings point straight into the
    buffer, so buffers carry a count of their owners: the unpacker, and one for every finalizer a
    zone holds on them. */
module Unpacker {
  import opened Bytes
  import opened Collections
  import Z = Zone

  const COUNTER_SIZE: nat := 4

  type Addr = nat

  /** A malloc'ed buffer; its count lives in its first COUNTER_SIZE bytes. */
  datatype Buffer = Buffer(bytes: seq<Byte>, count: nat, freed: bool)

  /** A zone: the buffers its finalizers will release, in registration order, and the buffers its
      objects point into. */
  datatype Zone = Zone(fins: seq<Addr>, points: set<Addr>, live: bool)

  function Times(fins: seq<Addr>, a: Addr): nat {
    multiset(fins)[a]
  }

  /** Finalizers for a over all zones. */
  function Holds(zones: seq<Zone>, a: Addr): nat {
    if zones == [] then 0 else Holds(zones[1..], a) + Times(zones[0].fins, a)
  }

  lemma {:induction false} HoldsUpdate(zones: seq<Zone>, i: nat, z: Zone, a: Addr)
    requires i < |zones|
    ensures Holds(zones[i := z], a) + Times(zones[i].fins, a) == Holds(zones, a) + Times(z.fins, a)
  {
    if i == 0 {
      assert zones[0 := z][1..] == zones[1..];
    } else {
      assert zones[i := z][1..] == zones[1..][i - 1 := z];
      HoldsUpdate(zones[1..], i - 1, z, a);
    }
  }

  lemma {:induction false} HoldsAppend(zones: seq<Zone>, z: Zone, a: Addr)
    ensures Holds(zones + [z], a) == Holds(zones, a) + Times(z.fins, a)
  {
    if zones == [] {
      assert (zones + [z])[1..] == [];
    } else {
      assert (zones + [z])[1..] == zones[1..] + [z];
      HoldsAppend(zones[1..], z, a);
    }
  }

  lemma {:induction false} HoldsAtLeast(zones: seq<Zone>, i: nat, a: Addr)
    requires i < |zones|
    ensures Holds(zones, a) >= Times(zones[i].fins, a)
  {
    if i == 0 {
    } else {
      HoldsAtLeast(zones[1..], i - 1, a);
    }
  }

  lemma TimesLast(fins: seq<Addr>, x: Addr, a: Addr)
    ensures Times(fins + [x], a) == Times(fins, a) + (if a == x then 1 else 0)
  {
  }

  function Share(owner: Option<Addr>, a: Addr): nat {
    if owner == Some(a) then 1 else 0
  }

  function Owners(zones: seq<Zone>, owner: Option<Addr>, a: Addr): nat {
    Share(owner, a) + Holds(zones, a)
  }

  /** Every buffer's count is the number of its owners, it is freed exactly when that is zero, and
      whatever is owned was allocated. */
  ghost predicate Counted(buffers: map<Addr, Buffer>, zones: seq<Zone>, owner: Option<Addr>) {
    && (forall a :: a in buffers ==> buffers[a].count == Owners(zones, owner, a))
    && (forall a :: a in buffers ==> (buffers[a].freed <==> buffers[a].count == 0))
    && (forall a :: Owners(zones, owner, a) > 0 ==> a in buffers)
  }

  /** decr_count */
  function Decr(buffers: map<Addr, Buffer>, a: Addr): map<Addr, Buffer>
    requires a in buffers && buffers[a].count > 0
  {
    var n := buffers[a].count - 1;
    buffers[a := buffers[a].(count := n, freed := n == 0)]
  }

  /** incr_count */
  function Incr(buffers: map<Addr, Buffer>, a: Addr): map<Addr, Buffer>
    requires a in buffers
  {
    buffers[a := buffers[a].(count := buffers[a].count + 1)]
  }

  /** decr_count on one buffer after another. */
  function DecrAll(buffers: map<Addr, Buffer>, order: seq<Addr>): map<Addr, Buffer> {
    if order == [] then buffers
    else if order[0] in buffers && buffers[order[0]].count > 0 then DecrAll(Decr(buffers, order[0]), order[1..])
    else DecrAll(buffers, order[1..])
  }

  /** The same as finalizers of a zone: the function is decr_count, the data is the buffer. */
  const DECR_COUNT: nat := 1

  function AsFinalizers(fins: seq<Addr>): (r: seq<Z.Finalizer>)
    ensures |r| == |fins|
  {
    seq(|fins|, i requires 0 <= i < |fins| => Z.Finalizer(DECR_COUNT, fins[i]))
  }

  lemma {:induction false} ReversedFinalizers(fins: seq<Addr>)
    ensures Z.Reversed(AsFinalizers(fins)) == AsFinalizers(Z.Reversed(fins))
  {
    if fins == [] {
    } else {
      ReversedFinalizers(fins[1..]);
      assert AsFinalizers(fins)[1..] == AsFinalizers(fins[1..]);
      var rest := Z.Reversed(fins[1..]);
      assert AsFinalizers(rest + [fins[0]]) == AsFinalizers(rest) + [Z.Finalizer(DECR_COUNT, fins[0])];
    }
  }

  /** What a sequence of finalizer calls does to the buffers. */
  function Effect(buffers: map<Addr, Buffer>, calls: seq<Z.Finalizer>): map<Addr, Buffer> {
    DecrAll(buffers, seq(|calls|, i requires 0 <= i < |calls| => calls[i].data))
  }

  /** A zone whose registered finalizers are these calls exactly the reversed list, and that does to
      the buffers what RunFinalizers below does. */
  lemma ZoneCallsDecr(buffers: map<Addr, Buffer>, fins: seq<Addr>)
    ensures Effect(buffers, Z.Reversed(AsFinalizers(fins))) == DecrAll(buffers, Z.Reversed(fins))
  {
    ReversedFinalizers(fins);
    var calls := AsFinalizers(Z.Reversed(fins));
    assert seq(|calls|, i requires 0 <= i < |calls| => calls[i].data) == Z.Reversed(fins);
  }

  lemma LastFirst(buffers: map<Addr, Buffer>, fins: seq<Addr>, a: Addr)
    requires a in buffers && buffers[a].count > 0
    ensures DecrAll(buffers, Z.Reversed(fins + [a])) == DecrAll(Decr(buffers, a), Z.Reversed(fins))
  {
    Z.ReversedLast(fins, a);
    assert ([a] + Z.Reversed(fins))[1..] == Z.Reversed(fins);
  }

  lemma {:induction false} DecrLast(buffers: map<Addr, Buffer>, order: seq<Addr>, a: Addr)
    ensures DecrAll(buffers, order + [a]) == DecrAll(DecrAll(buffers, order), [a])
    decreases |order|
  {
    if order == [] {
      assert [] + [a] == [a];
    } else {
      assert (order + [a])[0] == order[0] && (order + [a])[1..] == order[1..] + [a];
      if order[0] in buffers && buffers[order[0]].count > 0 {
        DecrLast(Decr(buffers, order[0]), order[1..], a);
      } else {
        DecrLast(buffers, order[1..], a);
      }
    }
  }

  lemma DecrOne(buffers: map<Addr, Buffer>, a: Addr)
    requires a in buffers && buffers[a].count > 0
    ensures DecrAll(buffers, [a]) == Decr(buffers, a)
  {
    assert [a][1..] == [];
  }

  lemma NoDecrs(buffers: map<Addr, Buffer>)
    ensures DecrAll(buffers, []) == buffers
  {
  }

  lemma NoDecr(buffers: map<Addr, Buffer>)
    ensures DecrAll(buffers, Z.Reversed([])) == buffers
  {
  }

  /** What malloc or realloc leaves in memory that was never written. */
  function Filled(n: nat, filler: nat -> Byte): (r: seq<Byte>)
    ensures |r| == n
  {
    seq(n, i requires 0 <= i => filler(i))
  }

  /** One share less in buffer a, and decr_count. */
  lemma ShareLeaves(buffers: map<Addr, Buffer>, zones: seq<Zone>, owner: Option<Addr>,
                    zones': seq<Zone>, owner': Option<Addr>, a: Addr)
    requires Counted(buffers, zones, owner) && Owners(zones, owner, a) > 0
    requires forall b :: Owners(zones', owner', b) == Owners(zones, owner, b) - (if a == b then 1 else 0)
    ensures a in buffers && buffers[a].count > 0 && Counted(Decr(buffers, a), zones', owner')
  {
    hide Owners;
  }

  /** One share more, and incr_count. */
  lemma ShareArrives(buffers: map<Addr, Buffer>, zones: seq<Zone>, owner: Option<Addr>, zones': seq<Zone>, a: Addr)
    requires Counted(buffers, zones, owner) && a in buffers && buffers[a].count > 0
    requires forall b :: Owners(zones', owner, b) == Owners(zones, owner, b) + (if a == b then 1 else 0)
    ensures Counted(Incr(buffers, a), zones', owner)
  {
    hide Owners;
  }

  lemma OwnerLeaves(buffers: map<Addr, Buffer>, zones: seq<Zone>, a: Addr)
    requires Counted(buffers, zones, Some(a))
    ensures a in buffers && buffers[a].count > 0 && Counted(Decr(buffers, a), zones, None)
  {
    hide Counted;
    forall b ensures Owners(zones, None, b) == Owners(zones, Some(a), b) - (if a == b then 1 else 0) {}
    ShareLeaves(buffers, zones, Some(a), zones, None, a);
  }

  lemma OwnerArrives(buffers: map<Addr, Buffer>, zones: seq<Zone>, a: Addr, bytes: seq<Byte>)
    requires Counted(buffers, zones, None) && a !in buffers
    ensures Counted(buffers[a := Buffer(bytes, 1, false)], zones, Some(a))
  {
    assert Owners(zones, None, a) == 0;
    forall b ensures Owners(zones, Some(a), b) == Owners(zones, None, b) + (if a == b then 1 else 0) {}
  }

  lemma FinalizerRuns(buffers: map<Addr, Buffer>, zones: seq<Zone>, owner: Option<Addr>, i: nat, z: Zone, a: Addr)
    requires Counted(buffers, zones, owner) && i < |zones| && zones[i].fins == z.fins + [a]
    ensures a in buffers && buffers[a].count > 0 && Counted(Decr(buffers, a), zones[i := z], owner)
  {
    hide Counted, Times, Holds;
    forall b ensures Owners(zones[i := z], owner, b) == Owners(zones, owner, b) - (if a == b then 1 else 0) {
      HoldsUpdate(zones, i, z, b);
      TimesLast(z.fins, a, b);
    }
    HoldsAtLeast(zones, i, a);
    ShareLeaves(buffers, zones, owner, zones[i := z], owner, a);
  }

  lemma FinalizerAdded(buffers: map<Addr, Buffer>, zones: seq<Zone>, owner: Option<Addr>, i: nat, z: Zone, a: Addr)
    requires Counted(buffers, zones, owner) && i < |zones| && z.fins == zones[i].fins + [a]
    requires a in buffers && buffers[a].count > 0
    ensures Counted(Incr(buffers, a), zones[i := z], owner)
  {
    hide Counted, Times, Holds;
    forall b ensures Owners(zones[i := z], owner, b) == Owners(zones, owner, b) + (if a == b then 1 else 0) {
      HoldsUpdate(zones, i, z, b);
      TimesLast(zones[i].fins, a, b);
    }
    ShareArrives(buffers, zones, owner, zones[i := z], a);
  }

  /** A finalizer takes over the unpacker's own share. */
  lemma OwnerBecomesFinalizer(buffers: map<Addr, Buffer>, zones: seq<Zone>, i: nat, z: Zone, a: Addr)
    requires Counted(buffers, zones, Some(a)) && i < |zones| && z.fins == zones[i].fins + [a]
    ensures Counted(buffers, zones[i := z], None)
  {
    forall b ensures Owners(zones[i := z], None, b) == Owners(zones, Some(a), b) {
      HoldsUpdate(zones, i, z, b);
      TimesLast(zones[i].fins, a, b);
    }
  }

  lemma SameFinalizers(buffers: map<Addr, Buffer>, zones: seq<Zone>, owner: Option<Addr>, i: nat, z: Zone)
    requires Counted(buffers, zones, owner) && i < |zones| && z.fins == zones[i].fins
    ensures Counted(buffers, zones[i := z], owner)
  {
    forall b ensures Owners(zones[i := z], owner, b) == Owners(zones, owner, b) {
      HoldsUpdate(zones, i, z, b);
    }
  }

  lemma ZoneArrives(buffers: map<Addr, Buffer>, zones: seq<Zone>, owner: Option<Addr>)
    requires Counted(buffers, zones, owner)
    ensures Counted(buffers, zones + [Zone([], {}, true)], owner)
  {
    forall b ensures Owners(zones + [Zone([], {}, true)], owner, b) == Owners(zones, owner, b) {
      HoldsAppend(zones, Zone([], {}, true), b);
    }
  }

  /** realloc of a buffer nobody but the unpacker owns: it may move. */
  lemma BufferMoves(buffers: map<Addr, Buffer>, zones: seq<Zone>, a: Addr, to: Addr, bytes: seq<Byte>)
    requires Counted(buffers, zones, Some(a)) && a in buffers && buffers[a].count == 1
    requires to == a || to !in buffers
    ensures Counted((buffers - {a})[to := Buffer(bytes, 1, false)], zones, Some(to))
  {
    assert Holds(zones, a) == 0;
    assert to != a ==> Owners(zones, Some(a), to) == 0;
    forall b ensures Owners(zones, Some(to), b) == Holds(zones, b) + (if b == to then 1 else 0) {}
    assert forall b :: b != a && b != to ==> Owners(zones, Some(to), b) == Owners(zones, Some(a), b);
  }

  /** Everything there is to an unpacker, as a value. */
  datatype State = State(buffers: map<Addr, Buffer>, zones: seq<Zone>, alive: bool, buffer: Addr, used: nat, free: nat,
                         off: nat, parsed: nat, z: Option<nat>, initialBufferSize: nat, referenced: bool)

  /** Zone i with its finalizers run and its objects gone. */
  function Emptied(zones: seq<Zone>, i: nat, live: bool): seq<Zone>
    requires i < |zones|
  {
    zones[i := Zone([], {}, live)]
  }

  /** Zone i with one more finalizer. */
  function Sharing(zones: seq<Zone>, i: nat, a: Addr): seq<Zone>
    requires i < |zones|
  {
    zones[i := zones[i].(fins := zones[i].fins + [a])]
  }

  /** What a parse does to the zones: it makes the current one if it needs one and has none, and an
      object that points into the buffer goes there. */
  function ZonesAfter(zones: seq<Zone>, z: Option<nat>, buffer: Addr, needsZone: bool, points: bool): seq<Zone> {
    var made := if needsZone && z.None? then zones + [Zone([], {}, true)] else zones;
    var at := if z.Some? then z.value else |zones|;
    if points && at < |made| then made[at := made[at].(points := made[at].points + {buffer})] else made
  }

  /** The bytes received and not yet parsed, of a state that makes sense. */
  function UnparsedOf(s: State): seq<Byte> {
    if s.alive && s.buffer in s.buffers && s.off <= s.used <= |s.buffers[s.buffer].bytes| then
      s.buffers[s.buffer].bytes[s.off..s.used]
    else []
  }

  predicate Rewinds(s: State) {
    s.used == s.off >= COUNTER_SIZE && s.buffer in s.buffers && s.buffers[s.buffer].count == 1 && !s.referenced
  }

  function Rewound(s: State): State {
    if Rewinds(s) then s.(free := s.free + (s.used - COUNTER_SIZE), used := COUNTER_SIZE, off := COUNTER_SIZE) else s
  }

  /** A request for room is granted: without allocating, by growing a buffer nobody else owns, or by
      moving on to a new one. */
  predicate Granted(s: State, size: nat, block: Option<Addr>, pushOk: bool) {
    var w := Rewound(s);
    (Rewinds(s) && w.free >= size) || (block.Some? && (w.off == COUNTER_SIZE || pushOk || !s.referenced))
  }

  /** The buffer makes way: nothing of it is parsed and it grows, in place or elsewhere, or it is left
      for a new one. Either way the unparsed bytes stay. */
  predicate Replaced(s: State, size: nat, block: Addr, inPlace: bool, t: State) {
    && UnparsedOf(t) == UnparsedOf(s) && t.free >= size && t.buffer in t.buffers
    && if s.off == COUNTER_SIZE then
         && t == s.(buffers := t.buffers, buffer := if inPlace then s.buffer else block, free := t.free)
         && t.buffers == (s.buffers - {s.buffer})[t.buffer := Buffer(t.buffers[t.buffer].bytes, 1, false)]
       else
         && s.buffer in s.buffers && s.buffers[s.buffer].count > 0
         && (s.referenced ==> s.z.Some? && s.z.value < |s.zones|)
         && t == s.(buffers := t.buffers, buffer := block, used := COUNTER_SIZE + |UnparsedOf(s)|, free := t.free,
                    off := COUNTER_SIZE, referenced := false,
                    zones := if s.referenced then Sharing(s.zones, s.z.value, s.buffer) else s.zones)
         && t.buffers == (if s.referenced then s.buffers else Decr(s.buffers, s.buffer))
                             [block := Buffer(t.buffers[block].bytes, 1, false)]
  }

  /** What a request for room leads to. */
  predicate Grown(s: State, size: nat, block: Option<Addr>, inPlace: bool, pushOk: bool, t: State) {
    var w := Rewound(s);
    if Granted(s, size, block, pushOk) && !(Rewinds(s) && w.free >= size) then
      block.Some? && Replaced(w, size, block.value, inPlace, t)
    else t == w
  }

  /** A new unpacker on a buffer with these bytes in it. */
  function Started(addr: Addr, bytes: seq<Byte>): State
    requires |bytes| >= COUNTER_SIZE
  {
    State(map[addr := Buffer(bytes, 1, false)], [], true, addr, COUNTER_SIZE, |bytes| - COUNTER_SIZE,
          COUNTER_SIZE, 0, None, |bytes|, false)
  }

  class Unpacker {
    var buffers: map<Addr, Buffer>
    var zones: seq<Zone>
    var alive: bool
    var buffer: Addr
    var used: nat
    var free: nat
    var off: nat
    var parsed: nat
    var z: Option<nat>
    var initialBufferSize: nat
    var referenced: bool

    ghost function Owner(): Option<Addr>
      reads this
    {
      if alive then Some(buffer) else None
    }

    /** A zone whose objects point into a buffer holds a finalizer for it, or is the current zone
        while `referenced` is set on the current buffer. */
    ghost predicate Backed(i: nat, a: Addr)
      requires i < |zones|
      reads this
    {
      a in zones[i].fins || (alive && z == Some(i) && referenced && a == buffer)
    }

    ghost predicate Valid()
      reads this
    {
      && Counted(buffers, zones, Owner())
      && (forall i, a :: 0 <= i < |zones| && a in zones[i].points ==> Backed(i, a))
      && (forall i :: 0 <= i < |zones| && !zones[i].live ==> zones[i].fins == [] && zones[i].points == {})
      && (alive ==>
            && buffer in buffers && |buffers[buffer].bytes| == used + free
            && COUNTER_SIZE <= off <= used
            && initialBufferSize >= COUNTER_SIZE
            && (z.Some? ==> z.value < |zones| && zones[z.value].live)
            && (referenced ==> z.Some?)
            && (off == COUNTER_SIZE ==> buffers[buffer].count == 1 && !referenced))
    }

    function View(): State
      reads this
    {
      State(buffers, zones, alive, buffer, used, free, off, parsed, z, initialBufferSize, referenced)
    }

    /** The bytes received and not yet parsed. */
    ghost function Unparsed(): seq<Byte>
      requires Valid() && alive
      reads this
    {
      buffers[buffer].bytes[off..used]
    }

    /** Objects never outlive the buffers they point into: as long as a zone has not been freed or
        cleared, none of the buffers its objects point into is freed. */
    lemma ObjectsAreSafe(i: nat, a: Addr)
      requires Valid() && i < |zones| && a in zones[i].points
      ensures a in buffers && !buffers[a].freed && zones[i].live
    {
      assert Backed(i, a);
      if a in zones[i].fins {
        HoldsAtLeast(zones, i, a);
        assert Owners(zones, Owner(), a) > 0;
      }
    }

    /** A buffer that a zone's objects point into is never the one that realloc may move. */
    lemma ReallocIsSafe(i: nat)
      requires Valid() && alive && off == COUNTER_SIZE && i < |zones|
      ensures buffer !in zones[i].points && buffer !in zones[i].fins
    {
      HoldsAtLeast(zones, i, buffer);
      assert buffers[buffer].count == Owners(zones, Owner(), buffer);
      assert buffer in zones[i].points ==> Backed(i, buffer);
    }

    /** Once the unpacker and all zones are gone, every buffer has been freed. */
    lemma NoLeak()
      requires Valid() && !alive && forall i :: 0 <= i < |zones| ==> !zones[i].live
      ensures forall a :: a in buffers ==> buffers[a].freed
    {
      forall a | a in buffers ensures buffers[a].freed {
        NoFinalizers(zones, a);
        assert buffers[a].count == Owners(zones, Owner(), a);
      }
    }

    /** msgpack_unpacker_init; `addr` and `bytes` are what malloc returned. */
    constructor (addr: Addr, size: nat, bytes: seq<Byte>)
      requires |bytes| == if size < COUNTER_SIZE then COUNTER_SIZE else size
      ensures Valid() && alive && Unparsed() == [] && zones == [] && z == None && parsed == 0
      ensures used + free == |bytes| && buffers == map[addr := Buffer(bytes, 1, false)]
              && View() == Started(addr, bytes)
    {
      buffers := map[addr := Buffer(bytes, 1, false)];
      zones, alive, buffer := [], true, addr;
      used, off, parsed := COUNTER_SIZE, COUNTER_SIZE, 0;
      free, initialBufferSize := |bytes| - COUNTER_SIZE, |bytes|;
      z, referenced := None, false;
    }

    /** The caller fills the free space and reports it with msgpack_unpacker_buffer_consumed. */
    method Feed(data: seq<Byte>)
      requires Valid() && alive && |data| <= free
      modifies this
      ensures Valid() && alive && Unparsed() == old(Unparsed()) + data
      ensures unchanged(`zones, `buffer, `off, `parsed, `z, `referenced, `initialBufferSize)
      ensures buffers == old(buffers)[buffer := old(buffers)[buffer].(bytes := buffers[buffer].bytes)]
      ensures used == old(used) + |data| && free == old(free) - |data|
    {
      var b := buffers[buffer];
      var bytes := b.bytes[..used] + data + b.bytes[used + |data|..];
      buffers := buffers[buffer := b.(bytes := bytes)];
      assert bytes[off..used + |data|] == b.bytes[off..used] + data;
      used := used + |data|;
      free := free - |data|;
    }

    /** msgpack_unpacker_execute. What the parser does is given: how far it gets, whether it needed
        a zone, and whether it made a string, binary or extension object, which points into the
        buffer. It makes one only out of bytes it passes. */
    method Execute(newOff: nat, needsZone: bool, points: bool)
      requires Valid() && alive && off <= newOff <= used
      requires points ==> needsZone && newOff > off
      modifies this
      ensures Valid() && alive && Unparsed() == old(Unparsed())[newOff - old(off)..]
      ensures parsed == old(parsed) + (newOff - old(off)) && off == newOff
      ensures unchanged(`buffers, `buffer, `used, `free, `initialBufferSize)
      ensures zones == ZonesAfter(old(zones), old(z), buffer, needsZone, points)
      ensures z == if needsZone && old(z).None? then Some(|old(zones)|) else old(z)
      ensures referenced == (old(referenced) || points)
      ensures !needsZone || old(z).Some? ==> z == old(z) && |zones| == |old(zones)|
      ensures points ==> z.Some? && buffer in zones[z.value].points
      ensures old(z).None? && needsZone ==> z == Some(|old(zones)|) && |zones| == |old(zones)| + 1
    {
      hide Counted;
      if needsZone && z.None? {
        ZoneArrives(buffers, zones, Owner());
        z := Some(|zones|);
        zones := zones + [Zone([], {}, true)];
      }
      if points {
        var zone := zones[z.value];
        SameFinalizers(buffers, zones, Owner(), z.value, zone.(points := zone.points + {buffer}));
        zones := zones[z.value := zone.(points := zone.points + {buffer})];
        referenced := true;
      }
      if newOff > off {
        parsed := parsed + (newOff - off);
      }
      off := newOff;
    }

    /** msgpack_unpacker_flush_zone */
    method FlushZone(pushOk: bool) returns (ok: bool)
      requires Valid() && alive
      modifies this`buffers, this`zones, this`referenced
      ensures Valid() && Unparsed() == old(Unparsed())
      ensures ok == (pushOk || !old(referenced))
      ensures !ok ==> unchanged(this)
      ensures ok ==> !referenced && |zones| == |old(zones)|
      ensures ok && old(referenced) ==> zones == Sharing(old(zones), z.value, buffer)
                                          && buffers == Incr(old(buffers), buffer)
      ensures ok && old(referenced) ==> zones[z.value].fins == old(zones[z.value].fins) + [buffer]
                                        && buffers[buffer].count == old(buffers[buffer].count) + 1
      ensures ok && !old(referenced) ==> unchanged(this)
    {
      hide Counted;
      if referenced {
        if !pushOk {
          return false;
        }
        var zone := zones[z.value];
        var more := zone.(fins := zone.fins + [buffer]);
        CountStaysOne();
        FinalizerAdded(buffers, zones, Owner(), z.value, more, buffer);
        zones := zones[z.value := more];
        buffers := Incr(buffers, buffer);
        referenced := false;
      }
      ok := true;
    }

    /** msgpack_unpacker_release_zone: the zone now belongs to the caller, with a share in every
        buffer its objects point into. */
    method ReleaseZone(pushOk: bool) returns (r: Option<nat>)
      requires Valid() && alive
      modifies this`buffers, this`zones, this`referenced, this`z
      ensures Valid() && Unparsed() == old(Unparsed())
      ensures r == if old(z).None? || (old(referenced) && !pushOk) then None else old(z)
      ensures r.Some? ==> z == None && !referenced && r.value < |zones| && zones[r.value].live
                          && forall a :: a in zones[r.value].points ==> a in zones[r.value].fins
      ensures r.None? ==> unchanged(this)
      ensures r.Some? && old(referenced) ==> zones == Sharing(old(zones), r.value, buffer)
                                               && buffers == Incr(old(buffers), buffer)
      ensures r.Some? && !old(referenced) ==> unchanged(`zones, `buffers)
    {
      hide Counted;
      r := z;
      if r.None? {
        return;
      }
      var ok := FlushZone(pushOk);
      if !ok {
        return None;
      }
      assert forall a :: a in zones[r.value].points ==> Backed(r.value, a);
      z := None;
    }

    /** call_finalizer_array on zone i: each finalizer once, the last registered first. */
    method RunFinalizers(i: nat)
      requires Valid() && i < |zones|
      modifies this`buffers
      ensures Counted(buffers, zones[i := zones[i].(fins := [])], Owner())
      ensures buffers == DecrAll(old(buffers), Z.Reversed(zones[i].fins))
      ensures buffers.Keys == old(buffers).Keys
      ensures forall a :: a in buffers ==> buffers[a].bytes == old(buffers)[a].bytes
      ensures alive ==> buffers[buffer].count <= old(buffers)[buffer].count
    {
      hide Counted, DecrAll;
      var fin := |zones[i].fins|;
      assert zones[i].fins[..fin] == zones[i].fins;
      assert zones[i := zones[i].(fins := zones[i].fins[..fin])] == zones;
      while fin > 0
        invariant 0 <= fin <= |zones[i].fins|
        invariant Counted(buffers, zones[i := zones[i].(fins := zones[i].fins[..fin])], Owner())
        invariant DecrAll(buffers, Z.Reversed(zones[i].fins[..fin])) == DecrAll(old(buffers), Z.Reversed(zones[i].fins))
        invariant buffers.Keys == old(buffers).Keys
        invariant forall a :: a in buffers ==> buffers[a].bytes == old(buffers)[a].bytes
        invariant alive ==> buffers[buffer].count <= old(buffers)[buffer].count
      {
        var a := zones[i].fins[fin - 1];
        ghost var now := zones[i := zones[i].(fins := zones[i].fins[..fin])];
        ghost var less := zones[i].(fins := zones[i].fins[..fin - 1]);
        assert zones[i].fins[..fin] == zones[i].fins[..fin - 1] + [a];
        FinalizerRuns(buffers, now, Owner(), i, less, a);
        LastFirst(buffers, zones[i].fins[..fin - 1], a);
        assert now[i := less] == zones[i := less];
        buffers := Decr(buffers, a);
        fin := fin - 1;
      }
      assert zones[i].fins[..0] == [];
      NoDecr(buffers);
    }

    /** msgpack_zone_free of a zone its holder is done with: a released one, or the current one when
        the unpacker goes. */
    method FreeZone(i: nat)
      requires Valid() && i < |zones| && zones[i].live && (alive ==> z != Some(i))
      modifies this`buffers, this`zones
      ensures Valid() && zones == old(zones)[i := Zone([], {}, false)]
      ensures buffers == DecrAll(old(buffers), Z.Reversed(old(zones)[i].fins))
      ensures alive ==> Unparsed() == old(Unparsed())
    {
      hide Counted;
      RunFinalizers(i);
      SameFinalizers(buffers, zones[i := zones[i].(fins := [])], Owner(), i, Zone([], {}, false));
      zones := zones[i := zones[i].(fins := [])][i := Zone([], {}, false)];
      if alive {
        CountStaysOne();
      }
    }

    /** While the unpacker owns its buffer the count cannot fall under one. */
    lemma CountStaysOne()
      requires Counted(buffers, zones, Owner()) && alive
      ensures buffer in buffers && buffers[buffer].count >= 1
    {
      assert Owners(zones, Owner(), buffer) >= 1;
    }

    /** msgpack_unpacker_reset_zone; there must be a zone. */
    method ResetZone()
      requires Valid() && alive && z.Some?
      modifies this`buffers, this`zones
      ensures Valid() && Unparsed() == old(Unparsed())
      ensures zones == old(zones)[z.value := Zone([], {}, true)]
      ensures buffers == DecrAll(old(buffers), Z.Reversed(old(zones)[z.value].fins))
    {
      hide Counted;
      var i := z.value;
      RunFinalizers(i);
      SameFinalizers(buffers, zones[i := zones[i].(fins := [])], Owner(), i, Zone([], {}, true));
      zones := zones[i := zones[i].(fins := [])][i := Zone([], {}, true)];
      CountStaysOne();
    }

    /** msgpack_unpacker_destroy */
    method Destroy()
      requires Valid() && alive
      modifies this
      ensures Valid() && !alive
      ensures |zones| == |old(zones)|
      ensures forall i :: 0 <= i < |zones| && old(z) != Some(i) ==> zones[i] == old(zones)[i]
      ensures old(z).Some? ==> !zones[old(z).value].live
      ensures old(z).Some? ==> zones == Emptied(old(zones), old(z).value, false)
      ensures old(z).None? ==> zones == old(zones)
      ensures unchanged(`buffer, `used, `free, `off, `parsed, `z, `initialBufferSize, `referenced)
      ensures buffers == DecrAll(old(buffers),
                                 (if old(z).Some? then Z.Reversed(old(zones)[old(z).value].fins) else []) + [buffer])
    {
      hide Counted, DecrAll;
      ghost var order, all := if z.Some? then Z.Reversed(zones[z.value].fins) else [], buffers;
      NoDecrs(buffers);
      if z.Some? {
        RunFinalizers(z.value);
        SameFinalizers(buffers, zones[z.value := zones[z.value].(fins := [])], Owner(), z.value, Zone([], {}, false));
        zones := zones[z.value := zones[z.value].(fins := [])][z.value := Zone([], {}, false)];
      }
      OwnerLeaves(buffers, zones, buffer);
      DecrLast(all, order, buffer);
      DecrOne(buffers, buffer);
      buffers := Decr(buffers, buffer);
      alive := false;
    }

    /** The size search of both growth branches: double until it is enough, or stop at the exact
        size when doubling wraps in 64 bits. */
    method Grow(start: nat, target: nat) returns (next: nat)
      requires start < TWO_64 && target < TWO_64
      ensures target <= next < TWO_64 && (next == start || next < 2 * target)
    {
      next := start;
      while next < target
        invariant next < TWO_64 && (next == start || next < 2 * target)
        decreases target - next
      {
        var tmp := (next * 2) % TWO_64;
        if tmp <= next {
          next := target;
          break;
        }
        next := tmp;
      }
    }

    lemma Bounds()
      requires Valid() && alive
      ensures COUNTER_SIZE <= off <= used && buffer in buffers && used + free == |buffers[buffer].bytes|
      ensures off == COUNTER_SIZE ==> buffers[buffer].count == 1 && !referenced
      ensures referenced ==> z.Some? && z.value < |zones|
    {
      hide Counted;
    }

    /** The rewind of msgpack_unpacker_expand_buffer. */
    method Rewind()
      requires Valid() && alive && used == off && buffers[buffer].count == 1 && !referenced
      modifies this`free, this`used, this`off
      ensures Valid() && Unparsed() == old(Unparsed()) == [] && used == off == COUNTER_SIZE
      ensures used + free == old(used + free)
    {
      free := free + (used - COUNTER_SIZE);
      used := COUNTER_SIZE;
      off := COUNTER_SIZE;
    }

    /** The realloc branch: nothing of this buffer was parsed, so nobody points into it. */
    method Reallocate(size: nat, block: Option<Addr>, inPlace: bool, filler: nat -> Byte) returns (ok: bool)
      requires Valid() && alive && off == COUNTER_SIZE && size + used < TWO_64
      requires block.Some? ==> block.value !in buffers
      modifies this`buffers, this`buffer, this`free
      ensures Valid() && Unparsed() == old(Unparsed())
      ensures ok == block.Some? && (!ok ==> unchanged(this))
      ensures ok ==> free >= size && used == old(used) && buffer == if inPlace then old(buffer) else block.value
      ensures ok ==> buffer in buffers
                     && buffers == (old(buffers) - {old(buffer)})[buffer := Buffer(buffers[buffer].bytes, 1, false)]
    {
      hide Counted;
      var next := Grow(((used + free) * 2) % TWO_64, size + used);
      if block.None? {
        return false;
      }
      var to := if inPlace then buffer else block.value;
      var bytes: seq<Byte> := buffers[buffer].bytes[..used] + Filled(next - used, filler);
      BufferMoves(buffers, zones, buffer, to, bytes);
      assert bytes[off..used] == buffers[buffer].bytes[off..used];
      assert forall i, a :: 0 <= i < |zones| && a in zones[i].points ==> Backed(i, a);
      buffers := (buffers - {buffer})[to := Buffer(bytes, 1, false)];
      buffer := to;
      free := next - used;
      ok := true;
    }

    /** The unpacker gives its buffer up: to the current zone if objects point into it. */
    method LeaveBuffer()
      requires Valid() && alive
      modifies this`buffers, this`zones, this`referenced
      ensures old(buffer in buffers && buffers[buffer].count > 0) && Counted(buffers, zones, None) && !referenced
      ensures zones == if old(referenced) then Sharing(old(zones), z.value, buffer) else old(zones)
      ensures buffers == if old(referenced) then old(buffers) else Decr(old(buffers), buffer)
      ensures forall i, a :: 0 <= i < |zones| && a in zones[i].points ==> a in zones[i].fins
      ensures forall i :: 0 <= i < |zones| && !zones[i].live ==> zones[i].fins == [] && zones[i].points == {}
      ensures z.Some? ==> z.value < |zones| && zones[z.value].live
    {
      hide Counted;
      CountStaysOne();
      assert forall i, a :: 0 <= i < |zones| && a in zones[i].points ==> Backed(i, a);
      if referenced {
        var zone := zones[z.value];
        var more := zone.(fins := zone.fins + [buffer]);
        OwnerBecomesFinalizer(buffers, zones, z.value, more, buffer);
        zones := zones[z.value := more];
        referenced := false;
      } else {
        OwnerLeaves(buffers, zones, buffer);
        buffers := Decr(buffers, buffer);
      }
    }

    /** The copy-out branch: the unparsed bytes move to a new buffer; the old one goes to the
        current zone if objects point into it, and loses the unpacker's share if not. */
    method CopyOut(size: nat, malloc: Option<Addr>, filler: nat -> Byte, pushOk: bool) returns (ok: bool)
      requires Valid() && alive && off > COUNTER_SIZE
      requires size + used < TWO_64 && initialBufferSize < TWO_64
      requires malloc.Some? ==> malloc.value !in buffers
      modifies this`buffers, this`buffer, this`free, this`used, this`off, this`zones, this`referenced
      ensures Valid() && Unparsed() == old(Unparsed())
      ensures ok == (malloc.Some? && (pushOk || !old(referenced))) && (!ok ==> unchanged(this))
      ensures ok ==> free >= size && off == COUNTER_SIZE
      ensures ok ==> buffer == malloc.value && used == COUNTER_SIZE + |old(Unparsed())| && !referenced
      ensures ok ==> zones == if old(referenced) then Sharing(old(zones), z.value, old(buffer)) else old(zones)
      ensures ok ==> old(buffer in buffers && buffers[buffer].count > 0) && buffer in buffers
      ensures ok ==> buffers == (if old(referenced) then old(buffers) else Decr(old(buffers), old(buffer)))
                                [buffer := Buffer(buffers[buffer].bytes, 1, false)]
    {
      hide Counted, Sharing;
      CountStaysOne();
      var notParsed := used - off;
      var next := Grow(initialBufferSize, size + notParsed + COUNTER_SIZE);
      if malloc.None? {
        return false;
      }
      var data := buffers[buffer].bytes[off..used];
      var bytes: seq<Byte> := Zeros(COUNTER_SIZE) + data + Filled(next - COUNTER_SIZE - notParsed, filler);
      assert bytes[COUNTER_SIZE..COUNTER_SIZE + notParsed] == data;
      if referenced && !pushOk {
        return false;
      }
      LeaveBuffer();
      OwnerArrives(buffers, zones, malloc.value, bytes);
      buffers := buffers[malloc.value := Buffer(bytes, 1, false)];
      buffer := malloc.value;
      used := notParsed + COUNTER_SIZE;
      free := next - used;
      off := COUNTER_SIZE;
      ok := true;
    }

    /** The two branches that allocate. */
    method GrowOrMove(size: nat, block: Option<Addr>, inPlace: bool, filler: nat -> Byte, pushOk: bool)
      returns (ok: bool)
      requires Valid() && alive
      requires size + used < TWO_64 && initialBufferSize < TWO_64
      requires block.Some? ==> block.value !in buffers
      modifies this
      ensures Valid() && alive && Unparsed() == old(Unparsed()) && unchanged(`parsed, `z, `initialBufferSize)
      ensures ok == (block.Some? && (pushOk || !old(referenced))) && (!ok ==> unchanged(this))
      ensures ok ==> Replaced(old(View()), size, block.value, inPlace, View())
      ensures ok ==> free >= size && buffers[buffer].count == 1 && !referenced
      ensures ok && old(off) == COUNTER_SIZE ==>
                && buffer == (if inPlace then old(buffer) else block.value)
                && unchanged(`zones, `used, `off)
                && buffers.Keys == old(buffers).Keys - {old(buffer)} + {buffer}
      ensures ok && old(off) > COUNTER_SIZE ==>
                && buffer == block.value && off == COUNTER_SIZE && buffers.Keys == old(buffers).Keys + {buffer}
                && (old(referenced) ==>
                      && zones == old(zones[z.value := zones[z.value].(fins := zones[z.value].fins + [buffer])])
                      && buffers[old(buffer)] == old(buffers[buffer]))
                && (!old(referenced) ==>
                      && zones == old(zones) && buffers[old(buffer)].count == old(buffers[buffer].count) - 1)
      ensures ok ==> forall a :: a in old(buffers) && a != old(buffer) ==> a in buffers && buffers[a] == old(buffers)[a]
    {
      hide Counted;
      CountStaysOne();
      if off == COUNTER_SIZE {
        ok := Reallocate(size, block, inPlace, filler);
      } else {
        ok := CopyOut(size, block, filler, pushOk);
      }
    }

    /** msgpack_unpacker_expand_buffer: when it succeeds there is room for `size` more bytes; either
        way the unparsed bytes are the same. `block` is the memory that malloc or realloc finds, if
        any; `inPlace` says that realloc could grow the buffer where it is. */
    method ExpandBuffer(size: nat, block: Option<Addr>, inPlace: bool, filler: nat -> Byte, pushOk: bool)
      returns (ok: bool)
      requires Valid() && alive
      requires size + used < TWO_64 && initialBufferSize < TWO_64
      requires block.Some? ==> block.value !in buffers
      modifies this
      ensures Valid() && alive && Unparsed() == old(Unparsed())
      ensures used + free == |buffers[buffer].bytes|
      ensures ok ==> free >= size
      ensures !ok ==> buffers == old(buffers) && zones == old(zones) && referenced == old(referenced)
      ensures unchanged(`parsed, `z, `initialBufferSize, `alive)
      ensures ok == Granted(old(View()), size, block, pushOk)
              && Grown(old(View()), size, block, inPlace, pushOk, View())
      ensures var reusable := old(used == off && buffers[buffer].count == 1 && !referenced);
              var enough := reusable && old(used + free) - COUNTER_SIZE >= size;
              // granted exactly if rewinding makes room, or there is memory and the old buffer finds an owner
              && (ok <==> enough || (block.Some? && (pushOk || !old(referenced))))
              // rewinding is enough: nothing is allocated
              && (enough ==> buffers == old(buffers) && buffer == old(buffer) && zones == old(zones)
                             && used == off == COUNTER_SIZE && used + free == old(used + free))
              // nothing but the unpacker needs the buffer: it grows, in place or elsewhere
              && (ok && !enough && (reusable || old(off) == COUNTER_SIZE) ==>
                    && buffer == (if inPlace then old(buffer) else block.value) && zones == old(zones)
                    && buffers.Keys == old(buffers).Keys - {old(buffer)} + {buffer})
              // it is left for a new one, and goes to the zone whose objects need it
              && (ok && !reusable && old(off) > COUNTER_SIZE ==>
                    && buffer == block.value && off == COUNTER_SIZE && buffers.Keys == old(buffers).Keys + {buffer}
                    && (old(referenced) ==>
                          && zones == old(zones[z.value := zones[z.value].(fins := zones[z.value].fins + [buffer])])
                          && buffers[old(buffer)] == old(buffers[buffer]))
                    && (!old(referenced) ==>
                          && zones == old(zones) && buffers[old(buffer)].count == old(buffers[buffer].count) - 1))
      ensures ok ==> buffers[buffer].count == 1 && !referenced
      ensures ok ==> forall a :: a in old(buffers) && a != old(buffer) ==> a in buffers && buffers[a] == old(buffers)[a]
    {
      hide Valid, Unparsed, Replaced;
      Bounds();
      if used == off && buffers[buffer].count == 1 && !referenced {
        Rewind();
        Bounds();
        if free >= size {
          return true;
        }
      }
      ok := GrowOrMove(size, block, inPlace, filler, pushOk);
      Bounds();
    }
  }

  lemma {:induction false} NoFinalizers(zones: seq<Zone>, a: Addr)
    requires forall i :: 0 <= i < |zones| ==> zones[i].fins == []
    ensures Holds(zones, a) == 0
  {
    if zones == [] {
    } else {
      NoFinalizers(zones[1..], a);
    }
  }

  // ---------------------------------------------------------------- whole runs

  /** What the surroundings may do with an unpacker and the zones it has handed out. */
  datatype Op =
    | Feed(data: seq<Byte>)
    | Execute(newOff: nat, needsZone: bool, points: bool)
    | Expand(size: nat, block: Option<Addr>, inPlace: bool, filler: nat -> Byte, pushOk: bool)
    | Flush(pushOk: bool) | Release(pushOk: bool) | Reset | Free(zone: nat) | Destroy

  /** Whether the callee's rules let the call be made. */
  predicate Allowed(s: State, op: Op) {
    match op
    case Feed(data) => s.alive && |data| <= s.free
    case Execute(newOff, needsZone, points) =>
      s.alive && s.off <= newOff <= s.used && (points ==> needsZone && newOff > s.off)
    case Expand(size, block, _, _, _) =>
      && s.alive && size + s.used < TWO_64 && s.initialBufferSize < TWO_64
      && (block.Some? ==> block.value !in s.buffers)
    case Flush(_) => s.alive
    case Release(_) => s.alive
    case Reset => s.alive && s.z.Some? && s.z.value < |s.zones|
    case Free(zone) => zone < |s.zones| && s.zones[zone].live && (s.alive ==> s.z != Some(zone))
    case Destroy => s.alive && (s.z.Some? ==> s.z.value < |s.zones|)
  }

  function OwnerOf(s: State): Option<Addr> {
    if s.alive then Some(s.buffer) else None
  }

  /** What holds at every moment: a buffer's count is the number of its owners, and it is freed exactly
      at zero; no object outlives the buffer it points into; a zone that is gone holds nothing; and the
      unpacker's buffer is there, with used and free making up its capacity. */
  ghost predicate Sound(s: State) {
    && Counted(s.buffers, s.zones, OwnerOf(s))
    && (forall i, a :: 0 <= i < |s.zones| && a in s.zones[i].points ==>
          a in s.buffers && !s.buffers[a].freed && s.zones[i].live)
    && (forall i :: 0 <= i < |s.zones| && !s.zones[i].live ==> s.zones[i].fins == [])
    && (s.alive ==>
          && s.buffer in s.buffers && !s.buffers[s.buffer].freed
          && |s.buffers[s.buffer].bytes| == s.used + s.free && COUNTER_SIZE <= s.off <= s.used)
  }

  /** A flush: the current zone takes a share in the buffer its objects point into. */
  function Flushed(s: State, pushOk: bool): State {
    if s.referenced && pushOk && s.z.Some? && s.z.value < |s.zones| && s.buffer in s.buffers then
      s.(zones := Sharing(s.zones, s.z.value, s.buffer), buffers := Incr(s.buffers, s.buffer), referenced := false)
    else s
  }

  /** Zone i goes, or is emptied: its finalizers give up its shares, last registered first. */
  function Given(s: State, i: nat, live: bool): State
    requires i < |s.zones|
  {
    s.(zones := Emptied(s.zones, i, live), buffers := DecrAll(s.buffers, Z.Reversed(s.zones[i].fins)))
  }

  /** What a call leads to. */
  predicate Follows(s: State, op: Op, t: State)
    requires Allowed(s, op)
  {
    match op
    case Feed(data) =>
      && s.buffer in s.buffers && s.buffer in t.buffers
      && t == s.(buffers := t.buffers, used := s.used + |data|, free := s.free - |data|)
      && t.buffers == s.buffers[s.buffer := s.buffers[s.buffer].(bytes := t.buffers[s.buffer].bytes)]
      && UnparsedOf(t) == UnparsedOf(s) + data
    case Execute(newOff, needsZone, points) =>
      && t == s.(off := newOff, parsed := s.parsed + (newOff - s.off), referenced := s.referenced || points,
                 z := if needsZone && s.z.None? then Some(|s.zones|) else s.z,
                 zones := ZonesAfter(s.zones, s.z, s.buffer, needsZone, points))
      && newOff - s.off <= |UnparsedOf(s)| && UnparsedOf(t) == UnparsedOf(s)[newOff - s.off..]
    case Expand(size, block, inPlace, _, pushOk) => Grown(s, size, block, inPlace, pushOk, t)
    case Flush(pushOk) => t == Flushed(s, pushOk)
    case Release(pushOk) => t == if s.referenced && !pushOk then s else Flushed(s, pushOk).(z := None)
    case Reset => t == Given(s, s.z.value, true)
    case Free(zone) => t == Given(s, zone, false)
    case Destroy =>
      var gone := if s.z.Some? then Given(s, s.z.value, false) else s;
      t == gone.(alive := false, buffers := DecrAll(gone.buffers, [s.buffer]))
  }

  /** A trace of a run: every call that is allowed leads where it should, every other is left out. */
  ghost predicate Trace(trace: seq<State>, ops: seq<Op>) {
    && |trace| == |ops| + 1
    && (forall i :: 0 <= i < |trace| ==> Sound(trace[i]))
    && (forall i :: 0 <= i < |ops| ==>
          if Allowed(trace[i], ops[i]) then Follows(trace[i], ops[i], trace[i + 1]) else trace[i + 1] == trace[i])
  }

  /** What a call adds to the bytes fed, if it is an allowed feed. */
  function Data(s: State, op: Op): seq<Byte> {
    if op.Feed? && Allowed(s, op) then op.data else []
  }

  /** What a call adds to the bytes parsed, if it is an allowed parse. */
  function Part(s: State, op: Op): seq<Byte> {
    if op.Execute? && Allowed(s, op) then PassedBy(s, op.newOff) else []
  }

  /** The bytes of the feeds that were allowed. */
  function FedBy(trace: seq<State>, ops: seq<Op>): seq<Byte>
    requires |trace| >= |ops|
  {
    if ops == [] then []
    else
      var n := |ops| - 1;
      FedBy(trace[..n], ops[..n]) + Data(trace[n], ops[n])
  }

  /** The bytes that the parses which were allowed passed over. */
  function TakenBy(trace: seq<State>, ops: seq<Op>): seq<Byte>
    requires |trace| >= |ops|
  {
    if ops == [] then []
    else
      var n := |ops| - 1;
      TakenBy(trace[..n], ops[..n]) + Part(trace[n], ops[n])
  }

  function PassedBy(s: State, newOff: nat): seq<Byte> {
    if s.off <= newOff <= s.off + |UnparsedOf(s)| then UnparsedOf(s)[..newOff - s.off] else []
  }

  /** Nothing is lost, repeated or reordered: the bytes parsed and the bytes still unparsed are the
      bytes fed, through growth, moves and changes of owner. */
  lemma {:induction false} BytesConserved(trace: seq<State>, ops: seq<Op>)
    requires Trace(trace, ops) && trace[|ops|].alive
    ensures UnparsedOf(trace[0]) + FedBy(trace, ops) == TakenBy(trace, ops) + UnparsedOf(trace[|ops|])
  {
    hide Follows, Sound, Allowed, UnparsedOf, Data, Part;
    if ops == [] {
      assert FedBy(trace, ops) == [] == TakenBy(trace, ops);
    } else {
      var n := |ops| - 1;
      var s, t := trace[n], trace[n + 1];
      assert Trace(trace[..n + 1], ops[..n]);
      StaysDead(s, ops[n], t);
      BytesConserved(trace[..n + 1], ops[..n]);
      assert trace[..n + 1][..n] == trace[..n];
      OneConserved(s, ops[n], t);
      FedPrefix(trace, ops[..n]);
      var u, fed, taken := UnparsedOf(trace[0]), FedBy(trace[..n], ops[..n]), TakenBy(trace[..n], ops[..n]);
      var more, part := Data(s, ops[n]), Part(s, ops[n]);
      Regroup(u, fed, more);
      Regroup(taken, UnparsedOf(s), more);
      Regroup(taken, part, UnparsedOf(t));
    }
  }

  /** Only the states before the last call matter. */
  lemma {:induction false} FedPrefix(trace: seq<State>, ops: seq<Op>)
    requires |trace| > |ops|
    ensures FedBy(trace[..|ops| + 1], ops) == FedBy(trace[..|ops|], ops)
    ensures TakenBy(trace[..|ops| + 1], ops) == TakenBy(trace[..|ops|], ops)
  {
    if ops == [] {
    } else {
      var n := |ops| - 1;
      assert trace[..|ops| + 1][..n] == trace[..n] == trace[..|ops|][..n];
    }
  }

  lemma StaysDead(s: State, op: Op, t: State)
    requires if Allowed(s, op) then Follows(s, op, t) else t == s
    ensures t.alive ==> s.alive
  {
  }

  lemma OneConserved(s: State, op: Op, t: State)
    requires (if Allowed(s, op) then Follows(s, op, t) else t == s) && Sound(s) && t.alive
    ensures UnparsedOf(s) + Data(s, op) == Part(s, op) + UnparsedOf(t)
  {
    hide Counted, DecrAll, Decr, Granted, Sharing, Emptied, ZonesAfter;
    if Allowed(s, op) {
      match op
      case Reset => DecrAllKeepsBytes(s.buffers, Z.Reversed(s.zones[s.z.value].fins), s.buffer);
      case Free(zone) => DecrAllKeepsBytes(s.buffers, Z.Reversed(s.zones[zone].fins), s.buffer);
      case Execute(newOff, _, _) =>
        assert UnparsedOf(s) == UnparsedOf(s)[..newOff - s.off] + UnparsedOf(s)[newOff - s.off..];
      case _ =>
    }
  }

  lemma {:induction false} DecrAllKeepsBytes(buffers: map<Addr, Buffer>, order: seq<Addr>, a: Addr)
    requires a in buffers
    ensures a in DecrAll(buffers, order) && DecrAll(buffers, order)[a].bytes == buffers[a].bytes
    decreases |order|
  {
    if order == [] {
    } else if order[0] in buffers && buffers[order[0]].count > 0 {
      DecrAllKeepsBytes(Decr(buffers, order[0]), order[1..], a);
    } else {
      DecrAllKeepsBytes(buffers, order[1..], a);
    }
  }

  /** At the end nothing is left: once the unpacker and all zones are gone every buffer is freed. */
  lemma NothingLeft(s: State)
    requires Sound(s) && !s.alive && forall i :: 0 <= i < |s.zones| ==> !s.zones[i].live
    ensures forall a :: a in s.buffers ==> s.buffers[a].freed
  {
    forall a | a in s.buffers ensures s.buffers[a].freed {
      NoFinalizers(s.zones, a);
      assert s.buffers[a].count == Owners(s.zones, OwnerOf(s), a);
    }
  }

  lemma ViewIsSound(u: Unpacker)
    requires u.Valid()
    ensures Sound(u.View()) && (u.alive ==> UnparsedOf(u.View()) == u.Unparsed())
  {
    hide Counted;
    forall i, a | 0 <= i < |u.zones| && a in u.zones[i].points
      ensures a in u.buffers && !u.buffers[a].freed && u.zones[i].live
    {
      u.ObjectsAreSafe(i, a);
    }
    if u.alive {
      u.CountStaysOne();
      NotFreed(u.buffers, u.zones, u.Owner(), u.buffer);
    }
  }

  lemma NotFreed(buffers: map<Addr, Buffer>, zones: seq<Zone>, owner: Option<Addr>, a: Addr)
    requires Counted(buffers, zones, owner) && a in buffers && buffers[a].count > 0
    ensures !buffers[a].freed
  {
  }

  lemma InRange(u: Unpacker)
    requires u.Valid() && u.alive
    ensures u.buffer in u.buffers && |u.Unparsed()| == u.used - u.off >= 0
    ensures (u.z.Some? ==> u.z.value < |u.zones|) && (u.referenced ==> u.z.Some?)
  {
    hide Counted;
  }

  /** One call, on the unpacker and on its state. */
  method RunOne(u: Unpacker, op: Op)
    requires u.Valid() && Allowed(u.View(), op)
    modifies u
    ensures u.Valid() && Follows(old(u.View()), op, u.View())
  {
    hide Counted, DecrAll, Sharing, ZonesAfter, Granted, Grown, UnparsedOf, Sound, Unpacker.Valid, Unpacker.Unparsed;
    ViewIsSound(u);
    if u.alive {
      InRange(u);
    }
    match op
    case Feed(data) =>
      u.Feed(data);
      ViewIsSound(u);
    case Execute(newOff, needsZone, points) =>
      u.Execute(newOff, needsZone, points);
      ViewIsSound(u);
    case Expand(size, block, inPlace, filler, pushOk) =>
      var ok := u.ExpandBuffer(size, block, inPlace, filler, pushOk);
    case Flush(pushOk) => var ok := u.FlushZone(pushOk);
    case Release(pushOk) => var r := u.ReleaseZone(pushOk);
    case Reset => u.ResetZone();
    case Free(zone) => u.FreeZone(zone);
    case Destroy =>
      DecrLast(u.buffers, if u.z.Some? then Z.Reversed(u.zones[u.z.value].fins) else [], u.buffer);
      NoDecrs(u.buffers);
      u.Destroy();
  }

  lemma TraceGrows(trace: seq<State>, ops: seq<Op>, op: Op, t: State)
    requires Trace(trace, ops) && Sound(t)
    requires if Allowed(trace[|ops|], op) then Follows(trace[|ops|], op, t) else t == trace[|ops|]
    ensures Trace(trace + [t], ops + [op])
    ensures FedBy(trace + [t], ops + [op]) == FedBy(trace, ops) + Data(trace[|ops|], op)
    ensures TakenBy(trace + [t], ops + [op]) == TakenBy(trace, ops) + Part(trace[|ops|], op)
  {
    hide Sound, Follows, Allowed, Data, Part;
    var n := |ops|;
    assert (ops + [op])[..n] == ops && (trace + [t])[..n] == trace[..n] && trace[..n + 1] == trace;
    FedPrefix(trace, ops);
  }

  lemma TraceStarts(s: State)
    requires Sound(s)
    ensures Trace([s], []) && FedBy([s], []) == [] == TakenBy([s], [])
  {
    hide Sound;
  }

  /** Over whole runs: whatever is fed, parsed, grown, flushed, released, reset, freed and destroyed in
      whatever order, every call that the callee's rules allow leads where `Follows` says, the others
      being left out, and every moment on the way is sound. The bytes parsed and those still unparsed
      are the bytes fed, and when the unpacker and all zones are gone nothing is left. */
  method Run(addr: Addr, size: nat, bytes: seq<Byte>, ops: seq<Op>)
    returns (fed: seq<Byte>, taken: seq<Byte>, trace: seq<State>)
    requires |bytes| == if size < COUNTER_SIZE then COUNTER_SIZE else size
    ensures Trace(trace, ops) && trace[0] == Started(addr, bytes)
    ensures fed == FedBy(trace, ops) && taken == TakenBy(trace, ops)
    ensures trace[|ops|].alive ==> fed == taken + UnparsedOf(trace[|ops|])
    ensures !trace[|ops|].alive && (forall i :: 0 <= i < |trace[|ops|].zones| ==> !trace[|ops|].zones[i].live) ==>
              forall a :: a in trace[|ops|].buffers ==> trace[|ops|].buffers[a].freed
  {
    hide Counted, Sound, Follows, Allowed, UnparsedOf, Data, Part, Started, Trace, FedBy, TakenBy, Unpacker.Valid;
    var u := new Unpacker(addr, size, bytes);
    fed, taken, trace := [], [], [u.View()];
    ViewIsSound(u);
    NothingParsed(addr, bytes);
    TraceStarts(u.View());
    for i := 0 to |ops|
      invariant fresh(u) && u.Valid() && |trace| == i + 1
      invariant Trace(trace, ops[..i]) && trace[i] == u.View() && trace[0] == Started(addr, bytes)
      invariant Sound(trace[i])
      invariant fed == FedBy(trace, ops[..i]) && taken == TakenBy(trace, ops[..i])
    {
      var s := u.View();
      fed, taken := fed + Data(s, ops[i]), taken + Part(s, ops[i]);
      if Allowed(s, ops[i]) {
        RunOne(u, ops[i]);
      }
      ViewIsSound(u);
      TraceGrows(trace, ops[..i], ops[i], u.View());
      assert ops[..i + 1] == ops[..i] + [ops[i]];
      trace := trace + [u.View()];
    }
    assert ops[..|ops|] == ops;
    var end := trace[|ops|];
    if end.alive {
      BytesConserved(trace, ops);
    } else if forall i :: 0 <= i < |end.zones| ==> !end.zones[i].live {
      NothingLeft(end);
    }
  }

  lemma NothingParsed(addr: Addr, bytes: seq<Byte>)
    requires |bytes| >= COUNTER_SIZE
    ensures UnparsedOf(Started(addr, bytes)) == []
  {
  }
}
