/** The fixed pool of eight datagram buffers. */
module DatagramPool {
  import opened Words
  import opened FramingV3

  const DATAGRAM_POOL_CAPACITY: nat := 8
  const NO_HANDLE: nat := 0xFF

  datatype PoolResult = POOL_OK | EXHAUSTED | INVALID_HANDLE | DOUBLE_RELEASE

  /** The free bitmap as the set of free indexes, the use count, the buffers and the count of releases
      that were refused. */
  datatype Pool = Pool(free: set<nat>, used: nat, storage: seq<Bytes>, invalidReleases: uint32)

  predicate PoolOk(p: Pool) {
    && (forall i :: i in p.free ==> i < DATAGRAM_POOL_CAPACITY)
    && p.used + |p.free| == DATAGRAM_POOL_CAPACITY
    && |p.storage| == DATAGRAM_POOL_CAPACITY
    && forall i :: 0 <= i < DATAGRAM_POOL_CAPACITY ==> |p.storage[i]| == V3_MAX_DATAGRAM
  }

  function Indexes(n: nat): (s: set<nat>)
    ensures forall i :: i in s <==> 0 <= i < n
    ensures |s| == n
  {
    if n == 0 then {} else Indexes(n - 1) + {n - 1}
  }

  function FreshPool(): (p: Pool) {
    Pool(Indexes(DATAGRAM_POOL_CAPACITY), 0, EmptyStorage(), 0)
  }

  lemma FreshPoolOk()
    ensures PoolOk(FreshPool()) && FreshPool().invalidReleases == 0
    ensures forall h :: 0 <= h < DATAGRAM_POOL_CAPACITY ==> h in FreshPool().free
  {}

  /** The lowest free index at or above i, or the capacity when there is none. */
  function FirstFree(free: set<nat>, i: nat): (k: nat)
    requires i <= DATAGRAM_POOL_CAPACITY
    ensures i <= k <= DATAGRAM_POOL_CAPACITY
    ensures k < DATAGRAM_POOL_CAPACITY ==> k in free
    ensures forall j :: i <= j < k ==> j !in free
    decreases DATAGRAM_POOL_CAPACITY - i
  {
    if i == DATAGRAM_POOL_CAPACITY || i in free then i else FirstFree(free, i + 1)
  }

  function Acquire(p: Pool): (Pool, Option<nat>) {
    var k := FirstFree(p.free, 0);
    if k < DATAGRAM_POOL_CAPACITY then (p.(free := p.free - {k}, used := p.used + 1), Some(k)) else (p, None)
  }

  function Refuse(p: Pool): Pool {
    p.(invalidReleases := Wrap32(p.invalidReleases + 1))
  }

  function Release(p: Pool, handle: nat): (Pool, PoolResult) {
    if handle >= DATAGRAM_POOL_CAPACITY then (Refuse(p), INVALID_HANDLE)
    else if handle in p.free then (Refuse(p), DOUBLE_RELEASE)
    else (p.(free := p.free + {handle}, used := if p.used > 0 then p.used - 1 else 0), POOL_OK)
  }

  /** The buffer behind a handle; a handle outside the pool has none. */
  function Buffer(p: Pool, handle: nat): Bytes {
    if handle < |p.storage| then p.storage[handle] else []
  }

  function WriteBuffer(p: Pool, handle: nat, data: Bytes): Pool {
    if handle < |p.storage| then p.(storage := p.storage[handle := data]) else p
  }

  /** Acquiring fails exactly when nothing is free, and releasing at once undoes it. */
  lemma AcquireThenRelease(p: Pool)
    requires PoolOk(p)
    ensures PoolOk(Acquire(p).0)
    ensures Acquire(p).1.None? <==> p.free == {}
    ensures Acquire(p).1.Some? ==>
              && Acquire(p).1.value in p.free && Acquire(p).1.value !in Acquire(p).0.free
              && Release(Acquire(p).0, Acquire(p).1.value) == (p, POOL_OK)
  {
    var k := FirstFree(p.free, 0);
    if k < DATAGRAM_POOL_CAPACITY {
      assert (p.free - {k}) + {k} == p.free;
      assert |p.free - {k}| == |p.free| - 1;
    } else {
      assert p.free == {};
    }
  }

  lemma RefuseCounts(p: Pool)
    ensures Refuse(p).invalidReleases != p.invalidReleases
    ensures Refuse(p) == p.(invalidReleases := Refuse(p).invalidReleases)
  {}

  /** A release succeeds exactly when the handle is allocated; every other one is counted as refused and
      changes nothing else. */
  lemma ReleaseExactly(p: Pool, handle: nat)
    requires PoolOk(p)
    ensures PoolOk(Release(p, handle).0)
    ensures Release(p, handle).1 == POOL_OK <==> handle < DATAGRAM_POOL_CAPACITY && handle !in p.free
    ensures Release(p, handle).1 == POOL_OK ==> Release(p, handle).0.free == p.free + {handle}
    ensures var q := Release(p, handle).0;
            if Release(p, handle).1 == POOL_OK then q.invalidReleases == p.invalidReleases && q.storage == p.storage
            else q.invalidReleases != p.invalidReleases && q == p.(invalidReleases := q.invalidReleases)
  {
    RefuseCounts(p);
    hide Refuse;
    if handle < DATAGRAM_POOL_CAPACITY && handle !in p.free {
      FreedSize(p.free, handle);
      assert p.used > 0 by { hide Indexes; }
      hide Indexes;
    }
  }

  lemma FreedSize(free: set<nat>, handle: nat)
    requires handle < DATAGRAM_POOL_CAPACITY && handle !in free
    requires forall i :: i in free ==> i < DATAGRAM_POOL_CAPACITY
    ensures |free + {handle}| == |free| + 1 <= DATAGRAM_POOL_CAPACITY
  {
    hide Indexes;
    assert free + {handle} <= Indexes(DATAGRAM_POOL_CAPACITY);
    SubsetSize(free + {handle}, Indexes(DATAGRAM_POOL_CAPACITY));
  }

  lemma {:induction false} SubsetSize(a: set<nat>, b: set<nat>)
    requires a <= b
    ensures |a| <= |b|
  {
    if a != {} {
      var x :| x in a;
      SubsetSize(a - {x}, b - {x});
    }
  }

  lemma BelowNext(free: set<nat>, i: nat)
    ensures |free * Indexes(i + 1)| == |free * Indexes(i)| + (if i in free then 1 else 0)
  {
    if i in free {
      assert free * Indexes(i + 1) == free * Indexes(i) + {i};
    } else {
      assert free * Indexes(i + 1) == free * Indexes(i);
    }
  }

  function EmptyStorage(): (s: seq<Bytes>)
    ensures |s| == DATAGRAM_POOL_CAPACITY
    ensures forall i :: 0 <= i < |s| ==> s[i] == Zeros(V3_MAX_DATAGRAM)
  {
    seq(DATAGRAM_POOL_CAPACITY, _ => Zeros(V3_MAX_DATAGRAM))
  }

  class PoolObject {
    var freeBitmap: set<nat>
    var usedCount: nat
    var invalidReleases: uint32
    const storage: array<Bytes>

    ghost predicate Valid()
      reads this, storage
    {
      PoolOk(State())
    }

    ghost function State(): Pool
      reads this, storage
    {
      Pool(freeBitmap, usedCount, storage[..], invalidReleases)
    }

    constructor ()
      ensures Valid() && fresh(storage) && State() == FreshPool()
    {
      storage := new Bytes[DATAGRAM_POOL_CAPACITY](_ => Zeros(V3_MAX_DATAGRAM));
      freeBitmap, usedCount, invalidReleases := Indexes(DATAGRAM_POOL_CAPACITY), 0, 0;
      new;
      hide Zeros;
      FreshPoolOk();
      assert storage[..] == EmptyStorage();
    }

    method Reset()
      requires Valid()
      modifies this, storage
      ensures Valid() && State() == FreshPool()
    {
      hide Indexes;
      assert storage.Length == DATAGRAM_POOL_CAPACITY;
      hide PoolOk;
      freeBitmap, usedCount, invalidReleases := Indexes(DATAGRAM_POOL_CAPACITY), 0, 0;
      forall i | 0 <= i < storage.Length {
        storage[i] := Zeros(V3_MAX_DATAGRAM);
      }
      hide Zeros;
      FreshPoolOk();
      assert storage[..] == EmptyStorage();
    }

    method FreeCount() returns (count: nat)
      requires Valid()
      ensures count == |freeBitmap| <= DATAGRAM_POOL_CAPACITY
    {
      count := 0;
      assert freeBitmap * Indexes(DATAGRAM_POOL_CAPACITY) == freeBitmap;
      hide PoolOk;
      for i := 0 to DATAGRAM_POOL_CAPACITY
        invariant count == |freeBitmap * Indexes(i)|
      {
        BelowNext(freeBitmap, i);
        if i in freeBitmap {
          count := count + 1;
        }
      }
    }

    method AcquireBuffer() returns (handle: Option<nat>)
      requires Valid()
      modifies this
      ensures Valid() && (State(), handle) == Acquire(old(State()))
    {
      AcquireThenRelease(State());
      for i := 0 to DATAGRAM_POOL_CAPACITY
        invariant unchanged(this) && FirstFree(freeBitmap, 0) == FirstFree(freeBitmap, i)
      {
        if i in freeBitmap {
          freeBitmap := freeBitmap - {i};
          usedCount := usedCount + 1;
          return Some(i);
        }
      }
      handle := None;
    }

    method ReleaseBuffer(handle: nat) returns (result: PoolResult)
      requires Valid()
      modifies this
      ensures Valid() && (State(), result) == Release(old(State()), handle)
    {
      ReleaseExactly(State(), handle);
      if handle >= DATAGRAM_POOL_CAPACITY {
        invalidReleases := Wrap32(invalidReleases + 1);
        return INVALID_HANDLE;
      }
      if handle in freeBitmap {
        invalidReleases := Wrap32(invalidReleases + 1);
        return DOUBLE_RELEASE;
      }
      freeBitmap := freeBitmap + {handle};
      if usedCount > 0 {
        usedCount := usedCount - 1;
      }
      return POOL_OK;
    }
  }
}
