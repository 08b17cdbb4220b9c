/**
 * The registry itself: the `gc_t` header, whose `head` list and `numitems`
 * counter the four operations of gc.c update in place.
 *
 * The system allocator is not modelled; each `malloc` the source performs
 * becomes a parameter holding its outcome (an address, or `Null` for
 * failure, or a flag for the fixed-size record allocations), and the `free`
 * of a payload becomes an out-parameter saying that it happened.
 */
module Gc {
  import opened Blocks
  import opened Counts
  import opened Wrappers

  class Registry {
    /** The records reachable from `head`, in list order (element 0 is the head). */
    var entries: seq<Block>
    /** The `numitems` counter of the header. */
    var numitems: int

    /** The invariant every operation keeps: the counter is the list length, and the list is well formed. */
    ghost predicate Valid()
      reads this
    {
      numitems == |entries| && WellFormed(entries)
    }

    /** The tracked addresses with their reference counts. */
    ghost function Contents(): map<Addr, int>
      reads this
    {
      RefCounts(entries)
    }

    /** A header with an empty list and a zero counter. */
    constructor ()
      ensures entries == [] && numitems == 0
      ensures Valid() && Contents() == map[]
    {
      entries := [];
      numitems := 0;
    }

    /**
     * `gc_malloc`: `mem` is what `malloc(size)` returned, `blockAllocated`
     * whether the allocation of the new record succeeded. On full success the
     * record for `mem` with one reference is linked in at the head and the
     * counter goes up by one; if either allocation failed the registry is left
     * as it was. The payload address is returned in every case, so a payload
     * whose record could not be allocated is handed back untracked.
     */
    method Malloc(mem: Addr, blockAllocated: bool) returns (r: Addr)
      modifies this
      ensures r == mem
      ensures mem != Null && blockAllocated ==>
                entries == Pushed(old(entries), mem) && numitems == old(numitems) + 1
      ensures mem == Null || !blockAllocated ==>
                entries == old(entries) && numitems == old(numitems)
      ensures mem != Null && blockAllocated ==> Contents() == MapMalloc(old(Contents()), mem)
      ensures old(Valid()) && mem !in old(Contents()) ==> Valid()
    {
      if mem != Null {
        if blockAllocated {
          entries := [Block(mem, 1)] + entries;
          numitems := numitems + 1;
          PushedRefines(old(entries), mem);
          if old(Valid()) && mem !in old(Contents()) {
            RefCountsLookup(old(entries), mem);
            PushedWellFormed(old(entries), mem);
          }
        }
      }
      r := mem;
    }

    /**
     * `gc_register`: walks the list from the head and adds a reference to the
     * first record whose pointer is `ptr`; an address with no record is
     * ignored. Nothing else changes.
     */
    method Register(ptr: Addr)
      modifies this
      ensures entries == Registered(old(entries), ptr)
      ensures numitems == old(numitems)
      ensures Contents() == MapRegister(old(Contents()), ptr)
      ensures old(Valid()) ==> Valid()
    {
      var block := 0;
      while block < |entries|
        invariant block <= |entries|
        invariant entries == old(entries)
        invariant forall j :: 0 <= j < block ==> entries[j].pointer != ptr
      {
        if entries[block].pointer == ptr {
          entries := entries[block := entries[block].(refCount := entries[block].refCount + 1)];
          break;
        }
        block := block + 1;
      }
      RegisteredRefines(old(entries), ptr);
      if old(Valid()) {
        RegisteredWellFormed(old(entries), ptr);
      }
    }

    /**
     * `gc_free`: walks the list with a `prev`/`current` pair to the first
     * record whose pointer is `ptr`. If its count is positive it is lowered by
     * one; when it reaches zero the payload is freed (`payloadFreed`), the
     * record is unlinked through `prev` or through `head`, and the counter goes
     * down by one. An address with no record, or a record whose count is not
     * positive, is ignored.
     */
    method Free(ptr: Addr) returns (payloadFreed: bool)
      modifies this
      ensures entries == Freed(old(entries), ptr)
      ensures payloadFreed == ReleasesLast(old(entries), ptr)
      ensures numitems == if payloadFreed then old(numitems) - 1 else old(numitems)
      ensures old(Valid()) ==> Valid() && Contents() == MapFree(old(Contents()), ptr)
    {
      payloadFreed := false;
      var prev: Option<nat> := None;
      var current := 0;
      while current < |entries|
        invariant current <= |entries|
        invariant entries == old(entries) && numitems == old(numitems) && !payloadFreed
        invariant prev == if current == 0 then None else Some(current - 1)
        invariant forall j :: 0 <= j < current ==> entries[j].pointer != ptr
      {
        if entries[current].pointer == ptr {
          if entries[current].refCount > 0 {
            entries := entries[current := entries[current].(refCount := entries[current].refCount - 1)];
            if entries[current].refCount == 0 {
              payloadFreed := true;
              if prev.Some? {
                entries := entries[..prev.value + 1] + entries[current + 1..];
              } else {
                entries := entries[current + 1..];
              }
              numitems := numitems - 1;
            }
          }
          break;
        }
        prev := Some(current);
        current := current + 1;
      }
      if old(Valid()) {
        FreedWellFormed(old(entries), ptr);
        FreedRefines(old(entries), ptr);
        if payloadFreed {
          FreedUnlinks(old(entries), ptr);
        }
      }
    }
  }

  /**
   * `gc_init`: `headerAllocated` is whether the allocation of the header
   * succeeded. On success the new registry is empty; otherwise there is none.
   */
  method Init(headerAllocated: bool) returns (gc: Registry?)
    ensures headerAllocated <==> gc != null
    ensures gc != null ==> fresh(gc) && gc.entries == [] && gc.numitems == 0
    ensures gc != null ==> gc.Valid() && gc.Contents() == map[]
  {
    if headerAllocated {
      gc := new Registry();
    } else {
      gc := null;
    }
  }

  // ---------------------------------------------------------------------
  // Clients: what callers can conclude from the contracts alone

  /**
   * Create, allocate `p`, register it, then free it twice: the first free
   * only lowers the count (one item still tracked), the second frees the
   * payload and leaves the registry empty.
   */
  method SharedAllocationScenario(p: Addr)
    returns (firstFreed: bool, itemsBetween: int, secondFreed: bool, itemsAfter: int)
    requires p != Null
    ensures !firstFreed && itemsBetween == 1
    ensures secondFreed && itemsAfter == 0
  {
    var gc := Init(true);
    var r := gc.Malloc(p, true);
    assert r == p && gc.Valid() && gc.Contents() == map[p := 1];
    gc.Register(p);
    assert gc.Contents() == map[p := 2];
    firstFreed := gc.Free(p);
    itemsBetween := gc.numitems;
    assert gc.Contents() == map[p := 1];
    secondFreed := gc.Free(p);
    itemsAfter := gc.numitems;
  }

  /**
   * Allocate two distinct addresses and free the first: only the first
   * payload is freed, and the second stays tracked with one reference.
   */
  method TwoAllocationsScenario(p1: Addr, p2: Addr)
    returns (freed: bool, left: seq<Block>, items: int)
    requires p1 != Null && p2 != Null && p1 != p2
    ensures freed && left == [Block(p2, 1)] && items == 1
  {
    var gc := Init(true);
    var r1 := gc.Malloc(p1, true);
    var r2 := gc.Malloc(p2, true);
    assert gc.entries == [Block(p2, 1), Block(p1, 1)];
    freed := gc.Free(p1);
    left := gc.entries;
    items := gc.numitems;
  }

  /** A free of any address on an empty registry frees nothing and leaves it empty. */
  method FreeOnEmptyScenario(p: Addr) returns (freed: bool, items: int)
    ensures !freed && items == 0
  {
    var gc := Init(true);
    freed := gc.Free(p);
    items := gc.numitems;
  }

  /**
   * When the record allocation fails, the payload is still returned but is
   * not tracked: registering and freeing it change nothing.
   */
  method UntrackedPayloadScenario(p: Addr) returns (r: Addr, freed: bool, items: int)
    requires p != Null
    ensures r == p && !freed && items == 0
  {
    var gc := Init(true);
    r := gc.Malloc(p, false);
    gc.Register(r);
    freed := gc.Free(r);
    items := gc.numitems;
  }
}
