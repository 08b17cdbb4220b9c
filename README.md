# Reference-counting registry (gc.c), modelled in Dafny

gc.c is a manual reference-counting registry. A `gc_t` header holds a singly
linked list of `blokk_t` records (`head`) and a counter of records
(`numitems`). Each record holds a tracked payload pointer and its `refCount`.
The registry has four operations:

- `gc_init` creates an empty header.
- `gc_malloc` allocates a payload and links a new record with count 1 in at the head.
- `gc_register` adds a reference to the first record whose pointer matches.
- `gc_free` drops a reference from the first matching record. When the count
  reaches zero, it frees the payload, unlinks the record through `prev` or
  `head`, and lowers `numitems`.

The model has four modules:

- `Blocks` (blocks.dfy) defines the list as a value, `seq<Block>` with the
  head first. It defines the first-match lookup `IndexOf` and the list each
  operation produces (`Pushed`, `Registered`, `Freed`). It also defines the
  invariant `WellFormed`: addresses are non-null and distinct, and every count
  is at least 1. Lemmas show what each operation changes and that each one
  keeps the invariant.
- `Counts` (counts.dfy) gives the list its meaning, a partial map from address
  to reference count (`RefCounts`). It also gives reference definitions of the
  three operations on that map (`MapMalloc`, `MapRegister`, `MapFree`). Lemmas
  prove that each list operation implements its map operation. They also prove
  the life of one allocation: created at 1, raised by `k` registrations, and
  removed by free number `k + 1` and not before.
- `Gc` (gc.dfy) holds the `Registry` class. Its fields `entries` (the list
  reachable from `head`) and `numitems` are updated in place by `Malloc`,
  `Register` and `Free`. `Register` and `Free` are `while` loops that mirror the
  C scans, and `Free` keeps the `prev`/`current` pair. Each method is proved
  against the list functions of `Blocks` and the map functions of `Counts`. Each
  method also keeps `Valid()`: `numitems` equals the list length, and the list
  is well formed. The module-level `Init` models `gc_init`. Four client methods
  run call sequences using only the contracts: a shared allocation (allocate,
  register, free, free), two allocations with one freed, a free on an empty
  registry, and an untracked payload.
- `Wrappers` (wrappers.dfy) holds an `Option` type, used for the nullable
  `prev` pointer.

The system allocator is a parameter:

- `Malloc(mem, blockAllocated)` receives what `malloc(size)` returned
  (`Null` = 0 for failure) and whether the record allocation succeeded.
- `Init(headerAllocated)` receives whether the header allocation succeeded.
- `Free` returns `payloadFreed`, which says whether the payload was handed to
  `free`.
- That the allocator never returns an address the registry currently tracks
  is a hypothesis of the `Valid()`-preservation clause of `Malloc`. It is not a
  precondition, because `gc_malloc` makes no demand on its caller.

The methods do not require `Valid()`, since the C code runs on any list. The
`refCount > 0` guard of `gc_free` is therefore modelled on every list, and
`Blocks.WellFormedGuard` shows that the guard always holds on a well-formed
list.

A failed record allocation does not make `gc_malloc` return NULL: gc.c:29-38
returns the payload address untracked, and `Gc.Registry.Malloc` and
`Gc.UntrackedPayloadScenario` say so.

## Model

| member | source | states |
|---|---|---|
| `Blocks.IndexOf` | gc.c:43-50 | the scan from the head stops at the first record whose pointer is the address: the result is within the list, the record there matches, and no earlier record does; it is the list length exactly when no record matches |
| `Blocks.RegisteredKeepsPointers` | gc.c:43-50 | registering changes no record's address and no position: the list keeps its length and order |
| `Blocks.RegisteredIncrements` | gc.c:44-47 | when some record tracks the address, registering raises the count of the first such record by one and leaves every other record, including later records with the same pointer, unchanged at its position |
| `Blocks.RegisteredNoop` | gc.c:44-50 | registering an address that no record tracks leaves the list unchanged |
| `Blocks.FreedNoop` | gc.c:59-75 | a free of an address with no record, or of a record whose count is not positive, leaves the list unchanged |
| `Blocks.FreedUnlinks` | gc.c:62-73 | a free that drops a count from 1 to 0 removes exactly the first matching record; the records before and after it keep their values and relative order, and the list is one shorter |
| `Blocks.FreedDecrements` | gc.c:61-63 | a free of a record whose count is above 1 lowers that count by one and changes no other record |
| `Blocks.WellFormedGuard` | gc.c:61 | on a well-formed list the matched record's count is positive, so the guard never fails, and no record tracks the null address |
| `Blocks.PushedWellFormed` | gc.c:29-35 | linking in a record with count 1 for a non-null, untracked payload keeps the list well formed and makes that payload the first match |
| `Blocks.RegisteredWellFormed` | gc.c:42-51 | registering keeps the list well formed |
| `Blocks.FreedWellFormed` | gc.c:55-80 | freeing keeps the list well formed (distinct non-null addresses, counts at least 1) |
| `Counts.RefCountsLookup` | gc.c:43-50 | an address is in the registry's map exactly when a scan finds a record for it, and its count is that record's count |
| `Counts.RefCountsSize` | gc.c:10-13 | with distinct addresses the list length, which `numitems` tracks, is the number of tracked addresses |
| `Counts.RefCountsSetFirst` | gc.c:46 | overwriting the count of the first matching record changes that address's count in the map and nothing else |
| `Counts.RefCountsUnlink` | gc.c:66-70 | with distinct addresses, unlinking the matching record removes that address from the map and nothing else |
| `Counts.PushedRefines` | gc.c:29-35 | a successful allocation tracks the new address with one reference and keeps every other address's count |
| `Counts.RegisteredRefines` | gc.c:42-51 | registering on the list is `MapRegister`: one more reference for a tracked address, no change for any other address and no change for an untracked one |
| `Counts.FreedRefines` | gc.c:55-80 | freeing on a list with distinct addresses is `MapFree`: no-op for untracked or non-positive, removal at count 1, decrement above 1, other addresses untouched |
| `Counts.RegisteredTimesCounts` | gc.c:42-51 | `k` registrations of a tracked address raise its count by `k`, keep the list length, keep it well formed and leave other addresses alone |
| `Counts.FreedTimesCounts` | gc.c:59-63 | fewer frees than an address's count lower that count by as many, keep the address tracked, and keep the list length and well-formedness |
| `Counts.FreedTimesUntracked` | gc.c:59-79 | once an address is untracked, any number of further frees of it change nothing |
| `Counts.RegisterThenFree` | gc.c:29-73 | an address allocated at count 1 and registered `k` times stays tracked with count `k + 1 - m` after `m <= k` frees; free number `k + 1` removes it alone, shortens the list by one and keeps it well formed |
| `Gc.Registry.constructor` | gc.c:18-21 | a new header has an empty list and `numitems == 0`, is valid, and tracks nothing |
| `Gc.Init` | gc.c:16-23 | returns a fresh, empty, valid registry exactly when the header allocation succeeds, and null otherwise |
| `Gc.Registry.Malloc` | gc.c:26-39 | returns the payload address in every case; on full success the new list is the old one with a count-1 record for it in front and `numitems` is one higher; if either allocation fails nothing changes; with a fresh address the invariant is kept |
| `Gc.Registry.Register` | gc.c:42-51 | the loop's result is `Registered` of the old list: only the first matching record's count rises, by one; `numitems` is unchanged; the map changes as `MapRegister`; the invariant is kept |
| `Gc.Registry.Free` | gc.c:55-80 | the loop's result is `Freed` of the old list; the payload is freed exactly when the matching record's count was 1, and `numitems` then drops by one and otherwise stays; on a valid registry the map changes as `MapFree` and the invariant is kept |
| `Gc.SharedAllocationScenario` | gc.c:26-80 | allocate, register, free, free: the first free frees nothing and leaves one item; the second frees the payload and leaves none |
| `Gc.TwoAllocationsScenario` | gc.c:26-80 | after allocating two distinct addresses, freeing the first frees its payload and leaves only the second, with count 1 |
| `Gc.FreeOnEmptyScenario` | gc.c:55-80 | a free of any address on an empty registry frees nothing and leaves `numitems == 0` |
| `Gc.UntrackedPayloadScenario` | gc.c:26-39 | when the record allocation fails the payload is still returned, and registering or freeing it afterwards changes nothing |

## Left out

- The system allocator (`malloc`/`free` at gc.c:17, 27, 29, 65, 71) and the payload memory. Each allocation outcome is a parameter, and the payload `free` is the `payloadFreed` result of `Free`. The `size` argument of `gc_malloc` is dropped because it plays no part in the registry's logic.
- Address reuse by the allocator after a free. Addresses are opaque naturals, with 0 standing for NULL.
- C `int` overflow of `refCount` and `numitems` (gc.c:6, 12, 46). Counts are unbounded integers.
- The linked nodes as heap objects. The list is the sequence of its records in list order, so relinking `prev->next` or `head` is a sequence splice. The model does not capture node identity or aliasing between nodes.
- Thread safety. The code has none.
- gc.h is not part of this model; it only declares the `gc_t` type.
- There is no teardown of the registry in the source, so there is none in the model.
