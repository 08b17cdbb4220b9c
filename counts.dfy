/**
 * What the registry means, independently of how the list is laid out: a
 * partial map from each tracked address to its reference count. The
 * operations on this map are the reference definitions the list operations
 * of module Blocks are proved against.
 */
module Counts {
  import opened Blocks

  /** Each tracked address with the count of the first block tracking it. */
  function RefCounts(s: seq<Block>): map<Addr, int>
    decreases |s|
  {
    if s == [] then map[]
    else RefCounts(s[1..])[s[0].pointer := s[0].refCount]
  }

  /** A fresh allocation is tracked with one reference. */
  function MapMalloc(m: map<Addr, int>, p: Addr): map<Addr, int>
  {
    m[p := 1]
  }

  /** Registering adds a reference to a tracked address and ignores any other. */
  function MapRegister(m: map<Addr, int>, p: Addr): map<Addr, int>
  {
    if p in m then m[p := m[p] + 1] else m
  }

  /**
   * Freeing drops a reference of a tracked address with a positive count,
   * forgetting the address when that was its last reference; anything else is
   * ignored.
   */
  function MapFree(m: map<Addr, int>, p: Addr): map<Addr, int>
  {
    if p !in m || m[p] <= 0 then m
    else if m[p] == 1 then m - {p}
    else m[p := m[p] - 1]
  }

  // ---------------------------------------------------------------------
  // The list and its meaning

  /** The map holds exactly the tracked addresses, each with the count a scan from the head finds. */
  lemma {:induction false} RefCountsLookup(s: seq<Block>, p: Addr)
    ensures p in RefCounts(s) <==> Tracks(s, p)
    ensures Tracks(s, p) ==> RefCounts(s)[p] == s[IndexOf(s, p)].refCount
    decreases |s|
  {
    if s != [] && s[0].pointer != p {
      RefCountsLookup(s[1..], p);
    }
  }

  /** With distinct addresses, the length of the list is the number of tracked addresses. */
  lemma {:induction false} RefCountsSize(s: seq<Block>)
    requires Distinct(s)
    ensures |RefCounts(s)| == |s|
    decreases |s|
  {
    if s != [] {
      RefCountsSize(s[1..]);
      RefCountsLookup(s[1..], s[0].pointer);
    }
  }

  /** Overwriting the first block tracking `p` overwrites the count of `p` and nothing else. */
  lemma {:induction false} RefCountsSetFirst(s: seq<Block>, p: Addr, c: int)
    requires Tracks(s, p)
    ensures RefCounts(s[IndexOf(s, p) := Block(p, c)]) == RefCounts(s)[p := c]
    decreases |s|
  {
    var i := IndexOf(s, p);
    var t := s[i := Block(p, c)];
    if i == 0 {
      assert t[1..] == s[1..];
    } else {
      assert IndexOf(s[1..], p) == i - 1;
      assert t[1..] == s[1..][i - 1 := Block(p, c)];
      RefCountsSetFirst(s[1..], p, c);
    }
  }

  /** With distinct addresses, unlinking the block tracking `p` forgets `p` and nothing else. */
  lemma {:induction false} RefCountsUnlink(s: seq<Block>, p: Addr)
    requires Distinct(s) && Tracks(s, p)
    ensures RefCounts(s[..IndexOf(s, p)] + s[IndexOf(s, p) + 1..]) == RefCounts(s) - {p}
    decreases |s|
  {
    var i := IndexOf(s, p);
    var t := s[..i] + s[i + 1..];
    var rest := s[1..];
    if i == 0 {
      assert t == rest;
      RefCountsLookup(rest, p);
    } else {
      var q := s[0].pointer;
      assert IndexOf(rest, p) == i - 1;
      assert Distinct(rest);
      var t' := rest[..i - 1] + rest[i..];
      assert t == [s[0]] + t';
      assert t[1..] == t';
      RefCountsUnlink(rest, p);
      calc {
        RefCounts(t);
        RefCounts(t')[q := s[0].refCount];
        (RefCounts(rest) - {p})[q := s[0].refCount];
        { assert q != p; }
        RefCounts(rest)[q := s[0].refCount] - {p};
      }
    }
  }

  // ---------------------------------------------------------------------
  // Each list operation implements its map operation

  /** Linking in a block at the head tracks the new address with one reference. */
  lemma PushedRefines(s: seq<Block>, p: Addr)
    ensures RefCounts(Pushed(s, p)) == MapMalloc(RefCounts(s), p)
  {
    assert Pushed(s, p)[1..] == s;
  }

  /** Registering on the list is registering on the map, whatever the list holds. */
  lemma RegisteredRefines(s: seq<Block>, p: Addr)
    ensures RefCounts(Registered(s, p)) == MapRegister(RefCounts(s), p)
  {
    RefCountsLookup(s, p);
    if Tracks(s, p) {
      var i := IndexOf(s, p);
      RefCountsSetFirst(s, p, s[i].refCount + 1);
    }
  }

  /** On a list with distinct addresses, freeing on the list is freeing on the map. */
  lemma FreedRefines(s: seq<Block>, p: Addr)
    requires Distinct(s)
    ensures RefCounts(Freed(s, p)) == MapFree(RefCounts(s), p)
  {
    RefCountsLookup(s, p);
    if Tracks(s, p) {
      var i := IndexOf(s, p);
      if s[i].refCount == 1 {
        RefCountsUnlink(s, p);
      } else if s[i].refCount > 1 {
        RefCountsSetFirst(s, p, s[i].refCount - 1);
      }
    }
  }

  // ---------------------------------------------------------------------
  // The life of one allocation: created at 1, raised and lowered, removed at 0

  /** The list after `k` registrations of `p`. */
  function RegisteredTimes(s: seq<Block>, p: Addr, k: nat): seq<Block>
    decreases k
  {
    if k == 0 then s else Registered(RegisteredTimes(s, p, k - 1), p)
  }

  /** The list after `k` frees of `p`. */
  function FreedTimes(s: seq<Block>, p: Addr, k: nat): seq<Block>
    decreases k
  {
    if k == 0 then s else Freed(FreedTimes(s, p, k - 1), p)
  }

  /** `k` registrations of a tracked address raise its count by `k` and touch nothing else. */
  lemma {:induction false} RegisteredTimesCounts(s: seq<Block>, p: Addr, k: nat)
    requires WellFormed(s) && p in RefCounts(s)
    ensures WellFormed(RegisteredTimes(s, p, k))
    ensures |RegisteredTimes(s, p, k)| == |s|
    ensures RefCounts(RegisteredTimes(s, p, k)) == RefCounts(s)[p := RefCounts(s)[p] + k]
    decreases k
  {
    if k > 0 {
      var u := RegisteredTimes(s, p, k - 1);
      RegisteredTimesCounts(s, p, k - 1);
      RegisteredWellFormed(u, p);
      RegisteredKeepsPointers(u, p);
      RegisteredRefines(u, p);
    }
  }

  /** Fewer frees than the count of `p` lower it by that many and keep `p` tracked. */
  lemma {:induction false} FreedTimesCounts(s: seq<Block>, p: Addr, m: nat)
    requires WellFormed(s) && p in RefCounts(s) && m < RefCounts(s)[p]
    ensures WellFormed(FreedTimes(s, p, m))
    ensures |FreedTimes(s, p, m)| == |s|
    ensures RefCounts(FreedTimes(s, p, m)) == RefCounts(s)[p := RefCounts(s)[p] - m]
    decreases m
  {
    if m > 0 {
      var u := FreedTimes(s, p, m - 1);
      FreedTimesCounts(s, p, m - 1);
      FreedWellFormed(u, p);
      FreedRefines(u, p);
      RefCountsLookup(u, p);
      FreedDecrements(u, p);
    }
  }

  /** Once `p` is untracked, further frees of it change nothing. */
  lemma {:induction false} FreedTimesUntracked(s: seq<Block>, p: Addr, n: nat)
    requires p !in RefCounts(s)
    ensures FreedTimes(s, p, n) == s
    decreases n
  {
    if n > 0 {
      FreedTimesUntracked(s, p, n - 1);
      RefCountsLookup(s, p);
      FreedNoop(s, p);
    }
  }

  /**
   * An address allocated with one reference, then registered `k` times, stays
   * tracked through `k` frees; free number `k + 1` unlinks its block, leaves
   * every other address with its count and shortens the list by one (after
   * which FreedTimesUntracked says that further frees of it change nothing).
   */
  lemma RegisterThenFree(s: seq<Block>, p: Addr, k: nat)
    requires WellFormed(s) && p in RefCounts(s) && RefCounts(s)[p] == 1
    ensures forall m :: 0 <= m <= k ==>
              var u := FreedTimes(RegisteredTimes(s, p, k), p, m);
              p in RefCounts(u) && RefCounts(u)[p] == k + 1 - m && |u| == |s|
    ensures RefCounts(FreedTimes(RegisteredTimes(s, p, k), p, k + 1)) == RefCounts(s) - {p}
    ensures |FreedTimes(RegisteredTimes(s, p, k), p, k + 1)| == |s| - 1
    ensures WellFormed(FreedTimes(RegisteredTimes(s, p, k), p, k + 1))
  {
    var t := RegisteredTimes(s, p, k);
    RegisteredTimesCounts(s, p, k);
    forall m | 0 <= m <= k
      ensures var u := FreedTimes(t, p, m);
              p in RefCounts(u) && RefCounts(u)[p] == k + 1 - m && |u| == |s|
    {
      FreedTimesCounts(t, p, m);
    }
    var last := FreedTimes(t, p, k);
    FreedTimesCounts(t, p, k);
    FreedRefines(last, p);
    RefCountsLookup(last, p);
    FreedUnlinks(last, p);
    FreedWellFormed(last, p);
  }
}
