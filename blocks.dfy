/**
 * The registry's list of tracked blocks, as a value.
 *
 * The C registry keeps a singly linked list of `blokk_t` records reached from
 * `gc->head`. Here that list is the sequence of its records in list order:
 * element 0 is the head, element i + 1 is what element i's `next` points to.
 * Every lookup in the source walks the list from the head and stops at the
 * first record whose pointer matches, so the first match is what counts.
 */
module Blocks {

  /** An address handed out by the system allocator; 0 plays the part of NULL. */
  type Addr = nat

  const Null: Addr := 0

  /** One `blokk_t` record: the tracked payload address and its reference count (a C `int`). */
  datatype Block = Block(pointer: Addr, refCount: int)

  /** Position of the first block that tracks `p`, or `|s|` when none does. */
  function IndexOf(s: seq<Block>, p: Addr): (i: nat)
    ensures i <= |s|
    ensures i < |s| ==> s[i].pointer == p
    ensures forall j :: 0 <= j < i ==> s[j].pointer != p
    decreases |s|
  {
    if s == [] then 0
    else if s[0].pointer == p then 0
    else 1 + IndexOf(s[1..], p)
  }

  /** Some block of `s` tracks `p`. */
  predicate Tracks(s: seq<Block>, p: Addr)
  {
    IndexOf(s, p) < |s|
  }

  /** No address is tracked by two blocks. */
  predicate Distinct(s: seq<Block>)
  {
    forall i, j :: 0 <= i < j < |s| ==> s[i].pointer != s[j].pointer
  }

  /**
   * The shape every list built by the registry's operations has: tracked
   * addresses are non-null and distinct, and every count is at least 1.
   */
  predicate WellFormed(s: seq<Block>)
  {
    && Distinct(s)
    && forall i :: 0 <= i < |s| ==> s[i].pointer != Null && s[i].refCount >= 1
  }

  /** The list after a new block for `p` with count 1 has been linked in at the head. */
  function Pushed(s: seq<Block>, p: Addr): seq<Block>
  {
    [Block(p, 1)] + s
  }

  /** The list after the count of the first block tracking `p` has been raised by one. */
  function Registered(s: seq<Block>, p: Addr): seq<Block>
  {
    var i := IndexOf(s, p);
    if i == |s| then s
    else s[i := s[i].(refCount := s[i].refCount + 1)]
  }

  /** The first block tracking `p` would drop its last reference on a free. */
  predicate ReleasesLast(s: seq<Block>, p: Addr)
  {
    Tracks(s, p) && s[IndexOf(s, p)].refCount == 1
  }

  /**
   * The list after one free of `p`: nothing happens when `p` is untracked or
   * its count is not positive; a count of 1 unlinks the block; a larger count
   * is lowered by one.
   */
  function Freed(s: seq<Block>, p: Addr): seq<Block>
  {
    var i := IndexOf(s, p);
    if i == |s| || s[i].refCount <= 0 then s
    else if s[i].refCount == 1 then s[..i] + s[i + 1..]
    else s[i := s[i].(refCount := s[i].refCount - 1)]
  }

  // ---------------------------------------------------------------------
  // How the operations change the list

  /** Registering changes no address and no position: the list keeps its length and its order. */
  lemma RegisteredKeepsPointers(s: seq<Block>, p: Addr)
    ensures |Registered(s, p)| == |s|
    ensures forall j :: 0 <= j < |s| ==> Registered(s, p)[j].pointer == s[j].pointer
  {
  }

  /** A free of an untracked address, or of a block whose count is not positive, changes nothing. */
  lemma FreedNoop(s: seq<Block>, p: Addr)
    requires !Tracks(s, p) || s[IndexOf(s, p)].refCount <= 0
    ensures Freed(s, p) == s
  {
  }

  /** Removing position `i` keeps the elements before it and shifts those after it down by one. */
  lemma RemovedAt(s: seq<Block>, i: nat)
    requires i < |s|
    ensures |s[..i] + s[i + 1..]| == |s| - 1
    ensures forall j :: 0 <= j < i ==> (s[..i] + s[i + 1..])[j] == s[j]
    ensures forall j :: i < j < |s| ==> (s[..i] + s[i + 1..])[j - 1] == s[j]
  {
  }

  /**
   * A free that drops the last reference unlinks exactly the first block
   * tracking `p`: the blocks before it and after it keep their values and
   * their relative order.
   */
  lemma FreedUnlinks(s: seq<Block>, p: Addr)
    requires ReleasesLast(s, p)
    ensures |Freed(s, p)| == |s| - 1
    ensures forall j :: 0 <= j < IndexOf(s, p) ==> Freed(s, p)[j] == s[j]
    ensures forall j :: IndexOf(s, p) < j < |s| ==> Freed(s, p)[j - 1] == s[j]
  {
    var i := IndexOf(s, p);
    assert Freed(s, p) == s[..i] + s[i + 1..];
    RemovedAt(s, i);
  }

  /** Registering raises the count of the first block tracking `p` by one and changes no other block. */
  lemma RegisteredIncrements(s: seq<Block>, p: Addr)
    requires Tracks(s, p)
    ensures |Registered(s, p)| == |s|
    ensures Registered(s, p)[IndexOf(s, p)] == Block(p, s[IndexOf(s, p)].refCount + 1)
    ensures forall j :: 0 <= j < |s| && j != IndexOf(s, p) ==> Registered(s, p)[j] == s[j]
  {
  }

  /** Registering an address no block tracks changes nothing. */
  lemma RegisteredNoop(s: seq<Block>, p: Addr)
    requires !Tracks(s, p)
    ensures Registered(s, p) == s
  {
  }

  /** A free of a block with a count above 1 lowers that count and changes no other block. */
  lemma FreedDecrements(s: seq<Block>, p: Addr)
    requires Tracks(s, p) && s[IndexOf(s, p)].refCount > 1
    ensures |Freed(s, p)| == |s|
    ensures Freed(s, p)[IndexOf(s, p)] == Block(p, s[IndexOf(s, p)].refCount - 1)
    ensures forall j :: 0 <= j < |s| && j != IndexOf(s, p) ==> Freed(s, p)[j] == s[j]
  {
  }

  /** On a well-formed list the `refCount > 0` guard of a free never fails. */
  lemma WellFormedGuard(s: seq<Block>, p: Addr)
    requires WellFormed(s)
    ensures Tracks(s, p) ==> s[IndexOf(s, p)].refCount > 0
    ensures !Tracks(s, Null)
  {
  }

  // ---------------------------------------------------------------------
  // The operations keep the list well formed

  /** Linking in a block for a fresh, non-null payload keeps the list well formed. */
  lemma PushedWellFormed(s: seq<Block>, p: Addr)
    requires WellFormed(s)
    requires p != Null && !Tracks(s, p)
    ensures WellFormed(Pushed(s, p))
    ensures Tracks(Pushed(s, p), p) && IndexOf(Pushed(s, p), p) == 0
  {
    var t := Pushed(s, p);
    forall i, j | 0 <= i < j < |t|
      ensures t[i].pointer != t[j].pointer
    {
      if i == 0 {
        assert t[j] == s[j - 1];
      } else {
        assert t[i] == s[i - 1] && t[j] == s[j - 1];
      }
    }
  }

  /** Registering keeps the list well formed. */
  lemma RegisteredWellFormed(s: seq<Block>, p: Addr)
    requires WellFormed(s)
    ensures WellFormed(Registered(s, p))
  {
    RegisteredKeepsPointers(s, p);
  }

  /** Freeing keeps the list well formed. */
  lemma FreedWellFormed(s: seq<Block>, p: Addr)
    requires WellFormed(s)
    ensures WellFormed(Freed(s, p))
  {
    var t := Freed(s, p);
    if ReleasesLast(s, p) {
      FreedUnlinks(s, p);
      var i := IndexOf(s, p);
      forall a, b | 0 <= a < b < |t|
        ensures t[a].pointer != t[b].pointer
      {
        var a' := if a < i then a else a + 1;
        var b' := if b < i then b else b + 1;
        assert t[a] == s[a'] && t[b] == s[b'];
      }
    }
  }
}
