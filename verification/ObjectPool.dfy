/** The ring-scan allocator behind the orders and the price levels. */
module ObjectPools {
  import opened Types

  /** A sequence without repetitions has as many members as positions. */
  lemma {:induction false} MembersOfDistinct<T>(s: seq<T>)
    requires forall i, j :: 0 <= i < j < |s| ==> s[i] != s[j]
    ensures |set x | x in s| == |s|
  {
    if s != [] {
      MembersOfDistinct(s[1..]);
      assert (set x | x in s) == {s[0]} + (set x | x in s[1..]);
    }
  }

  lemma SmallerThanStrictSuperset<T>(a: set<T>, b: set<T>, x: T)
    requires a <= b && x in b && x !in a
    ensures |a| < |b|
  {
    assert a <= b - {x};
    SubsetCardinality(a, b - {x});
  }

  lemma {:induction false} SubsetCardinality<T>(a: set<T>, b: set<T>)
    requires a <= b
    ensures |a| <= |b|
  {
    if a != {} {
      var x :| x in a;
      SubsetCardinality(a - {x}, b - {x});
    }
  }

  /**
   * `store` holds one object per block. Running the constructor of the object in place is left to
   * the caller, who knows its arguments. A failed `ASSERT` ends the process; it is reported as None
   * or false.
   */
  class ObjectPool<T(==)> {
    const store: seq<T>
    const available: array<bool>
    var nextFree: nat
    ghost var live: set<T>  // the objects handed out and not released

    ghost predicate Valid()
      reads this, available
    {
      && |store| == available.Length
      && nextFree < |store|
      && available[nextFree]
      && (forall i, j :: 0 <= i < j < |store| ==> store[i] != store[j])
      && (forall i :: 0 <= i < |store| ==> (store[i] in live <==> !available[i]))
      && (forall o :: o in live ==> o in store)
    }

    /** Going round from block `i` to block `j`, no block before `j` is available. */
    ghost predicate NoneBetween(i: nat, j: nat)
      reads available
      requires |store| == available.Length
    {
      if i <= j then forall k :: i <= k < j && k < |store| ==> !available[k]
      else (forall k :: i <= k < |store| ==> !available[k]) && (forall k :: 0 <= k < j && k < |store| ==> !available[k])
    }

    constructor (store: seq<T>)
      requires |store| > 0
      requires forall i, j :: 0 <= i < j < |store| ==> store[i] != store[j]
      ensures Valid() && fresh(available) && this.store == store && live == {} && nextFree == 0
    {
      this.store := store;
      available := new bool[|store|](_ => true);
      nextFree := 0;
      live := {};
    }

    /**
     * Grants an object that is not live. The pool of size n aborts in the call that would make the
     * n-th object live, after marking it.
     */
    method GetObject() returns (granted: Option<T>)
      requires Valid()
      modifies this, available
      ensures granted.Some? <==> |old(live)| + 1 < |store|
      ensures granted.Some? ==>
        && Valid()
        && granted.value in store && granted.value !in old(live)
        && live == old(live) + {granted.value}
        && granted.value == store[old(nextFree)] && NoneBetween(old(nextFree), nextFree)
    {
      var index := nextFree;
      assert available[index];  // the first ASSERT: it never fires
      available[index] := false;
      live := live + {store[index]};
      FullExactlyByCount();
      var found := UpdateNextFree();
      return if found then Some(store[index]) else None;
    }

    /** Scans once around the ring; false when it comes back to where it started. */
    method UpdateNextFree() returns (found: bool)
      requires |store| == available.Length && nextFree < |store|
      modifies this`nextFree
      ensures found <==> exists i :: 0 <= i < |store| && available[i]
      ensures found ==> nextFree < |store| && available[nextFree] && NoneBetween(old(nextFree), nextFree)
    {
      var prevFree := nextFree;
      while !available[nextFree]
        invariant nextFree < |store|
        invariant forall j :: prevFree <= j < |store| && (j < nextFree || nextFree < prevFree) ==> !available[j]
        invariant forall j :: 0 <= j < nextFree < prevFree ==> !available[j]
        decreases if nextFree < prevFree then prevFree - nextFree else |store| - nextFree + prevFree
      {
        nextFree := nextFree + 1;
        if nextFree == |store| {
          nextFree := 0;
        }
        if nextFree == prevFree {
          return false;
        }
      }
      return true;
    }

    /** Counting the live objects tells whether a block is left. */
    lemma FullExactlyByCount()
      requires |store| == available.Length
      requires forall i, j :: 0 <= i < j < |store| ==> store[i] != store[j]
      requires forall i :: 0 <= i < |store| ==> (store[i] in live <==> !available[i])
      requires forall o :: o in live ==> o in store
      ensures |live| < |store| <==> exists i :: 0 <= i < |store| && available[i]
    {
      MembersOfDistinct(store);
      var members := set o | o in store;
      if i :| 0 <= i < |store| && available[i] {
        SmallerThanStrictSuperset(live, members, store[i]);
      } else {
        assert live == members;
      }
    }

    method ReleaseObject(item: T) returns (ok: bool)
      requires Valid()
      modifies this`live, available
      ensures ok <==> item in old(live)
      ensures ok ==> Valid() && live == old(live) - {item}
      ensures !ok ==> Valid() && live == old(live)
    {
      if item !in store { return false; }
      var index :| 0 <= index < |store| && store[index] == item;
      if available[index] { return false; }
      available[index] := true;
      live := live - {item};
      return true;
    }
  }
}
