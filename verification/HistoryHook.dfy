/**
 The history handed to React. The hook keeps one array reference and swaps it only when the contents
 changed. `T` is a stored reading, its `==` the identity the hook compares by.
 */
module HistoryHooks {
  import opened RingBuffers

  class HistoryArray<T> {
    const items: seq<T>

    constructor (items: seq<T>)
      ensures this.items == items
    {
      this.items := items;
    }
  }

  method HistoriesEqual<T(==)>(a: HistoryArray<T>, b: HistoryArray<T>) returns (equal: bool)
    ensures equal <==> a.items == b.items
  {
    if a == b {
      return true;
    }
    if |a.items| != |b.items| {
      return false;
    }
    for i := 0 to |a.items|
      invariant a.items[..i] == b.items[..i]
    {
      if a.items[i] != b.items[i] {
        return false;
      }
    }
    return true;
  }

  class HistoryHook<T(==)> {
    const EMPTY_HISTORY: HistoryArray<T>
    var cache: HistoryArray<T>

    // Every empty history is the one shared reference.
    ghost predicate Valid()
      reads this
    {
      EMPTY_HISTORY.items == [] && (cache.items == [] ==> cache == EMPTY_HISTORY)
    }

    constructor (empty: HistoryArray<T>)
      requires empty.items == []
      ensures Valid() && cache == EMPTY_HISTORY == empty
    {
      EMPTY_HISTORY, cache := empty, empty;
    }

    // `ring` is null while the store has none for the tag.
    method GetSnapshot(ring: RingBuffer?<T>) returns (r: HistoryArray<T>)
      requires Valid() && (ring != null ==> ring.Valid())
      modifies this
      ensures Valid() && r == cache
      ensures r.items == if ring == null then [] else ring.contents
      ensures r == old(cache) <==> r.items == old(cache).items
      ensures r.items == [] ==> r == EMPTY_HISTORY
    {
      var history := [];
      if ring != null {
        history := ring.ToArray();
      }
      var raw := new HistoryArray<T>(history);
      var next := if |raw.items| == 0 then EMPTY_HISTORY else raw;
      var same := HistoriesEqual(cache, next);
      if same {
        return cache;
      }
      cache := next;
      return next;
    }
  }

  lemma {:induction false} AllAreLast<T>(contents: seq<T>, x: T, n: nat)
    requires n <= |contents| && contents != []
    requires (contents + [x])[1..] == contents
    ensures forall i :: |contents| - n <= i < |contents| ==> contents[i] == x
  {
    if n > 0 {
      AllAreLast(contents, x, n - 1);
      var i := |contents| - n;
      assert contents[i] == (contents + [x])[1..][i] == (contents + [x])[i + 1];
    }
  }

  /** A push leaves the history as it was exactly when the ring is full of that very reading; so a
      reading that is not in the ring yet always changes the reference. */
  lemma PushLeavesHistoryExactlyWhen<T>(contents: seq<T>, x: T, capacity: nat)
    requires 0 < capacity && |contents| <= capacity
    ensures LastN(contents + [x], capacity) == contents <==>
            |contents| == capacity && forall i :: 0 <= i < |contents| ==> contents[i] == x
  {
    if LastN(contents + [x], capacity) == contents {
      AllAreLast(contents, x, |contents|);
    }
    if |contents| == capacity && forall i :: 0 <= i < |contents| ==> contents[i] == x {
      assert (contents + [x])[1..] == contents;
    }
  }
}
