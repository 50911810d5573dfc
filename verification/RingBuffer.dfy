/** Fixed-capacity circular buffer: the last `capacity` values pushed, oldest first. */
module RingBuffers {
  import opened Prelude

  function LastN<T>(s: seq<T>, n: nat): (r: seq<T>)
    ensures |r| <= n
  {
    if |s| <= n then s else s[|s| - n..]
  }

  // Keeping the last n step by step keeps the last n of everything.
  lemma LastNOfAppend<T>(s: seq<T>, x: T, n: nat)
    ensures LastN(LastN(s, n) + [x], n) == LastN(s + [x], n)
  {
  }

  // x modulo n, for an x at most one turn ahead.
  method Wrap(x: int, n: int) returns (r: int)
    requires 0 <= x < 2 * n
    ensures r == if x < n then x else x - n
  {
    r := x % n;
  }

  // Where the i-th oldest of `size` values lives when the next one goes to `head`.
  function Slot(capacity: nat, head: nat, size: nat, i: nat): nat
    requires head < capacity && size <= capacity && i < size
  {
    var x := head - size + i;
    if x < 0 then x + capacity else x
  }

  datatype CapacityError = BadCapacity(capacity: int)

  class RingBuffer<T> {
    const capacity: nat
    const data: array<Option<T>>
    var head: nat
    var size: nat
    ghost var contents: seq<T> // the retained values, oldest first

    ghost predicate Valid()
      reads this, data
    {
      && 0 < capacity == data.Length
      && head < capacity && size <= capacity
      && |contents| == size
      && forall i :: 0 <= i < size ==> data[Slot(capacity, head, size, i)] == Some(contents[i])
    }

    // Throws unless the capacity is positive.
    static method Create(capacity: int) returns (r: Result<RingBuffer<T>, CapacityError>)
      ensures r.Err? <==> capacity <= 0
      ensures r.Ok? ==> && fresh(r.value) && fresh(r.value.data) && r.value.Valid()
                        && r.value.capacity == capacity && r.value.contents == []
    {
      if capacity <= 0 {
        return Err(BadCapacity(capacity));
      }
      var ring := new RingBuffer<T>.Empty(capacity);
      return Ok(ring);
    }

    constructor Empty(capacity: nat)
      requires 0 < capacity
      ensures Valid() && fresh(data) && this.capacity == capacity && contents == []
    {
      this.capacity := capacity;
      data := new Option<T>[capacity](_ => None);
      head, size, contents := 0, 0, [];
    }

    method Push(value: T)
      requires Valid()
      modifies this, data
      ensures Valid() && contents == LastN(old(contents) + [value], capacity)
    {
      data[head] := Some(value);
      head := Wrap(head + 1, capacity);
      if size < capacity {
        size := size + 1;
      }
      contents := LastN(contents + [value], capacity);
      ghost var dropped := old(size) + 1 - size;
      assert Slot(capacity, head, size, size - 1) == old(head);
      forall i | 0 <= i < size - 1
        ensures data[Slot(capacity, head, size, i)] == Some(contents[i])
      {
        assert Slot(capacity, head, size, i) == Slot(capacity, old(head), old(size), i + dropped) != old(head);
      }
    }

    method Latest() returns (r: Option<T>)
      requires Valid()
      ensures r == if contents == [] then None else Some(contents[|contents| - 1])
    {
      if size == 0 {
        return None;
      }
      var idx := Wrap(head - 1 + capacity, capacity);
      assert idx == Slot(capacity, head, size, size - 1);
      return data[idx];
    }

    method ToArray() returns (out: seq<T>)
      requires Valid()
      ensures out == contents
    {
      out := [];
      if size == 0 {
        return;
      }
      var start := Wrap(head - size + capacity, capacity);
      for i := 0 to size
        invariant out == contents[..i]
      {
        var idx := Wrap(start + i, capacity);
        assert idx == Slot(capacity, head, size, i);
        var v := data[idx];
        if v.Some? {
          out := out + [v.value];
        }
      }
    }

    method Clear()
      requires Valid()
      modifies this, data
      ensures Valid() && contents == []
    {
      head, size, contents := 0, 0, [];
      for i := 0 to capacity
        invariant Valid() && contents == []
      {
        data[i] := None;
      }
    }
  }
}
