/** The fixed-capacity queue of src/Containers.h, lines 16-48: a ring that can hold one item less
    than its capacity, because equal indices mean empty. */
module Fifo {
  import opened Kernel
  import Arith

  /** `x % n` for an index at most one lap too far. */
  function Wrapped(x: nat, n: nat): (r: nat)
    requires x < 2 * n
    ensures r < n && (r == x || r == x - n) && r == x % n
  {
    if x < n then x else
      assert x == n * 1 + (x - n);
      assert x % n == x - n by { Arith.ModUnique(x, n, 1, x - n); }
      x - n
  }

  class CircularFifo<T> {
    const data: array<T>
    var head: nat
    var tail: nat
    /** the items held, oldest first */
    ghost var contents: seq<T>

    ghost predicate Valid()
      reads this, data
    {
      && tail < data.Length && head < data.Length
      && |contents| < data.Length
      && head == Wrapped(tail + |contents|, data.Length)
      && forall i :: 0 <= i < |contents| ==> data[Wrapped(tail + i, data.Length)] == contents[i]
    }

    constructor (capacity: nat, blank: T)
      requires capacity > 0
      ensures Valid() && fresh(data) && data.Length == capacity && contents == []
    {
      data := new T[capacity](_ => blank);
      head, tail, contents := 0, 0, [];
    }

    /** Lines 23-31: panics exactly when the new item would be number `capacity`. */
    method Push(item: T) returns (o: Outcome<()>)
      requires Valid()
      modifies this`head, this`contents, data
      ensures o.Panics? <==> |old(contents)| + 1 == data.Length
      ensures o.Returns? ==> Valid() && contents == old(contents) + [item]
    {
      data[head] := item;
      head := (head + 1) % data.Length;
      contents := contents + [item];
      assert head == Wrapped(old(head) + 1, data.Length);
      if head == tail {
        return Panics;
      }
      o := Returns(());
    }

    /** Lines 33-42: the oldest item; panics exactly when there is none. */
    method Pop() returns (o: Outcome<T>)
      requires Valid()
      modifies this`tail, this`contents
      ensures Valid()
      ensures o.Panics? <==> old(contents) == []
      ensures o.Panics? ==> contents == []
      ensures o.Returns? ==> old(contents) == [o.value] + contents
    {
      if tail == head {
        return Panics;
      }
      var item := data[tail];
      ghost var n := data.Length;
      assert item == contents[0] by { assert Wrapped(tail + 0, n) == tail; }
      tail := (tail + 1) % data.Length;
      assert tail == Wrapped(old(tail) + 1, n);
      contents := contents[1..];
      forall i | 0 <= i < |contents| ensures data[Wrapped(tail + i, n)] == contents[i] {
        assert data[Wrapped(old(tail) + (i + 1), n)] == old(contents)[i + 1];
      }
      o := Returns(item);
    }

    /** Lines 44-47 */
    method IsEmpty() returns (r: bool)
      requires Valid()
      ensures r <==> contents == []
    {
      r := tail == head;
    }
  }
}
