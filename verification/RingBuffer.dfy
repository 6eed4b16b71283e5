/** The fixed-capacity ring buffer that the history of measured values is stored in. */
module RingBuffers {

  /** The last `n` entries of `s`, or all of `s` when it is shorter. */
  function LastN<T>(s: seq<T>, n: nat): seq<T> {
    if |s| <= n then s else s[|s| - n..]
  }

  lemma Wrap(x: nat, n: nat)
    requires 0 < n
    ensures x < n ==> x % n == x
    ensures n <= x < 2 * n ==> x % n == x - n
  {
    var q, r := x / n, x % n;
    assert x == q * n + r && 0 <= r < n;
    if 2 <= q {
      assert 2 * n <= q * n;
    } else if q == 1 {
      assert x == n + r;
    }
  }

  /** A position of the source's range-for iteration; `start` tells `begin` from `end` in a full buffer. */
  datatype Iterator = Iterator(cur: nat, start: bool)

  class RingBuffer<T> {
    const capacity: nat
    const storage: array<T>
    var curStart: nat
    var curWrite: nat
    var full: bool

    ghost var pushed: seq<T> // everything pushed since construction or the last Clear
    ghost var base: seq<T>   // the raw slots at that moment

    ghost predicate Valid()
      reads this, storage
    {
      && 0 < capacity == storage.Length == |base|
      && curWrite < capacity
      && curWrite <= |pushed|
      && (full <==> capacity <= |pushed|)
      && (full ==> curStart == curWrite)
      && (!full ==> curStart == 0 && curWrite == |pushed|)
      && (forall j :: 0 <= j < curWrite ==> storage[j] == pushed[|pushed| - curWrite + j])
      && (forall j :: curWrite <= j < capacity ==>
            storage[j] == if full then pushed[|pushed| - curWrite + j - capacity] else base[j])
    }

    ghost function Contents(): seq<T>
      reads this, storage
    {
      LastN(pushed, capacity)
    }

    constructor (capacity: nat, zero: T)
      requires 0 < capacity
      ensures Valid() && fresh(storage)
      ensures this.capacity == capacity && pushed == [] && base == seq(capacity, _ => zero)
    {
      this.capacity := capacity;
      storage := new T[capacity](_ => zero);
      curStart, curWrite, full := 0, 0, false;
      pushed, base := [], seq(capacity, _ => zero);
    }

    /** Overwrites the oldest entry once the buffer is full. */
    method Push(e: T)
      requires Valid()
      modifies this, storage
      ensures Valid()
      ensures pushed == old(pushed) + [e] && base == old(base)
    {
      Wrap(curWrite + 1, capacity);
      var slot := curWrite;
      if curStart == curWrite && full {
        curStart := (curStart + 1) % capacity;
      }
      curWrite := (curWrite + 1) % capacity;
      full := curStart == curWrite;
      storage[slot] := e;
      pushed := pushed + [e];
    }

    /** Pushes an optional entry. */
    method PushOptional(e: seq<T>)
      requires Valid() && |e| <= 1
      modifies this, storage
      ensures Valid()
      ensures pushed == old(pushed) + e && base == old(base)
    {
      if e != [] {
        Push(e[0]);
      }
    }

    method Clear()
      requires Valid()
      modifies this
      ensures Valid() && pushed == [] && Contents() == []
    {
      curStart, curWrite, full := 0, 0, false;
      pushed, base := [], storage[..];
    }

    predicate IsEmpty()
      requires Valid()
      reads this, storage
      ensures IsEmpty() <==> Contents() == []
    {
      curStart == curWrite && !full
    }

    function Size(): (size: nat)
      requires Valid()
      reads this, storage
      ensures size == |Contents()|
    {
      if full then capacity
      else curWrite - curStart + if curStart > curWrite then capacity else 0
    }

    /** Non-negative indices count from the oldest entry, negative ones back from the newest; a slot never
        written since the last Clear shows what it held then. */
    function At(i: int): (e: T)
      requires Valid() && 0 <= capacity + i
      reads this, storage
      ensures 0 <= i < |Contents()| ==> e == Contents()[i]
      ensures i < 0 <= |Contents()| + i ==> e == Contents()[|Contents()| + i]
      ensures |Contents()| + i < 0 ==> e == base[|Contents()| + i + capacity]
    {
      if i >= 0 then Wrap(curStart + i, capacity); storage[(curStart + i) % capacity]
      else Wrap(curWrite + i + capacity, capacity); storage[(curWrite + i + capacity) % capacity]
    }

    function Begin(): Iterator reads this { Iterator(curStart, true) }

    function End(): Iterator reads this { Iterator(curWrite, true) }

    function Next(it: Iterator): Iterator
      requires Valid()
      reads this, storage
    {
      Iterator((it.cur + 1) % capacity, false)
    }

    predicate Same(it: Iterator, other: Iterator) reads this {
      (!full || !it.start) && it.cur == other.cur
    }

    /** A range-for over the buffer: each entry once, oldest first, also when begin and end are the same slot. */
    method Iterate() returns (visited: seq<T>)
      requires Valid()
      ensures visited == Contents()
    {
      visited := [];
      var it := Begin();
      while !Same(it, End())
        invariant |visited| <= |Contents()| && visited == Contents()[..|visited|]
        invariant it.start <==> visited == []
        invariant it.cur == if curStart + |visited| < capacity then curStart + |visited|
                            else curStart + |visited| - capacity
        decreases |Contents()| - |visited|
      {
        visited := visited + [storage[it.cur]];
        Wrap(it.cur + 1, capacity);
        it := Next(it);
      }
    }
  }
}
