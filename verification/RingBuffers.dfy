// A ring of fixed capacity: when it is full, the oldest element is overwritten.
module RingBuffers {
  class RingBuffer<T(0)> {
    const buf: array<T>
    var start: nat
    var size: nat

    ghost predicate Valid()
      reads this
    {
      start < buf.Length && size <= buf.Length
    }

    // Where the i-th oldest element is kept.
    function Slot(i: nat): (k: nat)
      requires Valid() && i <= buf.Length
      reads this
      ensures k < buf.Length
    {
      if start + i < buf.Length then start + i else start + i - buf.Length
    }

    // The elements, oldest first.
    ghost function Contents(): (s: seq<T>)
      requires Valid()
      reads this, buf
    {
      seq(size, i requires Valid() && 0 <= i < size reads this, buf => buf[Slot(i)])
    }

    constructor (capacity: nat)
      requires capacity > 0
      ensures Valid() && Contents() == [] && buf.Length == capacity && fresh(buf)
    {
      buf := new T[capacity];
      start, size := 0, 0;
    }

    method Append(v: T)
      requires Valid()
      modifies this, buf
      ensures Valid() && Contents() == Latest(old(Contents()) + [v], buf.Length)
      ensures |Contents()| == if |old(Contents())| < buf.Length then |old(Contents())| + 1 else buf.Length
      ensures forall i :: 0 <= i < |Contents()| ==> FromEnd(Contents(), i) == FromEnd(old(Contents()) + [v], i)
    {
      LatestFromEnd(Contents() + [v], buf.Length);
      Put(v);
    }

    // In a free slot, or over the oldest element.
    method Put(v: T)
      requires Valid()
      modifies this, buf
      ensures Valid() && Contents() == Latest(old(Contents()) + [v], buf.Length)
    {
      ghost var was := Contents();
      if size < buf.Length {
        Wraps(start + size, buf.Length);
        buf[(start + size) % buf.Length] := v;
        size := size + 1;
        assert Contents() == was + [v];
        return;
      }
      Wraps(start + 1, buf.Length);
      buf[start] := v;
      start := (start + 1) % buf.Length;
      assert Contents() == was[1..] + [v] == (was + [v])[1..];
    }

    method Items() returns (s: seq<T>)
      requires Valid()
      ensures s == Contents()
    {
      s := [];
      for i := 0 to size
        invariant s == Contents()[..i]
      {
        Wraps(start + i, buf.Length);
        s := s + [buf[(start + i) % buf.Length]];
      }
    }
  }

  // Two rounds of the ring at most.
  lemma Wraps(x: nat, n: nat)
    requires x < 2 * n
    ensures x % n == if x < n then x else x - n
  {
  }

  // The last n elements, or all of them.
  function Latest<T>(s: seq<T>, n: nat): (r: seq<T>)
    ensures |r| == if |s| < n then |s| else n
  {
    if |s| <= n then s else s[|s| - n..]
  }

  // The i-th element from the end, counting from zero.
  function FromEnd<T>(s: seq<T>, i: nat): T
    requires i < |s|
  {
    s[|s| - 1 - i]
  }

  lemma LatestFromEnd<T>(s: seq<T>, n: nat)
    ensures |Latest(s, n)| == if |s| < n then |s| else n
    ensures forall i :: 0 <= i < |Latest(s, n)| ==> FromEnd(Latest(s, n), i) == FromEnd(s, i)
  {
  }

  // What a ring of capacity n holds after these appends, one at a time.
  function Kept<T>(vs: seq<T>, n: nat): seq<T> {
    if vs == [] then [] else Latest(Kept(vs[..|vs| - 1], n) + [vs[|vs| - 1]], n)
  }

  // The latest of all that was appended.
  lemma {:induction false} KeptIsLatest<T>(vs: seq<T>, n: nat)
    ensures Kept(vs, n) == Latest(vs, n)
  {
    if vs != [] {
      KeptIsLatest(vs[..|vs| - 1], n);
    }
  }

  // So counted from the end, the ring holds what was appended, up to its capacity.
  lemma KeptFromEnd<T>(vs: seq<T>, n: nat, i: nat)
    requires i < |vs| && i < n
    ensures |Kept(vs, n)| == (if |vs| < n then |vs| else n) && FromEnd(Kept(vs, n), i) == FromEnd(vs, i)
  {
    KeptIsLatest(vs, n);
  }
}
