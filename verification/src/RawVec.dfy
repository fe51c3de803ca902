/** The growable array: a buffer that is replaced by a larger one when it is full. */
module RawVecModel {
  import Lir

  // ---------- powers of two ----------

  predicate IsPow2(n: nat) {
    n == 1 || (n > 0 && n % 2 == 0 && IsPow2(n / 2))
  }

  /** The smallest power of two from `p` on that is at least `n`. */
  function PowFrom(p: nat, n: nat): (r: nat)
    requires p > 0
    ensures r >= n && r >= p && (IsPow2(p) ==> IsPow2(r)) && (r > p ==> r < 2 * n)
    decreases n - p
  {
    if p >= n then p else PowFrom(2 * p, n)
  }

  function NextPow2(n: nat): nat {
    PowFrom(1, n)
  }

  /** Between a power of two and its double there is no other one. */
  lemma {:induction false} NoPowBetween(c: nat, p: nat)
    requires IsPow2(c) && IsPow2(p) && c < p
    ensures 2 * c <= p
    decreases p
  {
    if c > 1 {
      NoPowBetween(c / 2, p / 2);
    }
  }

  lemma NextAfterPow2(c: nat)
    requires IsPow2(c)
    ensures NextPow2(c + 1) == 2 * c
  {
    NoPowBetween(c, NextPow2(c + 1));
    assert IsPow2(2 * c);
  }

  // ---------- the array ----------

  class RawVec<T(0)> {
    var buffer: array<T>
    var len: nat
    /** The size of an element is at least 1024 bytes. */
    const large: bool
    /** The capacity it was made with, the pushes so far, and the elements moved to larger buffers. */
    ghost const start: nat
    ghost var pushes: nat
    ghost var moved: nat

    function First(): nat {
      if large then 8 else 4
    }

    /** For an array that started without capacity, whatever was pushed, popped and removed: the capacity
        is a power of two, and fewer elements have been moved than twice the number of pushes. */
    ghost predicate Amortised()
      reads this
    {
      && len <= pushes && (pushes > 0 ==> moved < 2 * pushes)
      && if buffer.Length == 0 then moved == 0
         else
           && IsPow2(buffer.Length) && buffer.Length >= First()
           && moved == buffer.Length - First()
           && (buffer.Length == First() || buffer.Length < 2 * pushes) && pushes > 0
    }

    ghost predicate Valid()
      reads this
    {
      len <= buffer.Length && (start == 0 ==> Amortised())
    }

    ghost function Contents(): (s: seq<T>)
      reads this, buffer
      requires Valid()
    {
      buffer[..len]
    }

    constructor WithCap(cap: nat, large: bool)
      ensures Valid() && fresh(buffer) && buffer.Length == cap == start && Contents() == []
      ensures this.large == large && pushes == 0 && moved == 0
    {
      this.large := large;
      start, pushes, moved, len := cap, 0, 0, 0;
      buffer := new T[cap];
    }

    method Get(idx: nat) returns (r: Lir.Option<T>)
      requires Valid()
      ensures r == if idx < |Contents()| then Lir.Some(Contents()[idx]) else Lir.None
    {
      if idx < len {
        return Lir.Some(buffer[idx]);
      }
      return Lir.None;
    }

    /** A larger buffer with the same elements. */
    method Grow(cap: nat)
      requires len <= buffer.Length
      modifies this`buffer, this`moved
      ensures buffer.Length == if cap > old(buffer.Length) then cap else old(buffer.Length)
      ensures len <= buffer.Length && buffer[..len] == old(buffer[..len])
      ensures buffer == old(buffer) || fresh(buffer)
      ensures moved == old(moved) + (if cap > old(buffer.Length) > 0 then len else 0)
    {
      if cap <= buffer.Length {
        return;
      }
      if buffer.Length > 0 {
        moved := moved + len;
      }
      var bigger := new T[cap];
      forall i | 0 <= i < len {
        bigger[i] := buffer[i];
      }
      buffer := bigger;
    }

    method Push(item: T)
      requires Valid()
      modifies this, buffer
      ensures Valid() && Contents() == old(Contents()) + [item]
      ensures pushes == old(pushes) + 1 && (buffer == old(buffer) || fresh(buffer))
      ensures old(len) < old(buffer.Length) ==> buffer == old(buffer) && moved == old(moved)
    {
      ghost var before := Contents();
      if len == buffer.Length {
        var newSize := if len == 0 then First() else NextPow2(len + 1);
        if IsPow2(len) {
          NextAfterPow2(len);
        }
        assert IsPow2(4) && IsPow2(8) by {
          assert IsPow2(2);
        }
        Grow(newSize);
      }
      pushes := pushes + 1;
      buffer[len] := item;
      len := len + 1;
      assert buffer[..len - 1] == before;
    }

    method Pop() returns (r: Lir.Option<T>)
      requires Valid()
      modifies this`len
      ensures Valid()
      ensures old(Contents()) == [] ==> r == Lir.None && Contents() == []
      ensures old(Contents()) != [] ==>
                var last := |old(Contents())| - 1;
                r == Lir.Some(old(Contents())[last]) && Contents() == old(Contents())[..last]
    {
      if len == 0 {
        return Lir.None;
      }
      len := len - 1;
      return Lir.Some(buffer[len]);
    }

    /** Takes one element out and moves the later ones down; an index out of range is a panic. */
    method Remove(index: nat) returns (r: Lir.Option<T>)
      requires Valid()
      modifies this`len, buffer
      ensures Valid()
      ensures index >= |old(Contents())| ==> r == Lir.None && Contents() == old(Contents())
      ensures index < |old(Contents())| ==>
                && r == Lir.Some(old(Contents())[index])
                && Contents() == old(Contents())[..index] + old(Contents())[index + 1..]
    {
      if index >= len {
        return Lir.None;
      }
      var taken := buffer[index];
      forall k | index <= k < len - 1 {
        buffer[k] := buffer[k + 1];
      }
      len := len - 1;
      return Lir.Some(taken);
    }
  }

  /** `n` pushes in a row on a new array. */
  method PushAll<T(0)>(items: seq<T>, large: bool) returns (v: RawVec<T>)
    ensures v.Valid() && fresh(v) && v.Contents() == items
    ensures items != [] ==> v.moved < 2 * |items|
    ensures v.buffer.Length == 0 || (IsPow2(v.buffer.Length) && v.buffer.Length >= 4)
  {
    v := new RawVec<T>.WithCap(0, large);
    var i := 0;
    while i < |items|
      invariant 0 <= i <= |items| && v.Valid() && fresh(v) && fresh(v.buffer) && v.start == 0
      invariant v.Contents() == items[..i] && v.pushes == i
    {
      v.Push(items[i]);
      i := i + 1;
    }
  }
}
