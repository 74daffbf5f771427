/** The fixed-capacity vector of stack-vec/src/lib.rs: a length over
    caller-supplied storage. The vector's contents are the first `len` slots
    of the storage; the rest of the storage is not part of the vector. */
module StackVec {
  import opened Common

  class StackVec<T> {
    /** The borrowed slice `storage: &mut [T]`; its length is the capacity. */
    const storage: array<T>
    var len: nat

    ghost predicate Valid()
      reads this
    {
      len <= storage.Length
    }

    /** `StackVec::new`: an empty vector that can hold `storage.Length` values. */
    constructor New(storage: array<T>)
      ensures Valid() && this.storage == storage && len == 0
      ensures AsSlice() == [] && Capacity() == storage.Length
    {
      this.storage := storage;
      len := 0;
    }

    /** `StackVec::with_len`: the first `len` slots of `storage` count as
        pushed. The source panics when `len > storage.len()`. */
    constructor WithLen(storage: array<T>, len: nat)
      requires len <= storage.Length
      ensures Valid() && this.storage == storage && this.len == len
      ensures AsSlice() == storage[..len] && Capacity() == storage.Length
    {
      this.storage := storage;
      this.len := len;
    }

    /** `capacity`: the number of values the vector can hold. */
    function Capacity(): (c: nat)
      ensures c == storage.Length
    {
      storage.Length
    }

    /** `as_slice` (and `into_slice`, which also gives up the vector): the
        pushed values, oldest first. */
    function AsSlice(): (s: seq<T>)
      reads this, storage
      requires Valid()
      ensures |s| == len && s == storage[..len]
    {
      storage[..len]
    }

    /** `len`: the number of values in the vector. */
    function Len(): (n: nat)
      reads this, storage
      requires Valid()
      ensures n == |AsSlice()| && n <= Capacity()
    {
      len
    }

    /** `is_empty`. */
    predicate IsEmpty()
      reads this, storage
      requires Valid()
      ensures IsEmpty() <==> AsSlice() == []
    {
      len == 0
    }

    /** `is_full`. */
    predicate IsFull()
      reads this, storage
      requires Valid()
      ensures IsFull() <==> |AsSlice()| == Capacity()
    {
      len == storage.Length
    }

    /** `self[index]` through `Index`: the source panics unless `index < len`. */
    function Index(index: nat): (x: T)
      reads this, storage
      requires Valid() && index < Len()
      ensures x == AsSlice()[index]
    {
      storage[index]
    }

    /** `push`: fails on a full vector and changes nothing; otherwise stores
        `value` in slot `len` and leaves every other slot alone. */
    method Push(value: T) returns (r: Result<(), ()>)
      requires Valid()
      modifies this`len, storage
      ensures Valid()
      ensures old(IsFull()) ==> r == Err(()) && len == old(len) && storage[..] == old(storage[..])
      ensures !old(IsFull()) ==>
        r == Ok(()) && len == old(len) + 1 && storage[..] == old(storage[..])[old(len) := value]
      ensures AsSlice() == if old(IsFull()) then old(AsSlice()) else old(AsSlice()) + [value]
    {
      if IsFull() {
        return Err(());
      }
      storage[len] := value;
      len := len + 1;
      assert storage[..len] == old(storage[..len]) + [value];
      return Ok(());
    }

    /** `pop`: `None` on an empty vector; otherwise the value in the last
        pushed slot, which is no longer part of the vector. */
    method Pop() returns (r: Option<T>)
      requires Valid()
      modifies this`len
      ensures Valid()
      ensures old(len) == 0 ==> r == None && len == 0
      ensures old(len) > 0 ==> r == Some(old(AsSlice())[old(len) - 1]) && len == old(len) - 1
      ensures AsSlice() == if old(len) == 0 then old(AsSlice()) else old(AsSlice())[..old(len) - 1]
    {
      if len == 0 {
        return None;
      }
      len := len - 1;
      return Some(storage[len]);
    }

    /** `truncate(n)`: keeps the first `n` values when `n < len`, and has
        no effect otherwise. */
    method Truncate(n: nat)
      requires Valid()
      modifies this`len
      ensures Valid()
      ensures len == if n < old(len) then n else old(len)
      ensures AsSlice() == old(AsSlice())[..len]
    {
      if n < len {
        len := n;
      }
    }
  }

  /** Pushing onto a vector that is not full and popping gives back the
      pushed value and the vector as it was. */
  method PushThenPop<T>(v: StackVec<T>, x: T) returns (r: Option<T>)
    requires v.Valid() && !v.IsFull()
    modifies v, v.storage
    ensures v.Valid() && r == Some(x)
    ensures v.AsSlice() == old(v.AsSlice()) && v.Len() == old(v.Len())
  {
    var pushed := v.Push(x);
    r := v.Pop();
  }

  /** A full vector refuses every push: it stays full and keeps its values. */
  method PushOnFull<T>(v: StackVec<T>, x: T) returns (r: Result<(), ()>)
    requires v.Valid() && v.IsFull()
    modifies v, v.storage
    ensures v.Valid() && r.Err? && v.IsFull() && v.AsSlice() == old(v.AsSlice())
  {
    r := v.Push(x);
  }
}
