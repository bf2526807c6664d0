/** A growable contiguous vector on top of a raw storage block. The storage is a Dafny
    array whose slots past the vector's size hold arbitrary values, standing for
    uninitialised memory. */
module VectorModel {
  import opened VectorSpec

  /** Copies `n` elements of `from`, starting at `fromStart`, into `to`, starting at
      `toStart`; the rest of `to` is untouched. This is the relocation (move or copy
      construction, then destruction of the originals) and the element copies. */
  method CopyN<T>(from: array<T>, fromStart: nat, to: array<T>, toStart: nat, n: nat)
    requires from != to
    requires fromStart + n <= from.Length && toStart + n <= to.Length
    modifies to
    ensures forall k :: toStart <= k < toStart + n ==> to[k] == from[fromStart + (k - toStart)]
    ensures forall k :: 0 <= k < to.Length && !(toStart <= k < toStart + n) ==> to[k] == old(to[k])
  {
    for i := 0 to n
      invariant forall k :: toStart <= k < toStart + i ==> to[k] == from[fromStart + (k - toStart)]
      invariant forall k :: 0 <= k < to.Length && !(toStart <= k < toStart + i) ==> to[k] == old(to[k])
    {
      to[toStart + i] := from[fromStart + i];
    }
  }

  /** A block of `buffer.Length` slots with no notion of which of them are live. */
  class RawMemory<T(0)> {
    var buffer: array<T>

    /** `RawMemory() = default`: `buffer_` is `nullptr` and `capacity_` is 0, an empty block. */
    constructor ()
      ensures fresh(buffer) && buffer.Length == 0
    {
      buffer := new T[0];
    }

    /** A fresh block of exactly `capacity` slots. */
    constructor WithCapacity(capacity: nat)
      ensures fresh(buffer) && buffer.Length == capacity
    {
      buffer := new T[capacity];
    }

    /** Move construction: takes over `other`'s block and leaves `other` with none. */
    constructor Moved(other: RawMemory<T>)
      modifies other
      ensures buffer == old(other.buffer)
      ensures fresh(other.buffer) && other.buffer.Length == 0
    {
      buffer := new T[0];
      new;
      Init(other);
    }

    /** Move assignment: releases this block, takes over `other`'s, leaves `other` empty. */
    method Init(other: RawMemory<T>)
      requires other != this
      modifies this, other
      ensures buffer == old(other.buffer)
      ensures fresh(other.buffer) && other.buffer.Length == 0
    {
      buffer := other.buffer;
      other.buffer := new T[0];
    }

    /** Exchanges the blocks (and so the capacities) of the two storages. */
    method Swap(other: RawMemory<T>)
      modifies this, other
      ensures buffer == old(other.buffer) && other.buffer == old(buffer)
    {
      var mine := buffer;
      buffer := other.buffer;
      other.buffer := mine;
    }
  }

  class Vector<T(0)> {
    const data: RawMemory<T>
    var size: nat

    /** The size never exceeds the capacity. */
    ghost predicate Valid()
      reads this, data
    {
      size <= data.buffer.Length
    }

    /** The live elements: slots [0, size) of the storage. */
    ghost function Elements(): seq<T>
      reads this, data, data.buffer
      requires Valid()
    {
      data.buffer[..size]
    }

    /** The two vectors own distinct storage, as two distinct vector objects always do. */
    ghost predicate OwnsStorageApartFrom(other: Vector<T>)
      reads data, other.data
    {
      data != other.data && data.buffer != other.data.buffer
    }

    /** `Vector()`: no elements and no storage. */
    constructor ()
      ensures Valid() && fresh(data) && fresh(data.buffer)
      ensures Elements() == [] && Capacity() == 0
    {
      data := new RawMemory();
      size := 0;
    }

    /** `Vector(n)`: `n` value-initialised elements (`init` is `T()`) and capacity exactly `n`. */
    constructor Sized(n: nat, init: T)
      ensures Valid() && fresh(data) && fresh(data.buffer)
      ensures Elements() == seq(n, _ => init) && Capacity() == n
    {
      data := new RawMemory.WithCapacity(n);
      size := n;
      new;
      var buf := data.buffer;
      for i := 0 to n
        modifies buf
        invariant forall k :: 0 <= k < i ==> buf[k] == init
      {
        buf[i] := init;
      }
    }

    /** Copy construction: equal elements, capacity exactly `other`'s size. */
    constructor Copy(other: Vector<T>)
      requires other.Valid()
      ensures Valid() && fresh(data) && fresh(data.buffer)
      ensures Elements() == other.Elements() && Capacity() == other.size
    {
      data := new RawMemory.WithCapacity(other.size);
      size := other.size;
      new;
      CopyN(other.data.buffer, 0, data.buffer, 0, other.size);
    }

    /** Move construction: takes `other`'s elements and storage; `other` is left with
        no elements and capacity 0. */
    constructor Moved(other: Vector<T>)
      requires other.Valid()
      modifies other, other.data
      ensures Valid() && fresh(data)
      ensures Elements() == old(other.Elements())
      ensures data.buffer == old(other.data.buffer)
      ensures other.Valid() && other.Elements() == [] && other.Capacity() == 0
    {
      var storage := new RawMemory();
      storage.Init(other.data);
      data := storage;
      size := other.size;
      new;
      other.size := 0;
    }

    /** The number of live elements; never more than the capacity. */
    function Size(): (n: nat)
      reads this, data, data.buffer
      requires Valid()
      ensures n == |Elements()|
      ensures n <= Capacity()
    {
      size
    }

    /** The number of slots of the storage; never less than the size. */
    function Capacity(): (c: nat)
      reads this, data
      requires Valid()
      ensures size <= c
    {
      data.buffer.Length
    }

    /** `operator[]` read: the element at position `i` (no check beyond the precondition). */
    function At(i: nat): (r: T)
      reads this, data, data.buffer
      requires Valid() && i < size
      ensures r == Elements()[i]
    {
      data.buffer[i]
    }

    /** A write through the reference `operator[]` returns. */
    method SetAt(i: nat, v: T)
      requires Valid() && i < size
      modifies data.buffer
      ensures Valid() && Elements() == old(Elements())[i := v]
    {
      data.buffer[i] := v;
    }

    /** Exchanges elements, size and capacity with `other`. */
    method Swap(other: Vector<T>)
      requires Valid() && other.Valid()
      modifies this, data, other, other.data
      ensures Valid() && other.Valid()
      ensures data.buffer == old(other.data.buffer) && other.data.buffer == old(data.buffer)
      ensures size == old(other.size) && other.size == old(size)
      ensures Elements() == old(other.Elements()) && other.Elements() == old(Elements())
    {
      data.Swap(other.data);
      var mine := size;
      size := other.size;
      other.size := mine;
    }

    /** Move assignment: the two vectors exchange their contents; `rhs` is not emptied. */
    method MoveAssign(rhs: Vector<T>)
      requires Valid() && rhs.Valid()
      modifies this, data, rhs, rhs.data
      ensures Valid() && rhs.Valid()
      ensures data.buffer == old(rhs.data.buffer) && rhs.data.buffer == old(data.buffer)
      ensures Elements() == old(rhs.Elements()) && rhs.Elements() == old(Elements())
    {
      Swap(rhs);
    }

    /** Copy assignment. Self-assignment does nothing. Otherwise the elements become equal
        to `rhs`'s: in place when they fit in the capacity, else by copy-and-swap, leaving
        capacity exactly `rhs`'s size. */
    method CopyAssign(rhs: Vector<T>)
      requires Valid() && rhs.Valid()
      requires this == rhs || OwnsStorageApartFrom(rhs)
      modifies this, data, data.buffer
      ensures Valid() && Elements() == old(rhs.Elements())
      ensures old(rhs.size) <= old(Capacity()) ==> data.buffer == old(data.buffer)
      ensures old(Capacity()) < old(rhs.size) ==> fresh(data.buffer) && Capacity() == old(rhs.size)
      ensures rhs.Valid() && rhs.Elements() == old(rhs.Elements())
    {
      if this != rhs {
        if rhs.size > data.buffer.Length {
          var rhsCopy := new Vector.Copy(rhs);
          Swap(rhsCopy);
        } else {
          var copied := if rhs.size < size then rhs.size else size;
          CopyN(rhs.data.buffer, 0, data.buffer, 0, copied);
          // Shrinking destroys the surplus, which changes no value; growing
          // copy-constructs the missing tail.
          if size <= rhs.size {
            CopyN(rhs.data.buffer, size, data.buffer, size, rhs.size - size);
          }
          size := rhs.size;
          assert Elements() == old(rhs.Elements());
        }
      }
    }

    /** Reserve: nothing changes when `newCapacity` fits; otherwise the elements move to a
        fresh block of exactly `newCapacity` slots, keeping size and order. */
    method Reserve(newCapacity: nat)
      requires Valid()
      modifies data
      ensures Valid() && Elements() == old(Elements())
      ensures newCapacity <= old(Capacity()) ==> data.buffer == old(data.buffer)
      ensures old(Capacity()) < newCapacity ==> fresh(data.buffer) && Capacity() == newCapacity
    {
      if newCapacity <= data.buffer.Length {
        return;
      }
      var newData := new RawMemory.WithCapacity(newCapacity);
      CopyN(data.buffer, 0, newData.buffer, 0, size);
      data.Swap(newData);
      assert Elements() == old(Elements());
    }

    /** Resize to `n` elements: the first min(n, size) elements are kept and new ones are
        `init` (standing for `T()`); a shrink keeps the storage, a growth reserves `n`. */
    method Resize(n: nat, init: T)
      requires Valid()
      modifies this, data, data.buffer
      ensures Valid() && Elements() == Resized(old(Elements()), n, init)
      ensures n <= old(Capacity()) ==> data.buffer == old(data.buffer)
      ensures old(Capacity()) < n ==> fresh(data.buffer) && Capacity() == n
    {
      if n < size {
        // Destroys the trailing elements [n, size), which changes no value.
      } else {
        Reserve(n);
        var buf := data.buffer;
        for k := size to n
          modifies buf
          invariant forall j :: 0 <= j < size ==> buf[j] == old(Elements())[j]
          invariant forall j :: size <= j < k ==> buf[j] == init
        {
          buf[k] := init;
        }
      }
      ghost var before := old(Elements());
      size := n;
      assert Elements() == Resized(before, n, init);
    }

    /** EmplaceBack: appends `v` and returns the new last element. When the vector was
        full, the elements move to a fresh block of 1 (from empty) or twice the size
        slots; otherwise the storage is kept. */
    method EmplaceBack(v: T) returns (last: T)
      requires Valid()
      modifies this, data, data.buffer
      ensures Valid() && Elements() == old(Elements()) + [v]
      ensures last == Elements()[size - 1] == v
      ensures Capacity() == CapacityAfterAppend(old(size), old(Capacity()))
      ensures old(size) < old(Capacity()) ==> data.buffer == old(data.buffer)
      ensures old(size) == old(Capacity()) ==> fresh(data.buffer)
    {
      if size == data.buffer.Length {
        var newData := new RawMemory.WithCapacity(GrownCapacity(size));
        newData.buffer[size] := v;
        CopyN(data.buffer, 0, newData.buffer, 0, size);
        data.Swap(newData);
      } else {
        data.buffer[size] := v;
      }
      size := size + 1;
      last := data.buffer[size - 1];
      assert Elements() == old(Elements()) + [v];
    }

    /** PushBack: EmplaceBack without the returned element. */
    method PushBack(v: T)
      requires Valid()
      modifies this, data, data.buffer
      ensures Valid() && Elements() == old(Elements()) + [v]
      ensures Capacity() == CapacityAfterAppend(old(size), old(Capacity()))
      ensures old(size) < old(Capacity()) ==> data.buffer == old(data.buffer)
      ensures old(size) == old(Capacity()) ==> fresh(data.buffer)
    {
      var _ := EmplaceBack(v);
    }

    /** PopBack: removes the last element; the storage is kept. */
    method PopBack()
      requires Valid() && size > 0
      modifies this
      ensures Valid() && Elements() == old(Elements())[..old(size) - 1]
    {
      size := size - 1;
    }

    /** Emplace at position `i` (0 <= i <= size): the new element lands at `i` and the
        position `i` is returned. At the end this is EmplaceBack; inside, a full vector
        reallocates and otherwise the tail shifts up in place. */
    method Emplace(i: nat, v: T) returns (pos: nat)
      requires Valid() && i <= size
      modifies this, data, data.buffer
      ensures Valid() && Elements() == Inserted(old(Elements()), i, v) && pos == i
      ensures Capacity() == CapacityAfterAppend(old(size), old(Capacity()))
      ensures old(size) < old(Capacity()) ==> data.buffer == old(data.buffer)
      ensures old(size) == old(Capacity()) ==> fresh(data.buffer)
    {
      if i == size {
        InsertAtEnd(Elements(), v);
        var _ := EmplaceBack(v);
        pos := size - 1;
        return;
      }
      if size == data.buffer.Length {
        pos := EmplaceWithReallocate(i, v);
      } else {
        pos := EmplaceWithoutReallocate(i, v);
      }
    }

    /** Insert: Emplace with the value given. */
    method Insert(i: nat, v: T) returns (pos: nat)
      requires Valid() && i <= size
      modifies this, data, data.buffer
      ensures Valid() && Elements() == Inserted(old(Elements()), i, v) && pos == i
      ensures Capacity() == CapacityAfterAppend(old(size), old(Capacity()))
      ensures old(size) < old(Capacity()) ==> data.buffer == old(data.buffer)
      ensures old(size) == old(Capacity()) ==> fresh(data.buffer)
    {
      pos := Emplace(i, v);
    }

    /** Insertion through a fresh block of 1 or twice the size slots: the new element is
        placed at `i`, then the prefix [0, i) and the suffix [i, size) are relocated
        around it. */
    method EmplaceWithReallocate(i: nat, v: T) returns (pos: nat)
      requires Valid() && i <= size
      modifies this, data
      ensures Valid() && Elements() == Inserted(old(Elements()), i, v) && pos == i
      ensures fresh(data.buffer) && Capacity() == GrownCapacity(old(size))
    {
      var newData := new RawMemory.WithCapacity(GrownCapacity(size));
      newData.buffer[i] := v;
      CopyN(data.buffer, 0, newData.buffer, 0, i);
      CopyN(data.buffer, i, newData.buffer, i + 1, size - i);
      data.Swap(newData);
      size := size + 1;
      pos := i;
      assert Elements() == Inserted(old(Elements()), i, v);
    }

    /** Insertion in place when there is a free slot: the last element moves into the slot
        at `size`, [i, size - 1) shifts up one from the back, and `v` lands at `i`. */
    method EmplaceWithoutReallocate(i: nat, v: T) returns (pos: nat)
      requires Valid() && i < size < data.buffer.Length
      modifies this, data.buffer
      ensures Valid() && Elements() == Inserted(old(Elements()), i, v) && pos == i
    {
      var tmp := v;
      var buf := data.buffer;
      buf[size] := buf[size - 1];
      var k := size - 1;
      while k > i
        modifies buf
        invariant i <= k <= size - 1
        invariant forall j :: k < j <= size ==> buf[j] == old(buf[j - 1])
        invariant forall j :: 0 <= j <= k ==> buf[j] == old(buf[j])
        decreases k
      {
        buf[k] := buf[k - 1];
        k := k - 1;
      }
      buf[i] := tmp;
      size := size + 1;
      pos := i;
      assert Elements() == Inserted(old(Elements()), i, v);
    }

    /** Erase at position `i` < size: [i + 1, size) shifts down one from the front, the
        last slot is destroyed and `i` is returned; the storage is kept. */
    method Erase(i: nat) returns (pos: nat)
      requires Valid() && i < size
      modifies this, data.buffer
      ensures Valid() && Elements() == Erased(old(Elements()), i) && pos == i
    {
      var buf := data.buffer;
      var k := i;
      while k + 1 < size
        modifies buf
        invariant i <= k < size
        invariant forall j :: i <= j < k ==> buf[j] == old(buf[j + 1])
        invariant forall j :: k <= j < buf.Length ==> buf[j] == old(buf[j])
        invariant forall j :: 0 <= j < i ==> buf[j] == old(buf[j])
      {
        buf[k] := buf[k + 1];
        k := k + 1;
      }
      size := size - 1;
      pos := i;
      assert Elements() == Erased(old(Elements()), i);
    }
  }

  /** Three pushes onto an empty vector give [1, 2, 3] with capacity 4 (0, 1, 2, 4);
      inserting 99 at position 1 gives [1, 99, 2, 3]; erasing position 1 restores [1, 2, 3]. */
  method PushInsertEraseScenario()
    returns (pushed: seq<int>, pushedCapacity: nat, inserted: seq<int>, erased: seq<int>)
    ensures pushed == [1, 2, 3] && pushedCapacity == 4
    ensures inserted == [1, 99, 2, 3] && erased == [1, 2, 3]
  {
    var v := new Vector<int>();
    v.PushBack(1);
    v.PushBack(2);
    v.PushBack(3);
    pushed, pushedCapacity := [v.At(0), v.At(1), v.At(2)], v.Capacity();
    var at := v.Insert(1, 99);
    inserted := [v.At(0), v.At(1), v.At(2), v.At(3)];
    at := v.Erase(at);
    erased := [v.At(0), v.At(1), v.At(2)];
  }
}
