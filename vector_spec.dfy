/** The abstract meaning of vector operations: what each one does to the sequence of
    live elements and to the capacity. The classes in VectorModel are proved against
    these definitions. */
module VectorSpec {

  /** The sequence `s` with `v` placed at position `i`; later elements move up one. */
  function Inserted<T>(s: seq<T>, i: nat, v: T): (r: seq<T>)
    requires i <= |s|
    ensures |r| == |s| + 1
    ensures r[i] == v
    ensures forall k :: 0 <= k < i ==> r[k] == s[k]
    ensures forall k :: i < k < |r| ==> r[k] == s[k - 1]
  {
    s[..i] + [v] + s[i..]
  }

  /** The sequence `s` without its element at position `i`; later elements move down one. */
  function Erased<T>(s: seq<T>, i: nat): (r: seq<T>)
    requires i < |s|
    ensures |r| == |s| - 1
    ensures forall k :: 0 <= k < i ==> r[k] == s[k]
    ensures forall k :: i <= k < |r| ==> r[k] == s[k + 1]
  {
    s[..i] + s[i + 1..]
  }

  /** The sequence `s` cut to `n` elements, or padded to `n` elements with `init`. */
  function Resized<T>(s: seq<T>, n: nat, init: T): (r: seq<T>)
    ensures |r| == n
    ensures forall k :: 0 <= k < n && k < |s| ==> r[k] == s[k]
    ensures forall k :: |s| <= k < n ==> r[k] == init
  {
    if n <= |s| then s[..n] else s + seq(n - |s|, _ => init)
  }

  /** Inserting at the end is appending. */
  lemma InsertAtEnd<T>(s: seq<T>, v: T)
    ensures Inserted(s, |s|, v) == s + [v]
  {
  }

  /** Erasing the element just inserted gives back the original sequence. */
  lemma EraseInserted<T>(s: seq<T>, i: nat, v: T)
    requires i <= |s|
    ensures Erased(Inserted(s, i, v), i) == s
  {
  }

  /** Putting an erased element back where it was gives back the original sequence. */
  lemma InsertErased<T>(s: seq<T>, i: nat)
    requires i < |s|
    ensures Inserted(Erased(s, i), i, s[i]) == s
  {
  }

  // ---------------------------------------------------------------------------
  // Capacity growth

  /** The capacity a full vector of `size` elements grows to: 1 from empty, else double. */
  function GrownCapacity(size: nat): (c: nat)
    ensures size < c
    ensures c <= 2 * size + 1
  {
    if size == 0 then 1 else size * 2
  }

  /** The capacity after one element is added to a vector of the given size and capacity:
      it changes exactly when the vector was full, and there is always room afterwards. */
  function CapacityAfterAppend(size: nat, capacity: nat): (c: nat)
    requires size <= capacity
    ensures size < c
    ensures c == capacity <==> size < capacity
  {
    if size == capacity then GrownCapacity(size) else capacity
  }

  /** The capacity of a default-constructed vector after `n` appends. */
  function CapacityAfterAppends(n: nat): (c: nat)
    ensures n <= c
  {
    if n == 0 then 0 else CapacityAfterAppend(n - 1, CapacityAfterAppends(n - 1))
  }

  /** Whether the append that takes a vector from `n` to `n + 1` elements reallocates. */
  predicate AppendReallocates(n: nat)
  {
    n == CapacityAfterAppends(n)
  }

  /** The number of reallocations during the first `n` appends to an empty vector. */
  function ReallocationsAfterAppends(n: nat): (r: nat)
  {
    if n == 0 then 0
    else ReallocationsAfterAppends(n - 1) + (if AppendReallocates(n - 1) then 1 else 0)
  }

  function Pow2(k: nat): (p: nat)
    ensures 1 <= p
  {
    if k == 0 then 1 else 2 * Pow2(k - 1)
  }

  /** The amortised doubling law: after `n >= 1` appends the capacity is the least power of
      two that is at least `n`, and it is 2 to the power (reallocations - 1); so the number
      of reallocations is one more than the ceiling of log2 n. */
  lemma {:induction false} AppendGrowthLaw(n: nat)
    requires 1 <= n
    ensures 1 <= ReallocationsAfterAppends(n)
    ensures CapacityAfterAppends(n) == Pow2(ReallocationsAfterAppends(n) - 1)
    ensures n <= CapacityAfterAppends(n) < 2 * n
  {
    if n == 1 {
      assert CapacityAfterAppends(0) == 0;
      assert AppendReallocates(0);
      assert ReallocationsAfterAppends(1) == 1;
    } else {
      AppendGrowthLaw(n - 1);
    }
  }

  // ---------------------------------------------------------------------------
  // Slot bookkeeping, used to state how Resize places its constructions and destructions

  /** What one storage slot holds: raw memory, or a constructed object. */
  datatype Slot<T> = Raw | Live(value: T)

  /** The bookkeeping a vector relies on: slots [0, size) are live and the rest are raw. */
  ghost predicate LiveExactlyBelow<T>(slots: seq<Slot<T>>, size: nat)
  {
    size <= |slots| && forall k :: 0 <= k < |slots| ==> (slots[k].Live? <==> k < size)
  }

  /** The values held by the live slots [0, size). */
  function LiveValues<T>(slots: seq<Slot<T>>, size: nat): (s: seq<T>)
    requires size <= |slots|
    requires forall k :: 0 <= k < size ==> slots[k].Live?
    ensures |s| == size
    ensures forall k :: 0 <= k < size ==> slots[k] == Live(s[k])
  {
    seq(size, k requires 0 <= k < size => slots[k].value)
  }

  /** Reserve on slots: a request that fits changes nothing; otherwise the block is
      replaced by one of exactly `n` slots into which only the slots [0, size) are
      relocated, every other slot being raw. */
  function ReservedSlots<T>(slots: seq<Slot<T>>, size: nat, n: nat): (r: seq<Slot<T>>)
    requires size <= |slots|
    ensures n <= |slots| ==> r == slots
    ensures |slots| < n ==> |r| == n
    ensures |slots| < n ==> forall k :: 0 <= k < size ==> r[k] == slots[k]
    ensures |slots| < n ==> forall k :: size <= k < n ==> r[k] == Raw
  {
    if n <= |slots| then slots
    else seq(n, k requires 0 <= k < n => if k < size then slots[k] else Raw)
  }

  /** Reserve keeps the bookkeeping and the live values. */
  lemma ReservedSlotsKeepsLiveness<T>(slots: seq<Slot<T>>, size: nat, n: nat)
    requires LiveExactlyBelow(slots, size)
    ensures LiveExactlyBelow(ReservedSlots(slots, size, n), size)
    ensures LiveValues(ReservedSlots(slots, size, n), size) == LiveValues(slots, size)
  {
  }

  /** Resize as vector.h writes it: shrinking destroys the slots [0, size - n) and growing
      value-constructs the slots [0, n - size), both counted from the start of the block. */
  function ResizeSlotsAsWritten<T>(slots: seq<Slot<T>>, size: nat, n: nat, init: T): (r: seq<Slot<T>>)
    requires size <= |slots|
    ensures n <= |r|
    ensures n < size ==> |r| == |slots|
    ensures n < size ==> forall k :: 0 <= k < |r| ==> r[k] == if k < size - n then Raw else slots[k]
    ensures size <= n ==> |r| == |ReservedSlots(slots, size, n)|
    ensures size <= n ==> forall k :: 0 <= k < |r| ==>
      r[k] == if k < n - size then Live(init) else ReservedSlots(slots, size, n)[k]
  {
    if n < size then
      seq(|slots|, k requires 0 <= k < |slots| => if k < size - n then Raw else slots[k])
    else
      var grown := ReservedSlots(slots, size, n);
      seq(|grown|, k requires 0 <= k < |grown| => if k < n - size then Live(init) else grown[k])
  }

  /** Resize with the destructions at [n, size) and the constructions at [size, n). */
  function ResizeSlots<T>(slots: seq<Slot<T>>, size: nat, n: nat, init: T): (r: seq<Slot<T>>)
    requires size <= |slots|
    ensures n <= |r|
    ensures n < size ==> |r| == |slots|
    ensures n < size ==> forall k :: 0 <= k < |r| ==> r[k] == if n <= k < size then Raw else slots[k]
    ensures size <= n ==> |r| == |ReservedSlots(slots, size, n)|
    ensures size <= n ==> forall k :: 0 <= k < |r| ==>
      r[k] == if size <= k < n then Live(init) else ReservedSlots(slots, size, n)[k]
  {
    if n < size then
      seq(|slots|, k requires 0 <= k < |slots| => if n <= k < size then Raw else slots[k])
    else
      var grown := ReservedSlots(slots, size, n);
      seq(|grown|, k requires 0 <= k < |grown| => if size <= k < n then Live(init) else grown[k])
  }

  /** The corrected Resize keeps the bookkeeping and gives the resized sequence of values. */
  lemma ResizeSlotsCorrect<T>(slots: seq<Slot<T>>, size: nat, n: nat, init: T)
    requires LiveExactlyBelow(slots, size)
    ensures LiveExactlyBelow(ResizeSlots(slots, size, n, init), n)
    ensures LiveValues(ResizeSlots(slots, size, n, init), n)
         == Resized(LiveValues(slots, size), n, init)
  {
    var r := ResizeSlots(slots, size, n, init);
    var before := LiveValues(slots, size);
    assert LiveExactlyBelow(r, n);
    var after := LiveValues(r, n);
    var want := Resized(before, n, init);
    assert forall k :: 0 <= k < n ==> after[k] == want[k] by {
      forall k | 0 <= k < n
        ensures after[k] == want[k]
      {
        assert r[k] == Live(after[k]);
        if k < size {
          assert slots[k] == Live(before[k]);
        }
      }
    }
  }

  /** Growing [7] to three elements as written overwrites the live slot 0, constructs
      slot 1 and leaves slot 2 raw although the size now covers it. */
  lemma ResizeAsWrittenGrowBreaksBookkeeping()
    ensures var r := ResizeSlotsAsWritten([Live(7), Raw, Raw], 1, 3, 0);
      r == [Live(0), Live(0), Raw] && !LiveExactlyBelow(r, 3)
  {
    var r := ResizeSlotsAsWritten([Live(7), Raw, Raw], 1, 3, 0);
    assert r[0] == Live(0) && r[1] == Live(0) && r[2] == Raw;
  }

  /** Shrinking [7, 8] to one element as written destroys slot 0, which the size still
      covers, and keeps slot 1 alive although it is past the size. */
  lemma ResizeAsWrittenShrinkBreaksBookkeeping()
    ensures var r := ResizeSlotsAsWritten([Live(7), Live(8)], 2, 1, 0);
      r == [Raw, Live(8)] && !LiveExactlyBelow(r, 1)
  {
    var r := ResizeSlotsAsWritten([Live(7), Live(8)], 2, 1, 0);
    assert r[0] == Raw && r[1] == Live(8);
  }
}
