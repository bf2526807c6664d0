# Advanced vector and optional, modelled in Dafny

This project models two independent containers from `advanced-vector/`. Both keep track of
which storage slots hold live values.

- **`Vector<T>` on `RawMemory<T>`** (`vector.h`). `RawMemory` owns a block of
  `capacity` slots and knows nothing about which of them are live. `Vector` keeps `size`
  live elements in slots `[0, size)` of its block. It grows by exact reservation
  (`Reserve`) or by doubling (`size == 0 ? 1 : size * 2`) when an append or insertion finds
  it full. It inserts by shifting the tail up in place or by reallocating around the new
  element, and it erases by shifting the tail down.
- **`Optional<T>`** (`optional.h`). A slot for zero or one value, with an occupancy flag.
  It has unchecked access (`*`, `->`) and checked access (`Value()`, which fails with
  `BadOptionalAccess` on an empty slot).

Files:

- `vector_spec.dfy`, module `VectorSpec`: what the operations mean on sequences. It holds
  `Inserted`, `Erased` and `Resized` with their round-trip lemmas, the capacity growth rule
  and the amortised-doubling law. It also holds a slot-occupancy model that shows where
  `Resize` places its constructions and destructions (see Findings).
- `vector.dfy`, module `VectorModel`:
  - the classes `RawMemory` (`var buffer: array<T>`; the capacity is
    `buffer.Length`) and `Vector` (`const data: RawMemory<T>`, `var size: nat`);
  - `Valid()` is `size <= capacity`, and the ghost `Elements()` is `data.buffer[..size]`;
  - every state-changing operation of one vector is an array-manipulating method. Each is
    proved to be a sequence equation on `Elements()` (append, truncate, `Inserted`,
    `Erased`) plus a capacity rule. `Size`, `Capacity` and `At` are functions, and `Swap`
    and `MoveAssign` exchange the contents of two vectors.
    Slots past `size` hold arbitrary values, which stand for uninitialised memory.
- `optional.dfy`, module `OptionalModel`: class `Optional` with `hasValue` and `value`, and
  a ghost `State()` that is `None` or `Some(value)`. `Value()` returns a `Result` whose
  error case is `BadOptionalAccess`.

Modelling decisions:

- Value-initialisation `T()` is passed in as the parameter `init`, to `Vector.Sized` and to
  `Vector.Resize`.
- Move and copy give the same values in a value model. So the relocation routine `SafeOp`
  and the standard algorithms `copy_n`, `uninitialized_copy_n` and `uninitialized_move_n`
  are all one copy loop, `CopyN`. The copy and move overloads of a constructor or
  assignment are one member each.
- Iterator positions are indices.
- `Optional::Reset` destroys through `ptr_value_` unconditionally (`optional.h:256`), so
  `Reset` requires an occupied slot.
- `Resize` destroys and constructs from slot 0 (`vector.h:378`, `vector.h:384`).
  `VectorSpec.ResizeSlotsAsWritten` follows that code. `VectorModel.Vector.Resize` uses the
  corrected placement named under Findings.

## Model

| member | source | states |
|---|---|---|
| `VectorSpec.Inserted` | advanced-vector/vector.h:562-576 | inserting `v` at `i`: one element longer, `v` at `i`, earlier elements unchanged, later ones moved up one |
| `VectorSpec.Erased` | advanced-vector/vector.h:501-513 | erasing at `i`: one element shorter, earlier elements unchanged, later ones moved down one |
| `VectorSpec.Resized` | advanced-vector/vector.h:373-388 | resizing to `n`: length `n`, the first `min(n, size)` elements kept, the new tail all `T()` |
| `VectorSpec.InsertAtEnd` | advanced-vector/vector.h:485-487 | inserting at position `size` is appending, as `Emplace` at `end()` delegating to `EmplaceBack` requires |
| `VectorSpec.EraseInserted` | advanced-vector/vector.h:501-513 | erasing at `i` the element just inserted at `i` restores the original sequence |
| `VectorSpec.InsertErased` | advanced-vector/vector.h:515-525 | re-inserting an erased element at its old position restores the original sequence |
| `VectorSpec.GrownCapacity` | advanced-vector/vector.h:461 | the grown capacity (`1` from empty, else `2 * size`) always has room for one more element and is at most `2 * size + 1` |
| `VectorSpec.CapacityAfterAppend` | advanced-vector/vector.h:459-472 | one append changes the capacity exactly when `size == capacity`, and leaves room for the new element |
| `VectorSpec.CapacityAfterAppends` | advanced-vector/vector.h:455-477 | after `n` appends to an empty vector the capacity is at least `n` |
| `VectorSpec.AppendGrowthLaw` | advanced-vector/vector.h:455-477 | after `n >= 1` appends the capacity is `2^(R-1)`, where `R` is the number of reallocations, and `n <= capacity < 2n`; so `R` is `ceil(log2 n) + 1` |
| `VectorSpec.ReservedSlots` | advanced-vector/vector.h:439-452 | on slot occupancy: a request that fits changes nothing; otherwise a block of exactly `n` slots into which only `[0, size)` is relocated, all other slots raw |
| `VectorSpec.ReservedSlotsKeepsLiveness` | advanced-vector/vector.h:439-452 | reserving keeps "live exactly below size" and the live values |
| `VectorSpec.ResizeSlotsAsWritten` | advanced-vector/vector.h:373-388 | `Resize` as written, on slot occupancy, slot by slot: a shrink makes `[0, size - n)` raw and keeps the rest; a growth reserves `n` and makes `[0, n - size)` live with `T()`; the block has at least `n` slots |
| `VectorSpec.ResizeSlots` | advanced-vector/vector.h:373-388 | corrected `Resize` on slot occupancy, slot by slot: a shrink makes `[n, size)` raw and keeps the rest; a growth reserves `n` and makes `[size, n)` live with `T()`; the block has at least `n` slots |
| `VectorSpec.ResizeSlotsCorrect` | advanced-vector/vector.h:373-388 | the corrected placement keeps "live exactly below size", and its live values are `Resized` of the old ones |
| `VectorSpec.ResizeAsWrittenGrowBreaksBookkeeping` | advanced-vector/vector.h:384 | growing `[7]` to 3 as written gives slots `[0, 0, raw]`: element 7 is lost and slot 2 is counted live while raw |
| `VectorSpec.ResizeAsWrittenShrinkBreaksBookkeeping` | advanced-vector/vector.h:378 | shrinking `[7, 8]` to 1 as written gives slots `[raw, 8]`: the live slot 0 is destroyed and slot 1 is left constructed past the size |
| `VectorModel.CopyN` | advanced-vector/vector.h:417-430 | relocation of `n` elements between distinct blocks: the target range equals the source range and the rest of the target is untouched |
| `VectorModel.RawMemory.constructor` | advanced-vector/vector.h:15 | a default storage has capacity 0 |
| `VectorModel.RawMemory.WithCapacity` | advanced-vector/vector.h:62-67 | a fresh block of exactly `capacity` slots |
| `VectorModel.RawMemory.Moved` | advanced-vector/vector.h:69-73 | move construction takes the other block and leaves the source with capacity 0 |
| `VectorModel.RawMemory.Init` | advanced-vector/vector.h:112-118 | move assignment takes the other block and leaves the source with capacity 0 |
| `VectorModel.RawMemory.Swap` | advanced-vector/vector.h:120-125 | the two storages exchange blocks and so capacities |
| `VectorModel.Vector.constructor` | advanced-vector/vector.h:150 | a default vector is empty with capacity 0 |
| `VectorModel.Vector.Sized` | advanced-vector/vector.h:238-244 | `Vector(n)` holds `n` copies of `T()` with capacity exactly `n` |
| `VectorModel.Vector.Copy` | advanced-vector/vector.h:246-252 | the copy has equal elements and capacity exactly `other.Size()` |
| `VectorModel.Vector.Moved` | advanced-vector/vector.h:254-259 | the new vector takes the source's elements and block; the source is left with size 0 and capacity 0 |
| `VectorModel.Vector.Size` | advanced-vector/vector.h:306-310 | the size is the length of the live sequence and never exceeds the capacity |
| `VectorModel.Vector.Capacity` | advanced-vector/vector.h:312-316 | the capacity is never below the size |
| `VectorModel.Vector.At` | advanced-vector/vector.h:353-363 | `v[i]` for `i < Size()` is the `i`-th live element |
| `VectorModel.Vector.SetAt` | advanced-vector/vector.h:359-363 | writing through `v[i]` replaces exactly the `i`-th element |
| `VectorModel.Vector.Swap` | advanced-vector/vector.h:366-371 | the two vectors exchange elements, sizes and blocks (so capacities) |
| `VectorModel.Vector.MoveAssign` | advanced-vector/vector.h:346-351 | move assignment exchanges the contents of the two vectors and does not empty `rhs` |
| `VectorModel.Vector.CopyAssign` | advanced-vector/vector.h:319-344 | self-assignment is a no-op; otherwise the elements become `rhs`'s; the block is kept when `rhs.Size() <= Capacity()`, else replaced by a fresh one of exactly `rhs.Size()` slots; `rhs` is unchanged |
| `VectorModel.Vector.Reserve` | advanced-vector/vector.h:439-452 | no change when `new_capacity <= Capacity()`; otherwise a fresh block of exactly `new_capacity` slots holding the same elements in the same order |
| `VectorModel.Vector.Resize` | advanced-vector/vector.h:373-388 | (corrected placement) the elements become `Resized(old, n, T())`, so the size is `n`; the block is kept when `n` fits, else the capacity becomes exactly `n` |
| `VectorModel.Vector.EmplaceBack` | advanced-vector/vector.h:455-477 | appends `v` and returns the new last element; the capacity follows `CapacityAfterAppend`; a fresh block only when it was full |
| `VectorModel.Vector.PushBack` | advanced-vector/vector.h:390-414 | appends `v`, with the same capacity rule as `EmplaceBack` |
| `VectorModel.Vector.PopBack` | advanced-vector/vector.h:432-437 | requires a non-empty vector and removes exactly the last element; the block is kept |
| `VectorModel.Vector.Emplace` | advanced-vector/vector.h:479-499 | for `i <= Size()` the elements become `Inserted(old, i, v)` and `i` is returned; the capacity follows `CapacityAfterAppend`, as for `EmplaceBack` |
| `VectorModel.Vector.Insert` | advanced-vector/vector.h:515-525 | the same as `Emplace` |
| `VectorModel.Vector.EmplaceWithReallocate` | advanced-vector/vector.h:527-560 | into a fresh block of `GrownCapacity(size)` slots: the new element at `i`, the prefix before it and the suffix after it; returns `i` |
| `VectorModel.Vector.EmplaceWithoutReallocate` | advanced-vector/vector.h:562-576 | with a free slot, does the backward shift in place, and the block is kept; the elements become `Inserted(old, i, v)`; returns `i` |
| `VectorModel.Vector.Erase` | advanced-vector/vector.h:501-513 | for `i < Size()` the elements become `Erased(old, i)` by a forward shift; returns `i`; the block is kept |
| `VectorModel.PushInsertEraseScenario` | advanced-vector/vector.h:390-513 | pushing 1, 2, 3 onto an empty vector gives `[1, 2, 3]` with capacity 4; inserting 99 at 1 gives `[1, 99, 2, 3]`; erasing at 1 gives `[1, 2, 3]` |
| `OptionalModel.Optional.constructor` | advanced-vector/optional.h:21 | a default `Optional` is empty |
| `OptionalModel.Optional.FromValue` | advanced-vector/optional.h:73-85 | construction from a value holds that value |
| `OptionalModel.Optional.Copy` | advanced-vector/optional.h:87-124 | copy or move construction is occupied exactly when the source is, with the same value |
| `OptionalModel.Optional.HasValue` | advanced-vector/optional.h:34-37 | `HasValue()` is true exactly when the state is occupied |
| `OptionalModel.Optional.Deref` | advanced-vector/optional.h:197-225 | `*`, `->` and `Value() &&` require an occupied slot and then give the stored value |
| `OptionalModel.Optional.Value` | advanced-vector/optional.h:227-251 | the checked accessor fails with `BadOptionalAccess` exactly on an empty slot, and otherwise gives the stored value (the same one `*` gives) |
| `OptionalModel.Optional.AssignValue` | advanced-vector/optional.h:126-154 | after assigning a `T`, whatever the prior state, the slot holds that value |
| `OptionalModel.Optional.Assign` | advanced-vector/optional.h:156-195 | after assigning an `Optional`, the slot holds what `rhs` held: both-empty is a no-op, and `rhs` keeps its flag |
| `OptionalModel.Optional.Reset` | advanced-vector/optional.h:253-258 | requires an occupied slot; afterwards the slot is empty |
| `OptionalModel.Optional.Emplace` | advanced-vector/optional.h:260-266 | the slot always ends up holding the newly constructed value |
| `OptionalModel.Optional.SetValue` | advanced-vector/optional.h:197-201 | a write through `*s` (or `->`, `Value()&`) needs an occupied slot and leaves it holding the written value |
| `OptionalModel.EmplaceResetScenario` | advanced-vector/optional.h:197-266 | the checked accessor fails on an empty slot; after `Emplace(42)`, `*s` is 42; after `*s = 43`, `*s` is 43; after `Reset()` the slot is empty |

## Findings

| source | as written | input that shows it | evidently intended | confidence | as-written member | corrected member |
|---|---|---|---|---|---|---|
| advanced-vector/vector.h:384 | when growing, `Resize` value-constructs `new_size - size_` objects from slot 0 | a vector `[7]` resized to 3 with `T() == 0`: slot 0 is overwritten with 0, slot 1 is constructed, and slot 2 stays unconstructed although it is now counted | construct slots `[size_, new_size)`, giving `[7, 0, 0]` | high (not executed) | `VectorSpec.ResizeAsWrittenGrowBreaksBookkeeping` | `VectorModel.Vector.Resize` |
| advanced-vector/vector.h:378 | when shrinking, `Resize` destroys `size_ - new_size` objects from slot 0 | a vector `[7, 8]` resized to 1: slot 0 is destroyed but still counted live, and slot 1 is never destroyed | destroy slots `[new_size, size_)`, leaving `[7]` | high (not executed) | `VectorSpec.ResizeAsWrittenShrinkBreaksBookkeeping` | `VectorSpec.ResizeSlotsCorrect` |

The corrected placement is the one `VectorModel.Vector.Resize` uses. In the array model a
destruction does not change a value. So the shrink defect shows up only in the slot model
of `VectorSpec`.

## Left out

- Exception safety and rollback are left out, because Dafny has no exceptions. This covers:
  - the try/catch cleanup in `EmplaceWithReallocate` (`vector.h:537-555`);
  - allocation failure;
  - partial-construction cleanup in the copy constructor and `Vector(n)`.
- The move-versus-copy choice in `SafeOp` (`vector.h:420-427`) is left out. In a value
  model both give the same elements, so relocation is one copy loop.
- Raw allocation and object lifetime are left out, because a destruction changes no
  value. Arrays and plain fields stand for the memory. This covers:
  - `operator new` and `operator delete` (`vector.h:46-55`);
  - placement new;
  - the destructors `~RawMemory`, `~Vector` and `~Optional`;
  - `DestroyN`, `Destroy` and `destroy_n`;
  - `alignas` storage and `ptr_value_` (`optional.h:58-61`).
- `Optional::Emplace` does not destroy a previous value (`optional.h:264`). The leak is not
  visible in a value model.
- Iterators (`begin`, `end`, `cbegin`, `cend`; `vector.h:268-303`) and `RawMemory`'s
  `operator+`, `operator[]` and `GetAddress` are index arithmetic on `buffer`.
  `RawMemory::Capacity` is `buffer.Length`.
- Const and non-const duplicate overloads and the `const_cast` forwarding are left out;
  they add nothing to the model.
- Variadic emplacement takes a single `T` argument.
- The copy and move overloads of `Optional`'s constructors and assignments are one member
  each. Assignment from a `T` (`optional.h:127-154`) is `AssignValue`. Assignment from an
  `Optional` (`optional.h:156-195`) is `Assign`. The copy version's extra
  `is_initialized_ = value.is_initialized_` after `Reset` (line 172) sets the flag to
  false, which it already is.
- The text returned by `BadOptionalAccess::what()` is left out.
- There is no threading in the source, and the unused `<iostream>` include is ignored.
- `VectorModel.Vector.EmplaceBack`: returns the new last element's value, not a reference
  through which it could be changed. Writes through `operator[]` are modelled by `SetAt`.
- `VectorModel.Vector.CopyAssign`: requires that two distinct vectors own distinct storage.
  C++ guarantees this because each vector owns its block.
- `size_t` is `nat`: the wrap of `n * sizeof(T)` (`vector.h:48`) and of `size_ * 2`
  (`vector.h:395`, `vector.h:461`, `vector.h:531`) is left out. The model gives an exact
  block of `n` slots for every `n`, where the code would allocate a smaller block and still
  record `capacity_ = n` (`vector.h:64-65`).
- `OptionalModel.Optional.Deref`: returns the stored value, not the `T&` or `T*` of
  `operator*()&` and `operator->()`. A write through that reference is `SetValue`.
- `OptionalModel.Optional.Value`: returns the stored value, not the `T&` of `Value()&`. A
  write through that reference is `SetValue`.
- `VectorModel.RawMemory.Init`: requires that the source is not the same object. The code
  never move-assigns a `RawMemory` to itself, and doing so would leave a dangling buffer.
