/** A slot holding zero or one value, with an occupancy flag. The block
    `alignas(T) char data_[sizeof(T)]` is the field `value`, whose content is meaningless
    while the flag is off. */
module OptionalModel {

  /** The error the checked accessor raises on an empty slot. */
  datatype BadOptionalAccess = BadOptionalAccess

  datatype Result<T> = Success(value: T) | Failure(error: BadOptionalAccess)

  /** The abstract state of a slot. */
  datatype Option<T> = None | Some(value: T)

  class Optional<T(0)> {
    var hasValue: bool
    var value: T

    /** What the slot holds: nothing, or the stored value. */
    ghost function State(): Option<T>
      reads this
    {
      if hasValue then Some(value) else None
    }

    /** `Optional()`: empty. */
    constructor ()
      ensures State() == None
    {
      hasValue := false;
    }

    /** Construction from a value (copy or move): occupied by `v`. */
    constructor FromValue(v: T)
      ensures State() == Some(v)
    {
      value := v;
      hasValue := true;
    }

    /** Copy or move construction: occupied exactly when `other` is, with its value.
        `Optional(const Optional&)` and `Optional(Optional&&)` each have three branches,
        but `is_initialized_` starts false, so only the one that constructs from an
        occupied `other` can apply. */
    constructor Copy(other: Optional<T>)
      ensures State() == other.State()
    {
      hasValue := false;
      if other.hasValue {
        value := other.value;
        hasValue := true;
      }
    }

    /** `HasValue()`: whether the slot is occupied. */
    function HasValue(): (b: bool)
      reads this
      ensures b <==> State().Some?
    {
      hasValue
    }

    /** `operator*`, `operator->` and `Value() &&`: the stored value, unchecked, so the
        slot must be occupied. */
    function Deref(): (r: T)
      reads this
      requires hasValue
      ensures State() == Some(r)
    {
      value
    }

    /** A write through the reference `operator*()&`, `operator->()` or `Value()&` returns:
        the held object is replaced by `v`, so the slot must be occupied. */
    method SetValue(v: T)
      requires hasValue
      modifies this
      ensures State() == Some(v)
    {
      value := v;
    }

    /** `Value()`: the stored value, or BadOptionalAccess on an empty slot. */
    method Value() returns (r: Result<T>)
      ensures r.Success? <==> HasValue()
      ensures r.Success? ==> State() == Some(r.value) && r.value == Deref()
    {
      if hasValue {
        return Success(value);
      }
      return Failure(BadOptionalAccess);
    }

    /** Assignment of a value (copy or move): assigns into the held object or constructs
        one; either way the slot ends up holding `v`. */
    method AssignValue(v: T)
      modifies this
      ensures State() == Some(v)
    {
      if hasValue {
        value := v;
      } else {
        value := v;
        hasValue := true;
      }
    }

    /** Assignment of another slot (copy or move): both occupied assigns the value, only
        `rhs` occupied constructs it, only this occupied resets, both empty does nothing.
        Afterwards this holds what `rhs` held, and `rhs` itself keeps its flag. */
    method Assign(rhs: Optional<T>)
      modifies this
      ensures State() == old(rhs.State())
      ensures rhs.hasValue == old(rhs.hasValue)
    {
      if hasValue && rhs.hasValue {
        AssignValue(rhs.value);
        hasValue := true;
      } else if !hasValue && rhs.hasValue {
        value := rhs.value;
        hasValue := true;
      } else if hasValue && !rhs.hasValue {
        Reset();
      }
    }

    /** `Reset()`: destroys the held object, so the slot must be occupied; afterwards it
        is empty. */
    method Reset()
      requires hasValue
      modifies this
      ensures State() == None
    {
      hasValue := false;
    }

    /** `Emplace(v)`: constructs `v` in the slot, which is then occupied by it. */
    method Emplace(v: T)
      modifies this
      ensures State() == Some(v)
    {
      value := v;
      hasValue := true;
    }
  }

  /** An empty slot, then Emplace(42), *s, *s = 43, Reset(): the occupancy goes off, on,
      off, the unchecked read gives 42 and then the written 43, and the checked accessor
      fails exactly while empty. */
  method EmplaceResetScenario()
    returns (emptyAtFirst: bool, failedWhileEmpty: bool, held: int, written: int,
             emptyAfterReset: bool)
    ensures emptyAtFirst && failedWhileEmpty && held == 42 && written == 43 && emptyAfterReset
  {
    var s := new Optional<int>();
    emptyAtFirst := !s.HasValue();
    var r := s.Value();
    failedWhileEmpty := r == Failure(BadOptionalAccess);
    s.Emplace(42);
    held := s.Deref();
    s.SetValue(43);
    written := s.Deref();
    s.Reset();
    emptyAfterReset := !s.HasValue();
  }
}
