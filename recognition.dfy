/**
  The value-recognition predicate `constexpr_value<T, U>` and the two exposition-only concepts
  that the tie-break rule is built from (`__any_constexpr_wrapper` / `__any_constexpr_t` and
  `__lhs_constexpr_wrapper` / `__lhs_constexpr_t`), stated over abstract type descriptors.
*/
module Recognition {
  import opened Wrappers

  /** The name of a C++ type that a `constexpr_value<T, U>` constraint may ask T to convert to. */
  type TypeName = string

  /**
    What the model knows of a C++ type T used as an operand; V is the domain of constants.
    - hasValue:        `T::value` names something;
    - value:           the constant `T::value` (meaningful when hasValue);
    - failsAddressCheck: `not is_member_pointer_v<decltype(&T::value)>` does not hold, either
                       because `&T::value` is a pointer to member (a non-static `value`) or
                       because `&T::value` is ill-formed (an enumerator or other prvalue);
    - liftable:        `constexpr_wrapper<T::value>` (or `constexpr_t<T::value>`) is a valid type;
    - convertsTo:      the types T is implicitly convertible to;
    - wrapperBases:    the constants X such that T derives from the wrapper class for X;
    - converted:       the value an object of T yields where a plain value is expected.
  */
  datatype TypeDesc<V> = TypeDesc(
    hasValue: bool,
    value: V,
    failsAddressCheck: bool,
    liftable: bool,
    convertsTo: set<TypeName>,
    wrapperBases: set<V>,
    converted: V)

  /**
    The two headers differ in the recognition predicate: `constexpr_wrapper.hpp` checks
    `&T::value` only for GCC before version 13, `constexpr_t.hpp` always does.
  */
  datatype Header = WrapperHeader(gccBefore13: bool) | ConstexprTHeader

  /** Whether the header's predicate carries the `&T::value` check. */
  predicate HasAddressCheck(h: Header)
  {
    match h
    case WrapperHeader(gccBefore13) => gccBefore13
    case ConstexprTHeader => true
  }

  /**
    `constexpr_value<T, U>`: U is void (target None) or T converts to U, `T::value` exists,
    it passes the `&T::value` check where the header has one, and it can be lifted into a
    wrapper.
  */
  predicate ConstexprValue<V>(h: Header, t: TypeDesc<V>, target: Option<TypeName>)
  {
    (target.None? || target.value in t.convertsTo)
    && t.hasValue
    && (HasAddressCheck(h) ==> !t.failsAddressCheck)
    && t.liftable
  }

  /** `constexpr_value<T>` with the default U = void. */
  predicate Recognized<V>(h: Header, t: TypeDesc<V>)
  {
    ConstexprValue(h, t, None)
  }

  /**
    `__any_constexpr_wrapper<T>` / `__any_constexpr_t<T>`: T derives from the wrapper of its
    own `T::value`. A type without `T::value` does not satisfy it (substitution fails).
  */
  predicate AnyWrapper<V>(t: TypeDesc<V>)
  {
    t.hasValue && t.value in t.wrapperBases
  }

  /**
    `__lhs_constexpr_wrapper<T, This>` / `__lhs_constexpr_t<T, This>` for the wrapper class that
    holds `self`: T is recognized and either derives from that class or from no wrapper of its
    own value.
  */
  predicate LhsConstexpr<V>(h: Header, t: TypeDesc<V>, self: V)
  {
    Recognized(h, t) && (self in t.wrapperBases || !AnyWrapper(t))
  }

  /**
    The hypothesis the tie-break rule rests on: T derives from at most one wrapper class, and if
    it does, `T::value` is that wrapper's value (the inherited static member).
  */
  predicate OneWrapperBase<V>(t: TypeDesc<V>)
  {
    (forall x, y :: x in t.wrapperBases && y in t.wrapperBases ==> x == y)
    && (forall x :: x in t.wrapperBases ==> t.hasValue && t.value == x)
  }

  /**
    The descriptor of `constexpr_wrapper<X>` / `constexpr_t<X>` itself, and of any class that
    derives from it and adds nothing (like the test program's `Foo<X>`): `value == X`, the
    conversion to `value_type` yields X, and the only wrapper base is the one for X.
  */
  function TagType<V>(x: V, convertsTo: set<TypeName>): (t: TypeDesc<V>)
    ensures OneWrapperBase(t) && AnyWrapper(t)
    ensures forall h: Header :: Recognized(h, t)
    ensures forall h: Header, u :: ConstexprValue(h, t, Some(u)) <==> u in convertsTo
  {
    TypeDesc(true, x, false, true, convertsTo, {x}, x)
  }

  /**
    The recognized types with a target are among the unconstrained ones, and a type without
    `T::value` or whose value cannot be lifted is never recognized.
  */
  lemma RecognitionRequirements<V>(h: Header, t: TypeDesc<V>, u: TypeName)
    ensures ConstexprValue(h, t, Some(u)) <==> Recognized(h, t) && u in t.convertsTo
    ensures !t.hasValue || !t.liftable ==> !Recognized(h, t)
    ensures HasAddressCheck(h) && t.failsAddressCheck ==> !Recognized(h, t)
  {
  }

  /**
    `constexpr_t.hpp`'s predicate is the GCC-before-13 form of `constexpr_wrapper.hpp`'s. The
    newer-compiler form of the latter admits everything the older form admits, and a type the
    older form rejects but the newer admits is one that fails the `&T::value` check.
  */
  lemma HeadersAgree<V>(t: TypeDesc<V>, target: Option<TypeName>)
    ensures ConstexprValue(ConstexprTHeader, t, target) == ConstexprValue(WrapperHeader(true), t, target)
    ensures ConstexprValue(WrapperHeader(true), t, target) ==> ConstexprValue(WrapperHeader(false), t, target)
    ensures ConstexprValue(WrapperHeader(false), t, target) && !t.failsAddressCheck
            ==> ConstexprValue(WrapperHeader(true), t, target)
  {
  }

  /**
    A class whose `value` is an enumerator (`struct E { enum { value = 3 }; };`): `&E::value`
    is ill-formed, so the headers with the address check reject it and the newer-compiler
    form of `constexpr_wrapper.hpp` admits it.
  */
  lemma EnumeratorValue(x: int)
    ensures var e := TypeDesc(true, x, true, true, {}, {}, x);
            && !Recognized(ConstexprTHeader, e)
            && !Recognized(WrapperHeader(true), e)
            && Recognized(WrapperHeader(false), e)
  {
  }

  /** Under the hypothesis, "derives from some wrapper" is exactly "has a wrapper base". */
  lemma AnyWrapperIffHasBase<V>(t: TypeDesc<V>)
    requires OneWrapperBase(t)
    ensures AnyWrapper(t) <==> t.wrapperBases != {}
  {
    if t.wrapperBases != {} {
      var x :| x in t.wrapperBases;
      assert t.value == x;
    }
  }
}
