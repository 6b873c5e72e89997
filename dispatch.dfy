/**
  The operator algebra of `constexpr_wrapper<X>` / `constexpr_t<X>`: unary members that always
  re-tag, binary hidden friends selected by the tie-break rule (falling back to the builtin
  operator on `operator value_type` when no friend is viable), the assignment member, and the
  two complementary overload sets of `operator()` and `operator[]`.
*/
module Dispatch {
  import opened Wrappers
  import opened Recognition

  /** What an operator expression yields: a new tag of a constant, a plain value, or no valid expression. */
  datatype Outcome<V> = Tagged(v: V) | Plain(v: V) | IllFormed

  /** The operators declared as binary hidden friends (`operator=` is a member, see `AssignOp`). */
  datatype BinaryOperator =
    | Add | Sub | Mul | Div | Mod | BitAnd | BitOr | BitXor | LogAnd | LogOr | Comma
    | Shl | Shr | Eq | Ne | Lt | Le | Gt | Ge | Spaceship | ArrowStar
    | AddAssign | SubAssign | MulAssign | DivAssign | ModAssign
    | AndAssign | OrAssign | XorAssign | ShlAssign | ShrAssign

  /** The unary members that re-tag (address-of and `->` deal in addresses and are not modelled). */
  datatype UnaryOperator = Plus | Minus | Complement | Not | Deref | PreInc | PostInc | PreDec | PostDec

  /**
    The meaning of operator expressions on constants: `None` when the expression is not a
    valid constant expression (so a return type naming its result fails to substitute).
  */
  type BinaryEval<!V> = (BinaryOperator, V, V) -> Option<V>
  type UnaryEval<!V> = (UnaryOperator, V) -> Option<V>
  /** The constant `X = A::value` for the assignment member. */
  type AssignEval<!V> = (V, V) -> Option<V>
  /**
    What calling or indexing a value with a list of arguments gives: a constant expression,
    a valid expression that is not a constant one (a callee that is not `constexpr`), or no
    valid expression at all.
  */
  datatype Application<V> = Constant(v: V) | RunTime(v: V) | Invalid
  type ApplyEval<!V> = (V, seq<V>) -> Application<V>

  // ---------------------------------------------------------------------------------------
  // Binary operators: candidates, the tie-break rule and the selected result

  /** The hidden friends argument-dependent lookup finds: those of every wrapper base of A or B. */
  function Candidates<V>(a: TypeDesc<V>, b: TypeDesc<V>): set<V>
  {
    a.wrapperBases + b.wrapperBases
  }

  /**
    The constraints of the friend declared in the wrapper class for `self`:
    `__lhs_constexpr_*<_Ap, This>` on A and `constexpr_value` on B.
  */
  predicate FriendViable<V>(h: Header, self: V, a: TypeDesc<V>, b: TypeDesc<V>)
  {
    LhsConstexpr(h, a, self) && Recognized(h, b)
  }

  /** The candidate friends whose constraints are satisfied. */
  function ViableFriends<V(==)>(h: Header, a: TypeDesc<V>, b: TypeDesc<V>): (friends: set<V>)
    ensures friends <= Candidates(a, b)
    ensures !Recognized(h, a) || !Recognized(h, b) ==> friends == {}
  {
    set w | w in Candidates(a, b) && FriendViable(h, w, a, b)
  }

  /** A set whose elements are all equal has at most one element. */
  lemma AtMostOne<V>(s: set<V>)
    requires forall x, y :: x in s && y in s ==> x == y
    ensures |s| <= 1
    ensures s != {} ==> |s| == 1
  {
    if s != {} {
      var x :| x in s;
      assert s == {x};
    }
  }

  /**
    The tie-break rule. When every operand derives from at most one wrapper, whose value it
    inherits: at most one friend is viable; exactly one is viable iff both operands are
    recognized and at least one of them derives from a wrapper; it is A's own wrapper's friend
    when A derives from one, else B's; and none is viable if either operand is unrecognized.
  */
  lemma TieBreak<V>(h: Header, a: TypeDesc<V>, b: TypeDesc<V>)
    requires OneWrapperBase(a) && OneWrapperBase(b)
    ensures forall w1, w2 :: w1 in ViableFriends(h, a, b) && w2 in ViableFriends(h, a, b) ==> w1 == w2
    ensures |ViableFriends(h, a, b)| <= 1
    ensures |ViableFriends(h, a, b)| == 1 <==> Recognized(h, a) && Recognized(h, b) && Candidates(a, b) != {}
    ensures ViableFriends(h, a, b)
            == if Recognized(h, a) && Recognized(h, b)
               then (if a.wrapperBases != {} then a.wrapperBases else b.wrapperBases)
               else {}
  {
    var s := ViableFriends(h, a, b);
    AnyWrapperIffHasBase(a);
    if Recognized(h, a) && Recognized(h, b) {
      if a.wrapperBases != {} {
        assert s == a.wrapperBases;
      } else {
        assert s == b.wrapperBases;
      }
    } else {
      assert s == {};
    }
    AtMostOne(s);
  }

  /**
    The return type `wrapper<A::value op B::value>` of a friend substitutes: the operator
    gives a valid constant and that constant can be a tag parameter.
  */
  predicate FriendResult<V>(op: BinaryOperator, a: TypeDesc<V>, b: TypeDesc<V>, eval: BinaryEval<V>, liftable: V -> bool)
  {
    eval(op, a.value, b.value).Some? && liftable(eval(op, a.value, b.value).value)
  }

  /**
    `A op B` (and `A op= B`). `eval` gives the constant `A::value op B::value`, `liftable` says
    whether a constant can be a tag parameter, and `builtin` gives the builtin operator on the
    operands' plain values (through `operator value_type`). The candidate friends whose
    constraints hold are viable when their common return type substitutes, so either all of
    them or none of them take part: one gives a new tag of the constant, two or more make the
    call ambiguous, and none leaves the builtin operator.
  */
  function BinaryOp<V(==)>(h: Header, op: BinaryOperator, a: TypeDesc<V>, b: TypeDesc<V>,
                           eval: BinaryEval<V>, liftable: V -> bool, builtin: BinaryEval<V>): (r: Outcome<V>)
    ensures r.Tagged? <==> |ViableFriends(h, a, b)| == 1 && FriendResult(op, a, b, eval, liftable)
    ensures r.Tagged? ==> Recognized(h, a) && Recognized(h, b) && Candidates(a, b) != {}
    ensures r.Tagged? ==> eval(op, a.value, b.value) == Some(r.v) && liftable(r.v)
    ensures |ViableFriends(h, a, b)| >= 2 && FriendResult(op, a, b, eval, liftable) ==> r.IllFormed?
    ensures r.Plain? <==> (ViableFriends(h, a, b) == {} || !FriendResult(op, a, b, eval, liftable))
                          && builtin(op, a.converted, b.converted).Some?
    ensures r.Plain? ==> builtin(op, a.converted, b.converted) == Some(r.v)
  {
    var friends := ViableFriends(h, a, b);
    if friends != {} && FriendResult(op, a, b, eval, liftable) then
      if |friends| == 1 then
        Tagged(eval(op, a.value, b.value).value)
      else IllFormed
    else
      match builtin(op, a.converted, b.converted)
      case Some(v) => Plain(v)
      case None => IllFormed
  }

  /**
    Without the hypothesis the rule can be ambiguous: an operand deriving from the wrappers of
    both 1 and 2 (with value 1) makes both friends viable against the tag of 2, and an
    operator whose constant can be a tag is then ill-formed rather than a tag.
  */
  lemma AmbiguousWithTwoWrapperBases(h: Header, op: BinaryOperator, eval: BinaryEval<int>, liftable: int -> bool, builtin: BinaryEval<int>)
    requires eval(op, 1, 2).Some? && liftable(eval(op, 1, 2).value)
    ensures var a := TypeDesc(true, 1, false, true, {}, {1, 2}, 1);
            var b := TagType(2, {});
            && !OneWrapperBase(a)
            && ViableFriends(h, a, b) == {1, 2}
            && BinaryOp(h, op, a, b, eval, liftable, builtin) == IllFormed
  {
    var a := TypeDesc(true, 1, false, true, {}, {1, 2}, 1);
    var b := TagType(2, {});
    assert 1 in ViableFriends(h, a, b) && 2 in ViableFriends(h, a, b);
    assert ViableFriends(h, a, b) == {1, 2};
    assert |{1, 2}| == 2;
  }

  /**
    Under the tie-break hypothesis, a binary expression is tagged exactly when both operands are
    recognized, one of them derives from a wrapper and the constant can be a tag.
  */
  lemma BinaryTaggedIff<V>(h: Header, op: BinaryOperator, a: TypeDesc<V>, b: TypeDesc<V>,
                           eval: BinaryEval<V>, liftable: V -> bool, builtin: BinaryEval<V>)
    requires OneWrapperBase(a) && OneWrapperBase(b)
    ensures BinaryOp(h, op, a, b, eval, liftable, builtin).Tagged?
            <==> Recognized(h, a) && Recognized(h, b) && Candidates(a, b) != {} && FriendResult(op, a, b, eval, liftable)
  {
    TieBreak(h, a, b);
  }

  /**
    A friend whose return type does not substitute drops out, so two tags whose constant is
    invalid or cannot be a tag (like a `std::strong_ordering` from `<=>`) give the builtin
    operator on their values.
  */
  lemma TagOpTagUnwraps<V>(h: Header, op: BinaryOperator, x: V, y: V, cx: set<TypeName>, cy: set<TypeName>,
                           eval: BinaryEval<V>, liftable: V -> bool, builtin: BinaryEval<V>)
    requires eval(op, x, y).None? || !liftable(eval(op, x, y).value)
    ensures BinaryOp(h, op, TagType(x, cx), TagType(y, cy), eval, liftable, builtin)
            == match builtin(op, x, y) case Some(v) => Plain(v) case None => IllFormed
  {
  }

  /**
    Tag op tag, in one hierarchy, across hierarchies or with itself: a new tag of
    `X op Y` when that can be a tag, whatever types the two tags convert to.
  */
  lemma TagOpTag<V>(h: Header, op: BinaryOperator, x: V, y: V, cx: set<TypeName>, cy: set<TypeName>,
                    eval: BinaryEval<V>, liftable: V -> bool, builtin: BinaryEval<V>)
    requires eval(op, x, y).Some? && liftable(eval(op, x, y).value)
    ensures BinaryOp(h, op, TagType(x, cx), TagType(y, cy), eval, liftable, builtin) == Tagged(eval(op, x, y).value)
  {
    TieBreak(h, TagType(x, cx), TagType(y, cy));
  }

  /**
    A recognized operand that derives from no wrapper (like `std::extent<int[3]>`), on either
    side of a tag: a new tag of the operator applied to both values.
  */
  lemma RecognizedWithTag<V>(h: Header, op: BinaryOperator, x: V, cx: set<TypeName>, b: TypeDesc<V>,
                             eval: BinaryEval<V>, liftable: V -> bool, builtin: BinaryEval<V>)
    requires Recognized(h, b) && b.wrapperBases == {}
    ensures FriendResult(op, TagType(x, cx), b, eval, liftable)
            ==> BinaryOp(h, op, TagType(x, cx), b, eval, liftable, builtin) == Tagged(eval(op, x, b.value).value)
    ensures FriendResult(op, b, TagType(x, cx), eval, liftable)
            ==> BinaryOp(h, op, b, TagType(x, cx), eval, liftable, builtin) == Tagged(eval(op, b.value, x).value)
  {
    AnyWrapperIffHasBase(b);
    TieBreak(h, TagType(x, cx), b);
    TieBreak(h, b, TagType(x, cx));
  }

  /**
    With an unrecognized operand on either side no friend is viable: the result comes from the
    builtin operator on the plain values and is never a tag.
  */
  lemma UnrecognizedOperandUnwraps<V>(h: Header, op: BinaryOperator, a: TypeDesc<V>, b: TypeDesc<V>,
                                      eval: BinaryEval<V>, liftable: V -> bool, builtin: BinaryEval<V>)
    requires !Recognized(h, a) || !Recognized(h, b)
    ensures ViableFriends(h, a, b) == {}
    ensures BinaryOp(h, op, a, b, eval, liftable, builtin)
            == match builtin(op, a.converted, b.converted) case Some(v) => Plain(v) case None => IllFormed
  {
    assert forall w :: !FriendViable(h, w, a, b);
  }

  /**
    Two recognized operands neither of which derives from a wrapper (two `std::extent`s):
    no candidate exists, and the plain values are combined.
  */
  lemma NoWrapperNoTag<V>(h: Header, op: BinaryOperator, a: TypeDesc<V>, b: TypeDesc<V>,
                          eval: BinaryEval<V>, liftable: V -> bool, builtin: BinaryEval<V>)
    requires a.wrapperBases == {} && b.wrapperBases == {}
    ensures !BinaryOp(h, op, a, b, eval, liftable, builtin).Tagged?
  {
  }

  // ---------------------------------------------------------------------------------------
  // Unary members and the assignment member

  /**
    A unary member of the tag for X (prefix or postfix): a new tag of the operator applied to
    X when that constant can be a tag, otherwise ill-formed; it is never a plain value, and
    the operand is not changed (the expression has no effect on it).
  */
  function UnaryOp<V>(op: UnaryOperator, x: V, eval: UnaryEval<V>, liftable: V -> bool): (r: Outcome<V>)
    ensures !r.Plain?
    ensures r.Tagged? <==> eval(op, x).Some? && liftable(eval(op, x).value)
    ensures r.Tagged? ==> eval(op, x) == Some(r.v)
  {
    match eval(op, x)
    case Some(v) => if liftable(v) then Tagged(v) else IllFormed
    case None => IllFormed
  }

  /**
    `tag = A`: the member template requires `constexpr_value<A>` and yields a new tag of
    `X = A::value` when that constant can be a tag; it is never a plain value.
  */
  function AssignOp<V>(h: Header, x: V, a: TypeDesc<V>, assign: AssignEval<V>, liftable: V -> bool): (r: Outcome<V>)
    ensures !r.Plain?
    ensures r.Tagged? <==> Recognized(h, a) && assign(x, a.value).Some? && liftable(assign(x, a.value).value)
    ensures r.Tagged? ==> assign(x, a.value) == Some(r.v)
  {
    if Recognized(h, a) then
      match assign(x, a.value)
      case Some(v) => if liftable(v) then Tagged(v) else IllFormed
      case None => IllFormed
    else IllFormed
  }

  // ---------------------------------------------------------------------------------------
  // operator() and operator[]

  /** The declarations of `operator()` / `operator[]` that can be selected. */
  datatype ApplyOverload = TaggedApply | PlainApply | NullaryValue

  predicate AllRecognized<V>(h: Header, args: seq<TypeDesc<V>>)
  {
    forall i :: 0 <= i < |args| ==> Recognized(h, args[i])
  }

  /** `_Args::value...` */
  function Values<V>(args: seq<TypeDesc<V>>): (vs: seq<V>)
    ensures |vs| == |args| && forall i :: 0 <= i < |args| ==> vs[i] == args[i].value
  {
    seq(|args|, i requires 0 <= i < |args| => args[i].value)
  }

  /** The arguments as plain values. */
  function Converted<V>(args: seq<TypeDesc<V>>): (vs: seq<V>)
    ensures |vs| == |args| && forall i :: 0 <= i < |args| ==> vs[i] == args[i].converted
  {
    seq(|args|, i requires 0 <= i < |args| => args[i].converted)
  }

  /** Applying X to the argument values is a constant expression whose value is a valid tag parameter. */
  predicate LiftsTo<V>(x: V, vs: seq<V>, apply: ApplyEval<V>, liftable: V -> bool)
  {
    apply(x, vs).Constant? && liftable(apply(x, vs).v)
  }

  /**
    The viable declarations of `operator()`:
    - the tagged one, when all arguments are recognized and `value(args.value...)` is liftable;
    - the plain one, when some argument is not recognized and `value(args...)` is a valid
      expression, constant or not;
    - in `constexpr_wrapper.hpp` only, the nullary one, when `value()` is not a valid expression.
  */
  function CallOverloads<V>(h: Header, x: V, args: seq<TypeDesc<V>>, apply: ApplyEval<V>, liftable: V -> bool): set<ApplyOverload>
  {
    (if AllRecognized(h, args) && LiftsTo(x, Values(args), apply, liftable) then {TaggedApply} else {})
    + (if !AllRecognized(h, args) && !apply(x, Converted(args)).Invalid? then {PlainApply} else {})
    + (if h.WrapperHeader? && args == [] && apply(x, []).Invalid? then {NullaryValue} else {})
  }

  /** The viable declarations of `operator[]`: the tagged and the plain one, as for calls. */
  function IndexOverloads<V>(h: Header, x: V, args: seq<TypeDesc<V>>, index: ApplyEval<V>, liftable: V -> bool): set<ApplyOverload>
  {
    (if AllRecognized(h, args) && LiftsTo(x, Values(args), index, liftable) then {TaggedApply} else {})
    + (if !AllRecognized(h, args) && !index(x, Converted(args)).Invalid? then {PlainApply} else {})
  }

  /** The guards of the call and index declarations are mutually exclusive. */
  lemma ApplyOverloadsExclusive<V>(h: Header, x: V, args: seq<TypeDesc<V>>, apply: ApplyEval<V>, liftable: V -> bool)
    ensures |CallOverloads(h, x, args, apply, liftable)| <= 1
    ensures |IndexOverloads(h, x, args, apply, liftable)| <= 1
    ensures TaggedApply in CallOverloads(h, x, args, apply, liftable) ==> AllRecognized(h, args)
    ensures PlainApply in CallOverloads(h, x, args, apply, liftable) ==> !AllRecognized(h, args) && args != []
    ensures NullaryValue in CallOverloads(h, x, args, apply, liftable) ==> args == [] && !LiftsTo(x, [], apply, liftable)
  {
    var s := CallOverloads(h, x, args, apply, liftable);
    if !AllRecognized(h, args) {
      assert args != [];
    }
    assert forall o1, o2 :: o1 in s && o2 in s ==> o1 == o2;
    AtMostOne(s);
    var t := IndexOverloads(h, x, args, apply, liftable);
    assert forall o1, o2 :: o1 in t && o2 in t ==> o1 == o2;
    AtMostOne(t);
  }

  /** The outcome of the selected declaration of `operator()` or `operator[]`. */
  function SelectApply<V>(overloads: set<ApplyOverload>, x: V, args: seq<TypeDesc<V>>, apply: ApplyEval<V>): Outcome<V>
  {
    if TaggedApply in overloads && apply(x, Values(args)).Constant? then Tagged(apply(x, Values(args)).v)
    else if PlainApply in overloads && !apply(x, Converted(args)).Invalid? then Plain(apply(x, Converted(args)).v)
    else if NullaryValue in overloads then Plain(x)
    else IllFormed
  }

  /**
    `tag(args...)`: a new tag of `value(args.value...)` when every argument is recognized and
    that result is liftable; the plain `value(args...)` when some argument is not recognized;
    in `constexpr_wrapper.hpp`, the represented value itself for a zero-argument call on a
    value that cannot be called.
  */
  function CallOp<V>(h: Header, x: V, args: seq<TypeDesc<V>>, apply: ApplyEval<V>, liftable: V -> bool): (r: Outcome<V>)
    ensures r.Tagged? <==> AllRecognized(h, args) && LiftsTo(x, Values(args), apply, liftable)
    ensures r.Tagged? ==> apply(x, Values(args)) == Constant(r.v) && liftable(r.v)
    ensures r.Plain? && args != [] ==> !AllRecognized(h, args) && !apply(x, Converted(args)).Invalid? && apply(x, Converted(args)).v == r.v
    ensures r.Plain? && args == [] ==> h.WrapperHeader? && apply(x, []).Invalid? && r.v == x
    ensures h.WrapperHeader? && args == [] && apply(x, []).Invalid? ==> r == Plain(x)
    ensures !AllRecognized(h, args) && !apply(x, Converted(args)).Invalid? ==> r == Plain(apply(x, Converted(args)).v)
    ensures r.IllFormed? ==> (if AllRecognized(h, args) then !LiftsTo(x, Values(args), apply, liftable) else apply(x, Converted(args)).Invalid?)
  {
    SelectApply(CallOverloads(h, x, args, apply, liftable), x, args, apply)
  }

  /**
    `tag[args...]`: a new tag of `value[args.value...]` when every index is recognized and that
    result is liftable; the plain `value[args...]` when some index is not recognized.
  */
  function IndexOp<V>(h: Header, x: V, args: seq<TypeDesc<V>>, index: ApplyEval<V>, liftable: V -> bool): (r: Outcome<V>)
    ensures r.Tagged? <==> AllRecognized(h, args) && LiftsTo(x, Values(args), index, liftable)
    ensures r.Tagged? ==> index(x, Values(args)) == Constant(r.v) && liftable(r.v)
    ensures r.Plain? ==> !AllRecognized(h, args) && !index(x, Converted(args)).Invalid? && index(x, Converted(args)).v == r.v
    ensures !AllRecognized(h, args) && !index(x, Converted(args)).Invalid? ==> r == Plain(index(x, Converted(args)).v)
    ensures r.IllFormed? <==> (if AllRecognized(h, args) then !LiftsTo(x, Values(args), index, liftable) else index(x, Converted(args)).Invalid?)
  {
    SelectApply(IndexOverloads(h, x, args, index, liftable), x, args, index)
  }

  /**
    A callee that can be called or indexed but not in a constant expression: with all
    arguments recognized neither the tagged overload nor the plain one is viable (nor, with
    arguments or a valid `value()`, the nullary one), so the expression is ill-formed; with
    some argument not recognized it is the plain run-time result.
  */
  lemma RunTimeCallee<V>(h: Header, x: V, args: seq<TypeDesc<V>>, apply: ApplyEval<V>, liftable: V -> bool)
    requires apply(x, Values(args)).RunTime? && apply(x, Converted(args)).RunTime?
    ensures AllRecognized(h, args) ==> CallOp(h, x, args, apply, liftable) == IllFormed
    ensures AllRecognized(h, args) ==> IndexOp(h, x, args, apply, liftable) == IllFormed
    ensures !AllRecognized(h, args) ==> CallOp(h, x, args, apply, liftable) == Plain(apply(x, Converted(args)).v)
    ensures !AllRecognized(h, args) ==> IndexOp(h, x, args, apply, liftable) == Plain(apply(x, Converted(args)).v)
  {
  }
}
