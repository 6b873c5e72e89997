/**
  The dispatch outcomes that the test program asserts with `static_assert`, restated over a
  small domain of constants: integers, booleans, characters, strlits, and the test program's
  classes `Test` (callable and indexable) and `Aaaargh` (whose operators return fixed numbers).
  Integer types and the usual arithmetic conversions are not distinguished: `4uz` is 4.
*/
module TestOutcomes {
  import opened Wrappers
  import opened Recognition
  import opened Dispatch
  import StrLit

  /** The constants of the test program. */
  datatype Val = Num(n: int) | Bool(b: bool) | Ch(c: char) | Str(s: StrLit.StrLit) | TestObj(v: int) | Aaaargh
               | Order(o: StrLit.Ordering)

  /** `a <=> b` on two totally ordered values. */
  function OrderOf(a: int, b: int): (r: StrLit.Ordering)
    ensures r == StrLit.Less <==> a < b
    ensures r == StrLit.Greater <==> b < a
  {
    if a < b then StrLit.Less else if a == b then StrLit.Equivalent else StrLit.Greater
  }

  /** The test program includes `constexpr_t.hpp`. */
  const H: Header := ConstexprTHeader

  /** Quotient and remainder truncating toward zero, as C++ `/` and `%` do. */
  function CQuot(a: int, b: int): int
    requires b != 0
  {
    var q := (if a < 0 then -a else a) / (if b < 0 then -b else b);
    if (a < 0) == (b < 0) then q else -q
  }

  function CRem(a: int, b: int): (r: int)
    requires b != 0
    ensures a == CQuot(a, b) * b + r
    ensures (if r < 0 then -r else r) < (if b < 0 then -b else b)
    ensures r != 0 ==> (r < 0 <==> a < 0)
  {
    var ma := if a < 0 then -a else a;
    var mb := if b < 0 then -b else b;
    var m := ma % mb;
    DivModAbs(a, b, ma, mb);
    if a < 0 then -m else m
  }

  /** The truncating quotient times the divisor, plus the signed magnitude remainder, is the dividend. */
  lemma DivModAbs(a: int, b: int, ma: nat, mb: nat)
    requires b != 0 && ma == (if a < 0 then -a else a) && mb == (if b < 0 then -b else b)
    ensures a == CQuot(a, b) * b + (if a < 0 then -(ma % mb) else ma % mb)
  {
    var q := ma / mb;
    var m := ma % mb;
    assert ma == q * mb + m;
    if b < 0 {
      assert q * b == -(q * mb);
    }
  }

  /** `&`, `|`, `^` on unsigned 32-bit operands. */
  predicate IsU32(a: int)
  {
    0 <= a < 0x1_0000_0000
  }

  /** The binary operators the test program uses on two integers. */
  function EvalNum(op: BinaryOperator, a: int, b: int): Option<Val>
  {
    match op
    case Add => Some(Num(a + b))
    case Sub => Some(Num(a - b))
    case Mul => Some(Num(a * b))
    case Div => if b != 0 then Some(Num(CQuot(a, b))) else None
    case Mod => if b != 0 then Some(Num(CRem(a, b))) else None
    case BitAnd => if IsU32(a) && IsU32(b) then Some(Num((a as bv32 & b as bv32) as int)) else None
    case BitOr => if IsU32(a) && IsU32(b) then Some(Num((a as bv32 | b as bv32) as int)) else None
    case BitXor => if IsU32(a) && IsU32(b) then Some(Num((a as bv32 ^ b as bv32) as int)) else None
    case Eq => Some(Bool(a == b))
    case Spaceship => Some(Order(OrderOf(a, b)))
    case _ => None
  }

  /** Aaaargh's members: `->*` adds 5, `+=` / `-=` add / subtract 1. */
  function EvalAaaargh(op: BinaryOperator, k: int): Option<Val>
  {
    match op
    case ArrowStar => Some(Num(k + 5))
    case AddAssign => Some(Num(k + 1))
    case SubAssign => Some(Num(k - 1))
    case _ => None
  }

  /** Aaaargh's `operator=` returns its operand. */
  function EvalAssign(x: Val, y: Val): Option<Val>
  {
    if x.Aaaargh? && y.Num? then Some(y) else None
  }

  /** The binary operators the test program uses, on its constants. */
  function Eval(op: BinaryOperator, x: Val, y: Val): Option<Val>
  {
    if x.Num? && y.Num? then EvalNum(op, x.n, y.n)
    else if x.Aaaargh? && y.Num? then EvalAaaargh(op, y.n)
    else if x.Str? && y.Str? && op == Spaceship && StrLit.Size(x.s) == StrLit.Size(y.s) then
      Some(Order(StrLit.Compare(x.s, y.s)))
    else None
  }

  /**
    The builtin operators on the plain values of the operands: only the arithmetic ones on two
    integers. Strlits, `Test` and `Aaaargh` are class types, and their own operators are
    members that a tag operand never reaches.
  */
  function Builtin(op: BinaryOperator, x: Val, y: Val): (r: Option<Val>)
    ensures !(x.Num? && y.Num?) ==> r.None?
    ensures x.Num? && y.Num? ==> r == Eval(op, x, y)
  {
    if x.Num? && y.Num? then EvalNum(op, x.n, y.n) else None
  }

  /** Aaaargh's increment and decrement members return 1, 2, 3 and 4. */
  function EvalUnary(op: UnaryOperator, x: Val): Option<Val>
  {
    if x.Aaaargh? then
      match op
      case PreInc => Some(Num(1))
      case PostInc => Some(Num(2))
      case PreDec => Some(Num(3))
      case PostDec => Some(Num(4))
      case _ => None
    else if x.Num? && op == Minus then Some(Num(-x.n))
    else None
  }

  function SumOfNums(vs: seq<Val>): Option<int>
  {
    if vs == [] then Some(0)
    else match (vs[0], SumOfNums(vs[1..]))
      case (Num(a), Some(rest)) => Some(a + rest)
      case _ => None
  }

  /** `Test::operator()(int a, int b)` is `constexpr` and returns `a + b + value`. */
  function EvalCall(x: Val, args: seq<Val>): Application<Val>
  {
    match x
    case TestObj(v) =>
      if |args| == 2 && args[0].Num? && args[1].Num? then Constant(Num(args[0].n + args[1].n + v)) else Invalid
    case _ => Invalid
  }

  /** `Test::operator[](auto... args)` folds `value + ... + args`; `strlit::operator[]` reads a character. */
  function EvalIndex(x: Val, args: seq<Val>): Application<Val>
  {
    match x
    case TestObj(v) =>
      (match SumOfNums(args) case Some(s) => Constant(Num(v + s)) case None => Invalid)
    case Str(s) =>
      if |args| == 1 && args[0].Num? && 0 <= args[0].n < StrLit.Size(s) then Constant(Ch(StrLit.At(s, args[0].n)))
      else Invalid
    case _ => Invalid
  }

  /**
    Every constant of the test program is a valid template argument except a
    `std::strong_ordering`, which is not a structural type.
  */
  function Liftable(x: Val): bool
  {
    !x.Order?
  }

  /** `std::cc<X>`, i.e. `constexpr_t<X>{}`. */
  function Cc(x: Val): TypeDesc<Val>
  {
    TagType(x, {})
  }

  /** `Foo<X>`, which derives from `constexpr_t<X>` and adds nothing. */
  function Foo(x: Val): TypeDesc<Val>
  {
    TagType(x, {})
  }

  /** `std::extent<int[n]>`: an `integral_constant`, recognized but no wrapper. */
  function Extent(n: nat): TypeDesc<Val>
  {
    TypeDesc(true, Num(n), false, true, {}, {}, Num(n))
  }

  /** A plain `int` operand: it has no `value` member. */
  function PlainInt(k: int): TypeDesc<Val>
  {
    TypeDesc(false, Num(0), false, false, {}, {}, Num(k))
  }

  /**
    `"..."_sc`: the tag of the strlit built from the literal (terminator included). The empty
    literal `""` has no strlit: its array member `value[0]` would have no elements.
  */
  function Sc(lit: seq<char>): TypeDesc<Val>
    requires |lit| >= 2
  {
    Cc(Str(StrLit.FromLiteral(lit)))
  }

  /** `static_assert(std::cc<1> == 1)` and `static_assert(std::constexpr_value<std::constexpr_t<1>>)`. */
  lemma TagComparesWithPlain()
    ensures BinaryOp(H, Eq, Cc(Num(1)), PlainInt(1), Eval, Liftable, Builtin) == Plain(Bool(true))
    ensures Recognized(H, Cc(Num(1)))
  {
    UnrecognizedOperandUnwraps(H, Eq, Cc(Num(1)), PlainInt(1), Eval, Liftable, Builtin);
  }

  /** Tag plus tag, with `std::cc` alone. */
  lemma TagSums()
    ensures BinaryOp(H, Add, Cc(Num(1)), Cc(Num(1)), Eval, Liftable, Builtin) == Tagged(Num(2))
    ensures BinaryOp(H, Add, Cc(Num(1)), Cc(Num(2)), Eval, Liftable, Builtin) == Tagged(Num(3))
  {
    TagOpTag(H, Add, Num(1), Num(1), {}, {}, Eval, Liftable, Builtin);
    TagOpTag(H, Add, Num(1), Num(2), {}, {}, Eval, Liftable, Builtin);
  }

  /** A tag and `std::extent`, in either order. */
  lemma TagExtentSums()
    ensures BinaryOp(H, Add, Cc(Num(1)), Extent(3), Eval, Liftable, Builtin) == Tagged(Num(4))
    ensures BinaryOp(H, Add, Extent(3), Cc(Num(2)), Eval, Liftable, Builtin) == Tagged(Num(5))
  {
    RecognizedWithTag(H, Add, Num(1), {}, Extent(3), Eval, Liftable, Builtin);
    RecognizedWithTag(H, Add, Num(2), {}, Extent(3), Eval, Liftable, Builtin);
  }

  /** A class deriving from a tag and `std::extent`, in either order. */
  lemma DerivedExtentSums()
    ensures BinaryOp(H, Add, Foo(Num(3)), Extent(3), Eval, Liftable, Builtin) == Tagged(Num(6))
    ensures BinaryOp(H, Add, Extent(5), Foo(Num(2)), Eval, Liftable, Builtin) == Tagged(Num(7))
  {
    RecognizedWithTag(H, Add, Num(3), {}, Extent(3), Eval, Liftable, Builtin);
    RecognizedWithTag(H, Add, Num(2), {}, Extent(5), Eval, Liftable, Builtin);
  }

  /** A tag and a class deriving from a tag, in either order. */
  lemma TagDerivedSums()
    ensures BinaryOp(H, Add, Cc(Num(1)), Foo(Num(2)), Eval, Liftable, Builtin) == Tagged(Num(3))
    ensures BinaryOp(H, Add, Foo(Num(1)), Cc(Num(8)), Eval, Liftable, Builtin) == Tagged(Num(9))
  {
    TagOpTag(H, Add, Num(1), Num(2), {}, {}, Eval, Liftable, Builtin);
    TagOpTag(H, Add, Num(1), Num(8), {}, {}, Eval, Liftable, Builtin);
  }

  /** Two classes deriving from tags, of different values and of the same value. */
  lemma DerivedSums()
    ensures BinaryOp(H, Add, Foo(Num(2)), Foo(Num(8)), Eval, Liftable, Builtin) == Tagged(Num(10))
    ensures BinaryOp(H, Add, Foo(Num(8)), Foo(Num(8)), Eval, Liftable, Builtin) == Tagged(Num(16))
  {
    TagOpTag(H, Add, Num(2), Num(8), {}, {}, Eval, Liftable, Builtin);
    TagOpTag(H, Add, Num(8), Num(8), {}, {}, Eval, Liftable, Builtin);
  }

  /** Calling and indexing a `Test` constant with tags, and with no index at all. */
  lemma CallAndIndex()
    ensures CallOp(H, TestObj(2), [Cc(Num(1)), Cc(Num(2))], EvalCall, Liftable) == Tagged(Num(5))
    ensures IndexOp(H, TestObj(1), [Cc(Num(1)), Cc(Num(2)), Cc(Num(5))], EvalIndex, Liftable) == Tagged(Num(9))
    ensures IndexOp(H, TestObj(1), [], EvalIndex, Liftable) == Tagged(Num(1))
  {
    var args := [Cc(Num(1)), Cc(Num(2)), Cc(Num(5))];
    assert Values(args) == [Num(1), Num(2), Num(5)];
    assert SumOfNums([Num(1), Num(2), Num(5)]) == Some(8) by {
      assert [Num(1), Num(2), Num(5)][1..] == [Num(2), Num(5)];
      assert [Num(2), Num(5)][1..] == [Num(5)];
      assert [Num(5)][1..] == [];
    }
  }

  /**
    `"foo"_sc` is `constexpr_t<strlit{"foo"}>`: a recognized tag whose `value` is the strlit of
    the three characters, i.e. the type `check<"foo"_sc.value>` expects.
  */
  lemma StringConstant()
    ensures Sc("foo\0") == Cc(Sc("foo\0").value)
    ensures Sc("foo\0").value == Str(StrLit.StrLit("foo"))
    ensures Recognized(H, Sc("foo\0")) && AnyWrapper(Sc("foo\0"))
  {
    assert StrLit.FromLiteral("foo\0").value == "foo";
  }

  /** `"foo"_sc[cc<0>]` is the tag of `'f'`. */
  lemma StringIndexTagged()
    ensures IndexOp(H, Sc("foo\0").value, [Cc(Num(0))], EvalIndex, Liftable) == Tagged(Ch('f'))
  {
    assert StrLit.FromLiteral("foo\0").value[0] == 'f';
    assert Values([Cc(Num(0))]) == [Num(0)];
  }

  /** `"foo"_sc[0]` is the plain character `'f'`. */
  lemma StringIndexPlain()
    ensures IndexOp(H, Sc("foo\0").value, [PlainInt(0)], EvalIndex, Liftable) == Plain(Ch('f'))
  {
    assert StrLit.FromLiteral("foo\0").value[0] == 'f';
    assert !Recognized(H, [PlainInt(0)][0]);
    assert Converted([PlainInt(0)]) == [Num(0)];
  }

  /** Subtraction and remainder on integer tags. */
  lemma TagArithmetic()
    ensures BinaryOp(H, Sub, Cc(Num(1)), Cc(Num(2)), Eval, Liftable, Builtin) == Tagged(Num(-1))
    ensures BinaryOp(H, Mod, Cc(Num(8)), Cc(Num(3)), Eval, Liftable, Builtin) == Tagged(Num(2))
  {
    TagOpTag(H, Sub, Num(1), Num(2), {}, {}, Eval, Liftable, Builtin);
    TagOpTag(H, Mod, Num(8), Num(3), {}, {}, Eval, Liftable, Builtin);
  }

  /** Bitwise and, or and exclusive or on unsigned tags. */
  lemma TagBitwise()
    ensures BinaryOp(H, BitAnd, Cc(Num(9)), Cc(Num(3)), Eval, Liftable, Builtin) == Tagged(Num(1))
    ensures BinaryOp(H, BitOr, Cc(Num(9)), Cc(Num(3)), Eval, Liftable, Builtin) == Tagged(Num(11))
    ensures BinaryOp(H, BitXor, Cc(Num(9)), Cc(Num(3)), Eval, Liftable, Builtin) == Tagged(Num(10))
  {
    TagOpTag(H, BitAnd, Num(9), Num(3), {}, {}, Eval, Liftable, Builtin);
    TagOpTag(H, BitOr, Num(9), Num(3), {}, {}, Eval, Liftable, Builtin);
    TagOpTag(H, BitXor, Num(9), Num(3), {}, {}, Eval, Liftable, Builtin);
  }

  /** Increment and decrement forwarded to the members of an `Aaaargh` constant. */
  lemma ForwardingUnary()
    ensures UnaryOp(PreInc, Aaaargh, EvalUnary, Liftable) == Tagged(Num(1))
    ensures UnaryOp(PostInc, Aaaargh, EvalUnary, Liftable) == Tagged(Num(2))
    ensures UnaryOp(PreDec, Aaaargh, EvalUnary, Liftable) == Tagged(Num(3))
    ensures UnaryOp(PostDec, Aaaargh, EvalUnary, Liftable) == Tagged(Num(4))
  {
  }

  /** `->*` and `=` forwarded to the members of an `Aaaargh` constant. */
  lemma ForwardingBinary()
    ensures BinaryOp(H, ArrowStar, Cc(Aaaargh), Cc(Num(4)), Eval, Liftable, Builtin) == Tagged(Num(9))
    ensures AssignOp(H, Aaaargh, Cc(Num(3)), EvalAssign, Liftable) == Tagged(Num(3))
  {
    TagOpTag(H, ArrowStar, Aaaargh, Num(4), {}, {}, Eval, Liftable, Builtin);
  }

  /** `+=` and `-=` forwarded to the members of an `Aaaargh` constant. */
  lemma ForwardingCompound()
    ensures BinaryOp(H, AddAssign, Cc(Aaaargh), Cc(Num(3)), Eval, Liftable, Builtin) == Tagged(Num(4))
    ensures BinaryOp(H, SubAssign, Cc(Aaaargh), Cc(Num(3)), Eval, Liftable, Builtin) == Tagged(Num(2))
  {
    TagOpTag(H, AddAssign, Aaaargh, Num(3), {}, {}, Eval, Liftable, Builtin);
    TagOpTag(H, SubAssign, Aaaargh, Num(3), {}, {}, Eval, Liftable, Builtin);
  }

  /**
    `cc<1> <=> cc<2>` is a plain `std::strong_ordering::less`: the friend's return type would
    need the ordering as a template argument, which it cannot be.
  */
  lemma TagSpaceshipIsPlain()
    ensures BinaryOp(H, Spaceship, Cc(Num(1)), Cc(Num(2)), Eval, Liftable, Builtin) == Plain(Order(StrLit.Less))
  {
    TagOpTagUnwraps(H, Spaceship, Num(1), Num(2), {}, {}, Eval, Liftable, Builtin);
  }

  /** `cc<1> / cc<0>` is not a tag: `1 / 0` is not a constant, so the friend drops out. */
  lemma TagDivisionByZeroUntagged()
    ensures !BinaryOp(H, Div, Cc(Num(1)), Cc(Num(0)), Eval, Liftable, Builtin).Tagged?
  {
    TagOpTagUnwraps(H, Div, Num(1), Num(0), {}, {}, Eval, Liftable, Builtin);
  }

  /**
    `"fob"_sc <=> "foo"_sc` is ill-formed: the friend drops out because the ordering cannot be
    a tag, and no other `<=>` takes two tags of strlits (strlit's own `<=>` is a member of
    strlit, and there is no builtin `<=>` on class types).
  */
  lemma StringSpaceshipIllFormed()
    ensures BinaryOp(H, Spaceship, Sc("fob\0"), Sc("foo\0"), Eval, Liftable, Builtin) == IllFormed
  {
    assert StrLit.FromLiteral("fob\0").value == "fob";
    assert StrLit.FromLiteral("foo\0").value == "foo";
    TagOpTagUnwraps(H, Spaceship, Str(StrLit.StrLit("fob")), Str(StrLit.StrLit("foo")), {}, {}, Eval, Liftable, Builtin);
  }

  /**
    Every non-empty `"..."_sc` literal is a recognized tag (under either header) of the strlit of its
    characters, terminator dropped.
  */
  lemma StringLiteralIsTag(lit: seq<char>)
    requires |lit| >= 2
    ensures Sc(lit) == Cc(Sc(lit).value)
    ensures Sc(lit).value.s.value == lit[..|lit| - 1]
    ensures forall h :: Recognized(h, Sc(lit))
    ensures AnyWrapper(Sc(lit)) && OneWrapperBase(Sc(lit))
  {
  }

  /** Results that are not tags: a plain `int` operand, or two recognized non-wrappers. */
  lemma Untagged()
    ensures BinaryOp(H, Add, Cc(Num(1)), PlainInt(0), Eval, Liftable, Builtin) == Plain(Num(1))
    ensures BinaryOp(H, Add, PlainInt(1), Cc(Num(1)), Eval, Liftable, Builtin) == Plain(Num(2))
    ensures BinaryOp(H, Add, Extent(3), Extent(5), Eval, Liftable, Builtin) == Plain(Num(8))
  {
    UnrecognizedOperandUnwraps(H, Add, Cc(Num(1)), PlainInt(0), Eval, Liftable, Builtin);
    UnrecognizedOperandUnwraps(H, Add, PlainInt(1), Cc(Num(1)), Eval, Liftable, Builtin);
    assert ViableFriends(H, Extent(3), Extent(5)) == {};
  }
}
