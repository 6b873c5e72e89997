# constexpr_wrapper / constexpr_t — a Dafny model

The library wraps a compile-time constant `X` in an empty class type, `constexpr_wrapper<X>`
(`std::cw<X>`) or `constexpr_t<X>` (`std::cc<X>`). Operators on such tags give new tags of
the computed constant, so a constant stays a constant through arithmetic. The
model covers three things.

- **Which types count as compile-time constants, and which operator is chosen**
  (`recognition.dfy`, `dispatch.dfy`).
  - C++ types are abstract descriptors: whether `T::value` exists, its value, whether
    `&T::value` fails the address check (it is a pointer to member, or it is ill-formed as for
    an enumerator), whether the value can be a tag parameter, the types `T` converts to, the
    wrapper classes `T` derives from, and the plain value `T` converts to.
  - The predicate `constexpr_value<T, U>` and the two exposition-only concepts are predicates
    on descriptors. Whether a header carries the address check is a parameter.
  - Binary operators are hidden friends found through the operands' wrapper bases. When every
    operand derives from at most one wrapper, the tie-break rule lets at most one of them be
    viable. An operand deriving from two wrappers can make two friends viable, and the call is
    then ambiguous. When none is viable, the builtin operator applies to the converted plain
    values.
  - Unary members and `operator=` give a new tag or nothing, never a plain value. `operator()` and `operator[]` have
    complementary overload sets: tagged for all-constant arguments, plain otherwise, and
    (wrapper header only) a nullary call that returns the value. Calling or indexing the
    value gives a constant, a valid expression that is not constant, or no valid expression;
    only a constant can be tagged, and the plain overload takes any valid expression.
  - The meaning of `A::value op B::value` is an `Option`-valued parameter, and so is the
    builtin operator on the plain values. `None` stands for an expression that is not a
    constant (or not valid). A separate predicate says which constants can be tag parameters:
    a friend whose return type `constexpr_t<A::value op B::value>` does not substitute drops
    out, so `cc<1> <=> cc<2>` is a plain `std::strong_ordering`.
- **The integer literal operators** `cw`, `CW`, `w`, `W` (`literal_parser.dfy`).
  - `__cw_prepare_array` is an imperative method with two loops. It counts the characters that
    are not digit separators, then copies them into a zero-filled buffer.
  - It is proved equal to the recursive `StripSeparators`.
  - Then come base detection, the digit span, `std::from_chars` on that span, and the
    fall-through `__do_parse` over `signed char` … `unsigned long long` with LP64 ranges.
  - These are proved to pick the narrowest width of the span's value, and to reject literals
    whose span has a non-digit or whose value is beyond 2^64 - 1.
- **The test program** (`strlit.dfy`, `test_outcomes.dfy`).
  - `strlit` has its literal constructor, indexing and defaulted `==` and `<=>`. `<=>` is
    proved to be a strict lexicographic order.
  - The `static_assert`s of `test.cpp` are instances of the dispatch model, over a small
    value domain with C++'s truncating `/` and `%`.

Notes on what the code does, which the model follows:

- `0`, `1` and `2` go through the general parser like any other literal and come out as
  `signed char`.
- The base test looks only at a lower-case `b`. `0B101` is read in base 8 starting at `B`, and
  parsing fails (`UpperCaseBinaryPrefixIsOctal`, `ExampleUpperCaseBinary`).
- `result_out_of_range` asks for the next type before the end of the digit run is checked.
  A too-large digit prefix followed by a non-digit is therefore reported only once a type
  holds the prefix (`DoParseOutcome`).
- `long` and `long long` have the same range (LP64), so `long long` is never chosen
  (`WidthsFirstFit`).
- `strlit` offers construction from a literal, indexing, `==` and `<=>`, and nothing else.

## Model

| member | source | states |
|---|---|---|
| Recognition.TagType | include/constexpr_t.hpp:45-56 | a tag of X (or a class deriving from it, like `Foo<X>`) has one wrapper base, derives from its own value's wrapper, is recognized under every header, and satisfies `constexpr_value<T, U>` exactly for the types U it converts to |
| Recognition.RecognitionRequirements | include/constexpr_t.hpp:18-21 | `constexpr_value<T, U>` holds iff `constexpr_value<T>` holds and T converts to U; a type without `value`, or whose value cannot be a tag parameter, or (where the header checks it) whose `&T::value` fails the address check is never recognized |
| Recognition.HeadersAgree | include/constexpr_wrapper.hpp:24-29 | the `constexpr_t.hpp` predicate is the GCC-before-13 form of the `constexpr_wrapper.hpp` one; the newer-compiler form admits everything the older admits, and admits more only for types failing the `&T::value` check |
| Recognition.EnumeratorValue | include/constexpr_t.hpp:18-21 | a type whose `value` is an enumerator (so `&T::value` is ill-formed) is rejected by `constexpr_t.hpp` and by the GCC-before-13 wrapper header, and admitted by the newer wrapper header |
| Recognition.AnyWrapperIffHasBase | include/constexpr_wrapper.hpp:36-37 | for a type with at most one wrapper base, `__any_constexpr_wrapper` holds iff it has a wrapper base |
| Dispatch.TieBreak | include/constexpr_wrapper.hpp:39-48 | with at most one wrapper base per operand: at most one friend is viable; exactly one iff both operands are recognized and one derives from a wrapper; it is the left operand's wrapper's friend if it has one, else the right's; none if an operand is unrecognized |
| Dispatch.AmbiguousWithTwoWrapperBases | include/constexpr_t.hpp:38-40 | without the one-wrapper-base hypothesis two friends can be viable (an operand deriving from the wrappers of 1 and 2, against the tag of 2), and a binary operator with a valid constant is then ill-formed (ambiguous) |
| Dispatch.BinaryOp | include/constexpr_wrapper.hpp:140-298 | a tag iff exactly one friend is viable and `A::value op B::value` is a valid constant that can be a tag parameter, then a tag of it (so both operands are recognized and one has a wrapper base); two or more viable friends with such a constant are ill-formed; plain iff no friend applies (none viable, or the return type does not substitute) and the builtin operator on the converted values is valid, then that value |
| Dispatch.ViableFriends | include/constexpr_wrapper.hpp:140-143 | the viable friends are among the candidates (the operands' wrapper bases), and there are none when either operand is not recognized |
| Dispatch.BinaryTaggedIff | include/constexpr_t.hpp:134-292 | under the one-wrapper-base hypothesis, a binary expression is a tag iff both operands are recognized, one derives from a wrapper and the constant expression is valid and can be a tag parameter |
| Dispatch.TagOpTag | include/constexpr_wrapper.hpp:140-143 | tag op tag (same value, different values, or a derived `Foo`) is a new tag of `X op Y` when that can be a tag parameter |
| Dispatch.TagOpTagUnwraps | include/constexpr_wrapper.hpp:235-238 | tag op tag whose constant is invalid or cannot be a tag parameter (like `<=>`'s `std::strong_ordering`) is the builtin operator on the two values |
| Dispatch.RecognizedWithTag | include/constexpr_wrapper.hpp:40-45 | a recognized non-wrapper operand on either side of a tag gives a new tag of the operator on both values |
| Dispatch.UnrecognizedOperandUnwraps | include/constexpr_wrapper.hpp:46-48 | with an unrecognized operand on either side no friend is viable and the result is the builtin operator on the plain values |
| Dispatch.NoWrapperNoTag | include/constexpr_wrapper.hpp:140-143 | two operands that derive from no wrapper never give a tag |
| Dispatch.UnaryOp | include/constexpr_t.hpp:84-132 | a unary member is never plain; it is a tag iff `op X` is a valid constant that can be a tag parameter, and then a tag of that value |
| Dispatch.AssignOp | include/constexpr_wrapper.hpp:245-248 | `tag = A` is a tag iff A is recognized and `X = A::value` is a valid constant that can be a tag parameter, then a tag of that value; never plain |
| Dispatch.ApplyOverloadsExclusive | include/constexpr_wrapper.hpp:309-324 | at most one declaration of `operator()` and at most one of `operator[]` is viable; the tagged one only with all arguments recognized, the plain one only with some argument not recognized (hence at least one argument), the nullary one only without arguments and with `value()` not liftable |
| Dispatch.CallOp | include/constexpr_wrapper.hpp:309-324 | a call is a tag iff all arguments are recognized and `value(args.value...)` is a liftable constant expression, then a tag of it; with some unrecognized argument it is exactly the plain `value(args...)` whenever that is a valid expression, constant or not; plain without arguments exactly in the wrapper header when `value()` is not a valid expression, and then the value itself; otherwise ill-formed |
| Dispatch.IndexOp | include/constexpr_t.hpp:314-324 | indexing is a tag iff all indices are recognized and `value[args.value...]` is a liftable constant expression; with some unrecognized index it is exactly the plain `value[args...]` whenever that is a valid expression; ill-formed iff neither holds |
| Dispatch.RunTimeCallee | include/constexpr_t.hpp:303-324 | a callee that is valid but not `constexpr` makes a call or index with all arguments recognized ill-formed (the nullary call included) and one with an unrecognized argument the plain run-time result |
| LiteralParser.PrepareArray | include/constexpr_wrapper.hpp:399-410 | the two-loop count-and-copy yields exactly the separator-stripped text, of length equal to the number of non-separator characters |
| LiteralParser.StripSeparators | include/constexpr_wrapper.hpp:403-408 | the stripped text is no longer than the input and holds no separator |
| LiteralParser.StripSeparatorsSpec | include/constexpr_wrapper.hpp:403-408 | stripping distributes over concatenation, has the kept count as length, leaves no separator, is the identity on separator-free text, and is idempotent |
| LiteralParser.StripLength | include/constexpr_wrapper.hpp:405-407 | the stripped text has `count_if(not_digit_sep)` characters |
| LiteralParser.StripAppend | include/constexpr_wrapper.hpp:408 | `copy_if` on a concatenation is the concatenation of the copies |
| LiteralParser.StripIdentity | include/constexpr_wrapper.hpp:403-408 | text without separators is copied unchanged |
| LiteralParser.StripRemovesOnlySeparators | include/constexpr_wrapper.hpp:403 | stripped text has no separator; separator-free text is unchanged |
| LiteralParser.KeptCountPrefix | include/constexpr_wrapper.hpp:405-406 | the count over a prefix is at most the count over the whole text |
| LiteralParser.DetectBase | include/constexpr_wrapper.hpp:417-420 | the base is one of 2, 8, 10 and 16 |
| LiteralParser.BaseAndSpan | include/constexpr_wrapper.hpp:383-385 | the text splits into prefix, digit span and (base 16) the trailing marker: no prefix for 10, `0` for 8, `0b` for 2, `0x`/`0X` for 16; only text starting with `0` and longer than two characters is not base 10 |
| LiteralParser.UpperCaseBinaryPrefixIsOctal | include/constexpr_wrapper.hpp:417-420 | `0B…` selects base 8 and its digit span starts with `B` |
| LiteralParser.FirstFit | include/constexpr_wrapper.hpp:393-396 | the index found is the first type whose range holds the value, all earlier ones do not |
| LiteralParser.WidthsFirstFit | include/constexpr_wrapper.hpp:421-423 | on the type list the first fitting type is the narrowest width of the value; none fits beyond 2^64 - 1 |
| LiteralParser.DigitRun | include/constexpr_wrapper.hpp:385 | the matched length is the longest prefix of digits of the base |
| LiteralParser.FromChars | include/constexpr_wrapper.hpp:382-385 | no leading digit gives `invalid_argument` at the start; otherwise the pointer is past the digit run; success iff the run's value fits the type, and only then is the value written (else it stays 0) |
| LiteralParser.DigitRunWhole | include/constexpr_wrapper.hpp:388 | the digit run reaches the end of the span iff the span is all digits |
| LiteralParser.TryWidth | include/constexpr_wrapper.hpp:380-390 | one type: okay iff the span is a non-empty digit string whose value fits the type, and then that value; "try next type" iff the digit run's value does not fit; the type reported is the one tried |
| LiteralParser.DoParse | include/constexpr_wrapper.hpp:376-397 | the reported type is one of the list; an okay result fits its type and is the span's numeral; "try next type" comes only from the last type |
| LiteralParser.DigitRunOfDigits | include/constexpr_wrapper.hpp:388 | a span made only of digits is matched to its end |
| LiteralParser.DoParseOutcome | include/constexpr_wrapper.hpp:376-397 | no digit: error in the first type; otherwise the first type holding the digit run's value is taken, okay iff the run is the whole span; no type holds it: "try next type" in the last type |
| LiteralParser.DoParseOkay | include/constexpr_wrapper.hpp:386-396 | the parse is okay iff the span is a non-empty digit string whose value fits some type; then it holds that value in the first such type and every earlier type overflowed |
| LiteralParser.CwParse | include/constexpr_wrapper.hpp:412-427 | an accepted literal is a non-negative value held in one of the six widths and fitting it; the only failure is the parse failure |
| LiteralParser.CwParseSpec | include/constexpr_wrapper.hpp:412-427 | a literal is accepted iff its digit span is non-empty, all digits of the detected base, and its value is at most 2^64 - 1; it then holds that value in the narrowest width |
| LiteralParser.HexMarkerKept | include/constexpr_wrapper.hpp:442-447 | stripping keeps the `0x`/`0X` prefix and the trailing marker of text that meets the `w`/`W` constraint |
| LiteralParser.Literal | include/constexpr_wrapper.hpp:434-458 | no operator matches exactly for `w` without the `0x`/`0X` prefix and `c` marker and for `W` without the `C` marker; an accepted literal fits its width |
| LiteralParser.LiteralSuffixes | include/constexpr_wrapper.hpp:434-458 | `cw` and `CW` agree; `w`/`W` without `0x`/`0X` and the `c`/`C` marker match no operator; with them the text is read in base 16 from the separator-free characters between prefix and marker |
| LiteralParser.ParsesTo | include/constexpr_wrapper.hpp:421-426 | separator-free text whose whole span is digits with value n yields n in its narrowest width, or fails beyond 2^64 - 1 |
| LiteralParser.ExampleSignedChar | include/constexpr_wrapper.hpp:421-423 | `127cw` is a `signed char` 127 |
| LiteralParser.ExampleShort | include/constexpr_wrapper.hpp:421-423 | `128cw` is a `short` 128 |
| LiteralParser.ExampleHexMarker | include/constexpr_wrapper.hpp:442-449 | `0xFFFFcw` is an `int` 65535 |
| LiteralParser.ExampleNoMarker | include/constexpr_wrapper.hpp:442-447 | `0xFFFF` with suffix `w` matches no operator |
| LiteralParser.NoLeadingDigitFails | include/constexpr_wrapper.hpp:385-389 | a literal whose digit span is empty or starts with a non-digit of its base fails to parse |
| LiteralParser.ExampleUpperCaseBinary | include/constexpr_wrapper.hpp:417-425 | `0B101cw` fails to parse |
| StrLit.FromLiteral | test.cpp:41-50 | the strlit of a literal of N >= 2 characters (the array member needs at least one element) has size N - 1 and holds the literal's first N - 1 characters |
| StrLit.ToLiteral | test.cpp:37-39 | the literal of a strlit has one more character, the terminator |
| StrLit.LiteralRoundTrip | test.cpp:41-50 | building from a terminated non-empty literal and writing it back are inverse |
| StrLit.At | test.cpp:52-54 | `operator[](i)` reads character i of the literal the strlit stands for |
| StrLit.AtFromLiteral | test.cpp:52-54 | indexing a strlit reads the literal's own character |
| StrLit.ElementsEqualIff | test.cpp:56-57 | elementwise comparison holds iff the arrays are equal |
| StrLit.Equal | test.cpp:56-57 | defaulted `==` holds iff the strlits are equal |
| StrLit.Compare | test.cpp:59-60 | `<=>` is equivalent iff the strlits are equal, and less iff a common prefix is followed by a smaller character |
| StrLit.ThreeWayEquivalentIff | test.cpp:59-60 | `<=>` is equivalent iff the arrays are equal |
| StrLit.ThreeWayAntisymmetric | test.cpp:59-60 | swapping operands swaps less and greater |
| StrLit.LexLessHead | test.cpp:59-60 | a lexicographically smaller array does not start with a larger character |
| StrLit.ThreeWayLessIff | test.cpp:59-60 | `<=>` is less iff a common prefix is followed by a smaller character |
| StrLit.ThreeWayTransitive | test.cpp:59-60 | less is transitive |
| StrLit.CompareIsLexicographic | test.cpp:59-60 | `<=>` on strlits is a strict lexicographic order: equivalent iff equal, less iff lexicographically less, antisymmetric, transitive |
| TestOutcomes.TagComparesWithPlain | test.cpp:8-11 | `cc<1> == 1` is the plain `true`, and `constexpr_t<1>` is recognized |
| TestOutcomes.TagSums | test.cpp:131-132 | `cc<1> + cc<1>` and `cc<1> + cc<2>` are the tags 2 and 3 |
| TestOutcomes.TagExtentSums | test.cpp:133-134 | a tag plus `std::extent<int[3]>`, in either order, is a tag of the sum (4, 5) |
| TestOutcomes.DerivedExtentSums | test.cpp:135-136 | `Foo<X>` plus `std::extent`, in either order, is a tag of the sum (6, 7) |
| TestOutcomes.TagDerivedSums | test.cpp:137-138 | a tag plus `Foo<X>`, in either order, is a tag of the sum (3, 9) |
| TestOutcomes.DerivedSums | test.cpp:139-140 | `Foo<2> + Foo<8>` and `Foo<8> + Foo<8>` are the tags 10 and 16 |
| TestOutcomes.CallAndIndex | test.cpp:142-144 | `cc<Test{2}>(cc<1>, cc<2>)` is the tag 5; `cc<Test{}>[cc<1>, cc<2>, cc<5>]` is the tag 9; `cc<Test{}>[]` is the tag 1 |
| TestOutcomes.StringConstant | test.cpp:63-67 | `"foo"_sc` is the recognized tag `constexpr_t<strlit{"foo"}>`, whose `value` is the strlit of `foo` (the type `check<"foo"_sc.value>` at line 145 expects) |
| TestOutcomes.StringIndexTagged | test.cpp:146 | `"foo"_sc[cc<0>]` is the tag of `'f'` |
| TestOutcomes.StringIndexPlain | test.cpp:176 | `"foo"_sc[0]` is the plain `'f'` |
| TestOutcomes.TagArithmetic | test.cpp:152-155 | integer `-` and `%` on tags give the tags -1 and 2 |
| TestOutcomes.TagBitwise | test.cpp:156-158 | `&`, `\|`, `^` on unsigned tags give the tags 1, 11, 10 |
| TestOutcomes.ForwardingUnary | test.cpp:160-165 | the increments and decrements of a tag of `Aaaargh` are the tags 1, 2, 3, 4 |
| TestOutcomes.ForwardingBinary | test.cpp:166-167 | `->*` and `=` on a tag of `Aaaargh` are the tags 9 and 3 |
| TestOutcomes.ForwardingCompound | test.cpp:168-169 | `+=` and `-=` on a tag of `Aaaargh` are the tags 4 and 2 |
| TestOutcomes.OrderOf | include/constexpr_t.hpp:229-232 | `<=>` on integers is less iff the left is smaller and greater iff the right is smaller |
| TestOutcomes.StringLiteralIsTag | test.cpp:63-67 | every non-empty `"..."_sc` is a recognized tag under either header, with one wrapper base, whose strlit holds the literal's characters without the terminator |
| TestOutcomes.TagSpaceshipIsPlain | include/constexpr_t.hpp:229-232 | `cc<1> <=> cc<2>` is the plain `std::strong_ordering::less`, since the ordering cannot be a tag parameter |
| TestOutcomes.StringSpaceshipIllFormed | test.cpp:148-150 | `"fob"_sc <=> "foo"_sc` is ill-formed: the friend's return type does not substitute, strlit's member `<=>` is not a candidate for tag operands, and there is no builtin `<=>` on strlits (so the check at line 150 cannot compile) |
| TestOutcomes.Builtin | include/constexpr_t.hpp:54-56 | the test domain's builtin operators, reached through `operator value_type`, are those on two integers (the only builtin uses in test.cpp); on class-type values (strlit, `Test`, `Aaaargh`) there is none |
| TestOutcomes.TagDivisionByZeroUntagged | include/constexpr_t.hpp:149-152 | `cc<1> / cc<0>` is not a tag: the friend's return type does not substitute |
| TestOutcomes.Untagged | test.cpp:173-177 | a tag plus a plain int (either side) and `std::extent` plus `std::extent` are plain values |
| TestOutcomes.CRem | test.cpp:155 | the remainder truncates toward zero: it takes the dividend's sign and is smaller in magnitude than the divisor |
| TestOutcomes.DivModAbs | test.cpp:155 | the truncating quotient times the divisor plus the remainder (with the dividend's sign) is the dividend |

## Left out

- `operator->` and unary `operator&`: they give addresses or pointers, not tags, and addresses are not modelled (`cca->foo()` in test.cpp is left out with them).
- Floating-point constants (`cc<1.f>`, `cc<2.> * cc<2.>`, `cc<8.f> / cc<2.f>`): floating point is not modelled.
- C++ types of results: the model tracks values, not types. `4uz` and `4` are the same value, usual arithmetic conversions are not modelled, and `check<int>` / `check<char>` / `check<std::size_t>` are stated only as "plain, with this value".
- Signed overflow and shift-count checks in constant evaluation: the evaluator of the test domain uses unbounded integers (bitwise operators go through 32 bits for non-negative operands).
- `value_type` computed with `remove_cvref_t` (wrapper header) or `remove_const_t` (`constexpr_t.hpp`): cv-qualification is not modelled.
- Dispatch.BinaryOp: the builtin fallback is an abstract evaluation of the converted values; overload resolution among user-defined operators of the value type and which conversions apply are not modelled.
- Dispatch.CallOp / Dispatch.IndexOp: the plain overloads forward the argument objects themselves; the model applies the callee to the arguments' converted values, and the callee's own overloads and conversions (such as `Test::operator[](auto...)` receiving tag objects) are not modelled.
- Dispatch.AssignOp: assignment from a tag of the same type selects the implicitly declared copy assignment, not the member template; that overload is not modelled.
- Dispatch.IndexOp: the single-argument `operator[]` of the wrapper header for compilers without multidimensional subscript is not modelled separately (it is the one-argument case).
- `std::from_chars` sign and leading-whitespace rules: literal text never has them, so only unsigned digit strings are modelled.
- Preprocessor gates (`__cpp_lib_constexpr_charconv`, `__cpp_static_call_operator`, `__GNUC__`) are parameters or assumed on; the GCC version is the `gccBefore13` flag of the header.
- TestOutcomes.Builtin: the test domain has no builtin operators on `char` or `bool` values (such as `cc<'a'> + 1`), since test.cpp uses none.
- TestOutcomes.Builtin: the builtin fallback of the test domain gives no value for division or remainder by zero, so `cc<1> / cc<0>` comes out ill-formed; in C++ it is a well-formed run-time expression whose evaluation is undefined, which the model does not represent.
- The definitions `Recognition.ConstexprValue` (include/constexpr_t.hpp:18-21), `Recognition.AnyWrapper` and `Recognition.LhsConstexpr` (include/constexpr_wrapper.hpp:36-48) are predicates without contracts of their own; what they imply is stated by `RecognitionRequirements`, `HeadersAgree`, `AnyWrapperIffHasBase` and `TieBreak`.
- Character comparison in strlit uses code points; the signedness of `char` is not modelled.
- Recognition.TagType: that `Foo<X>` and `constexpr_t<X>` are different types is not visible; both have the same descriptor.
- Integer widths are the LP64 ones; other data models are not modelled.
