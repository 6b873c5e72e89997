/**
  The integer-literal parser behind the `cw`, `CW`, `w` and `W` literal operators: the raw
  characters of the literal lose their digit separators, the base is read from the prefix,
  and the digit span is parsed by `std::from_chars` (ISO C++ [charconv.from.chars]) into
  `signed char`, `short`, `int`, `long`, `long long` and `unsigned long long` in turn, keeping
  the first width that holds the value. Widths are those of an LP64 target.
*/
module LiteralParser {
  import opened Wrappers

  // ---------------------------------------------------------------------------------------
  // Digit separators (`__cw_prepare_array`)

  predicate IsSeparator(c: char)
  {
    c == '\''
  }

  /** `count_if(arr0, not_digit_sep)`. */
  function KeptCount(s: seq<char>): nat
  {
    if s == [] then 0 else KeptCount(s[..|s| - 1]) + (if IsSeparator(s[|s| - 1]) then 0 else 1)
  }

  /** The characters of s other than digit separators, in their order. */
  function StripSeparators(s: seq<char>): (r: seq<char>)
    ensures |r| <= |s|
    ensures forall i :: 0 <= i < |r| ==> !IsSeparator(r[i])
  {
    if s == [] then []
    else StripSeparators(s[..|s| - 1]) + (if IsSeparator(s[|s| - 1]) then [] else [s[|s| - 1]])
  }

  lemma {:induction false} StripLength(s: seq<char>)
    ensures |StripSeparators(s)| == KeptCount(s)
  {
    if s != [] {
      StripLength(s[..|s| - 1]);
    }
  }

  lemma {:induction false} StripAppend(a: seq<char>, b: seq<char>)
    ensures StripSeparators(a + b) == StripSeparators(a) + StripSeparators(b)
  {
    if b != [] {
      assert (a + b)[..|a + b| - 1] == a + b[..|b| - 1];
      StripAppend(a, b[..|b| - 1]);
    } else {
      assert a + b == a;
    }
  }

  lemma {:induction false} StripIdentity(s: seq<char>)
    requires forall i :: 0 <= i < |s| ==> !IsSeparator(s[i])
    ensures StripSeparators(s) == s
  {
    if s != [] {
      var init := s[..|s| - 1];
      assert forall i :: 0 <= i < |init| ==> !IsSeparator(init[i]);
      StripIdentity(init);
      assert s == init + [s[|s| - 1]];
    }
  }

  lemma StripRemovesOnlySeparators(s: seq<char>)
    ensures forall i :: 0 <= i < |StripSeparators(s)| ==> !IsSeparator(StripSeparators(s)[i])
    ensures (forall i :: 0 <= i < |s| ==> !IsSeparator(s[i])) ==> StripSeparators(s) == s
  {
    if forall i :: 0 <= i < |s| ==> !IsSeparator(s[i]) {
      StripIdentity(s);
    }
  }

  /**
    Separator stripping yields the input without its separators and with its other characters
    in order: it distributes over concatenation, its length is the count of kept characters,
    it leaves no separator behind, and it is the identity on separator-free text (so applying
    it twice changes nothing).
  */
  lemma StripSeparatorsSpec(a: seq<char>, b: seq<char>)
    ensures StripSeparators(a + b) == StripSeparators(a) + StripSeparators(b)
    ensures |StripSeparators(a)| == KeptCount(a)
    ensures forall i :: 0 <= i < |StripSeparators(a)| ==> !IsSeparator(StripSeparators(a)[i])
    ensures (forall i :: 0 <= i < |a| ==> !IsSeparator(a[i])) ==> StripSeparators(a) == a
    ensures StripSeparators(StripSeparators(a)) == StripSeparators(a)
  {
    StripAppend(a, b);
    StripLength(a);
    StripRemovesOnlySeparators(a);
    StripRemovesOnlySeparators(StripSeparators(a));
  }

  lemma KeptCountPrefix(s: seq<char>, i: nat)
    requires i <= |s|
    ensures KeptCount(s[..i]) <= KeptCount(s)
  {
    assert s == s[..i] + s[i..];
    StripAppend(s[..i], s[i..]);
    StripLength(s);
    StripLength(s[..i]);
    StripLength(s[i..]);
  }

  /**
    `__cw_prepare_array`: count the characters that are not separators, then copy those into a
    zero-initialised buffer of that size.
  */
  method PrepareArray(chars: seq<char>) returns (arr: seq<char>)
    ensures arr == StripSeparators(chars)
    ensures |arr| == KeptCount(chars)
  {
    var size := 0;
    for i := 0 to |chars|
      invariant size == KeptCount(chars[..i])
    {
      assert chars[..i + 1][..i] == chars[..i];
      if !IsSeparator(chars[i]) {
        size := size + 1;
      }
    }
    assert chars[..|chars|] == chars;
    var tmp := new char[size](_ => '\0');
    var out := 0;
    for i := 0 to |chars|
      invariant out == KeptCount(chars[..i]) <= size
      invariant tmp[..out] == StripSeparators(chars[..i])
    {
      assert chars[..i + 1][..i] == chars[..i];
      KeptCountPrefix(chars, i + 1);
      if !IsSeparator(chars[i]) {
        tmp[out] := chars[i];
        out := out + 1;
      }
    }
    StripLength(chars);
    assert tmp[..] == tmp[..out];
    arr := tmp[..];
  }

  // ---------------------------------------------------------------------------------------
  // Base and digit span

  /** Base detection: a leading `0` with more than two characters selects 16, 2 or 8. */
  function DetectBase(arr: seq<char>): (base: int)
    requires |arr| > 0
    ensures base in {2, 8, 10, 16}
  {
    if arr[0] == '0' && 2 < |arr| then
      if arr[1] == 'x' || arr[1] == 'X' then 16
      else if arr[1] == 'b' then 2
      else 8
    else 10
  }

  /** How many prefix characters the digit span skips. */
  function DigitOffset(base: int): nat
  {
    if base == 10 then 0 else if base == 8 then 1 else 2
  }

  /** Where the digit span ends: base 16 drops the trailing marker character. */
  function SpanEnd(arr: seq<char>, base: int): int
  {
    |arr| - (if base == 16 then 1 else 0)
  }

  /** The span is a valid iterator range and the base is one `from_chars` accepts. */
  predicate SpanInBounds(arr: seq<char>, base: int)
  {
    2 <= base <= 36 && DigitOffset(base) <= SpanEnd(arr, base)
  }

  function DigitSpan(arr: seq<char>, base: int): seq<char>
    requires SpanInBounds(arr, base)
  {
    arr[DigitOffset(base)..SpanEnd(arr, base)]
  }

  /**
    The detected base splits the text into its prefix, the digit span and (for base 16) the
    marker: no prefix for base 10, `0` for 8, `0b` for 2 and `0x`/`0X` for 16, and only
    text that starts with `0` and has more than two characters gets a base other than 10.
  */
  lemma BaseAndSpan(arr: seq<char>)
    requires |arr| > 0
    ensures SpanInBounds(arr, DetectBase(arr))
    ensures var base := DetectBase(arr);
            var off := DigitOffset(base);
            var end := SpanEnd(arr, base);
            && arr == arr[..off] + DigitSpan(arr, base) + arr[end..]
            && (base == 10 <==> !(arr[0] == '0' && |arr| > 2))
            && (base == 10 ==> off == 0 && end == |arr|)
            && (base == 8 ==> arr[..off] == "0" && end == |arr| && arr[1] !in "xXb")
            && (base == 2 ==> arr[..off] == "0b" && end == |arr|)
            && (base == 16 ==> arr[..off] in {"0x", "0X"} && arr[end..] == [arr[|arr| - 1]])
  {
    var base := DetectBase(arr);
    var off := DigitOffset(base);
    var end := SpanEnd(arr, base);
    assert arr == arr[..off] + arr[off..end] + arr[end..];
    if base == 2 {
      assert arr[..off] == [arr[0], arr[1]];
    }
    if base == 16 {
      assert arr[..off] == [arr[0], arr[1]];
    }
  }

  /** `0B...` is not a binary prefix here: such text is read in base 8 from the `B` on. */
  lemma UpperCaseBinaryPrefixIsOctal(arr: seq<char>)
    requires |arr| > 2 && arr[0] == '0' && arr[1] == 'B'
    ensures DetectBase(arr) == 8 && DigitSpan(arr, 8)[0] == 'B'
  {
  }

  // ---------------------------------------------------------------------------------------
  // The integer types tried, with their LP64 ranges

  datatype IntType = SignedChar | Short | Int | Long | LongLong | UnsignedLongLong

  function MinOf(t: IntType): int
  {
    match t
    case SignedChar => -0x80
    case Short => -0x8000
    case Int => -0x8000_0000
    case Long => -0x8000_0000_0000_0000
    case LongLong => -0x8000_0000_0000_0000
    case UnsignedLongLong => 0
  }

  function MaxOf(t: IntType): int
  {
    match t
    case SignedChar => 0x7F
    case Short => 0x7FFF
    case Int => 0x7FFF_FFFF
    case Long => 0x7FFF_FFFF_FFFF_FFFF
    case LongLong => 0x7FFF_FFFF_FFFF_FFFF
    case UnsignedLongLong => 0xFFFF_FFFF_FFFF_FFFF
  }

  predicate Fits(t: IntType, n: int)
  {
    MinOf(t) <= n <= MaxOf(t)
  }

  /** The type list `__cw_parse` hands to `__do_parse`. */
  const Widths: seq<IntType> := [SignedChar, Short, Int, Long, LongLong, UnsignedLongLong]

  /** The index of the first type in ts whose range holds n, or |ts| when none does. */
  function FirstFit(ts: seq<IntType>, n: int): (i: nat)
    ensures i <= |ts|
    ensures i < |ts| ==> Fits(ts[i], n)
    ensures forall j :: 0 <= j < i ==> !Fits(ts[j], n)
  {
    if ts == [] then 0 else if Fits(ts[0], n) then 0 else 1 + FirstFit(ts[1..], n)
  }

  /** Reference definition of the narrowest width for a non-negative literal value. */
  function NarrowestWidth(n: nat): Option<IntType>
  {
    if n <= 0x7F then Some(SignedChar)
    else if n <= 0x7FFF then Some(Short)
    else if n <= 0x7FFF_FFFF then Some(Int)
    else if n <= 0x7FFF_FFFF_FFFF_FFFF then Some(Long)
    else if n <= 0xFFFF_FFFF_FFFF_FFFF then Some(UnsignedLongLong)
    else None
  }

  /**
    On the width list, the first fitting type is the narrowest width of the value: `long long`
    is never chosen (it has the range of `long`), and no type fits beyond 2^64 - 1.
  */
  lemma WidthsFirstFit(n: nat)
    ensures FirstFit(Widths, n) < |Widths| <==> NarrowestWidth(n).Some?
    ensures FirstFit(Widths, n) < |Widths| ==> Widths[FirstFit(Widths, n)] == NarrowestWidth(n).value
  {
    var w0 := Widths;
    var w1 := [Short, Int, Long, LongLong, UnsignedLongLong];
    var w2 := [Int, Long, LongLong, UnsignedLongLong];
    var w3 := [Long, LongLong, UnsignedLongLong];
    var w4 := [LongLong, UnsignedLongLong];
    var w5 := [UnsignedLongLong];
    assert w0[1..] == w1 && w1[1..] == w2 && w2[1..] == w3 && w3[1..] == w4 && w4[1..] == w5;
    assert w5[1..] == [];
    if n <= 0x7F {
      assert FirstFit(w0, n) == 0;
    } else if n <= 0x7FFF {
      assert FirstFit(w0, n) == 1 + FirstFit(w1, n) == 1;
    } else if n <= 0x7FFF_FFFF {
      assert FirstFit(w1, n) == 1 + FirstFit(w2, n) == 1;
    } else if n <= 0x7FFF_FFFF_FFFF_FFFF {
      assert FirstFit(w2, n) == 1 + FirstFit(w3, n) == 1;
      assert FirstFit(w0, n) == 3;
    } else {
      assert FirstFit(w3, n) == 1 + FirstFit(w4, n) == 2 + FirstFit(w5, n);
      assert FirstFit(w0, n) == 5 + FirstFit(w5, n);
    }
  }

  // ---------------------------------------------------------------------------------------
  // std::from_chars on the digits of a base (no sign, no whitespace)

  /** The value of c as an alphanumeric digit (`0`-`9`, then letters of either case); 36 otherwise. */
  function DigitValue(c: char): nat
  {
    if '0' <= c <= '9' then (c as int) - ('0' as int)
    else if 'a' <= c <= 'z' then (c as int) - ('a' as int) + 10
    else if 'A' <= c <= 'Z' then (c as int) - ('A' as int) + 10
    else 36
  }

  predicate IsDigitOf(c: char, base: int)
  {
    DigitValue(c) < base
  }

  predicate AllDigitsOf(s: seq<char>, base: int)
  {
    forall i :: 0 <= i < |s| ==> IsDigitOf(s[i], base)
  }

  /** The length of the longest prefix of s made of digits of the base. */
  function DigitRun(s: seq<char>, base: int): (k: nat)
    ensures k <= |s|
    ensures AllDigitsOf(s[..k], base)
    ensures k < |s| ==> !IsDigitOf(s[k], base)
  {
    if s == [] || !IsDigitOf(s[0], base) then 0 else 1 + DigitRun(s[1..], base)
  }

  /** The value of a digit string in the base, most significant digit first. */
  function Numeral(s: seq<char>, base: nat): nat
  {
    if s == [] then 0 else Numeral(s[..|s| - 1], base) * base + DigitValue(s[|s| - 1])
  }

  /** `std::errc{}`, `std::errc::invalid_argument`, `std::errc::result_out_of_range`. */
  datatype Errc = NoError | InvalidArgument | ResultOutOfRange

  /** `from_chars_result` (ptr as an offset from the first character) and the output value. */
  datatype FromCharsResult = FromCharsResult(ptr: nat, ec: Errc, value: int)

  /**
    `std::from_chars(first, last, value, base)` for an integer type t: the longest digit prefix
    is matched; none gives `invalid_argument` at `first`; a value outside t's range gives
    `result_out_of_range` past the match; the output is only written on success.
  */
  function FromChars(s: seq<char>, base: int, t: IntType, init: int): (r: FromCharsResult)
    requires 2 <= base <= 36
    ensures r.ptr <= |s|
    ensures r.ec == InvalidArgument <==> s == [] || !IsDigitOf(s[0], base)
    ensures r.ec == InvalidArgument ==> r.ptr == 0
    ensures r.ec != InvalidArgument ==> r.ptr == DigitRun(s, base) > 0
    ensures r.ec == NoError <==> r.ptr > 0 && Fits(t, Numeral(s[..r.ptr], base))
    ensures r.value == if r.ec == NoError then Numeral(s[..r.ptr], base) else init
  {
    var k := DigitRun(s, base);
    if k == 0 then FromCharsResult(0, InvalidArgument, init)
    else
      var n := Numeral(s[..k], base);
      if Fits(t, n) then FromCharsResult(k, NoError, n)
      else FromCharsResult(k, ResultOutOfRange, init)
  }

  // ---------------------------------------------------------------------------------------
  // Parsing into one width and falling through the list (`__do_parse`)

  datatype CwStatus = Okay | TryNextType | Error

  /** `_CwResult<T>`: the type tried last, the value parsed and the status. */
  datatype CwResult = CwResult(ty: IntType, value: int, status: CwStatus)

  /** The lambda of `__do_parse` for one type: out of range asks for the next type. */
  function TryWidth(arr: seq<char>, base: int, t: IntType): (r: CwResult)
    requires SpanInBounds(arr, base)
    ensures r.ty == t
    ensures var span := DigitSpan(arr, base);
            r.status == Okay <==> |span| > 0 && AllDigitsOf(span, base) && Fits(t, Numeral(span, base))
    ensures r.status == Okay ==> r.value == Numeral(DigitSpan(arr, base), base)
    ensures var span := DigitSpan(arr, base);
            var k := DigitRun(span, base);
            r.status == TryNextType <==> k > 0 && !Fits(t, Numeral(span[..k], base))
  {
    var span := DigitSpan(arr, base);
    DigitRunWhole(span, base);
    assert span[..|span|] == span;
    var res := FromChars(span, base, t, 0);
    if res.ec == ResultOutOfRange then CwResult(t, res.value, TryNextType)
    else if res.ec != NoError || res.ptr != |span| then CwResult(t, res.value, Error)
    else CwResult(t, res.value, Okay)
  }

  /** `__do_parse<arr, base, T, Next...>`: recurse only on "try next type" with a type left. */
  function DoParse(arr: seq<char>, base: int, ts: seq<IntType>): (r: CwResult)
    requires SpanInBounds(arr, base) && |ts| > 0
    ensures r.ty in ts
    ensures r.status == Okay ==> Fits(r.ty, r.value) && r.value == Numeral(DigitSpan(arr, base), base)
    ensures r.status == TryNextType ==> r.ty == ts[|ts| - 1]
    decreases |ts|
  {
    var r1 := TryWidth(arr, base, ts[0]);
    if r1.status == TryNextType && |ts| > 1 then DoParse(arr, base, ts[1..]) else r1
  }

  /**
    What `__do_parse` returns. Let k be the length of the digit run of the span and p its value:
    no digit at all is an error at once, in the first type; otherwise the first type that
    holds p is taken, with status okay when the run is the whole span and error when other
    characters follow; if no type holds p, the last type reports "try next type".
  */
  lemma {:induction false} DoParseOutcome(arr: seq<char>, base: int, ts: seq<IntType>)
    requires SpanInBounds(arr, base) && |ts| > 0
    ensures var span := DigitSpan(arr, base);
            var k := DigitRun(span, base);
            var p := Numeral(span[..k], base);
            var i := FirstFit(ts, p);
            var r := DoParse(arr, base, ts);
            && (k == 0 ==> r == CwResult(ts[0], 0, Error))
            && (k > 0 && i == |ts| ==> r == CwResult(ts[|ts| - 1], 0, TryNextType))
            && (k > 0 && i < |ts| ==> r == CwResult(ts[i], p, if k == |span| then Okay else Error))
  {
    var span := DigitSpan(arr, base);
    var k := DigitRun(span, base);
    var p := Numeral(span[..k], base);
    if k > 0 && !Fits(ts[0], p) && |ts| > 1 {
      DoParseOutcome(arr, base, ts[1..]);
      assert FirstFit(ts, p) == 1 + FirstFit(ts[1..], p);
    }
  }

  /**
    The parse is okay exactly when the span is a non-empty run of digits whose value fits one of
    the types; then the value is the span's numeral, it fits the chosen type, and every earlier
    type reported out of range.
  */
  lemma DoParseOkay(arr: seq<char>, base: int, ts: seq<IntType>)
    requires SpanInBounds(arr, base) && |ts| > 0
    ensures var span := DigitSpan(arr, base);
            var r := DoParse(arr, base, ts);
            && (r.status == Okay <==> |span| > 0 && AllDigitsOf(span, base) && FirstFit(ts, Numeral(span, base)) < |ts|)
            && (r.status == Okay ==>
                  && r.value == Numeral(span, base)
                  && Fits(r.ty, r.value)
                  && r.ty == ts[FirstFit(ts, r.value)]
                  && forall j :: 0 <= j < FirstFit(ts, r.value) ==> TryWidth(arr, base, ts[j]).status == TryNextType)
  {
    var span := DigitSpan(arr, base);
    var k := DigitRun(span, base);
    DoParseOutcome(arr, base, ts);
    assert span[..|span|] == span;
    if |span| > 0 && AllDigitsOf(span, base) {
      DigitRunOfDigits(span, base);
    }
  }

  /** The digit run covers the whole span exactly when the span is made only of digits. */
  lemma DigitRunWhole(s: seq<char>, base: int)
    ensures DigitRun(s, base) == |s| <==> AllDigitsOf(s, base)
  {
    if AllDigitsOf(s, base) {
      DigitRunOfDigits(s, base);
    }
  }

  /** A span made only of digits is its own digit run. */
  lemma {:induction false} DigitRunOfDigits(s: seq<char>, base: int)
    requires AllDigitsOf(s, base)
    ensures DigitRun(s, base) == |s|
  {
    if s != [] {
      DigitRunOfDigits(s[1..], base);
    }
  }

  // ---------------------------------------------------------------------------------------
  // `__cw_parse` and the literal operators

  /** An integer constant and the type it is held in. */
  datatype IntConstant = IntConstant(ty: IntType, value: int)

  /** The `static_assert` in `__cw_parse` fails, or no literal operator matches the text. */
  datatype LiteralError = ParsingFailed | NoMatchingOperator

  /** `__cw_parse<Chars...>`: strip, detect the base, parse through the widths. */
  function CwParse(raw: seq<char>): (r: Result<IntConstant, LiteralError>)
    requires StripSeparators(raw) != []
    ensures r.Ok? ==> r.value.ty in Widths && Fits(r.value.ty, r.value.value) && r.value.value >= 0
    ensures r.Err? ==> r.error == ParsingFailed
  {
    var arr := StripSeparators(raw);
    var base := DetectBase(arr);
    BaseAndSpan(arr);
    var r := DoParse(arr, base, Widths);
    if r.status == Okay then Ok(IntConstant(r.ty, r.value)) else Err(ParsingFailed)
  }

  /** The digit span of the literal text once separators are removed. */
  function LiteralSpan(raw: seq<char>): seq<char>
    requires StripSeparators(raw) != []
  {
    BaseAndSpan(StripSeparators(raw));
    DigitSpan(StripSeparators(raw), DetectBase(StripSeparators(raw)))
  }

  /**
    A literal is accepted exactly when its digit span is a non-empty string of digits of the
    detected base whose value is at most 2^64 - 1; it then holds that value in the narrowest
    width. It fails when parsing errs or when all six widths overflow.
  */
  lemma CwParseSpec(raw: seq<char>)
    requires StripSeparators(raw) != []
    ensures var base := DetectBase(StripSeparators(raw));
            var span := LiteralSpan(raw);
            && (CwParse(raw).Ok? <==> |span| > 0 && AllDigitsOf(span, base) && NarrowestWidth(Numeral(span, base)).Some?)
            && (CwParse(raw).Ok? ==>
                  CwParse(raw).value == IntConstant(NarrowestWidth(Numeral(span, base)).value, Numeral(span, base)))
  {
    var arr := StripSeparators(raw);
    var base := DetectBase(arr);
    BaseAndSpan(arr);
    DoParseOkay(arr, base, Widths);
    WidthsFirstFit(Numeral(LiteralSpan(raw), base));
  }

  /** The four literal suffixes. */
  datatype Suffix = cw | CW | w | W

  /** The `w` / `W` constraint: more than two characters, a `0x`/`0X` prefix and the marker last. */
  predicate HexMarker(raw: seq<char>, marker: char)
  {
    |raw| > 2 && raw[0] == '0' && (raw[1] == 'x' || raw[1] == 'X') && raw[|raw| - 1] == marker
  }

  /** The literal text a suffix accepts (an integer literal always starts with a digit). */
  predicate AcceptsText(suffix: Suffix, raw: seq<char>)
  {
    (suffix == cw || suffix == CW) ==> StripSeparators(raw) != []
  }

  /** `operator"" cw`, `CW`, `w`, `W`: all parse with `__cw_parse`; `w`/`W` only hex text ending in `c`/`C`. */
  function Literal(suffix: Suffix, raw: seq<char>): (r: Result<IntConstant, LiteralError>)
    requires AcceptsText(suffix, raw)
    ensures r == Err(NoMatchingOperator)
            <==> (suffix == w && !HexMarker(raw, 'c')) || (suffix == W && !HexMarker(raw, 'C'))
    ensures r.Ok? ==> r.value.ty in Widths && Fits(r.value.ty, r.value.value)
  {
    match suffix
    case cw => CwParse(raw)
    case CW => CwParse(raw)
    case w => if HexMarker(raw, 'c') then (HexMarkerKept(raw, 'c'); CwParse(raw)) else Err(NoMatchingOperator)
    case W => if HexMarker(raw, 'C') then (HexMarkerKept(raw, 'C'); CwParse(raw)) else Err(NoMatchingOperator)
  }

  /** Stripping keeps the prefix and the marker of text that meets the `w`/`W` constraint. */
  lemma HexMarkerKept(raw: seq<char>, marker: char)
    requires HexMarker(raw, marker) && !IsSeparator(marker)
    ensures var arr := StripSeparators(raw);
            && arr == raw[..2] + StripSeparators(raw[2..|raw| - 1]) + [marker]
            && |arr| > 2 && arr[0] == '0' && arr[1] == raw[1] && arr[|arr| - 1] == marker
  {
    assert raw == raw[..2] + raw[2..|raw| - 1] + [raw[|raw| - 1]];
    StripAppend(raw[..2] + raw[2..|raw| - 1], [raw[|raw| - 1]]);
    StripAppend(raw[..2], raw[2..|raw| - 1]);
    assert raw[..2] == [raw[0]] + [raw[1]];
    StripAppend([raw[0]], [raw[1]]);
    assert StripSeparators([raw[0]]) == [raw[0]];
    assert StripSeparators([raw[1]]) == [raw[1]];
    assert StripSeparators([raw[|raw| - 1]]) == [raw[|raw| - 1]];
  }

  /**
    `cw` and `CW` are the same operator under two spellings. Text accepted by `w` or `W` is
    read in base 16 with the marker excluded: its digits are the separator-free characters
    between the prefix and the marker. Text not meeting the constraint matches no operator.
  */
  lemma LiteralSuffixes(raw: seq<char>, suffix: Suffix)
    requires suffix == w || suffix == W
    ensures StripSeparators(raw) != [] ==> Literal(cw, raw) == Literal(CW, raw)
    ensures var marker := if suffix == w then 'c' else 'C';
            && (!HexMarker(raw, marker) ==> Literal(suffix, raw) == Err(NoMatchingOperator))
            && (HexMarker(raw, marker) ==>
                  && StripSeparators(raw) != []
                  && DetectBase(StripSeparators(raw)) == 16
                  && LiteralSpan(raw) == StripSeparators(raw[2..|raw| - 1])
                  && Literal(suffix, raw) == CwParse(raw))
  {
    var marker := if suffix == w then 'c' else 'C';
    if HexMarker(raw, marker) {
      HexMarkerKept(raw, marker);
      var arr := StripSeparators(raw);
      assert arr[2..|arr| - 1] == StripSeparators(raw[2..|raw| - 1]);
    }
  }

  /** Parses text that has no separators and whose digits form the whole span. */
  lemma ParsesTo(raw: seq<char>, base: int, n: nat)
    requires raw != [] && forall i :: 0 <= i < |raw| ==> !IsSeparator(raw[i])
    requires DetectBase(raw) == base
    requires var span := DigitSpan(raw, base); |span| > 0 && AllDigitsOf(span, base) && Numeral(span, base) == n
    ensures NarrowestWidth(n).Some? ==> CwParse(raw) == Ok(IntConstant(NarrowestWidth(n).value, n))
    ensures NarrowestWidth(n).None? ==> CwParse(raw) == Err(ParsingFailed)
  {
    BaseAndSpan(raw);
    StripRemovesOnlySeparators(raw);
    CwParseSpec(raw);
  }

  /** `127cw` is held in `signed char`, the narrowest type. */
  lemma ExampleSignedChar()
    ensures CwParse("127") == Ok(IntConstant(SignedChar, 127))
  {
    var s := "127";
    assert s[..2] == "12" && s[..2][..1] == "1" && s[..2][..1][..0] == "";
    assert Numeral("1", 10) == 1;
    assert Numeral("12", 10) == 12;
    assert Numeral(s, 10) == 127;
    ParsesTo(s, 10, 127);
  }

  /** `128cw` does not fit `signed char` and is held in `short`. */
  lemma ExampleShort()
    ensures CwParse("128") == Ok(IntConstant(Short, 128))
  {
    var s := "128";
    assert s[..2] == "12" && s[..2][..1] == "1" && s[..2][..1][..0] == "";
    assert Numeral("1", 10) == 1;
    assert Numeral("12", 10) == 12;
    assert Numeral(s, 10) == 128;
    ParsesTo(s, 10, 128);
  }

  /** `0xFFFFcw` reads the hex digits before the marker: 65535 does not fit `short`. */
  lemma ExampleHexMarker()
    ensures Literal(w, "0xFFFFc") == Ok(IntConstant(Int, 65535))
  {
    var s := "0xFFFFc";
    var span := "FFFF";
    assert DigitSpan(s, 16) == span;
    assert span[..3] == "FFF" && span[..3][..2] == "FF" && span[..3][..2][..1] == "F" && span[..3][..2][..1][..0] == "";
    assert Numeral("F", 16) == 15;
    assert Numeral("FF", 16) == 255;
    assert Numeral("FFF", 16) == 4095;
    assert Numeral(span, 16) == 65535;
    ParsesTo(s, 16, 65535);
  }

  /** Hex text without the marker matches no operator under `w`. */
  lemma ExampleNoMarker()
    ensures Literal(w, "0xFFFF") == Err(NoMatchingOperator)
  {
  }

  /** A literal whose digit span does not start with a digit of its base fails to parse. */
  lemma NoLeadingDigitFails(raw: seq<char>)
    requires StripSeparators(raw) != []
    requires var span := LiteralSpan(raw); span == [] || !IsDigitOf(span[0], DetectBase(StripSeparators(raw)))
    ensures CwParse(raw) == Err(ParsingFailed)
  {
    var arr := StripSeparators(raw);
    BaseAndSpan(arr);
    DoParseOutcome(arr, DetectBase(arr), Widths);
  }

  /** `0B101` is read in base 8 from the `B` on, which is not an octal digit. */
  lemma ExampleUpperCaseBinary()
    ensures CwParse("0B101") == Err(ParsingFailed)
  {
    var s := "0B101";
    assert forall i :: 0 <= i < |s| ==> !IsSeparator(s[i]);
    StripIdentity(s);
    UpperCaseBinaryPrefixIsOctal(s);
    NoLeadingDigitFails(s);
  }
}
