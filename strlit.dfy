/**
  The fixed-length character array `strlit<Char, N>` of the test program: built from a string
  literal `const Char (&)[N]` (whose last element is the terminator), it stores the first
  `N - 1` characters, offers indexed reads, and has defaulted `==` and `<=>`.
*/
module StrLit {

  /** The three values of `std::strong_ordering` that `<=>` on characters produces. */
  datatype Ordering = Less | Equivalent | Greater

  /** `strlit<char, N>`: the member array `value` of `size == N - 1` characters. */
  datatype StrLit = StrLit(value: seq<char>)

  function Size(s: StrLit): nat
  {
    |s.value|
  }

  /**
    The constructor from `c[N]`: the pack expansion `value{ c[Is]... }` over
    `Is = 0 .. N - 2` copies every character but the last one. The literal holds at least one
    character besides the terminator: for `N == 1` the member `value[N - 1]` would be an
    array of no elements, which ISO C++ does not allow.
  */
  function FromLiteral(c: seq<char>): (s: StrLit)
    requires |c| >= 2
    ensures Size(s) == |c| - 1
    ensures forall i :: 0 <= i < Size(s) ==> s.value[i] == c[i]
    ensures s.value + [c[|c| - 1]] == c
  {
    StrLit(seq(|c| - 1, i requires 0 <= i < |c| - 1 => c[i]))
  }

  /** The string literal that `s` was built from: its characters and a terminator. */
  function ToLiteral(s: StrLit): (c: seq<char>)
    ensures |c| == Size(s) + 1 && c[|c| - 1] == '\0'
  {
    s.value + ['\0']
  }

  /** Building from a literal and writing the literal back are inverse to each other. */
  lemma LiteralRoundTrip(s: StrLit, c: seq<char>)
    requires Size(s) >= 1
    requires |c| >= 2 && c[|c| - 1] == '\0'
    ensures FromLiteral(ToLiteral(s)) == s
    ensures ToLiteral(FromLiteral(c)) == c
  {
    assert FromLiteral(ToLiteral(s)).value == s.value;
  }

  /** `operator[](i)`: reads `value[i]` (an out-of-bounds read is not a constant expression). */
  function At(s: StrLit, i: nat): (ch: char)
    requires i < Size(s)
    ensures ch == ToLiteral(s)[i]
  {
    s.value[i]
  }

  /** Indexing a strlit built from `c` reads the literal's own character. */
  lemma AtFromLiteral(c: seq<char>, i: nat)
    requires |c| >= 2 && i < |c| - 1
    ensures i < Size(FromLiteral(c)) && At(FromLiteral(c), i) == c[i]
  {
  }

  /** Defaulted `==` on the array member: element by element, starting at index 0. */
  function ElementsEqual(a: seq<char>, b: seq<char>): bool
    requires |a| == |b|
  {
    if a == [] then true else a[0] == b[0] && ElementsEqual(a[1..], b[1..])
  }

  /** Defaulted `<=>` on the array member: the first differing element decides. */
  function ThreeWay(a: seq<char>, b: seq<char>): Ordering
    requires |a| == |b|
  {
    if a == [] then Equivalent
    else if a[0] < b[0] then Less
    else if b[0] < a[0] then Greater
    else ThreeWay(a[1..], b[1..])
  }

  /** `strlit == strlit`. Both operands have the same type, hence the same size. */
  function Equal(a: StrLit, b: StrLit): (eq: bool)
    requires Size(a) == Size(b)
    ensures eq <==> a == b
  {
    ElementsEqualIff(a.value, b.value);
    ElementsEqual(a.value, b.value)
  }

  /** `strlit <=> strlit`. */
  function Compare(a: StrLit, b: StrLit): (o: Ordering)
    requires Size(a) == Size(b)
    ensures o == Equivalent <==> a == b
    ensures o == Less <==> LexLess(a.value, b.value)
  {
    ThreeWayEquivalentIff(a.value, b.value);
    ThreeWayLessIff(a.value, b.value);
    ThreeWay(a.value, b.value)
  }

  /** Reference definition of lexicographic "less": a common prefix, then a smaller element. */
  ghost predicate LexLess(a: seq<char>, b: seq<char>)
    requires |a| == |b|
  {
    exists k :: 0 <= k < |a| && a[..k] == b[..k] && a[k] < b[k]
  }

  lemma {:induction false} ElementsEqualIff(a: seq<char>, b: seq<char>)
    requires |a| == |b|
    ensures ElementsEqual(a, b) <==> a == b
  {
    if a != [] {
      ElementsEqualIff(a[1..], b[1..]);
      if a[0] == b[0] && a[1..] == b[1..] {
        assert a == [a[0]] + a[1..] && b == [b[0]] + b[1..];
      }
    }
  }

  lemma {:induction false} ThreeWayEquivalentIff(a: seq<char>, b: seq<char>)
    requires |a| == |b|
    ensures ThreeWay(a, b) == Equivalent <==> a == b
  {
    if a != [] {
      ThreeWayEquivalentIff(a[1..], b[1..]);
      if a[0] == b[0] && a[1..] == b[1..] {
        assert a == [a[0]] + a[1..] && b == [b[0]] + b[1..];
      }
    }
  }

  lemma {:induction false} ThreeWayAntisymmetric(a: seq<char>, b: seq<char>)
    requires |a| == |b|
    ensures ThreeWay(a, b) == Less <==> ThreeWay(b, a) == Greater
  {
    if a != [] {
      ThreeWayAntisymmetric(a[1..], b[1..]);
    }
  }

  /** A lexicographically smaller sequence does not start with a larger element. */
  lemma LexLessHead(a: seq<char>, b: seq<char>)
    requires |a| == |b| > 0
    ensures LexLess(a, b) ==> a[0] <= b[0]
  {
    if LexLess(a, b) {
      var k :| 0 <= k < |a| && a[..k] == b[..k] && a[k] < b[k];
      if k > 0 {
        assert a[..k][0] == b[..k][0];
      }
    }
  }

  lemma {:induction false} ThreeWayLessIff(a: seq<char>, b: seq<char>)
    requires |a| == |b|
    ensures ThreeWay(a, b) == Less <==> LexLess(a, b)
  {
    if a == [] {
    } else if a[0] < b[0] {
      assert a[..0] == b[..0];
    } else if b[0] < a[0] {
      LexLessHead(a, b);
    } else {
      ThreeWayLessIff(a[1..], b[1..]);
      if LexLess(a, b) {
        var k :| 0 <= k < |a| && a[..k] == b[..k] && a[k] < b[k];
        assert k > 0;
        assert a[1..][..k - 1] == a[..k][1..] == b[..k][1..] == b[1..][..k - 1];
        assert LexLess(a[1..], b[1..]);
      }
      if LexLess(a[1..], b[1..]) {
        var k :| 0 <= k < |a| - 1 && a[1..][..k] == b[1..][..k] && a[1..][k] < b[1..][k];
        assert a[..k + 1] == [a[0]] + a[1..][..k];
        assert b[..k + 1] == [b[0]] + b[1..][..k];
        assert LexLess(a, b);
      }
    }
  }

  lemma {:induction false} ThreeWayTransitive(a: seq<char>, b: seq<char>, c: seq<char>)
    requires |a| == |b| == |c|
    requires ThreeWay(a, b) == Less && ThreeWay(b, c) == Less
    ensures ThreeWay(a, c) == Less
  {
    if a[0] == b[0] && b[0] == c[0] {
      ThreeWayTransitive(a[1..], b[1..], c[1..]);
    }
  }

  /**
    `<=>` is a strict lexicographic order: it reports equivalence exactly for equal strlits,
    "less" exactly when a common prefix is followed by a smaller character, swapping the
    operands swaps less and greater, and less is transitive.
  */
  lemma CompareIsLexicographic(a: StrLit, b: StrLit, c: StrLit)
    requires Size(a) == Size(b) == Size(c)
    ensures Compare(a, b) == Equivalent <==> a == b
    ensures Compare(a, b) == Less <==> LexLess(a.value, b.value)
    ensures Compare(a, b) == Less <==> Compare(b, a) == Greater
    ensures Compare(a, b) == Less && Compare(b, c) == Less ==> Compare(a, c) == Less
  {
    ThreeWayAntisymmetric(a.value, b.value);
    if Compare(a, b) == Less && Compare(b, c) == Less {
      ThreeWayTransitive(a.value, b.value, c.value);
    }
  }
}
