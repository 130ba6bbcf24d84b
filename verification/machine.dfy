/** Fixed-width arithmetic and the small shared vocabulary of the model. */
module Machine {

  const TWO_32: nat := 0x1_0000_0000
  const TWO_64: nat := 0x1_0000_0000_0000_0000

  /** Conversion to a 32-bit unsigned integer: the C++ cast and the result of 32-bit arithmetic. */
  function U32(x: int): nat {
    x % TWO_32
  }

  /** Conversion to a 64-bit unsigned integer. */
  function U64(x: int): nat {
    x % TWO_64
  }

  type byte = x: int | 0 <= x < 256

  /** Conversion to a 32-bit signed integer. */
  function I32(x: int): int {
    (x + 0x8000_0000) % TWO_32 - 0x8000_0000
  }

  /** The three conversions keep the number modulo 2^32 or 2^64, and bring it into the range of the type. */
  lemma ConversionsWrap(x: int) returns (q: int, r: int, s: int)
    ensures 0 <= U32(x) < 0x1_0000_0000 && x == U32(x) + q * 0x1_0000_0000
    ensures 0 <= U64(x) < 0x1_0000_0000_0000_0000 && x == U64(x) + r * 0x1_0000_0000_0000_0000
    ensures -0x8000_0000 <= I32(x) < 0x8000_0000 && x == I32(x) + s * 0x1_0000_0000
  {
    q, r, s := x / TWO_32, x / TWO_64, (x + 0x8000_0000) / TWO_32;
  }

  /** A value or an error. */
  datatype Fallible<+T, +E> = Success(value: T) | Failure(error: E) {
    predicate IsFailure() {
      Failure?
    }

    function PropagateFailure<U>(): Fallible<U, E>
      requires Failure?
    {
      Failure(error)
    }

    function Extract(): T
      requires Success?
    {
      value
    }
  }

  datatype Option<+T> = None | Some(value: T)

  function Min(a: int, b: int): int {
    if a < b then a else b
  }

  function Max(a: int, b: int): int {
    if a < b then b else a
  }

  ghost predicate NoDup<T>(s: seq<T>) {
    forall i, j :: 0 <= i < j < |s| ==> s[i] != s[j]
  }

  lemma NoDupAppend<T>(s: seq<T>, x: T)
    requires NoDup(s) && x !in s
    ensures NoDup(s + [x])
  {
    forall i | 0 <= i < |s|
      ensures (s + [x])[i] != x
    {
      assert s[i] in s;
    }
  }

  lemma SubSlice<T>(s: seq<T>, a: nat, b: nat, x: nat, y: nat)
    requires a <= b <= |s| && x <= y <= b - a
    ensures s[a..b][x..y] == s[a + x..a + y]
  {
    forall i | 0 <= i < y - x
      ensures s[a..b][x..y][i] == s[a + x..a + y][i]
    {
      assert s[a..b][x + i] == s[a + x + i];
    }
  }

  ghost function Elems<T>(s: seq<T>): set<T> {
    set x | x in s
  }

  /** The sum of a sequence of lengths. */
  function Sum(s: seq<nat>): nat {
    if s == [] then 0 else Sum(s[..|s| - 1]) + s[|s| - 1]
  }

  lemma MulMonotone(a: nat, b: nat, x: nat)
    requires a <= b
    ensures a * x <= b * x
  {
    assert b * x == a * x + (b - a) * x;
  }

  lemma DivideUnique(b: nat, i: nat, d: nat)
    requires d > 0
    ensures b / d == i <==> i * d <= b < (i + 1) * d
  {
    var q := b / d;
    assert b == q * d + b % d;
    if q < i {
      MulMonotone(q + 1, i, d);
    } else if i < q {
      MulMonotone(i + 1, q, d);
    }
  }
}
