/** Machine words as ranges of the integers, and their little-endian byte strings. */
module Words {

  const TWO32: int := 0x1_0000_0000
  const TWO63: int := 0x8000_0000_0000_0000
  const TWO64: int := 0x1_0000_0000_0000_0000

  type u8 = x: int | 0 <= x < 0x100
  type u16 = x: int | 0 <= x < 0x1_0000
  type u32 = x: int | 0 <= x < 0x1_0000_0000
  type u64 = x: int | 0 <= x < 0x1_0000_0000_0000_0000
  type i16 = x: int | -0x8000 <= x < 0x8000
  type i32 = x: int | -0x8000_0000 <= x < 0x8000_0000

  /** `x as u64`, `x as u32`: reduction modulo the word size, also for negative x. */
  function U64(x: int): u64 { x % TWO64 }
  function U32(x: int): u32 { x % TWO32 }

  /** `x as i64`, `x as i32`: two's complement reading of a word. */
  function I64(x: u64): int { if x >= TWO63 then x - TWO64 else x }
  function I32(x: u32): int { if x >= 0x8000_0000 then x - TWO32 else x }

  /** Reduction of a number that is off by at most one multiple of the word size. */
  lemma WrapOnce(x: int)
    ensures -TWO64 <= x < TWO64 ==> U64(x) == if x < 0 then x + TWO64 else x
    ensures -TWO32 <= x < TWO32 ==> U32(x) == if x < 0 then x + TWO32 else x
  {
  }

  function Pow2(n: nat): nat
    ensures Pow2(n) > 0
  { if n == 0 then 1 else 2 * Pow2(n - 1) }

  lemma {:induction false} Pow2Add(a: nat, b: nat)
    ensures Pow2(a + b) == Pow2(a) * Pow2(b)
    decreases a
  {
    if a > 0 { Pow2Add(a - 1, b); }
  }

  lemma Pow2Double(a: nat, b: nat, v: nat)
    requires Pow2(a) == v && b == a + a
    ensures Pow2(b) == v * v
  {
    Pow2Add(a, a);
  }

  lemma Pow2Values()
    ensures Pow2(32) == TWO32 && Pow2(64) == TWO64
  {
    hide Pow2;
    Pow2Four();
    Pow2Double(4, 8, 16);
    Pow2Double(8, 16, 0x100);
    Pow2Double(16, 32, 0x1_0000);
    Pow2Double(32, 64, TWO32);
  }

  lemma Pow2Four()
    ensures Pow2(4) == 16
  {
  }

  /** Bitwise combination of two numbers by the truth table t. */
  function Bitwise(t: (bool, bool) -> bool, a: nat, b: nat): nat
    decreases a + b
  {
    if a == 0 && b == 0 then 0
    else (if t(a % 2 == 1, b % 2 == 1) then 1 else 0) + 2 * Bitwise(t, a / 2, b / 2)
  }

  lemma {:induction false} BitwiseBound(t: (bool, bool) -> bool, a: nat, b: nat, n: nat)
    requires a < Pow2(n) && b < Pow2(n)
    ensures Bitwise(t, a, b) < Pow2(n)
    decreases n
  {
    if n > 0 { BitwiseBound(t, a / 2, b / 2, n - 1); }
  }

  function Word(t: (bool, bool) -> bool, a: u64, b: u64): u64
  {
    Pow2Values();
    BitwiseBound(t, a, b, 64);
    Bitwise(t, a, b)
  }

  function And64(a: u64, b: u64): u64 { Word((x, y) => x && y, a, b) }
  function Or64(a: u64, b: u64): u64 { Word((x, y) => x || y, a, b) }
  function Xor64(a: u64, b: u64): u64 { Word((x, y) => x != y, a, b) }

  lemma {:induction false} AndAtMost(t: (bool, bool) -> bool, a: nat, b: nat)
    requires forall x, y :: t(x, y) ==> x
    ensures Bitwise(t, a, b) <= a
    decreases a + b
  {
    if a != 0 || b != 0 { AndAtMost(t, a / 2, b / 2); }
  }

  lemma AndBound(a: u64, b: u64)
    ensures And64(a, b) <= a
  {
    AndAtMost((x, y) => x && y, a, b);
  }

  lemma {:induction false} SelfIsZero(t: (bool, bool) -> bool, a: nat)
    requires !t(false, false) && !t(true, true)
    ensures Bitwise(t, a, a) == 0
  {
    if a != 0 { SelfIsZero(t, a / 2); }
  }

  lemma XorSelf(a: u64)
    ensures Xor64(a, a) == 0
  {
    SelfIsZero((x, y) => x != y, a);
  }

  lemma {:induction false} ZeroLeft(t: (bool, bool) -> bool, b: nat)
    requires !t(false, false) && t(false, true)
    ensures Bitwise(t, 0, b) == b
  {
    if b != 0 { ZeroLeft(t, b / 2); }
  }

  lemma {:induction false} OnesLeft(t: (bool, bool) -> bool, n: nat, b: nat)
    requires t(true, true) && !t(true, false) && b < Pow2(n)
    ensures Bitwise(t, Pow2(n) - 1, b) == b
    decreases n
  {
    if n > 0 {
      assert (Pow2(n) - 1) / 2 == Pow2(n - 1) - 1 && (Pow2(n) - 1) % 2 == 1;
      OnesLeft(t, n - 1, b / 2);
    }
  }

  lemma {:induction false} Swap(t: (bool, bool) -> bool, a: nat, b: nat)
    requires forall x, y :: t(x, y) == t(y, x)
    ensures Bitwise(t, a, b) == Bitwise(t, b, a)
    decreases a + b
  {
    if a != 0 || b != 0 { Swap(t, a / 2, b / 2); }
  }

  lemma AndZero(a: u64)
    ensures And64(a, 0) == 0
  {
    Swap((x, y) => x && y, 0, a);
    AndAtMost((x, y) => x && y, 0, a);
  }

  lemma BitwiseUnits(b: u64)
    ensures Or64(0, b) == b && Xor64(0, b) == b && And64(TWO64 - 1, b) == b
    ensures Or64(b, 0) == b && Xor64(b, 0) == b && And64(b, TWO64 - 1) == b
  {
    Pow2Values();
    ZeroLeft((x, y) => x || y, b);
    ZeroLeft((x, y) => x != y, b);
    OnesLeft((x, y) => x && y, 64, b);
    Swap((x, y) => x || y, 0, b);
    Swap((x, y) => x != y, 0, b);
    Swap((x, y) => x && y, TWO64 - 1, b);
  }

  function Pow256(n: nat): nat
    ensures Pow256(n) > 0
  { if n == 0 then 1 else 256 * Pow256(n - 1) }

  /** The low n bytes of x, least significant first (`to_le_bytes`). */
  function Le(x: nat, n: nat): (b: seq<u8>)
    ensures |b| == n
  { if n == 0 then [] else [x % 256] + Le(x / 256, n - 1) }

  /** The number a little-endian byte string stands for (`from_le_bytes`). */
  function FromLe(b: seq<u8>): nat
  { if b == [] then 0 else b[0] + 256 * FromLe(b[1..]) }

  lemma ModStep(x: nat, m: nat)
    requires m > 0
    ensures x % (256 * m) == x % 256 + 256 * (x / 256 % m)
  {
    var q, r := x / 256 / m, x / 256 % m;
    assert x == 256 * (q * m + r) + x % 256;
    assert 256 * (q * m + r) == (256 * m) * q + 256 * r by {
      assert 256 * (q * m) == (256 * m) * q;
    }
    var rest := x % 256 + 256 * r;
    assert 0 <= rest < 256 * m;
    DivModUnique(x, 256 * m, q, rest);
  }

  lemma DivModUnique(x: int, d: int, q: int, r: int)
    requires d > 0 && 0 <= r < d && x == d * q + r
    ensures x / d == q && x % d == r
  {
    var q', r' := x / d, x % d;
    assert x == d * q' + r';
    if q' > q { assert d * q' >= d * (q + 1) by { MulMono(d, q + 1, q'); } }
    if q' < q { assert d * q >= d * (q' + 1) by { MulMono(d, q' + 1, q); } }
  }

  /** Reduction modulo a multiple of d does not change the remainder modulo d. */
  lemma ModMod(x: int, d: int, k: int)
    requires d > 0 && k > 0
    ensures d * k > 0 && x % (d * k) % d == x % d
  {
    assert d * k >= d * 1 by { MulMono(d, 1, k); }
    var q, r := x / (d * k), x % (d * k);
    var q', r' := r / d, r % d;
    assert x == d * (k * q + q') + r';
    DivModUnique(x, d, k * q + q', r');
  }

  lemma MulMono(d: int, a: int, b: int)
    requires d > 0 && a <= b
    ensures d * a <= d * b
  {
    assert d * (b - a) >= 0;
  }

  lemma {:induction false} LeRoundTrip(x: nat, n: nat)
    ensures FromLe(Le(x, n)) == x % Pow256(n)
  {
    if n > 0 {
      var b := Le(x, n);
      assert b[1..] == Le(x / 256, n - 1);
      LeRoundTrip(x / 256, n - 1);
      ModStep(x, Pow256(n - 1));
    }
  }

  lemma Pow256Values()
    ensures Pow256(1) == 0x100 && Pow256(2) == 0x1_0000 && Pow256(4) == TWO32 && Pow256(8) == TWO64
  {
    assert Pow256(3) == 256 * Pow256(2);
    assert Pow256(5) == 256 * Pow256(4);
    assert Pow256(7) == 256 * Pow256(6);
  }

  lemma {:induction false} FromLeBound(b: seq<u8>)
    ensures FromLe(b) < Pow256(|b|)
  {
    if b != [] { FromLeBound(b[1..]); }
  }

  // The lengths below are written as |...| so that the recursion of Le is not unrolled at every use.

  /** `to_le_bytes` of a 32-bit word. */
  function Le32(x: u32): (b: seq<u8>)
    ensures |b| == 4
  { Le(x, |[0, 0, 0, 0]|) }

  /** `to_le_bytes` of a 64-bit word. */
  function Le64(x: u64): (b: seq<u8>)
    ensures |b| == 8
  { Le(x, |[0, 0, 0, 0, 0, 0, 0, 0]|) }

  lemma Le32RoundTrip(x: u32)
    ensures FromLe(Le32(x)) == x
  {
    LeRoundTrip(x, |[0, 0, 0, 0]|);
    Pow256Values();
  }

  lemma Le64RoundTrip(x: u64)
    ensures FromLe(Le64(x)) == x
  {
    LeRoundTrip(x, |[0, 0, 0, 0, 0, 0, 0, 0]|);
    Pow256Values();
  }

  /** A 16-bit word, least significant byte first. */
  function Le16(x: u16): (b: seq<u8>)
    ensures |b| == 2
  { Le(x, |[0, 0]|) }

  lemma Le16RoundTrip(x: u16)
    ensures FromLe(Le16(x)) == x
  {
    LeRoundTrip(x, |[0, 0]|);
    Pow256Values();
  }

  lemma FromLe16Bound(b: seq<u8>)
    requires |b| == 2
    ensures FromLe(b) < 0x1_0000
  {
    FromLeBound(b);
    Pow256Values();
  }

  lemma FromLe32Bound(b: seq<u8>)
    requires |b| == 4
    ensures FromLe(b) < TWO32
  {
    FromLeBound(b);
    Pow256Values();
  }
}
