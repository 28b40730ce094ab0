/** Machine words of the host program: wrap-around of the C integer types it computes with. */
module Words {

  type i16 = x: int | -0x8000 <= x < 0x8000
  type u8 = x: int | 0 <= x < 0x100
  type u32 = x: int | 0 <= x < 0x1_0000_0000
  type u64 = x: int | 0 <= x < 0x1_0000_0000_0000_0000

  const U32 := 0x1_0000_0000
  const U64 := 0x1_0000_0000_0000_0000

  /** A 32-bit register as its bits, bit 0 first. */
  type Bits = s: seq<bool> | |s| == 32 witness seq(32, _ => false)

  /** `(uint16_t)x` */
  function ToU16(x: int): (w: nat)
    ensures w < 0x10000
  {
    x % 0x10000
  }

  /** `(int16_t)x` */
  function ToI16(x: int): i16 {
    var w := x % 0x10000;
    if w < 0x8000 then w else w - 0x10000
  }

  /** `(uint32_t)x` */
  function ToU32(x: int): u32 {
    x % U32
  }

  /** 32-bit address arithmetic. */
  function Plus(a: u32, k: u32): u32 {
    if a + k < U32 then a + k else a + k - U32
  }

  /** Unit steps of a 16-bit cursor from x up to its next meeting with goal. */
  function Ahead(x: int, goal: int): (k: nat)
    ensures 1 <= k <= 0x10000
  {
    var k := ToU16(goal - x);
    if k == 0 then 0x10000 else k
  }

  function LowBits(x: nat, n: nat): (s: seq<bool>)
    ensures |s| == n
  {
    if n == 0 then [] else [x % 2 == 1] + LowBits(x / 2, n - 1)
  }

  function ToBits(x: u32): Bits {
    LowBits(x, 32)
  }

  function Min(a: int, b: int): int {
    if a < b then a else b
  }

  function Max(a: int, b: int): int {
    if a < b then b else a
  }

  function Abs(x: int): nat { if x < 0 then -x else x }

  /** The bit of a word whose weight this is. */
  predicate Bit(x: nat, weight: nat)
    requires weight > 0
  {
    x / weight % 2 == 1
  }

  predicate Distinct<T(==)>(s: seq<T>) {
    forall i, j :: 0 <= i < j < |s| ==> s[i] != s[j]
  }

  // ---- division ----

  lemma MulMono(n: nat, a: int, b: int)
    requires a <= b
    ensures n * a <= n * b
  {
  }

  lemma SameQuotient(n: int, p: int, s: int, q: int, r: int)
    requires n * p + s == n * q + r && 0 <= s < n && 0 <= r < n
    ensures p == q
  {
    if p < q {
      MulMono(n, p + 1, q);
    } else if q < p {
      MulMono(n, q + 1, p);
    }
  }

  /** A quotient and a remainder that fit are the quotient and the remainder. */
  lemma QuotientUnique(a: int, n: int, q: int, r: int)
    requires n > 0 && a == n * q + r && 0 <= r < n
    ensures a / n == q && a % n == r
  {
    SameQuotient(n, a / n, a % n, q, r);
  }
}
