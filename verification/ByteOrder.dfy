/** Byte order: numbers as byte sequences, least or most significant byte first. */
module ByteOrder {
  import opened Words

  /** n bytes of x, least significant first. */
  function Little(x: nat, n: nat): (s: seq<u8>)
    ensures |s| == n
  {
    if n == 0 then [] else [x % 256] + Little(x / 256, n - 1)
  }

  function FromLittle(s: seq<u8>): nat {
    if s == [] then 0 else s[0] + 256 * FromLittle(s[1..])
  }

  function Pow256(n: nat): nat {
    if n == 0 then 1 else 256 * Pow256(n - 1)
  }

  lemma {:induction false} LittleRoundTrip(x: nat, n: nat)
    requires x < Pow256(n)
    ensures FromLittle(Little(x, n)) == x
  {
    if n > 0 {
      LittleRoundTrip(x / 256, n - 1);
    }
  }

  lemma {:induction false} LittleBound(s: seq<u8>)
    ensures FromLittle(s) < Pow256(|s|)
    decreases |s|
  {
    if s != [] {
      LittleBound(s[1..]);
    }
  }

  /** n bytes of x, most significant first. */
  function Big(x: nat, n: nat): (s: seq<u8>)
    ensures |s| == n
  {
    if n == 0 then [] else Big(x / 256, n - 1) + [x % 256]
  }

  function FromBig(s: seq<u8>): nat {
    if s == [] then 0 else 256 * FromBig(s[..|s| - 1]) + s[|s| - 1]
  }

  lemma {:induction false} BigBound(s: seq<u8>)
    ensures FromBig(s) < Pow256(|s|)
    decreases |s|
  {
    if s != [] {
      BigBound(s[..|s| - 1]);
    }
  }

  /** Reading n bytes back gives the number modulo 256^n. */
  lemma {:induction false} BigRoundTrip(x: nat, n: nat)
    requires x < Pow256(n)
    ensures FromBig(Big(x, n)) == x
    decreases n
  {
    if n > 0 {
      BigRoundTrip(x / 256, n - 1);
      assert Big(x, n)[..n - 1] == Big(x / 256, n - 1);
    }
  }

  lemma {:induction false} BigOfFrom(s: seq<u8>)
    ensures Big(FromBig(s), |s|) == s
    decreases |s|
  {
    if s != [] {
      BigOfFrom(s[..|s| - 1]);
    }
  }

  function BigEndian(a: int, b: int, c: int, d: int): int {
    a * 0x1000000 + b * 0x10000 + c * 0x100 + d
  }

  lemma BigFour(s: seq<u8>)
    requires |s| == 4
    ensures FromBig(s) == BigEndian(s[0], s[1], s[2], s[3])
  {
    assert s[..3][..2] == s[..2] && s[..2][..1] == s[..1] && s[..1][..0] == [];
    var a: int, b: int, c: int := s[0], s[1], s[2];
    assert FromBig(s[..1]) == a;
    assert FromBig(s[..2]) == 256 * a + b;
    assert FromBig(s[..3]) == 256 * (256 * a + b) + c;
  }

  lemma BigTwo(s: seq<u8>)
    requires |s| == 2
    ensures FromBig(s) == BigEndian(0, 0, s[0], s[1])
  {
    assert s[..1][..0] == [];
    assert FromBig(s[..1]) == s[0];
  }

  // ---- byte shifts and masks ----

  /** `x << 8k`, `x >> 8k`, and `x` masked to its low k bytes. */
  function ShiftUp(x: nat, k: nat): nat {
    if k == 0 then x else 256 * ShiftUp(x, k - 1)
  }

  function DropLow(x: nat, k: nat): nat {
    if k == 0 then x else DropLow(x / 256, k - 1)
  }

  function KeepLow(x: nat, k: nat): nat {
    if k == 0 then 0 else 256 * KeepLow(x / 256, k - 1) + x % 256
  }

  /** A number splits where its bytes do. */
  lemma {:induction false} BigSplit(s: seq<u8>, t: seq<u8>)
    ensures FromBig(s + t) == ShiftUp(FromBig(s), |t|) + FromBig(t)
    decreases |t|
  {
    if t == [] {
      assert s + t == s;
    } else {
      assert (s + t)[..|s + t| - 1] == s + t[..|t| - 1];
      BigSplit(s, t[..|t| - 1]);
    }
  }

  lemma {:induction false} BigDrop(s: seq<u8>, k: nat)
    requires k <= |s|
    ensures DropLow(FromBig(s), k) == FromBig(s[..|s| - k])
    decreases k
  {
    if k == 0 {
      assert s[..|s|] == s;
    } else {
      BigDrop(s[..|s| - 1], k - 1);
      assert s[..|s| - 1][..|s| - k] == s[..|s| - k];
    }
  }

  lemma {:induction false} BigKeep(s: seq<u8>, k: nat)
    requires k <= |s|
    ensures KeepLow(FromBig(s), k) == FromBig(s[|s| - k..])
    decreases k
  {
    if k > 0 {
      var t := s[|s| - k..];
      BigKeep(s[..|s| - 1], k - 1);
      assert t[..k - 1] == s[..|s| - 1][|s| - k..] && t[k - 1] == s[|s| - 1];
    }
  }

  function Zeros(n: nat): (s: seq<u8>)
    ensures |s| == n
  {
    seq(n, _ => 0)
  }

  lemma {:induction false} BigZeros(n: nat)
    ensures FromBig(Zeros(n)) == 0
  {
    if n > 0 {
      assert Zeros(n)[..n - 1] == Zeros(n - 1);
      BigZeros(n - 1);
    }
  }
}
