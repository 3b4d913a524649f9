/** Octets, big-endian numbers and the exclusive-or used for masking. */
module Bytes {
  type Byte = b: int | 0 <= b < 256

  /** Exclusive-or of the lowest `bits` bits of a and b, bit by bit. */
  function XorBits(a: nat, b: nat, bits: nat): (x: nat)
    ensures x < Pow2(bits)
  {
    if bits == 0 then 0 else 2 * XorBits(a / 2, b / 2, bits - 1) + (a + b) % 2
  }

  function Xor(a: Byte, b: Byte): Byte {
    Pow2Values();
    XorBits(a, b, 8)
  }

  lemma {:induction false} XorBitsUndone(a: nat, b: nat, bits: nat)
    requires a < Pow2(bits)
    ensures XorBits(XorBits(a, b, bits), b, bits) == a
  {
    if bits != 0 {
      XorBitsUndone(a / 2, b / 2, bits - 1);
      var x := XorBits(a, b, bits);
      assert x / 2 == XorBits(a / 2, b / 2, bits - 1);
      assert x % 2 == (a + b) % 2;
      Parity(a, b, x);
    }
  }

  lemma Parity(a: nat, b: nat, x: nat)
    requires x % 2 == (a + b) % 2
    ensures (x + b) % 2 == a % 2
  {
  }

  /** Masking twice with the same octet gives the octet back. */
  lemma XorUndone(a: Byte, b: Byte)
    ensures Xor(Xor(a, b), b) == a
  {
    Pow2Values();
    XorBitsUndone(a, b, 8);
  }

  /** Bit k of a number. */
  function Bit(x: nat, k: nat): (b: nat)
    ensures b < 2
  {
    if k == 0 then x % 2 else Bit(x / 2, k - 1)
  }

  lemma {:induction false} XorBitsAt(a: nat, b: nat, bits: nat, k: nat)
    requires k < bits
    ensures Bit(XorBits(a, b, bits), k) == 1 <==> Bit(a, k) != Bit(b, k)
  {
    var x := XorBits(a, b, bits);
    assert x / 2 == XorBits(a / 2, b / 2, bits - 1) && x % 2 == (a + b) % 2;
    if k == 0 {
      Parities(a, b);
    } else {
      XorBitsAt(a / 2, b / 2, bits - 1, k - 1);
    }
  }

  lemma Parities(a: nat, b: nat)
    ensures (a + b) % 2 == 1 <==> a % 2 != b % 2
  {
  }

  /** A bit of the exclusive-or is set exactly where the bits of the two octets differ. */
  lemma XorIsDifference(a: Byte, b: Byte, k: nat)
    requires k < 8
    ensures Bit(Xor(a, b), k) == 1 <==> Bit(a, k) != Bit(b, k)
  {
    XorBitsAt(a, b, 8, k);
  }

  function Pow2(n: nat): nat {
    if n == 0 then 1 else 2 * Pow2(n - 1)
  }

  lemma Pow2Values()
    ensures Pow2(8) == 256
  {
    assert Pow2(4) == 16;
    assert Pow2(6) == 64;
  }

  /** The number whose base-256 digits, most significant first, are s. */
  function BigEndian(s: seq<Byte>): nat {
    if s == [] then 0 else BigEndian(s[..|s| - 1]) * 256 + s[|s| - 1]
  }

  function Pow256(n: nat): nat {
    if n == 0 then 1 else Pow256(n - 1) * 256
  }

  lemma Pow256Values()
    ensures Pow256(0) == 1 && Pow256(1) == 0x100 && Pow256(2) == 0x1_0000 && Pow256(3) == 0x100_0000
    ensures Pow256(4) == 0x1_0000_0000 && Pow256(8) == 0x1_0000_0000_0000_0000
  {
    assert Pow256(5) == 0x100_0000_0000;
    assert Pow256(6) == 0x1_0000_0000_0000;
    assert Pow256(7) == 0x100_0000_0000_0000;
  }

  lemma BigEndianBound(s: seq<Byte>)
    ensures BigEndian(s) < Pow256(|s|)
  {
  }

  lemma Grows(k: int, d: nat)
    ensures 1 <= k ==> d <= k * d
    ensures k <= -1 ==> k * d + d <= 0
  {
  }

  lemma QuotientIs(n: nat, d: nat, q: nat, r: nat)
    requires n == q * d + r && r < d
    ensures n / d == q
  {
    Grows(q - n / d, d);
    assert (q - n / d) * d == q * d - n / d * d;
  }

  lemma Distributes(x: nat, y: nat, z: nat)
    ensures (x + y) * z == x * z + y * z
    ensures x <= y ==> x * z <= y * z
  {
  }

  lemma DivisionTwice(n: nat, a: nat)
    requires 0 < a
    ensures n / a / 256 == n / (a * 256)
  {
    var q, r := n / a, n % a;
    var s, t := q / 256, q % 256;
    assert q * a == s * (a * 256) + t * a by {
      Distributes(s * 256, t, a);
      Associates(s, 256, a);
    }
    assert t * a + r < a * 256 by {
      Distributes(t, 255, a);
    }
    QuotientIs(n, a * 256, s, t * a + r);
  }

  lemma Associates(x: nat, y: nat, z: nat)
    ensures x * y * z == x * (z * y)
  {
  }
}
