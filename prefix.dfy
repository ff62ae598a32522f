/** Prefix arithmetic on 32-bit IPv4 addresses, the notation of section 3.1
    of RFC 4632: a "/n" prefix keeps the top n bits of an address. */
module Prefix {
  import opened Text

  function Pow2(k: nat): (p: nat)
    ensures p >= 1
  {
    if k == 0 then 1 else 2 * Pow2(k - 1)
  }

  lemma {:induction false} Pow2Add(a: nat, b: nat)
    ensures Pow2(a + b) == Pow2(a) * Pow2(b)
    decreases a
  {
    if a > 0 {
      Pow2Add(a - 1, b);
      assert Pow2(a + b) == 2 * Pow2(a - 1 + b);
    }
  }

  lemma {:induction false} Pow2Increasing(a: nat, b: nat)
    requires a < b
    ensures Pow2(a) < Pow2(b)
    decreases b
  {
    if a < b - 1 {
      Pow2Increasing(a, b - 1);
    }
  }

  /** The powers the address arithmetic below needs. */
  lemma Pow2Values()
    ensures Pow2(4) == 16 && Pow2(6) == 64 && Pow2(8) == 256
    ensures Pow2(16) == 65536 && Pow2(24) == 16777216 && Pow2(32) == 4294967296
  {
    assert Pow2(8) == 256;
    Pow2Add(8, 8);
    Pow2Add(16, 8);
    Pow2Add(16, 16);
  }

  const AddressSpace: nat := 4294967296

  /** The subnet mask of a "/n" prefix: the top n of the 32 bits set, one
      bit at a time from the most significant. */
  function Mask(n: nat): nat
    requires n <= 32
  {
    if n == 0 then 0 else Mask(n - 1) + Pow2(32 - n)
  }

  /** Setting the top n bits gives 2^32 - 2^(32-n). */
  lemma {:induction false} MaskClosedForm(n: nat)
    requires n <= 32
    ensures Mask(n) == Pow2(32) - Pow2(32 - n)
  {
    if n > 0 {
      MaskClosedForm(n - 1);
      assert Pow2(32 - (n - 1)) == 2 * Pow2(32 - n);
    }
  }

  /** A mask is a 32-bit value. */
  lemma MaskFits(n: nat)
    requires n <= 32
    ensures Mask(n) < AddressSpace
  {
    MaskClosedForm(n);
    Pow2Values();
  }

  /** Longer prefixes have larger masks, so a mask names one prefix length. */
  lemma MaskIncreasing(m: nat, n: nat)
    requires m < n <= 32
    ensures Mask(m) < Mask(n)
  {
    MaskClosedForm(m);
    MaskClosedForm(n);
    Pow2Increasing(32 - n, 32 - m);
  }

  lemma MaskInjective(m: nat, n: nat)
    requires m <= 32 && n <= 32 && Mask(m) == Mask(n)
    ensures m == n
  {
    if m < n {
      MaskIncreasing(m, n);
    } else if n < m {
      MaskIncreasing(n, m);
    }
  }

  /** The wildcard mask: the bitwise NOT of the subnet mask within 32 bits. */
  function Wildcard(n: nat): (w: nat)
    requires n <= 32
  {
    MaskFits(n);
    AddressSpace - 1 - Mask(n)
  }

  /** The wildcard sets exactly the low 32 - n bits, the host part. */
  lemma WildcardIsHostBits(n: nat)
    requires n <= 32
    ensures Wildcard(n) == Pow2(32 - n) - 1
    ensures Mask(n) + Wildcard(n) == AddressSpace - 1
  {
    MaskClosedForm(n);
    Pow2Values();
  }

  /** The usable host addresses of a "/n" subnet: all 2^(32-n) addresses but
      the network and the broadcast address. */
  function UsableHosts(n: nat): (h: nat)
    requires n <= 30
  {
    Pow2Increasing(1, 32 - n);
    Pow2(32 - n) - 2
  }

  /** The address with the four octets a.b.c.d. */
  function FromOctets(a: nat, b: nat, c: nat, d: nat): nat {
    a * 16777216 + b * 65536 + c * 256 + d
  }

  /** Dotted-decimal notation of a 32-bit address. */
  function DottedQuad(x: nat): string {
    NatToString(x / 16777216) + "." + NatToString(x / 65536 % 256) + "."
      + NatToString(x / 256 % 256) + "." + NatToString(x % 256)
  }

  /** Rendering an address built from octets shows those octets. */
  lemma DottedQuadOctets(a: nat, b: nat, c: nat, d: nat)
    requires a < 256 && b < 256 && c < 256 && d < 256
    ensures FromOctets(a, b, c, d) < AddressSpace
    ensures DottedQuad(FromOctets(a, b, c, d)) ==
      NatToString(a) + "." + NatToString(b) + "." + NatToString(c) + "." + NatToString(d)
  {
    var x := FromOctets(a, b, c, d);
    assert x / 16777216 == a;
    assert x / 65536 == a * 256 + b;
    assert x / 65536 % 256 == b;
    assert x / 256 == a * 65536 + b * 256 + c;
    assert x / 256 % 256 == c;
    assert x % 256 == d;
  }

  /** "/p" written out, for a prefix length p. */
  function PrefixNotation(p: nat): string {
    "/" + NatToString(p)
  }
}
