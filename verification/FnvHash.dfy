/** FNV-1a over bytes, in 64 bits, and what it tells apart. */
module FnvHash {
  import opened Words

  const OFFSET: nat := 0xcbf2_9ce4_8422_2325
  const PRIME: nat := 0x0100_0000_01b3

  type Byte = b: nat | b < 256

  function FnvStep(hash: nat, b: Byte): (r: nat)
    ensures r < TWO64
  {
    BitXor(hash, b) * PRIME % TWO64
  }

  /** FNV-1a, continued over `bytes`. */
  function Fnv(hash: nat, bytes: seq<Byte>): (r: nat)
    ensures hash < TWO64 ==> r < TWO64
    decreases |bytes|
  {
    if bytes == [] then hash else FnvStep(Fnv(hash, bytes[..|bytes| - 1]), bytes[|bytes| - 1])
  }

  lemma {:induction false} FnvConcat(hash: nat, a: seq<Byte>, b: seq<Byte>)
    ensures Fnv(hash, a + b) == Fnv(Fnv(hash, a), b)
    decreases |b|
  {
    if b == [] {
      assert a + b == a;
    } else {
      var m := |b| - 1;
      FnvConcat(hash, a, b[..m]);
      assert (a + b)[..|a + b| - 1] == a + b[..m];
    }
  }

  // ----- no information is lost -----

  lemma {:induction false} XorInjective(a: nat, b: nat, c: nat)
    ensures BitXor(a, c) == BitXor(b, c) ==> a == b
    ensures BitXor(c, a) == BitXor(c, b) ==> a == b
    decreases a + b + c
  {
    BitXorHalves(a, c);
    BitXorHalves(b, c);
    BitXorHalves(c, a);
    BitXorHalves(c, b);
    if a + b + c > 0 {
      XorInjective(a / 2, b / 2, c / 2);
    }
  }

  const INVERSE: nat := 0xce96_5057_aff6_957b

  /** The prime has an inverse modulo 2^64. */
  lemma PrimeHasInverse()
    ensures PRIME * INVERSE == 0xce_9650_590f * TWO64 + 1
  {
  }

  /** Multiplying by the prime loses nothing. */
  lemma TimesPrimeInjective(x: nat, y: nat)
    requires x < TWO64 && y < TWO64 && x * PRIME % TWO64 == y * PRIME % TWO64
    ensures x == y
  {
    var d, t := x - y, x * PRIME / TWO64 - y * PRIME / TWO64;
    assert d * PRIME == t * TWO64;
    PrimeHasInverse();
    assert d == (t * INVERSE - d * 0xce_9650_590f) * TWO64;
  }

  lemma XorFits(hash: nat, b: Byte)
    requires hash < TWO64
    ensures BitXor(hash, b) < TWO64
  {
    Pow2At64();
    BitOrXorBound(hash, b, 64);
  }

  lemma StepInjective(g: nat, h: nat, a: Byte, b: Byte)
    requires g < TWO64 && h < TWO64 && FnvStep(g, a) == FnvStep(h, b)
    ensures a == b ==> g == h
    ensures g == h ==> a == b
  {
    XorFits(g, a);
    XorFits(h, b);
    TimesPrimeInjective(BitXor(g, a), BitXor(h, b));
    XorInjective(g, h, a);
    XorInjective(a, b, g);
  }

  lemma {:induction false} FnvInjective(g: nat, h: nat, bytes: seq<Byte>)
    requires g < TWO64 && h < TWO64 && Fnv(g, bytes) == Fnv(h, bytes)
    ensures g == h
    decreases |bytes|
  {
    if bytes != [] {
      var init, last := bytes[..|bytes| - 1], bytes[|bytes| - 1];
      StepInjective(Fnv(g, init), Fnv(h, init), last, last);
      FnvInjective(g, h, init);
    }
  }

  /** The digest changes with every byte, whatever stands before and behind it. */
  lemma EveryByteCounts(hash: nat, a: seq<Byte>, x: Byte, y: Byte, b: seq<Byte>)
    requires hash < TWO64
    ensures Fnv(hash, a + [x] + b) == Fnv(hash, a + [y] + b) <==> x == y
  {
    FnvConcat(hash, a + [x], b);
    FnvConcat(hash, a + [y], b);
    OneByte(hash, a, x);
    OneByte(hash, a, y);
    var g := Fnv(hash, a);
    if Fnv(hash, a + [x] + b) == Fnv(hash, a + [y] + b) {
      FnvInjective(FnvStep(g, x), FnvStep(g, y), b);
      StepInjective(g, g, x, y);
    }
  }

  lemma OneByte(hash: nat, a: seq<Byte>, x: Byte)
    ensures Fnv(hash, a + [x]) == FnvStep(Fnv(hash, a), x)
  {
    assert (a + [x])[..|a|] == a;
  }
}
