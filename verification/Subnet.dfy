/**
 The IPv6 subnet allocator of internal/subnet/allocator.go: pools keyed by prefix text and length, a node's
 subnet derived from the number of subnets already out, and the byte arithmetic that writes that index into
 the prefix.  Addresses are 16 bytes, most significant first.
 */
module Subnet {
  import opened Wrappers

  datatype Error = InvalidPrefixLength | InvalidPrefix | PoolNotFound | Exhausted

  type Byte = b: nat | b < 256

  type Address = a: seq<Byte> | |a| == 16 witness [0, 0, 0, 0, 0, 0, 0, 0, 0, 0, 0, 0, 0, 0, 0, 0]

  function Pow2(n: nat): (p: nat)
    ensures p > 0
  {
    if n == 0 then 1 else 2 * Pow2(n - 1)
  }

  /** Bitwise OR, bit by bit from the lowest. */
  function BitOr(a: nat, b: nat): nat
    decreases a + b
  {
    if a == 0 && b == 0 then 0
    else 2 * BitOr(a / 2, b / 2) + if a % 2 == 1 || b % 2 == 1 then 1 else 0
  }

  lemma {:induction false} BitOrFits(a: nat, b: nat, n: nat)
    requires a < Pow2(n) && b < Pow2(n)
    ensures BitOr(a, b) < Pow2(n)
  {
    if n > 0 {
      BitOrFits(a / 2, b / 2, n - 1);
    }
  }

  function Or8(a: Byte, b: Byte): Byte {
    Pow2Of8And16();
    BitOrFits(a, b, 8);
    BitOr(a, b)
  }

  predicate ValidLength(prefixLen: int) {
    48 <= prefixLen <= 64
  }

  /** How many subnets a pool is meant to hold. */
  function MaxSubnets(prefixLen: int): nat
    requires ValidLength(prefixLen)
  {
    Pow2(64 - prefixLen)
  }

  /** The loop: ORs the index, lowest byte first, into bytes 15 - byteStart, 14 - byteStart, ... */
  function WriteIndex(bytes: Address, byteStart: nat, i: nat): Address
    decreases i
  {
    if i == 0 || byteStart >= 16 then bytes
    else WriteIndex(bytes[15 - byteStart := Or8(bytes[15 - byteStart], i % 256)], byteStart + 1, i / 256)
  }

  function CalculateSubnet(prefix: Option<Address>, prefixLen: int, index: nat): Result<Address, Error>
    requires ValidLength(prefixLen)
  {
    if prefix.None? then Err(InvalidPrefix)
    else if index >= MaxSubnets(prefixLen) then Err(Exhausted)
    else Ok(WriteIndex(prefix.value, prefixLen / 8, index))
  }

  /** The same computation as the source runs it, on a buffer. */
  method CalculateSubnetInPlace(prefix: Option<Address>, prefixLen: int, index: nat) returns (r: Result<Address, Error>)
    requires ValidLength(prefixLen)
    ensures r == CalculateSubnet(prefix, prefixLen, index)
  {
    if prefix.None? {
      return Err(InvalidPrefix);
    }
    var maxSubnets := Pow2(64 - prefixLen);
    if index >= maxSubnets {
      return Err(Exhausted);
    }
    var ipBytes := new Byte[16](k requires 0 <= k < 16 => prefix.value[k]);
    assert ipBytes[..] == prefix.value;
    var byteStart := prefixLen / 8;
    var i := index;
    while i > 0 && byteStart < 16
      invariant 0 <= i && 0 <= byteStart
      invariant WriteIndex(ipBytes[..], byteStart, i) == WriteIndex(prefix.value, prefixLen / 8, index)
      decreases 16 - byteStart
    {
      ghost var before := ipBytes[..];
      ipBytes[15 - byteStart] := Or8(ipBytes[15 - byteStart], i % 256);
      assert ipBytes[..] == before[15 - byteStart := Or8(before[15 - byteStart], i % 256)];
      byteStart := byteStart + 1;
      i := i / 256;
    }
    r := Ok(ipBytes[..]);
  }

  // ----- What the index does to the address

  lemma {:induction false} Pow2Grows(m: nat, n: nat)
    requires m <= n
    ensures Pow2(m) <= Pow2(n)
  {
    if m < n {
      Pow2Grows(m, n - 1);
    }
  }

  lemma Pow2Of8And16()
    ensures Pow2(8) == 256 && Pow2(16) == 65536
  {
    assert Pow2(4) == 16;
    assert Pow2(8) == 256;
    assert Pow2(12) == 4096;
  }

  lemma IndexFits(prefixLen: int, index: nat)
    requires ValidLength(prefixLen) && index < MaxSubnets(prefixLen)
    ensures index < 65536 && (prefixLen >= 56 ==> index < 256) && (prefixLen == 64 ==> index == 0)
  {
    Pow2Of8And16();
    Pow2Grows(64 - prefixLen, 16);
    if prefixLen >= 56 {
      Pow2Grows(64 - prefixLen, 8);
    }
  }

  lemma {:induction false} OrZero(x: nat)
    ensures BitOr(x, 0) == x && BitOr(0, x) == x
  {
    if x > 0 {
      OrZero(x / 2);
    }
  }

  /** The whole effect: the index goes into byte 9 and then 8, or for lengths from 56 on into byte 8 alone. */
  lemma WrittenBytes(p: Address, prefixLen: int, index: nat)
    requires ValidLength(prefixLen) && index < MaxSubnets(prefixLen)
    ensures index < 65536 && (prefixLen >= 56 ==> index < 256)
    ensures
      WriteIndex(p, prefixLen / 8, index) ==
        if prefixLen < 56 then p[9 := Or8(p[9], index % 256)][8 := Or8(p[8], index / 256)]
        else p[8 := Or8(p[8], index)]
  {
    IndexFits(prefixLen, index);
    OrZero(p[9]);
    OrZero(p[8]);
    if index == 0 {
      assert p == p[9 := p[9]][8 := p[8]];
      assert p == p[8 := p[8]];
    } else if prefixLen < 56 {
      assert prefixLen / 8 == 6;
      TwoBytes(p, index);
    } else {
      assert prefixLen / 8 == 7;
      assert index / 256 == 0 && index % 256 == index;
    }
  }

  lemma TwoBytes(p: Address, index: nat)
    requires 0 < index < 65536
    ensures WriteIndex(p, 6, index) == p[9 := Or8(p[9], index % 256)][8 := Or8(p[8], index / 256)]
  {
    var q: Address := p[9 := Or8(p[9], index % 256)];
    assert WriteIndex(p, 6, index) == WriteIndex(q, 7, index / 256);
    OrZero(p[8]);
    if index / 256 == 0 {
      assert q == q[8 := p[8]];
    } else {
      assert (index / 256) / 256 == 0 && (index / 256) % 256 == index / 256;
    }
  }

  /** Every subnet of a pool lies in one and the same /64: only bytes 8 and 9, behind the 64-bit network part
      (section 2.3 of RFC 4291), ever differ from the prefix. */
  lemma OneNetworkForAll(p: Address, prefixLen: int, index: nat)
    requires ValidLength(prefixLen) && index < MaxSubnets(prefixLen)
    ensures
      var a := WriteIndex(p, prefixLen / 8, index);
      a[..8] == p[..8] && a[10..] == p[10..] && (prefixLen >= 56 ==> a[9] == p[9])
  {
    WrittenBytes(p, prefixLen, index);
  }

  /** Reads the index back from an address whose prefix has zero bytes 8 and 9. */
  function Decode(a: Address, prefixLen: int): nat {
    if prefixLen < 56 then 256 * (a[8] as int) + a[9] as int else a[8] as int
  }

  lemma DecodeWritten(p: Address, prefixLen: int, index: nat)
    requires ValidLength(prefixLen) && index < MaxSubnets(prefixLen) && p[8] == 0 && p[9] == 0
    ensures Decode(WriteIndex(p, prefixLen / 8, index), prefixLen) == index
  {
    WrittenBytes(p, prefixLen, index);
    OrZero(index % 256);
    OrZero(index / 256);
    OrZero(index);
  }

  // ----- Exactly when a pool's addresses are distinct

  /** How many low bits of byte 8 an index of the pool can set. */
  function Byte8Bits(prefixLen: int): nat
    requires ValidLength(prefixLen)
  {
    if prefixLen < 56 then 56 - prefixLen else 64 - prefixLen
  }

  /** The k lowest bits of a number. */
  function LowBits(p: nat, k: nat): nat
    decreases k
  {
    if k == 0 then 0 else 2 * LowBits(p / 2, k - 1) + p % 2
  }

  lemma {:induction false} LowBitsFit(p: nat, k: nat)
    ensures LowBits(p, k) < Pow2(k) && LowBits(p, k) <= p && (p < Pow2(k) ==> LowBits(p, k) == p)
    decreases k
  {
    if k > 0 {
      LowBitsFit(p / 2, k - 1);
    }
  }

  /** The prefix leaves every bit an index can set at zero. */
  predicate Clear(p: Address, prefixLen: int)
    requires ValidLength(prefixLen)
  {
    (prefixLen < 56 ==> p[9] == 0) && LowBits(p[8], Byte8Bits(prefixLen)) == 0
  }

  /** OR into clear bits is addition. */
  lemma {:induction false} OrAdds(p: nat, x: nat, k: nat)
    requires LowBits(p, k) == 0 && x < Pow2(k)
    ensures BitOr(p, x) == p + x
    decreases k
  {
    if k == 0 {
      OrZero(p);
    } else if p + x > 0 {
      OrAdds(p / 2, x / 2, k - 1);
    }
  }

  /** OR with bits already there changes nothing. */
  lemma {:induction false} OrAbsorbs(p: nat, k: nat)
    ensures BitOr(p, LowBits(p, k)) == p
    decreases k
  {
    if k == 0 {
      OrZero(p);
    } else {
      OrAbsorbs(p / 2, k - 1);
    }
  }

  lemma {:induction false} Pow2Splits(m: nat, n: nat)
    ensures Pow2(m + n) == Pow2(m) * Pow2(n)
  {
    if n > 0 {
      Pow2Splits(m, n - 1);
      Pow2Doubles(m + n);
      Pow2Doubles(n);
      hide Pow2;
      TwiceFactor(Pow2(m), Pow2(n - 1));
    }
  }

  lemma Pow2Doubles(n: nat)
    requires n > 0
    ensures Pow2(n) == 2 * Pow2(n - 1)
  {
  }

  lemma TwiceFactor(x: nat, y: nat)
    ensures x * (2 * y) == 2 * (x * y)
  {
  }

  /** An index's part in byte 8 uses only the bits counted for it. */
  lemma PartsFit(prefixLen: int, index: nat)
    requires ValidLength(prefixLen)
    ensures index < MaxSubnets(prefixLen) <==>
              (if prefixLen < 56 then index / 256 else index) < Pow2(Byte8Bits(prefixLen))
  {
    if prefixLen < 56 {
      Pow2Of8And16();
      Pow2Splits(8, 56 - prefixLen);
    }
  }

  ghost predicate AllDistinct(p: Address, prefixLen: int)
    requires ValidLength(prefixLen)
  {
    forall i: nat, j: nat | i < MaxSubnets(prefixLen) && j < MaxSubnets(prefixLen) && i != j ::
      WriteIndex(p, prefixLen / 8, i) != WriteIndex(p, prefixLen / 8, j)
  }

  /** Over a clear prefix the written bytes are sums, so they give the index back. */
  lemma ClearIsSum(p: Address, prefixLen: int, index: nat)
    requires ValidLength(prefixLen) && Clear(p, prefixLen) && index < MaxSubnets(prefixLen)
    ensures
      var a := WriteIndex(p, prefixLen / 8, index);
      if prefixLen < 56 then a[9] == index % 256 && a[8] == p[8] + index / 256 else a[8] == p[8] + index
  {
    WrittenBytes(p, prefixLen, index);
    PartsFit(prefixLen, index);
    if prefixLen < 56 {
      OrAdds(p[8], index / 256, Byte8Bits(prefixLen));
      OrZero(index % 256);
    } else {
      OrAdds(p[8], index, Byte8Bits(prefixLen));
    }
  }

  lemma ClearIsInjective(p: Address, prefixLen: int, i: nat, j: nat)
    requires ValidLength(prefixLen) && Clear(p, prefixLen)
    requires i < MaxSubnets(prefixLen) && j < MaxSubnets(prefixLen)
    requires WriteIndex(p, prefixLen / 8, i) == WriteIndex(p, prefixLen / 8, j)
    ensures i == j
  {
    ClearIsSum(p, prefixLen, i);
    ClearIsSum(p, prefixLen, j);
  }

  /** An index made of bits the prefix already has changes nothing. */
  lemma BlockedIndex(p: Address, prefixLen: int) returns (i: nat)
    requires ValidLength(prefixLen) && !Clear(p, prefixLen)
    ensures 0 < i < MaxSubnets(prefixLen) && WriteIndex(p, prefixLen / 8, i) == p
  {
    if prefixLen >= 56 {
      i := BlockedShort(p, prefixLen);
    } else {
      i := BlockedLong(p, prefixLen);
    }
  }

  lemma LowBitsBlock(x: Byte, k: nat) returns (bits: Byte)
    ensures bits == LowBits(x, k) <= x && bits < Pow2(k) && Or8(x, bits) == x && (k == 8 ==> bits == x)
  {
    LowBitsFit(x, k);
    OrAbsorbs(x, k);
    Pow2Of8And16();
    bits := LowBits(x, k);
  }

  lemma Or8Zero(x: Byte)
    ensures Or8(x, 0) == x
  {
    OrZero(x);
  }

  lemma BlockedShort(p: Address, prefixLen: int) returns (i: nat)
    requires ValidLength(prefixLen) && !Clear(p, prefixLen) && prefixLen >= 56
    ensures 0 < i < MaxSubnets(prefixLen) && WriteIndex(p, prefixLen / 8, i) == p
  {
    hide LowBits, Or8, WriteIndex, Pow2;
    i := LowBitsBlock(p[8], Byte8Bits(prefixLen));
    PartsFit(prefixLen, i);
    WrittenBytes(p, prefixLen, i);
    assert p[8 := p[8]] == p;
  }

  lemma BlockedLong(p: Address, prefixLen: int) returns (i: nat)
    requires ValidLength(prefixLen) && !Clear(p, prefixLen) && prefixLen < 56
    ensures 0 < i < MaxSubnets(prefixLen) && WriteIndex(p, prefixLen / 8, i) == p
  {
    hide LowBits, Or8, WriteIndex, Pow2;
    var low := LowBitsBlock(p[9], 8);
    var high := LowBitsBlock(p[8], Byte8Bits(prefixLen));
    Or8Zero(p[9]);
    Or8Zero(p[8]);
    if p[9] != 0 {
      i := low;
      BlockedBy(p, prefixLen, i, low, 0);
    } else {
      i := 256 * (high as nat);
      BlockedBy(p, prefixLen, i, 0, high);
    }
  }

  lemma BlockedBy(p: Address, prefixLen: int, i: nat, low: Byte, high: Byte)
    requires ValidLength(prefixLen) && prefixLen < 56
    requires i == 256 * high + low && high < Pow2(Byte8Bits(prefixLen))
    requires Or8(p[9], low) == p[9] && Or8(p[8], high) == p[8]
    ensures i < MaxSubnets(prefixLen) && WriteIndex(p, prefixLen / 8, i) == p
  {
    assert i % 256 == low && i / 256 == high;
    hide Or8, WriteIndex;
    PartsFit(prefixLen, i);
    WrittenBytes(p, prefixLen, i);
    assert p[9 := p[9]][8 := p[8]] == p;
  }

  /** A pool hands out distinct addresses for distinct indexes if and only if its prefix has zeros in the bits
      an index can set. */
  lemma DistinctExactlyWhenClear(p: Address, prefixLen: int)
    requires ValidLength(prefixLen)
    ensures AllDistinct(p, prefixLen) <==> Clear(p, prefixLen)
  {
    if Clear(p, prefixLen) {
      forall i: nat, j: nat | i < MaxSubnets(prefixLen) && j < MaxSubnets(prefixLen) && i != j
        ensures WriteIndex(p, prefixLen / 8, i) != WriteIndex(p, prefixLen / 8, j)
      {
        if WriteIndex(p, prefixLen / 8, i) == WriteIndex(p, prefixLen / 8, j) {
          ClearIsInjective(p, prefixLen, i, j);
        }
      }
    } else {
      var i := BlockedIndex(p, prefixLen);
      assert WriteIndex(p, prefixLen / 8, 0) == p;
    }
  }
}
