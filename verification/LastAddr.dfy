/** The last address of an IPv4 prefix, which the program computes in two ways. */
module LastAddr {

  import opened Bits
  import opened Cidr

  const UINT32 := 0x1_0000_0000

  /** Go's `uint32(1) << n`: zero once the bit is shifted out. */
  function ShiftOne32(n: nat): nat {
    if n >= 32 then 0 else Pow2(n)
  }

  /** `lastAddr` of the API package, in wrapping 32-bit arithmetic: at length 0 the size is 0. */
  function LastAddr32(p: Prefix): Addr
    requires p.addr.is4
  {
    Addr(true, (Base(p) + ShiftOne32(32 - p.bits) - 1) % UINT32)
  }

  lemma LastAddr32IsLast(p: Prefix)
    requires p.addr.is4
    ensures LastAddr32(p) == Addr(true, Base(p) + Size(p) - 1)
  {
    Pow2Constants();
    BlockAligned(p);
    if p.bits == 0 {
      assert Base(p) == 0;
    }
  }

  predicate ValidBytes(b: seq<nat>) {
    |b| == 4 && b[0] < 0x100 && b[1] < 0x100 && b[2] < 0x100 && b[3] < 0x100
  }

  /** Big-endian value of four bytes. */
  function Bytes(b: seq<nat>): nat
    requires |b| == 4
  {
    b[0] * 0x100_0000 + b[1] * 0x1_0000 + b[2] * 0x100 + b[3]
  }

  /** `b |= 1 << k` on one byte. */
  function SetBit(b: nat, k: nat): nat {
    if b / Pow2(k) % 2 == 1 then b else b + Pow2(k)
  }

  /** Byte `3 - j` carries bit `8*j + k` of the whole address as its bit `k`. */
  lemma BitOfByte(b: seq<nat>, j: nat, k: nat)
    requires ValidBytes(b) && j < 4 && k < 8
    ensures b[3 - j] / Pow2(k) % 2 == Bytes(b) / Pow2(8 * j + k) % 2
  {
    Pow2Add(8 * j, k);
    ByteAt(b, j);
    ByteSplit(k);
    BitOfQuotient(Bytes(b), Pow2(8 * j), b[3 - j], Pow2(k), Pow2(7 - k));
  }

  lemma BitOfQuotient(v: nat, d: nat, y: nat, e: nat, f: nat)
    requires d > 0 && e > 0 && e * (2 * f) == 0x100 && v / d == 0x100 * (v / d / 0x100) + y
    ensures d * e > 0 && v / (d * e) % 2 == y / e % 2
  {
    DivDiv(v, d, e);
    BitBelowByte(v / d / 0x100, y, e, f);
  }

  lemma ByteAt(b: seq<nat>, j: nat)
    requires ValidBytes(b) && j < 4
    ensures Bytes(b) / Pow2(8 * j) == 0x100 * (Bytes(b) / Pow2(8 * j) / 0x100) + b[3 - j]
  {
    Pow2Constants();
    var v := Bytes(b);
    if j == 0 {
      QuotientUnique(v, 0x100, b[0] * 0x1_0000 + b[1] * 0x100 + b[2], b[3]);
    } else if j == 1 {
      QuotientUnique(v, 0x100, b[0] * 0x1_0000 + b[1] * 0x100 + b[2], b[3]);
      QuotientUnique(v / 0x100, 0x100, b[0] * 0x100 + b[1], b[2]);
    } else if j == 2 {
      QuotientUnique(v, 0x1_0000, b[0] * 0x100 + b[1], b[2] * 0x100 + b[3]);
      QuotientUnique(v / 0x1_0000, 0x100, b[0], b[1]);
    } else {
      QuotientUnique(v, 0x100_0000, b[0], b[1] * 0x1_0000 + b[2] * 0x100 + b[3]);
    }
  }

  lemma ByteSplit(k: nat)
    requires k < 8
    ensures Pow2(k) * (2 * Pow2(7 - k)) == 0x100
  {
    Pow2Constants();
    Pow2Add(k, 8 - k);
  }

  lemma BitBelowByte(u: nat, y: nat, d: nat, e: nat)
    requires d * (2 * e) == 0x100 && d > 0
    ensures (0x100 * u + y) / d % 2 == y / d % 2
  {
    var q, r := y / d, y % d;
    Regroup(d, 2 * e, u, q);
    QuotientUnique(0x100 * u + y, d, 2 * e * u + q, r);
    EvenPlus(e, u, q);
  }

  lemma Regroup(d: nat, e: nat, u: nat, q: nat)
    ensures (d * e) * u + d * q == d * (e * u + q)
  {
    assert (d * e) * u == d * (e * u);
  }

  lemma EvenPlus(e: nat, u: nat, q: nat)
    ensures (2 * e * u + q) % 2 == q % 2
  {
    var w := e * u;
    assert 2 * e * u == 2 * w;
  }

  /** Setting a clear bit adds its weight and stays inside the byte. */
  lemma SetClearBit(b: nat, k: nat)
    requires b < 0x100 && k < 8 && b / Pow2(k) % 2 == 0
    ensures SetBit(b, k) == b + Pow2(k) < 0x100
  {
    ByteSplit(k);
    ClearBitRoom(b, Pow2(k), Pow2(7 - k));
  }

  lemma ClearBitRoom(b: nat, d: nat, e: nat)
    requires d * (2 * e) == 0x100 && d > 0 && b < 0x100 && b / d % 2 == 0
    ensures b + d < 0x100
  {
    BlockFits(b, d, 2 * e);
    MulMonotone(d, b / d + 2, 2 * e);
    assert d * (b / d + 2) == d * (b / d) + 2 * d;
  }

  /** Bit `i` of a multiple of 2^host with all bits below `i` set is clear. */
  lemma HostBitClear(h: nat, host: nat, i: nat)
    requires i < host
    ensures (Pow2(host) * h + Pow2(i) - 1) / Pow2(i) % 2 == 0
  {
    var d, c := Pow2(i), Pow2(host - i - 1);
    Pow2Add(i, host - i);
    Regroup(d, 2 * c, h, 0);
    QuotientUnique(Pow2(host) * h + d - 1, d, 2 * c * h, d - 1);
    EvenPlus(c, h, 0);
  }

  /** Raising byte `3 - j` by `x` raises the address by `x` times the byte's weight. */
  lemma RaiseByte(b: seq<nat>, j: nat, x: nat)
    requires |b| == 4 && j < 4
    ensures Bytes(b[3 - j := b[3 - j] + x]) == Bytes(b) + x * ByteWeight(j)
  {
  }

  function ByteWeight(j: nat): nat {
    if j == 0 then 1 else if j == 1 then 0x100 else if j == 2 then 0x1_0000 else 0x100_0000
  }

  lemma BitWeight(j: nat, k: nat)
    requires j < 4
    ensures Pow2(8 * j + k) == Pow2(k) * ByteWeight(j)
  {
    Pow2Constants();
    Pow2Add(8 * j, k);
  }

  /** One round of the loop: the next host bit is clear, and setting it adds its weight. */
  lemma SetHostBit(b: seq<nat>, base: nat, host: nat, j: nat, k: nat)
    requires ValidBytes(b) && j < 4 && k < 8 && 8 * j + k < host
    requires base == Pow2(host) * (base / Pow2(host)) && Bytes(b) == base + Pow2(8 * j + k) - 1
    ensures ValidBytes(b[3 - j := SetBit(b[3 - j], k)])
    ensures Bytes(b[3 - j := SetBit(b[3 - j], k)]) == base + Pow2(8 * j + k + 1) - 1
  {
    assert SetBit(b[3 - j], k) == b[3 - j] + Pow2(k) < 0x100 by {
      HostBitClear(base / Pow2(host), host, 8 * j + k);
      BitOfByte(b, j, k);
      SetClearBit(b[3 - j], k);
    }
    RaiseByte(b, j, Pow2(k));
    BitWeight(j, k);
  }

  /** `As4`: the four bytes of an IPv4 address. */
  function ToBytes(v: nat): (b: seq<nat>)
    requires v < UINT32
    ensures ValidBytes(b) && Bytes(b) == v
  {
    var hi, lo := v / 0x1_0000, v % 0x1_0000;
    [hi / 0x100, hi % 0x100, lo / 0x100, lo % 0x100]
  }

  lemma MaskedValue(p: Prefix)
    requires p.addr.is4
    ensures Base(p) < UINT32 && Base(p) == Size(p) * (Base(p) / Size(p))
    ensures LastAddr32(p).value == Base(p) + Size(p) - 1
  {
    Pow2Constants();
    BlockAligned(p);
    LastAddr32IsLast(p);
    QuotientUnique(Base(p), Size(p), p.addr.value / Size(p), 0);
  }

  /** `lastAddr` of the CIDR package: set the host bits one at a time in the four bytes. */
  method LastAddrBytes(p: Prefix) returns (last: Addr)
    requires p.addr.is4
    ensures last == LastAddr32(p)
  {
    MaskedValue(p);
    var base := Base(p);
    var bytes := ToBytes(base);
    var a4 := new nat[4];
    a4[0], a4[1], a4[2], a4[3] := bytes[0], bytes[1], bytes[2], bytes[3];
    assert a4[..] == bytes;
    var hostBits := 32 - p.bits;
    for i := 0 to hostBits
      invariant ValidBytes(a4[..]) && Bytes(a4[..]) == base + Pow2(i) - 1
    {
      var byteIdx, bitIdx := 3 - i / 8, i % 8;
      ghost var before, j := a4[..], i / 8;
      assert i == 8 * j + bitIdx;
      SetHostBit(before, base, hostBits, j, bitIdx);
      a4[byteIdx] := SetBit(a4[byteIdx], bitIdx);
      assert a4[..] == before[byteIdx := SetBit(before[byteIdx], bitIdx)];
    }
    last := Addr(true, Bytes(a4[..]));
  }
}
