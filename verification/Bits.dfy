/** Unsigned 64-bit arithmetic on natural numbers, bit strings read MSB first,
    and the two ways the generated code loads a field from bytes. */
module Bits {

  const TWO64: nat := 0x1_0000_0000_0000_0000

  type byte = b: int | 0 <= b < 256

  type u64 = v: int | 0 <= v < TWO64

  /** Arithmetic of the IR is modulo 2^64. */
  function Wrap(x: int): (r: u64)
    ensures 0 <= x < TWO64 ==> r == x
  {
    x % TWO64
  }

  function Pow2(n: nat): (r: nat)
    ensures r >= 1
  {
    if n == 0 then 1 else 2 * Pow2(n - 1)
  }

  lemma {:induction false} Pow2Add(a: nat, b: nat)
    ensures Pow2(a + b) == Pow2(a) * Pow2(b)
    decreases b
  {
    if b > 0 {
      Pow2Add(a, b - 1);
      assert a + b - 1 == a + (b - 1);
      assert Pow2(a) * (2 * Pow2(b - 1)) == 2 * (Pow2(a) * Pow2(b - 1));
    }
  }

  lemma {:induction false} Pow2Mono(a: nat, b: nat)
    requires a <= b
    ensures Pow2(a) <= Pow2(b)
    decreases b
  {
    if a < b {
      Pow2Mono(a, b - 1);
    }
  }

  lemma Pow2Small()
    ensures Pow2(1) == 2 && Pow2(2) == 4 && Pow2(3) == 8 && Pow2(4) == 16 && Pow2(5) == 32
    ensures Pow2(6) == 64 && Pow2(7) == 128 && Pow2(8) == 256 && Pow2(16) == 65536
    ensures Pow2(24) == 0x100_0000 && Pow2(32) == 0x1_0000_0000
    ensures Pow2(64) == TWO64
  {
    assert Pow2(8) == 256;
    Pow2Add(8, 8);
    Pow2Add(16, 8);
    Pow2Add(16, 16);
    Pow2Add(32, 32);
  }

  // ---- Bitwise operators on naturals ----

  function BitAnd(a: nat, b: nat): (r: nat)
    ensures r <= a && r <= b
  {
    if a == 0 || b == 0 then 0
    else 2 * BitAnd(a / 2, b / 2) + (if a % 2 == 1 && b % 2 == 1 then 1 else 0)
  }

  function BitOr(a: nat, b: nat): (r: nat)
    ensures a <= r && b <= r && r <= a + b
    decreases a + b
  {
    if a == 0 then b
    else if b == 0 then a
    else 2 * BitOr(a / 2, b / 2) + (if a % 2 == 1 || b % 2 == 1 then 1 else 0)
  }

  lemma AndMaskStep(x: nat, p: nat)
    requires p >= 1 && BitAnd(x / 2, p - 1) == x / 2 % p
    ensures BitAnd(x, 2 * p - 1) == x % (2 * p)
  {
    hide BitAnd;
    var m := 2 * p - 1;
    assert m / 2 == p - 1 && m % 2 == 1;
    AndHalves(x, m);
    ModDouble(x, p);
  }

  /** Masking with 2^k - 1 keeps the low k bits. */
  lemma {:induction false} AndLowMask(x: nat, k: nat)
    ensures BitAnd(x, Pow2(k) - 1) == x % Pow2(k)
    decreases k
  {
    hide BitAnd;
    if k == 0 {
      AndZero(x);
    } else {
      AndLowMask(x / 2, k - 1);
      AndMaskStep(x, Pow2(k - 1));
    }
  }

  lemma AndZero(x: nat)
    ensures BitAnd(x, Pow2(0) - 1) == x % Pow2(0)
  {
  }

  lemma ModDouble(x: nat, p: nat)
    requires p >= 1
    ensures x % (2 * p) == 2 * ((x / 2) % p) + x % 2
  {
    var q, r := (x / 2) / p, (x / 2) % p;
    assert x / 2 == q * p + r;
    assert x == 2 * (q * p + r) + x % 2;
    assert 2 * (q * p + r) == (2 * p) * q + 2 * r;
    DivModUnique(x, 2 * p, q, 2 * r + x % 2);
  }

  lemma ModAtMost(x: nat, p: nat)
    requires p >= 1
    ensures 0 <= x % p <= x && x % p < p
  {
  }

  lemma MulGrows(d: int, e: int)
    requires d > 0 && e >= 1
    ensures d * e >= d
  {
    assert d * e == d * (e - 1) + d;
  }

  lemma MulSmall(d: int, e: int)
    requires d > 0 && -d < d * e < d
    ensures e == 0
  {
    if e >= 1 {
      MulGrows(d, e);
    } else if e <= -1 {
      MulGrows(d, -e);
    }
  }

  lemma DivModUnique(x: int, d: int, q: int, r: int)
    requires d > 0 && 0 <= r < d && x == d * q + r
    ensures x / d == q && x % d == r
  {
    var q', r' := x / d, x % d;
    assert x == d * q' + r';
    assert d * (q - q') == d * q - d * q';
    MulSmall(d, q - q');
  }

  lemma LowSplit(x: nat, p: nat)
    requires p >= 1
    ensures (x % (2 * p)) / 2 == (x / 2) % p && (x % (2 * p)) % 2 == x % 2
  {
    ModDouble(x, p);
  }

  lemma AndHalves(a: nat, b: nat)
    ensures BitAnd(a, b) / 2 == BitAnd(a / 2, b / 2)
    ensures BitAnd(a, b) % 2 == if a % 2 == 1 && b % 2 == 1 then 1 else 0
  {
  }

  lemma OrHalves(a: nat, b: nat)
    ensures BitOr(a, b) / 2 == BitOr(a / 2, b / 2)
    ensures BitOr(a, b) % 2 == if a % 2 == 1 || b % 2 == 1 then 1 else 0
  {
  }

  lemma SameHalves(x: nat, y: nat)
    requires x / 2 == y / 2 && x % 2 == y % 2
    ensures x == y
  {
  }

  /** The low k bits of a conjunction depend only on the low k bits of its operands. */
  lemma {:induction false} AndLowBits(a: nat, b: nat, k: nat)
    ensures BitAnd(a, b) % Pow2(k) == BitAnd(a % Pow2(k), b % Pow2(k))
    decreases k
  {
    hide BitAnd;
    if k == 0 {
      ZeroAnd();
    } else {
      var p := Pow2(k - 1);
      AndLowBits(a / 2, b / 2, k - 1);
      LowSplit(a, p);
      LowSplit(b, p);
      LowSplit(BitAnd(a, b), p);
      AndHalves(a, b);
      AndHalves(a % Pow2(k), b % Pow2(k));
      SameHalves(BitAnd(a, b) % Pow2(k), BitAnd(a % Pow2(k), b % Pow2(k)));
    }
  }

  lemma ZeroAnd()
    ensures BitAnd(0, 0) == 0
  {
  }

  lemma {:induction false} OrLowBits(a: nat, b: nat, k: nat)
    ensures BitOr(a, b) % Pow2(k) == BitOr(a % Pow2(k), b % Pow2(k))
    decreases k
  {
    hide BitOr;
    if k == 0 {
      ZeroOr();
    } else {
      var p := Pow2(k - 1);
      OrLowBits(a / 2, b / 2, k - 1);
      LowSplit(a, p);
      LowSplit(b, p);
      LowSplit(BitOr(a, b), p);
      OrHalves(a, b);
      OrHalves(a % Pow2(k), b % Pow2(k));
      SameHalves(BitOr(a, b) % Pow2(k), BitOr(a % Pow2(k), b % Pow2(k)));
    }
  }

  lemma ZeroOr()
    ensures BitOr(0, 0) == 0
  {
  }

  /** Or-ing disjoint bit ranges adds them. */
  lemma {:induction false} OrDisjoint(x: nat, y: nat, k: nat)
    requires y < Pow2(k)
    ensures BitOr(x * Pow2(k), y) == x * Pow2(k) + y
    decreases k
  {
    if k == 0 || x == 0 || y == 0 {
    } else {
      var p := Pow2(k - 1);
      assert x * Pow2(k) == 2 * (x * p);
      assert (2 * (x * p)) / 2 == x * p;
      OrDisjoint(x, y / 2, k - 1);
    }
  }

  // ---- Bit strings ----

  type Packet = seq<bool>

  /** Big-endian, MSB-first value of n bits starting at bit off. */
  function Read(pkt: Packet, off: nat, n: nat): (r: nat)
    requires off + n <= |pkt|
    decreases n
  {
    if n == 0 then 0
    else 2 * Read(pkt, off, n - 1) + (if pkt[off + n - 1] then 1 else 0)
  }

  lemma {:induction false} ReadBound(pkt: Packet, off: nat, n: nat)
    requires off + n <= |pkt|
    ensures Read(pkt, off, n) < Pow2(n)
    decreases n
  {
    if n > 0 {
      ReadBound(pkt, off, n - 1);
    }
  }

  lemma {:induction false} ReadSplit(pkt: Packet, off: nat, a: nat, b: nat)
    requires off + a + b <= |pkt|
    ensures Read(pkt, off, a + b) == Read(pkt, off, a) * Pow2(b) + Read(pkt, off + a, b)
    decreases b
  {
    if b > 0 {
      ReadSplit(pkt, off, a, b - 1);
      assert a + b - 1 == a + (b - 1);
      var bit := if pkt[off + a + b - 1] then 1 else 0;
      assert Read(pkt, off, a + b) == 2 * Read(pkt, off, a + (b - 1)) + bit;
      assert Read(pkt, off + a, b) == 2 * Read(pkt, off + a, b - 1) + bit;
      TwiceProduct(Read(pkt, off, a), Pow2(b - 1));
    } else {
      assert Read(pkt, off, a) * Pow2(0) == Read(pkt, off, a);
    }
  }

  lemma TwiceProduct(x: nat, p: nat)
    ensures x * (2 * p) == 2 * (x * p)
  {
  }

  lemma {:induction false} ReadPrefix(p: Packet, q: Packet, off: nat, n: nat)
    requires off + n <= |p| && p <= q
    ensures Read(p, off, n) == Read(q, off, n)
    decreases n
  {
    if n > 0 {
      ReadPrefix(p, q, off, n - 1);
    }
  }

  /** x << k, one doubling at a time. */
  function ShiftLeft(x: nat, k: nat): nat {
    if k == 0 then x else 2 * ShiftLeft(x, k - 1)
  }

  lemma {:induction false} ShiftLeftIsProduct(x: nat, k: nat)
    ensures ShiftLeft(x, k) == x * Pow2(k)
    decreases k
  {
    if k > 0 {
      ShiftLeftIsProduct(x, k - 1);
      TwiceProduct(x, Pow2(k - 1));
    }
  }

  /** b >> k, one halving at a time. */
  function ShiftRight(b: nat, k: nat): (r: nat)
    ensures r <= b
  {
    if k == 0 then b else ShiftRight(b, k - 1) / 2
  }

  lemma {:induction false} ShiftRightDivides(x: nat, k: nat)
    ensures ShiftRight(x, k) == x / Pow2(k)
    decreases k
  {
    if k > 0 {
      ShiftRightDivides(x, k - 1);
      HalfOfQuotient(x, Pow2(k - 1));
    }
  }

  lemma HalfOfQuotient(x: nat, p: nat)
    requires p > 0
    ensures x / p / 2 == x / (2 * p)
  {
    var q := x / p;
    assert x == p * q + x % p;
    assert p * q == p * (2 * (q / 2)) + p * (q % 2);
    assert p * (2 * (q / 2)) == (2 * p) * (q / 2);
    DivModUnique(x, 2 * p, q / 2, p * (q % 2) + x % p);
  }

  lemma ShiftByThree(x: nat)
    ensures ShiftRight(x, 3) == x / 8
  {
    assert Pow2(3) == 8;
    ShiftRightDivides(x, 3);
  }

  predicate BitSet(b: byte, k: nat) {
    ShiftRight(b, k) % 2 == 1
  }

  /** The first bitLen bits of a buffer. */
  function PacketOf(buf: seq<byte>, bitLen: nat): (pkt: Packet)
    requires bitLen <= 8 * |buf|
    ensures |pkt| == bitLen
  {
    seq(bitLen, i requires 0 <= i < bitLen => BitSet(buf[i / 8], 7 - i % 8))
  }

  /** Bit k of a packet cut from a buffer. */
  lemma PacketBit(buf: seq<byte>, bitLen: nat, i: nat, k: nat)
    requires bitLen <= 8 * |buf| && k < 8 && 8 * i + k < bitLen
    ensures i < |buf| && PacketOf(buf, bitLen)[8 * i + k] == BitSet(buf[i], 7 - k)
  {
    assert (8 * i + k) / 8 == i && (8 * i + k) % 8 == k;
  }

  /** Reading the top k bits of one byte shifts the rest away. */
  lemma {:induction false} ReadInByte(buf: seq<byte>, bitLen: nat, i: nat, k: nat)
    requires bitLen <= 8 * |buf| && i < |buf| && k <= 8 && 8 * i + k <= bitLen
    ensures Read(PacketOf(buf, bitLen), 8 * i, k) == ShiftRight(buf[i], 8 - k)
    decreases k
  {
    if k == 0 {
      assert ShiftRight(buf[i], 2) < 64;
      assert ShiftRight(buf[i], 4) < 16;
      assert ShiftRight(buf[i], 6) < 4;
      assert ShiftRight(buf[i], 8) == 0;
    } else {
      ReadInByte(buf, bitLen, i, k - 1);
      PacketBit(buf, bitLen, i, k - 1);
    }
  }

  lemma ReadAlignedByte(buf: seq<byte>, bitLen: nat, i: nat)
    requires bitLen <= 8 * |buf| && 8 * i + 8 <= bitLen
    ensures i < |buf| && Read(PacketOf(buf, bitLen), 8 * i, 8) == buf[i]
  {
    ReadInByte(buf, bitLen, i, 8);
  }

  // ---- Whole bytes ----

  /** Byte j of a bit string. */
  function ByteAt(pkt: Packet, j: nat): (b: byte)
    requires 8 * j + 8 <= |pkt|
  {
    ReadBound(pkt, 8 * j, 8);
    assert Pow2(8) == 256;
    Read(pkt, 8 * j, 8)
  }

  /** The whole bytes of a bit string; trailing bits of an incomplete byte are dropped. */
  function BytesOf(pkt: Packet): (s: seq<byte>)
    ensures |s| == |pkt| / 8
  {
    seq(|pkt| / 8, j requires 0 <= j < |pkt| / 8 => ByteAt(pkt, j))
  }

  /** Big-endian value of bytes i .. i+k of a bit string. */
  function ByteRun(pkt: Packet, i: nat, k: nat): (r: nat)
    requires 8 * (i + k) <= |pkt|
    decreases k
  {
    if k == 0 then 0 else ByteRun(pkt, i, k - 1) * 256 + ByteAt(pkt, i + k - 1)
  }

  lemma ReadOneMoreByte(pkt: Packet, off: nat, n: nat, n': nat, j: nat)
    requires n' == n + 8 && off + n == 8 * j && off + n' <= |pkt|
    ensures Read(pkt, off, n') == Read(pkt, off, n) * 256 + ByteAt(pkt, j)
  {
    ReadSplit(pkt, off, n, 8);
    assert Pow2(8) == 256;
  }

  /** A whole-byte run at an aligned cursor has the big-endian value of its bytes. */
  lemma {:induction false} ReadBytes(pkt: Packet, off: nat, n: nat, i: nat, k: nat)
    requires off == 8 * i && n == 8 * k && off + n <= |pkt|
    ensures Read(pkt, off, n) == ByteRun(pkt, i, k)
    decreases k
  {
    if k > 0 {
      ReadBytes(pkt, off, n - 8, i, k - 1);
      ReadOneMoreByte(pkt, off, n - 8, n, i + k - 1);
    }
  }

  /** The bytes of a packet cut from a buffer are the buffer's bytes. */
  lemma BytesOfPacket(buf: seq<byte>, bitLen: nat)
    requires bitLen <= 8 * |buf|
    ensures BytesOf(PacketOf(buf, bitLen)) == buf[..bitLen / 8]
  {
    forall j | 0 <= j < bitLen / 8
      ensures BytesOf(PacketOf(buf, bitLen))[j] == buf[j]
    {
      ReadAlignedByte(buf, bitLen, j);
    }
  }
}
