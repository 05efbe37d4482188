/** How the generated code reads a field: the bit loop, the byte-load expression, the cast
    to the field's type, and the index mask of the eBPF variant. */
module Loads {
  import opened Bits
  import opened Ir
  import opened Semantics

  // ---- Loads ----

  /** Smallest of the unsigned types holding n bits. */
  function UintBits(n: nat): nat {
    if n <= 8 then 8 else if n <= 16 then 16 else if n <= 32 then 32 else 64
  }

  /** The cast of a loaded value to its field's type. */
  function Narrow(v: nat, n: nat): nat {
    v % Pow2(UintBits(n))
  }

  lemma NarrowKeeps(v: nat, n: nat)
    requires n <= 64 && v < Pow2(n)
    ensures Narrow(v, n) == v && v < TWO64
  {
    Pow2Mono(n, UintBits(n));
    Pow2Mono(n, 64);
    Pow2Small();
    SmallMod(v, Pow2(UintBits(n)));
  }

  lemma SmallMod(v: nat, p: nat)
    requires v < p
    ensures v % p == v
  {
    DivModUnique(v, p, 0, v);
  }

  /** Packet byte index: masked with 2^k - 1 in the eBPF variant. */
  function ByteIndex(i: nat, mask: Option<nat>): nat {
    if mask.None? then i else BitAnd(i, Pow2(mask.value) - 1)
  }

  /** Input length the variant is meant for: eBPF packets are no longer than its mask reaches. */
  predicate InContract(bitLen: nat, mask: Option<nat>) {
    mask.Some? ==> bitLen <= 8 * Pow2(mask.value)
  }

  lemma MaskIsDead(i: nat, bitLen: nat, mask: Option<nat>)
    requires InContract(bitLen, mask) && 8 * i < bitLen
    ensures ByteIndex(i, mask) == i
  {
    if mask.Some? {
      AndLowMask(i, mask.value);
      assert i < Pow2(mask.value);
      DivModUnique(i, Pow2(mask.value), 0, i);
    }
  }

  lemma ReadFits(pkt: Packet, off: nat, n: nat)
    requires off + n <= |pkt| && n <= 64
    ensures Read(pkt, off, n) < TWO64
  {
    ReadBound(pkt, off, n);
    Pow2Mono(n, 64);
    Pow2Small();
  }

  /** Or-ing in the next byte below a shifted value. */
  lemma {:induction false} OrNextByte(x: nat, b: byte, s: nat, t: nat)
    requires t == s + 8
    ensures BitOr(ShiftLeft(x, t), ShiftLeft(b, s)) == ShiftLeft(x * 256 + b, s)
    decreases s
  {
    if s == 0 {
      assert Pow2(8) == 256;
      ShiftLeftIsProduct(x, 8);
      OrDisjoint(x, b, 8);
    } else {
      OrNextByte(x, b, s - 1, t - 1);
      OrHalves(ShiftLeft(x, t), ShiftLeft(b, s));
    }
  }

  /** The whole bytes of pkt are found in buf under the variant's index. */
  ghost predicate HoldsBytes(buf: seq<byte>, mask: Option<nat>, pkt: Packet) {
    forall i: nat | 8 * i + 8 <= |pkt| :: ByteIndex(i, mask) < |buf| && buf[ByteIndex(i, mask)] == ByteAt(pkt, i)
  }

  /** So are its bits. */
  ghost predicate HoldsBits(buf: seq<byte>, mask: Option<nat>, pkt: Packet) {
    forall pos: nat | pos < |pkt| ::
      ByteIndex(pos / 8, mask) < |buf| && pkt[pos] == BitSet(buf[ByteIndex(pos / 8, mask)], 7 - pos % 8)
  }

  lemma BufferHolds(buf: seq<byte>, bitLen: nat, mask: Option<nat>)
    requires bitLen <= 8 * |buf| && InContract(bitLen, mask)
    ensures HoldsBytes(buf, mask, PacketOf(buf, bitLen))
    ensures HoldsBits(buf, mask, PacketOf(buf, bitLen))
  {
    forall i: nat | 8 * i + 8 <= bitLen
      ensures ByteIndex(i, mask) < |buf| && buf[ByteIndex(i, mask)] == ByteAt(PacketOf(buf, bitLen), i)
    {
      MaskIsDead(i, bitLen, mask);
      ReadAlignedByte(buf, bitLen, i);
    }
    forall pos: nat | pos < bitLen
      ensures ByteIndex(pos / 8, mask) < |buf|
      ensures PacketOf(buf, bitLen)[pos] == BitSet(buf[ByteIndex(pos / 8, mask)], 7 - pos % 8)
    {
      MaskIsDead(pos / 8, bitLen, mask);
    }
  }

  /** Or-ing a bit into an even number. */
  lemma OrBit(x: nat, b: nat)
    requires b < 2
    ensures BitOr(2 * x, b) == 2 * x + b
  {
    assert Pow2(1) == 2;
    OrDisjoint(x, b, 1);
  }

  /** The bit loop: shift in one bit of the buffer at a time. */
  method ReadBits(buf: seq<byte>, mask: Option<nat>, off: nat, n: nat, ghost pkt: Packet) returns (v: u64)
    requires HoldsBits(buf, mask, pkt) && off + n <= |pkt| && n <= 64
    ensures v == Read(pkt, off, n)
  {
    hide BitOr, ByteIndex, ShiftRight;
    v := 0;
    var i := 0;
    while i < n
      invariant i <= n && v == Read(pkt, off, i)
    {
      var pos := off + i;
      ReadFits(pkt, off, i + 1);
      OrBit(v, if pkt[pos] then 1 else 0);
      assert pkt[pos] == BitSet(buf[ByteIndex(pos / 8, mask)], 7 - pos % 8);
      var bit := ShiftRight(buf[ByteIndex(pos / 8, mask)], 7 - pos % 8) % 2;
      v := BitOr(Wrap(2 * v), bit);
      i := i + 1;
    }
  }

  predicate InBuffer(buf: seq<byte>, mask: Option<nat>, first: nat, end: nat) {
    forall i | first <= i < end :: ByteIndex(i, mask) < |buf|
  }

  /** The load expression: bytes first .. end or-ed together, the last shifted by s. */
  function LoadBytes(buf: seq<byte>, mask: Option<nat>, first: nat, end: nat, s: nat): nat
    requires InBuffer(buf, mask, first, end)
    decreases end
  {
    if end <= first then 0
    else BitOr(LoadBytes(buf, mask, first, end - 1, s + 8), ShiftLeft(buf[ByteIndex(end - 1, mask)], s))
  }

  /** What the emitted byte load of n bits at cursor cur stores, aligned or not. */
  function Loaded(buf: seq<byte>, mask: Option<nat>, cur: nat, n: nat): nat
    requires InBuffer(buf, mask, cur / 8, cur / 8 + n / 8)
  {
    Narrow(LoadBytes(buf, mask, cur / 8, cur / 8 + n / 8, 0), n)
  }

  lemma {:induction false} LoadBytesValue(buf: seq<byte>, mask: Option<nat>, pkt: Packet, first: nat, k: nat, s: nat)
    requires HoldsBytes(buf, mask, pkt) && 8 * (first + k) <= |pkt|
    ensures InBuffer(buf, mask, first, first + k)
    ensures LoadBytes(buf, mask, first, first + k, s) == ShiftLeft(ByteRun(pkt, first, k), s)
    decreases k
  {
    hide BitOr, ShiftLeft, Read, Pow2, ByteIndex;
    if k > 0 {
      LoadBytesValue(buf, mask, pkt, first, k - 1, s + 8);
      hide HoldsBytes;
      HeldByte(buf, mask, pkt, first + k - 1);
      OrNextByte(ByteRun(pkt, first, k - 1), ByteAt(pkt, first + k - 1), s, s + 8);
    } else {
      ShiftLeftIsProduct(0, s);
    }
  }

  lemma HeldByte(buf: seq<byte>, mask: Option<nat>, pkt: Packet, i: nat)
    requires HoldsBytes(buf, mask, pkt) && 8 * i + 8 <= |pkt|
    ensures ByteIndex(i, mask) < |buf| && buf[ByteIndex(i, mask)] == ByteAt(pkt, i)
  {
  }

  /** At an aligned cursor the load expression is the bit-wise value. */
  lemma LoadIsRead(buf: seq<byte>, mask: Option<nat>, pkt: Packet, off: nat, n: nat, i: nat, k: nat)
    requires HoldsBytes(buf, mask, pkt) && off == 8 * i && n == 8 * k && off + n <= |pkt|
    ensures InBuffer(buf, mask, i, i + k) && LoadBytes(buf, mask, i, i + k, 0) == Read(pkt, off, n)
  {
    LoadBytesValue(buf, mask, pkt, i, k, 0);
    ReadBytes(pkt, off, n, i, k);
    assert ShiftLeft(ByteRun(pkt, i, k), 0) == ByteRun(pkt, i, k);
  }
}
