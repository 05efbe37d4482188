/** The 64-bit verdict word the eBPF entry point returns and its decoding. */
module Verdict {
  import opened Bits
  import opened Ir
  import opened Loads

  /** Reject codes of the generated enum: six built-in reasons, then the authored ones from 16. */
  function ReasonCode(r: Option<Reason>): nat {
    match r
    case None => 0
    case Some(OutOfBounds) => 1
    case Some(MaxDepthExceeded) => 2
    case Some(NoMatchingArm) => 3
    case Some(OutOfRegionBounds) => 4
    case Some(RegionOutOfBounds) => 5
    case Some(RegionNotExhausted) => 6
    case Some(Authored(code)) => 16 + code
  }

  datatype Fields = Fields(outcome: nat, reason: nat, consumed: nat)

  /** outcome is a byte and reason 16 bits wide in the result struct. */
  function Pack(outcome: nat, reason: nat, consumed: u64): nat {
    BitOr(BitOr(Wrap(ShiftLeft(outcome, 56)), Wrap(ShiftLeft(reason, 48))), BitAnd(consumed, Pow2(48) - 1))
  }

  /** What the conformance harness takes out of a verdict. */
  function Unpack(word: nat): Fields {
    Fields(ShiftRight(word, 56) % 256, ShiftRight(word, 48) % 256, BitAnd(word, Pow2(48) - 1))
  }

  lemma {:induction false} OrShifted(x: nat, y: nat, k: nat)
    ensures BitOr(ShiftLeft(x, k), ShiftLeft(y, k)) == ShiftLeft(BitOr(x, y), k)
    decreases k
  {
    if k > 0 {
      OrShifted(x, y, k - 1);
      OrHalves(ShiftLeft(x, k), ShiftLeft(y, k));
    }
  }

  lemma {:induction false} ShiftLeftMore(x: nat, j: nat, k: nat)
    ensures ShiftLeft(x, j + k) == ShiftLeft(ShiftLeft(x, j), k)
    decreases k
  {
    if k > 0 {
      assert j + k - 1 == j + (k - 1);
      ShiftLeftMore(x, j, k - 1);
    }
  }

  lemma {:induction false} ShiftRightMore(x: nat, j: nat, k: nat)
    ensures ShiftRight(x, j + k) == ShiftRight(ShiftRight(x, j), k)
    decreases k
  {
    if k > 0 {
      assert j + k - 1 == j + (k - 1);
      ShiftRightMore(x, j, k - 1);
    }
  }

  lemma HighAndLow(x: nat, y: nat, k: nat)
    requires y < Pow2(k)
    ensures ShiftRight(ShiftLeft(x, k) + y, k) == x && (ShiftLeft(x, k) + y) % Pow2(k) == y
  {
    ShiftLeftIsProduct(x, k);
    assert x * Pow2(k) == Pow2(k) * x;
    DivModUnique(ShiftLeft(x, k) + y, Pow2(k), x, y);
    ShiftRightDivides(ShiftLeft(x, k) + y, k);
  }

  /** The high half of an or with a shifted operand, and its low half. */
  lemma OrHigh(x: nat, y: nat, k: nat)
    ensures ShiftRight(BitOr(ShiftLeft(x, k), y), k) == BitOr(x, ShiftRight(y, k))
    ensures BitOr(ShiftLeft(x, k), y) % Pow2(k) == y % Pow2(k)
  {
    OrThenShift(ShiftLeft(x, k), y, k);
    HighAndLow(x, 0, k);
    OrLowBits(ShiftLeft(x, k), y, k);
  }

  lemma {:induction false} OrThenShift(x: nat, y: nat, k: nat)
    ensures ShiftRight(BitOr(x, y), k) == BitOr(ShiftRight(x, k), ShiftRight(y, k))
    decreases k
  {
    if k > 0 {
      OrThenShift(x, y, k - 1);
      OrHalves(ShiftRight(x, k - 1), ShiftRight(y, k - 1));
    }
  }

  lemma ShiftFits(x: nat, k: nat, n: nat)
    requires x < Pow2(n) && n + k <= 64
    ensures ShiftLeft(x, k) < TWO64
  {
    ShiftLeftIsProduct(x, k);
    Pow2Add(n, k);
    Pow2Mono(n + k, 64);
    Pow2Small();
    ProductBelow(x, Pow2(n), Pow2(k));
  }

  lemma ProductBelow(x: nat, p: nat, q: nat)
    requires x < p && q > 0
    ensures x * q + q <= p * q
  {
    MulGrows(q, p - x);
    assert q * (p - x) == p * q - x * q;
  }

  /** Outcome and reason side by side, above 48 bits. */
  lemma PackedHigh(outcome: nat, reason: nat)
    requires outcome < 256 && reason < 0x1_0000
    ensures BitOr(Wrap(ShiftLeft(outcome, 56)), Wrap(ShiftLeft(reason, 48)))
         == ShiftLeft(BitOr(ShiftLeft(outcome, 8), reason), 48)
  {
    Pow2Small();
    ShiftFits(outcome, 56, 8);
    ShiftFits(reason, 48, 16);
    ShiftLeftMore(outcome, 8, 48);
    OrShifted(ShiftLeft(outcome, 8), reason, 48);
  }

  lemma PackIsSum(outcome: nat, reason: nat, consumed: u64)
    requires outcome < 256 && reason < 0x1_0000
    ensures Pack(outcome, reason, consumed)
         == ShiftLeft(BitOr(ShiftLeft(outcome, 8), reason), 48) + BitAnd(consumed, Pow2(48) - 1)
  {
    PackedHigh(outcome, reason);
    OrLow(BitOr(ShiftLeft(outcome, 8), reason), BitAnd(consumed, Pow2(48) - 1), 48);
  }

  lemma OrLow(high: nat, low: nat, k: nat)
    requires low < Pow2(k)
    ensures BitOr(ShiftLeft(high, k), low) == ShiftLeft(high, k) + low
  {
    ShiftLeftIsProduct(high, k);
    OrDisjoint(high, low, k);
  }

  /** What any verdict decodes to: a reason of 256 or more spills into the outcome byte, and
      only 48 bits of the consumed count survive. */
  lemma UnpackPack(outcome: nat, reason: nat, consumed: u64)
    requires outcome < 256 && reason < 0x1_0000
    ensures Unpack(Pack(outcome, reason, consumed))
         == Fields(BitOr(outcome, reason / 256) % 256, reason % 256, consumed % Pow2(48))
  {
    hide BitOr, BitAnd, ShiftLeft, ShiftRight, Pow2, Pack, Unpack;
    var high := BitOr(ShiftLeft(outcome, 8), reason);
    PackIsSum(outcome, reason, consumed);
    UnpackSum(Pack(outcome, reason, consumed), high, BitAnd(consumed, Pow2(48) - 1));
    AndLowMask(consumed, 48);
    SplitHigh(outcome, reason);
  }

  lemma UnpackSum(word: nat, high: nat, low: nat)
    requires low < Pow2(48) && word == ShiftLeft(high, 48) + low
    ensures Unpack(word) == Fields(ShiftRight(high, 8) % 256, high % 256, low)
  {
    SplitWord(word, high, low, 48, 56);
  }

  lemma SplitWord(word: nat, high: nat, low: nat, k: nat, j: nat)
    requires low < Pow2(k) && word == ShiftLeft(high, k) + low && j == k + 8
    ensures ShiftRight(word, j) == ShiftRight(high, 8) && ShiftRight(word, k) == high && BitAnd(word, Pow2(k) - 1) == low
  {
    HighAndLow(high, low, k);
    AndLowMask(word, k);
    ShiftRightMore(word, k, 8);
  }

  lemma SplitHigh(outcome: nat, reason: nat)
    ensures var high := BitOr(ShiftLeft(outcome, 8), reason);
            ShiftRight(high, 8) == BitOr(outcome, reason / 256) && high % 256 == reason % 256
  {
    OrHigh(outcome, reason, 8);
    ShiftRightDivides(reason, 8);
    Pow2Small();
  }

  /** A verdict decodes to what was packed exactly when the reason fits its byte and the
      consumed count its 48 bits. */
  lemma VerdictIsExact(outcome: nat, reason: nat, consumed: u64)
    requires outcome < 256 && reason < 0x1_0000
    ensures Unpack(Pack(outcome, reason, consumed)) == Fields(outcome, reason, consumed)
       <==> reason < 256 && consumed < Pow2(48)
  {
    UnpackPack(outcome, reason, consumed);
    FitsIffKept(consumed, Pow2(48));
    ReasonFits(outcome, reason);
  }

  lemma ReasonFits(outcome: nat, reason: nat)
    requires outcome < 256
    ensures BitOr(outcome, reason / 256) % 256 == outcome && reason % 256 == reason <==> reason < 256
  {
  }

  lemma FitsIffKept(x: nat, p: nat)
    requires p >= 1
    ensures x % p == x <==> x < p
  {
    if x < p {
      SmallMod(x, p);
    }
  }

  // ---- The length header ----

  /** Little-endian value of the first n bytes. */
  function LittleEndian(m: seq<byte>, n: nat): nat
    requires n <= |m|
    decreases n
  {
    if n == 0 then 0 else LittleEndian(m, n - 1) + ShiftLeft(m[n - 1], 8 * (n - 1))
  }

  /** The n low bytes of v, least significant first. */
  function ToLittleEndian(v: nat, n: nat): (m: seq<byte>)
    ensures |m| == n
    decreases n
  {
    if n == 0 then [] else ToLittleEndian(v, n - 1) + [ShiftRight(v, 8 * (n - 1)) % 256]
  }

  lemma {:induction false} LittleEndianBound(m: seq<byte>, n: nat)
    requires n <= |m|
    ensures LittleEndian(m, n) < Pow2(8 * n)
    decreases n
  {
    if n > 0 {
      LittleEndianBound(m, n - 1);
      ShiftLeftIsProduct(m[n - 1], 8 * (n - 1));
      Pow2Add(8, 8 * (n - 1));
      Pow2Small();
      assert 8 + 8 * (n - 1) == 8 * n;
      ProductBelow(m[n - 1], 256, Pow2(8 * (n - 1)));
    }
  }

  /** The loop or-s byte i in at bit 8 i. */
  method ReadLength(m: seq<byte>) returns (v: u64)
    requires |m| >= 8
    ensures v == LittleEndian(m, 8)
  {
    var len: nat := 0;
    var i := 0;
    while i < 8
      invariant 0 <= i <= 8 && len == LittleEndian(m, i)
    {
      LengthStep(m, i, len);
      len := BitOr(len, Wrap(ShiftLeft(m[i], 8 * i)));
      i := i + 1;
    }
    LittleEndianBound(m, 8);
    Pow2Small();
    v := len;
  }

  lemma LengthStep(m: seq<byte>, i: nat, len: nat)
    requires i < 8 <= |m| && len == LittleEndian(m, i)
    ensures BitOr(len, Wrap(ShiftLeft(m[i], 8 * i))) == LittleEndian(m, i + 1)
  {
    LittleEndianBound(m, i);
    Pow2Small();
    ShiftFits(m[i], 8 * i, 8);
    ShiftLeftIsProduct(m[i], 8 * i);
    OrDisjoint(m[i], len, 8 * i);
    OrCommutes(len, ShiftLeft(m[i], 8 * i));
  }

  lemma {:induction false} OrCommutes(a: nat, b: nat)
    ensures BitOr(a, b) == BitOr(b, a)
    decreases a
  {
    if a > 0 && b > 0 {
      OrCommutes(a / 2, b / 2);
    }
  }

  lemma {:induction false} LittleEndianOf(v: nat, n: nat, m: seq<byte>)
    requires ToLittleEndian(v, n) <= m
    ensures LittleEndian(m, n) == v % Pow2(8 * n)
    decreases n
  {
    if n > 0 {
      assert ToLittleEndian(v, n - 1) <= m;
      LittleEndianOf(v, n - 1, m);
      var k := 8 * (n - 1);
      var p := Pow2(k);
      ShiftRightDivides(v, k);
      ShiftLeftIsProduct(m[n - 1], k);
      Pow2Add(8, k);
      Pow2Small();
      assert 8 + k == 8 * n;
      ModByProduct(v, p);
    }
  }

  lemma ModByProduct(v: nat, p: nat)
    requires p > 0
    ensures v % (256 * p) == v % p + (v / p % 256) * p
  {
    var q := v / p;
    var a, b := q / 256, q % 256;
    ProductBelow(b, 256, p);
    Remainder(v, 256 * p, a, b * p + v % p);
  }

  lemma Remainder(v: nat, d: nat, a: nat, s: nat)
    requires s < d && v == d * a + s
    ensures v % d == s
  {
    DivModUnique(v, d, a, s);
  }

  /** The header the harness writes is the length the entry point reads. */
  lemma LengthRoundTrip(v: u64, m: seq<byte>)
    requires ToLittleEndian(v, 8) <= m
    ensures LittleEndian(m, 8) == v
  {
    LittleEndianOf(v, 8, m);
    assert Pow2(64) == TWO64 by { Pow2Small(); }
    FitsIffKept(v, TWO64);
  }
}
