/** The packet codec of the test suites: canonical bit strings and their hex form. */
module Codecs {
  import opened Bits
  import opened Ir
  import opened Semantics

  // ---- Hex ----

  function Digit(n: nat): char
    requires n < 16
  {
    if n < 10 then '0' + n as char else 'a' + (n - 10) as char
  }

  /** Value of a hex digit of either case. */
  function DigitValue(c: char): Option<nat> {
    if '0' <= c <= '9' then Some((c - '0') as nat)
    else if 'a' <= c <= 'f' then Some((c - 'a') as nat + 10)
    else if 'A' <= c <= 'F' then Some((c - 'A') as nat + 10)
    else None
  }

  /** Encoding writes lower case; decoding reads either, and nothing else. */
  lemma HexDigits(c: char)
    ensures forall n | 0 <= n < 16 :: Digit(n) == "0123456789abcdef"[n]
    ensures forall n | 0 <= n < 16 :: DigitValue("0123456789abcdef"[n]) == DigitValue("0123456789ABCDEF"[n]) == Some(n)
    ensures DigitValue(c).None? ==> c !in "0123456789abcdef" && c !in "0123456789ABCDEF"
    ensures DigitValue(c).Some? ==> c == "0123456789abcdef"[DigitValue(c).value] || c == "0123456789ABCDEF"[DigitValue(c).value]
  {
    var lower, upper := "0123456789abcdef", "0123456789ABCDEF";
    forall n | 0 <= n < 16
      ensures Digit(n) == lower[n] && DigitValue(lower[n]) == DigitValue(upper[n]) == Some(n)
    {
      assert n < 10 ==> lower[n] == upper[n] == '0' + n as char;
      assert n >= 10 ==> lower[n] == 'a' + (n - 10) as char && upper[n] == 'A' + (n - 10) as char;
    }
  }

  /** Two characters as the radix parser reads them: a leading plus sign is allowed. */
  function PairValue(a: char, b: char): (r: Option<nat>)
    ensures r.Some? ==> r.value < 256
  {
    var lo := DigitValue(b);
    if lo.None? then None
    else if a == '+' then lo
    else
      var hi := DigitValue(a);
      if hi.None? then None else Some(16 * hi.value + lo.value)
  }

  function HexEncode(bytes: seq<byte>): string {
    if bytes == [] then "" else [Digit(bytes[0] / 16), Digit(bytes[0] % 16)] + HexEncode(bytes[1..])
  }

  function HexDecode(s: string): Option<seq<byte>>
    decreases |s|
  {
    if s == "" then Some([])
    else if |s| == 1 then None
    else
      var b, rest := PairValue(s[0], s[1]), HexDecode(s[2..]);
      if b.None? || rest.None? then None else Some([b.value] + rest.value)
  }

  /** Characters 2 * k and 2 * k + 1 spell a byte: two digits, or a plus sign and one. */
  predicate SpellsByte(s: string, k: nat)
    requires 2 * k + 1 < |s|
  {
    DigitValue(s[2 * k + 1]).Some? && (s[2 * k] == '+' || DigitValue(s[2 * k]).Some?)
  }

  /** Hex decodes exactly when every two characters spell a byte, and then to those bytes. */
  lemma {:induction false} HexSpells(s: string, k: nat)
    ensures HexDecode(s).Some? <==> |s| % 2 == 0 && forall i: nat | 2 * i + 1 < |s| :: SpellsByte(s, i)
    ensures HexDecode(s).Some? && 2 * k + 1 < |s| ==>
              && SpellsByte(s, k) && |HexDecode(s).value| == |s| / 2
              && HexDecode(s).value[k]
                 == (if s[2 * k] == '+' then 0 else 16 * DigitValue(s[2 * k]).value) + DigitValue(s[2 * k + 1]).value
    decreases |s|
  {
    hide DigitValue;
    if |s| >= 2 {
      var t := s[2..];
      HexSpells(t, if k > 0 then k - 1 else 0);
      assert forall i: nat | 2 * i + 1 < |t| :: SpellsByte(t, i) == SpellsByte(s, i + 1);
      assert SpellsByte(s, 0) <==> PairValue(s[0], s[1]).Some?;
      assert forall i: nat | 2 * i + 1 < |s| && i > 0 :: SpellsByte(s, i) == SpellsByte(t, i - 1);
      assert |t| == 0 ==> HexDecode(t) == Some([]);
    }
  }

  lemma {:induction false} HexRoundTrip(bytes: seq<byte>)
    ensures HexDecode(HexEncode(bytes)) == Some(bytes) && |HexEncode(bytes)| == 2 * |bytes|
    decreases |bytes|
  {
    if bytes != [] {
      hide Digit, DigitValue;
      var s, b := HexEncode(bytes), bytes[0];
      HexRoundTrip(bytes[1..]);
      assert s[0] == Digit(b / 16) && s[1] == Digit(b % 16) && s[2..] == HexEncode(bytes[1..]);
      assert PairValue(s[0], s[1]) == Some(b);
      assert [b] + bytes[1..] == bytes;
    }
  }

  // ---- Bit strings ----

  datatype BitString = BitString(bytes: seq<byte>, bitLen: nat)

  datatype Wire = Wire(hex: string, bitLen: nat)

  datatype Warning = BadHex | TooShort | TooLong | PadBits

  function BytesFor(bitLen: nat): nat {
    (bitLen + 7) / 8
  }

  /** Unused low bits of the last byte. */
  function PadBitCount(bitLen: nat): (r: nat)
    ensures r < 8
  {
    8 * BytesFor(bitLen) - bitLen
  }

  /** The right number of bytes, unused bits zero. */
  predicate Canonical(b: BitString) {
    && |b.bytes| == BytesFor(b.bitLen)
    && (b.bytes != [] ==> b.bytes[|b.bytes| - 1] % Pow2(PadBitCount(b.bitLen)) == 0)
  }

  function ToWire(b: BitString): Wire {
    Wire(HexEncode(b.bytes), b.bitLen)
  }

  /** The decoded data, empty if the hex is bad. */
  function Decoded(w: Wire): seq<byte> {
    var d := HexDecode(w.hex);
    if d.Some? then d.value else []
  }

  predicate WithinLimit(w: Wire, limit: nat) {
    BytesFor(w.bitLen) <= limit && |w.hex| <= 2 * limit
  }

  /** Bit i, most significant first, of bytes followed by zeros. */
  predicate BitAt(bytes: seq<byte>, i: nat) {
    i / 8 < |bytes| && BitSet(bytes[i / 8], 7 - i % 8)
  }

  /** The first n bits agree. */
  ghost predicate SameBits(a: seq<byte>, b: seq<byte>, n: nat) {
    forall i: nat | i < n :: BitAt(a, i) <==> BitAt(b, i)
  }

  // ---- Bits of a byte ----

  /** b with its low k bits clear. */
  function Cleared(b: byte, k: nat): (r: byte)
    ensures r <= b && (r == b <==> b % Pow2(k) == 0)
  {
    ModAtMost(b, Pow2(k));
    b - b % Pow2(k)
  }

  lemma ClearedParts(b: byte, k: nat)
    ensures Cleared(b, k) % Pow2(k) == 0 && Cleared(b, k) / Pow2(k) == b / Pow2(k)
  {
    DivModUnique(Cleared(b, k), Pow2(k), b / Pow2(k), 0);
  }

  /** Clearing the low k bits keeps the others. */
  lemma {:induction false} ClearLow(b: byte, k: nat, j: nat)
    requires k <= j
    ensures ShiftRight(Cleared(b, k), j) == ShiftRight(b, j)
    decreases j
  {
    if j == k {
      ShiftRightDivides(b, k);
      ShiftRightDivides(Cleared(b, k), k);
      ClearedParts(b, k);
    } else {
      ClearLow(b, k, j - 1);
    }
  }

  /** A mask and its complement split a number. */
  lemma {:induction false} AndSplits(b: nat, m: nat, n: nat)
    requires b < Pow2(n) && m < Pow2(n)
    ensures BitAnd(b, m) + BitAnd(b, Pow2(n) - 1 - m) == b
    decreases n
  {
    if n > 0 {
      var c := Pow2(n) - 1 - m;
      assert c / 2 == Pow2(n - 1) - 1 - m / 2 && c % 2 == 1 - m % 2;
      AndSplits(b / 2, m / 2, n - 1);
    }
  }

  /** The mask of the pad bits selects the remainder, its complement the rest. */
  lemma PadMasks(b: byte, pad: nat)
    requires pad < 8
    ensures 1 <= Pow2(pad) <= 128
    ensures BitAnd(b, Pow2(pad) - 1) == b % Pow2(pad) && BitAnd(b, 256 - Pow2(pad)) == Cleared(b, pad)
  {
    Pow2Mono(pad, 7);
    Pow2Small();
    AndLowMask(b, pad);
    AndSplits(b, Pow2(pad) - 1, 8);
  }

  lemma {:induction false} SameFrom(a: byte, b: byte, k: nat)
    requires k <= 8 && forall j | k <= j < 8 :: BitSet(a, j) == BitSet(b, j)
    ensures ShiftRight(a, k) == ShiftRight(b, k)
    decreases 8 - k
  {
    if k == 8 {
      Pow2Small();
      ShiftRightDivides(a, 8);
      ShiftRightDivides(b, 8);
    } else {
      SameFrom(a, b, k + 1);
      assert BitSet(a, k) == BitSet(b, k);
    }
  }

  /** Bytes that agree above their k clear low bits are equal. */
  lemma SameByte(a: byte, b: byte, k: nat)
    requires k < 8 && (forall j | k <= j < 8 :: BitSet(a, j) == BitSet(b, j))
    requires a % Pow2(k) == 0 && b % Pow2(k) == 0
    ensures a == b
  {
    hide BitSet, ShiftRight;
    SameFrom(a, b, k);
    ShiftRightDivides(a, k);
    ShiftRightDivides(b, k);
  }

  lemma BitOfByte(bytes: seq<byte>, i: nat, j: nat)
    requires i < |bytes| && j < 8
    ensures BitAt(bytes, 8 * i + 7 - j) <==> BitSet(bytes[i], j)
  {
    assert (8 * i + 7 - j) / 8 == i && (8 * i + 7 - j) % 8 == 7 - j;
  }

  /** The first bitLen bits determine a canonical bit string. */
  lemma CanonicalIsUnique(a: BitString, b: BitString)
    requires Canonical(a) && Canonical(b) && a.bitLen == b.bitLen && SameBits(a.bytes, b.bytes, a.bitLen)
    ensures a == b
  {
    forall i | 0 <= i < |a.bytes|
      ensures a.bytes[i] == b.bytes[i]
    {
      var k := if i == |a.bytes| - 1 then PadBitCount(a.bitLen) else 0;
      assert Pow2(0) == 1;
      forall j | k <= j < 8
        ensures BitSet(a.bytes[i], j) == BitSet(b.bytes[i], j)
      {
        BitOfByte(a.bytes, i, j);
        BitOfByte(b.bytes, i, j);
        assert 8 * i + 7 - j < a.bitLen;
      }
      hide BitSet;
      SameByte(a.bytes[i], b.bytes[i], k);
    }
  }

  // ---- From the wire ----

  /** Pads with zeros or truncates to n bytes. */
  function Resize(bytes: seq<byte>, n: nat): (r: seq<byte>)
    ensures |r| == n
  {
    if |bytes| >= n then bytes[..n] else bytes + seq(n - |bytes|, _ => 0)
  }

  lemma ResizeKeepsBits(bytes: seq<byte>, n: nat, bits: nat)
    requires bits <= 8 * n
    ensures SameBits(Resize(bytes, n), bytes, bits)
  {
    forall i: nat | i < bits
      ensures BitAt(Resize(bytes, n), i) <==> BitAt(bytes, i)
    {
    }
  }

  /** Clearing the pad bits of the last byte keeps the others. */
  lemma ClearKeepsBits(bytes: seq<byte>, bitLen: nat)
    requires |bytes| == BytesFor(bitLen) > 0
    ensures var last := |bytes| - 1;
            SameBits(bytes[last := Cleared(bytes[last], PadBitCount(bitLen))], bytes, bitLen)
  {
    hide Cleared, ShiftRight;
    var last, pad := |bytes| - 1, PadBitCount(bitLen);
    var cleared := bytes[last := Cleared(bytes[last], pad)];
    forall i: nat | i < bitLen
      ensures BitAt(cleared, i) <==> BitAt(bytes, i)
    {
      if i / 8 == last {
        ClearLow(bytes[last], pad, 7 - i % 8);
      }
    }
  }

  /** A bit past bitLen is set in the last byte that holds some of the first bitLen. */
  predicate PadIsSet(bytes: seq<byte>, bitLen: nat) {
    exists i: nat :: bitLen <= i < 8 * ((bitLen + 7) / 8) && BitAt(bytes, i)
  }

  lemma TopOfLow(b: byte, k: nat)
    ensures b % Pow2(k + 1) == b % Pow2(k) + if BitSet(b, k) then Pow2(k) else 0
  {
    var p := Pow2(k);
    var q, r := b / p, b % p;
    ShiftRightDivides(b, k);
    hide ShiftRight, Pow2;
    assert Pow2(k + 1) == 2 * p;
    DivModUnique(b, p, q, r);
    if BitSet(b, k) {
      HalfOdd(p, q);
      DivModUnique(b, 2 * p, q / 2, p + r);
    } else {
      HalfEven(p, q);
      DivModUnique(b, 2 * p, q / 2, r);
    }
  }

  lemma HalfOdd(p: nat, q: nat)
    requires q % 2 == 1
    ensures 2 * p * (q / 2) + p == p * q
  {
    assert q == 2 * (q / 2) + 1;
  }

  lemma HalfEven(p: nat, q: nat)
    requires q % 2 == 0
    ensures 2 * p * (q / 2) == p * q
  {
    assert q == 2 * (q / 2);
  }

  lemma {:induction false} LowBits(b: byte, k: nat)
    ensures b % Pow2(k) == 0 <==> forall j: nat | j < k :: !BitSet(b, j)
    decreases k
  {
    hide BitSet;
    if k > 0 {
      LowBits(b, k - 1);
      TopOfLow(b, k - 1);
    }
  }

  lemma PadOfLast(bytes: seq<byte>, bitLen: nat)
    requires |bytes| == BytesFor(bitLen) > 0
    ensures PadIsSet(bytes, bitLen) <==> bytes[|bytes| - 1] % Pow2(PadBitCount(bitLen)) != 0
  {
    hide BitSet;
    var last, pad := |bytes| - 1, PadBitCount(bitLen);
    LowBits(bytes[last], pad);
    if j: nat :| j < pad && BitSet(bytes[last], j) {
      BitOfByte(bytes, last, j);
      assert BitAt(bytes, 8 * last + 7 - j);
    }
    forall i: nat | bitLen <= i < 8 * |bytes|
      ensures i / 8 == last && 7 - i % 8 < pad
    {
    }
  }

  lemma PadOfSame(a: seq<byte>, b: seq<byte>, bitLen: nat)
    requires SameBits(a, b, 8 * BytesFor(bitLen))
    ensures PadIsSet(a, bitLen) <==> PadIsSet(b, bitLen)
  {
    hide BitAt;
  }

  /** Zeroes the pad bits in place; the flag tells whether any was set. */
  method ZeroPad(bytes: seq<byte>, bitLen: nat) returns (out: seq<byte>, changed: bool)
    requires |bytes| == BytesFor(bitLen)
    ensures Canonical(BitString(out, bitLen)) && SameBits(out, bytes, bitLen)
    ensures |out| == |bytes| && (changed <==> out != bytes) && (changed <==> PadIsSet(bytes, bitLen))
  {
    out, changed := bytes, false;
    if bytes != [] {
      PadOfLast(bytes, bitLen);
    }
    hide PadIsSet;
    var pad := PadBitCount(bitLen);
    assert Pow2(0) == 1;
    if pad > 0 {
      var last := |bytes| - 1;
      var b := bytes[last];
      PadMasks(b, pad);
      ClearedParts(b, pad);
      ClearKeepsBits(bytes, bitLen);
      hide BitAnd, SameBits;
      if BitAnd(b, Pow2(pad) - 1) != 0 {
        out, changed := bytes[last := BitAnd(b, 256 - Pow2(pad))], true;
      }
    }
  }

  lemma SameBitsTrans(a: seq<byte>, b: seq<byte>, c: seq<byte>, n: nat)
    requires SameBits(a, b, n) && SameBits(b, c, n)
    ensures SameBits(a, c, n)
  {
  }

  /** None past the size limits; else the canonical form of the data, which keeps its first
      bitLen bits, and in this order the warnings for hex that does not decode, for too few or too
      many bytes and for pad bits; none exactly when the data was that form already. */
  method FromWire(w: Wire, limit: nat) returns (r: Option<(BitString, seq<Warning>)>)
    ensures r.None? <==> !WithinLimit(w, limit)
    ensures r.Some? ==>
              && Canonical(r.value.0) && r.value.0.bitLen == w.bitLen && SameBits(r.value.0.bytes, Decoded(w), w.bitLen)
              && (r.value.1 == [] <==> HexDecode(w.hex) == Some(r.value.0.bytes))
    ensures r.Some? ==>
              var have, want := |Decoded(w)|, (w.bitLen + 7) / 8;
              r.value.1 == (if HexDecode(w.hex).None? then [BadHex] else [])
                           + (if have < want then [TooShort] else if have > want then [TooLong] else [])
                           + (if PadIsSet(Decoded(w), w.bitLen) then [PadBits] else [])
  {
    hide HexDecode, Canonical, SameBits, PadIsSet;
    var want := BytesFor(w.bitLen);
    if want > limit || |w.hex| > 2 * limit {
      return None;
    }
    var warnings := [];
    var decoded := HexDecode(w.hex);
    if decoded.None? {
      warnings := [BadHex];
    }
    var bytes := if decoded.Some? then decoded.value else [];
    if |bytes| < want {
      warnings := warnings + [TooShort];
    } else if |bytes| > want {
      warnings := warnings + [TooLong];
    }
    bytes := Resize(bytes, want);
    ResizeKeepsBits(Decoded(w), want, w.bitLen);
    ResizeKeepsBits(Decoded(w), want, 8 * want);
    PadOfSame(bytes, Decoded(w), w.bitLen);
    assert |Decoded(w)| == want ==> bytes == Decoded(w);
    var out, changed := ZeroPad(bytes, w.bitLen);
    SameBitsTrans(out, bytes, Decoded(w), w.bitLen);
    if changed {
      warnings := warnings + [PadBits];
    }
    r := Some((BitString(out, w.bitLen), warnings));
  }

  /** A canonical bit string comes back from the wire as it was, without a warning. */
  method RoundTrip(b: BitString, limit: nat) returns (r: Option<(BitString, seq<Warning>)>)
    requires Canonical(b) && |b.bytes| <= limit
    ensures r == Some((b, []))
  {
    HexRoundTrip(b.bytes);
    r := FromWire(ToWire(b), limit);
    CanonicalIsUnique(r.value.0, b);
  }
}
