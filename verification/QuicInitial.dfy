/** The quic_initial description: self-sizing integers read through width tiers, exactly as
    section 16 of RFC 9000 decodes them. */
module QuicInitial {
  import opened Bits
  import opened Ir
  import opened Semantics
  import opened Regions
  import opened Steps
  import opened WholeBytes

  // ---- Headers ----

  const FIRST: Name := 0
  const VERSION: Name := 1
  const OTHER_CIDS: Name := 2
  const DCID_LEN: Name := 3
  const DCID: Name := 4
  const SCID_LEN: Name := 5
  const SCID: Name := 6
  const TOK_LEAD: Name := 7
  const LEN_LEAD: Name := 8
  /** Tok0 .. Tok3. */
  const TOK: Name := 9
  /** Len1 .. Len3 follow. */
  const LEN: Name := 12

  const KIND: Name := 0
  const TOKEN_LEN: Name := 1
  const LENGTH: Name := 2

  function Field1(name: Name, bits: nat, rest: List<FieldDecl>): List<FieldDecl> {
    Cons(FieldDecl(name, Fixed(bits)), rest)
  }

  function FirstFields(): List<FieldDecl> {
    Field1(0, 1, Field1(1, 1, Field1(2, 2, Field1(3, 4, Nil))))
  }

  /** The two width bits and the six high bits. */
  function LeadFields(): List<FieldDecl> {
    Field1(0, 2, Field1(1, 6, Nil))
  }

  /** Bytes after the lead, by width. */
  function TailBytes(t: nat): nat {
    if t == 0 then 0 else if t == 1 then 1 else if t == 2 then 3 else 7
  }

  /** (v6 << k) | tail, or v6 alone. */
  function Composed(lead: Name, tail: Name, t: nat): Expr {
    if t == 0 then Ref(lead, 1)
    else Bin(Or, Bin(Shl, Ref(lead, 1), Const(8 * TailBytes(t))), Ref(tail, 0))
  }

  function TokFields(t: nat): List<FieldDecl> {
    var body := TimesEight(Composed(TOK_LEAD, TOK + t, t));
    if t == 0 then Cons(FieldDecl(0, BitLen(body)), Nil)
    else Cons(UintField(0, TailBytes(t)), Cons(FieldDecl(1, BitLen(body)), Nil))
  }

  function OtherFields(): List<FieldDecl> {
    Cons(UintField(0, 1), Cons(RunField(1, Ref(OTHER_CIDS, 0)), ScidPart()))
  }

  function ScidPart(): List<FieldDecl> {
    Cons(UintField(2, 1), Cons(RunField(3, Ref(OTHER_CIDS, 2)), Nil))
  }

  // ---- States ----

  const S_FIRST: Name := 0
  const S_VERSION: Name := 1
  const S_OTHER_CIDS: Name := 2
  const S_DCID_LEN: Name := 3
  const S_DCID: Name := 4
  const S_SCID_LEN: Name := 5
  const S_SCID: Name := 6
  const S_TOK_LEAD: Name := 7
  const S_LEN_LEAD: Name := 8
  const S_SHORT: Name := 9
  const S_NEGOTIATION: Name := 10
  const S_UNKNOWN: Name := 11
  /** Initial, 0-RTT, Handshake, Retry. */
  const S_KIND: Name := 12
  const S_TOK: Name := 16
  const S_LEN: Name := 20

  /** Authored reasons in alphabetical order. */
  const DCID_TOO_LONG: nat := 0
  const SCID_TOO_LONG: nat := 1
  const UNREACHABLE: nat := 2

  function Reading(inst: Name, fs: List<FieldDecl>, asgs: List<Assign>, tr: Transition): State {
    State(Cons(Extract(inst, fs, false), Nil), asgs, Nil, tr)
  }

  function Set(m: Name, value: Expr): List<Assign> {
    Cons(Assign(m, value), Nil)
  }

  function Marking(kind: u64, next: Target): State {
    State(Nil, Set(KIND, Const(kind)), Nil, Direct(next))
  }

  /** One arm per value of a two-bit key; the default cannot be reached. */
  function FourWays(key: Expr, base: Name): Transition {
    On(key, When(0, ToState(base), When(1, ToState(base + 1), When(2, ToState(base + 2), When(3, ToState(base + 3), Nil)))),
       ToReject(UNREACHABLE))
  }

  function UpTo20(key: Expr, next: Name, code: nat): Transition {
    On(key, Cons(Arm(Cons(Range(0, 20), Nil), ToState(next)), Nil), ToReject(code))
  }

  function TokState(t: nat): State {
    Reading(TOK + t, TokFields(t), Set(TOKEN_LEN, Composed(TOK_LEAD, TOK + t, t)), Direct(ToState(S_LEN_LEAD)))
  }

  function LenState(t: nat): State {
    if t == 0 then State(Nil, Set(LENGTH, Ref(LEN_LEAD, 1)), Nil, Direct(ToAccept))
    else Reading(LEN + t, Cons(UintField(0, TailBytes(t)), Nil), Set(LENGTH, Composed(LEN_LEAD, LEN + t, t)), Direct(ToAccept))
  }

  function StateOf(q: Name): State {
    match q
    case 0 =>
      Reading(FIRST, FirstFields(), Nil,
              On(Ref(FIRST, 0), When(0, ToState(S_SHORT), When(1, ToState(S_VERSION), Nil)), ToReject(UNREACHABLE)))
    case 1 =>
      Reading(VERSION, Cons(UintField(0, 4), Nil), Nil,
              On(Ref(VERSION, 0), When(1, ToState(S_DCID_LEN), When(0, ToState(S_NEGOTIATION), Nil)), ToState(S_UNKNOWN)))
    case 2 => Reading(OTHER_CIDS, OtherFields(), Nil, Direct(ToAccept))
    case 3 => Reading(DCID_LEN, Cons(UintField(0, 1), Nil), Nil, UpTo20(Ref(DCID_LEN, 0), S_DCID, DCID_TOO_LONG))
    case 4 => Reading(DCID, Cons(RunField(0, Ref(DCID_LEN, 0)), Nil), Nil, Direct(ToState(S_SCID_LEN)))
    case 5 => Reading(SCID_LEN, Cons(UintField(0, 1), Nil), Nil, UpTo20(Ref(SCID_LEN, 0), S_SCID, SCID_TOO_LONG))
    case 6 => Reading(SCID, Cons(RunField(0, Ref(SCID_LEN, 0)), Nil), Nil, FourWays(Ref(FIRST, 2), S_KIND))
    case 7 => Reading(TOK_LEAD, LeadFields(), Nil, FourWays(Ref(TOK_LEAD, 0), S_TOK))
    case 8 => Reading(LEN_LEAD, LeadFields(), Nil, FourWays(Ref(LEN_LEAD, 0), S_LEN))
    case 9 => Marking(7, ToAccept)
    case 10 => Marking(5, ToState(S_OTHER_CIDS))
    case 11 => Marking(6, ToState(S_OTHER_CIDS))
    case 12 => Marking(1, ToState(S_TOK_LEAD))
    case 13 => Marking(2, ToState(S_LEN_LEAD))
    case 14 => Marking(3, ToState(S_LEN_LEAD))
    case 15 => Marking(4, ToAccept)
    case 16 => TokState(0)
    case 17 => TokState(1)
    case 18 => TokState(2)
    case 19 => TokState(3)
    case 20 => LenState(0)
    case 21 => LenState(1)
    case 22 => LenState(2)
    case _ => LenState(3)
  }

  function Registers(): seq<MetaDecl> {
    [MetaDecl(3, 0), MetaDecl(64, 0), MetaDecl(64, 0)]
  }

  /** max_depth is 12 in the repository. */
  function Description(depth: nat): Program {
    Program(seq(24, q requires 0 <= q < 24 => StateOf(q)), S_FIRST, Registers(), depth)
  }

  // ---- The decoding of section 16 of RFC 9000 ----

  /** Bytes of the integer at byte i: 1, 2, 4 or 8 by its two high bits. */
  function VarintLen(s: seq<byte>, i: nat): (n: nat)
    requires i < |s|
    ensures n == 1 + TailBytes(s[i] / 64)
  {
    if s[i] < 0x40 then 1 else if s[i] < 0x80 then 2 else if s[i] < 0xc0 then 4 else 8
  }

  /** The integer with its width bits removed. */
  function Varint(s: seq<byte>, i: nat): nat
    requires i < |s| && i + VarintLen(s, i) <= |s|
  {
    Be(s, i, VarintLen(s, i)) % Pow2(8 * VarintLen(s, i) - 2)
  }

  /** Accepted at byte at with these registers, or refused after consumed bits. */
  datatype Answer = Fine(at: nat, kind: nat, tokenLen: nat, length: nat) | Refused(reason: Reason, consumed: nat)

  function Short(consumed: nat): Answer {
    Refused(OutOfBounds, consumed)
  }

  /** The lead byte i is missing: its two width bits may still be there, odd bits after the last
      whole byte. */
  function LeadShort(i: nat, odd: nat): Answer {
    Short(8 * i + if odd >= 2 then 2 else 0)
  }

  /** The payload length, where the parse stops. */
  function LengthAt(s: seq<byte>, odd: nat, i: nat, kind: nat, tokenLen: nat): Answer {
    if i + 1 > |s| then LeadShort(i, odd)
    else if i + VarintLen(s, i) > |s| then Short(8 * (i + 1))
    else Fine(i + VarintLen(s, i), kind, tokenLen, Varint(s, i))
  }

  /** Bytes the token field takes: its bit length wraps at 2^64. */
  function TokenBytes(v: nat): nat {
    v % 0x2000_0000_0000_0000
  }

  function TokenAt(s: seq<byte>, odd: nat, i: nat): Answer {
    if i + 1 > |s| then LeadShort(i, odd)
    else if i + VarintLen(s, i) > |s| then Short(8 * (i + 1))
    else
      var v := Varint(s, i);
      var next := i + VarintLen(s, i) + TokenBytes(v);
      if next > |s| then Short(8 * (i + VarintLen(s, i))) else LengthAt(s, odd, next, 1, v)
  }

  /** After the connection ids the long-packet type decides. */
  function TypeAt(s: seq<byte>, odd: nat, i: nat): Answer
    requires |s| >= 1
  {
    var ty := (s[0] % 64) / 16;
    if ty == 0 then TokenAt(s, odd, i) else if ty == 3 then Fine(i, 4, 0, 0) else LengthAt(s, odd, i, ty + 1, 0)
  }

  function ScidAt(s: seq<byte>, odd: nat, i: nat): Answer
    requires |s| >= 1
  {
    if i + 1 > |s| then Short(8 * i)
    else if s[i] > 20 then Refused(Authored(1), 8 * (i + 1))
    else if i + 1 + s[i] > |s| then Short(8 * (i + 1))
    else TypeAt(s, odd, i + 1 + s[i])
  }

  function DcidAt(s: seq<byte>, odd: nat, i: nat): Answer
    requires |s| >= 1
  {
    if i + 1 > |s| then Short(8 * i)
    else if s[i] > 20 then Refused(Authored(0), 8 * (i + 1))
    else if i + 1 + s[i] > |s| then Short(8 * (i + 1))
    else ScidAt(s, odd, i + 1 + s[i])
  }

  /** Connection ids of other versions, without a cap. */
  function OtherAt(s: seq<byte>, i: nat, kind: nat): Answer {
    if i + 1 > |s| then Short(8 * i)
    else if i + 1 + s[i] > |s| then Short(8 * (i + 1))
    else
      var j := i + 1 + s[i];
      if j + 1 > |s| then Short(8 * j)
      else if j + 1 + s[j] > |s| then Short(8 * (j + 1))
      else Fine(j + 1 + s[j], kind, 0, 0)
  }

  /** No whole byte: the form bit, the fixed bit and the type are read as far as they go. */
  function FirstShort(odd: nat): nat {
    if odd >= 4 then 4 else if odd >= 2 then 2 else odd
  }

  /** The answer for whole bytes s followed by odd more bits. */
  function Decoded(s: seq<byte>, odd: nat): Answer {
    if |s| < 1 then Short(FirstShort(odd))
    else if s[0] < 128 then Fine(1, 7, 0, 0)
    else if |s| < 5 then Short(8)
    else
      var v := Be(s, 1, 4);
      if v == 1 then DcidAt(s, odd, 5) else OtherAt(s, 5, if v == 0 then 5 else 6)
  }

  // ---- Bits and bytes ----

  lemma {:induction false} BeBound(s: seq<byte>, i: nat, m: nat)
    requires i + m <= |s|
    ensures Be(s, i, m) < Pow2(8 * m)
    decreases m
  {
    if m > 0 {
      BeBound(s, i, m - 1);
      assert Pow2(8) == 256;
      Pow2Add(8 * (m - 1), 8);
      assert 8 * (m - 1) + 8 == 8 * m;
    }
  }

  /** The first byte weighs 2^(8 m). */
  lemma {:induction false} BeSplit(s: seq<byte>, i: nat, m: nat)
    requires i + 1 + m <= |s|
    ensures Be(s, i, 1 + m) == s[i] * Pow2(8 * m) + Be(s, i + 1, m)
    decreases m
  {
    if m == 0 {
      assert Be(s, i, 0) == 0;
      assert Pow2(0) == 1;
    } else {
      BeSplit(s, i, m - 1);
      assert Pow2(8) == 256;
      Pow2Add(8 * (m - 1), 8);
      assert 8 * (m - 1) + 8 == 8 * m;
      assert s[i] * Pow2(8 * m) == s[i] * Pow2(8 * (m - 1)) * 256;
    }
  }

  /** The composed value is the decoding: the width bits are what the remainder drops. */
  lemma VarintIs(s: seq<byte>, i: nat)
    requires i < |s| && i + VarintLen(s, i) <= |s|
    ensures var m := TailBytes(s[i] / 64);
            Varint(s, i) == (s[i] % 64) * Pow2(8 * m) + Be(s, i + 1, m) < 0x4000_0000_0000_0000
  {
    var m := TailBytes(s[i] / 64);
    var tail, k := Be(s, i + 1, m), Pow2(8 * m);
    BeSplit(s, i, m);
    BeBound(s, i + 1, m);
    Pow2Add(8 * m, 6);
    Pow2Small();
    hide Be, Pow2;
    DropTop(s[i], k, tail);
    assert 8 * (1 + m) - 2 == 8 * m + 6;
  }

  lemma DropTop(b: nat, k: nat, tail: nat)
    requires tail < k
    ensures (b * k + tail) % (k * 64) == (b % 64) * k + tail < k * 64
  {
    AtMost63(b % 64, k);
    assert b == 64 * (b / 64) + b % 64;
    DivModUnique(b * k + tail, k * 64, b / 64, (b % 64) * k + tail);
  }

  lemma AtMost63(v6: nat, k: nat)
    requires v6 < 64
    ensures v6 * k <= 63 * k
  {
  }
}
