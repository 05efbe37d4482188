/** The code generator end to end: analyse a program, size the region stack, emit and run the
    parse core on a buffer, as plain C or as the eBPF variant with its verdict word. */
module Generator {
  import opened Bits
  import opened Ir
  import opened Semantics
  import opened Regions
  import opened Totality
  import opened Alignment
  import opened Loads
  import opened ParseCore
  import opened Verdict

  /** What the emitted code relies on: one region depth per reachable state, widths of 1 to 64
      bits, byte loads only where the analysed residues really are 0, and a region stack below
      2^32.  There is one precise solution of the alignment analysis, the computed one. */
  ghost predicate Emits(p: Program) {
    && Closed(p) && (exists depth :: Consistent(p, depth))
    && (forall align | Precise(p, align) :: AllEmittable(p, align))
    && PushesBelow(p, |p.states|) <= 0x7fff_ffff
  }

  ghost predicate AllEmittable(p: Program, align: map<Name, Residue>) {
    forall q | q in align :: q < |p.states| && EmittableState(p.states[q], align[q])
  }

  /** A program that can be emitted and passes the checks of the semantics document, so never
      faults. */
  ghost predicate Valid(p: Program) {
    Emits(p) && exists ty, inset, depth :: WellFormed(p, ty, inset, depth, true)
  }

  lemma ValidNeverFaults(p: Program, pkt: Packet, rule: PopRule)
    requires Valid(p)
    ensures Emits(p) && Parse(p, pkt, rule).outcome != Faulted
  {
    var ty, inset, depth :| WellFormed(p, ty, inset, depth, true);
    NeverFaults(p, ty, inset, depth, pkt, rule);
  }

  /** A syntactic condition for right byte loads: no state extracts an instance twice. */
  predicate StateShapes(s: State) {
    ExtractShapes(s.extracts) && DistinctInstances(s.extracts) && AllDistinctNames(s.extracts)
  }

  lemma ShapesSuffice(p: Program)
    requires forall q | 0 <= q < |p.states| :: StateShapes(p.states[q])
    ensures forall align | Precise(p, align) :: AllEmittable(p, align)
  {
    forall align, q | Precise(p, align) && q in align
      ensures q < |p.states| && EmittableState(p.states[q], align[q])
    {
      assert Stable(p, align, q);
      assert StateShapes(p.states[q]);
      DistinctInstancesSuffice(p.states[q].extracts, align[q]);
    }
  }

  /** Smallest power of two that is at least n, as its exponent. */
  method NextPowerOfTwo(n: nat) returns (k: nat)
    ensures Pow2(k) >= n && (k > 0 ==> Pow2(k - 1) < n)
  {
    k := 0;
    while Pow2(k) < n
      invariant k > 0 ==> Pow2(k - 1) < n
      decreases n - Pow2(k)
    {
      k := k + 1;
    }
  }

  /** For every program the generator can emit and every buffer on which the interpreter does
      not fault, the emitted core computes the interpreter's result, but for the reason of an
      unexhausted region. */
  method ParseBuffer(p: Program, buf: seq<byte>, bitLen: u64, mask: Option<nat>) returns (core: Core)
    requires Emits(p)
    requires bitLen <= 8 * |buf| && bitLen <= 0x8000_0000_0000_0000 && InContract(bitLen, mask)
    requires Parse(p, PacketOf(buf, bitLen), AlwaysStructural).outcome != Faulted
    ensures fresh(core) && fresh(core.regionEnd)
    ensures core.Returned(Parse(p, PacketOf(buf, bitLen), AlwaysStructural))
  {
    hide Parse;
    var align := EntryAlignments(p);
    var computed; ghost var order;
    computed, order := AssignDepths(p);
    assert AllEmittable(p, align);
    var rbits := NextPowerOfTwo(PushesBelow(p, |p.states|));
    core := new Core(buf, bitLen, mask, rbits);
    core.Run(p, align, computed.value, order);
  }

  /** The plain C and the eBPF variant return the same struct on every such input. */
  method RunBoth(p: Program, buf: seq<byte>, bitLen: u64, maskBits: nat) returns (c: Core, b: Core)
    requires Emits(p)
    requires bitLen <= 8 * |buf| && bitLen <= 8 * Pow2(maskBits) && bitLen <= 0x8000_0000_0000_0000
    requires Parse(p, PacketOf(buf, bitLen), AlwaysStructural).outcome != Faulted
    ensures c.outcome == b.outcome && c.reason == b.reason && c.consumed == b.consumed
    ensures c.present == b.present && c.slots == b.slots && c.meta == b.meta
  {
    c := ParseBuffer(p, buf, bitLen, None);
    b := ParseBuffer(p, buf, bitLen, Some(maskBits));
  }

  lemma {:induction false} RunConsumesWithin(p: Program, pkt: Packet, rule: PopRule, q: Name, cfg: Config, b: nat)
    requires Sound(pkt, cfg)
    ensures RunFrom(p, pkt, rule, q, cfg, b).consumed <= |pkt|
    decreases b
  {
    if b > 0 && q < |p.states| {
      StepKeeps(p, pkt, rule, q, cfg);
      var r := Step(p, pkt, rule, q, cfg);
      if r.Next? {
        RunConsumesWithin(p, pkt, rule, r.state, r.cfg, b - 1);
      }
    }
  }

  /** The decoded verdict tells the result, in the numbers of the generated enum: outcome 0 or 1,
      the built-in reasons from 1 to 6, the authored ones from 16. */
  predicate Decodes(f: Fields, r: Result) {
    && f.consumed == r.consumed
    && match r.outcome
       case Accepted => f.outcome == 0 && f.reason == 0
       case Rejected(OutOfBounds) => f.outcome == 1 && f.reason == 1
       case Rejected(MaxDepthExceeded) => f.outcome == 1 && f.reason == 2
       case Rejected(NoMatchingArm) => f.outcome == 1 && f.reason == 3
       case Rejected(OutOfRegionBounds) => f.outcome == 1 && f.reason == 4
       case Rejected(RegionOutOfBounds) => f.outcome == 1 && f.reason == 5
       case Rejected(RegionNotExhausted) => f.outcome == 1 && f.reason == 6
       case Rejected(Authored(code)) => f.outcome == 1 && f.reason == 16 + code
       case Faulted => false
  }

  /** Equal verdicts, equal outcomes: two runs that decode to the same outcome and reason number
      were accepted, or rejected for the same reason. */
  lemma VerdictTellsOutcome(f: Fields, g: Fields, r: Result, t: Result)
    requires Decodes(f, r) && Decodes(g, t) && f.outcome == g.outcome && f.reason == g.reason
    ensures r.outcome == t.outcome
  {
  }

  /** An authored reason with code at least n. */
  predicate AuthoredFrom(o: Outcome, n: nat) {
    o.Rejected? && o.reason.Authored? && o.reason.code >= n
  }

  /** What the core returned, packed and decoded. */
  lemma PackedDecodes(core: Core, r: Result)
    requires core.Returned(r) && r.consumed < Pow2(48) && !AuthoredFrom(r.outcome, 0xfff0)
    ensures Decodes(Unpack(Pack(core.outcome, ReasonCode(core.reason), core.consumed)), r) <==> !AuthoredFrom(r.outcome, 240)
  {
    hide Pow2, Unpack, Pack;
    VerdictIsExact(core.outcome, ReasonCode(core.reason), core.consumed);
    UnpackPack(core.outcome, ReasonCode(core.reason), core.consumed);
  }

  // ---- Which reason codes occur ----

  /** Every authored reject of the program has a code below n. */
  ghost predicate CodesBelow(p: Program, n: nat) {
    forall q: Name, code: nat | q < |p.states| && Member(ToReject(code), TargetList(p.states[q].transition)) :: code < n
  }

  predicate Below(o: Outcome, n: nat) {
    o.Rejected? && o.reason.Authored? ==> o.reason.code < n
  }

  lemma StepBelow(p: Program, pkt: Packet, rule: PopRule, q: Name, cfg: Config, n: nat)
    requires CodesBelow(p, n) && q < |p.states|
    ensures var r := Step(p, pkt, rule, q, cfg); r.Done? ==> Below(r.result.outcome, n)
  {
    hide RunBody, Decide, TargetList;
    var r := RunBody(pkt, rule, p.metadata, p.states[q], cfg);
    BodyStops(pkt, rule, p.metadata, p.states[q], cfg);
    if r.Go? {
      DecideTargets(p.states[q].transition, r.cfg);
    }
  }

  /** A run rejects only with codes its transitions name. */
  lemma {:induction false} RunBelow(p: Program, pkt: Packet, rule: PopRule, q: Name, cfg: Config, b: nat, n: nat)
    requires CodesBelow(p, n)
    ensures Below(RunFrom(p, pkt, rule, q, cfg, b).outcome, n)
    decreases b
  {
    hide Step, CodesBelow;
    if b > 0 && q < |p.states| {
      StepBelow(p, pkt, rule, q, cfg, n);
      var r := Step(p, pkt, rule, q, cfg);
      if r.Next? {
        RunBelow(p, pkt, rule, r.state, r.cfg, b - 1, n);
      }
    }
  }

  /** The eBPF entry point: length header, parse, packed verdict.  maskBits is 12 as emitted;
      up to 44 the decoded verdict is exact whenever the reason code fits its byte, so for every
      program of at most 240 authored reasons. */
  method PkEntry(p: Program, mem: seq<byte>, maskBits: nat) returns (word: nat)
    requires Emits(p) && maskBits <= 44
    requires |mem| >= 8 && LittleEndian(mem, 8) <= 8 * (|mem| - 8) && LittleEndian(mem, 8) <= 8 * Pow2(maskBits)
    requires Parse(p, PacketOf(mem[8..], LittleEndian(mem, 8)), AlwaysStructural).outcome != Faulted
    ensures var r := Parse(p, PacketOf(mem[8..], LittleEndian(mem, 8)), AlwaysStructural);
            && (!AuthoredFrom(r.outcome, 0xfff0) ==> (Decodes(Unpack(word), r) <==> !AuthoredFrom(r.outcome, 240)))
            && (CodesBelow(p, 240) ==> Decodes(Unpack(word), r))
  {
    hide RunFrom, Emits, CodesBelow, LittleEndian, Unpack, Pack, PacketOf, Pow2, InitMeta, Decodes;
    var bitLen := ReadLength(mem);
    LengthFits(bitLen, maskBits);
    var core := ParseBuffer(p, mem[8..], bitLen, Some(maskBits));
    ghost var pkt := PacketOf(mem[8..], bitLen);
    ghost var r := Parse(p, pkt, AlwaysStructural);
    RunConsumesWithin(p, pkt, AlwaysStructural, p.start, Initial(p), p.maxDepth);
    if CodesBelow(p, 240) {
      RunBelow(p, pkt, AlwaysStructural, p.start, Initial(p), p.maxDepth, 240);
    }
    if !AuthoredFrom(r.outcome, 0xfff0) {
      PackedDecodes(core, r);
    }
    word := Pack(core.outcome, ReasonCode(core.reason), core.consumed);
  }

  lemma LengthFits(bitLen: nat, k: nat)
    requires k <= 44 && bitLen <= 8 * Pow2(k)
    ensures bitLen < Pow2(48) && Pow2(48) < 0x8000_0000_0000_0000
  {
    Pow2Mono(k, 44);
    assert Pow2(4) == 16;
    Pow2Add(44, 4);
    Pow2Small();
    Pow2Add(32, 16);
  }
}
