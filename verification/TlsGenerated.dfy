/** The generated TLS parser: the description passes the validator's checks, so the emitted core
    accepts exactly the encoded ClientHellos. */
module TlsGenerated {
  import opened Bits
  import opened Ir
  import opened Semantics
  import opened Regions
  import opened Totality
  import opened Loads
  import opened ParseCore
  import opened Certificates
  import opened Generator
  import opened Steps
  import opened WholeBytes
  import opened Alignment
  import opened ByteView
  import opened PopRules
  import opened TlsClienthello
  import opened TlsEncoding
  import TlsWalk

  /** The header type of each instance. */
  function HeaderOf(inst: Name): List<FieldDecl> {
    match inst
    case 0 => Record().fields
    case 1 => HsState(0).extracts.head.fields
    case 2 => FixedState(0).extracts.head.fields
    case 3 => Cons(UintField(0, 1), Nil)
    case 4 => Cons(RunField(0, Ref(SID_LEN, 0)), Nil)
    case 5 => Cons(UintField(0, 2), Nil)
    case 6 => Cons(RunField(0, Ref(CS_LEN, 0)), Nil)
    case 7 => Cons(UintField(0, 1), Nil)
    case 8 => Cons(RunField(0, Ref(COMP_LEN, 0)), Nil)
    case 9 => Cons(UintField(0, 2), Nil)
    case 10 => ExtState(0, 0).extracts.head.fields
    case 11 => Cons(RunField(0, Ref(EXT, 1)), Nil)
    case 12 => Cons(UintField(0, 2), Nil)
    case 13 => SniEntryState(0).extracts.head.fields
    case _ => Cons(RunField(0, Ref(SNI_ENTRY, 1)), Nil)
  }

  function Types(): Typing {
    map inst: Name | 0 <= inst < 15 :: HeaderOf(inst)
  }

  /** Instances a state relies on. */
  function InOf(q: Name): set<Name> {
    match q
    case 1 => {RECORD}
    case 5 => {SID_LEN}
    case 7 => {CS_LEN}
    case 8 => {CS_LEN}
    case 10 => {COMP_LEN}
    case 15 => {EXT}
    case 16 => {EXT}
    case 19 => {SNI_ENTRY}
    case _ => {}
  }

  /** Region depth at the entry of each state: one inside the record, two inside the handshake,
      three inside the extension block, up to five inside a host name entry. */
  function DepthOf(q: Name): nat
    requires q < 22
  {
    [0, 1, 1, 2, 2, 2, 2, 2, 2, 2, 2, 2, 2, 3, 3, 3, 3, 4, 5, 5, 3, 2][q]
  }

  function Known(): Certificate {
    Certificate(Types(), seq(22, q requires 0 <= q < 22 => InOf(q)), seq(22, q requires 0 <= q < 22 => DepthOf(q)))
  }

  /** Fixed fields each header starts with. */
  function LeadOf(): map<Name, nat> {
    map[RECORD := 4, HANDSHAKE := 2, BODY_FIXED := 1, SID_LEN := 1, CS_LEN := 1, COMP_LEN := 1, EXT_LEN := 1, EXT := 2,
        SNI_LIST := 1, SNI_ENTRY := 2]
  }

  /** The other header each width names. */
  function NeedOf(): map<Name, set<Name>> {
    map[RECORD := {}, HANDSHAKE := {}, BODY_FIXED := {}, SID_LEN := {}, SID := {SID_LEN}, CS_LEN := {}, CS := {CS_LEN},
        COMP_LEN := {}, COMP := {COMP_LEN}, EXT_LEN := {}, EXT := {}, SKIP := {EXT}, SNI_LIST := {}, SNI_ENTRY := {},
        HOST := {SNI_ENTRY}]
  }

  function Layout(): Facts {
    Facts(LeadOf(), NeedOf())
  }

  lemma LeadsHold(inst: Name)
    requires inst in Layout().lead
    ensures inst in Types() && StartsFixed(Types()[inst], Layout().lead[inst])
  {
    hide NeedOf;
  }

  lemma FirstNeeds(inst: Name)
    requires inst < 7
    ensures inst in Layout().needs && ReadableOnce(Types(), inst, Layout().needs[inst])
  {
    hide LeadOf;
  }

  lemma LaterNeeds(inst: Name)
    requires 7 <= inst < 15
    ensures inst in Layout().needs && ReadableOnce(Types(), inst, Layout().needs[inst])
  {
    hide LeadOf;
  }

  lemma LayoutHolds()
    ensures FactsHold(Types(), Layout())
  {
    forall inst | inst in Layout().lead
      ensures inst in Types() && StartsFixed(Types()[inst], Layout().lead[inst])
    {
      LeadsHold(inst);
    }
    forall inst | inst in Layout().needs
      ensures ReadableOnce(Types(), inst, Layout().needs[inst])
    {
      if inst < 7 {
        FirstNeeds(inst);
      } else {
        LaterNeeds(inst);
      }
    }
  }

  /** The instance a state reads. */
  function ReadOf(q: Name): set<Name> {
    match q
    case 0 => {RECORD}
    case 2 => {HANDSHAKE}
    case 3 => {BODY_FIXED}
    case 4 => {SID_LEN}
    case 5 => {SID}
    case 6 => {CS_LEN}
    case 8 => {CS}
    case 9 => {COMP_LEN}
    case 10 => {COMP}
    case 12 => {EXT_LEN}
    case 14 => {EXT}
    case 15 => {SKIP}
    case 17 => {SNI_LIST}
    case 18 => {SNI_ENTRY}
    case 19 => {HOST}
    case _ => {}
  }

  lemma StateExtracts(q: Name)
    requires q < 22
    ensures Extracted(StateOf(q).extracts) == ReadOf(q)
  {
    hide TimesEight, On, When, PushOf, Pops, ExtSelect, UintField, RunField;
  }

  lemma StateReads(q: Name)
    requires q < 22
    ensures ExtractFits(StateOf(q).extracts, Types(), Layout(), InOf(q))
  {
    hide LeadOf, TimesEight, On, When, PushOf, Pops, ExtSelect;
  }

  lemma StateAssigns(q: Name)
    requires q < 22
    ensures AssignsFit(StateOf(q).assigns, Layout(), InOf(q) + ReadOf(q), 2, DepthOf(q) > 0)
  {
    hide Record, One, Two, NeedOf, TimesEight, On, When, PushOf, Pops, ExtSelect, UintField, RunField;
  }

  lemma StatePushes(q: Name)
    requires q < 22
    ensures OpsFit(StateOf(q).ops, Layout(), InOf(q) + ReadOf(q))
  {
    hide Record, One, Two, NeedOf, On, When, ExtSelect, UintField, RunField;
  }

  lemma StateDepths(q: Name)
    requires q < 22
    ensures StateDepth(StateOf(q), DepthOf(q)) == Some(ExitOf(q))
  {
    hide UintField, RunField;
  }

  function ExitOf(q: Name): nat
    requires q < 22
  {
    [1, 1, 2, 2, 2, 2, 2, 2, 2, 2, 2, 2, 3, 3, 3, 3, 4, 5, 5, 3, 0, 0][q]
  }

  lemma StateKeys(q: Name)
    requires q < 22 && StateOf(q).transition.Select?
    ensures KeysFit(StateOf(q).transition.keys, Layout(), InOf(q) + ReadOf(q), 2, ExitOf(q) > 0)
  {
    hide Record, One, Two, NeedOf, TimesEight, PushOf, Pops, When, UintField, RunField;
  }

  /** The states a state may be followed by. */
  function Next(q: Name): set<Name> {
    match q
    case 0 => {S_RECVER}
    case 1 => {S_HS}
    case 2 => {S_FIXED}
    case 3 => {S_SID_LEN}
    case 4 => {S_SID}
    case 5 => {S_CS_LEN}
    case 6 => {S_CS_PARITY}
    case 7 => {S_CS}
    case 8 => {S_COMP_LEN}
    case 9 => {S_COMP}
    case 10 => {S_EXT_CHECK}
    case 11 => {S_DONE_NOEXT, S_EXT_LEN}
    case 12 => {S_TLV}
    case 13 => {S_DONE, S_EXT}
    case 14 => {S_SNI, S_SKIP}
    case 15 => {S_TLV}
    case 16 => {S_SNI_LIST}
    case 17 => {S_SNI_ENTRY}
    case 18 => {S_HOST}
    case 19 => {S_TLV}
    case _ => {}
  }

  lemma TargetIsNext(q: Name, r: Name)
    requires q < 22 && Member(ToState(r), TargetList(StateOf(q).transition))
    ensures r in Next(q)
  {
    hide TimesEight, PushOf, Pops, UintField, RunField, Ref;
  }

  lemma NextAllowed(q: Name, r: Name)
    requires q < 22 && r in Next(q)
    ensures 0 < r < 22 && InOf(r) <= InOf(q) + ReadOf(q) && DepthOf(r) == ExitOf(q)
  {
    hide Record, One, Two, TimesEight, PushOf, Pops, UintField, RunField, Ref, On, When, ExtSelect;
  }

  lemma StateTargets(q: Name)
    requires q < 22
    ensures TargetsFit(TargetList(StateOf(q).transition), Known(), InOf(q) + Extracted(StateOf(q).extracts), ExitOf(q))
  {
    hide StateOf, Known, TargetList, InOf, DepthOf, Extracted;
    KnownAt(0);
    StateExtracts(q);
    forall r: Name | Member(ToState(r), TargetList(StateOf(q).transition))
      ensures r < 22 && Known().ins[r] <= InOf(q) + Extracted(StateOf(q).extracts) && Known().depths[r] == ExitOf(q)
    {
      TargetIsNext(q, r);
      NextAllowed(q, r);
      KnownAt(r);
    }
    TargetsFitAll(TargetList(StateOf(q).transition), Known(), InOf(q) + Extracted(StateOf(q).extracts), ExitOf(q));
  }

  lemma StateChecks(q: Name)
    requires q < 22
    ensures Checks(StateOf(q), Known(), Layout(), q, 2)
  {
    hide ReadOf, StateOf, Known, ExtractFits, AssignsFit, OpsFit, KeysFit, TargetsFit, StateDepth, Types, Layout;
    KnownAt(q);
    StateExtracts(q);
    StateReads(q);
    StateAssigns(q);
    StatePushes(q);
    StateDepths(q);
    StateTargets(q);
    if StateOf(q).transition.Select? {
      StateKeys(q);
    }
  }

  lemma KnownAt(q: Name)
    requires q < 22
    ensures Known().ty == Types() && |Known().ins| == |Known().depths| == 22
    ensures Known().ins[q] == InOf(q) && Known().depths[q] == DepthOf(q)
  {
  }

  lemma StatesFit(q: Name)
    requires q < 22
    ensures StateFits(StateOf(q), Known(), q, 2)
  {
    hide *;
    KnownSizes();
    LayoutHolds();
    StateChecks(q);
    ChecksFit(StateOf(q), Known(), Layout(), q, 2);
  }

  lemma PushesOnce(q: Name)
    requires q < 22
    ensures Pushes(StateOf(q).ops) <= 1
  {
  }

  lemma KnownSizes()
    ensures |Known().ins| == |Known().depths| == 22 && Known().ins[0] == {} && Known().depths[0] == 0 && Known().ty == Types()
  {
  }

  /** The description passes the validator's checks, for any budget; its states are entered at
      the region depths listed. */
  lemma DescriptionIsValid(depth: nat)
    ensures WellFormed(Description(depth), Types(), InMap(Known()), DepthMap(Known()), true)
    ensures Generator.Valid(Description(depth))
  {
    hide StateFits, Pushes, Generator.Valid, WellFormed, Known, StateOf;
    var p := Description(depth);
    KnownSizes();
    forall q | 0 <= q < 22
      ensures StateFits(p.states[q], Known(), q, 2) && Pushes(p.states[q].ops) <= 1
    {
      StatesFit(q);
      PushesOnce(q);
    }
    PushesAtMost(p, 22);
    CertifiedIsWellFormed(p, Known());
    CertifiedIsValid(p, Known());
  }

  /** In every run the stack height is that function of the state. */
  lemma StackHeight(pkt: Packet, rule: PopRule, depth: nat, k: nat)
    ensures var e := Entered(Description(depth), pkt, rule, k);
            e.Some? ==> e.value.0 < 22 && |e.value.1.regions| == DepthOf(e.value.0) && Sound(pkt, e.value.1)
  {
    hide StateOf, WellFormed, Consistent, Entered, Sound, Types, Generator.Valid, Description;
    DescriptionIsValid(depth);
    ConsistentOf(Description(depth), Types(), InMap(Known()), DepthMap(Known()));
    HeightIsStatic(Description(depth), DepthMap(Known()), pkt, rule, k);
    EntrySound(Description(depth), pkt, rule, k);
    KnownDepths();
  }

  lemma KnownDepths()
    ensures forall q: Name :: q in DepthMap(Known()) <==> q < 22
    ensures forall q: Name | q < 22 :: DepthMap(Known())[q] == DepthOf(q)
  {
  }

  // ---- When the emitted reasons are the interpreter's ----

  lemma OnlyRecordPushesOutside(q: Name)
    requires 0 < q < 22
    ensures PushesNest(StateOf(q).ops, DepthOf(q))
  {
    hide TimesEight, UintField, RunField;
  }

  lemma RecordIsFirst(q: Name)
    requires q < 22
    ensures !Member(ToState(S_RECORD), TargetList(StateOf(q).transition))
  {
    hide StateOf, TargetList, Next;
    if Member(ToState(S_RECORD), TargetList(StateOf(q).transition)) {
      TargetIsNext(q, S_RECORD);
      NextAllowed(q, S_RECORD);
    }
  }

  /** The record's region is as long as its header says. */
  lemma RecordInside(pkt: Packet, s: seq<byte>, decls: seq<MetaDecl>, cfg: Config)
    requires Holds(pkt, s) && cfg.pos == 0 && cfg.regions == [] && (|s| >= 5 ==> 5 + U16(s, 3) <= |s|)
    ensures StateInside(pkt, decls, StateOf(S_RECORD), cfg)
  {
    hide Holds, Sound, ReadFields, BeginHeader, Record;
    var st := StateOf(S_RECORD);
    var c := RecordHeader(pkt, s, cfg);
    var r1 := RunExtracts(pkt, st.extracts, cfg);
    assert r1 == Header(pkt, Record(), cfg) by {
      OneHeader(pkt, Record(), cfg);
    }
    if |s| >= 5 {
      EvalTimesEight(Ref(RECORD, 3), c.env, c.meta, None, U16(s, 3));
      assert RunAssigns(decls, st.assigns, c) == Go(c);
      var r := RunOp(pkt, AlwaysStructural, st.ops.head, c);
      assert r.Go? ==> r.cfg.regions == [40 + 8 * U16(s, 3)];
      WholeInside(pkt, s);
    }
  }

  lemma WholeInside(pkt: Packet, s: seq<byte>)
    requires Holds(pkt, s)
    ensures 8 * |s| <= |pkt|
  {
  }

  lemma OneHeader(pkt: Packet, ex: Extract, cfg: Config)
    ensures RunExtracts(pkt, Cons(ex, Nil), cfg) == Header(pkt, ex, cfg)
  {
    var r := Header(pkt, ex, cfg);
    if r.Go? {
      assert RunExtracts(pkt, Nil, r.cfg) == Go(r.cfg);
    }
  }

  lemma EntryStaysInside(pkt: Packet, depth: nat, k: nat)
    requires |pkt| >= 40 ==> 5 + U16(BytesOf(pkt), 3) <= |pkt| / 8
    ensures InsideAt(Description(depth), pkt, k)
  {
    hide StateOf, StateInside, Entered, Sound, Description, DepthOf;
    var p := Description(depth);
    StackHeight(pkt, AlwaysStructural, depth, k);
    SameStates(depth);
    var e := Entered(p, pkt, AlwaysStructural, k);
    if e.Some? {
      var (q, cfg) := e.value;
      if q == S_RECORD {
        RecordEntry(pkt, depth, k);
        HoldsOwn(pkt);
        RecordInside(pkt, BytesOf(pkt), p.metadata, cfg);
      } else {
        OnlyRecordPushesOutside(q);
        StateNests(pkt, p.metadata, StateOf(q), cfg);
      }
    }
  }

  lemma SameStates(depth: nat)
    ensures |Description(depth).states| == 22 && forall q | 0 <= q < 22 :: Description(depth).states[q] == StateOf(q)
    ensures Description(depth).start == S_RECORD
  {
  }

  /** The record header is read at the start of the packet only. */
  lemma RecordEntry(pkt: Packet, depth: nat, k: nat)
    requires var e := Entered(Description(depth), pkt, AlwaysStructural, k); e.Some? && e.value.0 == S_RECORD
    ensures var cfg := Entered(Description(depth), pkt, AlwaysStructural, k).value.1; cfg.pos == 0 && cfg.regions == []
  {
    hide StateOf, Step, Description, TargetList;
    SameStates(depth);
    if k > 0 {
      var e := Entered(Description(depth), pkt, AlwaysStructural, k - 1).value;
      StepFollowsEdge(Description(depth), pkt, AlwaysStructural, e.0, e.1);
      RecordIsFirst(e.0);
    }
  }

  /** If the packet holds its whole record, or not even the record's header, the emitted code
      gives the interpreter's reason. */
  lemma WholeRecordReasonsAgree(pkt: Packet, depth: nat)
    requires |pkt| >= 40 ==> 5 + U16(BytesOf(pkt), 3) <= |pkt| / 8
    ensures Parse(Description(depth), pkt, ByInput).outcome == Parse(Description(depth), pkt, AlwaysStructural).outcome
  {
    hide Description, InsideAt, BytesOf;
    forall k: nat
      ensures InsideAt(Description(depth), pkt, k)
    {
      EntryStaysInside(pkt, depth, k);
    }
    InsideAgrees(Description(depth), pkt);
  }

  predicate WholeWidth(f: FieldDecl) {
    WidthMod8(f.width) == Some(0)
  }

  lemma OneOrTwoWhole(inst: Name, f: FieldDecl, g: FieldDecl)
    requires WholeWidth(f) && WholeWidth(g)
    ensures WholeHeaders(Cons(One(inst, f), Nil)) && WholeHeaders(Cons(Two(inst, f, g), Nil))
  {
    assert FieldsDelta(Cons(g, Nil), Some(0)) == Some(0);
    assert FieldsDelta(Cons(f, Nil), Some(0)) == Some(0);
  }

  lemma RecordIsWhole()
    ensures WholeHeaders(Cons(Record(), Nil))
  {
    assert FieldsDelta(Record().fields.tail.tail, Some(0)) == Some(0);
  }

  lemma StateIsWholeBytes(q: Name)
    requires q < 22
    ensures WholeHeaders(StateOf(q).extracts) && WholePushes(StateOf(q).ops)
  {
    forall e: Expr
      ensures ExprMod8(TimesEight(e)) == Some(0)
    {
      TimesEightIsWhole(e);
    }
    RecordIsWhole();
    assert WholeHeaders(Nil);
    forall inst: Name, f: FieldDecl, g: FieldDecl | WholeWidth(f) && WholeWidth(g)
      ensures WholeHeaders(Cons(One(inst, f), Nil)) && WholeHeaders(Cons(Two(inst, f, g), Nil))
    {
      OneOrTwoWhole(inst, f, g);
    }
    hide TimesEight, FieldsDelta, Record, On, When, WholeHeaders, One, Two;
  }

  /** So remaining() is exact in bytes wherever the description asks for it, on every packet. */
  lemma RemainingIsExact(pkt: Packet, rule: PopRule, depth: nat, k: nat)
    ensures WholeByteProgram(Description(depth))
    ensures var e := Entered(Description(depth), pkt, rule, k);
            e.Some? ==> OnBytes(e.value.1)
                        && (e.value.0 < 22 ==> StateExact(pkt, rule, Description(depth).metadata, StateOf(e.value.0), e.value.1))
  {
    forall q | 0 <= q < 22
      ensures WholeHeaders(StateOf(q).extracts) && WholePushes(StateOf(q).ops)
    {
      StateIsWholeBytes(q);
    }
    hide StateOf, OnBytes, StateExact, WholeHeaders, WholePushes;
    EntryOnBytes(Description(depth), pkt, rule, k);
  }

  /** The scan of a packet, every pop of an unexhausted region structural. */
  function Scanned(pkt: Packet, depth: nat): TlsWalk.Ending {
    TlsWalk.Scan(TlsWalk.Layer.Record, pkt, BytesOf(pkt), AlwaysStructural, 0, [], 0, depth)
  }

  /** The generated C accepts a buffer exactly when it carries an encoded ClientHello within the
      budget, and then consumes that record; on every buffer its outcome, reason and consumed bits
      are those of the scan. */
  method GeneratedParse(buf: seq<byte>, bitLen: u64, mask: Option<nat>, depth: nat) returns (core: Core)
    requires bitLen <= 8 * |buf| && bitLen <= 0x8000_0000_0000_0000 && InContract(bitLen, mask)
    ensures core.outcome == 0 <==> Carried(PacketOf(buf, bitLen), depth)
    ensures forall h | Carries(PacketOf(buf, bitLen), h) && Cost(h) <= depth :: core.consumed == 8 * |Encode(h)|
    ensures var e := Scanned(PacketOf(buf, bitLen), depth);
            && core.consumed == e.consumed
            && match e.outcome
               case Accepted => core.outcome == 0 && core.reason == None
               case Rejected(reason) => core.outcome == 1 && core.reason == Some(reason)
               case Faulted => false
  {
    var p := Description(depth);
    DescriptionIsValid(depth);
    DescriptionDescribes(depth);
    hide Generator.Valid, Parse, StateOf, TlsWalk.Scan;
    TlsWalk.ParseIsScan(p, PacketOf(buf, bitLen), AlwaysStructural);
    ValidNeverFaults(p, PacketOf(buf, bitLen), AlwaysStructural);
    core := ParseBuffer(p, buf, bitLen, mask);
    AcceptsExactly(p, PacketOf(buf, bitLen), AlwaysStructural);
  }
}
