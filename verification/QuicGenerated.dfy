/** The generated QUIC parser: the description passes the validator's checks, so the emitted core
    records what the decoding says. */
module QuicGenerated {
  import opened Bits
  import opened Ir
  import opened Semantics
  import opened Regions
  import opened Totality
  import opened Loads
  import opened ParseCore
  import opened Certificates
  import opened Generator
  import opened WholeBytes
  import opened Steps
  import opened QuicInitial
  import opened QuicRuns

  /** The header type of each instance. */
  function HeaderOf(inst: Name): List<FieldDecl> {
    match inst
    case 0 => FirstFields()
    case 1 => Cons(UintField(0, 4), Nil)
    case 2 => OtherFields()
    case 3 => Cons(UintField(0, 1), Nil)
    case 4 => CidState(DCID, DCID_LEN, Direct(ToAccept)).extracts.head.fields
    case 5 => Cons(UintField(0, 1), Nil)
    case 6 => CidState(SCID, SCID_LEN, Direct(ToAccept)).extracts.head.fields
    case 7 => LeadFields()
    case 8 => LeadFields()
    case 9 => TokFields(0)
    case 10 => TokFields(1)
    case 11 => TokFields(2)
    case 12 => TokFields(3)
    case 13 => Cons(UintField(0, 1), Nil)
    case 14 => Cons(UintField(0, 3), Nil)
    case _ => Cons(UintField(0, 7), Nil)
  }

  function Types(): Typing {
    map inst: Name | 0 <= inst < 16 :: HeaderOf(inst)
  }

  /** Instances a state relies on. */
  function InOf(q: Name): set<Name> {
    match q
    case 1 => {FIRST}
    case 3 => {FIRST}
    case 4 => {FIRST, DCID_LEN}
    case 5 => {FIRST}
    case 6 => {FIRST, SCID_LEN}
    case _ => if 16 <= q < 20 then {TOK_LEAD} else if 20 <= q then {LEN_LEAD} else {}
  }

  /** No region is ever open. */
  function Known(): Certificate {
    Certificate(Types(), seq(24, q requires 0 <= q < 24 => InOf(q)), seq(24, _ => 0))
  }

  /** Fixed fields each header starts with. */
  function LeadOf(): map<Name, nat> {
    map[FIRST := 4, VERSION := 1, DCID_LEN := 1, SCID_LEN := 1, TOK_LEAD := 2, LEN_LEAD := 2,
        TOK + 1 := 1, TOK + 2 := 1, TOK + 3 := 1, LEN + 1 := 1, LEN + 2 := 1, LEN + 3 := 1]
  }

  /** The other header each width names. */
  function NeedOf(): map<Name, set<Name>> {
    map[FIRST := {}, VERSION := {}, OTHER_CIDS := {}, DCID_LEN := {}, DCID := {DCID_LEN}, SCID_LEN := {}, SCID := {SCID_LEN},
        TOK_LEAD := {}, LEN_LEAD := {}, TOK := {TOK_LEAD}, TOK + 1 := {TOK_LEAD}, TOK + 2 := {TOK_LEAD}, TOK + 3 := {TOK_LEAD},
        LEN + 1 := {}, LEN + 2 := {}, LEN + 3 := {}]
  }

  function Layout(): Facts {
    Facts(LeadOf(), NeedOf())
  }

  lemma LeadsHold(inst: Name)
    requires inst in Layout().lead
    ensures inst in Types() && StartsFixed(Types()[inst], Layout().lead[inst])
  {
    hide NeedOf;
  }

  lemma CidNeeds(inst: Name)
    requires inst < 9
    ensures inst in Layout().needs && ReadableOnce(Types(), inst, Layout().needs[inst])
  {
    hide LeadOf;
  }

  lemma LeadTyped(have: set<Name>, own: Option<Name>, read: set<Name>)
    requires TOK_LEAD in have
    ensures RefOk(FieldRef(TOK_LEAD, 1), Scope(Types(), have, own, read, true))
  {
  }

  /** The token's length names the lead, and the tail read before it. */
  lemma TokNeeds(t: nat)
    requires t < 4
    ensures ReadableOnce(Types(), TOK + t, {TOK_LEAD})
  {
    TokHeader(t);
    forall have: set<Name> | {TOK_LEAD} <= have
      ensures WidthsOk(TokFields(t), Scope(Types(), have, Some(TOK + t), {}, true))
    {
      hide Types;
      var s := Scope(Types(), have, Some(TOK + t), {}, true);
      LeadTyped(have, Some(TOK + t), {});
      LeadTyped(have, Some(TOK + t), {0});
      assert s.(read := {} + {0}) == s.(read := {0});
    }
    hide WidthsOk;
  }

  lemma TokHeader(t: nat)
    requires t < 4
    ensures TOK + t in Types() && Types()[TOK + t] == TokFields(t)
  {
    hide TokFields;
  }

  lemma LenNeeds(t: nat)
    requires 0 < t < 4
    ensures ReadableOnce(Types(), LEN + t, {})
  {
  }

  lemma TierNeeds(inst: Name)
    requires 9 <= inst < 16
    ensures inst in Layout().needs && ReadableOnce(Types(), inst, Layout().needs[inst])
  {
    hide LeadOf, Types, ReadableOnce;
    if inst < 13 {
      TokNeeds(inst - 9);
    } else {
      LenNeeds(inst - 12);
    }
  }

  lemma LayoutHolds()
    ensures FactsHold(Types(), Layout())
  {
    forall inst | inst in Layout().lead
      ensures inst in Types() && StartsFixed(Types()[inst], Layout().lead[inst])
    {
      LeadsHold(inst);
    }
    forall inst | inst in Layout().needs
      ensures ReadableOnce(Types(), inst, Layout().needs[inst])
    {
      if inst < 9 {
        CidNeeds(inst);
      } else {
        TierNeeds(inst);
      }
    }
  }

  /** The instance a state reads. */
  function ReadOf(q: Name): set<Name> {
    if q < 9 then {q} else if 16 <= q < 20 then {TOK + (q - 16)} else if 20 < q < 24 then {LEN + (q - 20)} else {}
  }

  lemma StateExtracts(q: Name)
    requires q < 24
    ensures Extracted(StateOf(q).extracts) == ReadOf(q)
  {
    hide TimesEight, On, When, FourWays, UpTo20, Composed, UintField, RunField, FirstFields, OtherFields, LeadFields, TokFields;
  }

  lemma StateReads(q: Name)
    requires q < 24
    ensures ExtractFits(StateOf(q).extracts, Types(), Layout(), InOf(q))
  {
    hide FirstFields, OtherFields, LeadFields, TokFields, UintField, RunField, LeadOf, TimesEight, On, When, FourWays, UpTo20, Composed;
  }

  lemma StateAssigns(q: Name)
    requires q < 24
    ensures AssignsFit(StateOf(q).assigns, Layout(), InOf(q) + ReadOf(q), 3, false)
  {
    hide NeedOf, TimesEight, On, When, FourWays, UpTo20, UintField, RunField, FirstFields, OtherFields, LeadFields, TokFields;
  }

  lemma StateOps(q: Name)
    requires q < 24
    ensures StateOf(q).ops.Nil? && StateDepth(StateOf(q), 0) == Some(0)
  {
    hide TimesEight, When, UintField, RunField, FirstFields, OtherFields, LeadFields, TokFields;
  }

  lemma StateKeys(q: Name)
    requires q < 24 && StateOf(q).transition.Select?
    ensures KeysFit(StateOf(q).transition.keys, Layout(), InOf(q) + ReadOf(q), 3, false)
  {
    hide NeedOf, TimesEight, When, UintField, RunField, FirstFields, OtherFields, LeadFields, TokFields, Composed;
  }

  /** The states a state may be followed by. */
  function Next(q: Name): set<Name> {
    match q
    case 0 => {S_SHORT, S_VERSION}
    case 1 => {S_DCID_LEN, S_NEGOTIATION, S_UNKNOWN}
    case 3 => {S_DCID}
    case 4 => {S_SCID_LEN}
    case 5 => {S_SCID}
    case 6 => {S_KIND, S_KIND + 1, S_KIND + 2, S_KIND + 3}
    case 7 => {S_TOK, S_TOK + 1, S_TOK + 2, S_TOK + 3}
    case 8 => {S_LEN, S_LEN + 1, S_LEN + 2, S_LEN + 3}
    case 10 => {S_OTHER_CIDS}
    case 11 => {S_OTHER_CIDS}
    case 12 => {S_TOK_LEAD}
    case 13 => {S_LEN_LEAD}
    case 14 => {S_LEN_LEAD}
    case _ => if 16 <= q < 20 then {S_LEN_LEAD} else {}
  }

  lemma FirstOrLater(v: nat, t: Name, arms: List<Arm>, rest: List<Target>, r: Name)
    ensures Member(ToState(r), ArmTargets(When(v, ToState(t), arms), rest)) <==> r == t || Member(ToState(r), ArmTargets(arms, rest))
  {
  }

  lemma FourTargets(key: Expr, base: Name, r: Name)
    requires Member(ToState(r), TargetList(FourWays(key, base)))
    ensures base <= r < base + 4
  {
    var rest := Cons(ToReject(UNREACHABLE), Nil);
    var three := When(3, ToState(base + 3), Nil);
    var two := When(2, ToState(base + 2), three);
    var one := When(1, ToState(base + 1), two);
    FirstOrLater(0, base, one, rest, r);
    FirstOrLater(1, base + 1, two, rest, r);
    FirstOrLater(2, base + 2, three, rest, r);
    FirstOrLater(3, base + 3, Nil, rest, r);
  }

  lemma TargetIsNext(q: Name, r: Name)
    requires q < 24 && Member(ToState(r), TargetList(StateOf(q).transition))
    ensures r in Next(q)
  {
    hide TimesEight, UintField, RunField, FirstFields, OtherFields, LeadFields, TokFields, Composed, Ref, FourWays;
    if q == S_SCID {
      FourTargets(Ref(FIRST, 2), S_KIND, r);
    } else if q == S_TOK_LEAD {
      FourTargets(Ref(TOK_LEAD, 0), S_TOK, r);
    } else if q == S_LEN_LEAD {
      FourTargets(Ref(LEN_LEAD, 0), S_LEN, r);
    }
  }

  lemma NextAllowed(q: Name, r: Name)
    requires q < 24 && r in Next(q)
    ensures r < 24 && InOf(r) <= InOf(q) + ReadOf(q)
  {
    hide TimesEight, UintField, RunField, FirstFields, OtherFields, LeadFields, TokFields, Composed, Ref, On, When, FourWays, UpTo20;
  }

  lemma StateTargets(q: Name)
    requires q < 24
    ensures TargetsFit(TargetList(StateOf(q).transition), Known(), InOf(q) + Extracted(StateOf(q).extracts), 0)
  {
    hide StateOf, Known, TargetList, InOf, Extracted, Next;
    KnownAt(0);
    StateExtracts(q);
    forall r: Name | Member(ToState(r), TargetList(StateOf(q).transition))
      ensures r < 24 && Known().ins[r] <= InOf(q) + Extracted(StateOf(q).extracts) && Known().depths[r] == 0
    {
      TargetIsNext(q, r);
      NextAllowed(q, r);
      KnownAt(r);
    }
    TargetsFitAll(TargetList(StateOf(q).transition), Known(), InOf(q) + Extracted(StateOf(q).extracts), 0);
  }

  lemma KnownAt(q: Name)
    requires q < 24
    ensures Known().ty == Types() && |Known().ins| == |Known().depths| == 24
    ensures Known().ins[q] == InOf(q) && Known().depths[q] == 0
  {
  }

  lemma StateChecks(q: Name)
    requires q < 24
    ensures Known().ty == Types() && |Known().ins| == |Known().depths| == 24 && Checks(StateOf(q), Known(), Layout(), q, 3)
  {
    hide ReadOf, StateOf, Known, ExtractFits, AssignsFit, KeysFit, TargetsFit, StateDepth, Types, Layout;
    KnownAt(q);
    StateExtracts(q);
    StateReads(q);
    StateAssigns(q);
    StateOps(q);
    StateTargets(q);
    if StateOf(q).transition.Select? {
      StateKeys(q);
    }
  }

  lemma StatesFit(q: Name)
    requires q < 24
    ensures StateFits(StateOf(q), Known(), q, 3)
  {
    hide *;
    KnownAt(q);
    LayoutHolds();
    StateChecks(q);
    ChecksFit(StateOf(q), Known(), Layout(), q, 3);
  }

  lemma NoPushes(q: Name)
    requires q < 24
    ensures Pushes(StateOf(q).ops) <= 1
  {
    hide FourWays, UpTo20, TokFields, Composed;
  }

  /** The description passes the validator's checks, for any budget. */
  lemma DescriptionIsValid(depth: nat)
    ensures Valid(Description(depth))
  {
    hide StateFits, Pushes, Valid, Known, StateOf;
    var p := Description(depth);
    forall q | 0 <= q < 24
      ensures StateFits(p.states[q], Known(), q, 3) && Pushes(p.states[q].ops) <= 1
    {
      StatesFit(q);
      NoPushes(q);
    }
    PushesAtMost(p, 24);
    CertifiedIsValid(p, Known());
  }

  /** The generated C answers what the decoding of section 16 of RFC 9000 does: outcome, reason,
      consumed bits and the three registers. */
  method GeneratedParse(buf: seq<byte>, bitLen: u64, mask: Option<nat>, depth: nat) returns (core: Core)
    requires bitLen <= 8 * |buf| && bitLen <= 0x8000_0000_0000_0000 && InContract(bitLen, mask) && depth >= 11
    ensures match Decoded(buf[..bitLen / 8], bitLen % 8)
            case Fine(at, kind, tokenLen, length) =>
              core.outcome == 0 && core.consumed == 8 * at && Records(core.meta, kind, tokenLen, length)
            case Refused(reason, consumed) => core.outcome == 1 && core.reason == Some(reason) && core.consumed == consumed
  {
    hide Valid, Parse, StateOf, Decoded, Records;
    var p := Description(depth);
    DescriptionIsValid(depth);
    ValidNeverFaults(p, PacketOf(buf, bitLen), AlwaysStructural);
    core := ParseBuffer(p, buf, bitLen, mask);
    ParseIsDecoded(p, PacketOf(buf, bitLen), AlwaysStructural);
    BytesOfPacket(buf, bitLen);
  }
}
