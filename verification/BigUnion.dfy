/** The gibb_big_union description: 29 states, bounded tag, label and tunnel stacks unrolled, a
    four-bit lookahead, and two headers that end in options. */
module BigUnion {
  import opened Bits
  import opened Ir
  import opened Semantics
  import opened Regions
  import opened Totality
  import opened Budget
  import opened Loads
  import opened ParseCore
  import opened Certificates
  import opened Generator
  import opened WholeBytes
  import opened Layouts
  import opened Steps
  import opened Observables

  // ---- Headers ----

  const ETHERNET: Name := 0
  const VLAN: Name := 1
  const VLAN_AD: Name := 2
  const PBB: Name := 3
  const MPLS: Name := 4
  const NIBBLE: Name := 5
  const EOMPLS: Name := 6
  const IPV4: Name := 7
  const IPV6: Name := 8
  const ICMP: Name := 9
  const ICMPV6: Name := 10
  const TCP: Name := 11
  const UDP: Name := 12
  const VXLAN: Name := 13
  const SCTP: Name := 14
  const GRE: Name := 15
  const NVGRE: Name := 16
  const ESP: Name := 17
  const AH: Name := 18
  const ARP: Name := 19
  const ARP_IPV4: Name := 20
  const ETHERNET2: Name := 21

  function EthernetFields(): List<FieldDecl> {
    B(0, 48, B(1, 48, B(2, 16, Nil)))
  }

  function TagFields(): List<FieldDecl> {
    B(0, 3, B(1, 1, B(2, 12, B(3, 16, Nil))))
  }

  function Ipv4Fields(): List<FieldDecl> {
    B(0, 4, B(1, 4, B(2, 8, B(3, 16, B(4, 16, B(5, 3, Ipv4Rest()))))))
  }

  /** From the fragment offset on. */
  function Ipv4Rest(): List<FieldDecl> {
    B(6, 13, B(7, 8, B(8, 8, B(9, 16, B(10, 32, B(11, 32, V(12, Options(IPV4, 1), Nil)))))))
  }

  function Ipv6Fields(): List<FieldDecl> {
    B(0, 4, B(1, 8, B(2, 20, B(3, 16, B(4, 8, B(5, 8, V(6, Const(16), V(7, Const(16), Nil))))))))
  }

  function TcpFields(): List<FieldDecl> {
    B(0, 16, B(1, 16, B(2, 32, B(3, 32, B(4, 4, B(5, 3, TcpRest()))))))
  }

  /** From the congestion bits on. */
  function TcpRest(): List<FieldDecl> {
    B(6, 3, B(7, 6, B(8, 16, B(9, 16, B(10, 16, V(11, Options(TCP, 4), Nil))))))
  }

  function GreFields(): List<FieldDecl> {
    B(0, 1, B(1, 1, B(2, 1, B(3, 1, B(4, 1, B(5, 3, B(6, 5, B(7, 3, B(8, 16, Nil)))))))))
  }

  function PbbFields(): List<FieldDecl> {
    B(0, 3, B(1, 1, B(2, 1, B(3, 3, B(4, 24, Nil)))))
  }

  function MplsFields(): List<FieldDecl> {
    B(0, 20, B(1, 3, B(2, 1, B(3, 8, Nil))))
  }

  function NibbleFields(): List<FieldDecl> {
    B(0, 4, Nil)
  }

  function EomplsFields(): List<FieldDecl> {
    B(0, 4, B(1, 12, B(2, 16, Nil)))
  }

  function IcmpFields(): List<FieldDecl> {
    B(0, 8, B(1, 8, B(2, 16, Nil)))
  }

  function UdpFields(): List<FieldDecl> {
    B(0, 16, B(1, 16, B(2, 16, B(3, 16, Nil))))
  }

  function VxlanFields(): List<FieldDecl> {
    B(0, 8, B(1, 24, B(2, 24, B(3, 8, Nil))))
  }

  function SctpFields(): List<FieldDecl> {
    B(0, 16, B(1, 16, B(2, 32, B(3, 32, Nil))))
  }

  function NvgreFields(): List<FieldDecl> {
    B(0, 24, B(1, 8, Nil))
  }

  function EspFields(): List<FieldDecl> {
    B(0, 32, B(1, 32, Nil))
  }

  function AhFields(): List<FieldDecl> {
    B(0, 8, B(1, 8, B(2, 16, B(3, 32, B(4, 32, Nil)))))
  }

  function ArpFields(): List<FieldDecl> {
    B(0, 16, B(1, 16, B(2, 8, B(3, 8, B(4, 16, Nil)))))
  }

  function ArpIpv4Fields(): List<FieldDecl> {
    B(0, 48, B(1, 32, B(2, 48, B(3, 32, Nil))))
  }

  function Layout(inst: Name): List<FieldDecl> {
    match inst
    case 0 => EthernetFields()
    case 1 => TagFields()
    case 2 => TagFields()
    case 3 => PbbFields()
    case 4 => MplsFields()
    case 5 => NibbleFields()
    case 6 => EomplsFields()
    case 7 => Ipv4Fields()
    case 8 => Ipv6Fields()
    case 9 => IcmpFields()
    case 10 => IcmpFields()
    case 11 => TcpFields()
    case 12 => UdpFields()
    case 13 => VxlanFields()
    case 14 => SctpFields()
    case 15 => GreFields()
    case 16 => NvgreFields()
    case 17 => EspFields()
    case 18 => AhFields()
    case 19 => ArpFields()
    case 20 => ArpIpv4Fields()
    case _ => EthernetFields()
  }

  // ---- States ----

  const S_ETHERNET: Name := 0
  const S_VLAN_Q1: Name := 1
  const S_VLAN_AD: Name := 2
  const S_VLAN_Q2: Name := 3
  const S_PBB: Name := 4
  const S_MPLS1: Name := 5
  const S_MPLS2: Name := 6
  const S_MPLS3: Name := 7
  const S_MPLS4: Name := 8
  const S_MPLS5: Name := 9
  const S_MPLS_PAYLOAD: Name := 10
  const S_EOMPLS: Name := 11
  const S_IPV4: Name := 12
  const S_IPV6: Name := 13
  const S_ICMP: Name := 14
  const S_ICMPV6: Name := 15
  const S_TCP: Name := 16
  const S_UDP: Name := 17
  const S_VXLAN: Name := 18
  const S_SCTP: Name := 19
  const S_GRE1: Name := 20
  const S_GRE2: Name := 21
  const S_GRE3: Name := 22
  const S_NVGRE: Name := 23
  const S_ESP: Name := 24
  const S_AH: Name := 25
  const S_ARP: Name := 26
  const S_ARP_IPV4: Name := 27
  const S_ETHERNET2: Name := 28

  function VlanTags(q: Name, rest: List<Arm>): List<Arm> {
    Goes(0x8100, q, Goes(0x9100, q, Goes(0x9200, q, Goes(0x9300, q, rest))))
  }

  /** What may follow a tag: labels, IP or ARP. */
  function Payloads(): List<Arm> {
    Goes(0x8847, S_MPLS1, Goes(0x8848, S_MPLS1,
    Goes(0x0800, S_IPV4, Goes(0x86dd, S_IPV6, Goes(0x0806, S_ARP, Goes(0x8035, S_ARP, Nil))))))
  }

  function Pair(a: nat, b: nat, q: Name, rest: List<Arm>): List<Arm> {
    Cons(Arm(Cons(Value(a), Cons(Value(b), Nil)), ToState(q)), rest)
  }

  function DispatchTwo(first: Expr, second: Expr, arms: List<Arm>): Transition {
    Select(Cons(first, Cons(second, Nil)), arms, Some(ToAccept))
  }

  function Of(inst: Name, tr: Transition): State {
    Reads(inst, Layout(inst), tr)
  }

  function Label(more: List<Arm>): State {
    Of(MPLS, On(Ref(MPLS, 2), more, ToAccept))
  }

  function LabelOr(next: Name): State {
    Label(Goes(0, next, Goes(1, S_MPLS_PAYLOAD, Nil)))
  }

  /** Nested or bridged payloads, both with the key bit set. */
  function GreState(nested: List<Arm>): State {
    Of(GRE, DispatchTwo(Ref(GRE, 2), Ref(GRE, 8), Pair(1, 0x6558, S_NVGRE, nested)))
  }

  function Ipv4Arms(): List<Arm> {
    Pair(0, 1, S_ICMP, Pair(0, 6, S_TCP, Pair(0, 17, S_UDP, Pair(0, 47, S_GRE1, Pair(0, 50, S_ESP,
    Pair(0, 51, S_AH, Pair(0, 132, S_SCTP, Nil)))))))
  }

  function Ipv6Arms(): List<Arm> {
    Goes(58, S_ICMPV6, Goes(6, S_TCP, Goes(17, S_UDP, Goes(47, S_GRE1, Goes(50, S_ESP, Goes(51, S_AH, Goes(132, S_SCTP, Nil)))))))
  }

  function AhArms(): List<Arm> {
    Goes(1, S_ICMP, Goes(6, S_TCP, Goes(17, S_UDP, Goes(47, S_GRE1, Goes(58, S_ICMPV6, Goes(132, S_SCTP, Nil))))))
  }

  function StateOf(q: Name): State {
    match q
    case 0 =>
      Of(ETHERNET, On(Ref(ETHERNET, 2), VlanTags(S_VLAN_Q1, Goes(0x88a8, S_VLAN_AD, Payloads())), ToAccept))
    case 1 => Of(VLAN, On(Ref(VLAN, 3), VlanTags(S_VLAN_Q2, Payloads()), ToAccept))
    case 2 => Of(VLAN_AD, On(Ref(VLAN_AD, 3), VlanTags(S_VLAN_Q2, Goes(0x88e7, S_PBB, Nil)), ToAccept))
    case 3 => Of(VLAN, On(Ref(VLAN, 3), Payloads(), ToAccept))
    case 4 => Of(PBB, Direct(ToState(S_ETHERNET2)))
    case 5 => LabelOr(S_MPLS2)
    case 6 => LabelOr(S_MPLS3)
    case 7 => LabelOr(S_MPLS4)
    case 8 => LabelOr(S_MPLS5)
    case 9 => Label(Goes(1, S_MPLS_PAYLOAD, Nil))
    case 10 =>
      State(Cons(Extract(NIBBLE, Layout(NIBBLE), true), Nil), Nil, Nil,
            On(Ref(NIBBLE, 0), Goes(0, S_EOMPLS, Goes(4, S_IPV4, Goes(6, S_IPV6, Nil))), ToAccept))
    case 11 => Of(EOMPLS, Direct(ToState(S_ETHERNET2)))
    case 12 => Of(IPV4, DispatchTwo(Ref(IPV4, 6), Ref(IPV4, 8), Ipv4Arms()))
    case 13 => Of(IPV6, On(Ref(IPV6, 4), Ipv6Arms(), ToAccept))
    case 14 => Of(ICMP, Direct(ToAccept))
    case 15 => Of(ICMPV6, Direct(ToAccept))
    case 16 => Of(TCP, Direct(ToAccept))
    case 17 => Of(UDP, On(Ref(UDP, 1), Goes(65535, S_VXLAN, Nil), ToAccept))
    case 18 => Of(VXLAN, Direct(ToState(S_ETHERNET2)))
    case 19 => Of(SCTP, Direct(ToAccept))
    case 20 => GreState(Pair(1, 0x6559, S_GRE2, Nil))
    case 21 => GreState(Pair(1, 0x6559, S_GRE3, Nil))
    case 22 => GreState(Nil)
    case 23 => Of(NVGRE, Direct(ToState(S_ETHERNET2)))
    case 24 => Of(ESP, Direct(ToAccept))
    case 25 => Of(AH, On(Ref(AH, 0), AhArms(), ToAccept))
    case 26 => Of(ARP, On(Ref(ARP, 1), Goes(0x0800, S_ARP_IPV4, Nil), ToAccept))
    case 27 => Of(ARP_IPV4, Direct(ToAccept))
    case _ => Of(ETHERNET2, Direct(ToAccept))
  }

  /** max_depth is 17 in the repository. */
  function Description(depth: nat): Program {
    Program(seq(29, q requires 0 <= q < 29 => StateOf(q)), S_ETHERNET, [], depth)
  }

  // ---- No run enters more than 16 states ----

  /** Length of the longest path of states after q; an undeclared state ranks above all. */
  function RankOf(q: Name): nat {
    match q
    case 0 => 15
    case 1 => 14
    case 2 => 14
    case 3 => 13
    case 4 => 1
    case 5 => 12
    case 6 => 11
    case 7 => 10
    case 8 => 9
    case 9 => 8
    case 10 => 7
    case 11 => 1
    case 12 => 6
    case 13 => 6
    case 17 => 2
    case 18 => 1
    case 20 => 4
    case 21 => 3
    case 22 => 2
    case 23 => 1
    case 25 => 5
    case 26 => 1
    case _ => if q < 29 then 0 else 99
  }

  /** A reject ranks above all. */
  function Above(t: Target): nat {
    match t
    case ToState(q) => RankOf(q) + 1
    case ToAccept => 0
    case ToReject(_) => 100
  }

  /** Least rank above those of the targets. */
  function Height(arms: List<Arm>): nat
    decreases arms
  {
    match arms
    case Nil => 0
    case Cons(a, rest) =>
      var h := Height(rest);
      if Above(a.next) > h then Above(a.next) else h
  }

  function HeightOf(tr: Transition): nat {
    match tr
    case Direct(t) => Above(t)
    case Select(_, arms, _) => Height(arms)
  }

  lemma PayloadHeight()
    ensures Height(Payloads()) == 13
  {
  }

  lemma PbbHeight()
    ensures Height(VlanTags(S_VLAN_Q2, Goes(0x88e7, S_PBB, Nil))) == 14
  {
  }

  lemma TagHeights(q: Name)
    ensures Height(Payloads()) == 13
    ensures RankOf(q) == 14 ==> Height(VlanTags(q, Goes(0x88a8, S_VLAN_AD, Payloads()))) == 15
    ensures RankOf(q) == 13 ==> Height(VlanTags(q, Payloads())) == 14
  {
    PayloadHeight();
    hide Payloads;
  }

  lemma ProtocolHeights()
    ensures Height(Ipv4Arms()) == 6 && Height(Ipv6Arms()) == 6 && Height(AhArms()) == 5
  {
  }

  lemma TagsFall(q: Name)
    requires q < 5
    ensures HeightOf(StateOf(q).transition) == RankOf(q)
  {
    TagHeights(S_VLAN_Q1);
    TagHeights(S_VLAN_Q2);
    PbbHeight();
    hide Payloads, VlanTags, Layout;
  }

  lemma LabelsFall(q: Name)
    requires 5 <= q < 12
    ensures HeightOf(StateOf(q).transition) == RankOf(q)
  {
    hide Layout;
  }

  lemma ProtocolsFall(q: Name)
    requires q in {S_IPV4, S_IPV6, S_AH}
    ensures HeightOf(StateOf(q).transition) == RankOf(q)
  {
    ProtocolHeights();
    hide Height, Layout, Ipv4Arms, Ipv6Arms, AhArms;
  }

  lemma TunnelsFall(q: Name)
    requires 17 <= q < 24
    ensures HeightOf(StateOf(q).transition) == RankOf(q)
  {
    hide Layout;
  }

  lemma LeavesFall(q: Name)
    requires 14 <= q < 17 || q == 24 || 26 <= q < 29
    ensures HeightOf(StateOf(q).transition) == RankOf(q)
  {
    hide Layout;
  }

  lemma StatesFall(q: Name)
    requires q < 29
    ensures HeightOf(StateOf(q).transition) == RankOf(q)
  {
    hide HeightOf, RankOf, StateOf;
    if q < 5 {
      TagsFall(q);
    } else if q < 12 {
      LabelsFall(q);
    } else if q in {S_IPV4, S_IPV6, S_AH} {
      ProtocolsFall(q);
    } else if 17 <= q < 24 {
      TunnelsFall(q);
    } else {
      LeavesFall(q);
    }
  }

  lemma {:induction false} ArmsFall(arms: List<Arm>, r: Name)
    requires Member(ToState(r), ArmTargets(arms, Cons(ToAccept, Nil)))
    ensures RankOf(r) < Height(arms)
    decreases arms
  {
    hide RankOf;
    if arms.Cons? && arms.head.next != ToState(r) {
      ArmsFall(arms.tail, r);
    }
  }

  predicate AcceptsByDefault(tr: Transition) {
    tr.Select? ==> tr.default == Some(ToAccept)
  }

  lemma AllAcceptByDefault(q: Name)
    ensures AcceptsByDefault(StateOf(q).transition)
  {
    hide Layout, Payloads, VlanTags, Ipv4Arms, Ipv6Arms, AhArms, Goes, Pair;
  }

  lemma TargetFalls(q: Name, r: Name)
    requires q < 29 && Member(ToState(r), TargetList(StateOf(q).transition))
    ensures r < 29 && RankOf(r) < RankOf(q)
  {
    StatesFall(q);
    AllAcceptByDefault(q);
    RankBound(q);
    hide StateOf, RankOf;
    var tr := StateOf(q).transition;
    if tr.Select? {
      ArmsFall(tr.arms, r);
    } else {
      assert Member(ToState(r), Cons(tr.next, Nil));
    }
    RankBound(r);
  }

  lemma RankBound(q: Name)
    ensures if q < 29 then RankOf(q) <= 15 else RankOf(q) == 99
  {
  }

  function RankMap(): map<Name, nat> {
    map q: Name | 0 <= q < 29 :: RankOf(q)
  }

  lemma GraphIsAcyclic(depth: nat)
    ensures Ranked(Description(depth), RankMap())
  {
    hide StateOf, RankOf;
    forall q: Name, r: Name | q < 29 && Edge(Description(depth), q, r)
      ensures r < 29 && RankOf(r) < RankOf(q)
    {
      TargetFalls(q, r);
    }
  }

  /** With 16 states to enter the depth reject is unreachable, and a larger budget changes
      nothing. */
  lemma SixteenSuffice(pkt: Packet, rule: PopRule, depth: nat)
    requires depth >= 16
    ensures !RanOutOfDepth(Parse(Description(depth), pkt, rule))
    ensures Parse(Description(depth), pkt, rule) == Parse(Description(16), pkt, rule)
  {
    assert RankOf(S_ETHERNET) == 15;
    hide StateOf, Parse, RankOf, Ranked;
    GraphIsAcyclic(depth);
    GraphIsAcyclic(16);
    RankTerminates(Description(depth), RankMap(), pkt, rule);
    RankTerminates(Description(16), RankMap(), pkt, rule);
    DepthIsMonotone(Description(16), pkt, rule, depth);
    assert Description(16).(maxDepth := depth) == Description(depth);
  }

  // ---- Validity ----

  function Known(): Certificate {
    Certificate(map inst: Name | 0 <= inst < 22 :: Layout(inst), seq(29, _ => {}), seq(29, _ => 0))
  }

  lemma LinkLayouts()
    ensures Defects(EthernetFields(), ETHERNET, 0, 0) == 0
    ensures Defects(EthernetFields(), ETHERNET2, 0, 0) == 0
    ensures Defects(TagFields(), VLAN, 0, 0) == 0
    ensures Defects(TagFields(), VLAN_AD, 0, 0) == 0
  {
  }

  lemma LabelLayouts()
    ensures Defects(PbbFields(), PBB, 0, 0) == 0
    ensures Defects(MplsFields(), MPLS, 0, 0) == 0
    ensures Defects(NibbleFields(), NIBBLE, 0, 0) == 0
    ensures Defects(EomplsFields(), EOMPLS, 0, 0) == 0
  {
  }

  lemma TransportLayouts()
    ensures Defects(IcmpFields(), ICMP, 0, 0) == 0
    ensures Defects(IcmpFields(), ICMPV6, 0, 0) == 0
    ensures Defects(UdpFields(), UDP, 0, 0) == 0
    ensures Defects(VxlanFields(), VXLAN, 0, 0) == 0
    ensures Defects(SctpFields(), SCTP, 0, 0) == 0
  {
  }

  lemma TunnelLayouts()
    ensures Defects(NvgreFields(), NVGRE, 0, 0) == 0
    ensures Defects(EspFields(), ESP, 0, 0) == 0
    ensures Defects(AhFields(), AH, 0, 0) == 0
    ensures Defects(ArpFields(), ARP, 0, 0) == 0
    ensures Defects(ArpIpv4Fields(), ARP_IPV4, 0, 0) == 0
  {
  }

  lemma LongLayouts()
    ensures Defects(Ipv4Fields(), IPV4, 0, 0) == 0 && Defects(TcpFields(), TCP, 0, 0) == 0
    ensures LeadingFixed(Ipv4Fields()) == 12
  {
    assert Defects(Ipv4Rest(), IPV4, 6, 6) == 0 && LeadingFixed(Ipv4Rest()) == 6;
    assert Defects(TcpRest(), TCP, 6, 6) == 0;
    hide Ipv4Rest, TcpRest;
  }

  lemma OtherLayouts()
    ensures Defects(Ipv6Fields(), IPV6, 0, 0) == 0 && LeadingFixed(Ipv6Fields()) == 6
    ensures Defects(GreFields(), GRE, 0, 0) == 0 && LeadingFixed(GreFields()) == 9
  {
  }

  lemma LayoutsFit(inst: Name)
    requires inst < 22
    ensures Defects(Layout(inst), inst, 0, 0) == 0
  {
    LinkLayouts();
    LabelLayouts();
    TransportLayouts();
    TunnelLayouts();
    LongLayouts();
    OtherLayouts();
    hide Defects, AhFields, ArpFields, ArpIpv4Fields, EomplsFields, EspFields, EthernetFields, GreFields,
      IcmpFields, Ipv4Fields;
    hide Ipv6Fields, MplsFields, NibbleFields, NvgreFields, PbbFields, SctpFields, TagFields, TcpFields,
      UdpFields, VxlanFields;
  }

  /** The keys of a state are fixed fields of the header it reads. */
  predicate ReadsOwn(s: State, peek: bool) {
    && s.extracts.Cons? && s.extracts.tail.Nil? && s.assigns.Nil? && s.ops.Nil?
    && var ex := s.extracts.head;
       ex.inst < 22 && ex.fields == Layout(ex.inst) && ex.lookahead == peek
       && (s.transition.Select? ==> OwnKeys(s.transition.keys, ex.inst, LeadingFixed(ex.fields)))
  }

  lemma KeyedLayouts()
    ensures LeadingFixed(EthernetFields()) == 3 && LeadingFixed(TagFields()) == 4 && LeadingFixed(MplsFields()) == 4
    ensures LeadingFixed(NibbleFields()) == 1 && LeadingFixed(UdpFields()) == 4
    ensures LeadingFixed(AhFields()) == 5 && LeadingFixed(ArpFields()) == 5
  {
  }

  lemma LinkReadsOwn(q: Name)
    requires q < 9
    ensures ReadsOwn(StateOf(q), q == S_MPLS_PAYLOAD)
  {
    LongLayouts();
    OtherLayouts();
    KeyedLayouts();
    hide Defects, LeadingFixed, AhFields, ArpFields, ArpIpv4Fields, EomplsFields, EspFields, EthernetFields,
      GreFields, IcmpFields, Ipv4Fields;
    hide Ipv6Fields, MplsFields, NibbleFields, NvgreFields, PbbFields, SctpFields, TagFields, TcpFields,
      UdpFields, VxlanFields;
    hide Payloads, VlanTags, Ipv4Arms, Ipv6Arms, AhArms, Goes, Pair;
  }

  lemma PayloadReadsOwn(q: Name)
    requires 9 <= q < 19
    ensures ReadsOwn(StateOf(q), q == S_MPLS_PAYLOAD)
  {
    LongLayouts();
    OtherLayouts();
    KeyedLayouts();
    hide Defects, LeadingFixed, AhFields, ArpFields, ArpIpv4Fields, EomplsFields, EspFields, EthernetFields,
      GreFields, IcmpFields, Ipv4Fields;
    hide Ipv6Fields, MplsFields, NibbleFields, NvgreFields, PbbFields, SctpFields, TagFields, TcpFields,
      UdpFields, VxlanFields;
    hide Payloads, VlanTags, Ipv4Arms, Ipv6Arms, AhArms, Goes, Pair;
  }

  lemma RestReadsOwn(q: Name)
    requires 19 <= q < 29
    ensures ReadsOwn(StateOf(q), q == S_MPLS_PAYLOAD)
  {
    LongLayouts();
    OtherLayouts();
    KeyedLayouts();
    hide Defects, LeadingFixed, AhFields, ArpFields, ArpIpv4Fields, EomplsFields, EspFields, EthernetFields,
      GreFields, IcmpFields, Ipv4Fields;
    hide Ipv6Fields, MplsFields, NibbleFields, NvgreFields, PbbFields, SctpFields, TagFields, TcpFields,
      UdpFields, VxlanFields;
    hide Payloads, VlanTags, Ipv4Arms, Ipv6Arms, AhArms, Goes, Pair;
  }

  lemma StatesReadOwn(q: Name)
    requires q < 29
    ensures ReadsOwn(StateOf(q), q == S_MPLS_PAYLOAD)
  {
    hide ReadsOwn, StateOf;
    if q < 9 {
      LinkReadsOwn(q);
    } else if q < 19 {
      PayloadReadsOwn(q);
    } else {
      RestReadsOwn(q);
    }
  }

  lemma StatesFit(q: Name)
    requires q < 29
    ensures StateFits(StateOf(q), Known(), q, 0)
  {
    StatesReadOwn(q);
    var s := StateOf(q);
    var ex := s.extracts.head;
    LayoutsFit(ex.inst);
    forall r: Name | Member(ToState(r), TargetList(s.transition))
      ensures r < 29
    {
      TargetFalls(q, r);
    }
    assert Layout(NIBBLE) == NibbleFields() == B(0, 4, Nil);
    assert s == State(Cons(Extract(ex.inst, ex.fields, ex.lookahead), Nil), Nil, Nil, s.transition);
    hide StateOf, Layout, Defects, RankOf;
    HeaderFits(Known(), q, ex.inst, ex.fields, q == S_MPLS_PAYLOAD, s.transition, 0);
  }

  /** The description passes the validator's checks, for any budget. */
  lemma DescriptionIsValid(depth: nat)
    ensures WellFormed(Description(depth), Known().ty, InMap(Known()), DepthMap(Known()), true)
    ensures Generator.Valid(Description(depth))
  {
    hide StateFits, Generator.Valid, WellFormed, StateOf, Known;
    var p := Description(depth);
    forall q | 0 <= q < 29
      ensures StateFits(p.states[q], Known(), q, 0) && Pushes(p.states[q].ops) <= 1
    {
      StatesFit(q);
      StatesReadOwn(q);
    }
    PushesAtMost(p, 29);
    CertifiedIsWellFormed(p, Known());
    CertifiedIsValid(p, Known());
  }

  // ---- Outcomes ----

  /** What one state does: read its header, or reject out of bounds. */
  lemma StepReads(p: Program, pkt: Packet, rule: PopRule, q: Name, cfg: Config)
    requires p == Description(p.maxDepth) && q < 29 && cfg.regions == []
    ensures var s := StateOf(q);
            ReadsOwn(s, q == S_MPLS_PAYLOAD)
            && var f, r := Header(pkt, s.extracts.head, cfg), Step(p, pkt, rule, q, cfg);
               && (f.Go? ==> f.cfg.regions == [] && r == After(Decide(s.transition, f.cfg), f.cfg))
               && (f.Stop? ==> r == Done(Result(Rejected(OutOfBounds), f.consumed, f.cfg)))
               && (f.Fault? ==> r.Done? && r.result.outcome == Faulted)
  {
    StatesReadOwn(q);
    hide StateOf, Step, ReadFields, BeginHeader;
    var s := StateOf(q);
    var ex := s.extracts.head;
    FieldsInBounds(pkt, ex.inst, ex.lookahead, ex.fields, cfg.pos, BeginHeader(ex, cfg));
    HeaderThenBranch(p, pkt, rule, q, s, cfg);
  }

  // ---- Headers with options ----

  /** Cursor after a state. */
  function Position(r: StepResult): nat {
    if r.Next? then r.cfg.pos else r.result.consumed
  }

  /** The state takes exactly the words its nibble counts, and rejects when there are fewer than
      5 or the packet ends first. */
  ghost predicate TakesWords(r: StepResult, pkt: Packet, pos: nat, at: nat)
    requires at <= 156
  {
    if pos + 160 <= |pkt| && Read(pkt, pos + at, 4) >= 5 && pos + 32 * Read(pkt, pos + at, 4) <= |pkt| then
      Position(r) == pos + 32 * Read(pkt, pos + at, 4) && (r.Next? || r.result.outcome != Rejected(OutOfBounds))
    else
      r.Done? && r.result.outcome == Rejected(OutOfBounds)
  }

  lemma Ipv4Shape()
    ensures OptionsAt(Ipv4Fields(), IPV4, 1, 4)
  {
    LongLayouts();
    DefectFree(Ipv4Fields(), IPV4, 0, 0, Scope(map[], {}, Some(IPV4), {}, true));
    RestShapes();
    hide Ipv4Rest, Defects, DistinctNames;
  }

  lemma TcpShape()
    ensures OptionsAt(TcpFields(), TCP, 4, 96)
  {
    LongLayouts();
    DefectFree(TcpFields(), TCP, 0, 0, Scope(map[], {}, Some(TCP), {}, true));
    RestShapes();
    hide TcpRest, Defects, DistinctNames;
  }

  lemma RestShapes()
    ensures EndsInOptions(Ipv4Rest(), IPV4, 1) && FixedBits(Ipv4Rest()) == 109
    ensures EndsInOptions(TcpRest(), TCP, 4) && FixedBits(TcpRest()) == 57
  {
  }

  lemma WordsTaken(p: Program, pkt: Packet, rule: PopRule, q: Name, cfg: Config, inst: Name, nibble: Name, fs: List<FieldDecl>, at: nat)
    requires p == Description(p.maxDepth) && q < 29 && cfg.regions == [] && cfg.pos <= |pkt| <= 0x8000_0000_0000_0000
    requires StateOf(q).extracts.Cons? && StateOf(q).extracts.head == Extract(inst, fs, false)
    requires OptionsAt(fs, inst, nibble, at) && at <= 156
    ensures TakesWords(Step(p, pkt, rule, q, cfg), pkt, cfg.pos, at)
  {
    hide StateOf, Step, Read, ReadsOwn, EndsInOptions, DistinctNames, HasFixed;
    StepReads(p, pkt, rule, q, cfg);
    OptionsExact(pkt, inst, nibble, fs, cfg.pos, BeginHeader(Extract(inst, fs, false), cfg));
  }

  /** Every reachable state entry has no open region and its cursor in the packet. */
  lemma Reached(pkt: Packet, rule: PopRule, depth: nat, k: nat)
    ensures var e := Entered(Description(depth), pkt, rule, k);
            e.Some? ==> e.value.0 < 29 && e.value.1.regions == [] && e.value.1.pos <= |pkt|
  {
    var p := Description(depth);
    hide StateOf, WellFormed, Known, Entered, Consistent;
    DescriptionIsValid(depth);
    ConsistentOf(p, Known().ty, InMap(Known()), DepthMap(Known()));
    HeightIsStatic(p, DepthMap(Known()), pkt, rule, k);
    EntrySound(p, pkt, rule, k);
  }

  /** In every run, parse_ipv4 takes exactly 4 * ihl bytes and parse_tcp 4 * data_offset; a nibble
      below 5 wraps to a length no packet has. */
  lemma OptionsTakeWords(pkt: Packet, rule: PopRule, depth: nat, k: nat)
    requires |pkt| <= 0x8000_0000_0000_0000
    ensures var p, e := Description(depth), Entered(Description(depth), pkt, rule, k);
            && (e.Some? && e.value.0 == S_IPV4 ==> TakesWords(Step(p, pkt, rule, S_IPV4, e.value.1), pkt, e.value.1.pos, 4))
            && (e.Some? && e.value.0 == S_TCP ==> TakesWords(Step(p, pkt, rule, S_TCP, e.value.1), pkt, e.value.1.pos, 96))
  {
    var p, e := Description(depth), Entered(Description(depth), pkt, rule, k);
    Reached(pkt, rule, depth, k);
    OptionStates();
    hide StateOf, Step, Entered, TakesWords, Description, OptionsAt;
    DescribesItself(depth);
    Ipv4Shape();
    TcpShape();
    if e.Some? && e.value.0 == S_IPV4 {
      WordsTaken(p, pkt, rule, S_IPV4, e.value.1, IPV4, 1, Ipv4Fields(), 4);
    } else if e.Some? && e.value.0 == S_TCP {
      WordsTaken(p, pkt, rule, S_TCP, e.value.1, TCP, 4, TcpFields(), 96);
    }
  }

  lemma DescribesItself(depth: nat)
    ensures Description(depth).maxDepth == depth && |Description(depth).states| == 29
  {
  }

  lemma OptionStates()
    ensures StateOf(S_IPV4).extracts == Cons(Extract(IPV4, Ipv4Fields(), false), Nil)
    ensures StateOf(S_TCP).extracts == Cons(Extract(TCP, TcpFields(), false), Nil)
  {
  }
}
