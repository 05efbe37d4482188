/** The eth_ipvx_l4 description, emitted both as plain C and for eBPF. */
module EthIpvxL4 {
  import opened Bits
  import opened Ir
  import opened Semantics
  import opened Regions
  import opened Budget
  import opened Loads
  import opened ParseCore
  import opened Verdict
  import opened Certificates
  import opened Generator
  import opened Steps
  import opened WholeBytes
  import opened Layouts

  const ETHERNET: Name := 0
  const IPV4: Name := 1
  const IPV6: Name := 2
  const TCP: Name := 3
  const UDP: Name := 4

  /** Authored reasons in alphabetical order. */
  const UNSUPPORTED_ETHERTYPE: nat := 0
  const UNSUPPORTED_PROTOCOL: nat := 1

  function EthernetFields(): List<FieldDecl> {
    B(0, 48, B(1, 48, B(2, 16, Nil)))
  }

  function Ipv4Fields(): List<FieldDecl> {
    B(0, 4, B(1, 4, B(2, 6, B(3, 2, B(4, 16, B(5, 16, Ipv4Rest()))))))
  }

  /** From the flags on. */
  function Ipv4Rest(): List<FieldDecl> {
    B(6, 3, B(7, 13, B(8, 8, B(9, 8, B(10, 16, B(11, 32, B(12, 32, V(13, Options(IPV4, 1), Nil))))))))
  }

  function Ipv6Fields(): List<FieldDecl> {
    B(0, 4, B(1, 8, B(2, 20, B(3, 16, B(4, 8, B(5, 8, V(6, Const(16), V(7, Const(16), Nil))))))))
  }

  function TcpFields(): List<FieldDecl> {
    B(0, 16, B(1, 16, B(2, 32, B(3, 32, B(4, 4, TcpRest())))))
  }

  /** From the reserved bits on. */
  function TcpRest(): List<FieldDecl> {
    B(5, 4, B(6, 8, B(7, 16, B(8, 16, B(9, 16, Nil)))))
  }

  function UdpFields(): List<FieldDecl> {
    B(0, 16, B(1, 16, B(2, 16, B(3, 16, Nil))))
  }

  const S_ETHERNET: Name := 0
  const S_IPV4: Name := 1
  const S_IPV6: Name := 2
  const S_TCP: Name := 3
  const S_UDP: Name := 4

  function Protocols(key: Expr): Transition {
    On(key, Goes(6, S_TCP, Goes(17, S_UDP, Nil)), ToReject(UNSUPPORTED_PROTOCOL))
  }

  function StateOf(q: Name): State {
    match q
    case 0 =>
      Reads(ETHERNET, EthernetFields(),
            On(Ref(ETHERNET, 2), Goes(0x0800, S_IPV4, Goes(0x86dd, S_IPV6, Nil)), ToReject(UNSUPPORTED_ETHERTYPE)))
    case 1 => Reads(IPV4, Ipv4Fields(), Protocols(Ref(IPV4, 9)))
    case 2 => Reads(IPV6, Ipv6Fields(), Protocols(Ref(IPV6, 4)))
    case 3 => Reads(TCP, TcpFields(), Direct(ToAccept))
    case _ => Reads(UDP, UdpFields(), Direct(ToAccept))
  }

  /** max_depth is 4 in the repository. */
  function Description(depth: nat): Program {
    Program([StateOf(0), StateOf(1), StateOf(2), StateOf(3), StateOf(4)], S_ETHERNET, [], depth)
  }

  function LayoutOf(inst: Name): List<FieldDecl> {
    StateOf(inst).extracts.head.fields
  }

  function Known(): Certificate {
    Certificate(map inst: Name | 0 <= inst < 5 :: LayoutOf(inst), [{}, {}, {}, {}, {}], [0, 0, 0, 0, 0])
  }

  lemma LayoutsFit()
    ensures Defects(EthernetFields(), ETHERNET, 0, 0) == 0 && LeadingFixed(EthernetFields()) == 3
    ensures Defects(Ipv4Fields(), IPV4, 0, 0) == 0 && LeadingFixed(Ipv4Fields()) == 13
    ensures Defects(Ipv6Fields(), IPV6, 0, 0) == 0 && LeadingFixed(Ipv6Fields()) == 6
    ensures Defects(TcpFields(), TCP, 0, 0) == 0 && Defects(UdpFields(), UDP, 0, 0) == 0
  {
    assert Defects(Ipv4Rest(), IPV4, 6, 6) == 0 && LeadingFixed(Ipv4Rest()) == 7;
    assert Defects(TcpRest(), TCP, 5, 5) == 0;
    hide Ipv4Rest, TcpRest;
  }

  /** Where a state goes: a later one, or a reject with one of the two codes. */
  lemma TargetsOf(q: Name, t: Target)
    requires q < 5 && Member(t, TargetList(StateOf(q).transition))
    ensures t.ToState? ==> q < 3 && q < t.state < 5 && (q == 0 ==> t.state < 3) && (q > 0 ==> t.state >= 3)
    ensures t.ToReject? ==> t.code < 2
  {
    hide EthernetFields, Ipv4Fields, Ipv6Fields, TcpFields, UdpFields;
  }

  lemma StatesFit(q: Name)
    requires q < 5
    ensures StateFits(StateOf(q), Known(), q, 0) && Pushes(StateOf(q).ops) == 0
  {
    LayoutsFit();
    hide Defects, LeadingFixed, EthernetFields, Ipv4Fields, Ipv6Fields, TcpFields, UdpFields;
    var s := StateOf(q);
    forall r: Name | Member(ToState(r), TargetList(s.transition))
      ensures r < 5
    {
      TargetsOf(q, ToState(r));
    }
    HeaderFits(Known(), q, q, s.extracts.head.fields, false, s.transition, 0);
  }

  /** The description passes the validator's checks and names two reject codes. */
  lemma DescriptionIsValid(depth: nat)
    ensures Valid(Description(depth)) && CodesBelow(Description(depth), 2)
  {
    hide StateFits, Pushes, Valid, StateOf, LayoutOf;
    var p := Description(depth);
    forall q | 0 <= q < 5
      ensures StateFits(p.states[q], Known(), q, 0) && Pushes(p.states[q].ops) <= 1
    {
      StatesFit(q);
    }
    forall q: Name, code: nat | q < 5 && Member(ToReject(code), TargetList(p.states[q].transition))
      ensures code < 2
    {
      TargetsOf(q, ToReject(code));
    }
    PushesAtMost(p, 5);
    CertifiedIsValid(p, Known());
  }

  /** Three states at most are entered. */
  lemma ThreeSuffice(pkt: Packet, rule: PopRule, depth: nat)
    requires depth >= 3
    ensures !RanOutOfDepth(Parse(Description(depth), pkt, rule))
  {
    hide StateOf, Parse;
    var p, rank := Description(depth), map[0 := 2, 1 := 1, 2 := 1, 3 := 0, 4 := 0];
    forall q: Name, r: Name | q in rank && Edge(p, q, r)
      ensures r in rank && rank[r] < rank[q]
    {
      TargetsOf(q, ToState(r));
    }
    RankTerminates(p, rank, pkt, rule);
  }
}
