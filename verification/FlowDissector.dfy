/** The linux_flow_dissector description, whose graph is cyclic: tunnels re-enter IPv4, IPv6
    and Ethernet, and IPv6 options loop.  Its depth budget is never needed beyond
    2 + 2 * (L / 32) state entries. */
module FlowDissector {
  import opened Bits
  import opened Ir
  import opened Semantics
  import opened Regions
  import opened Budget
  import opened Layouts
  import opened Steps
  import opened WholeBytes

  const ETHERNET: Name := 0
  const VLAN_AD: Name := 1
  const VLAN_Q: Name := 2
  const IPV4: Name := 3
  const IPV6: Name := 4
  const EXT_OPT: Name := 5
  const GRE: Name := 6
  const GRE_OPT: Name := 7
  const EXT_FRAG: Name := 8
  const MPLS: Name := 9
  const TCP: Name := 10
  const UDP: Name := 11

  const IS_ENCAP: Name := 0

  function EthernetFields(): List<FieldDecl> {
    B(0, 48, B(1, 48, B(2, 16, Nil)))
  }

  function VlanFields(): List<FieldDecl> {
    B(0, 3, B(1, 1, B(2, 12, B(3, 16, Nil))))
  }

  function Ipv4Fields(): List<FieldDecl> {
    B(0, 4, B(1, 4, B(2, 6, B(3, 2, B(4, 16, B(5, 16, Ipv4Rest()))))))
  }

  /** From the flags on. */
  function Ipv4Rest(): List<FieldDecl> {
    B(6, 3, B(7, 13, B(8, 8, B(9, 8, B(10, 16, B(11, 32, B(12, 32, V(13, Options(IPV4, 1), Nil))))))))
  }

  function Ipv6Fields(): List<FieldDecl> {
    B(0, 4, B(1, 8, B(2, 20, B(3, 16, B(4, 8, B(5, 8, V(6, Const(16), V(7, Const(16), Nil))))))))
  }

  /** (1 + hdr_ext_len) * 8 bytes in all. */
  function OptBody(): Expr {
    Bin(Sub, Bin(Shl, Bin(Add, Const(1), Ref(EXT_OPT, 1)), Const(3)), Const(2))
  }

  function ExtOptFields(): List<FieldDecl> {
    B(0, 8, B(1, 8, V(2, OptBody(), Nil)))
  }

  function GreFields(): List<FieldDecl> {
    B(0, 1, B(1, 1, B(2, 1, B(3, 1, B(4, 9, B(5, 3, B(6, 16, Nil)))))))
  }

  function Four(field: Name): Expr {
    Bin(Mul, Ref(GRE, field), Const(4))
  }

  function GreOptFields(): List<FieldDecl> {
    V(0, Bin(Add, Bin(Add, Four(0), Four(2)), Four(3)), Nil)
  }

  function FragFields(): List<FieldDecl> {
    B(0, 8, B(1, 8, B(2, 13, B(3, 2, B(4, 1, B(5, 32, Nil))))))
  }

  function MplsFields(): List<FieldDecl> {
    B(0, 20, B(1, 3, B(2, 1, B(3, 8, Nil))))
  }

  function TcpFields(): List<FieldDecl> {
    B(0, 16, B(1, 16, B(2, 32, B(3, 32, B(4, 4, TcpRest())))))
  }

  /** From the reserved bits on. */
  function TcpRest(): List<FieldDecl> {
    B(5, 4, B(6, 8, B(7, 16, B(8, 16, B(9, 16, V(10, Options(TCP, 4), Nil))))))
  }

  function UdpFields(): List<FieldDecl> {
    B(0, 16, B(1, 16, B(2, 16, B(3, 16, Nil))))
  }

  // ---- States ----

  const S_ETHERNET: Name := 0
  const S_VLAN_AD: Name := 1
  const S_VLAN_Q: Name := 2
  const S_IPV4: Name := 3
  const S_IPV6: Name := 4
  const S_IPV6_OPT: Name := 5
  const S_IPIP: Name := 6
  const S_IP6IP: Name := 7
  const S_GRE: Name := 8
  const S_GRE_OPT: Name := 9
  const S_IPV6_FRAG: Name := 10
  const S_MPLS: Name := 11
  const S_TCP: Name := 12
  const S_UDP: Name := 13

  /** Authored reasons in alphabetical order. */
  const AD_WITHOUT_Q: nat := 0
  const BAD_ETHERTYPE: nat := 1
  const BAD_GRE_PROTO: nat := 2
  const BAD_IP_PROTO: nat := 3
  const VLAN_STACKING: nat := 4

  /** Shared by IPv4, IPv6 and the IPv6 options. */
  function IpProtoArms(): List<Arm> {
    Goes(4, S_IPIP, Goes(6, S_TCP, Goes(17, S_UDP, Goes(41, S_IP6IP, Goes(47, S_GRE, Nil)))))
  }

  function Ipv6Arms(): List<Arm> {
    Goes(0, S_IPV6_OPT, Goes(60, S_IPV6_OPT, Goes(44, S_IPV6_FRAG, IpProtoArms())))
  }

  function MarkEncap(): List<Assign> {
    Cons(Assign(IS_ENCAP, Const(1)), Nil)
  }

  function StateOf(q: Name): State {
    match q
    case 0 =>
      Reads(ETHERNET, EthernetFields(), On(Ref(ETHERNET, 2),
        Goes(0x0800, S_IPV4, Goes(0x86dd, S_IPV6, Goes(0x8100, S_VLAN_Q, Goes(0x88a8, S_VLAN_AD,
        Goes(0x8847, S_MPLS, Goes(0x8848, S_MPLS, Nil)))))), ToReject(BAD_ETHERTYPE)))
    case 1 =>
      Reads(VLAN_AD, VlanFields(), On(Ref(VLAN_AD, 3), Goes(0x8100, S_VLAN_Q, Nil), ToReject(AD_WITHOUT_Q)))
    case 2 =>
      Reads(VLAN_Q, VlanFields(), On(Ref(VLAN_Q, 3),
        Goes(0x0800, S_IPV4, Goes(0x86dd, S_IPV6, Goes(0x8847, S_MPLS, Goes(0x8848, S_MPLS,
        When(0x8100, ToReject(VLAN_STACKING), When(0x88a8, ToReject(VLAN_STACKING), Nil)))))), ToReject(BAD_ETHERTYPE)))
    case 3 => Reads(IPV4, Ipv4Fields(), On(Ref(IPV4, 9), IpProtoArms(), ToReject(BAD_IP_PROTO)))
    case 4 => Reads(IPV6, Ipv6Fields(), On(Ref(IPV6, 4), Ipv6Arms(), ToReject(BAD_IP_PROTO)))
    case 5 => Reads(EXT_OPT, ExtOptFields(), On(Ref(EXT_OPT, 0), Ipv6Arms(), ToReject(BAD_IP_PROTO)))
    case 6 => State(Nil, MarkEncap(), Nil, Direct(ToState(S_IPV4)))
    case 7 => State(Nil, MarkEncap(), Nil, Direct(ToState(S_IPV6)))
    case 8 => Reads(GRE, GreFields(), On(Ref(GRE, 5), Goes(0, S_GRE_OPT, Nil), ToAccept))
    case 9 =>
      State(Cons(Extract(GRE_OPT, GreOptFields(), false), Nil), MarkEncap(), Nil, On(Ref(GRE, 6),
        Goes(0x0800, S_IPV4, Goes(0x86dd, S_IPV6, Goes(0x6558, S_ETHERNET, Nil))), ToReject(BAD_GRE_PROTO)))
    case 10 => Reads(EXT_FRAG, FragFields(), Direct(ToAccept))
    case 11 => Reads(MPLS, MplsFields(), Direct(ToAccept))
    case 12 => Reads(TCP, TcpFields(), Direct(ToAccept))
    case _ => Reads(UDP, UdpFields(), Direct(ToAccept))
  }

  /** max_depth is 10 in the repository. */
  function Description(depth: nat): Program {
    Program(seq(14, q requires 0 <= q < 14 => StateOf(q)), S_ETHERNET, [MetaDecl(1, 0)], depth)
  }

  // ---- Which states consume 32 bits ----

  /** All but the two encapsulation marks and the GRE options. */
  function Heavies(): set<Name> {
    {0, 1, 2, 3, 4, 5, 8, 10, 11, 12, 13}
  }

  lemma FixedSums()
    ensures FixedBits(EthernetFields()) >= 32 && FixedBits(VlanFields()) >= 32
    ensures FixedBits(Ipv4Fields()) >= 32 && FixedBits(Ipv6Fields()) >= 32 && FixedBits(GreFields()) >= 32
    ensures FixedBits(FragFields()) >= 32 && FixedBits(MplsFields()) >= 32
    ensures FixedBits(TcpFields()) >= 32 && FixedBits(UdpFields()) >= 32
  {
  }

  lemma FixedEnough(q: Name)
    requires q in Heavies() && q != S_IPV6_OPT
    ensures MinBits(StateOf(q).extracts) >= 32
  {
    FixedSums();
    hide FixedBits, EthernetFields, VlanFields, Ipv4Fields, Ipv6Fields, GreFields, FragFields, MplsFields,
      TcpFields, UdpFields;
  }

  lemma OptBodyLength(env: Env, meta: Meta, h: u64)
    requires FieldRef(EXT_OPT, 1) in env && env[FieldRef(EXT_OPT, 1)] == Uint(h) && h < 256
    ensures Eval(Bin(Mul, OptBody(), Const(8)), env, meta, None) == Some(64 * (1 + h) - 16)
  {
    assert Pow2(3) == 8;
    hide Pow2;
    var count := Bin(Add, Const(1), Ref(EXT_OPT, 1));
    var words := Bin(Shl, count, Const(3));
    assert Eval(count, env, meta, None) == Some(1 + h);
    assert Eval(words, env, meta, None) == Some(8 * (1 + h));
    assert Eval(OptBody(), env, meta, None) == Some(8 * (1 + h) - 2);
  }

  lemma OptRest(pkt: Packet, cur: nat, c: Config)
    ensures var r := ReadFields(pkt, EXT_OPT, false, ExtOptFields().tail, cur, c); r.Go? ==> r.cfg.pos >= cur + 56
  {
    var fs := ExtOptFields().tail;
    FieldsCons(pkt, EXT_OPT, false, fs, cur, c);
    var r := ReadField(pkt, EXT_OPT, fs.head, cur, cur, c);
    if r.Go? {
      ReadBound(pkt, cur, 8);
      assert Pow2(8) == 256;
      OptBodyLength(r.cfg.env, r.cfg.meta, Read(pkt, cur, 8));
      FieldsCons(pkt, EXT_OPT, false, fs.tail, cur + 8, r.cfg);
    }
  }

  /** The options state reads 16 bits, then at least 48 more. */
  lemma OptConsumes(pkt: Packet, cur: nat, c: Config)
    ensures var r := ReadFields(pkt, EXT_OPT, false, ExtOptFields(), cur, c); r.Go? ==> r.cfg.pos >= cur + 64
  {
    FieldsCons(pkt, EXT_OPT, false, ExtOptFields(), cur, c);
    var r := ReadField(pkt, EXT_OPT, ExtOptFields().head, cur, cur, c);
    if r.Go? {
      OptRest(pkt, cur + 8, r.cfg);
    }
  }

  lemma OptStateHeavy(p: Program, s: State)
    requires S_IPV6_OPT < |p.states| && p.states[S_IPV6_OPT] == s
    requires s.extracts == Cons(Extract(EXT_OPT, ExtOptFields(), false), Nil) && s.assigns.Nil? && s.ops.Nil?
    ensures Heavy(p, 32, S_IPV6_OPT)
  {
    hide ReadFields, BeginHeader;
    forall pkt, rule, cfg | Sound(pkt, cfg)
      ensures var r := Step(p, pkt, rule, S_IPV6_OPT, cfg); r.Next? ==> r.cfg.pos >= cfg.pos + 32
    {
      OneExtract(pkt, rule, p.metadata, s, cfg);
      OptConsumes(pkt, cfg.pos, BeginHeader(s.extracts.head, cfg));
    }
  }

  lemma HeavyStates(p: Program, q: Name)
    requires p == Description(p.maxDepth) && q in Heavies()
    ensures Heavy(p, 32, q)
  {
    if q == S_IPV6_OPT {
      OptStateHeavy(p, StateOf(5));
    } else {
      FixedEnough(q);
      FixedBitsAreHeavy(p, 32, q);
    }
  }

  lemma GraphProgresses(p: Program)
    requires p == Description(p.maxDepth)
    ensures Progresses(p, 32, Heavies())
  {
    forall q | q in Heavies()
      ensures Heavy(p, 32, q)
    {
      HeavyStates(p, q);
    }
    forall q: Name, r: Name | Edge(p, q, r)
      ensures q in Heavies() || r in Heavies()
    {
    }
  }

  /** For every packet of L bits, 2 + 2 * (L / 32) state entries are enough: raising max_depth
      past that changes nothing, whatever tunnels and options the packet nests. */
  lemma BudgetSuffices(pkt: Packet, rule: PopRule, depth: nat)
    requires depth >= 2 + 2 * (|pkt| / 32)
    ensures !RanOutOfDepth(Parse(Description(depth), pkt, rule))
    ensures forall deeper: nat | deeper >= depth ::
              Parse(Description(deeper), pkt, rule) == Parse(Description(depth), pkt, rule)
  {
    var p := Description(depth);
    GraphProgresses(p);
    ProgressTerminates(p, 32, Heavies(), pkt, rule);
    forall deeper: nat | deeper >= depth
      ensures Parse(Description(deeper), pkt, rule) == Parse(p, pkt, rule)
    {
      DepthIsMonotone(p, pkt, rule, deeper);
      assert Description(deeper) == p.(maxDepth := deeper);
    }
  }
}
