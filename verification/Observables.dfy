/** What a result reports: consumed bits are the widths of the consumed headers, and the
    overwritten struct slots are the last occurrence of each header instance. */
module Observables {
  import opened Bits
  import opened Ir
  import opened Semantics
  import opened Totality

  // ---- Conservation ----

  function FieldsLen(fs: seq<ParsedField>): nat {
    if fs == [] then 0 else FieldsLen(fs[..|fs| - 1]) + fs[|fs| - 1].len
  }

  function HeaderLen(h: ParsedHeader): nat {
    if h.lookahead then 0 else FieldsLen(h.fields)
  }

  /** Bits of the headers that were extracted, not peeked. */
  function ConsumedBy(hs: seq<ParsedHeader>): nat {
    if hs == [] then 0 else ConsumedBy(hs[..|hs| - 1]) + HeaderLen(hs[|hs| - 1])
  }

  // ---- Slots ----

  function FieldSlots(inst: Name, fs: seq<ParsedField>): Env {
    if fs == [] then map[]
    else FieldSlots(inst, fs[..|fs| - 1])[FieldRef(inst, fs[|fs| - 1].name) := fs[|fs| - 1].value]
  }

  /** Slots after storing the fields of the headers in order, later stores overwriting. */
  function SlotsOf(hs: seq<ParsedHeader>): Env {
    if hs == [] then map[] else SlotsOf(hs[..|hs| - 1]) + FieldSlots(hs[|hs| - 1].inst, hs[|hs| - 1].fields)
  }

  lemma AddFieldEffect(hs: seq<ParsedHeader>, f: ParsedField)
    requires hs != []
    ensures var h, hs' := hs[|hs| - 1], AddField(hs, f);
            && hs' != [] && hs'[|hs'| - 1] == h.(fields := h.fields + [f])
            && SlotsOf(hs') == SlotsOf(hs)[FieldRef(h.inst, f.name) := f.value]
            && ConsumedBy(hs') == ConsumedBy(hs) + (if h.lookahead then 0 else f.len)
  {
    var h, hs' := hs[|hs| - 1], AddField(hs, f);
    var rest, fs := hs[..|hs| - 1], h.fields + [f];
    assert hs'[..|hs'| - 1] == rest && fs[..|fs| - 1] == h.fields;
    assert FieldSlots(h.inst, fs) == FieldSlots(h.inst, h.fields)[FieldRef(h.inst, f.name) := f.value];
    assert FieldsLen(fs) == FieldsLen(h.fields) + f.len;
    assert SlotsOf(hs') == SlotsOf(rest) + FieldSlots(h.inst, fs);
    hide FieldSlots, FieldsLen;
  }

  /** The headers account for the environment and for the cursor c. */
  predicate Accounts(cfg: Config, c: nat) {
    cfg.env == SlotsOf(cfg.headers) && c == ConsumedBy(cfg.headers)
  }

  predicate Open(hs: seq<ParsedHeader>, inst: Name, peek: bool) {
    hs != [] && hs[|hs| - 1].inst == inst && hs[|hs| - 1].lookahead == peek
  }

  predicate FlowAccounts(r: Flow) {
    && (r.Go? ==> Accounts(r.cfg, r.cfg.pos))
    && (r.Stop? ==> Accounts(r.cfg, r.consumed))
  }

  lemma OneFieldAccounts(pkt: Packet, inst: Name, peek: bool, f: FieldDecl, cur: nat, cfg: Config)
    requires Open(cfg.headers, inst, peek) && Accounts(cfg, if peek then cfg.pos else cur)
    ensures var r := ReadField(pkt, inst, f, cur, if peek then cfg.pos else cur, cfg);
            && (r.Stop? ==> Accounts(r.cfg, r.consumed))
            && (r.Go? ==> r.cfg.pos == cfg.pos && Open(r.cfg.headers, inst, peek)
                          && Accounts(r.cfg, if peek then cfg.pos else cur + FieldLen(f.width, cfg).value))
  {
    var len := FieldLen(f.width, cfg);
    if len.Some? {
      AddFieldEffect(cfg.headers, ParsedField(f.name, cur, len.value, FieldVal(pkt, f.width, cur, len.value)));
    }
  }

  lemma {:induction false} FieldsAccount(pkt: Packet, inst: Name, peek: bool, fs: List<FieldDecl>, cur: nat, cfg: Config)
    requires Open(cfg.headers, inst, peek) && Accounts(cfg, if peek then cfg.pos else cur)
    ensures FlowAccounts(ReadFields(pkt, inst, peek, fs, cur, cfg))
    decreases fs
  {
    if fs.Cons? {
      OneFieldAccounts(pkt, inst, peek, fs.head, cur, cfg);
      FieldsCons(pkt, inst, peek, fs, cur, cfg);
      var r := ReadField(pkt, inst, fs.head, cur, if peek then cfg.pos else cur, cfg);
      if r.Go? {
        FieldsAccount(pkt, inst, peek, fs.tail, cur + FieldLen(fs.head.width, cfg).value, r.cfg);
      }
    }
  }

  lemma {:induction false} ExtractsAccount(pkt: Packet, exs: List<Extract>, cfg: Config)
    requires Accounts(cfg, cfg.pos)
    ensures FlowAccounts(RunExtracts(pkt, exs, cfg))
    decreases exs
  {
    if exs.Cons? {
      var ex, c := exs.head, BeginHeader(exs.head, cfg);
      FieldsAccount(pkt, ex.inst, ex.lookahead, ex.fields, cfg.pos, c);
      var r := ReadFields(pkt, ex.inst, ex.lookahead, ex.fields, cfg.pos, c);
      if r.Go? {
        ExtractsAccount(pkt, exs.tail, r.cfg);
      }
    }
  }

  lemma {:induction false} OpsAccount(pkt: Packet, rule: PopRule, ops: List<RegionOp>, cfg: Config)
    requires Accounts(cfg, cfg.pos)
    ensures FlowAccounts(RunOps(pkt, rule, ops, cfg))
    decreases ops
  {
    if ops.Cons? {
      var r := RunOp(pkt, rule, ops.head, cfg);
      if r.Go? {
        OpsAccount(pkt, rule, ops.tail, r.cfg);
      }
    }
  }

  lemma StepAccounts(p: Program, pkt: Packet, rule: PopRule, q: Name, cfg: Config)
    requires q < |p.states| && Accounts(cfg, cfg.pos)
    ensures var r := Step(p, pkt, rule, q, cfg);
            if r.Next? then Accounts(r.cfg, r.cfg.pos) else Accounts(r.result.cfg, r.result.consumed)
  {
    var s := p.states[q];
    ExtractsAccount(pkt, s.extracts, cfg);
    var r1 := RunExtracts(pkt, s.extracts, cfg);
    if r1.Go? {
      AssignsKeep(p.metadata, s.assigns, r1.cfg);
      var r2 := RunAssigns(p.metadata, s.assigns, r1.cfg);
      if r2.Go? {
        OpsAccount(pkt, rule, s.ops, r2.cfg);
      }
    }
  }

  lemma {:induction false} RunAccounts(p: Program, pkt: Packet, rule: PopRule, q: Name, cfg: Config, budget: nat)
    requires Accounts(cfg, cfg.pos)
    ensures var r := RunFrom(p, pkt, rule, q, cfg, budget); Accounts(r.cfg, r.consumed)
    decreases budget
  {
    if budget > 0 && q < |p.states| {
      StepAccounts(p, pkt, rule, q, cfg);
      var r := Step(p, pkt, rule, q, cfg);
      if r.Next? {
        RunAccounts(p, pkt, rule, r.state, r.cfg, budget - 1);
      }
    }
  }

  /** For every program, input and outcome: consumed bits are exactly the widths of the
      extracted headers (peeks excluded, a partial last header included), and the struct
      slots are the reported fields with later ones overwriting earlier ones. */
  lemma ConsumedIsConserved(p: Program, pkt: Packet, rule: PopRule)
    ensures var r := Parse(p, pkt, rule);
            r.consumed == ConsumedBy(r.cfg.headers) && r.cfg.env == SlotsOf(r.cfg.headers)
  {
    RunAccounts(p, pkt, rule, p.start, Initial(p), p.maxDepth);
  }

  // ---- Last occurrence per instance ----

  /** Instances in first-seen order. */
  function FirstSeen(hs: seq<ParsedHeader>): seq<Name> {
    if hs == [] then []
    else
      var seen := FirstSeen(hs[..|hs| - 1]);
      if hs[|hs| - 1].inst in seen then seen else seen + [hs[|hs| - 1].inst]
  }

  /** The last header of each instance. */
  function LastOf(hs: seq<ParsedHeader>): map<Name, ParsedHeader> {
    if hs == [] then map[] else LastOf(hs[..|hs| - 1])[hs[|hs| - 1].inst := hs[|hs| - 1]]
  }

  predicate FirstAt(hs: seq<ParsedHeader>, i: nat, inst: Name) {
    i < |hs| && hs[i].inst == inst && forall j | 0 <= j < i :: hs[j].inst != inst
  }

  ghost predicate HasFirst(hs: seq<ParsedHeader>, inst: Name) {
    exists i: nat :: FirstAt(hs, i, inst)
  }

  lemma OneFirst(hs: seq<ParsedHeader>, a: nat, b: nat, inst: Name)
    requires FirstAt(hs, a, inst) && FirstAt(hs, b, inst)
    ensures a == b
  {
  }

  predicate LastAt(hs: seq<ParsedHeader>, i: nat, inst: Name) {
    i < |hs| && hs[i].inst == inst && forall j | i < j < |hs| :: hs[j].inst != inst
  }

  /** By position: an instance has a last header exactly when it occurs, and it is that one. */
  lemma {:induction false} LastOfIsLast(hs: seq<ParsedHeader>, inst: Name)
    ensures inst in LastOf(hs) <==> exists i: nat :: i < |hs| && hs[i].inst == inst
    ensures inst in LastOf(hs) ==> exists i: nat :: LastAt(hs, i, inst) && hs[i] == LastOf(hs)[inst]
    decreases |hs|
  {
    if hs != [] {
      var n := |hs| - 1;
      LastOfIsLast(hs[..n], inst);
      if hs[n].inst == inst {
        assert LastAt(hs, n, inst);
      } else if inst in LastOf(hs[..n]) {
        var i: nat :| LastAt(hs[..n], i, inst) && hs[..n][i] == LastOf(hs[..n])[inst];
        assert LastAt(hs, i, inst);
      }
    }
  }

  /** The instances listed in the order of their first headers. */
  ghost predicate InFirstOrder(hs: seq<ParsedHeader>, names: seq<Name>) {
    && (forall k | 0 <= k < |names| :: HasFirst(hs, names[k]))
    && (forall j, k, a: nat, b: nat | 0 <= j < k < |names| && FirstAt(hs, a, names[j]) && FirstAt(hs, b, names[k]) :: a < b)
    && (forall i | 0 <= i < |hs| :: hs[i].inst in names)
  }

  lemma FirstAtPrefix(hs: seq<ParsedHeader>, i: nat, inst: Name)
    requires hs != [] && FirstAt(hs[..|hs| - 1], i, inst)
    ensures FirstAt(hs, i, inst) && i < |hs| - 1
  {
  }

  /** A new instance has its first header at the end. */
  lemma FirstAtEnd(hs: seq<ParsedHeader>, names: seq<Name>)
    requires hs != [] && InFirstOrder(hs[..|hs| - 1], names) && hs[|hs| - 1].inst !in names
    ensures FirstAt(hs, |hs| - 1, hs[|hs| - 1].inst)
  {
    forall j | 0 <= j < |hs| - 1
      ensures hs[j].inst != hs[|hs| - 1].inst
    {
      assert hs[..|hs| - 1][j].inst in names;
    }
  }

  /** One more header keeps the order, its instance last if it is new. */
  lemma OrderSnoc(hs: seq<ParsedHeader>, names: seq<Name>)
    requires hs != [] && InFirstOrder(hs[..|hs| - 1], names)
    ensures InFirstOrder(hs, if hs[|hs| - 1].inst in names then names else names + [hs[|hs| - 1].inst])
  {
    var n := |hs| - 1;
    var names' := if hs[n].inst in names then names else names + [hs[n].inst];
    if hs[n].inst !in names {
      FirstAtEnd(hs, names);
    }
    forall k | 0 <= k < |names|
      ensures exists i: nat :: i < n && FirstAt(hs[..n], i, names[k]) && FirstAt(hs, i, names[k])
    {
      assert HasFirst(hs[..n], names[k]);
      var i: nat :| FirstAt(hs[..n], i, names[k]);
      FirstAtPrefix(hs, i, names[k]);
    }
    forall k | 0 <= k < |names'|
      ensures HasFirst(hs, names'[k])
    {
      if k < |names| {
        assert names'[k] == names[k];
      } else {
        assert FirstAt(hs, n, names'[k]);
      }
    }
    forall i | 0 <= i < |hs|
      ensures hs[i].inst in names'
    {
      assert i < n ==> hs[..n][i].inst in names;
    }
    forall j, k, a: nat, b: nat | 0 <= j < k < |names'| && FirstAt(hs, a, names'[j]) && FirstAt(hs, b, names'[k])
      ensures a < b
    {
      var i: nat :| i < n && FirstAt(hs[..n], i, names[j]) && FirstAt(hs, i, names[j]);
      OneFirst(hs, a, i, names[j]);
      assert names'[j] == names[j];
      if k < |names| {
        assert names'[k] == names[k];
        var m: nat :| m < n && FirstAt(hs[..n], m, names[k]) && FirstAt(hs, m, names[k]);
        OneFirst(hs, b, m, names[k]);
      } else {
        OneFirst(hs, b, n, names'[k]);
      }
    }
  }

  lemma {:induction false} SeenInOrder(hs: seq<ParsedHeader>)
    ensures InFirstOrder(hs, FirstSeen(hs))
    decreases |hs|
  {
    hide InFirstOrder;
    if hs == [] {
      EmptyInOrder();
    } else {
      SeenInOrder(hs[..|hs| - 1]);
      OrderSnoc(hs, FirstSeen(hs[..|hs| - 1]));
    }
  }

  lemma EmptyInOrder()
    ensures InFirstOrder([], [])
  {
  }

  function Names(hs: seq<ParsedHeader>): seq<Name> {
    seq(|hs|, k requires 0 <= k < |hs| => hs[k].inst)
  }

  /** The fold the conformance harness applies before comparing headers: the last header of each
      instance, in the order in which the instances first occur. */
  method LastHeadersByInstance(headers: seq<ParsedHeader>) returns (out: seq<ParsedHeader>)
    ensures InFirstOrder(headers, Names(out))
    ensures forall k | 0 <= k < |out| :: exists i: nat :: LastAt(headers, i, out[k].inst) && headers[i] == out[k]
    ensures forall k | 0 <= k < |out| :: out[k].inst in LastOf(headers) && out[k] == LastOf(headers)[out[k].inst]
  {
    hide InFirstOrder;
    var order: seq<Name> := [];
    var last: map<Name, ParsedHeader> := map[];
    var n := 0;
    while n < |headers|
      invariant n <= |headers| && order == FirstSeen(headers[..n]) && last == LastOf(headers[..n])
    {
      var h := headers[n];
      assert headers[..n + 1][..n] == headers[..n];
      if h.inst !in order {
        order := order + [h.inst];
      }
      last := last[h.inst := h];
      n := n + 1;
    }
    assert headers[..n] == headers;
    SeenInOrder(headers);
    SeenHaveLast(headers);
    out := [];
    var k := 0;
    while k < |order|
      invariant k <= |order| && |out| == k
      invariant forall j | 0 <= j < k :: out[j] == last[order[j]]
    {
      out := out + [last[order[k]]];
      k := k + 1;
    }
    assert Names(out) == order;
  }

  lemma SeenHaveLast(hs: seq<ParsedHeader>)
    ensures forall k | 0 <= k < |FirstSeen(hs)| ::
              var i := FirstSeen(hs)[k];
              i in LastOf(hs) && LastOf(hs)[i].inst == i && exists j: nat :: LastAt(hs, j, i) && hs[j] == LastOf(hs)[i]
  {
    SeenInOrder(hs);
    forall k | 0 <= k < |FirstSeen(hs)|
      ensures var i := FirstSeen(hs)[k];
              i in LastOf(hs) && LastOf(hs)[i].inst == i && exists j: nat :: LastAt(hs, j, i) && hs[j] == LastOf(hs)[i]
    {
      assert HasFirst(hs, FirstSeen(hs)[k]);
      var i: nat :| FirstAt(hs, i, FirstSeen(hs)[k]);
      LastOfIsLast(hs, FirstSeen(hs)[k]);
    }
  }

  // ---- Accepted runs report whole headers ----

  function DeclNames(fs: List<FieldDecl>): set<Name> {
    match fs
    case Nil => {}
    case Cons(f, rest) => {f.name} + DeclNames(rest)
  }

  function ParsedNames(fs: seq<ParsedField>): set<Name> {
    set k | 0 <= k < |fs| :: fs[k].name
  }

  /** Every header has all the fields of its instance's type. */
  ghost predicate Whole(hs: seq<ParsedHeader>, ty: Typing) {
    forall k | 0 <= k < |hs| :: hs[k].inst in ty && ParsedNames(hs[k].fields) == DeclNames(ty[hs[k].inst])
  }

  lemma ParsedNamesSnoc(fs: seq<ParsedField>, f: ParsedField)
    ensures ParsedNames(fs + [f]) == ParsedNames(fs) + {f.name}
  {
    var fs' := fs + [f];
    forall x | x in ParsedNames(fs) + {f.name}
      ensures x in ParsedNames(fs')
    {
      if x in ParsedNames(fs) {
        var k :| 0 <= k < |fs| && fs[k].name == x;
        assert fs'[k].name == x;
      } else {
        assert fs'[|fs|].name == x;
      }
    }
  }

  /** All but the open header are whole; the open one has the fields done. */
  ghost predicate WholeSoFar(hs: seq<ParsedHeader>, ty: Typing, done: set<Name>) {
    hs != [] && Whole(hs[..|hs| - 1], ty) && ParsedNames(hs[|hs| - 1].fields) == done
  }

  lemma AddFieldWhole(hs: seq<ParsedHeader>, inst: Name, peek: bool, f: ParsedField, ty: Typing, done: set<Name>)
    requires Open(hs, inst, peek) && WholeSoFar(hs, ty, done)
    ensures Open(AddField(hs, f), inst, peek) && WholeSoFar(AddField(hs, f), ty, done + {f.name})
  {
    var hs' := AddField(hs, f);
    assert hs'[..|hs'| - 1] == hs[..|hs| - 1];
    ParsedNamesSnoc(hs[|hs| - 1].fields, f);
  }

  lemma OneFieldWhole(
    pkt: Packet, inst: Name, peek: bool, f: FieldDecl, cur: nat, at: nat, cfg: Config, ty: Typing, done: set<Name>)
    requires Open(cfg.headers, inst, peek) && WholeSoFar(cfg.headers, ty, done)
    ensures var r := ReadField(pkt, inst, f, cur, at, cfg);
            r.Go? ==> Open(r.cfg.headers, inst, peek) && WholeSoFar(r.cfg.headers, ty, done + {f.name})
  {
    var len := FieldLen(f.width, cfg);
    if len.Some? {
      AddFieldWhole(cfg.headers, inst, peek, ParsedField(f.name, cur, len.value, FieldVal(pkt, f.width, cur, len.value)), ty, done);
    }
  }

  lemma {:induction false} FieldsWhole(
    pkt: Packet, inst: Name, peek: bool, fs: List<FieldDecl>, cur: nat, cfg: Config, ty: Typing, done: set<Name>)
    requires Open(cfg.headers, inst, peek) && WholeSoFar(cfg.headers, ty, done)
    ensures var r := ReadFields(pkt, inst, peek, fs, cur, cfg);
            r.Go? ==> Open(r.cfg.headers, inst, peek) && WholeSoFar(r.cfg.headers, ty, done + DeclNames(fs))
    decreases fs
  {
    if fs.Cons? {
      var at := if peek then cfg.pos else cur;
      OneFieldWhole(pkt, inst, peek, fs.head, cur, at, cfg, ty, done);
      var r := ReadField(pkt, inst, fs.head, cur, at, cfg);
      if r.Go? {
        FieldsWhole(pkt, inst, peek, fs.tail, cur + FieldLen(fs.head.width, cfg).value, r.cfg, ty, done + {fs.head.name});
        assert done + {fs.head.name} + DeclNames(fs.tail) == done + DeclNames(fs);
      }
    } else {
      assert done + DeclNames(fs) == done;
    }
  }

  /** Each extract uses its instance's one header type. */
  predicate TypedExtracts(exs: List<Extract>, ty: Typing) {
    match exs
    case Nil => true
    case Cons(ex, rest) => ex.inst in ty && ty[ex.inst] == ex.fields && TypedExtracts(rest, ty)
  }

  lemma {:induction false} ExtractsWhole(pkt: Packet, exs: List<Extract>, cfg: Config, ty: Typing)
    requires TypedExtracts(exs, ty) && Whole(cfg.headers, ty)
    ensures var r := RunExtracts(pkt, exs, cfg); r.Go? ==> Whole(r.cfg.headers, ty)
    decreases exs
  {
    if exs.Cons? {
      var ex, c := exs.head, BeginHeader(exs.head, cfg);
      assert c.headers[..|c.headers| - 1] == cfg.headers;
      FieldsWhole(pkt, ex.inst, ex.lookahead, ex.fields, cfg.pos, c, ty, {});
      assert {} + DeclNames(ex.fields) == DeclNames(ex.fields);
      var r := ReadFields(pkt, ex.inst, ex.lookahead, ex.fields, cfg.pos, c);
      if r.Go? {
        ExtractsWhole(pkt, exs.tail, r.cfg, ty);
      }
    }
  }

  lemma {:induction false} OpsKeepHeaders(pkt: Packet, rule: PopRule, ops: List<RegionOp>, cfg: Config)
    ensures var r := RunOps(pkt, rule, ops, cfg); !r.Fault? ==> r.cfg.headers == cfg.headers
    decreases ops
  {
    if ops.Cons? {
      var r := RunOp(pkt, rule, ops.head, cfg);
      if r.Go? {
        OpsKeepHeaders(pkt, rule, ops.tail, r.cfg);
      }
    }
  }

  ghost predicate TypedProgram(p: Program, ty: Typing) {
    forall q | 0 <= q < |p.states| :: TypedExtracts(p.states[q].extracts, ty)
  }

  lemma {:induction false} RunWhole(
    p: Program, pkt: Packet, rule: PopRule, q: Name, cfg: Config, budget: nat, ty: Typing)
    requires TypedProgram(p, ty) && Whole(cfg.headers, ty)
    ensures var r := RunFrom(p, pkt, rule, q, cfg, budget); r.outcome == Accepted ==> Whole(r.cfg.headers, ty)
    decreases budget
  {
    if budget > 0 && q < |p.states| {
      var s := p.states[q];
      ExtractsWhole(pkt, s.extracts, cfg, ty);
      var r1 := RunExtracts(pkt, s.extracts, cfg);
      if r1.Go? {
        AssignsKeep(p.metadata, s.assigns, r1.cfg);
        var r2 := RunAssigns(p.metadata, s.assigns, r1.cfg);
        if r2.Go? {
          OpsKeepHeaders(pkt, rule, s.ops, r2.cfg);
        }
      }
      var r := Step(p, pkt, rule, q, cfg);
      if r.Next? {
        RunWhole(p, pkt, rule, r.state, r.cfg, budget - 1, ty);
      }
    }
  }

  lemma {:induction false} FieldSlotKeys(inst: Name, fs: seq<ParsedField>, r: FieldRef)
    ensures r in FieldSlots(inst, fs) <==> r.inst == inst && r.field in ParsedNames(fs)
    decreases |fs|
  {
    if fs != [] {
      var init := fs[..|fs| - 1];
      FieldSlotKeys(inst, init, r);
      ParsedNamesSnoc(init, fs[|fs| - 1]);
      assert init + [fs[|fs| - 1]] == fs;
    }
  }

  /** Where every header of an instance is whole, a slot holds the value of the instance's
      last header. */
  lemma {:induction false} SlotIsLast(hs: seq<ParsedHeader>, ty: Typing, r: FieldRef)
    requires Whole(hs, ty)
    ensures r in SlotsOf(hs) <==> r.inst in LastOf(hs) && r in FieldSlots(r.inst, LastOf(hs)[r.inst].fields)
    ensures r in SlotsOf(hs) ==> SlotsOf(hs)[r] == FieldSlots(r.inst, LastOf(hs)[r.inst].fields)[r]
    ensures r.inst in LastOf(hs) ==> r.inst in ty && ParsedNames(LastOf(hs)[r.inst].fields) == DeclNames(ty[r.inst])
    decreases |hs|
  {
    if hs != [] {
      var init, h := hs[..|hs| - 1], hs[|hs| - 1];
      SlotIsLast(init, ty, r);
      FieldSlotKeys(h.inst, h.fields, r);
      if r.inst == h.inst && r.inst in LastOf(init) {
        FieldSlotKeys(r.inst, LastOf(init)[r.inst].fields, r);
      }
    }
  }

  /** On acceptance the overwritten struct slots hold, for each instance, exactly the fields
      of its last occurrence: what the harness's fold keeps. */
  lemma SlotsAreLastHeaders(p: Program, pkt: Packet, rule: PopRule, ty: Typing, r: FieldRef)
    requires TypedProgram(p, ty) && Parse(p, pkt, rule).outcome == Accepted
    ensures var res := Parse(p, pkt, rule);
            var last := LastOf(res.cfg.headers);
            && (r in res.cfg.env <==> r.inst in last && r in FieldSlots(r.inst, last[r.inst].fields))
            && (r in res.cfg.env ==> res.cfg.env[r] == FieldSlots(r.inst, last[r.inst].fields)[r])
  {
    RunWhole(p, pkt, rule, p.start, Initial(p), p.maxDepth, ty);
    ConsumedIsConserved(p, pkt, rule);
    SlotIsLast(Parse(p, pkt, rule).cfg.headers, ty, r);
  }
}
