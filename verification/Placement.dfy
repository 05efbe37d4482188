/** Where every reported header and field lies: offsets, declared order and values of the headers
    a run reports, the partial last one included. */
module Placement {
  import opened Bits
  import opened Ir
  import opened Semantics
  import opened Observables

  // ---- Where a field lies ----

  /** The field starts at bit at, inside the packet, and reports its bits: a number or a run. */
  ghost predicate FieldPlaced(pkt: Packet, f: ParsedField, at: nat) {
    && f.off == at && at + f.len <= |pkt|
    && match f.value
       case Uint(v) => v == Wrap(Read(pkt, at, f.len))
       case Run(off, len) => off == at && len == f.len
  }

  /** The last field starts where the ones before it end, and so do they. */
  ghost predicate FieldsPlaced(pkt: Packet, fs: seq<ParsedField>, start: nat)
    decreases |fs|
  {
    fs == [] ||
    var init := fs[..|fs| - 1];
    FieldsPlaced(pkt, init, start) && FieldPlaced(pkt, fs[|fs| - 1], start + FieldsLen(init))
  }

  ghost predicate HeaderPlaced(pkt: Packet, h: ParsedHeader, at: nat) {
    h.start == at && FieldsPlaced(pkt, h.fields, at)
  }

  /** The last header starts where the extracted ones before it end, and so do they; a peeked
      header takes nothing. */
  ghost predicate Placed(pkt: Packet, hs: seq<ParsedHeader>)
    decreases |hs|
  {
    hs == [] ||
    var init := hs[..|hs| - 1];
    Placed(pkt, init) && HeaderPlaced(pkt, hs[|hs| - 1], ConsumedBy(init))
  }

  lemma {:induction false} HeaderAt(pkt: Packet, hs: seq<ParsedHeader>, i: nat)
    requires Placed(pkt, hs) && i < |hs|
    ensures HeaderPlaced(pkt, hs[i], ConsumedBy(hs[..i]))
    decreases |hs|
  {
    var init := hs[..|hs| - 1];
    if i < |init| {
      HeaderAt(pkt, init, i);
      assert init[..i] == hs[..i];
    }
  }

  lemma {:induction false} FieldAt(pkt: Packet, fs: seq<ParsedField>, start: nat, k: nat)
    requires FieldsPlaced(pkt, fs, start) && k < |fs|
    ensures FieldPlaced(pkt, fs[k], start + FieldsLen(fs[..k]))
    decreases |fs|
  {
    hide FieldPlaced, FieldsLen;
    var init := fs[..|fs| - 1];
    if k < |init| {
      FieldAt(pkt, init, start, k);
      assert init[..k] == fs[..k];
    }
  }

  // ---- What it declares ----

  /** A field of fixed width is a number of that width, any other a run. */
  predicate IsDeclared(d: FieldDecl, f: ParsedField) {
    f.name == d.name && (if d.width.Fixed? then f.value.Uint? && f.len == d.width.bits else f.value.Run?)
  }

  /** fs are the first declared fields; rest are still to come. */
  predicate Follows(all: List<FieldDecl>, fs: seq<ParsedField>, rest: List<FieldDecl>)
    decreases all
  {
    if fs == [] then all == rest else all.Cons? && IsDeclared(all.head, fs[0]) && Follows(all.tail, fs[1..], rest)
  }

  predicate DeclaredBy(ex: Extract, h: ParsedHeader, rest: List<FieldDecl>) {
    h.inst == ex.inst && h.lookahead == ex.lookahead && Follows(ex.fields, h.fields, rest)
  }

  /** The header is one that some state extracts, or the front of it. */
  ghost predicate Declared(p: Program, h: ParsedHeader) {
    exists q, ex, rest | 0 <= q < |p.states| && Member(ex, p.states[q].extracts) :: DeclaredBy(ex, h, rest)
  }

  ghost predicate AllDeclared(p: Program, hs: seq<ParsedHeader>) {
    forall i | 0 <= i < |hs| :: Declared(p, hs[i])
  }

  // ---- One more field ----

  lemma PlaceField(pkt: Packet, fs: seq<ParsedField>, f: ParsedField, start: nat)
    requires FieldsPlaced(pkt, fs, start) && FieldPlaced(pkt, f, start + FieldsLen(fs))
    ensures FieldsPlaced(pkt, fs + [f], start) && FieldsLen(fs + [f]) == FieldsLen(fs) + f.len
  {
    hide FieldPlaced;
    assert (fs + [f])[..|fs|] == fs;
  }

  lemma {:induction false} FollowField(all: List<FieldDecl>, fs: seq<ParsedField>, rest: List<FieldDecl>, f: ParsedField)
    requires rest.Cons? && Follows(all, fs, rest) && IsDeclared(rest.head, f)
    ensures Follows(all, fs + [f], rest.tail)
    decreases all
  {
    if fs == [] {
      assert (fs + [f])[1..] == [];
    } else {
      assert (fs + [f])[1..] == fs[1..] + [f];
      FollowField(all.tail, fs[1..], rest, f);
    }
  }

  /** The last header is being read: ex is its declaration, rest is still to come. */
  ghost predicate Filling(p: Program, pkt: Packet, hs: seq<ParsedHeader>, ex: Extract, rest: List<FieldDecl>, cur: nat) {
    && hs != [] && Placed(pkt, hs) && AllDeclared(p, hs[..|hs| - 1])
    && DeclaredBy(ex, hs[|hs| - 1], rest) && cur == hs[|hs| - 1].start + FieldsLen(hs[|hs| - 1].fields)
  }

  lemma FillField(p: Program, pkt: Packet, hs: seq<ParsedHeader>, ex: Extract, rest: List<FieldDecl>, cur: nat, f: ParsedField)
    requires Filling(p, pkt, hs, ex, rest, cur) && rest.Cons? && IsDeclared(rest.head, f) && FieldPlaced(pkt, f, cur)
    ensures Filling(p, pkt, AddField(hs, f), ex, rest.tail, cur + f.len)
  {
    hide FieldPlaced, FieldsPlaced, Follows, ConsumedBy, FieldsLen;
    var n, hs' := |hs| - 1, AddField(hs, f);
    var h := hs[n];
    assert hs'[..n] == hs[..n] && hs'[n] == h.(fields := h.fields + [f]);
    PlaceField(pkt, h.fields, f, h.start);
    FollowField(ex.fields, h.fields, rest, f);
  }

  lemma FieldFills(
    p: Program, pkt: Packet, ex: Extract, d: FieldDecl, rest: List<FieldDecl>, cur: nat, at: nat, cfg: Config)
    requires Filling(p, pkt, cfg.headers, ex, Cons(d, rest), cur)
    ensures var r := ReadField(pkt, ex.inst, d, cur, at, cfg);
            && (r.Go? ==> Filling(p, pkt, r.cfg.headers, ex, rest, cur + FieldLen(d.width, cfg).value))
            && (r.Stop? ==> r.cfg == cfg)
  {
    hide Filling;
    var r := ReadField(pkt, ex.inst, d, cur, at, cfg);
    if r.Go? {
      var len := FieldLen(d.width, cfg).value;
      FillField(p, pkt, cfg.headers, ex, Cons(d, rest), cur, ParsedField(d.name, cur, len, FieldVal(pkt, d.width, cur, len)));
    }
  }

  lemma {:induction false} FieldsFill(p: Program, pkt: Packet, ex: Extract, fs: List<FieldDecl>, cur: nat, cfg: Config)
    requires Filling(p, pkt, cfg.headers, ex, fs, cur)
    ensures var r := ReadFields(pkt, ex.inst, ex.lookahead, fs, cur, cfg);
            !r.Fault? ==> exists rest, c :: Filling(p, pkt, r.cfg.headers, ex, rest, c)
    decreases fs
  {
    hide Filling;
    if fs.Cons? {
      var at := if ex.lookahead then cfg.pos else cur;
      FieldFills(p, pkt, ex, fs.head, fs.tail, cur, at, cfg);
      FieldsCons(pkt, ex.inst, ex.lookahead, fs, cur, cfg);
      hide ReadFields;
      var r := ReadField(pkt, ex.inst, fs.head, cur, at, cfg);
      if r.Go? {
        FieldsFill(p, pkt, ex, fs.tail, cur + FieldLen(fs.head.width, cfg).value, r.cfg);
      }
    }
  }

  // ---- One more header ----

  ghost predicate Arranged(p: Program, pkt: Packet, hs: seq<ParsedHeader>) {
    Placed(pkt, hs) && AllDeclared(p, hs)
  }

  lemma FilledIsArranged(p: Program, pkt: Packet, q: nat, hs: seq<ParsedHeader>, ex: Extract, rest: List<FieldDecl>, c: nat)
    requires Filling(p, pkt, hs, ex, rest, c) && q < |p.states| && Member(ex, p.states[q].extracts)
    ensures Arranged(p, pkt, hs)
  {
    hide Placed, DeclaredBy;
    var n := |hs| - 1;
    forall i | 0 <= i < |hs|
      ensures Declared(p, hs[i])
    {
      if i < n {
        assert hs[..n][i] == hs[i];
      }
    }
  }

  lemma HeaderStarts(p: Program, pkt: Packet, ex: Extract, cfg: Config)
    requires Arranged(p, pkt, cfg.headers) && cfg.pos == ConsumedBy(cfg.headers)
    ensures Filling(p, pkt, BeginHeader(ex, cfg).headers, ex, ex.fields, cfg.pos)
  {
    hide ConsumedBy;
    var hs := BeginHeader(ex, cfg).headers;
    assert hs[..|hs| - 1] == cfg.headers;
  }

  lemma BeginAccounts(ex: Extract, cfg: Config)
    requires Accounts(cfg, cfg.pos)
    ensures Open(BeginHeader(ex, cfg).headers, ex.inst, ex.lookahead) && Accounts(BeginHeader(ex, cfg), cfg.pos)
    ensures BeginHeader(ex, cfg).pos == cfg.pos
  {
    var hs := BeginHeader(ex, cfg).headers;
    assert hs[..|hs| - 1] == cfg.headers;
  }

  lemma {:induction false} ExtractsArrange(p: Program, pkt: Packet, q: nat, exs: List<Extract>, cfg: Config)
    requires q < |p.states| && Arranged(p, pkt, cfg.headers) && Accounts(cfg, cfg.pos)
    requires forall ex | Member(ex, exs) :: Member(ex, p.states[q].extracts)
    ensures var r := RunExtracts(pkt, exs, cfg); !r.Fault? ==> Arranged(p, pkt, r.cfg.headers)
    decreases exs
  {
    hide Arranged, ReadFields, Filling, SlotsOf, ConsumedBy;
    if exs.Cons? {
      var ex, c := exs.head, BeginHeader(exs.head, cfg);
      assert Member(ex, exs);
      HeaderStarts(p, pkt, ex, cfg);
      FieldsFill(p, pkt, ex, ex.fields, cfg.pos, c);
      BeginAccounts(ex, cfg);
      hide Accounts, Open, BeginHeader;
      FieldsAccount(pkt, ex.inst, ex.lookahead, ex.fields, cfg.pos, c);
      var r := ReadFields(pkt, ex.inst, ex.lookahead, ex.fields, cfg.pos, c);
      if !r.Fault? {
        var rest, end :| Filling(p, pkt, r.cfg.headers, ex, rest, end);
        FilledIsArranged(p, pkt, q, r.cfg.headers, ex, rest, end);
      }
      if r.Go? {
        assert forall x | Member(x, exs.tail) :: Member(x, exs);
        ExtractsArrange(p, pkt, q, exs.tail, r.cfg);
      }
    }
  }

  lemma BodyArranges(p: Program, pkt: Packet, rule: PopRule, q: nat, cfg: Config)
    requires q < |p.states| && Arranged(p, pkt, cfg.headers) && Accounts(cfg, cfg.pos)
    ensures var r := RunBody(pkt, rule, p.metadata, p.states[q], cfg); !r.Fault? ==> Arranged(p, pkt, r.cfg.headers)
  {
    hide Arranged, Accounts;
    var s := p.states[q];
    ExtractsArrange(p, pkt, q, s.extracts, cfg);
    var r1 := RunExtracts(pkt, s.extracts, cfg);
    if r1.Go? {
      AssignsKeep(p.metadata, s.assigns, r1.cfg);
      var r2 := RunAssigns(p.metadata, s.assigns, r1.cfg);
      if r2.Go? {
        OpsKeepHeaders(pkt, rule, s.ops, r2.cfg);
      }
    }
  }

  lemma {:induction false} RunArranges(p: Program, pkt: Packet, rule: PopRule, q: Name, cfg: Config, budget: nat)
    requires Arranged(p, pkt, cfg.headers) && Accounts(cfg, cfg.pos)
    ensures Arranged(p, pkt, RunFrom(p, pkt, rule, q, cfg, budget).cfg.headers)
    decreases budget
  {
    hide Arranged, Accounts, RunBody;
    if budget > 0 && q < |p.states| {
      BodyArranges(p, pkt, rule, q, cfg);
      StepAccounts(p, pkt, rule, q, cfg);
      var r := Step(p, pkt, rule, q, cfg);
      if r.Next? {
        RunArranges(p, pkt, rule, r.state, r.cfg, budget - 1);
      }
    }
  }

  /** Field k of header i, of the headers hs. */
  ghost predicate FieldIsAt(pkt: Packet, hs: seq<ParsedHeader>, i: nat, k: nat)
    requires i < |hs| && k < |hs[i].fields|
  {
    FieldPlaced(pkt, hs[i].fields[k], hs[i].start + FieldsLen(hs[i].fields[..k]))
  }

  /** For every program, packet and outcome: each reported header starts where the extracted ones
      before it end, each of its fields where the fields before it end; the fields are the first
      declared ones of a header some state extracts; a fixed field is the number its bits spell,
      a variable one the run of bits it covers. */
  lemma HeadersArePlaced(p: Program, pkt: Packet, rule: PopRule)
    ensures var hs := Parse(p, pkt, rule).cfg.headers;
            && AllDeclared(p, hs)
            && (forall i | 0 <= i < |hs| :: hs[i].start == ConsumedBy(hs[..i]))
            && (forall i, k | 0 <= i < |hs| && 0 <= k < |hs[i].fields| :: FieldIsAt(pkt, hs, i, k))
  {
    hide FieldPlaced, RunFrom, AllDeclared;
    StartArranged(p, pkt);
    RunArranges(p, pkt, rule, p.start, Initial(p), p.maxDepth);
    var hs := Parse(p, pkt, rule).cfg.headers;
    forall i | 0 <= i < |hs|
      ensures HeaderPlaced(pkt, hs[i], ConsumedBy(hs[..i]))
    {
      HeaderAt(pkt, hs, i);
    }
    forall i, k | 0 <= i < |hs| && 0 <= k < |hs[i].fields|
      ensures FieldIsAt(pkt, hs, i, k)
    {
      FieldAt(pkt, hs[i].fields, hs[i].start, k);
    }
  }

  lemma StartArranged(p: Program, pkt: Packet)
    ensures Arranged(p, pkt, Initial(p).headers) && Accounts(Initial(p), Initial(p).pos)
  {
  }
}
