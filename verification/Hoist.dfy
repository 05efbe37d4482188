/** The eDSL's resolution pass: method references become names and inline states, possibly
    shared or cyclic, are hoisted into named entries of the state table, in place. */
module Hoist {
  import opened Ir

  /** A transition target as authored, and as the pass leaves it. */
  datatype Goal = Named(name: string) | MethodRef(name: string) | Final(outcome: nat) | Inline(state: Chain)

  /** A state under construction.  body stands for its extracts, assigns and region ops; a
      select has arms and a default as tail, a direct transition only a tail. */
  class Chain {
    const body: nat
    const named: Option<string>
    const armLabels: seq<string>
    const tailLabel: string
    var arms: seq<Goal>
    var tail: Option<Goal>

    constructor (body: nat, named: Option<string>, armLabels: seq<string>, tailLabel: string, arms: seq<Goal>, tail: Option<Goal>)
      ensures this.body == body && this.named == named && this.armLabels == armLabels && this.tailLabel == tailLabel
      ensures this.arms == arms && this.tail == tail
    {
      this.body, this.named, this.armLabels, this.tailLabel := body, named, armLabels, tailLabel;
      this.arms, this.tail := arms, tail;
    }
  }

  /** The transition fields of a chain at some moment. */
  datatype Shape = Shape(arms: seq<Goal>, tail: Option<Goal>)

  function ShapeOf(c: Chain): Shape
    reads c`arms, c`tail
  {
    Shape(c.arms, c.tail)
  }

  type Table = map<string, Chain>

  type Hoisted = map<Chain, string>

  /** now is was, or the name that stands for it. */
  predicate Stands(was: Goal, now: Goal, hoisted: Hoisted) {
    || now == was
    || (was.MethodRef? && now == Named(was.name))
    || (was.Inline? && was.state in hoisted && now == Named(hoisted[was.state]))
  }

  predicate ArmsStand(was: seq<Goal>, now: seq<Goal>, hoisted: Hoisted) {
    |was| == |now| && forall i | 0 <= i < |was| :: Stands(was[i], now[i], hoisted)
  }

  predicate ShapeStands(o: Shape, n: Shape, hoisted: Hoisted) {
    && ArmsStand(o.arms, n.arms, hoisted)
    && (o.tail.None? <==> n.tail.None?)
    && (o.tail.Some? ==> Stands(o.tail.value, n.tail.value, hoisted))
  }

  predicate Settled(g: Goal) {
    g.Named? || g.Final?
  }

  predicate AllSettled(gs: seq<Goal>) {
    forall i | 0 <= i < |gs| :: Settled(gs[i])
  }

  predicate ShapeSettled(s: Shape) {
    AllSettled(s.arms) && (s.tail.Some? ==> Settled(s.tail.value))
  }

  /** Inline targets stay inside u. */
  predicate GoalIn(g: Goal, u: set<Chain>) {
    g.Inline? ==> g.state in u
  }

  predicate ShapeIn(s: Shape, u: set<Chain>) {
    (forall i | 0 <= i < |s.arms| :: GoalIn(s.arms[i], u)) && (s.tail.Some? ==> GoalIn(s.tail.value, u))
  }

  predicate Grows(h: Hoisted, h': Hoisted) {
    forall c | c in h :: c in h' && h'[c] == h[c]
  }

  /** Names given out are taken, one per hoisted chain; none is a name given before; every
      entry is one or the other. */
  ghost predicate NamesOk(states: Table, hoisted: Hoisted, given: Table, all: set<Chain>) {
    && (forall c | c in hoisted :: c in all && hoisted[c] in states && states[hoisted[c]] == c && hoisted[c] !in given)
    && (forall n | n in given :: given[n] in all && n in states && states[n] == given[n])
    && (forall n | n in states :: n in given || (states[n] in hoisted && hoisted[states[n]] == n))
  }

  /** Every chain's targets are inside all and stand for what they were. */
  ghost predicate ShapesOk(before: map<Chain, Shape>, now: map<Chain, Shape>, hoisted: Hoisted, all: set<Chain>) {
    && before.Keys == all && now.Keys == all
    && forall c | c in all :: ChainOk(c, before[c], now[c], hoisted, all)
  }

  ghost predicate ChainOk(c: Chain, was: Shape, now: Shape, hoisted: Hoisted, all: set<Chain>) {
    ShapeIn(now, all) && |c.armLabels| == |now.arms| && ShapeStands(was, now, hoisted)
  }

  ghost predicate DoneOk(done: set<Chain>, now: map<Chain, Shape>) {
    forall c | c in done :: c in now && ShapeSettled(now[c])
  }

  /** The pass's bookkeeping, without the heap. */
  datatype Books = Books(
    states: Table, hoisted: Hoisted, given: Table, all: set<Chain>,
    before: map<Chain, Shape>, now: map<Chain, Shape>, done: set<Chain>)

  /** Target g was authored in table entry n under label tag. */
  ghost predicate TargetOf(k: Books, n: string, g: Goal, tag: string) {
    && n in k.states && k.states[n] in k.before
    && (LabelledArm(k.states[n], k.before[k.states[n]].arms, g, tag)
        || (k.before[k.states[n]].tail == Some(g) && k.states[n].tailLabel == tag))
  }

  predicate LabelledArm(c: Chain, arms: seq<Goal>, g: Goal, tag: string) {
    exists i | 0 <= i < |arms| && i < |c.armLabels| :: arms[i] == g && c.armLabels[i] == tag
  }

  /** The name of an inline state first met in state parent under label tag. */
  function NameFor(c: Chain, parent: string, tag: string): string {
    if c.named.Some? then c.named.value else parent + "__" + tag
  }

  /** u holds the chains given and the inline targets of its members, as authored. */
  ghost predicate ClosedUnder(k: Books, u: set<Chain>) {
    && (forall n | n in k.given :: k.given[n] in u)
    && (forall c | c in u && c in k.before :: ShapeIn(k.before[c], u))
  }

  ghost predicate Reached(k: Books, c: Chain) {
    forall u | u <= k.all && ClosedUnder(k, u) :: c in u
  }

  /** Each hoisted chain is reached from the entries given, and is named after the place where
      it was met. */
  ghost predicate Traced(k: Books) {
    forall c | c in k.hoisted ::
      Reached(k, c) && exists n, tag :: TargetOf(k, n, Inline(c), tag) && k.hoisted[c] == NameFor(c, n, tag)
  }

  /** What every part of the pass keeps. */
  ghost predicate Good(k: Books) {
    && NamesOk(k.states, k.hoisted, k.given, k.all) && ShapesOk(k.before, k.now, k.hoisted, k.all) && DoneOk(k.done, k.now)
    && Traced(k)
  }

  /** An inline state that has no name yet is met where its name would be one already taken. */
  ghost predicate Clashes(k: Books) {
    exists c, n, tag :: c in k.all && ClashAt(k, c, n, tag)
  }

  ghost predicate ClashAt(k: Books, c: Chain, n: string, tag: string) {
    TargetOf(k, n, Inline(c), tag) && Reached(k, c) && c !in k.hoisted && NameFor(c, n, tag) in k.states
  }

  /** The pass only adds to the table. */
  ghost predicate Extends(k: Books, k': Books) {
    && k'.given == k.given && k'.all == k.all && k'.before == k.before
    && forall n | n in k.states :: n in k'.states && k'.states[n] == k.states[n]
  }

  /** A target of a table entry is reached. */
  lemma TargetReached(k: Books, n: string, c: Chain, tag: string)
    requires Good(k) && TargetOf(k, n, Inline(c), tag)
    ensures Reached(k, c)
  {
    var p := k.states[n];
    forall u | u <= k.all && ClosedUnder(k, u)
      ensures c in u
    {
      if n !in k.given {
        assert p in k.hoisted && Reached(k, p);
      }
      assert ShapeIn(k.before[p], u);
      if k.before[p].tail != Some(Inline(c)) {
        var i :| 0 <= i < |k.before[p].arms| && k.before[p].arms[i] == Inline(c);
        assert GoalIn(k.before[p].arms[i], u);
      }
    }
  }

  /** Chains still without a generated name. */
  function Left(k: Books): int {
    |k.all| - |k.hoisted.Keys|
  }

  lemma StrictSubset(all: set<Chain>, keys: set<Chain>, c: Chain)
    requires keys <= all && c in all && c !in keys
    ensures |keys| < |all|
  {
    assert all == keys + (all - keys);
    assert c in all - keys;
  }

  /** Arms once settled stay so. */
  ghost predicate ArmsStay(now: map<Chain, Shape>, now': map<Chain, Shape>) {
    forall c | c in now && AllSettled(now[c].arms) :: c in now' && AllSettled(now'[c].arms)
  }

  /** Names and settled chains stay, and every chain hoisted meanwhile is settled. */
  ghost predicate Advances(k: Books, k': Books) {
    && Extends(k, k') && ArmsStay(k.now, k'.now)
    && Grows(k.hoisted, k'.hoisted) && k.done <= k'.done
    && forall c | c in k'.hoisted && c !in k.hoisted :: c in k'.done
  }

  lemma Registered(k: Books, c: Chain, n: string, tag: string)
    requires Good(k) && c in k.all && c !in k.hoisted && NameFor(c, n, tag) !in k.states && TargetOf(k, n, Inline(c), tag)
    ensures var k' := k.(states := k.states[NameFor(c, n, tag) := c], hoisted := k.hoisted[c := NameFor(c, n, tag)]);
            Good(k') && Extends(k, k')
  {
    hide Traced, NamesOk, ShapesOk, DoneOk, TargetOf, NameFor, Reached;
    var name := NameFor(c, n, tag);
    var k' := k.(states := k.states[name := c], hoisted := k.hoisted[c := name]);
    TargetReached(k, n, c, tag);
    ExtendsOne(k, k', c, name);
    RegisteredTraced(k, k', c, n, tag);
    NamesMore(k, c, name);
    ShapesLater(k.before, k.now, k.hoisted, k'.hoisted, k.all);
  }

  lemma ExtendsOne(k: Books, k': Books, c: Chain, name: string)
    requires k' == k.(states := k.states[name := c], hoisted := k.hoisted[c := name]) && name !in k.states && c !in k.hoisted
    ensures Extends(k, k') && Grows(k.hoisted, k'.hoisted)
  {
  }

  lemma NamesMore(k: Books, c: Chain, name: string)
    requires NamesOk(k.states, k.hoisted, k.given, k.all) && c in k.all && c !in k.hoisted && name !in k.states
    ensures NamesOk(k.states[name := c], k.hoisted[c := name], k.given, k.all)
  {
  }

  lemma ShapesLater(before: map<Chain, Shape>, now: map<Chain, Shape>, h: Hoisted, h': Hoisted, all: set<Chain>)
    requires ShapesOk(before, now, h, all) && Grows(h, h')
    ensures ShapesOk(before, now, h', all)
  {
    forall c | c in all
      ensures ChainOk(c, before[c], now[c], h', all)
    {
      assert ChainOk(c, before[c], now[c], h, all);
    }
  }

  lemma TargetLater(k: Books, k': Books, n: string, g: Goal, tag: string)
    requires TargetOf(k, n, g, tag) && Extends(k, k')
    ensures TargetOf(k', n, g, tag)
  {
  }

  lemma ReachedSame(k: Books, k': Books, c: Chain)
    requires Reached(k, c) && k'.given == k.given && k'.before == k.before && k'.all == k.all
    ensures Reached(k', c)
  {
    forall u | u <= k'.all && ClosedUnder(k', u)
      ensures c in u
    {
      assert ClosedUnder(k, u);
    }
  }

  lemma RegisteredTraced(k: Books, k': Books, c: Chain, n: string, tag: string)
    requires Traced(k) && Extends(k, k') && k'.hoisted == k.hoisted[c := NameFor(c, n, tag)] && c !in k.hoisted
    requires TargetOf(k, n, Inline(c), tag) && Reached(k, c)
    ensures Traced(k')
  {
    hide TargetOf, Reached, NameFor;
    forall d | d in k'.hoisted
      ensures Reached(k', d) && exists m, t :: TargetOf(k', m, Inline(d), t) && k'.hoisted[d] == NameFor(d, m, t)
    {
      if d == c {
        ReachedSame(k, k', c);
        TargetLater(k, k', n, Inline(c), tag);
      } else {
        ReachedSame(k, k', d);
        var m, t :| TargetOf(k, m, Inline(d), t) && k.hoisted[d] == NameFor(d, m, t);
        TargetLater(k, k', m, Inline(d), t);
      }
    }
  }

  /** Traced does not look at the present shapes. */
  lemma TracedSame(k: Books, k': Books)
    requires Traced(k) && k'.states == k.states && k'.hoisted == k.hoisted && k'.given == k.given && k'.before == k.before && k'.all == k.all
    ensures Traced(k') && Extends(k, k')
  {
    hide TargetOf, Reached, NameFor;
    forall c | c in k'.hoisted
      ensures Reached(k', c) && exists n, tag :: TargetOf(k', n, Inline(c), tag) && k'.hoisted[c] == NameFor(c, n, tag)
    {
      ReachedSame(k, k', c);
      var n, tag :| TargetOf(k, n, Inline(c), tag) && k.hoisted[c] == NameFor(c, n, tag);
      TargetLater(k, k', n, Inline(c), tag) by {
        assert Extends(k, k');
      }
    }
  }

  lemma LeftFalls(k: Books, c: Chain, name: string)
    requires NamesOk(k.states, k.hoisted, k.given, k.all) && c in k.all && c !in k.hoisted
    ensures Left(k) > 0 && |k.hoisted[c := name].Keys| == |k.hoisted.Keys| + 1
  {
    StrictSubset(k.all, k.hoisted.Keys, c);
    assert k.hoisted[c := name].Keys == k.hoisted.Keys + {c};
  }

  lemma Registering(k: Books, c: Chain, n: string, tag: string)
    requires Good(k) && c in k.all && c !in k.hoisted && NameFor(c, n, tag) !in k.states && TargetOf(k, n, Inline(c), tag)
    ensures var k' := k.(states := k.states[NameFor(c, n, tag) := c], hoisted := k.hoisted[c := NameFor(c, n, tag)]);
            Good(k') && Extends(k, k') && 0 <= Left(k') < Left(k)
  {
    LeftFalls(k, c, NameFor(c, n, tag));
    Registered(k, c, n, tag);
    hide Good, NameFor, TargetOf, Extends;
  }

  lemma HoistedInside(k: Books, k': Books)
    requires Advances(k, k') && Good(k')
    ensures k.hoisted.Keys <= k'.hoisted.Keys <= k'.all && k'.all == k.all
  {
    assert NamesOk(k'.states, k'.hoisted, k'.given, k'.all);
    hide Good, Traced, ShapesOk, DoneOk, ArmsStay;
  }

  lemma LeftAdvances(k: Books, k': Books)
    requires Advances(k, k') && Good(k')
    ensures 0 <= Left(k') <= Left(k)
  {
    hide Good, Advances;
    HoistedInside(k, k');
    SubsetSize(k.hoisted.Keys, k'.hoisted.Keys);
    SubsetSize(k'.hoisted.Keys, k'.all);
  }

  lemma SubsetSize(a: set<Chain>, b: set<Chain>)
    requires a <= b
    ensures |a| <= |b|
  {
    assert b == a + (b - a);
  }

  lemma ChainOfBooks(k: Books, c: Chain)
    requires Good(k) && c in k.all
    ensures c in k.now && c in k.before && ChainOk(c, k.before[c], k.now[c], k.hoisted, k.all)
  {
  }

  lemma ChainSet(k: Books, c: Chain, n: Shape, done: set<Chain>)
    requires Good(k) && c in k.all && ChainOk(c, k.before[c], n, k.hoisted, k.all)
    requires done <= k.done + {c} && (c in done ==> ShapeSettled(n))
    ensures var k' := k.(now := k.now[c := n], done := done); Good(k') && Extends(k, k')
  {
    var k' := k.(now := k.now[c := n], done := done);
    TracedSame(k, k');
    hide Traced, NamesOk, ChainOk, Extends, ShapeSettled;
    forall d | d in k.all
      ensures ChainOk(d, k.before[d], k'.now[d], k.hoisted, k.all)
    {
      assert ChainOk(d, k.before[d], k.now[d], k.hoisted, k.all);
    }
    assert k'.now.Keys == k.all;
  }

  /** A chain's arms replaced by settled ones that stand for arms it had before. */
  lemma ArmsSet(k: Books, c: Chain, had: seq<Goal>, arms: seq<Goal>)
    requires Good(k) && c in k.all && ArmsStand(k.before[c].arms, had, k.hoisted) && ArmsStand(had, arms, k.hoisted)
    requires |c.armLabels| == |arms| && AllSettled(arms)
    ensures var k' := k.(now := k.now[c := Shape(arms, k.now[c].tail)]);
            Good(k') && Advances(k, k')
  {
    hide Good;
    ChainOfBooks(k, c);
    DoneSettled(k, c);
    var n := Shape(arms, k.now[c].tail);
    ArmsChain(c, k.before[c], k.now[c], had, arms, k.hoisted, k.all);
    hide ChainOk, Stands, ArmsStand;
    ChainSet(k, c, n, k.done);
  }

  lemma DoneSettled(k: Books, c: Chain)
    requires Good(k) && c in k.all
    ensures c in k.done ==> c in k.now && ShapeSettled(k.now[c])
  {
  }

  lemma ArmsChain(c: Chain, was: Shape, now: Shape, had: seq<Goal>, arms: seq<Goal>, h: Hoisted, all: set<Chain>)
    requires ChainOk(c, was, now, h, all) && ArmsStand(was.arms, had, h) && ArmsStand(had, arms, h)
    requires |c.armLabels| == |arms| && AllSettled(arms)
    ensures ChainOk(c, was, Shape(arms, now.tail), h, all)
  {
    forall i | 0 <= i < |arms|
      ensures Stands(was.arms[i], arms[i], h)
    {
      assert Stands(was.arms[i], had[i], h) && Stands(had[i], arms[i], h);
    }
  }

  /** A chain's tail replaced by a settled one, its arms being settled: the chain is done. */
  lemma TailSet(k: Books, c: Chain, had: Option<Goal>, tail: Option<Goal>)
    requires Good(k) && c in k.all && AllSettled(k.now[c].arms)
    requires (k.before[c].tail.None? <==> had.None?) && (had.None? <==> tail.None?)
    requires had.Some? ==> Stands(k.before[c].tail.value, had.value, k.hoisted) && Stands(had.value, tail.value, k.hoisted)
                           && Settled(tail.value)
    ensures var k' := k.(now := k.now[c := Shape(k.now[c].arms, tail)], done := k.done + {c});
            Good(k') && Advances(k, k')
  {
    hide Good;
    ChainOfBooks(k, c);
    var n := Shape(k.now[c].arms, tail);
    assert ChainOk(c, k.before[c], n, k.hoisted, k.all);
    hide ChainOk, Stands;
    ChainSet(k, c, n, k.done + {c});
  }

  lemma AdvancesSelf(k: Books)
    ensures Advances(k, k) && Extends(k, k)
  {
  }

  lemma AdvancesThen(a: Books, b: Books, c: Books)
    requires Advances(a, b) && Advances(b, c)
    ensures Advances(a, c) && Extends(a, c)
  {
  }

  lemma ExtendsThen(a: Books, b: Books, c: Books)
    requires Extends(a, b) && Extends(b, c)
    ensures Extends(a, c)
  {
  }

  /** After registering c under name and resolving it. */
  lemma AdvancesFresh(a: Books, b: Books, k: Books, c: Chain, name: string)
    requires b == a.(states := a.states[name := c], hoisted := a.hoisted[c := name]) && c !in a.hoisted && name !in a.states
    requires Advances(b, k) && c in k.done
    ensures Resolved(a, k, Inline(c), Named(name))
  {
  }

  /** g became r between the books k and k'. */
  ghost predicate Resolved(k: Books, k': Books, g: Goal, r: Goal) {
    Advances(k, k') && Stands(g, r, k'.hoisted) && Settled(r)
  }

  predicate GoalsIn(gs: seq<Goal>, u: set<Chain>) {
    forall i | 0 <= i < |gs| :: GoalIn(gs[i], u)
  }

  ghost predicate AllResolved(k: Books, k': Books, gs: seq<Goal>, rs: seq<Goal>) {
    Advances(k, k') && ArmsStand(gs, rs, k'.hoisted) && AllSettled(rs)
  }

  lemma OneThenRest(a: Books, b: Books, c: Books, gs: seq<Goal>, r: Goal, rest: seq<Goal>)
    requires gs != [] && Resolved(a, b, gs[0], r) && AllResolved(b, c, gs[1..], rest)
    ensures AllResolved(a, c, gs, [r] + rest)
  {
    var rs := [r] + rest;
    forall i | 0 <= i < |gs|
      ensures Stands(gs[i], rs[i], c.hoisted) && Settled(rs[i])
    {
      if i > 0 {
        assert gs[i] == gs[1..][i - 1] && rs[i] == rest[i - 1];
      }
    }
  }

  // ---- The names the pass gives ----

  /** The table and the hoisted chains with their names, unless a name was taken. */
  datatype Names = Names(ok: bool, states: Table, hoisted: Hoisted)

  ghost predicate Labelled(before: map<Chain, Shape>) {
    forall c | c in before :: |before[c].arms| == |c.armLabels|
  }

  ghost function Unnamed(before: map<Chain, Shape>, t: Names): nat {
    |before.Keys - t.hoisted.Keys|
  }

  lemma FewerUnnamed(before: map<Chain, Shape>, t: Names, r: Names)
    requires t.hoisted.Keys <= r.hoisted.Keys
    ensures Unnamed(before, r) <= Unnamed(before, t)
  {
    SubsetSize(before.Keys - r.hoisted.Keys, before.Keys - t.hoisted.Keys);
  }

  lemma OneFewer(before: map<Chain, Shape>, t: Names, c: Chain, name: string)
    requires c in before && c !in t.hoisted
    ensures Unnamed(before, Names(true, t.states[name := c], t.hoisted[c := name])) < Unnamed(before, t)
  {
    var h := t.hoisted[c := name];
    assert h.Keys == t.hoisted.Keys + {c};
    assert before.Keys - t.hoisted.Keys == (before.Keys - h.Keys) + {c};
  }

  /** A target met in state parent under label tag: an inline state not met before takes its own
      name, or the parent's name, two underscores and the label; then its own targets are met. */
  ghost function MeetOne(before: map<Chain, Shape>, g: Goal, tag: string, parent: string, t: Names): (r: Names)
    requires Labelled(before)
    ensures t.hoisted.Keys <= r.hoisted.Keys
    decreases Unnamed(before, t), 0, 0
  {
    if g.Inline? && g.state in before && g.state !in t.hoisted then
      var name := if g.state.named.Some? then g.state.named.value else parent + "__" + tag;
      if name in t.states then t.(ok := false)
      else
        OneFewer(before, t, g.state, name);
        MeetState(before, g.state, name, Names(true, t.states[name := g.state], t.hoisted[g.state := name]))
    else t
  }

  /** Targets in authored order. */
  ghost function MeetAll(before: map<Chain, Shape>, gs: seq<Goal>, tags: seq<string>, parent: string, t: Names): (r: Names)
    requires Labelled(before) && |gs| == |tags|
    ensures t.hoisted.Keys <= r.hoisted.Keys
    decreases Unnamed(before, t), 1, |gs|
  {
    if gs == [] || !t.ok then t
    else
      var first := MeetOne(before, gs[0], tags[0], parent, t);
      FewerUnnamed(before, t, first);
      MeetAll(before, gs[1..], tags[1..], parent, first)
  }

  /** A state's arms as authored, then its default or direct target. */
  ghost function MeetState(before: map<Chain, Shape>, c: Chain, name: string, t: Names): (r: Names)
    requires Labelled(before) && c in before
    ensures t.hoisted.Keys <= r.hoisted.Keys
    decreases Unnamed(before, t), 2, 0
  {
    var a := MeetAll(before, before[c].arms, c.armLabels, name, t);
    FewerUnnamed(before, t, a);
    if a.ok && before[c].tail.Some? then MeetOne(before, before[c].tail.value, c.tailLabel, name, a) else a
  }

  /** The entries in definition order. */
  ghost function MeetEntries(before: map<Chain, Shape>, given: Table, order: seq<string>, t: Names): Names
    requires Labelled(before) && forall i | 0 <= i < |order| :: order[i] in given && given[order[i]] in before
    decreases |order|
  {
    if order == [] || !t.ok then t
    else MeetEntries(before, given, order[1..], MeetState(before, given[order[0]], order[0], t))
  }

  lemma BooksLabelled(k: Books)
    requires Good(k)
    ensures Labelled(k.before) && k.before.Keys == k.all
  {
    forall c | c in k.before
      ensures |k.before[c].arms| == |c.armLabels|
    {
      assert ChainOk(c, k.before[c], k.now[c], k.hoisted, k.all);
    }
  }

  /** An inline state met for the first time. */
  lemma MeetFresh(before: map<Chain, Shape>, c: Chain, tag: string, parent: string, t: Names)
    requires Labelled(before) && c in before && c !in t.hoisted
    ensures var name := NameFor(c, parent, tag);
            MeetOne(before, Inline(c), tag, parent, t)
            == if name in t.states then t.(ok := false)
               else MeetState(before, c, name, Names(true, t.states[name := c], t.hoisted[c := name]))
  {
  }

  /** Every generated name is the chain's own, or its place's. */
  lemma NamedByPlace(k: Books)
    requires Good(k)
    ensures forall c | c in k.hoisted && c.named.Some? :: k.hoisted[c] == c.named.value
    ensures forall c | c in k.hoisted && c.named.None? ::
              exists n, tag :: TargetOf(k, n, Inline(c), tag) && k.hoisted[c] == n + "__" + tag
  {
    hide TargetOf, Reached, NamesOk, ShapesOk, DoneOk;
    forall c | c in k.hoisted && c.named.None?
      ensures exists n, tag :: TargetOf(k, n, Inline(c), tag) && k.hoisted[c] == n + "__" + tag
    {
      var n, tag :| TargetOf(k, n, Inline(c), tag) && k.hoisted[c] == NameFor(c, n, tag);
    }
  }

  lemma ClashByPlace(k: Books)
    requires Clashes(k)
    ensures exists c, n, tag ::
              && c in k.all && c !in k.hoisted && Reached(k, c) && TargetOf(k, n, Inline(c), tag)
              && (if c.named.Some? then c.named.value else n + "__" + tag) in k.states
  {
    hide TargetOf, Reached;
    var c, n, tag :| c in k.all && ClashAt(k, c, n, tag);
  }

  /** What stands for a target meets the same. */
  lemma MeetStanding(before: map<Chain, Shape>, was: Goal, g: Goal, tag: string, parent: string, t: Names)
    requires Labelled(before) && Stands(was, g, t.hoisted) && !g.Inline?
    ensures MeetOne(before, was, tag, parent, t) == t
  {
  }

  lemma StandLater(was: seq<Goal>, gs: seq<Goal>, h: Hoisted, h': Hoisted)
    requires ArmsStand(was, gs, h) && Grows(h, h') && gs != []
    ensures ArmsStand(was[1..], gs[1..], h')
  {
    forall i | 0 <= i < |gs| - 1
      ensures Stands(was[1..][i], gs[1..][i], h')
    {
      assert Stands(was[i + 1], gs[i + 1], h);
    }
  }

  lemma ClashHere(k: Books, c: Chain, n: string, tag: string)
    requires Good(k) && c in k.all && c !in k.hoisted && TargetOf(k, n, Inline(c), tag) && NameFor(c, n, tag) in k.states
    ensures Clashes(k)
  {
    hide Good, TargetOf, Reached, NameFor;
    TargetReached(k, n, c, tag);
    assert ClashAt(k, c, n, tag);
  }

  lemma SelfExtends(k: Books)
    ensures Extends(k, k)
  {
  }

  lemma NewEntry(k: Books, k': Books, c: Chain, name: string)
    requires k' == k.(states := k.states[name := c], hoisted := k.hoisted[c := name])
    ensures name in k'.states && k'.states[name] == c && k'.before == k.before
  {
  }

  lemma SameBefore(k: Books, k': Books)
    requires Extends(k, k')
    ensures k'.before == k.before && k'.given == k.given
  {
  }

  lemma AdvancesGrow(k: Books, k': Books)
    requires Advances(k, k')
    ensures Grows(k.hoisted, k'.hoisted)
  {
  }

  class Resolver {
    /** The table and the names given so far. */
    ghost function Now(ok: bool): Names
      reads this
    {
      Names(ok, states, hoisted)
    }

    var states: Table
    var hoisted: Hoisted
    ghost const all: set<Chain>
    ghost var books: Books

    /** The books are kept, and the chains' fields are what they say. */
    ghost predicate Kept()
      reads this, all
    {
      && books.states == states && books.hoisted == hoisted && books.all == all && Good(books)
      && forall c | c in all :: c in books.now && ShapeOf(c) == books.now[c]
    }

    constructor (table: Table, ghost universe: set<Chain>)
      requires forall n | n in table :: table[n] in universe
      requires forall c | c in universe :: ShapeIn(ShapeOf(c), universe) && |c.armLabels| == |c.arms|
      ensures Kept() && states == table && hoisted == map[] && all == universe
      ensures books.given == table && books.done == {} && forall c | c in universe :: books.before[c] == ShapeOf(c)
    {
      states, hoisted, all := table, map[], universe;
      var shapes := map c | c in universe :: ShapeOf(c);
      books := Books(table, map[], table, universe, shapes, shapes, {});
    }

    /** Registers a chain under a fresh name. */
    method Register(c: Chain, name: string)
      requires Kept() && Good(books.(states := states[name := c], hoisted := hoisted[c := name]))
      modifies `states, `hoisted, `books
      ensures Kept() && books == old(books).(states := old(states)[name := c], hoisted := old(hoisted)[c := name])
    {
      hide Good;
      states, hoisted := states[name := c], hoisted[c := name];
      books := books.(states := states, hoisted := hoisted);
    }

    /** c's arms become arms. */
    method SetArms(c: Chain, ghost had: seq<Goal>, arms: seq<Goal>)
      requires Kept() && c in all && ArmsStand(books.before[c].arms, had, hoisted) && ArmsStand(had, arms, hoisted)
      requires |c.armLabels| == |arms| && AllSettled(arms)
      modifies c`arms, `books
      ensures Kept() && Advances(old(books), books) && books.hoisted == old(books).hoisted && c.arms == arms
    {
      hide Good, Advances, ArmsStand, AllSettled;
      ArmsSet(books, c, had, arms);
      c.arms := arms;
      books := books.(now := books.now[c := Shape(arms, books.now[c].tail)]);
    }

    /** c's tail becomes tail, and c is done. */
    method SetTail(c: Chain, ghost had: Option<Goal>, tail: Option<Goal>)
      requires Kept() && c in all && AllSettled(c.arms)
      requires (books.before[c].tail.None? <==> had.None?) && (had.None? <==> tail.None?)
      requires had.Some? ==> Stands(books.before[c].tail.value, had.value, hoisted) && Stands(had.value, tail.value, hoisted)
                             && Settled(tail.value)
      modifies c`tail, `books
      ensures Kept() && c in books.done && Advances(old(books), books) && hoisted == old(hoisted)
    {
      hide Good, Advances, Stands, AllSettled, Settled;
      TailSet(books, c, had, tail);
      c.tail := tail;
      books := books.(now := books.now[c := Shape(books.now[c].arms, tail)], done := books.done + {c});
    }

    /** One target, seen from state parent under label tag: a name, a terminal, or a clash. */
    method Resolve(g: Goal, parent: string, tag: string, ghost was: Goal) returns (ok: bool, r: Goal)
      requires Kept() && GoalIn(g, all) && (g.Inline? ==> TargetOf(books, parent, g, tag))
      requires Stands(was, g, hoisted) && Labelled(books.before)
      modifies this, all
      ensures Labelled(old(books).before) && Now(ok) == MeetOne(old(books).before, was, tag, parent, old(Now(true)))
      ensures Kept() && Extends(old(books), books)
      ensures ok ==> Resolved(old(books), books, g, r)
      ensures !ok ==> Clashes(books)
      decreases Left(books), 0, 1
    {
      ok, r := true, g;
      AdvancesSelf(books);
      if !g.Inline? {
        MeetStanding(books.before, was, g, tag, parent, Now(true));
      }
      match g
      case Named(_) =>
      case Final(_) =>
      case MethodRef(n) => r := Named(n);
      case Inline(c) =>
        if c in hoisted {
          r := Named(hoisted[c]);
        } else {
          ok, r := HoistChain(c, parent, tag);
        }
    }

    /** An inline state met for the first time: registered, then resolved itself. */
    method HoistChain(c: Chain, parent: string, tag: string) returns (ok: bool, r: Goal)
      requires Kept() && c in all && c !in hoisted && TargetOf(books, parent, Inline(c), tag) && Labelled(books.before)
      modifies this, all
      ensures Kept() && Extends(old(books), books)
      ensures Labelled(old(books).before) && Now(ok) == MeetOne(old(books).before, Inline(c), tag, parent, old(Now(true)))
      ensures ok ==> Resolved(old(books), books, Inline(c), r)
      ensures !ok ==> Clashes(books)
      decreases Left(books), 0, 0
    {
      hide MeetOne, MeetState, Unnamed, Labelled, Good, NameFor, TargetOf, Left, Extends, Advances, Resolved, Clashes;
      var name := NameFor(c, parent, tag);
      r := Named(name);
      BooksLabelled(books);
      MeetFresh(books.before, c, tag, parent, Now(true));
      if name in states {
        ClashHere(books, c, parent, tag);
        SelfExtends(books);
        return false, r;
      }
      Registering(books, c, parent, tag);
      Register(c, name);
      ghost var mid := books;
      NewEntry(old(books), mid, c, name);
      ok := ResolveState(name, c);
      ExtendsThen(old(books), mid, books);
      if ok {
        AdvancesFresh(old(books), mid, books, c, name);
      }
    }

    /** The targets of a select in order. */
    method ResolveArms(gs: seq<Goal>, tags: seq<string>, parent: string, ghost was: seq<Goal>)
      returns (ok: bool, rs: seq<Goal>)
      requires Kept() && |tags| == |gs| && GoalsIn(gs, all) && AsAuthored(books, parent, gs, tags)
      requires ArmsStand(was, gs, hoisted) && Labelled(books.before)
      modifies this, all
      ensures Labelled(old(books).before) && Now(ok) == MeetAll(old(books).before, was, tags, parent, old(Now(true)))
      ensures Kept() && Extends(old(books), books)
      ensures ok ==> AllResolved(old(books), books, gs, rs)
      ensures !ok ==> Clashes(books)
      decreases Left(books), 1, |gs|
    {
      hide Advances, Extends, Good, Clashes, TargetOf;
      ok, rs := true, [];
      AdvancesSelf(books);
      if gs != [] {
        var r, rest;
        ok, r := Resolve(gs[0], parent, tags[0], was[0]);
        if ok {
          ghost var mid := books;
          LeftAdvances(old(books), mid);
          AsAuthoredLater(old(books), mid, parent, gs, tags);
          AdvancesGrow(old(books), mid);
          StandLater(was, gs, old(hoisted), hoisted);
          SameBefore(old(books), mid);
          ok, rest := ResolveArms(gs[1..], tags[1..], parent, was[1..]);
          ExtendsThen(old(books), mid, books);
          if ok {
            OneThenRest(old(books), mid, books, gs, r, rest);
            rs := [r] + rest;
          }
        }
      }
    }

    /** The default or direct target of a state whose arms are settled. */
    method ResolveTail(name: string, c: Chain) returns (ok: bool)
      requires Kept() && name in states && states[name] == c && AllSettled(c.arms) && Labelled(books.before) && c in books.before
      modifies this, all
      ensures Labelled(old(books).before) && c in old(books).before
      ensures var tail := old(books).before[c].tail;
              Now(ok) == if tail.Some? then MeetOne(old(books).before, tail.value, c.tailLabel, name, old(Now(true)))
                         else old(Now(true))
      ensures Kept() && Extends(old(books), books)
      ensures ok ==> Advances(old(books), books) && c in books.done
      ensures !ok ==> Clashes(books)
      decreases Left(books), 1, 0
    {
      hide Good, MeetOne, Unnamed, Advances, Extends, TargetOf, Clashes, ChainOk;
      ok := true;
      AdvancesSelf(books);
      var had := c.tail;
      ShapeOfBooks(books, name);
      TailStands(books, c);
      if had.None? {
        SetTail(c, None, None);
        AdvancesThen(old(books), old(books), books);
      } else {
        var r;
        ok, r := Resolve(had.value, name, c.tailLabel, books.before[c].tail.value);
        if ok {
          ghost var mid := books;
          ResolvedParts(old(books), mid, had.value, r);
          TailStandsLater(old(books), mid, old(books).before[c].tail.value, had.value);
          ArmsStaySettled(old(books), mid, c);
          SetTail(c, had, Some(r));
          AdvancesThen(old(books), mid, books);
        }
      }
    }

    /** A state's arms, then its default or direct target. */
    method ResolveState(name: string, c: Chain) returns (ok: bool)
      requires Kept() && name in states && states[name] == c && Labelled(books.before) && c in books.before
      modifies this, all
      ensures Labelled(old(books).before) && c in old(books).before
      ensures Now(ok) == MeetState(old(books).before, c, name, old(Now(true)))
      ensures Kept() && Extends(old(books), books)
      ensures ok ==> Advances(old(books), books) && c in books.done
      ensures !ok ==> Clashes(books)
      decreases Left(books), 2, 0
    {
      hide Advances, Good, Clashes, TargetOf, MeetAll, MeetOne, Labelled, AsAuthored, Left, Reached, NamesOk;
      ghost var had := c.arms;
      var arms;
      ShapeOfBooks(books, name);
      ok, arms := ResolveArms(c.arms, c.armLabels, name, books.before[c].arms);
      if ok {
        ghost var mid := books;
        ArmsLater(old(books), mid, c, had, arms);
        SetArms(c, had, arms);
        ghost var set_ := books;
        AdvancesThen(old(books), mid, set_);
        LeftAdvances(old(books), set_);
        ok := ResolveTail(name, c);
        ExtendsThen(old(books), set_, books);
        if ok {
          AdvancesThen(old(books), set_, books);
        }
      }
    }

    /** The whole pass, over the entries given in definition order: it succeeds exactly when it
        leaves no clash, and then every entry of the table is settled. */
    method ResolveAll(order: seq<string>) returns (ok: bool)
      requires Kept() && books.given == states && hoisted == map[] && books.done == {}
      requires (forall i | 0 <= i < |order| :: order[i] in states) && (forall n | n in states :: n in order)
      modifies this, all
      ensures Kept() && Extends(old(books), books)
      ensures ok ==> Advances(old(books), books) && AllDone(books)
      ensures ok <==> !Clashes(books)
      ensures Entries(old(books), order)
           && Now(ok) == MeetEntries(old(books).before, old(states), order, Names(true, old(states), map[]))
      ensures forall c | c in hoisted && c.named.Some? :: hoisted[c] == c.named.value
      ensures forall c | c in hoisted && c.named.None? ::
                exists n, tag :: TargetOf(books, n, Inline(c), tag) && hoisted[c] == n + "__" + tag
      ensures !ok ==> exists c, n, tag ::
                && c in all && c !in hoisted && Reached(books, c) && TargetOf(books, n, Inline(c), tag)
                && (if c.named.Some? then c.named.value else n + "__" + tag) in states
    {
      hide Advances, Good, Clashes, MeetState, MeetEntries, TargetOf, Reached;
      ghost var start := books;
      AdvancesSelf(start);
      StartEntries(start, order);
      ok := true;
      var i := 0;
      assert order[0..] == order;
      while i < |order|
        invariant i <= |order| && Kept() && Advances(start, books) && DoneUpTo(start, books, order, i)
        invariant Extends(start, books) && ok
        invariant MeetEntries(start.before, start.given, order, Names(true, start.given, map[]))
               == MeetEntries(start.before, start.given, order[i..], Now(true))
      {
        ghost var mid := books;
        EntryStays(start, mid, order[i]);
        NextEntry(start, order, i, Now(true));
        ok := ResolveState(order[i], states[order[i]]);
        ExtendsThen(start, mid, books);
        if !ok {
          StoppedEntries(start, order[i + 1..], Now(false));
          NamedByPlace(books);
          ClashByPlace(books);
          return;
        }
        OneMoreDone(start, mid, books, order, i);
        i := i + 1;
      }
      StoppedEntries(start, [], Now(true));
      GivenAllDone(start, books, order);
      DoneNeverClashes(books);
      NamedByPlace(books);
    }
  }

  /** The entries of the table, with their authored shapes. */
  ghost predicate Entries(k: Books, order: seq<string>) {
    Labelled(k.before) && forall i | 0 <= i < |order| :: order[i] in k.given && k.given[order[i]] in k.before
  }

  lemma StartEntries(k: Books, order: seq<string>)
    requires Good(k) && k.given == k.states && forall i | 0 <= i < |order| :: order[i] in k.states
    ensures Entries(k, order)
  {
    BooksLabelled(k);
    assert NamesOk(k.states, k.hoisted, k.given, k.all);
    hide Good, ShapesOk, Traced, DoneOk, Labelled;
  }

  lemma EntryStays(k: Books, k': Books, n: string)
    requires Extends(k, k') && k.given == k.states && n in k.states
    ensures n in k'.states && k'.states[n] == k.given[n] && k'.before == k.before
  {
  }

  lemma NextEntry(k: Books, order: seq<string>, i: nat, t: Names)
    requires Entries(k, order) && i < |order| && t.ok
    ensures Entries(k, order[i..]) && Entries(k, order[i + 1..])
    ensures MeetEntries(k.before, k.given, order[i..], t)
         == MeetEntries(k.before, k.given, order[i + 1..], MeetState(k.before, k.given[order[i]], order[i], t))
  {
    assert order[i..][1..] == order[i + 1..];
  }

  lemma StoppedEntries(k: Books, order: seq<string>, t: Names)
    requires Entries(k, order) && (!t.ok || order == [])
    ensures MeetEntries(k.before, k.given, order, t) == t
  {
  }

  /** The targets in gs that are still inline are those authored in table entry n. */
  ghost predicate AsAuthored(k: Books, n: string, gs: seq<Goal>, tags: seq<string>)
    requires |tags| == |gs|
  {
    forall i | 0 <= i < |gs| && gs[i].Inline? :: TargetOf(k, n, gs[i], tags[i])
  }

  lemma AsAuthoredLater(k: Books, k': Books, n: string, gs: seq<Goal>, tags: seq<string>)
    requires |tags| == |gs| && gs != [] && AsAuthored(k, n, gs, tags) && Extends(k, k')
    ensures AsAuthored(k', n, gs[1..], tags[1..])
  {
    forall i | 0 <= i < |gs| - 1 && gs[1..][i].Inline?
      ensures TargetOf(k', n, gs[1..][i], tags[1..][i])
    {
      TargetLater(k, k', n, gs[i + 1], tags[i + 1]);
    }
  }

  lemma TableChain(k: Books, n: string)
    requires Good(k) && n in k.states
    ensures k.states[n] in k.all
  {
    assert NamesOk(k.states, k.hoisted, k.given, k.all);
    hide Good, Traced, ShapesOk, DoneOk;
  }

  /** The books show table entry n as it is, and what is inline there was authored so. */
  lemma ShapeOfBooks(k: Books, n: string)
    requires Good(k) && n in k.states
    ensures var c := k.states[n];
            && c in k.all && c in k.now && c in k.before && ChainOk(c, k.before[c], k.now[c], k.hoisted, k.all)
            && AsAuthored(k, n, k.now[c].arms, c.armLabels)
            && (k.now[c].tail.Some? && k.now[c].tail.value.Inline? ==> TargetOf(k, n, k.now[c].tail.value, c.tailLabel))
  {
    hide Good;
    TableChain(k, n);
    var c := k.states[n];
    ChainOfBooks(k, c);
    forall i | 0 <= i < |k.now[c].arms| && k.now[c].arms[i].Inline?
      ensures TargetOf(k, n, k.now[c].arms[i], c.armLabels[i])
    {
      assert Stands(k.before[c].arms[i], k.now[c].arms[i], k.hoisted);
    }
  }

  lemma TailStands(k: Books, c: Chain)
    requires Good(k) && c in k.all
    ensures c in k.now && c in k.before && (k.before[c].tail.None? <==> k.now[c].tail.None?)
    ensures k.now[c].tail.Some? ==>
              GoalIn(k.now[c].tail.value, k.all) && Stands(k.before[c].tail.value, k.now[c].tail.value, k.hoisted)
  {
    ChainOfBooks(k, c);
    hide Good;
  }

  lemma ResolvedParts(k: Books, k': Books, g: Goal, r: Goal)
    requires Resolved(k, k', g, r)
    ensures Advances(k, k') && Stands(g, r, k'.hoisted) && Settled(r)
  {
  }

  lemma ArmsStaySettled(k: Books, k': Books, c: Chain)
    requires Advances(k, k') && c in k.now && AllSettled(k.now[c].arms)
    ensures c in k'.now && AllSettled(k'.now[c].arms)
  {
  }

  lemma TailStandsLater(k: Books, k': Books, was: Goal, had: Goal)
    requires Advances(k, k') && Stands(was, had, k.hoisted)
    ensures Stands(was, had, k'.hoisted) && k'.before == k.before && k'.all == k.all
  {
  }

  lemma ArmsLater(k: Books, k': Books, c: Chain, had: seq<Goal>, arms: seq<Goal>)
    requires Good(k) && c in k.all && had == k.now[c].arms && AllResolved(k, k', had, arms)
    ensures c in k'.before && ArmsStand(k'.before[c].arms, had, k'.hoisted) && ArmsStand(had, arms, k'.hoisted) && AllSettled(arms)
    ensures |c.armLabels| == |arms| && Advances(k, k')
  {
    assert ChainOk(c, k.before[c], k.now[c], k.hoisted, k.all);
    forall i | 0 <= i < |had|
      ensures Stands(k'.before[c].arms[i], had[i], k'.hoisted)
    {
      assert Stands(k.before[c].arms[i], had[i], k.hoisted);
    }
  }

  /** Every table entry is settled. */
  ghost predicate AllDone(k: Books) {
    forall n | n in k.states :: k.states[n] in k.done
  }

  /** The first i entries given are settled. */
  ghost predicate DoneUpTo(k: Books, k': Books, order: seq<string>, i: nat) {
    i <= |order| && forall j | 0 <= j < i :: order[j] in k.given && k.given[order[j]] in k'.done
  }

  lemma OneMoreDone(k: Books, mid: Books, k': Books, order: seq<string>, i: nat)
    requires i < |order| && order[i] in k.given && k.given[order[i]] in k'.done
    requires DoneUpTo(k, mid, order, i) && Advances(k, mid) && Advances(mid, k')
    ensures DoneUpTo(k, k', order, i + 1) && Advances(k, k')
  {
  }

  lemma GivenAllDone(k: Books, k': Books, order: seq<string>)
    requires Advances(k, k') && Good(k') && DoneUpTo(k, k', order, |order|) && k.hoisted == map[] && k.given == k.states
    requires forall n | n in k.states :: n in order
    ensures AllDone(k')
  {
    forall n | n in k'.states
      ensures k'.states[n] in k'.done
    {
      if n in k'.given {
        var i :| 0 <= i < |order| && order[i] == n;
      }
    }
  }

  /** Once every entry is settled, everything it targets inline has its name. */
  lemma DoneIsHoisted(k: Books, c: Chain, n: string, tag: string)
    requires Good(k) && AllDone(k) && TargetOf(k, n, Inline(c), tag)
    ensures c in k.hoisted
  {
    hide Good, Traced;
    var d := k.states[n];
    TableChain(k, n);
    DoneSettled(k, d);
    ChainOfBooks(k, d);
    if k.before[d].tail == Some(Inline(c)) {
      assert Stands(Inline(c), k.now[d].tail.value, k.hoisted);
    } else {
      var i :| 0 <= i < |k.before[d].arms| && k.before[d].arms[i] == Inline(c);
      assert Stands(k.before[d].arms[i], k.now[d].arms[i], k.hoisted);
    }
  }

  lemma DoneNeverClashes(k: Books)
    requires Good(k) && AllDone(k)
    ensures !Clashes(k)
  {
    hide Good, AllDone, TargetOf, Reached;
    forall c, n, tag | c in k.all && TargetOf(k, n, Inline(c), tag)
      ensures c in k.hoisted
    {
      DoneIsHoisted(k, c, n, tag);
    }
  }

  // ---- What the pass leaves ----

  /** No inline state and no method reference is left; generated names are one per hoisted
      chain, injective, and distinct from the names given. */
  lemma NothingInlineLeft(k: Books)
    requires Good(k) && AllDone(k)
    ensures forall n | n in k.states :: k.states[n] in k.now && ShapeSettled(k.now[k.states[n]])
    ensures forall c, d | c in k.hoisted && d in k.hoisted && k.hoisted[c] == k.hoisted[d] :: c == d
    ensures forall c | c in k.hoisted :: k.hoisted[c] !in k.given && k.hoisted[c] in k.states && k.states[k.hoisted[c]] == c
    ensures k.states.Keys == k.given.Keys + k.hoisted.Values
  {
    forall n | n in k.states
      ensures n in k.given.Keys + k.hoisted.Values
    {
      if n !in k.given {
        assert k.hoisted[k.states[n]] == n;
      }
    }
  }

  /** Where a target leads, names being looked up in the final table. */
  datatype Dest = At(c: Chain) | Ends(outcome: nat) | Dangling

  function Denote(g: Goal, states: Table): Dest {
    match g
    case Named(n) => if n in states then At(states[n]) else Dangling
    case MethodRef(n) => if n in states then At(states[n]) else Dangling
    case Final(o) => Ends(o)
    case Inline(c) => At(c)
  }

  /** A state picks an arm by number, or its tail by any number past the arms. */
  type Choice = nat

  function Leads(s: Shape, ch: Choice, states: Table): Dest {
    if ch < |s.arms| then Denote(s.arms[ch], states)
    else if s.tail.Some? then Denote(s.tail.value, states)
    else Dangling
  }

  /** The chains entered from c on under the given choices, and how the run ends. */
  function Walk(shapes: map<Chain, Shape>, states: Table, c: Chain, choices: seq<Choice>): (seq<Chain>, Dest)
    decreases |choices|
  {
    if choices == [] || c !in shapes then ([c], At(c))
    else
      match Leads(shapes[c], choices[0], states)
      case At(d) => var rest := Walk(shapes, states, d, choices[1..]); ([c] + rest.0, rest.1)
      case end => ([c], end)
  }

  /** Before and after the pass every run enters the same states, one for one, and ends the
      same way, so depth counts agree. */
  lemma {:induction false} RunsAgree(k: Books, c: Chain, choices: seq<Choice>)
    requires Good(k) && c in k.all
    ensures Walk(k.before, k.states, c, choices) == Walk(k.now, k.states, c, choices)
    decreases |choices|
  {
    hide Traced, DoneOk;
    if choices != [] {
      assert ChainOk(c, k.before[c], k.now[c], k.hoisted, k.all);
      var d := Leads(k.now[c], choices[0], k.states);
      if d.At? {
        RunsAgree(k, d.c, choices[1..]);
      }
    }
  }

  // ---- Assembly's closedness check ----

  predicate GoalDeclared(g: Goal, states: Table) {
    match g
    case Named(n) => n in states
    case Final(_) => true
    case _ => false
  }

  /** A transition exists and each of its targets is a terminal or a declared name. */
  predicate ShapeDeclared(s: Shape, states: Table) {
    && s.tail.Some? && GoalDeclared(s.tail.value, states)
    && forall i | 0 <= i < |s.arms| :: GoalDeclared(s.arms[i], states)
  }

  /** Assembly._check on the table whose names are order. */
  method Check(states: Table, order: seq<string>, start: string) returns (ok: bool)
    requires (forall n | n in states :: n in order) && (forall i | 0 <= i < |order| :: order[i] in states)
    ensures ok <==> start in states && forall n | n in states :: ShapeDeclared(ShapeOf(states[n]), states)
    ensures ok ==> forall n | n in states :: states[n].tail.Some?
    ensures !ok && start in states ==> exists n :: n in states && (states[n].tail.None? || exists g ::
              (g in states[n].arms || states[n].tail == Some(g)) && !g.Final? && !(g.Named? && g.name in states))
    ensures ok ==> forall n, g | n in states && (g in states[n].arms || states[n].tail == Some(g)) ::
              g.Final? || (g.Named? && g.name in states)
  {
    if start !in states {
      return false;
    }
    for i := 0 to |order|
      invariant forall j | 0 <= j < i :: ShapeDeclared(ShapeOf(states[order[j]]), states)
    {
      if !ShapeDeclared(ShapeOf(states[order[i]]), states) {
        return false;
      }
    }
    forall n | n in states
      ensures ShapeDeclared(ShapeOf(states[n]), states)
    {
      var j :| 0 <= j < |order| && order[j] == n;
    }
    ok := true;
  }

  /** Once the check passes no run from a table entry dangles. */
  lemma {:induction false} CheckedNeverDangles(shapes: map<Chain, Shape>, states: Table, n: string, choices: seq<Choice>)
    requires forall m | m in states :: states[m] in shapes && ShapeDeclared(shapes[states[m]], states)
    requires n in states
    ensures Walk(shapes, states, states[n], choices).1 != Dangling
    decreases |choices|
  {
    if choices != [] {
      var s := shapes[states[n]];
      var d := Leads(s, choices[0], states);
      var g := if choices[0] < |s.arms| then s.arms[choices[0]] else s.tail.value;
      assert GoalDeclared(g, states) && d == Denote(g, states);
      if g.Named? {
        CheckedNeverDangles(shapes, states, g.name, choices[1..]);
      }
    }
  }
}
