/** The intermediate representation of a bounded parser.

    Names (states, header instances, fields, metadata) are only ever compared for
    equality, so a number stands for each; states are numbered by position, as the
    generated code's PK_S_ constants number them. */
module Ir {
  import opened Bits

  datatype List<+T> = Nil | Cons(head: T, tail: List<T>)

  predicate Member<T(==)>(x: T, l: List<T>) {
    match l
    case Nil => false
    case Cons(y, rest) => x == y || Member(x, rest)
  }

  type Name = nat

  datatype FieldRef = FieldRef(inst: Name, field: Name)

  datatype BinOp = Add | Sub | Mul | Shl | Shr | And | Or

  datatype Expr =
    | Const(v: u64)
    | Field(ref: FieldRef)
    | Meta(meta: Name)
    | Remaining
    | Bin(op: BinOp, lhs: Expr, rhs: Expr)

  /** A fixed width in bits, or a length computed in bits. */
  datatype Width = Fixed(bits: nat) | BitLen(len: Expr)

  datatype FieldDecl = FieldDecl(name: Name, width: Width)

  predicate HasField(fs: List<FieldDecl>, f: Name) {
    match fs
    case Nil => false
    case Cons(d, rest) => d.name == f || HasField(rest, f)
  }

  predicate HasFixed(fs: List<FieldDecl>, f: Name) {
    match fs
    case Nil => false
    case Cons(d, rest) => (d.name == f && d.width.Fixed?) || HasFixed(rest, f)
  }

  predicate DistinctNames(fs: List<FieldDecl>) {
    match fs
    case Nil => true
    case Cons(d, rest) => !HasField(rest, d.name) && DistinctNames(rest)
  }

  datatype Extract = Extract(inst: Name, fields: List<FieldDecl>, lookahead: bool)

  datatype Assign = Assign(target: Name, value: Expr)

  datatype RegionOp = Push(len: Expr) | Pop

  datatype Entry = Value(v: nat) | Masked(value: nat, mask: nat) | Range(lo: nat, hi: nat)

  datatype Reason =
    | OutOfBounds
    | MaxDepthExceeded
    | NoMatchingArm
    | OutOfRegionBounds
    | RegionOutOfBounds
    | RegionNotExhausted
    | Authored(code: nat)

  datatype Target = ToState(state: Name) | ToAccept | ToReject(code: nat)

  datatype Option<+T> = None | Some(value: T)

  datatype Arm = Arm(entries: List<Entry>, next: Target)

  datatype Transition =
    | Direct(next: Target)
    | Select(keys: List<Expr>, arms: List<Arm>, default: Option<Target>)

  datatype State = State(extracts: List<Extract>, assigns: List<Assign>, ops: List<RegionOp>, transition: Transition)

  /** A declared metadata register: its width and initial value. */
  datatype MetaDecl = MetaDecl(bits: nat, init: u64)

  datatype Program = Program(states: seq<State>, start: Name, metadata: seq<MetaDecl>, maxDepth: nat)

  /** The targets of a transition in declared order, the default last. */
  function TargetList(tr: Transition): List<Target> {
    match tr
    case Direct(next) => Cons(next, Nil)
    case Select(_, arms, d) => ArmTargets(arms, if d.Some? then Cons(d.value, Nil) else Nil)
  }

  function ArmTargets(arms: List<Arm>, rest: List<Target>): List<Target>
    decreases arms
  {
    match arms
    case Nil => rest
    case Cons(a, more) => Cons(a.next, ArmTargets(more, rest))
  }

  /** There is a transition edge from state q to state r. */
  predicate Edge(p: Program, q: Name, r: Name) {
    q < |p.states| && Member(ToState(r), TargetList(p.states[q].transition))
  }

  /** Every transition target, and the start, is a declared state. */
  ghost predicate Closed(p: Program) {
    && p.start < |p.states|
    && forall q: Name, r: Name | Edge(p, q, r) :: r < |p.states|
  }
}
