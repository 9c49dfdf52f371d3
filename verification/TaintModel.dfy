/** The part of a Python module the ordered taint analysis looks at, and what the analysis
    computes for it.

    A taint state maps names to sets of origins.  The analyzer keeps it as a dictionary that
    never holds an empty set; here it is the same thing seen as a relation, so that joining
    two states is the union of two sets. */
module TaintModel {

  type NodeId = nat

  /** Where tainted data comes from: a credential read, or (in helper summaries) a parameter. */
  datatype Origin = Credential(id: nat) | Parameter(name: string)

  datatype Expr =
    | NameRef(node: NodeId, name: string, load: bool)
    | Call(node: NodeId, func: Expr, args: Exprs)          // positional arguments, then keyword values
    | Walrus(name: string, value: Expr)
    | Chain(first: Expr, rest: Exprs)                      // and/or operands; comparison operands
    | Conditional(test: Expr, body: Expr, orelse: Expr)
    | Other(node: NodeId, children: Exprs)                 // any other node; a lambda has no children here

  datatype Exprs = ENil | ECons(head: Expr, tail: Exprs)

  datatype Target = TName(name: string) | TTuple(elts: Targets) | TOther(expr: Expr)

  datatype Targets = TNil | TCons(head: Target, tail: Targets)

  datatype Stmt =
    | Assign(values: Exprs, targets: Targets)              // an annotation without a value has no values
    | AugName(name: string, value: Expr)                   // name += value
    | AugPlace(place: Expr, value: Expr)                   // attribute or subscript += value
    | Unbind(names: set<string>)                           // import, del, nested def or class
    | If(test: Expr, body: Block, orelse: Block)
    | With(items: Items, body: Block)
    | Evaluate(expr: Expr)
    | Return(values: Exprs)                                // at most one expression

  datatype Block = BNil | BCons(head: Stmt, tail: Block)

  datatype Items = INil | ICons(expr: Expr, targets: Targets, tail: Items)

  /** Where an origin can show up: in the value at hand, under a name, in an evaluated argument of a
      call, in a returned value. */
  datatype Place = Value | Name(name: string) | Argument(call: NodeId, index: nat) | Returned

  /** What the analysis knows at a point is a set of facts: this place has this origin. */
  datatype Fact = Fact(place: Place, origin: Origin)

  type Facts = set<Fact>

  /** What becomes of the value of an expression in a list: part of the value of the list, also an
      argument of a call, or nothing. */
  datatype Slot = Kept | ArgumentOf(call: NodeId) | Unused

  /** Names and their origins, as the analyzer's dictionary has them. */
  type Names = map<string, set<Origin>>

  /** Credential reads found at each node of the scope. */
  type Sources = map<NodeId, set<Origin>>

  function Exact(src: Sources, node: NodeId): set<Origin> {
    if node in src then src[node] else {}
  }

  function TargetNames(t: Target): set<string> {
    match t
    case TName(name) => {name}
    case TTuple(elts) => AllTargetNames(elts)
    case TOther(_) => {}
  }

  function AllTargetNames(ts: Targets): set<string> {
    match ts
    case TNil => {}
    case TCons(head, tail) => TargetNames(head) + AllTargetNames(tail)
  }

  /** The targets that are neither names nor tuples; only those are evaluated as expressions. */
  function EvaluatedTargets(ts: Targets): Exprs {
    match ts
    case TNil => ENil
    case TCons(head, tail) =>
      if head.TOther? then ECons(head.expr, EvaluatedTargets(tail)) else EvaluatedTargets(tail)
  }

  // ----- steps on facts -----

  /** The taint state: which name has which origins. */
  function State(k: Facts): Facts { set f | f in k && f.place.Name? }

  /** The value a name has in a state. */
  function Load(k: Facts, name: string): Facts {
    set f | f in k && f.place == Name(name) :: Fact(Value, f.origin)
  }

  function Values(origins: set<Origin>): Facts { set o | o in origins :: Fact(Value, o) }

  /** First a, then b: everything a knew except its state, which b replaces. */
  function Then(a: Facts, b: Facts): Facts { (set f | f in a && !f.place.Name?) + b }

  /** Forget the value at hand. */
  function Dropping(k: Facts): Facts { set f | f in k && f.place != Value }

  /** Strong update: each name gets exactly the value at hand, none when it has no origin. */
  function Binding(names: set<string>, k: Facts): Facts {
    (set f | f in k && !(f.place.Name? && f.place.name in names))
    + (set n, f | n in names && f in k && f.place == Value :: Fact(Name(n), f.origin))
  }

  function Reporting(slot: Slot, index: nat, k: Facts): Facts {
    match slot
    case Kept => k
    case Unused => Dropping(k)
    case ArgumentOf(call) => k + set f | f in k && f.place == Value :: Fact(Argument(call, index), f.origin)
  }

  function Returning(k: Facts): Facts {
    Dropping(k) + set f | f in k && f.place == Value :: Fact(Returned, f.origin)
  }

  /** The steps above that look at one set of facts only. */
  datatype Step =
    | Drop
    | Gain(extra: Facts)
    | Bind(names: set<string>)
    | Report(slot: Slot, index: nat)
    | Leave

  function Apply(step: Step, k: Facts): Facts {
    match step
    case Drop => Dropping(k)
    case Gain(extra) => k + extra
    case Bind(names) => Binding(names, k)
    case Report(slot, index) => Reporting(slot, index, k)
    case Leave => Returning(k)
  }

  // ----- the analysis: branches are joined as soon as they meet -----

  function Eval(src: Sources, e: Expr, s: Facts): Facts
    decreases e
  {
    match e
    case NameRef(node, name, load) => State(s) + Values(Exact(src, node)) + if load then Load(s, name) else {}
    case Call(node, func, args) =>
      var f := Eval(src, func, s);
      Then(f, EvalList(src, args, ArgumentOf(node), 0, f)) + Values(Exact(src, node))
    case Walrus(name, value) => Binding({name}, Eval(src, value, s))
    case Chain(first, rest) =>
      var f := Eval(src, first, s);
      Then(f, EvalChain(src, rest, f))
    case Conditional(test, body, orelse) =>
      var t := Eval(src, test, s);
      Then(t, Eval(src, body, t) + Eval(src, orelse, t))
    case Other(node, children) => EvalList(src, children, Kept, 0, s) + Values(Exact(src, node))
  }

  lemma ConditionalIsThen(src: Sources, test: Expr, body: Expr, orelse: Expr, s: Facts)
    ensures var k := Eval(src, test, s);
            Eval(src, Conditional(test, body, orelse), s) == Then(k, Eval(src, body, k) + Eval(src, orelse, k))
  {}

  function EvalList(src: Sources, es: Exprs, slot: Slot, index: nat, s: Facts): Facts
    decreases es
  {
    match es
    case ENil => State(s)
    case ECons(head, tail) =>
      var h := Reporting(slot, index, Eval(src, head, s));
      Then(h, EvalList(src, tail, slot, index + 1, h))
  }

  /** Evaluation may stop before each operand: the states after every operand are joined. */
  function EvalChain(src: Sources, es: Exprs, s: Facts): Facts
    decreases es
  {
    match es
    case ENil => State(s)
    case ECons(head, tail) =>
      var h := Eval(src, head, s);
      State(s) + Then(h, EvalChain(src, tail, h))
  }

  function Exec(src: Sources, st: Stmt, s: Facts): Facts
    decreases st
  {
    match st
    case Assign(values, targets) =>
      var v := EvalList(src, values, Kept, 0, s);
      var t := EvalList(src, EvaluatedTargets(targets), Unused, 0, v);
      Dropping(Binding(AllTargetNames(targets), Then(v, t)))
    case AugName(name, value) =>
      Dropping(Binding({name}, Eval(src, value, s) + Load(s, name)))
    case AugPlace(place, value) =>
      var v := Eval(src, value, s);
      Dropping(Then(v, Eval(src, place, v)))
    case Unbind(names) => Binding(names, State(s))
    case If(test, body, orelse) =>
      var t := Dropping(Eval(src, test, s));
      Then(t, ExecBlock(src, body, t) + ExecBlock(src, orelse, t))
    case With(items, body) =>
      var i := ExecItems(src, items, s);
      Then(i, ExecBlock(src, body, i))
    case Evaluate(expr) => Dropping(Eval(src, expr, s))
    case Return(values) => Returning(EvalList(src, values, Kept, 0, s))
  }

  function ExecBlock(src: Sources, b: Block, s: Facts): Facts
    decreases b
  {
    match b
    case BNil => State(s)
    case BCons(head, tail) =>
      var h := Exec(src, head, s);
      Then(h, ExecBlock(src, tail, h))
  }

  function ExecItems(src: Sources, items: Items, s: Facts): Facts
    decreases items
  {
    match items
    case INil => State(s)
    case ICons(expr, targets, tail) =>
      var h := Dropping(Binding(AllTargetNames(targets), Eval(src, expr, s)));
      Then(h, ExecItems(src, tail, h))
  }
}
