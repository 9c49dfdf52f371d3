/** Joining early loses nothing: the analysis reports exactly the union, over all choices of
    branches, of what single runs with strong updates report. */
module TaintPaths {
  import opened TaintModel

  // ----- single runs: the facts known at the end, one set for every choice of branches -----

  ghost function ThenEach(p: set<Facts>, g: Facts -> set<Facts>): set<Facts> {
    set a, b | a in p && b in g(a) :: Then(a, b)
  }

  ghost function Each(p: set<Facts>, step: Step): set<Facts> {
    set a | a in p :: Apply(step, a)
  }

  ghost function Runs(src: Sources, e: Expr, s: Facts): set<Facts>
    decreases e
  {
    match e
    case NameRef(node, name, load) => {State(s) + Values(Exact(src, node)) + if load then Load(s, name) else {}}
    case Call(node, func, args) =>
      Each(ThenEach(Runs(src, func, s), t => RunsList(src, args, ArgumentOf(node), 0, t)),
           Gain(Values(Exact(src, node))))
    case Walrus(name, value) => Each(Runs(src, value, s), Bind({name}))
    case Chain(first, rest) => ThenEach(Runs(src, first, s), t => RunsChain(src, rest, t))
    case Conditional(test, body, orelse) =>
      ThenEach(Runs(src, test, s), t => Runs(src, body, t) + Runs(src, orelse, t))
    case Other(node, children) =>
      Each(RunsList(src, children, Kept, 0, s), Gain(Values(Exact(src, node))))
  }

  ghost function RunsList(src: Sources, es: Exprs, slot: Slot, index: nat, s: Facts): set<Facts>
    decreases es
  {
    match es
    case ENil => {State(s)}
    case ECons(head, tail) =>
      ThenEach(Each(Runs(src, head, s), Report(slot, index)),
               t => RunsList(src, tail, slot, index + 1, t))
  }

  /** A run of and/or or of a comparison may stop before any of the remaining operands. */
  ghost function RunsChain(src: Sources, es: Exprs, s: Facts): set<Facts>
    decreases es
  {
    match es
    case ENil => {State(s)}
    case ECons(head, tail) => {State(s)} + ThenEach(Runs(src, head, s), t => RunsChain(src, tail, t))
  }

  ghost function RunsOf(src: Sources, st: Stmt, s: Facts): set<Facts>
    decreases st
  {
    match st
    case Assign(values, targets) =>
      Each(Each(ThenEach(RunsList(src, values, Kept, 0, s),
                         t => RunsList(src, EvaluatedTargets(targets), Unused, 0, t)),
                Bind(AllTargetNames(targets))), Drop)
    case AugName(name, value) =>
      Each(Each(Each(Runs(src, value, s), Gain(Load(s, name))), Bind({name})), Drop)
    case AugPlace(place, value) =>
      Each(ThenEach(Runs(src, value, s), t => Runs(src, place, t)), Drop)
    case Unbind(names) => {Binding(names, State(s))}
    case If(test, body, orelse) =>
      ThenEach(Each(Runs(src, test, s), Drop),
               t => RunsBlock(src, body, t) + RunsBlock(src, orelse, t))
    case With(items, body) => ThenEach(RunsItems(src, items, s), t => RunsBlock(src, body, t))
    case Evaluate(expr) => Each(Runs(src, expr, s), Drop)
    case Return(values) => Each(RunsList(src, values, Kept, 0, s), Leave)
  }

  ghost function RunsBlock(src: Sources, b: Block, s: Facts): set<Facts>
    decreases b
  {
    match b
    case BNil => {State(s)}
    case BCons(head, tail) => ThenEach(RunsOf(src, head, s), t => RunsBlock(src, tail, t))
  }

  ghost function RunsItems(src: Sources, items: Items, s: Facts): set<Facts>
    decreases items
  {
    match items
    case INil => {State(s)}
    case ICons(expr, targets, tail) =>
      ThenEach(Each(Each(Runs(src, expr, s), Bind(AllTargetNames(targets))), Drop),
               t => RunsItems(src, tail, t))
  }

  /** Every fact that some run ends with. */
  ghost function Union(p: set<Facts>): Facts {
    set a, x | a in p && x in a :: x
  }

  // ----- the analysis is additive in the state -----

  ghost predicate Additive(f: Facts -> Facts) {
    forall s: Facts, t: Facts :: f(s + t) == f(s) + f(t)
  }

  lemma ThenOfTwo(a: Facts, b: Facts, c: Facts, d: Facts)
    ensures Then(a + b, c + d) == Then(a, c) + Then(b, d)
  {}

  lemma Regroup(a: Facts, b: Facts, c: Facts, d: Facts)
    ensures (a + b) + (c + d) == (a + c) + (b + d)
  {}

  lemma ApplyAdditive(step: Step, a: Facts, b: Facts)
    ensures Apply(step, a + b) == Apply(step, a) + Apply(step, b)
  {}

  lemma {:induction false} EvalAdditive(src: Sources, e: Expr, s: Facts, t: Facts)
    ensures Eval(src, e, s + t) == Eval(src, e, s) + Eval(src, e, t)
    decreases e
  {
    match e
    case NameRef(node, name, load) =>
    case Call(node, func, args) =>
      EvalAdditive(src, func, s, t);
      ListAdditive(src, args, ArgumentOf(node), 0, Eval(src, func, s), Eval(src, func, t));
    case Walrus(name, value) => EvalAdditive(src, value, s, t);
    case Chain(first, rest) =>
      EvalAdditive(src, first, s, t);
      ChainAdditive(src, rest, Eval(src, first, s), Eval(src, first, t));
    case Conditional(test, body, orelse) =>
      EvalAdditive(src, test, s, t);
      var a, b := Eval(src, test, s), Eval(src, test, t);
      EvalAdditive(src, body, a, b);
      EvalAdditive(src, orelse, a, b);
      ConditionalAdditive(src, test, body, orelse, s, t);
    case Other(node, children) => ListAdditive(src, children, Kept, 0, s, t);
  }

  /** The arms of a conditional, once its parts are known to be additive. */
  lemma ConditionalAdditive(src: Sources, test: Expr, body: Expr, orelse: Expr, s: Facts, t: Facts)
    requires Eval(src, test, s + t) == Eval(src, test, s) + Eval(src, test, t)
    requires var a, b := Eval(src, test, s), Eval(src, test, t);
             && Eval(src, body, a + b) == Eval(src, body, a) + Eval(src, body, b)
             && Eval(src, orelse, a + b) == Eval(src, orelse, a) + Eval(src, orelse, b)
    ensures var e := Conditional(test, body, orelse); Eval(src, e, s + t) == Eval(src, e, s) + Eval(src, e, t)
  {
    var a, b := Eval(src, test, s), Eval(src, test, t);
    ConditionalIsThen(src, test, body, orelse, s + t);
    ConditionalIsThen(src, test, body, orelse, s);
    ConditionalIsThen(src, test, body, orelse, t);
    ThenOfArms(a, b, Eval(src, body, a), Eval(src, body, b), Eval(src, orelse, a), Eval(src, orelse, b));
  }

  lemma ThenOfArms(a: Facts, b: Facts, p: Facts, q: Facts, r: Facts, u: Facts)
    ensures Then(a + b, (p + q) + (r + u)) == Then(a, p + r) + Then(b, q + u)
  {
    Regroup(p, q, r, u);
    ThenOfTwo(a, b, p + r, q + u);
  }

  lemma {:induction false} ListAdditive(src: Sources, es: Exprs, slot: Slot, index: nat, s: Facts, t: Facts)
    ensures EvalList(src, es, slot, index, s + t)
         == EvalList(src, es, slot, index, s) + EvalList(src, es, slot, index, t)
    decreases es
  {
    match es
    case ENil =>
    case ECons(head, tail) =>
      EvalAdditive(src, head, s, t);
      var a, b := Reporting(slot, index, Eval(src, head, s)), Reporting(slot, index, Eval(src, head, t));
      assert Reporting(slot, index, Eval(src, head, s + t)) == a + b;
      ListAdditive(src, tail, slot, index + 1, a, b);
  }

  lemma {:induction false} ChainAdditive(src: Sources, es: Exprs, s: Facts, t: Facts)
    ensures EvalChain(src, es, s + t) == EvalChain(src, es, s) + EvalChain(src, es, t)
    decreases es
  {
    match es
    case ENil =>
    case ECons(head, tail) =>
      EvalAdditive(src, head, s, t);
      ChainAdditive(src, tail, Eval(src, head, s), Eval(src, head, t));
  }

  lemma AssignAdditive(src: Sources, values: Exprs, targets: Targets, s: Facts, t: Facts)
    ensures Exec(src, Assign(values, targets), s + t)
         == Exec(src, Assign(values, targets), s) + Exec(src, Assign(values, targets), t)
  {
    ListAdditive(src, values, Kept, 0, s, t);
    var a, b := EvalList(src, values, Kept, 0, s), EvalList(src, values, Kept, 0, t);
    ListAdditive(src, EvaluatedTargets(targets), Unused, 0, a, b);
  }

  lemma AugNameAdditive(src: Sources, name: string, value: Expr, s: Facts, t: Facts)
    ensures Exec(src, AugName(name, value), s + t)
         == Exec(src, AugName(name, value), s) + Exec(src, AugName(name, value), t)
  {
    EvalAdditive(src, value, s, t);
    var a, b := Eval(src, value, s) + Load(s, name), Eval(src, value, t) + Load(t, name);
    assert Eval(src, value, s + t) + Load(s + t, name) == a + b;
    ApplyAdditive(Bind({name}), a, b);
    ApplyAdditive(Drop, Binding({name}, a), Binding({name}, b));
  }

  lemma {:induction false} ExecAdditive(src: Sources, st: Stmt, s: Facts, t: Facts)
    ensures Exec(src, st, s + t) == Exec(src, st, s) + Exec(src, st, t)
    decreases st, 1
  {
    match st
    case Assign(values, targets) => AssignAdditive(src, values, targets, s, t);
    case AugName(name, value) => AugNameAdditive(src, name, value, s, t);
    case AugPlace(place, value) =>
      EvalAdditive(src, value, s, t);
      var a, b := Eval(src, value, s), Eval(src, value, t);
      EvalAdditive(src, place, a, b);
      ThenOfTwo(a, b, Eval(src, place, a), Eval(src, place, b));
    case Unbind(names) =>
    case If(test, body, orelse) => IfAdditive(src, test, body, orelse, s, t);
    case With(items, body) =>
      ItemsAdditive(src, items, s, t);
      var a, b := ExecItems(src, items, s), ExecItems(src, items, t);
      BlockAdditive(src, body, a, b);
      ThenOfTwo(a, b, ExecBlock(src, body, a), ExecBlock(src, body, b));
    case Evaluate(expr) => EvalAdditive(src, expr, s, t);
    case Return(values) =>
      ListAdditive(src, values, Kept, 0, s, t);
      ApplyAdditive(Leave, EvalList(src, values, Kept, 0, s), EvalList(src, values, Kept, 0, t));
  }

  lemma {:induction false} IfAdditive(src: Sources, test: Expr, body: Block, orelse: Block, s: Facts, t: Facts)
    ensures Exec(src, If(test, body, orelse), s + t)
         == Exec(src, If(test, body, orelse), s) + Exec(src, If(test, body, orelse), t)
    decreases If(test, body, orelse), 0
  {
    EvalAdditive(src, test, s, t);
    ApplyAdditive(Drop, Eval(src, test, s), Eval(src, test, t));
    var a, b := Dropping(Eval(src, test, s)), Dropping(Eval(src, test, t));
    BlockAdditive(src, body, a, b);
    BlockAdditive(src, orelse, a, b);
    var c, d := ExecBlock(src, body, a) + ExecBlock(src, orelse, a),
                ExecBlock(src, body, b) + ExecBlock(src, orelse, b);
    assert ExecBlock(src, body, a + b) + ExecBlock(src, orelse, a + b) == c + d;
    ThenOfTwo(a, b, c, d);
  }

  lemma {:induction false} BlockAdditive(src: Sources, b: Block, s: Facts, t: Facts)
    ensures ExecBlock(src, b, s + t) == ExecBlock(src, b, s) + ExecBlock(src, b, t)
    decreases b
  {
    match b
    case BNil =>
    case BCons(head, tail) =>
      ExecAdditive(src, head, s, t);
      BlockAdditive(src, tail, Exec(src, head, s), Exec(src, head, t));
  }

  lemma {:induction false} ItemsAdditive(src: Sources, items: Items, s: Facts, t: Facts)
    ensures ExecItems(src, items, s + t) == ExecItems(src, items, s) + ExecItems(src, items, t)
    decreases items
  {
    match items
    case INil =>
    case ICons(expr, targets, tail) =>
      EvalAdditive(src, expr, s, t);
      var names := AllTargetNames(targets);
      var a, b := Dropping(Binding(names, Eval(src, expr, s))), Dropping(Binding(names, Eval(src, expr, t)));
      assert Dropping(Binding(names, Eval(src, expr, s + t))) == a + b;
      ItemsAdditive(src, tail, a, b);
  }

  // ----- unions of runs -----

  lemma ThenOneUnion(a: Facts, g: Facts -> set<Facts>)
    requires g(a) != {}
    ensures Union(ThenEach({a}, g)) == Then(a, Union(g(a)))
  {
    var b :| b in g(a);
    assert Then(a, b) in ThenEach({a}, g);
    forall x | x in Union(g(a)) ensures x in Union(ThenEach({a}, g)) {
      var c :| c in g(a) && x in c;
      assert Then(a, c) in ThenEach({a}, g);
    }
  }

  lemma ThenEachOfTwo(p: set<Facts>, q: set<Facts>, g: Facts -> set<Facts>)
    ensures ThenEach(p + q, g) == ThenEach(p, g) + ThenEach(q, g)
  {}

  lemma UnionOfTwo(p: set<Facts>, q: set<Facts>)
    ensures Union(p + q) == Union(p) + Union(q)
  {}

  /** Running a continuation after each run, then joining, is joining first: needs additivity. */
  lemma {:induction false} ThenEachUnion(p: set<Facts>, f: Facts -> Facts, g: Facts -> set<Facts>)
    requires p != {} && Additive(f)
    requires forall t :: g(t) != {} && f(t) == Union(g(t))
    ensures ThenEach(p, g) != {}
    ensures Union(ThenEach(p, g)) == Then(Union(p), f(Union(p)))
    decreases |p|
  {
    var a :| a in p;
    var rest := p - {a};
    assert g(a) != {};
    var b :| b in g(a);
    assert Then(a, b) in ThenEach(p, g);
    assert Union({a}) == a;
    ThenOneUnion(a, g);
    if rest == {} {
      assert p == {a};
    } else {
      ThenEachUnion(rest, f, g);
      assert p == {a} + rest;
      ThenEachOfTwo({a}, rest, g);
      UnionOfTwo({a}, rest);
      UnionOfTwo(ThenEach({a}, g), ThenEach(rest, g));
      var r := Union(rest);
      assert f(a + r) == f(a) + f(r);
      ThenOfTwo(a, r, f(a), f(r));
    }
  }

  lemma EachOfTwo(p: set<Facts>, q: set<Facts>, step: Step)
    ensures Each(p + q, step) == Each(p, step) + Each(q, step)
  {}

  lemma EachOne(a: Facts, step: Step)
    ensures Each({a}, step) == {Apply(step, a)} && Union(Each({a}, step)) == Apply(step, Union({a}))
  {
    assert Union({a}) == a && Union({Apply(step, a)}) == Apply(step, a);
  }

  lemma {:induction false} EachUnion(p: set<Facts>, step: Step)
    requires p != {}
    ensures Each(p, step) != {}
    ensures Union(Each(p, step)) == Apply(step, Union(p))
    decreases |p|
  {
    var a :| a in p;
    var rest := p - {a};
    assert p == {a} + rest;
    EachOne(a, step);
    EachOfTwo({a}, rest, step);
    if rest == {} {
      assert p == {a};
    } else {
      EachUnion(rest, step);
      UnionOfTwo({a}, rest);
      UnionOfTwo(Each({a}, step), Each(rest, step));
      ApplyAdditive(step, Union({a}), Union(rest));
    }
  }

  // ----- the theorem, by induction on the program -----

  lemma {:induction false} EvalIsUnion(src: Sources, e: Expr, s: Facts)
    ensures Runs(src, e, s) != {} && Union(Runs(src, e, s)) == Eval(src, e, s)
    decreases e, 2
  {
    match e
    case NameRef(node, name, load) =>
    case Call(node, func, args) =>
      EvalIsUnion(src, func, s);
      ThenList(src, Runs(src, func, s), args, ArgumentOf(node), 0);
      EachUnion(ThenEach(Runs(src, func, s), t => RunsList(src, args, ArgumentOf(node), 0, t)),
                Gain(Values(Exact(src, node))));
    case Walrus(name, value) =>
      EvalIsUnion(src, value, s);
      EachUnion(Runs(src, value, s), Bind({name}));
    case Chain(first, rest) =>
      EvalIsUnion(src, first, s);
      ThenChain(src, Runs(src, first, s), rest);
    case Conditional(test, body, orelse) =>
      EvalIsUnion(src, test, s);
      ThenArms(src, Runs(src, test, s), test, body, orelse);
    case Other(node, children) =>
      ListIsUnion(src, children, Kept, 0, s);
      EachUnion(RunsList(src, children, Kept, 0, s), Gain(Values(Exact(src, node))));
  }

  lemma {:induction false} ThenArms(src: Sources, p: set<Facts>, test: Expr, body: Expr, orelse: Expr)
    requires p != {}
    ensures ThenEach(p, t => Runs(src, body, t) + Runs(src, orelse, t)) != {}
    ensures Union(ThenEach(p, t => Runs(src, body, t) + Runs(src, orelse, t)))
         == Then(Union(p), Eval(src, body, Union(p)) + Eval(src, orelse, Union(p)))
    decreases Conditional(test, body, orelse), 1
  {
    var f, g := t => Eval(src, body, t) + Eval(src, orelse, t), t => Runs(src, body, t) + Runs(src, orelse, t);
    forall t ensures g(t) != {} && f(t) == Union(g(t)) { ArmsAreUnion(src, test, body, orelse, t); }
    forall t, u ensures f(t + u) == f(t) + f(u) { ArmsAdditive(src, body, orelse, t, u); }
    ThenEachUnion(p, f, g);
  }

  lemma {:induction false} ArmsAreUnion(src: Sources, test: Expr, body: Expr, orelse: Expr, t: Facts)
    ensures Runs(src, body, t) + Runs(src, orelse, t) != {}
    ensures Eval(src, body, t) + Eval(src, orelse, t) == Union(Runs(src, body, t) + Runs(src, orelse, t))
    decreases Conditional(test, body, orelse), 0
  {
    EvalIsUnion(src, body, t);
    EvalIsUnion(src, orelse, t);
    UnionOfTwo(Runs(src, body, t), Runs(src, orelse, t));
  }

  lemma {:induction false} ArmsAdditive(src: Sources, body: Expr, orelse: Expr, t: Facts, u: Facts)
    ensures Eval(src, body, t + u) + Eval(src, orelse, t + u)
         == (Eval(src, body, t) + Eval(src, orelse, t)) + (Eval(src, body, u) + Eval(src, orelse, u))
  {
    EvalAdditive(src, body, t, u);
    EvalAdditive(src, orelse, t, u);
    Regroup(Eval(src, body, t), Eval(src, body, u), Eval(src, orelse, t), Eval(src, orelse, u));
  }

  lemma {:induction false} ListIsUnion(src: Sources, es: Exprs, slot: Slot, index: nat, s: Facts)
    ensures RunsList(src, es, slot, index, s) != {}
    ensures Union(RunsList(src, es, slot, index, s)) == EvalList(src, es, slot, index, s)
    decreases es, 0
  {
    match es
    case ENil =>
    case ECons(head, tail) =>
      EvalIsUnion(src, head, s);
      var heads := Each(Runs(src, head, s), Report(slot, index));
      EachUnion(Runs(src, head, s), Report(slot, index));
      ThenList(src, heads, tail, slot, index + 1);
  }

  lemma {:induction false} ThenList(src: Sources, p: set<Facts>, es: Exprs, slot: Slot, index: nat)
    requires p != {}
    ensures ThenEach(p, t => RunsList(src, es, slot, index, t)) != {}
    ensures Union(ThenEach(p, t => RunsList(src, es, slot, index, t)))
         == Then(Union(p), EvalList(src, es, slot, index, Union(p)))
    decreases es, 1
  {
    forall t ensures RunsList(src, es, slot, index, t) != {}
                  && EvalList(src, es, slot, index, t) == Union(RunsList(src, es, slot, index, t)) {
      ListIsUnion(src, es, slot, index, t);
    }
    forall t, u ensures EvalList(src, es, slot, index, t + u)
                     == EvalList(src, es, slot, index, t) + EvalList(src, es, slot, index, u) {
      ListAdditive(src, es, slot, index, t, u);
    }
    ThenEachUnion(p, t => EvalList(src, es, slot, index, t), t => RunsList(src, es, slot, index, t));
  }

  lemma {:induction false} ChainIsUnion(src: Sources, es: Exprs, s: Facts)
    ensures RunsChain(src, es, s) != {} && Union(RunsChain(src, es, s)) == EvalChain(src, es, s)
    decreases es, 0
  {
    match es
    case ENil =>
    case ECons(head, tail) =>
      EvalIsUnion(src, head, s);
      ThenChain(src, Runs(src, head, s), tail);
      UnionOfTwo({State(s)}, ThenEach(Runs(src, head, s), t => RunsChain(src, tail, t)));
  }

  lemma {:induction false} ThenChain(src: Sources, p: set<Facts>, es: Exprs)
    requires p != {}
    ensures ThenEach(p, t => RunsChain(src, es, t)) != {}
    ensures Union(ThenEach(p, t => RunsChain(src, es, t))) == Then(Union(p), EvalChain(src, es, Union(p)))
    decreases es, 1
  {
    forall t ensures RunsChain(src, es, t) != {} && EvalChain(src, es, t) == Union(RunsChain(src, es, t)) {
      ChainIsUnion(src, es, t);
    }
    forall t, u ensures EvalChain(src, es, t + u) == EvalChain(src, es, t) + EvalChain(src, es, u) {
      ChainAdditive(src, es, t, u);
    }
    ThenEachUnion(p, t => EvalChain(src, es, t), t => RunsChain(src, es, t));
  }

  lemma {:induction false} StmtIsUnion(src: Sources, st: Stmt, s: Facts)
    ensures RunsOf(src, st, s) != {} && Union(RunsOf(src, st, s)) == Exec(src, st, s)
    decreases st, 1
  {
    match st
    case Assign(values, targets) =>
      ListIsUnion(src, values, Kept, 0, s);
      ThenList(src, RunsList(src, values, Kept, 0, s), EvaluatedTargets(targets), Unused, 0);
      var runs := ThenEach(RunsList(src, values, Kept, 0, s),
                           t => RunsList(src, EvaluatedTargets(targets), Unused, 0, t));
      EachUnion(runs, Bind(AllTargetNames(targets)));
      EachUnion(Each(runs, Bind(AllTargetNames(targets))), Drop);
    case AugName(name, value) =>
      EvalIsUnion(src, value, s);
      var runs := Runs(src, value, s);
      EachUnion(runs, Gain(Load(s, name)));
      EachUnion(Each(runs, Gain(Load(s, name))), Bind({name}));
      EachUnion(Each(Each(runs, Gain(Load(s, name))), Bind({name})), Drop);
    case AugPlace(place, value) =>
      EvalIsUnion(src, value, s);
      ThenEval(src, Runs(src, value, s), place);
      EachUnion(ThenEach(Runs(src, value, s), t => Runs(src, place, t)), Drop);
    case Unbind(names) =>
    case If(test, body, orelse) =>
      EvalIsUnion(src, test, s);
      EachUnion(Runs(src, test, s), Drop);
      ThenBranches(src, Each(Runs(src, test, s), Drop), test, body, orelse);
    case With(items, body) =>
      ItemsIsUnion(src, items, s);
      ThenBlock(src, RunsItems(src, items, s), body);
    case Evaluate(expr) =>
      EvalIsUnion(src, expr, s);
      EachUnion(Runs(src, expr, s), Drop);
    case Return(values) =>
      ListIsUnion(src, values, Kept, 0, s);
      EachUnion(RunsList(src, values, Kept, 0, s), Leave);
  }

  lemma ThenEval(src: Sources, p: set<Facts>, e: Expr)
    requires p != {}
    ensures ThenEach(p, t => Runs(src, e, t)) != {}
    ensures Union(ThenEach(p, t => Runs(src, e, t))) == Then(Union(p), Eval(src, e, Union(p)))
  {
    forall t ensures Runs(src, e, t) != {} && Eval(src, e, t) == Union(Runs(src, e, t)) { EvalIsUnion(src, e, t); }
    forall t, u ensures Eval(src, e, t + u) == Eval(src, e, t) + Eval(src, e, u) { EvalAdditive(src, e, t, u); }
    ThenEachUnion(p, t => Eval(src, e, t), t => Runs(src, e, t));
  }

  lemma {:induction false} ThenBranches(src: Sources, p: set<Facts>, test: Expr, body: Block, orelse: Block)
    requires p != {}
    ensures ThenEach(p, t => RunsBlock(src, body, t) + RunsBlock(src, orelse, t)) != {}
    ensures Union(ThenEach(p, t => RunsBlock(src, body, t) + RunsBlock(src, orelse, t)))
         == Then(Union(p), ExecBlock(src, body, Union(p)) + ExecBlock(src, orelse, Union(p)))
    decreases If(test, body, orelse), 0
  {
    var f, g := t => ExecBlock(src, body, t) + ExecBlock(src, orelse, t),
                t => RunsBlock(src, body, t) + RunsBlock(src, orelse, t);
    forall t ensures g(t) != {} && f(t) == Union(g(t)) {
      BlockIsUnion(src, body, t);
      BlockIsUnion(src, orelse, t);
      UnionOfTwo(RunsBlock(src, body, t), RunsBlock(src, orelse, t));
    }
    forall t, u ensures f(t + u) == f(t) + f(u) {
      BlockAdditive(src, body, t, u);
      BlockAdditive(src, orelse, t, u);
      Regroup(ExecBlock(src, body, t), ExecBlock(src, body, u), ExecBlock(src, orelse, t), ExecBlock(src, orelse, u));
    }
    ThenEachUnion(p, f, g);
  }

  lemma {:induction false} BlockIsUnion(src: Sources, b: Block, s: Facts)
    ensures RunsBlock(src, b, s) != {} && Union(RunsBlock(src, b, s)) == ExecBlock(src, b, s)
    decreases b, 2
  {
    match b
    case BNil =>
    case BCons(head, tail) =>
      StmtIsUnion(src, head, s);
      ThenBlock(src, RunsOf(src, head, s), tail);
  }

  lemma {:induction false} ThenBlock(src: Sources, p: set<Facts>, b: Block)
    requires p != {}
    ensures ThenEach(p, t => RunsBlock(src, b, t)) != {}
    ensures Union(ThenEach(p, t => RunsBlock(src, b, t))) == Then(Union(p), ExecBlock(src, b, Union(p)))
    decreases b, 3
  {
    forall t ensures RunsBlock(src, b, t) != {} && ExecBlock(src, b, t) == Union(RunsBlock(src, b, t)) {
      BlockIsUnion(src, b, t);
    }
    forall t, u ensures ExecBlock(src, b, t + u) == ExecBlock(src, b, t) + ExecBlock(src, b, u) {
      BlockAdditive(src, b, t, u);
    }
    ThenEachUnion(p, t => ExecBlock(src, b, t), t => RunsBlock(src, b, t));
  }

  lemma {:induction false} ItemsIsUnion(src: Sources, items: Items, s: Facts)
    ensures RunsItems(src, items, s) != {} && Union(RunsItems(src, items, s)) == ExecItems(src, items, s)
    decreases items, 0
  {
    match items
    case INil =>
    case ICons(expr, targets, tail) =>
      EvalIsUnion(src, expr, s);
      var names := AllTargetNames(targets);
      var bound := Each(Runs(src, expr, s), Bind(names));
      EachUnion(Runs(src, expr, s), Bind(names));
      EachUnion(bound, Drop);
      var heads := Each(bound, Drop);
      ThenItems(src, heads, tail);
  }

  lemma {:induction false} ThenItems(src: Sources, p: set<Facts>, items: Items)
    requires p != {}
    ensures ThenEach(p, t => RunsItems(src, items, t)) != {}
    ensures Union(ThenEach(p, t => RunsItems(src, items, t))) == Then(Union(p), ExecItems(src, items, Union(p)))
    decreases items, 1
  {
    forall t ensures RunsItems(src, items, t) != {} && ExecItems(src, items, t) == Union(RunsItems(src, items, t)) {
      ItemsIsUnion(src, items, t);
    }
    forall t, u ensures ExecItems(src, items, t + u) == ExecItems(src, items, t) + ExecItems(src, items, u) {
      ItemsAdditive(src, items, t, u);
    }
    ThenEachUnion(p, t => ExecItems(src, items, t), t => RunsItems(src, items, t));
  }

  /** For every scope body: a name has an origin at the end, an argument of a call or a returned
      value has an origin, exactly when that is so in some run. */
  lemma AnalysisIsUnionOfRuns(src: Sources, body: Block, initial: Facts, fact: Fact)
    ensures fact in ExecBlock(src, body, initial) <==> exists run :: run in RunsBlock(src, body, initial) && fact in run
  {
    BlockIsUnion(src, body, initial);
  }
}
