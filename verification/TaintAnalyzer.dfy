/** The analyzer as an object that updates its own dictionaries while it walks a scope, proved to
    compute what TaintModel says. */
module TaintAnalyzer {
  import opened TaintModel

  // ----- the dictionaries seen as facts -----

  ghost predicate NamesOnly(k: Facts) { forall f :: f in k ==> f.place.Name? }

  ghost predicate NoNames(k: Facts) { forall f :: f in k ==> !f.place.Name? }

  ghost predicate ReportsOnly(k: Facts) { forall f :: f in k ==> f.place.Argument? || f.place.Returned? }

  ghost function View(names: Names): (k: Facts)
    ensures NamesOnly(k)
  {
    set n, o | n in names && o in names[n] :: Fact(Name(n), o)
  }

  ghost function ArgumentFacts(call: NodeId, index: nat, list: seq<set<Origin>>): Facts {
    set i, o | 0 <= i < |list| && o in list[i] :: Fact(Argument(call, index + i), o)
  }

  ghost function ReturnFacts(origins: set<Origin>): (k: Facts)
    ensures ReportsOnly(k)
  {
    set o | o in origins :: Fact(Returned, o)
  }

  ghost function Recorded(calls: map<NodeId, seq<set<Origin>>>, returned: seq<set<Origin>>): (k: Facts)
    ensures ReportsOnly(k)
  {
    (set c, i, o | c in calls && 0 <= i < |calls[c]| && o in calls[c][i] :: Fact(Argument(c, i), o))
    + (set i, o | 0 <= i < |returned| && o in returned[i] :: Fact(Returned, o))
  }

  function All(list: seq<set<Origin>>): set<Origin> {
    set i, o | 0 <= i < |list| && o in list[i] :: o
  }

  /** What the evaluated values of a list stand for. */
  ghost function Spent(slot: Slot, index: nat, list: seq<set<Origin>>): Facts {
    match slot
    case Kept => Values(All(list))
    case ArgumentOf(call) => Values(All(list)) + ArgumentFacts(call, index, list)
    case Unused => {}
  }

  // ----- every call node occurs once in a syntax tree -----

  function Calls(e: Expr): set<NodeId> {
    match e
    case NameRef(_, _, _) => {}
    case Call(node, func, args) => {node} + Calls(func) + CallsAll(args)
    case Walrus(_, value) => Calls(value)
    case Chain(first, rest) => Calls(first) + CallsAll(rest)
    case Conditional(test, body, orelse) => Calls(test) + Calls(body) + Calls(orelse)
    case Other(_, children) => CallsAll(children)
  }

  function CallsAll(es: Exprs): set<NodeId> {
    match es
    case ENil => {}
    case ECons(head, tail) => Calls(head) + CallsAll(tail)
  }

  predicate Once(e: Expr) {
    match e
    case NameRef(_, _, _) => true
    case Call(node, func, args) =>
      Once(func) && OnceAll(args) && Calls(func) !! CallsAll(args) && node !in Calls(func) + CallsAll(args)
    case Walrus(_, value) => Once(value)
    case Chain(first, rest) => Once(first) && OnceAll(rest) && Calls(first) !! CallsAll(rest)
    case Conditional(test, body, orelse) =>
      Once(test) && Once(body) && Once(orelse)
      && Calls(test) !! Calls(body) && Calls(test) !! Calls(orelse) && Calls(body) !! Calls(orelse)
    case Other(_, children) => OnceAll(children)
  }

  predicate OnceAll(es: Exprs) {
    match es
    case ENil => true
    case ECons(head, tail) => Once(head) && OnceAll(tail) && Calls(head) !! CallsAll(tail)
  }

  function CallsOf(st: Stmt): set<NodeId> {
    match st
    case Assign(values, targets) => CallsAll(values) + CallsAll(EvaluatedTargets(targets))
    case AugName(_, value) => Calls(value)
    case AugPlace(place, value) => Calls(value) + Calls(place)
    case Unbind(_) => {}
    case If(test, body, orelse) => Calls(test) + CallsIn(body) + CallsIn(orelse)
    case With(items, body) => CallsWith(items) + CallsIn(body)
    case Evaluate(expr) => Calls(expr)
    case Return(values) => CallsAll(values)
  }

  function CallsIn(b: Block): set<NodeId> {
    match b
    case BNil => {}
    case BCons(head, tail) => CallsOf(head) + CallsIn(tail)
  }

  function CallsWith(items: Items): set<NodeId> {
    match items
    case INil => {}
    case ICons(expr, _, tail) => Calls(expr) + CallsWith(tail)
  }

  predicate OnceOf(st: Stmt) {
    match st
    case Assign(values, targets) =>
      var places := EvaluatedTargets(targets);
      OnceAll(values) && OnceAll(places) && CallsAll(values) !! CallsAll(places)
    case AugName(_, value) => Once(value)
    case AugPlace(place, value) => Once(value) && Once(place) && Calls(value) !! Calls(place)
    case Unbind(_) => true
    case If(test, body, orelse) =>
      Once(test) && OnceIn(body) && OnceIn(orelse)
      && Calls(test) !! CallsIn(body) && Calls(test) !! CallsIn(orelse) && CallsIn(body) !! CallsIn(orelse)
    case With(items, body) => OnceWith(items) && OnceIn(body) && CallsWith(items) !! CallsIn(body)
    case Evaluate(expr) => Once(expr)
    case Return(values) => OnceAll(values)
  }

  predicate OnceIn(b: Block) {
    match b
    case BNil => true
    case BCons(head, tail) => OnceOf(head) && OnceIn(tail) && CallsOf(head) !! CallsIn(tail)
  }

  predicate OnceWith(items: Items) {
    match items
    case INil => true
    case ICons(expr, _, tail) => Once(expr) && OnceWith(tail) && Calls(expr) !! CallsWith(tail)
  }

  // ----- only the state part of what is known matters for what follows -----

  lemma {:induction false} EvalState(src: Sources, e: Expr, s: Facts)
    ensures Eval(src, e, State(s)) == Eval(src, e, s)
    decreases e
  {
    assert State(State(s)) == State(s);
    match e
    case NameRef(_, name, _) => assert Load(State(s), name) == Load(s, name);
    case Call(_, func, _) => EvalState(src, func, s);
    case Walrus(_, value) => EvalState(src, value, s);
    case Chain(first, _) => EvalState(src, first, s);
    case Conditional(test, _, _) => EvalState(src, test, s);
    case Other(_, children) => ListState(src, children, Kept, 0, s);
  }

  lemma {:induction false} ListState(src: Sources, es: Exprs, slot: Slot, index: nat, s: Facts)
    ensures EvalList(src, es, slot, index, State(s)) == EvalList(src, es, slot, index, s)
    decreases es
  {
    assert State(State(s)) == State(s);
    match es
    case ENil =>
    case ECons(head, _) => EvalState(src, head, s);
  }

  lemma {:induction false} ChainState(src: Sources, es: Exprs, s: Facts)
    ensures EvalChain(src, es, State(s)) == EvalChain(src, es, s)
  {
    assert State(State(s)) == State(s);
    match es
    case ENil =>
    case ECons(head, _) => EvalState(src, head, s);
  }

  lemma {:induction false} ExecState(src: Sources, st: Stmt, s: Facts)
    ensures Exec(src, st, State(s)) == Exec(src, st, s)
    decreases st
  {
    assert State(State(s)) == State(s);
    match st
    case Assign(values, _) => ListState(src, values, Kept, 0, s);
    case AugName(name, value) =>
      EvalState(src, value, s);
      assert Load(State(s), name) == Load(s, name);
    case AugPlace(_, value) => EvalState(src, value, s);
    case Unbind(_) =>
    case If(test, _, _) => EvalState(src, test, s);
    case With(items, _) => ItemsState(src, items, s);
    case Evaluate(expr) => EvalState(src, expr, s);
    case Return(values) => ListState(src, values, Kept, 0, s);
  }

  lemma {:induction false} BlockState(src: Sources, b: Block, s: Facts)
    ensures ExecBlock(src, b, State(s)) == ExecBlock(src, b, s)
  {
    assert State(State(s)) == State(s);
    match b
    case BNil =>
    case BCons(head, _) => ExecState(src, head, s);
  }

  lemma {:induction false} ItemsState(src: Sources, items: Items, s: Facts)
    ensures ExecItems(src, items, State(s)) == ExecItems(src, items, s)
  {
    assert State(State(s)) == State(s);
    match items
    case INil =>
    case ICons(expr, _, _) => EvalState(src, expr, s);
  }

  // ----- joining dictionaries -----

  method Join(a: Names, b: Names) returns (m: Names)
    ensures View(m) == View(a) + View(b)
  {
    m := map n | n in a.Keys + b.Keys :: (if n in a then a[n] else {}) + (if n in b then b[n] else {});
    forall f | f in View(a) + View(b) ensures f in View(m) {}
  }

  lemma ViewOfAssignment(m: Names, name: string, origins: set<Origin>, n: Names)
    requires n == if origins != {} then m[name := origins] else m - {name}
    ensures View(n) == State(Binding({name}, View(m) + Values(origins)))
  {}

  lemma BindingOneMore(names: set<string>, name: string, k: Facts)
    ensures State(Binding(names + {name}, k))
         == State(Binding({name}, State(Binding(names, k)) + (set f | f in k && f.place == Value)))
  {}

  // ----- adding up what is known -----

  lemma StateNow(r0: Facts, k: Facts, v: Facts, r: Facts, x: Facts)
    requires v + r + x == r0 + k
    requires NamesOnly(v) && NoNames(r) && NoNames(x) && NoNames(r0)
    ensures State(k) == v
  {
    forall f | f in v ensures f in k { assert f in r0 + k; }
    forall f | f in State(k) ensures f in v { assert f in v + r + x; }
  }

  lemma Sequence(r0: Facts, k1: Facts, v1: Facts, r1: Facts, x1: Facts, k2: Facts, v2: Facts, r2: Facts, x2: Facts)
    requires v1 + r1 + x1 == r0 + k1 && v2 + r2 + x2 == r1 + k2
    requires NamesOnly(v1) && NoNames(r1) && NoNames(x1) && NoNames(r0)
    ensures v2 + r2 + (x1 + x2) == r0 + Then(k1, k2)
  {
    forall f | f in r1 + x1 ensures f in r0 + Then(k1, k2) { assert f in r0 + k1; }
    forall f | f in r0 + Then(k1, k2) ensures f in v2 + r2 + (x1 + x2) {
      if f in r0 || (f in k1 && !f.place.Name?) { assert f in v1 + r1 + x1; }
    }
  }

  lemma RecordedMore(calls: map<NodeId, seq<set<Origin>>>, returned: seq<set<Origin>>, call: NodeId,
                     list: seq<set<Origin>>)
    requires call !in calls
    ensures Recorded(calls[call := list], returned) == Recorded(calls, returned) + ArgumentFacts(call, 0, list)
  {
    forall f | f in ArgumentFacts(call, 0, list) ensures f in Recorded(calls[call := list], returned) {}
  }

  lemma SpentMore(slot: Slot, index: nat, origins: set<Origin>, list: seq<set<Origin>>)
    ensures Spent(slot, index, [origins] + list) == Spent(slot, index, [origins]) + Spent(slot, index + 1, list)
  {
    var all := [origins] + list;
    assert All(all) == origins + All(list) by {
      forall o | o in All(list) ensures o in All(all) {
        var i :| 0 <= i < |list| && o in list[i];
        assert all[i + 1] == list[i];
      }
      forall o | o in origins ensures o in All(all) { assert all[0] == origins; }
    }
    assert All([origins]) == origins by { assert [origins][0] == origins; }
    match slot
    case Kept =>
    case Unused =>
    case ArgumentOf(call) =>
      forall f | f in ArgumentFacts(call, index + 1, list) ensures f in ArgumentFacts(call, index, all) {
        var i, o :| 0 <= i < |list| && o in list[i] && f == Fact(Argument(call, index + 1 + i), o);
        assert all[i + 1] == list[i] && f == Fact(Argument(call, index + (i + 1)), o);
      }
      forall f | f in ArgumentFacts(call, index, [origins]) ensures f in ArgumentFacts(call, index, all) {
        assert all[0] == origins;
      }
  }

  lemma NameStep(src: Sources, node: NodeId, name: string, load: bool, names: Names)
    ensures var origins := Exact(src, node) + if load && name in names then names[name] else {};
            View(names) + Values(origins) == Eval(src, NameRef(node, name, load), View(names))
  {
    assert State(View(names)) == View(names);
    assert Load(View(names), name) == Values(if name in names then names[name] else {});
  }

  lemma WalrusStep(name: string, r0: Facts, k: Facts, v: Facts, r: Facts, origins: set<Origin>, v2: Facts)
    requires v + r + Values(origins) == r0 + k
    requires NamesOnly(v) && ReportsOnly(r) && ReportsOnly(r0)
    requires v2 == State(Binding({name}, v + Values(origins)))
    ensures v2 + r + Values(origins) == r0 + Binding({name}, k)
  {
    var x := Values(origins);
    StateNow(r0, k, v, r, x);
    forall f | f in x ensures f in k { assert f in r0 + k; }
    forall f | f in k && f.place == Value ensures f in x { assert f in v + r + x; }
    assert forall f :: f in k && !f.place.Name? ==> f in r0 + k;
    assert forall f :: f in r ==> f in r0 + k;
  }

  lemma CallStep(src: Sources, node: NodeId, func: Expr, args: Exprs, v0: Facts, r0: Facts,
                 v1: Facts, r1: Facts, o1: set<Origin>, v2: Facts, r2: Facts, list: seq<set<Origin>>)
    requires v1 + r1 + Values(o1) == r0 + Eval(src, func, v0)
    requires v2 + r2 + Spent(ArgumentOf(node), 0, list) == r1 + EvalList(src, args, ArgumentOf(node), 0, v1)
    requires NamesOnly(v1) && NoNames(r1) && NoNames(r0)
    ensures v2 + (r2 + ArgumentFacts(node, 0, list)) + Values(o1 + All(list) + Exact(src, node))
         == r0 + Eval(src, Call(node, func, args), v0)
  {
    var k1 := Eval(src, func, v0);
    StateNow(r0, k1, v1, r1, Values(o1));
    ListState(src, args, ArgumentOf(node), 0, k1);
    var k2 := EvalList(src, args, ArgumentOf(node), 0, k1);
    CallIsThen(src, node, func, args, v0);
    SequencedValues(r0, k1, v1, r1, o1, k2, v2, r2 + ArgumentFacts(node, 0, list), All(list));
    ValuesPlus(o1 + All(list), Exact(src, node));
  }

  lemma CallIsThen(src: Sources, node: NodeId, func: Expr, args: Exprs, s: Facts)
    ensures var k := Eval(src, func, s);
            Eval(src, Call(node, func, args), s)
            == Then(k, EvalList(src, args, ArgumentOf(node), 0, k)) + Values(Exact(src, node))
  {}

  lemma ReportStep(slot: Slot, index: nat, r0: Facts, e: Facts, v1: Facts, r1: Facts, origins: set<Origin>)
    requires v1 + r1 + Values(origins) == r0 + e
    requires NamesOnly(v1) && ReportsOnly(r1) && ReportsOnly(r0)
    ensures v1 + r1 + Spent(slot, index, [origins]) == r0 + Reporting(slot, index, e)
    ensures NoNames(Spent(slot, index, [origins]))
  {
    assert All([origins]) == origins by { assert [origins][0] == origins; }
    assert forall f :: f in e && f.place == Value <==> f in Values(origins) by {
      forall f | f in e && f.place == Value ensures f in Values(origins) { assert f in v1 + r1 + Values(origins); }
      forall f | f in Values(origins) ensures f in e { assert f in r0 + e; }
    }
    match slot
    case Kept =>
    case Unused =>
      assert forall f :: f in v1 + r1 ==> f in r0 + e;
      assert forall f :: f in e ==> f in v1 + r1 + Values(origins);
    case ArgumentOf(call) =>
      assert ArgumentFacts(call, index, [origins]) == set o | o in origins :: Fact(Argument(call, index), o) by {
        assert [origins][0] == origins;
      }
  }

  lemma ListStep(src: Sources, head: Expr, tail: Exprs, slot: Slot, index: nat, v0: Facts, r0: Facts,
                 v1: Facts, r1: Facts, origins: set<Origin>, v2: Facts, r2: Facts, list: seq<set<Origin>>)
    requires v1 + r1 + Values(origins) == r0 + Eval(src, head, v0)
    requires v2 + r2 + Spent(slot, index + 1, list) == r1 + EvalList(src, tail, slot, index + 1, v1)
    requires NamesOnly(v1) && ReportsOnly(r1) && ReportsOnly(r0)
    ensures v2 + r2 + Spent(slot, index, [origins] + list) == r0 + EvalList(src, ECons(head, tail), slot, index, v0)
  {
    var h := Reporting(slot, index, Eval(src, head, v0));
    ReportStep(slot, index, r0, Eval(src, head, v0), v1, r1, origins);
    var x1 := Spent(slot, index, [origins]);
    StateNow(r0, h, v1, r1, x1);
    ListState(src, tail, slot, index + 1, h);
    Sequence(r0, h, v1, r1, x1, EvalList(src, tail, slot, index + 1, h), v2, r2, Spent(slot, index + 1, list));
    SpentMore(slot, index, origins, list);
  }

  lemma ValuesPlus(a: set<Origin>, b: set<Origin>)
    ensures Values(a + b) == Values(a) + Values(b)
  {}

  lemma TwoArms(r1: Facts, a: Facts, va: Facts, r2: Facts, xa: Facts, b: Facts, vb: Facts, r3: Facts, xb: Facts)
    requires va + r2 + xa == r1 + a && vb + r3 + xb == r2 + b
    ensures (va + vb) + r3 + (xa + xb) == r1 + (a + b)
  {
    var left, right := (va + vb) + r3 + (xa + xb), r1 + (a + b);
    forall f | f in left ensures f in right {
      if f in va + xa { assert f in r1 + a; } else { assert f in r2 + b; if f in r2 { assert f in r1 + a; } }
    }
    forall f | f in right ensures f in left {
      if f in r1 + a { assert f in va + r2 + xa; if f in r2 { assert f in vb + r3 + xb; } }
      else { assert f in vb + r3 + xb; }
    }
  }

  lemma JoinedArms(r1: Facts, a: Facts, va: Facts, r2: Facts, oa: set<Origin>, b: Facts, vb: Facts, r3: Facts,
                   ob: set<Origin>)
    requires va + r2 + Values(oa) == r1 + a && vb + r3 + Values(ob) == r2 + b
    ensures (va + vb) + r3 + Values(oa + ob) == r1 + (a + b)
  {
    TwoArms(r1, a, va, r2, Values(oa), b, vb, r3, Values(ob));
    ValuesPlus(oa, ob);
  }

  lemma ChainHasState(src: Sources, es: Exprs, s: Facts)
    ensures State(s) <= EvalChain(src, es, s)
  {}

  /** Between two operands: what is known, together with what is still to come, is the total. */
  ghost predicate Halfway(src: Sources, es: Exprs, total: Facts, joined: Facts, r: Facts, origins: set<Origin>,
                          v: Facts)
  {
    NamesOnly(joined) && v <= joined && joined + r + Values(origins) + EvalChain(src, es, v) == total
  }

  lemma HalfwayStart(src: Sources, es: Exprs, r: Facts, v: Facts)
    requires NamesOnly(v)
    ensures Halfway(src, es, r + EvalChain(src, es, v), v, r, {}, v)
  {
    assert State(v) == v;
    ChainHasState(src, es, v);
  }

  lemma HalfwayEnd(src: Sources, total: Facts, joined: Facts, r: Facts, origins: set<Origin>, v: Facts)
    requires Halfway(src, ENil, total, joined, r, origins, v)
    ensures joined + r + Values(origins) == total
  {}

  /** One more operand: it moves from what is still to come to what is known. */
  lemma HalfwayNext(src: Sources, es: Exprs, total: Facts, joined: Facts, r: Facts, o: set<Origin>, v: Facts,
                    v2: Facts, r2: Facts, o2: set<Origin>)
    requires es.ECons? && Halfway(src, es, total, joined, r, o, v)
    requires v2 + r2 + Values(o2) == r + Eval(src, es.head, v)
    requires NamesOnly(v2) && NoNames(r2) && NoNames(r)
    ensures Halfway(src, es.tail, total, joined + v2, r2, o + o2, v2)
  {
    var h := Eval(src, es.head, v);
    StateNow(r, h, v2, r2, Values(o2));
    ChainState(src, es.tail, h);
    var rest := EvalChain(src, es.tail, h);
    ChainHasState(src, es.tail, v2);
    assert State(v2) == v2;
    assert Values(o + o2) == Values(o) + Values(o2);
    var now := (joined + v2) + r2 + Values(o + o2) + rest;
    forall f | f in now ensures f in total {
      if f in r2 + Values(o2) { assert f in r + h; assert f in r || f in Then(h, rest); }
    }
    forall f | f in total ensures f in now {
      if f in r || (f in h && !f.place.Name?) { assert f in v2 + r2 + Values(o2); }
    }
  }

  lemma NextCalls(es: Exprs, keys: set<NodeId>, after: set<NodeId>)
    requires es.ECons? && OnceAll(es) && CallsAll(es) !! keys && after == keys + Calls(es.head)
    ensures OnceAll(es.tail) && CallsAll(es.tail) !! after && after + CallsAll(es.tail) == keys + CallsAll(es)
  {}

  lemma ThenChain(src: Sources, first: Expr, rest: Exprs, v0: Facts, r0: Facts,
                  v1: Facts, r1: Facts, o1: set<Origin>, v2: Facts, r2: Facts, o2: set<Origin>)
    requires v1 + r1 + Values(o1) == r0 + Eval(src, first, v0)
    requires v2 + r2 + Values(o2) == r1 + EvalChain(src, rest, v1)
    requires NamesOnly(v1) && NoNames(r1) && NoNames(r0)
    ensures v2 + r2 + Values(o1 + o2) == r0 + Eval(src, Chain(first, rest), v0)
  {
    var k1 := Eval(src, first, v0);
    StateNow(r0, k1, v1, r1, Values(o1));
    ChainState(src, rest, k1);
    ChainIsThen(src, first, rest, v0);
    SequencedValues(r0, k1, v1, r1, o1, EvalChain(src, rest, k1), v2, r2, o2);
  }

  lemma ChainIsThen(src: Sources, first: Expr, rest: Exprs, s: Facts)
    ensures var k := Eval(src, first, s); Eval(src, Chain(first, rest), s) == Then(k, EvalChain(src, rest, k))
  {}

  lemma ArmsState(src: Sources, body: Expr, orelse: Expr, k: Facts)
    ensures Eval(src, body, State(k)) + Eval(src, orelse, State(k)) == Eval(src, body, k) + Eval(src, orelse, k)
  {
    EvalState(src, body, k);
    EvalState(src, orelse, k);
  }

  lemma ThenArms(src: Sources, test: Expr, body: Expr, orelse: Expr, v0: Facts, r0: Facts,
                 v1: Facts, r1: Facts, o1: set<Origin>, v2: Facts, r2: Facts, o2: set<Origin>)
    requires v1 + r1 + Values(o1) == r0 + Eval(src, test, v0)
    requires v2 + r2 + Values(o2) == r1 + (Eval(src, body, v1) + Eval(src, orelse, v1))
    requires NamesOnly(v1) && NoNames(r1) && NoNames(r0)
    ensures v2 + r2 + Values(o1 + o2) == r0 + Eval(src, Conditional(test, body, orelse), v0)
  {
    var k1 := Eval(src, test, v0);
    StateNow(r0, k1, v1, r1, Values(o1));
    ArmsState(src, body, orelse, k1);
    ConditionalIsThen(src, test, body, orelse, v0);
    SequencedValues(r0, k1, v1, r1, o1, Eval(src, body, k1) + Eval(src, orelse, k1), v2, r2, o2);
  }

  lemma SequencedValues(r0: Facts, k1: Facts, v1: Facts, r1: Facts, o1: set<Origin>,
                        k2: Facts, v2: Facts, r2: Facts, o2: set<Origin>)
    requires v1 + r1 + Values(o1) == r0 + k1 && v2 + r2 + Values(o2) == r1 + k2
    requires NamesOnly(v1) && NoNames(r1) && NoNames(r0)
    ensures v2 + r2 + Values(o1 + o2) == r0 + Then(k1, k2)
  {
    Sequence(r0, k1, v1, r1, Values(o1), k2, v2, r2, Values(o2));
    ValuesPlus(o1, o2);
  }

  // ----- the same for statements, which leave no value -----

  lemma DropStep(r0: Facts, k: Facts, v: Facts, r: Facts, origins: set<Origin>)
    requires v + r + Values(origins) == r0 + k
    requires NamesOnly(v) && ReportsOnly(r) && ReportsOnly(r0)
    ensures v + r == r0 + Dropping(k)
  {
    assert forall f :: f in v + r ==> f in r0 + k;
    forall f | f in r0 + Dropping(k) ensures f in v + r { assert f in v + r + Values(origins); }
  }

  /** Assigning the value that was computed, after dropping it. */
  lemma BindStep(names: set<string>, r0: Facts, k: Facts, v: Facts, r: Facts, origins: set<Origin>, v2: Facts)
    requires v + r + Values(origins) == r0 + k
    requires NamesOnly(v) && ReportsOnly(r) && ReportsOnly(r0)
    requires v2 == State(Binding(names, v + Values(origins)))
    ensures v2 + r == r0 + Dropping(Binding(names, k))
  {
    var x := Values(origins);
    StateNow(r0, k, v, r, x);
    forall f | f in x ensures f in k { assert f in r0 + k; }
    forall f | f in k && f.place == Value ensures f in x { assert f in v + r + x; }
    assert forall f :: f in k && !f.place.Name? ==> f in r0 + k;
    assert forall f :: f in r ==> f in r0 + k;
  }

  /** What is known once the values and then the evaluated targets have been evaluated. */
  function Assigned(src: Sources, values: Exprs, targets: Targets, s: Facts): Facts {
    var v := EvalList(src, values, Kept, 0, s);
    Then(v, EvalList(src, EvaluatedTargets(targets), Unused, 0, v))
  }

  lemma AssignIsBinding(src: Sources, values: Exprs, targets: Targets, s: Facts)
    ensures Exec(src, Assign(values, targets), s)
         == Dropping(Binding(AllTargetNames(targets), Assigned(src, values, targets, s)))
  {}

  lemma PlacesStep(src: Sources, values: Exprs, targets: Targets, v0: Facts, r0: Facts, v1: Facts, r1: Facts,
                   list: seq<set<Origin>>, v2: Facts, r2: Facts)
    requires v1 + r1 + Values(All(list)) == r0 + EvalList(src, values, Kept, 0, v0)
    requires v2 + r2 == r1 + EvalList(src, EvaluatedTargets(targets), Unused, 0, v1)
    requires NamesOnly(v1) && ReportsOnly(r1) && ReportsOnly(r0)
    ensures v2 + r2 + Values(All(list)) == r0 + Assigned(src, values, targets, v0)
  {
    var k1 := EvalList(src, values, Kept, 0, v0);
    StateNow(r0, k1, v1, r1, Values(All(list)));
    ListState(src, EvaluatedTargets(targets), Unused, 0, k1);
    var k2 := EvalList(src, EvaluatedTargets(targets), Unused, 0, k1);
    Sequence(r0, k1, v1, r1, Values(All(list)), k2, v2, r2, {});
  }

  lemma AugPlaceStep(src: Sources, place: Expr, value: Expr, v0: Facts, r0: Facts, v1: Facts, r1: Facts,
                     o1: set<Origin>, v2: Facts, r2: Facts, o2: set<Origin>)
    requires v1 + r1 + Values(o1) == r0 + Eval(src, value, v0)
    requires v2 + r2 + Values(o2) == r1 + Eval(src, place, v1)
    requires NamesOnly(v1) && NamesOnly(v2)
    requires ReportsOnly(r2) && ReportsOnly(r1) && ReportsOnly(r0)
    ensures v2 + r2 == r0 + Exec(src, AugPlace(place, value), v0)
  {
    var k1 := Eval(src, value, v0);
    StateNow(r0, k1, v1, r1, Values(o1));
    EvalState(src, place, k1);
    Sequence(r0, k1, v1, r1, Values(o1), Eval(src, place, k1), v2, r2, Values(o2));
    ValuesPlus(o1, o2);
    DropStep(r0, Then(k1, Eval(src, place, k1)), v2, r2, o1 + o2);
  }

  lemma AugNameStep(src: Sources, name: string, value: Expr, names: Names, r0: Facts, v1: Facts, r1: Facts,
                    o1: set<Origin>, v2: Facts)
    requires v1 + r1 + Values(o1) == r0 + Eval(src, value, View(names))
    requires NamesOnly(v1) && ReportsOnly(r1) && ReportsOnly(r0)
    requires v2 == State(Binding({name}, v1 + Values((if name in names then names[name] else {}) + o1)))
    ensures v2 + r1 == r0 + Exec(src, AugName(name, value), View(names))
  {
    var kept := if name in names then names[name] else {};
    assert Load(View(names), name) == Values(kept);
    assert Values(kept + o1) == Values(o1) + Values(kept);
    BindStep({name}, r0, Eval(src, value, View(names)) + Values(kept), v1, r1, kept + o1, v2);
  }

  lemma IfStep(src: Sources, test: Expr, body: Block, orelse: Block, v0: Facts, r0: Facts, v1: Facts, r1: Facts,
               o1: set<Origin>, v2: Facts, r2: Facts)
    requires v1 + r1 + Values(o1) == r0 + Eval(src, test, v0)
    requires v2 + r2 == r1 + (ExecBlock(src, body, v1) + ExecBlock(src, orelse, v1))
    requires NamesOnly(v1) && ReportsOnly(r1) && ReportsOnly(r0)
    ensures v2 + r2 == r0 + Exec(src, If(test, body, orelse), v0)
  {
    var k1 := Eval(src, test, v0);
    var t := Dropping(k1);
    DropStep(r0, k1, v1, r1, o1);
    StateNow(r0, t, v1, r1, {});
    BlocksState(src, body, orelse, t);
    IfIsThen(src, test, body, orelse, v0);
    Sequence(r0, t, v1, r1, {}, ExecBlock(src, body, t) + ExecBlock(src, orelse, t), v2, r2, {});
  }

  lemma BlocksState(src: Sources, body: Block, orelse: Block, k: Facts)
    ensures ExecBlock(src, body, State(k)) + ExecBlock(src, orelse, State(k))
         == ExecBlock(src, body, k) + ExecBlock(src, orelse, k)
  {
    BlockState(src, body, k);
    BlockState(src, orelse, k);
  }

  lemma IfIsThen(src: Sources, test: Expr, body: Block, orelse: Block, s: Facts)
    ensures var t := Dropping(Eval(src, test, s));
            Exec(src, If(test, body, orelse), s) == Then(t, ExecBlock(src, body, t) + ExecBlock(src, orelse, t))
  {}

  lemma TwoBranches(r1: Facts, a: Facts, va: Facts, r2: Facts, b: Facts, vb: Facts, r3: Facts, v: Facts)
    requires va + r2 == r1 + a && vb + r3 == r2 + b && v == va + vb
    ensures v + r3 == r1 + (a + b)
  {
    TwoArms(r1, a, va, r2, {}, b, vb, r3, {});
  }

  lemma ThenBlock(src: Sources, r0: Facts, k: Facts, v1: Facts, r1: Facts, body: Block, v2: Facts, r2: Facts)
    requires v1 + r1 == r0 + k && v2 + r2 == r1 + ExecBlock(src, body, v1)
    requires NamesOnly(v1) && NoNames(r1) && NoNames(r0)
    ensures v2 + r2 == r0 + Then(k, ExecBlock(src, body, k))
  {
    StateNow(r0, k, v1, r1, {});
    BlockState(src, body, k);
    Sequence(r0, k, v1, r1, {}, ExecBlock(src, body, k), v2, r2, {});
  }

  lemma ThenItems(src: Sources, r0: Facts, k: Facts, v1: Facts, r1: Facts, items: Items, v2: Facts, r2: Facts)
    requires v1 + r1 == r0 + k && v2 + r2 == r1 + ExecItems(src, items, v1)
    requires NamesOnly(v1) && NoNames(r1) && NoNames(r0)
    ensures v2 + r2 == r0 + Then(k, ExecItems(src, items, k))
  {
    StateNow(r0, k, v1, r1, {});
    ItemsState(src, items, k);
    Sequence(r0, k, v1, r1, {}, ExecItems(src, items, k), v2, r2, {});
  }

  lemma ReturnStep(src: Sources, values: Exprs, v0: Facts, r0: Facts, v: Facts, r: Facts, origins: set<Origin>,
                   r2: Facts)
    requires v + r + Values(origins) == r0 + EvalList(src, values, Kept, 0, v0)
    requires NamesOnly(v) && ReportsOnly(r) && ReportsOnly(r0) && r2 == r + ReturnFacts(origins)
    ensures v + r2 == r0 + Exec(src, Return(values), v0)
  {
    var k := EvalList(src, values, Kept, 0, v0);
    DropStep(r0, k, v, r, origins);
    forall f | f in k && f.place == Value ensures f in Values(origins) { assert f in v + r + Values(origins); }
    forall f | f in Values(origins) ensures f in k { assert f in r0 + k; }
  }

  lemma RecordedReturn(calls: map<NodeId, seq<set<Origin>>>, returned: seq<set<Origin>>, origins: set<Origin>)
    ensures Recorded(calls, returned + [origins]) == Recorded(calls, returned) + ReturnFacts(origins)
  {
    var more := returned + [origins];
    forall f | f in Recorded(calls, returned) ensures f in Recorded(calls, more) {
      if f.place.Returned? {
        var i :| 0 <= i < |returned| && f.origin in returned[i];
        assert more[i] == returned[i];
      }
    }
    forall o | o in origins ensures Fact(Returned, o) in Recorded(calls, more) { assert more[|returned|] == origins; }
  }

  class Analyzer {
    const src: Sources
    const network: set<NodeId>
    var state: Names
    var callArguments: map<NodeId, seq<set<Origin>>>
    var sinkOrigins: map<NodeId, set<Origin>>
    var returned: seq<set<Origin>>

    constructor (src: Sources, network: set<NodeId>, initial: Names)
      ensures this.src == src && this.network == network && Valid()
      ensures state == initial && callArguments == map[] && returned == []
    {
      this.src, this.network, state := src, network, initial;
      callArguments, sinkOrigins, returned := map[], map[], [];
    }

    /** A network call has as sink origins whatever any of its arguments had. */
    ghost predicate Valid()
      reads this`callArguments, this`sinkOrigins
    {
      && sinkOrigins.Keys == callArguments.Keys * network
      && forall c :: c in sinkOrigins ==> sinkOrigins[c] == All(callArguments[c])
    }

    ghost function Reports(): (k: Facts)
      reads this`callArguments, this`returned
      ensures ReportsOnly(k)
    {
      Recorded(callArguments, returned)
    }

    method Assign(names: set<string>, origins: set<Origin>)
      modifies this`state
      ensures View(state) == State(Binding(names, View(old(state)) + Values(origins)))
    {
      var pending := names;
      while pending != {}
        invariant pending <= names
        invariant View(state) == State(Binding(names - pending, View(old(state)) + Values(origins)))
        decreases pending
      {
        var name :| name in pending;
        pending := pending - {name};
        ghost var before, k := state, View(old(state)) + Values(origins);
        state := if origins != {} then state[name := origins] else state - {name};
        ViewOfAssignment(before, name, origins, state);
        BindingOneMore(names - pending - {name}, name, k);
        assert (names - pending - {name}) + {name} == names - pending;
      }
      assert names - pending == names;
    }

    method Expression(e: Expr) returns (origins: set<Origin>)
      requires Valid() && Once(e) && Calls(e) !! callArguments.Keys
      modifies this`state, this`callArguments, this`sinkOrigins
      ensures Valid() && callArguments.Keys == old(callArguments.Keys) + Calls(e)
      ensures View(state) + Reports() + Values(origins) == old(Reports()) + Eval(src, e, View(old(state)))
      decreases e, 2
    {
      match e
      case NameRef(node, name, load) => origins := NameExpression(node, name, load);
      case Call(node, func, args) => origins := CallExpression(node, func, args);
      case Walrus(name, value) => origins := WalrusExpression(name, value);
      case Chain(first, rest) => origins := ChainExpression(first, rest);
      case Conditional(test, body, orelse) => origins := ConditionalExpression(test, body, orelse);
      case Other(node, children) => origins := OtherExpression(node, children);
    }

    method NameExpression(node: NodeId, name: string, load: bool) returns (origins: set<Origin>)
      requires var e := NameRef(node, name, load); Valid() && Once(e) && Calls(e) !! callArguments.Keys
      modifies this`state, this`callArguments, this`sinkOrigins
      ensures Valid() && callArguments.Keys == old(callArguments.Keys) + Calls(NameRef(node, name, load))
      ensures View(state) + Reports() + Values(origins)
           == old(Reports()) + Eval(src, NameRef(node, name, load), View(old(state)))
      decreases NameRef(node, name, load), 0
    {
      origins := Exact(src, node);
      if load && name in state { origins := origins + state[name]; }
      NameStep(src, node, name, load, state);
    }

    method WalrusExpression(name: string, value: Expr) returns (origins: set<Origin>)
      requires var e := Walrus(name, value); Valid() && Once(e) && Calls(e) !! callArguments.Keys
      modifies this`state, this`callArguments, this`sinkOrigins
      ensures Valid() && callArguments.Keys == old(callArguments.Keys) + Calls(Walrus(name, value))
      ensures View(state) + Reports() + Values(origins)
           == old(Reports()) + Eval(src, Walrus(name, value), View(old(state)))
      decreases Walrus(name, value), 0
    {
      origins := Expression(value);
      ghost var v, r := View(state), Reports();
      Assign({name}, origins);
      WalrusStep(name, old(Reports()), Eval(src, value, View(old(state))), v, r, origins, View(state));
    }

    method OtherExpression(node: NodeId, children: Exprs) returns (origins: set<Origin>)
      requires var e := Other(node, children); Valid() && Once(e) && Calls(e) !! callArguments.Keys
      modifies this`state, this`callArguments, this`sinkOrigins
      ensures Valid() && callArguments.Keys == old(callArguments.Keys) + Calls(Other(node, children))
      ensures View(state) + Reports() + Values(origins)
           == old(Reports()) + Eval(src, Other(node, children), View(old(state)))
      decreases Other(node, children), 0
    {
      var list := EvaluateAll(children, Kept, 0);
      origins := All(list) + Exact(src, node);
      assert Values(origins) == Values(All(list)) + Values(Exact(src, node));
    }

    method CallExpression(node: NodeId, func: Expr, args: Exprs) returns (origins: set<Origin>)
      requires var e := Call(node, func, args); Valid() && Once(e) && Calls(e) !! callArguments.Keys
      modifies this`state, this`callArguments, this`sinkOrigins
      ensures Valid() && callArguments.Keys == old(callArguments.Keys) + Calls(Call(node, func, args))
      ensures View(state) + Reports() + Values(origins)
           == old(Reports()) + Eval(src, Call(node, func, args), View(old(state)))
      decreases Call(node, func, args), 0
    {
      origins := Expression(func);
      ghost var v1, r1, o1 := View(state), Reports(), origins;
      var list := EvaluateAll(args, ArgumentOf(node), 0);
      ghost var r2 := Reports();
      Record(node, list);
      origins := origins + All(list) + Exact(src, node);
      CallStep(src, node, func, args, View(old(state)), old(Reports()), v1, r1, o1, View(state), r2, list);
    }

    method Record(node: NodeId, list: seq<set<Origin>>)
      requires Valid() && node !in callArguments
      modifies this`callArguments, this`sinkOrigins
      ensures Valid() && callArguments == old(callArguments)[node := list]
      ensures Reports() == old(Reports()) + ArgumentFacts(node, 0, list)
    {
      RecordedMore(callArguments, returned, node, list);
      callArguments := callArguments[node := list];
      if node in network { sinkOrigins := sinkOrigins[node := All(list)]; }
    }

    method ChainExpression(first: Expr, rest: Exprs) returns (origins: set<Origin>)
      requires var e := Chain(first, rest); Valid() && Once(e) && Calls(e) !! callArguments.Keys
      modifies this`state, this`callArguments, this`sinkOrigins
      ensures Valid() && callArguments.Keys == old(callArguments.Keys) + Calls(Chain(first, rest))
      ensures View(state) + Reports() + Values(origins)
           == old(Reports()) + Eval(src, Chain(first, rest), View(old(state)))
      decreases Chain(first, rest), 0
    {
      origins := Expression(first);
      ghost var v1, r1, o1 := View(state), Reports(), origins;
      var more := Operands(rest);
      ThenChain(src, first, rest, View(old(state)), old(Reports()), v1, r1, o1, View(state), Reports(), more);
      origins := origins + more;
    }

    /** The operands after the first, each evaluated from the state after the one before; the states
        after all of them, and the one before them, are joined. */
    method Operands(es: Exprs) returns (origins: set<Origin>)
      requires Valid() && OnceAll(es) && CallsAll(es) !! callArguments.Keys
      modifies this`state, this`callArguments, this`sinkOrigins
      ensures Valid() && callArguments.Keys == old(callArguments.Keys) + CallsAll(es)
      ensures View(state) + Reports() + Values(origins) == old(Reports()) + EvalChain(src, es, View(old(state)))
      decreases es, 3
    {
      var current, operands, joined := state, es, state;
      ghost var total := Reports() + EvalChain(src, es, View(state));
      HalfwayStart(src, es, Reports(), View(state));
      origins := {};
      while operands.ECons?
        invariant Valid() && OnceAll(operands) && CallsAll(operands) !! callArguments.Keys
        invariant callArguments.Keys + CallsAll(operands) == old(callArguments.Keys) + CallsAll(es)
        invariant Halfway(src, operands, total, View(joined), Reports(), origins, View(current))
        invariant operands == es || operands < es
        decreases operands
      {
        ghost var r, keys := Reports(), callArguments.Keys;
        var o, after := RunExpression(operands.head, current);
        NextCalls(operands, keys, callArguments.Keys);
        HalfwayNext(src, operands, total, View(joined), r, origins, View(current), View(after), Reports(), o);
        joined := Join(joined, after);
        current, operands, origins := after, operands.tail, origins + o;
      }
      HalfwayEnd(src, total, View(joined), Reports(), origins, View(current));
      state := joined;
    }

    method ConditionalExpression(test: Expr, body: Expr, orelse: Expr) returns (origins: set<Origin>)
      requires Valid() && Once(Conditional(test, body, orelse))
      requires Calls(test) + (Calls(body) + Calls(orelse)) !! callArguments.Keys
      modifies this`state, this`callArguments, this`sinkOrigins
      ensures Valid()
      ensures callArguments.Keys == old(callArguments.Keys) + (Calls(test) + (Calls(body) + Calls(orelse)))
      ensures View(state) + Reports() + Values(origins)
           == old(Reports()) + Eval(src, Conditional(test, body, orelse), View(old(state)))
      decreases Conditional(test, body, orelse), 1
    {
      origins := Expression(test);
      ghost var v1, r1, o1 := View(state), Reports(), origins;
      var more := Arms(body, orelse, test);
      ThenArms(src, test, body, orelse, View(old(state)), old(Reports()), v1, r1, o1, View(state), Reports(), more);
      origins := origins + more;
    }

    method Arms(body: Expr, orelse: Expr, ghost test: Expr) returns (origins: set<Origin>)
      requires Valid() && Once(body) && Once(orelse) && Calls(body) !! Calls(orelse)
      requires Calls(body) + Calls(orelse) !! callArguments.Keys
      modifies this`state, this`callArguments, this`sinkOrigins
      ensures Valid() && callArguments.Keys == old(callArguments.Keys) + Calls(body) + Calls(orelse)
      ensures View(state) + Reports() + Values(origins)
           == old(Reports()) + (Eval(src, body, View(old(state))) + Eval(src, orelse, View(old(state))))
      decreases Conditional(test, body, orelse), 0
    {
      var entry := state;
      ghost var r1 := Reports();
      var bodyOrigins, bodyState := RunExpression(body, entry);
      ghost var r2 := Reports();
      var elseOrigins, elseState := RunExpression(orelse, entry);
      JoinedArms(r1, Eval(src, body, View(entry)), View(bodyState), r2, bodyOrigins,
                 Eval(src, orelse, View(entry)), View(elseState), Reports(), elseOrigins);
      var joined := Join(bodyState, elseState);
      origins := bodyOrigins + elseOrigins;
      Adopt(joined, View(bodyState) + View(elseState), origins,
            r1 + (Eval(src, body, View(entry)) + Eval(src, orelse, View(entry))));
    }

    /** Take over a state and nothing else. */
    method Adopt(names: Names, ghost view: Facts, ghost origins: set<Origin>, ghost total: Facts)
      requires Valid() && View(names) == view && view + Reports() + Values(origins) == total
      modifies this`state
      ensures Valid() && state == names && View(state) + Reports() + Values(origins) == total
    {
      state := names;
    }

    /** Evaluate from another state and leave the current one as it was. */
    method RunExpression(e: Expr, initial: Names) returns (origins: set<Origin>, result: Names)
      requires Valid() && Once(e) && Calls(e) !! callArguments.Keys
      modifies this`state, this`callArguments, this`sinkOrigins
      ensures Valid() && callArguments.Keys == old(callArguments.Keys) + Calls(e) && state == old(state)
      ensures View(result) + Reports() + Values(origins) == old(Reports()) + Eval(src, e, View(initial))
      decreases e, 3
    {
      var previous := state;
      state := initial;
      origins := Expression(e);
      result := state;
      state := previous;
    }

    method EvaluateAll(es: Exprs, ghost slot: Slot, ghost index: nat) returns (list: seq<set<Origin>>)
      requires Valid() && OnceAll(es) && CallsAll(es) !! callArguments.Keys
      modifies this`state, this`callArguments, this`sinkOrigins
      ensures Valid() && callArguments.Keys == old(callArguments.Keys) + CallsAll(es)
      ensures View(state) + Reports() + Spent(slot, index, list)
           == old(Reports()) + EvalList(src, es, slot, index, View(old(state)))
      ensures es.ENil? ==> list == []
      decreases es, 3
    {
      match es
      case ENil =>
        list := [];
        assert State(View(state)) == View(state) && Spent(slot, index, list) == {};
      case ECons(head, tail) =>
        var origins := Expression(head);
        ghost var v1, r1 := View(state), Reports();
        list := EvaluateAll(tail, slot, index + 1);
        ListStep(src, head, tail, slot, index, View(old(state)), old(Reports()), v1, r1, origins, View(state),
                 Reports(), list);
        list := [origins] + list;
    }

    // ----- statements -----

    method Statement(st: Stmt)
      requires Valid() && OnceOf(st) && CallsOf(st) !! callArguments.Keys
      modifies this
      ensures Valid() && callArguments.Keys == old(callArguments.Keys) + CallsOf(st)
      ensures View(state) + Reports() == old(Reports()) + Exec(src, st, View(old(state)))
      decreases st, 2
    {
      match st
      case Assign(values, targets) => AssignStatement(values, targets);
      case AugName(name, value) => AugNameStatement(name, value);
      case AugPlace(place, value) => AugPlaceStatement(place, value);
      case Unbind(names) =>
        state := state - names;
        assert View(state) == Binding(names, State(View(old(state))));
      case If(test, body, orelse) => IfStatement(test, body, orelse);
      case With(items, body) => WithStatement(items, body);
      case Evaluate(expr) =>
        var origins := Expression(expr);
        DropStep(old(Reports()), Eval(src, expr, View(old(state))), View(state), Reports(), origins);
      case Return(values) => ReturnStatement(values);
    }

    method AssignStatement(values: Exprs, targets: Targets)
      requires var places := EvaluatedTargets(targets);
               Valid() && OnceAll(values) && OnceAll(places) && CallsAll(values) !! CallsAll(places)
               && CallsAll(values) + CallsAll(places) !! callArguments.Keys
      modifies this
      ensures Valid()
      ensures callArguments.Keys == old(callArguments.Keys) + (CallsAll(values) + CallsAll(EvaluatedTargets(targets)))
      ensures View(state) + Reports() == old(Reports()) + Exec(src, Stmt.Assign(values, targets), View(old(state)))
    {
      var list := ValuesThenPlaces(values, targets);
      ghost var v, r := View(state), Reports();
      Assign(AllTargetNames(targets), All(list));
      BindStep(AllTargetNames(targets), old(Reports()), Assigned(src, values, targets, View(old(state))),
               v, r, All(list), View(state));
      AssignIsBinding(src, values, targets, View(old(state)));
    }

    method ValuesThenPlaces(values: Exprs, targets: Targets) returns (list: seq<set<Origin>>)
      requires var places := EvaluatedTargets(targets);
               Valid() && OnceAll(values) && OnceAll(places) && CallsAll(values) !! CallsAll(places)
               && CallsAll(values) + CallsAll(places) !! callArguments.Keys
      modifies this`state, this`callArguments, this`sinkOrigins
      ensures Valid()
      ensures callArguments.Keys == old(callArguments.Keys) + (CallsAll(values) + CallsAll(EvaluatedTargets(targets)))
      ensures View(state) + Reports() + Values(All(list))
           == old(Reports()) + Assigned(src, values, targets, View(old(state)))
    {
      list := EvaluateAll(values, Kept, 0);
      ghost var v1, r1 := View(state), Reports();
      var _ := EvaluateAll(EvaluatedTargets(targets), Unused, 0);
      PlacesStep(src, values, targets, View(old(state)), old(Reports()), v1, r1, list, View(state), Reports());
    }

    method AugNameStatement(name: string, value: Expr)
      requires var st := AugName(name, value); Valid() && OnceOf(st) && CallsOf(st) !! callArguments.Keys
      modifies this
      ensures Valid() && callArguments.Keys == old(callArguments.Keys) + CallsOf(AugName(name, value))
      ensures View(state) + Reports() == old(Reports()) + Exec(src, AugName(name, value), View(old(state)))
      decreases AugName(name, value), 0
    {
      var previous := if name in state then state[name] else {};
      var origins := Expression(value);
      ghost var v1, r1 := View(state), Reports();
      Assign({name}, previous + origins);
      AugNameStep(src, name, value, old(state), old(Reports()), v1, r1, origins, View(state));
    }

    method AugPlaceStatement(place: Expr, value: Expr)
      requires var st := AugPlace(place, value); Valid() && OnceOf(st) && CallsOf(st) !! callArguments.Keys
      modifies this
      ensures Valid() && callArguments.Keys == old(callArguments.Keys) + CallsOf(AugPlace(place, value))
      ensures View(state) + Reports() == old(Reports()) + Exec(src, AugPlace(place, value), View(old(state)))
      decreases AugPlace(place, value), 0
    {
      var origins := Expression(value);
      ghost var v1, r1 := View(state), Reports();
      var more := Expression(place);
      AugPlaceStep(src, place, value, View(old(state)), old(Reports()), v1, r1, origins, View(state), Reports(), more);
    }

    method WithStatement(items: Items, body: Block)
      requires var st := With(items, body); Valid() && OnceOf(st) && CallsOf(st) !! callArguments.Keys
      modifies this
      ensures Valid() && callArguments.Keys == old(callArguments.Keys) + CallsOf(With(items, body))
      ensures View(state) + Reports() == old(Reports()) + Exec(src, With(items, body), View(old(state)))
      decreases With(items, body), 0
    {
      ContextItems(items);
      ghost var v1, r1 := View(state), Reports();
      state := RunBlock(body, state);
      ThenBlock(src, old(Reports()), ExecItems(src, items, View(old(state))), v1, r1, body, View(state), Reports());
    }

    method ReturnStatement(values: Exprs)
      requires Valid() && OnceAll(values) && CallsAll(values) !! callArguments.Keys
      modifies this
      ensures Valid() && callArguments.Keys == old(callArguments.Keys) + CallsAll(values)
      ensures View(state) + Reports() == old(Reports()) + Exec(src, Return(values), View(old(state)))
    {
      var list := EvaluateAll(values, Kept, 0);
      ghost var r1 := Reports();
      if values.ECons? { Leaving(All(list)); } else { assert ReturnFacts(All(list)) == {}; }
      assert Reports() == r1 + ReturnFacts(All(list));
      ReturnStep(src, values, View(old(state)), old(Reports()), View(state), r1, All(list), Reports());
    }

    method Leaving(origins: set<Origin>)
      modifies this`returned
      ensures Reports() == old(Reports()) + ReturnFacts(origins)
    {
      RecordedReturn(callArguments, returned, origins);
      returned := returned + [origins];
    }

    method IfStatement(test: Expr, body: Block, orelse: Block)
      requires var st := If(test, body, orelse); Valid() && OnceOf(st) && CallsOf(st) !! callArguments.Keys
      modifies this
      ensures Valid() && callArguments.Keys == old(callArguments.Keys) + CallsOf(If(test, body, orelse))
      ensures View(state) + Reports() == old(Reports()) + Exec(src, If(test, body, orelse), View(old(state)))
      decreases If(test, body, orelse), 1
    {
      var origins := Expression(test);
      ghost var v1, r1 := View(state), Reports();
      Branches(body, orelse, test);
      IfStep(src, test, body, orelse, View(old(state)), old(Reports()), v1, r1, origins, View(state), Reports());
    }

    method Branches(body: Block, orelse: Block, ghost test: Expr)
      requires Valid() && OnceIn(body) && OnceIn(orelse) && CallsIn(body) !! CallsIn(orelse)
      requires CallsIn(body) + CallsIn(orelse) !! callArguments.Keys
      modifies this
      ensures Valid() && callArguments.Keys == old(callArguments.Keys) + CallsIn(body) + CallsIn(orelse)
      ensures View(state) + Reports()
           == old(Reports()) + (ExecBlock(src, body, View(old(state))) + ExecBlock(src, orelse, View(old(state))))
      decreases If(test, body, orelse), 0
    {
      ghost var r1 := Reports();
      var incoming := state;
      var bodyState := RunBlock(body, incoming);
      ghost var r2 := Reports();
      var elseState := RunBlock(orelse, incoming);
      ghost var r3 := Reports();
      state := Join(bodyState, elseState);
      TwoBranches(r1, ExecBlock(src, body, View(incoming)), View(bodyState), r2,
                  ExecBlock(src, orelse, View(incoming)), View(elseState), r3, View(state));
    }

    method ContextItems(items: Items)
      requires Valid() && OnceWith(items) && CallsWith(items) !! callArguments.Keys
      modifies this
      ensures Valid() && callArguments.Keys == old(callArguments.Keys) + CallsWith(items)
      ensures View(state) + Reports() == old(Reports()) + ExecItems(src, items, View(old(state)))
      decreases items
    {
      match items
      case INil => assert State(View(state)) == View(state);
      case ICons(expr, targets, tail) =>
        var origins := Expression(expr);
        ghost var v1, r1 := View(state), Reports();
        Assign(AllTargetNames(targets), origins);
        ghost var v2 := View(state);
        ghost var k := Eval(src, expr, View(old(state)));
        BindStep(AllTargetNames(targets), old(Reports()), k, v1, r1, origins, v2);
        ContextItems(tail);
        ThenItems(src, old(Reports()), Dropping(Binding(AllTargetNames(targets), k)), v2, r1, tail, View(state),
                  Reports());
    }

    /** Run a block from another state and leave the current one as it was. */
    method RunBlock(body: Block, initial: Names) returns (result: Names)
      requires Valid() && OnceIn(body) && CallsIn(body) !! callArguments.Keys
      modifies this
      ensures Valid() && callArguments.Keys == old(callArguments.Keys) + CallsIn(body) && state == old(state)
      ensures View(result) + Reports() == old(Reports()) + ExecBlock(src, body, View(initial))
      decreases body, 3
    {
      var previous := state;
      state := initial;
      Run(body);
      result := state;
      state := previous;
    }

    method Run(body: Block)
      requires Valid() && OnceIn(body) && CallsIn(body) !! callArguments.Keys
      modifies this
      ensures Valid() && callArguments.Keys == old(callArguments.Keys) + CallsIn(body)
      ensures View(state) + Reports() == old(Reports()) + ExecBlock(src, body, View(old(state)))
      decreases body, 2
    {
      match body
      case BNil => assert State(View(state)) == View(state);
      case BCons(head, tail) =>
        Statement(head);
        ghost var v1, r1 := View(state), Reports();
        Run(tail);
        ThenBlock(src, old(Reports()), Exec(src, head, View(old(state))), v1, r1, tail, View(state), Reports());
    }
  }
}
