/** One-helper flows: a helper is analysed once, with each parameter tainted by its own name, and
    the caller's argument origins are substituted afterwards.  That gives exactly what analysing the
    helper again with those arguments would give. */
module TaintSummaries {
  import opened History
  import opened TaintModel
  import TaintAnalyzer
  import TaintScopes
  import TaintSemantics

  /** What to put in place of each origin; an origin without a meaning is dropped. */
  type Meanings = map<Origin, set<Origin>>

  function Meaning(m: Meanings, o: Origin): set<Origin> {
    if o in m then m[o] else {}
  }

  /** Replace every origin by its meaning. */
  function Subst(m: Meanings, k: Facts): Facts {
    set f, o | f in k && o in Meaning(m, f.origin) :: Fact(f.place, o)
  }

  // ----- substitution commutes with every step -----

  lemma SubstHas(m: Meanings, k: Facts, f: Fact, o: Origin)
    requires f in k && o in Meaning(m, f.origin)
    ensures Fact(f.place, o) in Subst(m, k)
  {}

  lemma SubstPlus(m: Meanings, a: Facts, b: Facts)
    ensures Subst(m, a + b) == Subst(m, a) + Subst(m, b)
  {}

  lemma SubstState(m: Meanings, k: Facts)
    ensures State(Subst(m, k)) == Subst(m, State(k))
  {}

  lemma SubstThen(m: Meanings, a: Facts, b: Facts)
    ensures Subst(m, Then(a, b)) == Then(Subst(m, a), Subst(m, b))
  {}

  lemma SubstLoad(m: Meanings, k: Facts, name: string)
    ensures Subst(m, Load(k, name)) == Load(Subst(m, k), name)
  {}

  lemma SubstApply(m: Meanings, step: Step, k: Facts)
    requires !step.Gain?
    ensures Subst(m, Apply(step, k)) == Apply(step, Subst(m, k))
  {}

  // ----- hence with the whole analysis, when the helper itself reads no credentials -----

  lemma NoValues(k: Facts, node: NodeId)
    ensures k + Values(Exact(map[], node)) == k
  {}

  lemma {:induction false} SubstEval(m: Meanings, e: Expr, s: Facts)
    ensures Subst(m, Eval(map[], e, s)) == Eval(map[], e, Subst(m, s))
    decreases e
  {
    match e
    case NameRef(node, name, load) =>
      SubstState(m, s);
      SubstLoad(m, s, name);
      NoValues(State(s), node);
      NoValues(State(Subst(m, s)), node);
      SubstPlus(m, State(s), Load(s, name));
    case Call(node, func, arguments) =>
      SubstEval(m, func, s);
      var f := Eval(map[], func, s);
      SubstList(m, arguments, ArgumentOf(node), 0, f);
      SubstThen(m, f, EvalList(map[], arguments, ArgumentOf(node), 0, f));
      NoValues(Then(f, EvalList(map[], arguments, ArgumentOf(node), 0, f)), node);
      NoValues(Subst(m, Then(f, EvalList(map[], arguments, ArgumentOf(node), 0, f))), node);
    case Walrus(name, value) =>
      SubstEval(m, value, s);
      SubstApply(m, Bind({name}), Eval(map[], value, s));
    case Chain(first, rest) =>
      SubstEval(m, first, s);
      var f := Eval(map[], first, s);
      SubstChain(m, rest, f);
      SubstThen(m, f, EvalChain(map[], rest, f));
    case Conditional(test, body, orelse) =>
      SubstEval(m, test, s);
      var t := Eval(map[], test, s);
      SubstEval(m, body, t);
      SubstEval(m, orelse, t);
      SubstPlus(m, Eval(map[], body, t), Eval(map[], orelse, t));
      SubstThen(m, t, Eval(map[], body, t) + Eval(map[], orelse, t));
    case Other(node, children) =>
      SubstList(m, children, Kept, 0, s);
      NoValues(EvalList(map[], children, Kept, 0, s), node);
      NoValues(EvalList(map[], children, Kept, 0, Subst(m, s)), node);
  }

  lemma {:induction false} SubstList(m: Meanings, es: Exprs, slot: Slot, index: nat, s: Facts)
    ensures Subst(m, EvalList(map[], es, slot, index, s)) == EvalList(map[], es, slot, index, Subst(m, s))
    decreases es
  {
    match es
    case ENil => SubstState(m, s);
    case ECons(head, tail) =>
      SubstEval(m, head, s);
      SubstApply(m, Report(slot, index), Eval(map[], head, s));
      var h := Reporting(slot, index, Eval(map[], head, s));
      SubstList(m, tail, slot, index + 1, h);
      SubstThen(m, h, EvalList(map[], tail, slot, index + 1, h));
  }

  lemma {:induction false} SubstChain(m: Meanings, es: Exprs, s: Facts)
    ensures Subst(m, EvalChain(map[], es, s)) == EvalChain(map[], es, Subst(m, s))
    decreases es
  {
    SubstState(m, s);
    match es
    case ENil =>
    case ECons(head, tail) =>
      SubstEval(m, head, s);
      var h := Eval(map[], head, s);
      SubstChain(m, tail, h);
      SubstThen(m, h, EvalChain(map[], tail, h));
      SubstPlus(m, State(s), Then(h, EvalChain(map[], tail, h)));
  }

  lemma {:induction false} SubstExec(m: Meanings, st: Stmt, s: Facts)
    ensures Subst(m, Exec(map[], st, s)) == Exec(map[], st, Subst(m, s))
    decreases st
  {
    match st
    case Assign(values, targets) =>
      var v := EvalList(map[], values, Kept, 0, s);
      var t := EvalList(map[], EvaluatedTargets(targets), Unused, 0, v);
      SubstList(m, values, Kept, 0, s);
      SubstList(m, EvaluatedTargets(targets), Unused, 0, v);
      SubstThen(m, v, t);
      SubstApply(m, Bind(AllTargetNames(targets)), Then(v, t));
      SubstApply(m, Drop, Binding(AllTargetNames(targets), Then(v, t)));
    case AugName(name, value) =>
      SubstEval(m, value, s);
      SubstLoad(m, s, name);
      var v := Eval(map[], value, s) + Load(s, name);
      SubstPlus(m, Eval(map[], value, s), Load(s, name));
      SubstApply(m, Bind({name}), v);
      SubstApply(m, Drop, Binding({name}, v));
    case AugPlace(place, value) =>
      SubstEval(m, value, s);
      var v := Eval(map[], value, s);
      SubstEval(m, place, v);
      SubstThen(m, v, Eval(map[], place, v));
      SubstApply(m, Drop, Then(v, Eval(map[], place, v)));
    case Unbind(names) =>
      SubstState(m, s);
      SubstApply(m, Bind(names), State(s));
    case If(test, body, orelse) =>
      SubstEval(m, test, s);
      SubstApply(m, Drop, Eval(map[], test, s));
      var t := Dropping(Eval(map[], test, s));
      SubstBlock(m, body, t);
      SubstBlock(m, orelse, t);
      SubstPlus(m, ExecBlock(map[], body, t), ExecBlock(map[], orelse, t));
      SubstThen(m, t, ExecBlock(map[], body, t) + ExecBlock(map[], orelse, t));
    case With(items, body) =>
      SubstItems(m, items, s);
      var i := ExecItems(map[], items, s);
      SubstBlock(m, body, i);
      SubstThen(m, i, ExecBlock(map[], body, i));
    case Evaluate(expr) =>
      SubstEval(m, expr, s);
      SubstApply(m, Drop, Eval(map[], expr, s));
    case Return(values) =>
      SubstList(m, values, Kept, 0, s);
      SubstApply(m, Leave, EvalList(map[], values, Kept, 0, s));
  }

  lemma {:induction false} SubstBlock(m: Meanings, b: Block, s: Facts)
    ensures Subst(m, ExecBlock(map[], b, s)) == ExecBlock(map[], b, Subst(m, s))
    decreases b
  {
    match b
    case BNil => SubstState(m, s);
    case BCons(head, tail) =>
      SubstExec(m, head, s);
      var h := Exec(map[], head, s);
      SubstBlock(m, tail, h);
      SubstThen(m, h, ExecBlock(map[], tail, h));
  }

  lemma {:induction false} SubstItems(m: Meanings, items: Items, s: Facts)
    ensures Subst(m, ExecItems(map[], items, s)) == ExecItems(map[], items, Subst(m, s))
    decreases items
  {
    match items
    case INil => SubstState(m, s);
    case ICons(expr, targets, tail) =>
      var names := AllTargetNames(targets);
      var e := Eval(map[], expr, s);
      SubstEval(m, expr, s);
      SubstApply(m, Bind(names), e);
      SubstApply(m, Drop, Binding(names, e));
      var h := Dropping(Binding(names, e));
      SubstItems(m, tail, h);
      SubstThen(m, h, ExecItems(map[], tail, h));
  }

  // ----- helper summaries -----

  datatype Helper = Helper(positional: seq<string>, keywordOnly: seq<string>, body: Block)

  function Parameters(h: Helper): set<string> {
    set p | p in h.positional + h.keywordOnly
  }

  /** Each parameter tainted by its own name. */
  function OwnNames(h: Helper): Facts {
    set p | p in Parameters(h) :: Fact(Name(p), Parameter(p))
  }

  /** The origins a call passes for each parameter. */
  type Passed = map<string, set<Origin>>

  /** Each parameter tainted by what the caller passes. */
  function PassedIn(h: Helper, args: Passed): Facts {
    set p, o | p in Parameters(h) && p in args && o in args[p] :: Fact(Name(p), o)
  }

  /** Origins of anything passed to a call, in any argument. */
  function SinkOrigins(k: Facts, call: NodeId): set<Origin> {
    set f | f in k && f.place.Argument? && f.place.call == call :: f.origin
  }

  /** The summary: the parameters whose value reaches the call. */
  function Used(h: Helper, sink: NodeId): set<string> {
    set o | o in SinkOrigins(ExecBlock(map[], h.body, OwnNames(h)), sink) && o.Parameter? :: o.name
  }

  function Means(h: Helper, args: Passed): Meanings {
    map p | p in Parameters(h) :: Parameter(p) := if p in args then args[p] else {}
  }

  lemma SubstOwnNames(h: Helper, args: Passed)
    ensures Subst(Means(h, args), OwnNames(h)) == PassedIn(h, args)
  {
    forall f | f in PassedIn(h, args) ensures f in Subst(Means(h, args), OwnNames(h)) {
      var p :| p in Parameters(h) && p in args && f.origin in args[p] && f.place == Name(p);
      SubstHas(Means(h, args), OwnNames(h), Fact(Name(p), Parameter(p)), f.origin);
    }
  }

  function Unchanged(h: Helper): Meanings {
    map p | p in Parameters(h) :: Parameter(p) := {Parameter(p)}
  }

  lemma OwnNamesUnchanged(h: Helper)
    ensures Subst(Unchanged(h), OwnNames(h)) == OwnNames(h)
  {
    forall f | f in OwnNames(h) ensures f in Subst(Unchanged(h), OwnNames(h)) {
      SubstHas(Unchanged(h), OwnNames(h), f, f.origin);
    }
  }

  lemma UnchangedMeaning(h: Helper, k: Facts, f: Fact)
    requires f in Subst(Unchanged(h), k)
    ensures f.origin.Parameter? && f.origin.name in Parameters(h)
  {}

  /** Nothing but parameters of the helper ever shows up when it is summarised. */
  lemma OnlyParameters(h: Helper, f: Fact)
    requires f in ExecBlock(map[], h.body, OwnNames(h))
    ensures f.origin.Parameter? && f.origin.name in Parameters(h)
  {
    SubstBlock(Unchanged(h), h.body, OwnNames(h));
    OwnNamesUnchanged(h);
    UnchangedMeaning(h, ExecBlock(map[], h.body, OwnNames(h)), f);
  }

  /** Substituting into the summary of a call gives the origins of analysing the body again with
      the arguments. */
  lemma SummaryIsInlining(h: Helper, args: Passed, sink: NodeId)
    ensures SinkOrigins(ExecBlock(map[], h.body, PassedIn(h, args)), sink)
         == set p, o | p in Used(h, sink) && p in args && o in args[p] :: o
  {
    var summary := ExecBlock(map[], h.body, OwnNames(h));
    var m := Means(h, args);
    SubstBlock(m, h.body, OwnNames(h));
    SubstOwnNames(h, args);
    var inlined := SinkOrigins(Subst(m, summary), sink);
    forall p, o | p in Used(h, sink) && p in args && o in args[p] ensures o in inlined {
      var f :| f in summary && f.place.Argument? && f.place.call == sink && f.origin == Parameter(p);
      OnlyParameters(h, f);
      SubstHas(m, summary, f, o);
    }
    forall o | o in inlined
      ensures exists p :: p in Used(h, sink) && p in args && o in args[p]
    {
      var f :| f in summary && f.place.Argument? && f.place.call == sink && o in Meaning(m, f.origin);
      OnlyParameters(h, f);
      assert f.origin in SinkOrigins(summary, sink);
      assert f.origin.name in Used(h, sink);
    }
  }

  // ----- how a call's evaluated arguments are matched with parameters -----

  /** Origins of the positional arguments followed by those of the keyword arguments, with the
      keywords' names (none for a double-star argument). */
  datatype CallSite = CallSite(positional: seq<set<Origin>>, keywords: seq<(Option<string>, set<Origin>)>)

  /** First position holding x, if any. */
  function IndexOf<T(==)>(s: seq<T>, x: T): (r: Option<nat>)
    ensures r.Some? ==> r.value < |s| && s[r.value] == x && x !in s[..r.value]
    ensures r.None? <==> x !in s
  {
    if s == [] then None
    else if s[0] == x then Some(0)
    else
      match IndexOf(s[1..], x)
      case None => None
      case Some(i) => assert s[..i + 1] == [s[0]] + s[1..][..i]; Some(i + 1)
  }

  function KeywordNames(c: CallSite): seq<Option<string>> {
    seq(|c.keywords|, i requires 0 <= i < |c.keywords| => c.keywords[i].0)
  }

  /** A keyword argument of that name wins over the positional argument. */
  function PassedFor(h: Helper, c: CallSite, parameter: string): set<Origin> {
    match IndexOf(KeywordNames(c), Some(parameter))
    case Some(k) => c.keywords[k].1
    case None =>
      match IndexOf(h.positional, parameter)
      case Some(i) => if i < |c.positional| then c.positional[i] else {}
      case None => {}
  }

  function AllPassed(h: Helper, c: CallSite): Passed {
    map p | p in Parameters(h) :: PassedFor(h, c, p)
  }

  /** What reaches a parameter at a call: the first keyword argument of its name; without one, the
      positional argument at its position. */
  ghost predicate Reaches(h: Helper, c: CallSite, parameter: string, o: Origin) {
    if exists k :: 0 <= k < |c.keywords| && c.keywords[k].0 == Some(parameter) then
      exists k :: 0 <= k < |c.keywords| && c.keywords[k].0 == Some(parameter) && o in c.keywords[k].1
                  && forall j :: 0 <= j < k ==> c.keywords[j].0 != Some(parameter)
    else
      exists i :: 0 <= i < |h.positional| && i < |c.positional| && h.positional[i] == parameter && o in c.positional[i]
                  && forall j :: 0 <= j < i ==> h.positional[j] != parameter
  }

  lemma PassedExactly(h: Helper, c: CallSite, parameter: string, o: Origin)
    ensures o in PassedFor(h, c, parameter) <==> Reaches(h, c, parameter, o)
  {
    var names := KeywordNames(c);
    match IndexOf(names, Some(parameter))
    case Some(k) =>
      forall j | 0 <= j < k ensures c.keywords[j].0 != Some(parameter) { assert names[..k][j] == names[j]; }
      assert names[k] == c.keywords[k].0;
    case None =>
      forall k | 0 <= k < |c.keywords| ensures c.keywords[k].0 != Some(parameter) { assert names[k] in names; }
      PositionExactly(h, c, parameter, o);
  }

  lemma PositionExactly(h: Helper, c: CallSite, parameter: string, o: Origin)
    ensures (match IndexOf(h.positional, parameter)
             case Some(i) => i < |c.positional| && o in c.positional[i]
             case None => false)
       <==> exists i :: 0 <= i < |h.positional| && i < |c.positional| && h.positional[i] == parameter
                        && o in c.positional[i] && forall j :: 0 <= j < i ==> h.positional[j] != parameter
  {
    match IndexOf(h.positional, parameter)
    case Some(i) =>
      forall j | 0 <= j < i ensures h.positional[j] != parameter { assert h.positional[..i][j] == h.positional[j]; }
    case None =>
  }

  /** Parameters have different names, so the i-th positional argument reaches the i-th parameter
      unless a keyword argument names it. */
  lemma PositionalArrives(h: Helper, c: CallSite, i: nat)
    requires i < |h.positional| && i < |c.positional|
    requires forall j, k :: 0 <= j < k < |h.positional| ==> h.positional[j] != h.positional[k]
    requires forall k :: 0 <= k < |c.keywords| ==> c.keywords[k].0 != Some(h.positional[i])
    ensures PassedFor(h, c, h.positional[i]) == c.positional[i]
  {
    forall o ensures o in PassedFor(h, c, h.positional[i]) <==> o in c.positional[i] {
      PassedExactly(h, c, h.positional[i], o);
    }
  }

  lemma KeywordArrives(h: Helper, c: CallSite, k: nat, parameter: string)
    requires k < |c.keywords| && c.keywords[k].0 == Some(parameter)
    requires forall j :: 0 <= j < |c.keywords| && j != k ==> c.keywords[j].0 != Some(parameter)
    ensures PassedFor(h, c, parameter) == c.keywords[k].1
  {
    forall o ensures o in PassedFor(h, c, parameter) <==> o in c.keywords[k].1 {
      PassedExactly(h, c, parameter, o);
    }
  }

  /** Some run of the helper's body, with each parameter holding what reaches it, passes the origin to
      the sink. */
  ghost predicate FlowsThrough(h: Helper, c: CallSite, sink: NodeId, o: Origin) {
    exists env: Names ::
      && env.Keys == Parameters(h)
      && (forall p, x :: p in env ==> (x in env[p] <==> Reaches(h, c, p, x)))
      && TaintScopes.SomeRunPasses(map[], h.body, env, sink, o)
  }

  lemma PassedInIsView(h: Helper, c: CallSite)
    ensures PassedIn(h, AllPassed(h, c)) == TaintAnalyzer.View(AllPassed(h, c))
  {}

  lemma SinkRuns(h: Helper, env: Names, sink: NodeId, o: Origin)
    ensures o in SinkOrigins(ExecBlock(map[], h.body, TaintAnalyzer.View(env)), sink)
       <==> TaintScopes.SomeRunPasses(map[], h.body, env, sink, o)
  {
    var k := ExecBlock(map[], h.body, TaintAnalyzer.View(env));
    forall i: nat
      ensures Fact(Argument(sink, i), o) in k
         <==> exists out :: out in TaintSemantics.BlockEffects(map[], h.body, env)
                            && TaintSemantics.Passed(sink, i, o) in out.log
    {
      TaintScopes.PassedBySome(map[], h.body, env, sink, i, o);
    }
    assert o in SinkOrigins(k, sink) <==> exists i: nat :: Fact(Argument(sink, i), o) in k;
  }

  lemma FlowsExactly(h: Helper, c: CallSite, sink: NodeId, o: Origin)
    ensures o in SinkOrigins(ExecBlock(map[], h.body, PassedIn(h, AllPassed(h, c))), sink)
       <==> FlowsThrough(h, c, sink, o)
  {
    var env := AllPassed(h, c);
    PassedInIsView(h, c);
    SinkRuns(h, env, sink, o);
    forall p, x | p in env ensures x in env[p] <==> Reaches(h, c, p, x) { PassedExactly(h, c, p, x); }
    if FlowsThrough(h, c, sink, o) {
      var other: Names :|
        && other.Keys == Parameters(h)
        && (forall p, x :: p in other ==> (x in other[p] <==> Reaches(h, c, p, x)))
        && TaintScopes.SomeRunPasses(map[], h.body, other, sink, o);
      forall p | p in other ensures other[p] == env[p] {
        assert forall x :: x in other[p] <==> x in env[p];
      }
      assert other == env;
    }
  }

  /** The origins find_credential_network_flows reports at a sink of a helper for a call of it: the
      parameters of the summary are visited one by one. */
  method HelperFlows(h: Helper, c: CallSite, sink: NodeId) returns (flows: set<Origin>)
    ensures forall o :: o in flows <==> o.Credential? && FlowsThrough(h, c, sink, o)
  {
    flows := {};
    var pending := Used(h, sink);
    while pending != {}
      invariant pending <= Used(h, sink)
      invariant flows == set p, o | p in Used(h, sink) - pending && o in PassedFor(h, c, p) && o.Credential? :: o
      decreases pending
    {
      var p :| p in pending;
      pending := pending - {p};
      var origins := PassedFor(h, c, p);
      flows := flows + set o | o in origins && o.Credential?;
    }
    SummaryIsInlining(h, AllPassed(h, c), sink);
    UsedAreParameters(h, sink);
    var passed := AllPassed(h, c);
    assert Used(h, sink) - pending == Used(h, sink);
    assert forall p :: p in Used(h, sink) ==> p in passed && passed[p] == PassedFor(h, c, p);
    ghost var inlined := SinkOrigins(ExecBlock(map[], h.body, PassedIn(h, passed)), sink);
    assert forall p, o :: p in Used(h, sink) && o in PassedFor(h, c, p) ==> o in inlined;
    forall o | o in inlined && o.Credential? ensures o in flows {
      var p :| p in Used(h, sink) && p in passed && o in passed[p];
    }
    forall o ensures o in inlined <==> FlowsThrough(h, c, sink, o) { FlowsExactly(h, c, sink, o); }
  }

  lemma UsedAreParameters(h: Helper, sink: NodeId)
    ensures Used(h, sink) <= Parameters(h)
  {
    var summary := ExecBlock(map[], h.body, OwnNames(h));
    forall p | p in Used(h, sink) ensures p in Parameters(h) {
      var f :| f in summary && f.place.Argument? && f.place.call == sink && f.origin == Parameter(p);
      OnlyParameters(h, f);
    }
  }
}
