/** The taint analysis and the plain interpreter agree: the analysis knows exactly what some single run
    of the interpreter ends with. */
module TaintAgreement {
  import opened History
  import opened TaintModel
  import opened TaintPaths
  import opened TaintAnalyzer
  import opened TaintSemantics

  // ----- a run as a set of facts -----

  ghost function LogFacts(log: set<Passed>): Facts {
    set p | p in log :: Fact(Argument(p.call, p.index), p.origin)
  }

  ghost function ViewOut(out: Out): Facts {
    View(out.env) + Values(out.value) + LogFacts(out.log) + ReturnFacts(out.returned)
  }

  ghost predicate Tells(out: Out, f: Fact) {
    match f.place
    case Value => f.origin in out.value
    case Name(n) => f.origin in Look(out.env, n)
    case Argument(c, i) => Passed(c, i, f.origin) in out.log
    case Returned => f.origin in out.returned
  }

  lemma InView(env: Names, f: Fact)
    ensures f in View(env) <==> f.place.Name? && f.origin in Look(env, f.place.name)
  {}

  lemma InViewOut(out: Out, f: Fact)
    ensures f in ViewOut(out) <==> Tells(out, f)
  {
    InView(out.env, f);
  }

  lemma SameFacts(a: Facts, b: Facts)
    requires forall f :: f in a <==> f in b
    ensures a == b
  {}

  lemma StateOfView(out: Out)
    ensures State(ViewOut(out)) == View(out.env)
  {
    forall f ensures f in State(ViewOut(out)) <==> f in View(out.env) {
      InViewOut(out, f);
      InView(out.env, f);
    }
    SameFacts(State(ViewOut(out)), View(out.env));
  }

  lemma StartView(env: Names)
    ensures ViewOut(Start(env)) == View(env)
  {
    SameFacts(View(env), ViewOut(Start(env)));
  }

  lemma JoinedView(a: Out, b: Out)
    ensures Then(ViewOut(a), ViewOut(b)) == ViewOut(Joined(a, b))
  {
    forall f ensures f in Then(ViewOut(a), ViewOut(b)) <==> f in ViewOut(Joined(a, b)) {
      InViewOut(a, f);
      InViewOut(b, f);
      InViewOut(Joined(a, b), f);
    }
    SameFacts(Then(ViewOut(a), ViewOut(b)), ViewOut(Joined(a, b)));
  }

  lemma GainView(a: Out, more: set<Origin>)
    ensures ViewOut(a) + Values(more) == ViewOut(Adding(a, more))
  {
    SameFacts(ViewOut(a) + Values(more), ViewOut(Adding(a, more)));
  }

  lemma QuietView(a: Out)
    ensures Dropping(ViewOut(a)) == ViewOut(Quiet(a))
  {
    forall f ensures f in Dropping(ViewOut(a)) <==> f in ViewOut(Quiet(a)) {
      InViewOut(a, f);
      InViewOut(Quiet(a), f);
    }
    SameFacts(Dropping(ViewOut(a)), ViewOut(Quiet(a)));
  }

  lemma GivingView(a: Out)
    ensures Returning(ViewOut(a)) == ViewOut(Giving(a))
  {
    forall f ensures f in Returning(ViewOut(a)) <==> f in ViewOut(Giving(a)) {
      InViewOut(a, f);
      InViewOut(a, Fact(Value, f.origin));
      InViewOut(Giving(a), f);
    }
    SameFacts(Returning(ViewOut(a)), ViewOut(Giving(a)));
  }

  lemma BindView(a: Out, names: set<string>, after: Names)
    requires forall n :: Look(after, n) == if n in names then a.value else Look(a.env, n)
    ensures Binding(names, ViewOut(a)) == ViewOut(a.(env := after))
  {
    forall f ensures f in Binding(names, ViewOut(a)) <==> f in ViewOut(a.(env := after)) {
      InViewOut(a, f);
      InViewOut(a, Fact(Value, f.origin));
      InViewOut(a.(env := after), f);
    }
    SameFacts(Binding(names, ViewOut(a)), ViewOut(a.(env := after)));
  }

  lemma StoringView(a: Out, ts: Targets)
    ensures Binding(AllTargetNames(ts), ViewOut(a)) == ViewOut(Storing(a, ts))
  {
    forall n
      ensures Look(StoredAll(ts, a.value, a.env), n) == if n in AllTargetNames(ts) then a.value else Look(a.env, n)
    {
      StoredAllNames(ts, a.value, a.env, n);
    }
    BindView(a, AllTargetNames(ts), StoredAll(ts, a.value, a.env));
  }

  function CallOf(slot: Slot): Option<NodeId> {
    if slot.ArgumentOf? then Some(slot.call) else None
  }

  lemma LoggedView(slot: Slot, index: nat, a: Out)
    requires !slot.Unused?
    ensures Reporting(slot, index, ViewOut(a)) == ViewOut(Logged(a, CallOf(slot), index))
  {
    var after := Logged(a, CallOf(slot), index);
    forall f ensures f in Reporting(slot, index, ViewOut(a)) <==> f in ViewOut(after) {
      InViewOut(a, f);
      InViewOut(a, Fact(Value, f.origin));
      InViewOut(after, f);
    }
    SameFacts(Reporting(slot, index, ViewOut(a)), ViewOut(after));
  }

  lemma LoadView(env: Names, s: Facts, name: string)
    requires State(s) == View(env)
    ensures Load(s, name) == Values(Look(env, name))
  {
    forall f ensures f in Load(s, name) <==> f in Values(Look(env, name)) {
      InView(env, Fact(Name(name), f.origin));
      assert Fact(Name(name), f.origin) in s <==> Fact(Name(name), f.origin) in State(s);
    }
    SameFacts(Load(s, name), Values(Look(env, name)));
  }

  lemma UnbindView(env: Names, names: set<string>)
    ensures Binding(names, View(env)) == View(env - names)
  {
    forall f ensures f in Binding(names, View(env)) <==> f in View(env - names) {
      InView(env, f);
      InView(env, Fact(Value, f.origin));
      InView(env - names, f);
    }
    SameFacts(Binding(names, View(env)), View(env - names));
  }

  // ----- sets of runs -----

  ghost function Views(p: set<Out>): set<Facts> {
    set a | a in p :: ViewOut(a)
  }

  lemma FollowedViews(p: set<Out>, g: Names -> set<Out>, k: Facts -> set<Facts>)
    requires forall a :: a in p ==> k(ViewOut(a)) == Views(g(a.env))
    ensures ThenEach(Views(p), k) == Views(Followed(p, g))
  {
    forall x | x in ThenEach(Views(p), k) ensures x in Views(Followed(p, g)) {
      var v, w :| v in Views(p) && w in k(v) && x == Then(v, w);
      var a :| a in p && v == ViewOut(a);
      var b :| b in g(a.env) && w == ViewOut(b);
      JoinedView(a, b);
      assert Joined(a, b) in Followed(p, g);
    }
    forall x | x in Views(Followed(p, g)) ensures x in ThenEach(Views(p), k) {
      var a, b :| a in p && b in g(a.env) && x == ViewOut(Joined(a, b));
      JoinedView(a, b);
      assert ViewOut(a) in Views(p) && ViewOut(b) in k(ViewOut(a));
    }
  }

  lemma ChangedViews(p: set<Out>, h: Out -> Out, step: Step)
    requires forall a :: a in p ==> Apply(step, ViewOut(a)) == ViewOut(h(a))
    ensures Each(Views(p), step) == Views(Changed(p, h))
  {
    forall x | x in Each(Views(p), step) ensures x in Views(Changed(p, h)) {
      var a :| a in p && x == Apply(step, ViewOut(a));
      assert h(a) in Changed(p, h);
    }
    forall x | x in Views(Changed(p, h)) ensures x in Each(Views(p), step) {
      var a :| a in p && x == ViewOut(h(a));
      assert ViewOut(a) in Views(p);
    }
  }

  lemma ChangedTwice(p: set<Out>, f: Out -> Out, g: Out -> Out, h: Out -> Out)
    requires forall a :: h(a) == g(f(a))
    ensures Changed(Changed(p, f), g) == Changed(p, h)
  {
    forall x | x in Changed(p, h) ensures x in Changed(Changed(p, f), g) {
      var a :| a in p && x == h(a);
      assert f(a) in Changed(p, f);
    }
  }

  lemma ViewsOfTwo(p: set<Out>, q: set<Out>)
    ensures Views(p + q) == Views(p) + Views(q)
  {}

  lemma ViewsOfOne(a: Out)
    ensures Views({a}) == {ViewOut(a)}
  {}

  lemma QuietViews(p: set<Out>)
    ensures Each(Views(p), Drop) == Views(Changed(p, Quiet))
  {
    forall a | a in p ensures Apply(Drop, ViewOut(a)) == ViewOut(Quiet(a)) { QuietView(a); }
    ChangedViews(p, Quiet, Drop);
  }

  // ----- the runs of the analysis are the runs of the interpreter -----

  lemma {:induction false} SameRuns(src: Sources, e: Expr, env: Names, s: Facts)
    requires State(s) == View(env)
    ensures Runs(src, e, s) == Views(Outcomes(src, e, env))
    decreases e, 2
  {
    match e
    case NameRef(node, name, load) => SameName(src, node, name, load, env, s);
    case Call(node, func, args) =>
      SameRuns(src, func, env, s);
      SameArguments(src, Outcomes(src, func, env), args, ArgumentOf(node), 0);
      SameReading(src, node, Followed(Outcomes(src, func, env), n => ListOutcomes(src, args, Some(node), 0, n)));
    case Walrus(name, value) =>
      SameRuns(src, value, env, s);
      SameWalrus(name, Outcomes(src, value, env));
    case Chain(first, rest) =>
      SameRuns(src, first, env, s);
      SameOperands(src, Outcomes(src, first, env), rest);
    case Conditional(test, body, orelse) =>
      SameRuns(src, test, env, s);
      SameArms(src, Outcomes(src, test, env), test, body, orelse);
    case Other(node, children) =>
      SameList(src, children, Kept, 0, env, s);
      SameReading(src, node, ListOutcomes(src, children, None, 0, env));
  }

  lemma SameName(src: Sources, node: NodeId, name: string, load: bool, env: Names, s: Facts)
    requires State(s) == View(env)
    ensures Runs(src, NameRef(node, name, load), s) == Views(Outcomes(src, NameRef(node, name, load), env))
  {
    var read := Out(ReadAt(src, node), env, {}, {});
    StartView(env);
    LoadView(env, s, name);
    GainView(Start(env), ReadAt(src, node));
    assert Adding(Start(env), ReadAt(src, node)) == read;
    if load {
      GainView(read, Look(env, name));
      ViewsOfOne(Out(ReadAt(src, node) + Look(env, name), env, {}, {}));
    } else {
      ViewsOfOne(read);
      assert ViewOut(read) + {} == ViewOut(read);
    }
  }

  lemma SameReading(src: Sources, node: NodeId, p: set<Out>)
    ensures Each(Views(p), Gain(Values(Exact(src, node)))) == Views(Changed(p, a => Adding(a, ReadAt(src, node))))
  {
    forall a | a in p
      ensures Apply(Gain(Values(Exact(src, node))), ViewOut(a)) == ViewOut(Adding(a, ReadAt(src, node)))
    {
      GainView(a, ReadAt(src, node));
    }
    ChangedViews(p, a => Adding(a, ReadAt(src, node)), Gain(Values(Exact(src, node))));
  }

  lemma SameWalrus(name: string, p: set<Out>)
    ensures Each(Views(p), Bind({name})) == Views(Changed(p, a => Naming(a, name)))
  {
    forall a | a in p ensures Apply(Bind({name}), ViewOut(a)) == ViewOut(Naming(a, name)) {
      BindView(a, {name}, a.env[name := a.value]);
    }
    ChangedViews(p, a => Naming(a, name), Bind({name}));
  }

  lemma {:induction false} SameArguments(src: Sources, p: set<Out>, es: Exprs, slot: Slot, index: nat)
    requires !slot.Unused?
    ensures ThenEach(Views(p), t => RunsList(src, es, slot, index, t))
         == Views(Followed(p, n => ListOutcomes(src, es, CallOf(slot), index, n)))
    decreases es, 2
  {
    forall a | a in p
      ensures RunsList(src, es, slot, index, ViewOut(a)) == Views(ListOutcomes(src, es, CallOf(slot), index, a.env))
    {
      StateOfView(a);
      SameList(src, es, slot, index, a.env, ViewOut(a));
    }
    FollowedViews(p, n => ListOutcomes(src, es, CallOf(slot), index, n), t => RunsList(src, es, slot, index, t));
  }

  lemma {:induction false} SameList(src: Sources, es: Exprs, slot: Slot, index: nat, env: Names, s: Facts)
    requires !slot.Unused? && State(s) == View(env)
    ensures RunsList(src, es, slot, index, s) == Views(ListOutcomes(src, es, CallOf(slot), index, env))
    decreases es, 1
  {
    match es
    case ENil =>
      StartView(env);
      ViewsOfOne(Start(env));
    case ECons(head, tail) =>
      SameRuns(src, head, env, s);
      SameLogged(slot, index, Outcomes(src, head, env));
      SameArguments(src, Changed(Outcomes(src, head, env), a => Logged(a, CallOf(slot), index)), tail, slot, index + 1);
  }

  lemma SameLogged(slot: Slot, index: nat, p: set<Out>)
    requires !slot.Unused?
    ensures Each(Views(p), Report(slot, index)) == Views(Changed(p, a => Logged(a, CallOf(slot), index)))
  {
    forall a | a in p
      ensures Apply(Report(slot, index), ViewOut(a)) == ViewOut(Logged(a, CallOf(slot), index))
    {
      LoggedView(slot, index, a);
    }
    ChangedViews(p, a => Logged(a, CallOf(slot), index), Report(slot, index));
  }

  lemma {:induction false} SameOperands(src: Sources, p: set<Out>, es: Exprs)
    ensures ThenEach(Views(p), t => RunsChain(src, es, t)) == Views(Followed(p, n => SomeOutcomes(src, es, n)))
    decreases es, 2
  {
    forall a | a in p ensures RunsChain(src, es, ViewOut(a)) == Views(SomeOutcomes(src, es, a.env)) {
      StateOfView(a);
      SameChain(src, es, a.env, ViewOut(a));
    }
    FollowedViews(p, n => SomeOutcomes(src, es, n), t => RunsChain(src, es, t));
  }

  lemma {:induction false} SameChain(src: Sources, es: Exprs, env: Names, s: Facts)
    requires State(s) == View(env)
    ensures RunsChain(src, es, s) == Views(SomeOutcomes(src, es, env))
    decreases es, 1
  {
    StartView(env);
    ViewsOfOne(Start(env));
    match es
    case ENil =>
    case ECons(head, tail) =>
      SameRuns(src, head, env, s);
      SameOperands(src, Outcomes(src, head, env), tail);
      ViewsOfTwo({Start(env)}, Followed(Outcomes(src, head, env), n => SomeOutcomes(src, tail, n)));
  }

  lemma {:induction false} SameArms(src: Sources, p: set<Out>, test: Expr, body: Expr, orelse: Expr)
    ensures ThenEach(Views(p), t => Runs(src, body, t) + Runs(src, orelse, t))
         == Views(Followed(p, n => Outcomes(src, body, n) + Outcomes(src, orelse, n)))
    decreases Conditional(test, body, orelse), 1
  {
    forall a | a in p ensures Runs(src, body, ViewOut(a)) == Views(Outcomes(src, body, a.env)) {
      SameAfter(src, a, body);
    }
    forall a | a in p ensures Runs(src, orelse, ViewOut(a)) == Views(Outcomes(src, orelse, a.env)) {
      SameAfter(src, a, orelse);
    }
    ArmsViews(src, p, body, orelse);
  }

  lemma ArmsViews(src: Sources, p: set<Out>, body: Expr, orelse: Expr)
    requires forall a :: a in p ==> Runs(src, body, ViewOut(a)) == Views(Outcomes(src, body, a.env))
    requires forall a :: a in p ==> Runs(src, orelse, ViewOut(a)) == Views(Outcomes(src, orelse, a.env))
    ensures ThenEach(Views(p), t => Runs(src, body, t) + Runs(src, orelse, t))
         == Views(Followed(p, n => Outcomes(src, body, n) + Outcomes(src, orelse, n)))
  {
    forall a | a in p
      ensures Runs(src, body, ViewOut(a)) + Runs(src, orelse, ViewOut(a))
           == Views(Outcomes(src, body, a.env) + Outcomes(src, orelse, a.env))
    {
      ViewsOfTwo(Outcomes(src, body, a.env), Outcomes(src, orelse, a.env));
    }
    FollowedViews(p, n => Outcomes(src, body, n) + Outcomes(src, orelse, n),
                  t => Runs(src, body, t) + Runs(src, orelse, t));
  }

  lemma {:induction false} SameAfter(src: Sources, a: Out, e: Expr)
    ensures Runs(src, e, ViewOut(a)) == Views(Outcomes(src, e, a.env))
    decreases e, 3
  {
    StateOfView(a);
    SameRuns(src, e, a.env, ViewOut(a));
  }

  // ----- and so for statements -----

  lemma SamePlaces(src: Sources, ts: Targets, index: nat, env: Names, s: Facts)
    requires State(s) == View(env)
    ensures RunsList(src, EvaluatedTargets(ts), Unused, index, s) == Views(PlaceOutcomes(src, ts, env))
    decreases ts, 1
  {
    match ts
    case TNil =>
      StartView(env);
      ViewsOfOne(Start(env));
    case TCons(head, tail) =>
      if head.TOther? {
        SameRuns(src, head.expr, env, s);
        SameUnused(Outcomes(src, head.expr, env), index);
        SamePlacesAfter(src, Changed(Outcomes(src, head.expr, env), Quiet), tail, index + 1);
      } else {
        SamePlaces(src, tail, index, env, s);
      }
  }

  lemma SameUnused(p: set<Out>, index: nat)
    ensures Each(Views(p), Report(Unused, index)) == Views(Changed(p, Quiet))
  {
    forall a | a in p ensures Apply(Report(Unused, index), ViewOut(a)) == ViewOut(Quiet(a)) { QuietView(a); }
    ChangedViews(p, Quiet, Report(Unused, index));
  }

  lemma {:induction false} SamePlacesAfter(src: Sources, p: set<Out>, ts: Targets, index: nat)
    ensures ThenEach(Views(p), t => RunsList(src, EvaluatedTargets(ts), Unused, index, t))
         == Views(Followed(p, n => PlaceOutcomes(src, ts, n)))
    decreases ts, 2
  {
    forall a | a in p
      ensures RunsList(src, EvaluatedTargets(ts), Unused, index, ViewOut(a)) == Views(PlaceOutcomes(src, ts, a.env))
    {
      StateOfView(a);
      SamePlaces(src, ts, index, a.env, ViewOut(a));
    }
    FollowedViews(p, n => PlaceOutcomes(src, ts, n), t => RunsList(src, EvaluatedTargets(ts), Unused, index, t));
  }

  lemma SameStoring(p: set<Out>, ts: Targets)
    ensures Each(Each(Views(p), Bind(AllTargetNames(ts))), Drop) == Views(Changed(p, a => Quiet(Storing(a, ts))))
  {
    forall a | a in p ensures Apply(Bind(AllTargetNames(ts)), ViewOut(a)) == ViewOut(Storing(a, ts)) {
      StoringView(a, ts);
    }
    ChangedViews(p, a => Storing(a, ts), Bind(AllTargetNames(ts)));
    QuietViews(Changed(p, a => Storing(a, ts)));
    ChangedTwice(p, a => Storing(a, ts), Quiet, a => Quiet(Storing(a, ts)));
  }

  lemma SameAugmented(name: string, env: Names, p: set<Out>)
    ensures Each(Each(Each(Views(p), Gain(Values(Look(env, name)))), Bind({name})), Drop)
         == Views(Changed(p, a => Quiet(Naming(Adding(a, Look(env, name)), name))))
  {
    var more := Look(env, name);
    forall a | a in p ensures Apply(Gain(Values(more)), ViewOut(a)) == ViewOut(Adding(a, more)) {
      GainView(a, more);
    }
    var gained := Changed(p, a => Adding(a, more));
    ChangedViews(p, a => Adding(a, more), Gain(Values(more)));
    SameWalrus(name, gained);
    QuietViews(Changed(gained, a => Naming(a, name)));
    ChangedTwice(p, a => Adding(a, more), a => Naming(a, name), a => Naming(Adding(a, more), name));
    ChangedTwice(p, a => Naming(Adding(a, more), name), Quiet, a => Quiet(Naming(Adding(a, more), name)));
  }

  lemma {:induction false} SameEffects(src: Sources, st: Stmt, env: Names, s: Facts)
    requires State(s) == View(env)
    ensures RunsOf(src, st, s) == Views(Effects(src, st, env))
    decreases st, 1
  {
    match st
    case Assign(values, targets) =>
      SameList(src, values, Kept, 0, env, s);
      SamePlacesAfter(src, ListOutcomes(src, values, None, 0, env), targets, 0);
      SameStoring(Followed(ListOutcomes(src, values, None, 0, env), n => PlaceOutcomes(src, targets, n)), targets);
    case AugName(name, value) =>
      SameRuns(src, value, env, s);
      LoadView(env, s, name);
      SameAugmented(name, env, Outcomes(src, value, env));
    case AugPlace(place, value) =>
      SameRuns(src, value, env, s);
      SamePlace(src, Outcomes(src, value, env), place);
      QuietViews(Followed(Outcomes(src, value, env), n => Outcomes(src, place, n)));
    case Unbind(names) =>
      UnbindView(env, names);
      StartView(env - names);
      ViewsOfOne(Start(env - names));
    case If(test, body, orelse) =>
      SameRuns(src, test, env, s);
      QuietViews(Outcomes(src, test, env));
      SameBranches(src, Changed(Outcomes(src, test, env), Quiet), test, body, orelse);
    case With(items, body) =>
      SameItems(src, items, env, s);
      SameBlockAfter(src, ItemEffects(src, items, env), body);
    case Evaluate(expr) =>
      SameRuns(src, expr, env, s);
      QuietViews(Outcomes(src, expr, env));
    case Return(values) =>
      SameList(src, values, Kept, 0, env, s);
      SameGiving(ListOutcomes(src, values, None, 0, env));
  }

  lemma SamePlace(src: Sources, p: set<Out>, place: Expr)
    ensures ThenEach(Views(p), t => Runs(src, place, t)) == Views(Followed(p, n => Outcomes(src, place, n)))
  {
    forall a | a in p ensures Runs(src, place, ViewOut(a)) == Views(Outcomes(src, place, a.env)) {
      SameAfter(src, a, place);
    }
    FollowedViews(p, n => Outcomes(src, place, n), t => Runs(src, place, t));
  }

  lemma SameGiving(p: set<Out>)
    ensures Each(Views(p), Leave) == Views(Changed(p, Giving))
  {
    forall a | a in p ensures Apply(Leave, ViewOut(a)) == ViewOut(Giving(a)) { GivingView(a); }
    ChangedViews(p, Giving, Leave);
  }

  lemma {:induction false} SameBranches(src: Sources, p: set<Out>, test: Expr, body: Block, orelse: Block)
    ensures ThenEach(Views(p), t => RunsBlock(src, body, t) + RunsBlock(src, orelse, t))
         == Views(Followed(p, n => BlockEffects(src, body, n) + BlockEffects(src, orelse, n)))
    decreases If(test, body, orelse), 0
  {
    forall a | a in p
      ensures RunsBlock(src, body, ViewOut(a)) + RunsBlock(src, orelse, ViewOut(a))
           == Views(BlockEffects(src, body, a.env) + BlockEffects(src, orelse, a.env))
    {
      StateOfView(a);
      SameBlock(src, body, a.env, ViewOut(a));
      SameBlock(src, orelse, a.env, ViewOut(a));
      ViewsOfTwo(BlockEffects(src, body, a.env), BlockEffects(src, orelse, a.env));
    }
    FollowedViews(p, n => BlockEffects(src, body, n) + BlockEffects(src, orelse, n),
                  t => RunsBlock(src, body, t) + RunsBlock(src, orelse, t));
  }

  lemma {:induction false} SameBlockAfter(src: Sources, p: set<Out>, b: Block)
    ensures ThenEach(Views(p), t => RunsBlock(src, b, t)) == Views(Followed(p, n => BlockEffects(src, b, n)))
    decreases b, 2
  {
    forall a | a in p ensures RunsBlock(src, b, ViewOut(a)) == Views(BlockEffects(src, b, a.env)) {
      StateOfView(a);
      SameBlock(src, b, a.env, ViewOut(a));
    }
    FollowedViews(p, n => BlockEffects(src, b, n), t => RunsBlock(src, b, t));
  }

  lemma {:induction false} SameBlock(src: Sources, b: Block, env: Names, s: Facts)
    requires State(s) == View(env)
    ensures RunsBlock(src, b, s) == Views(BlockEffects(src, b, env))
    decreases b, 1
  {
    match b
    case BNil =>
      StartView(env);
      ViewsOfOne(Start(env));
    case BCons(head, tail) =>
      SameEffects(src, head, env, s);
      SameBlockAfter(src, Effects(src, head, env), tail);
  }

  lemma {:induction false} SameItems(src: Sources, items: Items, env: Names, s: Facts)
    requires State(s) == View(env)
    ensures RunsItems(src, items, s) == Views(ItemEffects(src, items, env))
    decreases items, 1
  {
    match items
    case INil =>
      StartView(env);
      ViewsOfOne(Start(env));
    case ICons(expr, targets, tail) =>
      SameRuns(src, expr, env, s);
      SameStoring(Outcomes(src, expr, env), targets);
      SameItemsAfter(src, Changed(Outcomes(src, expr, env), a => Quiet(Storing(a, targets))), tail);
  }

  lemma {:induction false} SameItemsAfter(src: Sources, p: set<Out>, items: Items)
    ensures ThenEach(Views(p), t => RunsItems(src, items, t)) == Views(Followed(p, n => ItemEffects(src, items, n)))
    decreases items, 2
  {
    forall a | a in p ensures RunsItems(src, items, ViewOut(a)) == Views(ItemEffects(src, items, a.env)) {
      StateOfView(a);
      SameItems(src, items, a.env, ViewOut(a));
    }
    FollowedViews(p, n => ItemEffects(src, items, n), t => RunsItems(src, items, t));
  }

  /** The analysis knows a fact at the end of a scope exactly when the interpreter can end with it. */
  lemma AnalysisIsInterpretation(src: Sources, body: Block, initial: Names, fact: Fact)
    ensures fact in ExecBlock(src, body, View(initial))
       <==> exists out :: out in BlockEffects(src, body, initial) && Tells(out, fact)
  {
    AnalysisIsUnionOfRuns(src, body, View(initial), fact);
    SameBlock(src, body, initial, View(initial));
    if out :| out in BlockEffects(src, body, initial) && Tells(out, fact) {
      InViewOut(out, fact);
      assert ViewOut(out) in RunsBlock(src, body, View(initial));
    }
    if run :| run in RunsBlock(src, body, View(initial)) && fact in run {
      var out :| out in BlockEffects(src, body, initial) && run == ViewOut(out);
      InViewOut(out, fact);
    }
  }

  lemma SomeRunExists(src: Sources, body: Block, initial: Names)
    ensures BlockEffects(src, body, initial) != {}
  {
    BlockIsUnion(src, body, View(initial));
    SameBlock(src, body, initial, View(initial));
    var run :| run in RunsBlock(src, body, View(initial));
  }
}
