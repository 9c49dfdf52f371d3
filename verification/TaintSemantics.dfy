/** A plain interpreter of single runs for what the taint analysis looks at: environments that map
    names to origins, assignments that overwrite name by name, and a log of what was passed to which
    call.  Nothing here is shared with the analysis but the syntax. */
module TaintSemantics {
  import opened History
  import opened TaintModel

  function Look(env: Names, name: string): set<Origin> {
    if name in env then env[name] else {}
  }

  datatype Passed = Passed(call: NodeId, index: nat, origin: Origin)

  /** The origins of the value at hand, the names afterwards, what was passed and what was returned. */
  datatype Out = Out(value: set<Origin>, env: Names, log: set<Passed>, returned: set<Origin>)

  function Start(env: Names): Out {
    Out({}, env, {}, {})
  }

  /** First a, then b, which starts with the names as a leaves them. */
  function Joined(a: Out, b: Out): Out {
    Out(a.value + b.value, b.env, a.log + b.log, a.returned + b.returned)
  }

  ghost function Followed(p: set<Out>, g: Names -> set<Out>): set<Out> {
    set a, b | a in p && b in g(a.env) :: Joined(a, b)
  }

  ghost function Changed(p: set<Out>, h: Out -> Out): set<Out> {
    set a | a in p :: h(a)
  }

  // ----- what is done with a value -----

  function Quiet(a: Out): Out {
    a.(value := {})
  }

  /** The credentials read at a node. */
  function ReadAt(src: Sources, node: NodeId): set<Origin> {
    if node in src then src[node] else {}
  }

  function Adding(a: Out, more: set<Origin>): Out {
    a.(value := a.value + more)
  }

  function Naming(a: Out, name: string): Out {
    a.(env := a.env[name := a.value])
  }

  function Logged(a: Out, call: Option<NodeId>, index: nat): Out {
    match call
    case None => a
    case Some(c) => a.(log := a.log + set o | o in a.value :: Passed(c, index, o))
  }

  function Giving(a: Out): Out {
    a.(value := {}, returned := a.returned + a.value)
  }

  /** Overwriting name by name, from left to right and into tuples. */
  function Stored(t: Target, value: set<Origin>, env: Names): Names {
    match t
    case TName(name) => env[name := value]
    case TTuple(elts) => StoredAll(elts, value, env)
    case TOther(_) => env
  }

  function StoredAll(ts: Targets, value: set<Origin>, env: Names): Names {
    match ts
    case TNil => env
    case TCons(head, tail) => StoredAll(tail, value, Stored(head, value, env))
  }

  function Storing(a: Out, ts: Targets): Out {
    a.(env := StoredAll(ts, a.value, a.env))
  }

  // ----- all the ways an expression, a statement, a block can go -----

  ghost function Outcomes(src: Sources, e: Expr, env: Names): set<Out>
    decreases e
  {
    match e
    case NameRef(node, name, load) =>
      {Out(if load then ReadAt(src, node) + Look(env, name) else ReadAt(src, node), env, {}, {})}
    case Call(node, func, args) =>
      Changed(Followed(Outcomes(src, func, env), n => ListOutcomes(src, args, Some(node), 0, n)),
              a => Adding(a, ReadAt(src, node)))
    case Walrus(name, value) => Changed(Outcomes(src, value, env), a => Naming(a, name))
    case Chain(first, rest) => Followed(Outcomes(src, first, env), n => SomeOutcomes(src, rest, n))
    case Conditional(test, body, orelse) =>
      Followed(Outcomes(src, test, env), n => Outcomes(src, body, n) + Outcomes(src, orelse, n))
    case Other(node, children) => Changed(ListOutcomes(src, children, None, 0, env), a => Adding(a, ReadAt(src, node)))
  }

  /** One after the other, each logged when they are the arguments of a call. */
  ghost function ListOutcomes(src: Sources, es: Exprs, call: Option<NodeId>, index: nat, env: Names): set<Out>
    decreases es
  {
    match es
    case ENil => {Start(env)}
    case ECons(head, tail) =>
      Followed(Changed(Outcomes(src, head, env), a => Logged(a, call, index)),
               n => ListOutcomes(src, tail, call, index + 1, n))
  }

  /** As many operands as it takes: and/or and comparisons can be decided before any further one. */
  ghost function SomeOutcomes(src: Sources, es: Exprs, env: Names): set<Out>
    decreases es
  {
    match es
    case ENil => {Start(env)}
    case ECons(head, tail) => {Start(env)} + Followed(Outcomes(src, head, env), n => SomeOutcomes(src, tail, n))
  }

  /** Of the targets only attributes and subscripts are evaluated, and none inside a tuple. */
  ghost function PlaceOutcomes(src: Sources, ts: Targets, env: Names): set<Out>
    decreases ts
  {
    match ts
    case TNil => {Start(env)}
    case TCons(head, tail) =>
      if head.TOther? then
        Followed(Changed(Outcomes(src, head.expr, env), Quiet), n => PlaceOutcomes(src, tail, n))
      else PlaceOutcomes(src, tail, env)
  }

  ghost function Effects(src: Sources, st: Stmt, env: Names): set<Out>
    decreases st
  {
    match st
    case Assign(values, targets) =>
      Changed(Followed(ListOutcomes(src, values, None, 0, env), n => PlaceOutcomes(src, targets, n)),
              a => Quiet(Storing(a, targets)))
    case AugName(name, value) =>
      Changed(Outcomes(src, value, env), a => Quiet(Naming(Adding(a, Look(env, name)), name)))
    case AugPlace(place, value) =>
      Changed(Followed(Outcomes(src, value, env), n => Outcomes(src, place, n)), Quiet)
    case Unbind(names) => {Start(env - names)}
    case If(test, body, orelse) =>
      Followed(Changed(Outcomes(src, test, env), Quiet),
               n => BlockEffects(src, body, n) + BlockEffects(src, orelse, n))
    case With(items, body) => Followed(ItemEffects(src, items, env), n => BlockEffects(src, body, n))
    case Evaluate(expr) => Changed(Outcomes(src, expr, env), Quiet)
    case Return(values) => Changed(ListOutcomes(src, values, None, 0, env), Giving)
  }

  /** The statements after a return are gone through as well. */
  ghost function BlockEffects(src: Sources, b: Block, env: Names): set<Out>
    decreases b
  {
    match b
    case BNil => {Start(env)}
    case BCons(head, tail) => Followed(Effects(src, head, env), n => BlockEffects(src, tail, n))
  }

  ghost function ItemEffects(src: Sources, items: Items, env: Names): set<Out>
    decreases items
  {
    match items
    case INil => {Start(env)}
    case ICons(expr, targets, tail) =>
      Followed(Changed(Outcomes(src, expr, env), a => Quiet(Storing(a, targets))), n => ItemEffects(src, tail, n))
  }

  // ----- which names an assignment overwrites -----

  function Count(ts: Targets): nat {
    match ts case TNil => 0 case TCons(_, tail) => 1 + Count(tail)
  }

  function Nth(ts: Targets, i: nat): (t: Target)
    requires i < Count(ts)
    ensures t < ts
  {
    if i == 0 then ts.head else Nth(ts.tail, i - 1)
  }

  /** Following the positions leads through tuples to the name. */
  predicate OccursAt(name: string, t: Target, path: seq<nat>)
    decreases path
  {
    if path == [] then t == TName(name)
    else t.TTuple? && path[0] < Count(t.elts) && OccursAt(name, Nth(t.elts, path[0]), path[1..])
  }

  ghost predicate Occurs(name: string, t: Target) {
    exists path :: OccursAt(name, t, path)
  }

  ghost predicate OccursIn(name: string, ts: Targets) {
    exists i: nat :: i < Count(ts) && Occurs(name, Nth(ts, i))
  }

  lemma {:induction false} OccursExactly(name: string, t: Target)
    ensures Occurs(name, t) <==> name in TargetNames(t)
    decreases t, 1
  {
    match t
    case TName(n) =>
      if n == name { assert OccursAt(name, t, []); }
      if path :| OccursAt(name, t, path) { assert path == []; }
    case TTuple(elts) =>
      OccursInExactly(name, elts);
      if OccursIn(name, elts) {
        var i: nat :| i < Count(elts) && Occurs(name, Nth(elts, i));
        var path :| OccursAt(name, Nth(elts, i), path);
        assert ([i] + path)[1..] == path;
        assert OccursAt(name, t, [i] + path);
      }
      if path :| OccursAt(name, t, path) { assert OccursAt(name, Nth(elts, path[0]), path[1..]); }
    case TOther(_) =>
  }

  lemma {:induction false} OccursInExactly(name: string, ts: Targets)
    ensures OccursIn(name, ts) <==> name in AllTargetNames(ts)
    decreases ts, 0
  {
    match ts
    case TNil =>
    case TCons(head, tail) =>
      OccursExactly(name, head);
      OccursInExactly(name, tail);
      if Occurs(name, head) { assert Occurs(name, Nth(ts, 0)); }
      if OccursIn(name, tail) {
        var i: nat :| i < Count(tail) && Occurs(name, Nth(tail, i));
        assert Nth(ts, i + 1) == Nth(tail, i);
      }
      if OccursIn(name, ts) {
        var i: nat :| i < Count(ts) && Occurs(name, Nth(ts, i));
        if i > 0 { assert Nth(ts, i) == Nth(tail, i - 1); }
      }
  }

  lemma {:induction false} StoredNames(t: Target, value: set<Origin>, env: Names, name: string)
    ensures Look(Stored(t, value, env), name) == if name in TargetNames(t) then value else Look(env, name)
    decreases t
  {
    match t
    case TName(_) =>
    case TTuple(elts) => StoredAllNames(elts, value, env, name);
    case TOther(_) =>
  }

  lemma {:induction false} StoredAllNames(ts: Targets, value: set<Origin>, env: Names, name: string)
    ensures Look(StoredAll(ts, value, env), name) == if name in AllTargetNames(ts) then value else Look(env, name)
    decreases ts
  {
    match ts
    case TNil =>
    case TCons(head, tail) =>
      StoredNames(head, value, env, name);
      StoredAllNames(tail, value, Stored(head, value, env), name);
  }

  // ----- what an assignment leaves -----

  predicate BoundIn(name: string, e: Expr)
    decreases e
  {
    match e
    case NameRef(_, _, _) => false
    case Call(_, func, args) => BoundIn(name, func) || BoundInAny(name, args)
    case Walrus(n, value) => n == name || BoundIn(name, value)
    case Chain(first, rest) => BoundIn(name, first) || BoundInAny(name, rest)
    case Conditional(test, body, orelse) => BoundIn(name, test) || BoundIn(name, body) || BoundIn(name, orelse)
    case Other(_, children) => BoundInAny(name, children)
  }

  predicate BoundInAny(name: string, es: Exprs)
    decreases es
  {
    match es
    case ENil => false
    case ECons(head, tail) => BoundIn(name, head) || BoundInAny(name, tail)
  }

  predicate BoundInPlaces(name: string, ts: Targets)
    decreases ts
  {
    match ts
    case TNil => false
    case TCons(head, tail) => (head.TOther? && BoundIn(name, head.expr)) || BoundInPlaces(name, tail)
  }

  ghost predicate Keep(p: set<Out>, name: string, value: set<Origin>) {
    forall a :: a in p ==> Look(a.env, name) == value
  }

  lemma FollowedKeeps(p: set<Out>, g: Names -> set<Out>, name: string, value: set<Origin>)
    requires forall a :: a in p ==> Keep(g(a.env), name, value)
    ensures Keep(Followed(p, g), name, value)
  {}

  lemma {:induction false} OutcomesKeep(src: Sources, e: Expr, env: Names, name: string)
    requires !BoundIn(name, e)
    ensures Keep(Outcomes(src, e, env), name, Look(env, name))
    decreases e
  {
    match e
    case NameRef(_, _, _) =>
    case Call(node, func, args) =>
      OutcomesKeep(src, func, env, name);
      forall a | a in Outcomes(src, func, env)
        ensures Keep(ListOutcomes(src, args, Some(node), 0, a.env), name, Look(env, name))
      {
        ListKeeps(src, args, Some(node), 0, a.env, name);
      }
      FollowedKeeps(Outcomes(src, func, env), n => ListOutcomes(src, args, Some(node), 0, n), name, Look(env, name));
    case Walrus(_, value) => OutcomesKeep(src, value, env, name);
    case Chain(first, rest) =>
      OutcomesKeep(src, first, env, name);
      forall a | a in Outcomes(src, first, env) ensures Keep(SomeOutcomes(src, rest, a.env), name, Look(env, name)) {
        SomeKeep(src, rest, a.env, name);
      }
      FollowedKeeps(Outcomes(src, first, env), n => SomeOutcomes(src, rest, n), name, Look(env, name));
    case Conditional(test, body, orelse) =>
      OutcomesKeep(src, test, env, name);
      forall a | a in Outcomes(src, test, env)
        ensures Keep(Outcomes(src, body, a.env) + Outcomes(src, orelse, a.env), name, Look(env, name))
      {
        OutcomesKeep(src, body, a.env, name);
        OutcomesKeep(src, orelse, a.env, name);
      }
      FollowedKeeps(Outcomes(src, test, env), n => Outcomes(src, body, n) + Outcomes(src, orelse, n), name,
                    Look(env, name));
    case Other(node, children) => ListKeeps(src, children, None, 0, env, name);
  }

  lemma {:induction false} ListKeeps(src: Sources, es: Exprs, call: Option<NodeId>, index: nat, env: Names,
                                     name: string)
    requires !BoundInAny(name, es)
    ensures Keep(ListOutcomes(src, es, call, index, env), name, Look(env, name))
    decreases es
  {
    match es
    case ENil =>
    case ECons(head, tail) =>
      OutcomesKeep(src, head, env, name);
      var p := Changed(Outcomes(src, head, env), a => Logged(a, call, index));
      forall a | a in p ensures Keep(ListOutcomes(src, tail, call, index + 1, a.env), name, Look(env, name)) {
        ListKeeps(src, tail, call, index + 1, a.env, name);
      }
      FollowedKeeps(p, n => ListOutcomes(src, tail, call, index + 1, n), name, Look(env, name));
  }

  lemma {:induction false} SomeKeep(src: Sources, es: Exprs, env: Names, name: string)
    requires !BoundInAny(name, es)
    ensures Keep(SomeOutcomes(src, es, env), name, Look(env, name))
    decreases es
  {
    match es
    case ENil =>
    case ECons(head, tail) =>
      OutcomesKeep(src, head, env, name);
      forall a | a in Outcomes(src, head, env) ensures Keep(SomeOutcomes(src, tail, a.env), name, Look(env, name)) {
        SomeKeep(src, tail, a.env, name);
      }
      FollowedKeeps(Outcomes(src, head, env), n => SomeOutcomes(src, tail, n), name, Look(env, name));
  }

  lemma {:induction false} PlacesKeep(src: Sources, ts: Targets, env: Names, name: string)
    requires !BoundInPlaces(name, ts)
    ensures Keep(PlaceOutcomes(src, ts, env), name, Look(env, name))
    decreases ts
  {
    match ts
    case TNil =>
    case TCons(head, tail) =>
      if head.TOther? {
        OutcomesKeep(src, head.expr, env, name);
        var p := Changed(Outcomes(src, head.expr, env), Quiet);
        forall a | a in p ensures Keep(PlaceOutcomes(src, tail, a.env), name, Look(env, name)) {
          PlacesKeep(src, tail, a.env, name);
        }
        FollowedKeeps(p, n => PlaceOutcomes(src, tail, n), name, Look(env, name));
      } else {
        PlacesKeep(src, tail, env, name);
      }
  }

  lemma {:induction false} PlacesValueless(src: Sources, ts: Targets, env: Names, out: Out)
    requires out in PlaceOutcomes(src, ts, env)
    ensures out.value == {}
    decreases ts
  {
    match ts
    case TNil =>
    case TCons(head, tail) =>
      if head.TOther? {
        var p := Changed(Outcomes(src, head.expr, env), Quiet);
        var a, b :| a in p && b in PlaceOutcomes(src, tail, a.env) && out == Joined(a, b);
        PlacesValueless(src, tail, a.env, b);
      } else {
        PlacesValueless(src, tail, env, out);
      }
  }

  lemma ChangedFrom(p: set<Out>, h: Out -> Out, out: Out) returns (a: Out)
    requires out in Changed(p, h)
    ensures a in p && out == h(a)
  {
    a :| a in p && out == h(a);
  }

  lemma FollowedFrom(p: set<Out>, g: Names -> set<Out>, out: Out) returns (a: Out, b: Out)
    requires out in Followed(p, g)
    ensures a in p && b in g(a.env) && out == Joined(a, b)
  {
    a, b :| a in p && b in g(a.env) && out == Joined(a, b);
  }

  lemma AssignParts(src: Sources, vs: set<Out>, targets: Targets, out: Out) returns (v: Out, t: Out)
    requires out in Changed(Followed(vs, n => PlaceOutcomes(src, targets, n)), a => Quiet(Storing(a, targets)))
    ensures v in vs && t in PlaceOutcomes(src, targets, v.env) && out.env == StoredAll(targets, v.value, t.env)
  {
    var b := ChangedFrom(Followed(vs, n => PlaceOutcomes(src, targets, n)), a => Quiet(Storing(a, targets)), out);
    v, t := FollowedFrom(vs, n => PlaceOutcomes(src, targets, n), b);
    PlacesValueless(src, targets, v.env, t);
    StoredJoined(v, t, targets);
  }

  lemma StoredJoined(v: Out, t: Out, targets: Targets)
    requires t.value == {}
    ensures Quiet(Storing(Joined(v, t), targets)).env == StoredAll(targets, v.value, t.env)
  {
    assert v.value + t.value == v.value;
  }

  lemma NameAfter(src: Sources, values: Exprs, targets: Targets, env: Names, v: Out, t: Out, name: string)
    requires v in ListOutcomes(src, values, None, 0, env) && t in PlaceOutcomes(src, targets, v.env)
    ensures OccursIn(name, targets) ==> Look(StoredAll(targets, v.value, t.env), name) == v.value
    ensures !OccursIn(name, targets) && !BoundInAny(name, values) && !BoundInPlaces(name, targets)
        ==> Look(StoredAll(targets, v.value, t.env), name) == Look(env, name)
  {
    StoredAllNames(targets, v.value, t.env, name);
    OccursInExactly(name, targets);
    if !BoundInAny(name, values) && !BoundInPlaces(name, targets) {
      ListKeeps(src, values, None, 0, env, name);
      PlacesKeep(src, targets, v.env, name);
    }
  }

  lemma NamesAfter(src: Sources, values: Exprs, targets: Targets, env: Names, v: Out, t: Out)
    requires v in ListOutcomes(src, values, None, 0, env) && t in PlaceOutcomes(src, targets, v.env)
    ensures var after := StoredAll(targets, v.value, t.env);
            forall name ::
              && (OccursIn(name, targets) ==> Look(after, name) == v.value)
              && (!OccursIn(name, targets) && !BoundInAny(name, values) && !BoundInPlaces(name, targets)
                  ==> Look(after, name) == Look(env, name))
  {
    var after := StoredAll(targets, v.value, t.env);
    forall name
      ensures OccursIn(name, targets) ==> Look(after, name) == v.value
      ensures !OccursIn(name, targets) && !BoundInAny(name, values) && !BoundInPlaces(name, targets)
          ==> Look(after, name) == Look(env, name)
    {
      NameAfter(src, values, targets, env, v, t, name);
    }
  }

  lemma AssignUnfolds(src: Sources, values: Exprs, targets: Targets, env: Names)
    ensures Effects(src, Assign(values, targets), env)
         == Changed(Followed(ListOutcomes(src, values, None, 0, env), n => PlaceOutcomes(src, targets, n)),
                    a => Quiet(Storing(a, targets)))
  {}

  /** After an assignment every name that occurs in the targets has exactly the origins of the value,
      and every other name what it had, unless := in an evaluated part rebinds it. */
  lemma AssignExactly(src: Sources, values: Exprs, targets: Targets, env: Names, out: Out) returns (v: Out)
    requires out in Effects(src, Assign(values, targets), env)
    ensures v in ListOutcomes(src, values, None, 0, env)
    ensures forall name ::
              && (OccursIn(name, targets) ==> Look(out.env, name) == v.value)
              && (!OccursIn(name, targets) && !BoundInAny(name, values) && !BoundInPlaces(name, targets)
                  ==> Look(out.env, name) == Look(env, name))
  {
    AssignUnfolds(src, values, targets, env);
    var t;
    v, t := AssignParts(src, ListOutcomes(src, values, None, 0, env), targets, out);
    NamesAfter(src, values, targets, env, v, t);
  }
}
