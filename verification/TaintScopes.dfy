/** What a caller gets: for each network call of the scope, exactly the origins that some single
    run of the plain interpreter passes to it. */
module TaintScopes {
  import opened TaintModel
  import opened TaintAnalyzer
  import opened TaintAgreement
  import opened TaintSemantics

  /** In some run, some argument of the call has the origin. */
  ghost predicate SomeRunPasses(src: Sources, body: Block, initial: Names, call: NodeId, o: Origin) {
    exists out, i :: out in BlockEffects(src, body, initial) && Passed(call, i, o) in out.log
  }

  /** In some run, the name has the origin at the end. */
  ghost predicate SomeRunLeaves(src: Sources, body: Block, initial: Names, name: string, o: Origin) {
    exists out :: out in BlockEffects(src, body, initial) && o in Look(out.env, name)
  }

  method AnalyzeScope(src: Sources, network: set<NodeId>, initial: Names, body: Block)
    returns (sinks: map<NodeId, set<Origin>>, names: Names)
    requires OnceIn(body)
    ensures sinks.Keys == CallsIn(body) * network
    ensures forall c, o | c in sinks :: o in sinks[c] <==> SomeRunPasses(src, body, initial, c, o)
    ensures forall n, o :: o in Look(names, n) <==> SomeRunLeaves(src, body, initial, n, o)
  {
    var analyzer := new Analyzer(src, network, initial);
    assert Recorded(map[], []) == {};
    analyzer.Run(body);
    sinks, names := analyzer.sinkOrigins, analyzer.state;
    forall c, o | c in sinks ensures o in sinks[c] <==> SomeRunPasses(src, body, initial, c, o) {
      SinkIsUnion(src, initial, body, analyzer.callArguments, analyzer.returned, names, c, o);
    }
    forall n, o ensures o in Look(names, n) <==> SomeRunLeaves(src, body, initial, n, o) {
      LeftByUnion(src, initial, body, analyzer.callArguments, analyzer.returned, names, n, o);
    }
  }

  lemma LeftByUnion(src: Sources, initial: Names, body: Block,
                    calls: map<NodeId, seq<set<Origin>>>, returned: seq<set<Origin>>, names: Names, n: string,
                    o: Origin)
    requires View(names) + Recorded(calls, returned) == ExecBlock(src, body, View(initial))
    ensures o in Look(names, n) <==> SomeRunLeaves(src, body, initial, n, o)
  {
    InView(names, Fact(Name(n), o));
    assert Fact(Name(n), o) in View(names) <==> Fact(Name(n), o) in View(names) + Recorded(calls, returned);
    AnalysisIsInterpretation(src, body, initial, Fact(Name(n), o));
    if SomeRunLeaves(src, body, initial, n, o) {
      var out :| out in BlockEffects(src, body, initial) && o in Look(out.env, n);
      assert Tells(out, Fact(Name(n), o));
    }
  }

  lemma InRecorded(names: Names, calls: map<NodeId, seq<set<Origin>>>, returned: seq<set<Origin>>, c: NodeId, i: nat,
                   o: Origin)
    ensures Fact(Argument(c, i), o) in View(names) + Recorded(calls, returned)
       <==> c in calls && i < |calls[c]| && o in calls[c][i]
  {}

  lemma PassedBySome(src: Sources, body: Block, initial: Names, c: NodeId, i: nat, o: Origin)
    ensures Fact(Argument(c, i), o) in ExecBlock(src, body, View(initial))
       <==> exists out :: out in BlockEffects(src, body, initial) && Passed(c, i, o) in out.log
  {
    var fact := Fact(Argument(c, i), o);
    AnalysisIsInterpretation(src, body, initial, fact);
    assert forall out :: Tells(out, fact) <==> Passed(c, i, o) in out.log;
  }

  lemma SinkIsUnion(src: Sources, initial: Names, body: Block,
                    calls: map<NodeId, seq<set<Origin>>>, returned: seq<set<Origin>>, names: Names, c: NodeId,
                    o: Origin)
    requires c in calls && View(names) + Recorded(calls, returned) == ExecBlock(src, body, View(initial))
    ensures o in All(calls[c]) <==> SomeRunPasses(src, body, initial, c, o)
  {
    forall i: nat
      ensures (i < |calls[c]| && o in calls[c][i])
         <==> exists out :: out in BlockEffects(src, body, initial) && Passed(c, i, o) in out.log
    {
      InRecorded(names, calls, returned, c, i, o);
      PassedBySome(src, body, initial, c, i, o);
    }
  }
}
