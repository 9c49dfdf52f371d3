/** A reachable state in which the log's discovery event contradicts the decision in force. */
module DiscoveryExample {
  import opened History
  import opened Text
  import opened PersistedState
  import opened VerdictTables
  import opened VerdictStore
  import opened VerdictInvariants
  import opened VerdictRuns

  function Wheel(filename: string): Discovery {
    Discovery(7, 1, 0, Release("s", "p", "1", filename, 7, "o", 0))
  }

  const AT := Env(1, 0, true)

  lemma OneLetter(s: string)
    requires s in {"s", "p", "1", "f", "g", "o", "w"}
    ensures StoredText(s) && AuditText(s, 4096)
  {
    assert !IsSpace(s[0]);
    assert s[1..] == "";
  }

  lemma WheelAccepted(filename: string)
    requires filename in {"f", "g"}
    ensures DiscoveryAccepted(Wheel(filename))
  {
    OneLetter("s");
    OneLetter("p");
    OneLetter("1");
    OneLetter(filename);
    OneLetter("o");
  }

  const CLAIM := Claim(7, 1, "w", 2, 0)
  const VERDICT := VerdictInput(7, Verdict(Allow, Finite(0.0), "p", "p", None, None, 1), None)

  lemma FirstDiscovery() returns (db: Db)
    ensures Inv(db) && db.releases == [Wheel("f").release]
    ensures db.artifacts == map[7 := NewArtifact(1, 0)]
    ensures db == Next(EMPTY, AT, DoDiscover(Wheel("f")))
  {
    EmptySound();
    WheelAccepted("f");
    DiscoverTransacts(EMPTY, AT, Wheel("f"));
    db := Discover(EMPTY, AT, Wheel("f")).db;
  }

  lemma Claimable(found: Db)
    requires found.artifacts == map[7 := NewArtifact(1, 0)]
    ensures ClaimNext(found, AT, "w", 2).Done? && ClaimNext(found, AT, "w", 2).value == Some(CLAIM)
  {
    OneLetter("w");
    assert Ready(found) == map[7 := 0];
    assert 7 in Ready(found);
    assert Earliest(Ready(found)) in Ready(found);
  }

  lemma ClaimedRows(found: Db)
    requires ClaimNext(found, AT, "w", 2).Done? && ClaimNext(found, AT, "w", 2).value == Some(CLAIM)
    requires found.artifacts == map[7 := NewArtifact(1, 0)]
    ensures var db := ClaimNext(found, AT, "w", 2).db;
            db.releases == found.releases && Holds(db, CLAIM, 1)
  {}

  lemma FirstClaim(found: Db) returns (db: Db)
    requires Inv(found) && found.releases == [Wheel("f").release] && found.artifacts == map[7 := NewArtifact(1, 0)]
    ensures Inv(db) && db.releases == [Wheel("f").release] && Holds(db, CLAIM, 1)
    ensures db == Next(found, AT, DoClaim("w", 2))
  {
    Claimable(found);
    ClaimedRows(found);
    ClaimTransacts(found, AT, "w", 2);
    db := ClaimNext(found, AT, "w", 2).db;
  }

  lemma VerdictFits()
    ensures ClaimAccepted(CLAIM) && VerdictAccepted(VERDICT) && EventAccepted(RecordedEvent(VERDICT, 1))
  {
    OneLetter("w");
    OneLetter("p");
  }

  lemma Judged(leased: Db)
    requires Inv(leased) && Holds(leased, CLAIM, 1)
    ensures |Currents(leased.verdicts, 7)| <= 1
    ensures RecordVerdict(leased, AT, CLAIM, VERDICT, []).Done?
  {
    VerdictFits();
    AtMostOne(leased.verdicts, 7);
  }

  lemma JudgedRows(leased: Db)
    requires RecordVerdict(leased, AT, CLAIM, VERDICT, []).Done?
    ensures var db := RecordVerdict(leased, AT, CLAIM, VERDICT, []).db;
            db.releases == leased.releases && 7 in db.artifacts && db.artifacts[7].size == 1
  {}

  lemma JudgedAllows(leased: Db)
    requires Inv(leased) && RecordVerdict(leased, AT, CLAIM, VERDICT, []).Done?
    ensures var db := RecordVerdict(leased, AT, CLAIM, VERDICT, []).db; Inv(db) && Effective(db, 7, 1) == Allow
  {
    RecordTransacts(leased, AT, CLAIM, VERDICT, []);
  }

  lemma Allowed(leased: Db) returns (db: Db)
    requires Inv(leased) && leased.releases == [Wheel("f").release] && Holds(leased, CLAIM, 1)
    ensures Inv(db) && db.releases == [Wheel("f").release]
    ensures 7 in db.artifacts && db.artifacts[7].size == 1 && Effective(db, 7, 1) == Allow
    ensures db == Next(leased, AT, DoRecord(CLAIM, VERDICT, []))
  {
    Judged(leased);
    JudgedRows(leased);
    JudgedAllows(leased);
    db := RecordVerdict(leased, AT, CLAIM, VERDICT, []).db;
  }

  lemma ThreeSteps(w: World, a: Step, b: Step, c: Step)
    ensures Run(w, [a, b, c])
            == Advance(Advance(Advance(w, a.env, a.command), b.env, b.command), c.env, c.command)
    ensures FreshRun(w, [a, b, c]) <==>
              var first := Advance(w, a.env, a.command);
              && FreshToken(w, a.env, a.command) && FreshToken(first, b.env, b.command)
              && FreshToken(Advance(first, b.env, b.command), c.env, c.command)
  {
    assert [a, b, c][1..] == [b, c] && [b, c][1..] == [c] && [c][1..] == [];
    var second := Advance(Advance(w, a.env, a.command), b.env, b.command);
    assert Run(second, [c]) == Run(Advance(second, c.env, c.command), []);
    assert FreshRun(second, [c]) == FreshToken(second, c.env, c.command);
  }

  lemma Misleads(db: Db)
    requires Inv(db) && db.releases == [Wheel("f").release]
    requires 7 in db.artifacts && db.artifacts[7].size == 1 && Effective(db, 7, 1) == Allow
    ensures Discover(db, AT, Wheel("g")).Done? && !LogsTruth(db, Discover(db, AT, Wheel("g")).db, 1)
  {
    WheelAccepted("g");
    assert FindRelease(db.releases, Wheel("g").release) == None;
    DiscoveryTruthExactly(db, AT, Wheel("g"));
  }

  /** A run from the empty store after which discovering a second release of the allowed artifact
      logs DENY to DENY. */
  lemma DiscoveryCanMislead() returns (steps: seq<Step>)
    ensures FreshRun(START, steps)
    ensures var db := Run(START, steps).db;
            Discover(db, AT, Wheel("g")).Done? && !LogsTruth(db, Discover(db, AT, Wheel("g")).db, 1)
  {
    var a, b, c := Step(AT, DoDiscover(Wheel("f"))), Step(AT, DoClaim("w", 2)), Step(AT, DoRecord(CLAIM, VERDICT, []));
    steps := [a, b, c];
    ThreeSteps(START, a, b, c);
    var found := FirstDiscovery();
    var leased := FirstClaim(found);
    var allowed := Allowed(leased);
    Misleads(allowed);
  }
}
