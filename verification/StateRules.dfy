/** The persisted-state rule from the outside: which rows are corrupt, one defect after the other, and
    what the readers say about every digest of every database. */
module StateRules {
  import opened History
  import opened Text
  import opened PersistedState
  import opened VerdictTables
  import opened Gates
  import PercentCoding

  // ----- text -----

  /** The code points of white space. */
  const SPACES: seq<int> :=
    [9, 10, 11, 12, 13, 28, 29, 30, 31, 32, 0x85, 0xA0, 0x1680, 0x2000, 0x2001, 0x2002, 0x2003, 0x2004, 0x2005, 0x2006,
     0x2007, 0x2008, 0x2009, 0x200A, 0x2028, 0x2029, 0x202F, 0x205F, 0x3000]

  predicate Blank(s: string) {
    forall c :: c in s ==> c as int in SPACES
  }

  lemma SpaceListed(c: char)
    requires IsSpace(c)
    ensures c as int in SPACES
  {
    var n := c as int;
    if 9 <= n <= 13 { assert SPACES[n - 9] == n; }
    else if 28 <= n <= 32 { assert SPACES[n - 23] == n; }
    else if 0x2000 <= n <= 0x200A { assert SPACES[n - 0x2000 + 13] == n; }
    else if n < 0x2000 { assert SPACES[10] == 0x85 && SPACES[11] == 0xA0 && SPACES[12] == 0x1680; }
    else { assert SPACES[24] == 0x2028 && SPACES[25] == 0x2029 && SPACES[26] == 0x202F && SPACES[27] == 0x205F
               && SPACES[28] == 0x3000; }
  }

  lemma ListedIsSpace(c: char)
    requires c as int in SPACES
    ensures IsSpace(c)
  {}

  lemma SpaceExactly(c: char)
    ensures IsSpace(c) <==> c as int in SPACES
  {
    if IsSpace(c) { SpaceListed(c); }
    if c as int in SPACES { ListedIsSpace(c); }
  }

  lemma BlankExactly(s: string)
    ensures NonBlank(s) <==> !Blank(s)
  {
    if NonBlank(s) {
      var i :| 0 <= i < |s| && !IsSpace(s[i]);
      SpaceExactly(s[i]);
      assert s[i] in s;
    }
    if !Blank(s) {
      var c :| c in s && c as int !in SPACES;
      SpaceExactly(c);
      var i :| 0 <= i < |s| && s[i] == c;
    }
  }

  predicate Unstorable(s: string) {
    |s| > 4096 || '\0' in s
  }

  lemma StorableExactly(s: string)
    ensures StoredText(s) <==> !Blank(s) && !Unstorable(s)
    ensures Storable(s) <==> !Unstorable(s)
  {
    BlankExactly(s);
  }

  /** What the audit log takes: at most so many octets of UTF-8, no control characters, not blank. */
  lemma AuditTextExactly(s: string, maximum: nat)
    ensures AuditText(s, maximum) <==>
              !Blank(s) && |PercentCoding.Utf8(s)| <= maximum
              && forall c :: c in s ==> 32 <= c as int < 127 || 160 <= c as int
  {
    BlankExactly(s);
    PercentCoding.Utf8Octets(s);
    if AuditText(s, maximum) {
      forall c | c in s ensures 32 <= c as int < 127 || 160 <= c as int {
        var i :| 0 <= i < |s| && s[i] == c;
        assert !IsControl(s[i]);
      }
    }
    if forall c :: c in s ==> 32 <= c as int < 127 || 160 <= c as int {
      forall i {:trigger IsControl(s[i])} | 0 <= i < |s| ensures !IsControl(s[i]) { assert s[i] in s; }
    }
  }

  // ----- corrupt rows -----

  predicate UnfitText(s: string) {
    Blank(s) || Unstorable(s)
  }

  /** Something is wrong with the artifact row alone. */
  predicate BadArtifact(a: Artifact) {
    || a.size < 0 || a.size >= 0x8000_0000_0000_0000
    || (a.state == Scanning && (a.leaseOwner == None || a.leaseExpiresAt == None || a.leaseToken == None))
    || (a.state == Scanning && a.leaseOwner.Some? && UnfitText(a.leaseOwner.value))
    || (a.state == Scanning && a.leaseExpiresAt.Some? && a.leaseExpiresAt.value <= a.updatedAt)
    || (a.state != Scanning && (a.leaseOwner.Some? || a.leaseExpiresAt.Some? || a.leaseToken.Some?))
    || (a.state == Errored && a.lastError == None)
    || (a.state == Errored && a.lastError.Some? && Unstorable(a.lastError.value))
    || (a.state != Errored && a.lastError.Some?)
    || (a.cooldownStartedAt == None && a.cooldownUntil.Some?) || (a.cooldownStartedAt.Some? && a.cooldownUntil == None)
    || (a.cooldownStartedAt.Some? && a.cooldownUntil.Some? && a.cooldownUntil.value <= a.cooldownStartedAt.value)
  }

  /** The current verdict is missing, ambiguous, unreadable or contradicts the artifact's state. */
  predicate BadVerdict(d: Digest, state: ArtifactState, found: Lookup<Verdict>) {
    || found.Several?
    || (found.Absent? && state.Judged?)
    || (found.One?
        && var v := found.row.data;
        || found.row.sha256 != d || !found.row.isCurrent
        || v.score.NotFinite? || UnfitText(v.policyVersion) || UnfitText(v.analyzerVersion)
        || (v.baselineTier.Some? && v.baseline == None)
        || (v.baselineTier.Some? && v.baselineTier.value !in ["same_tag", "universal_wheel", "sdist"])
        || (state.Judged? && state.verdict != v.decision))
  }

  predicate BadOverride(d: Digest, state: ArtifactState, found: Lookup<Override>) {
    || found.Several?
    || (found.One?
        && var o := found.row.data;
        || state == ArtifactState.Discovered || state == Scanning
        || found.row.sha256 != d || !found.row.isCurrent
        || o.decision == Review || UnfitText(o.actor) || UnfitText(o.reason)
        || (o.expiresAt.Some? && o.expiresAt.value <= o.createdAt))
  }

  lemma BadArtifactExactly(a: Artifact)
    ensures BadArtifact(a) <==> !ArtifactSound(a)
  {
    if a.leaseOwner.Some? { StorableExactly(a.leaseOwner.value); }
    if a.lastError.Some? { StorableExactly(a.lastError.value); }
  }

  lemma BadVerdictExactly(d: Digest, state: ArtifactState, found: Lookup<Verdict>)
    ensures BadVerdict(d, state, found) <==> !VerdictSound(d, state, found)
  {
    if found.One? {
      StorableExactly(found.row.data.policyVersion);
      StorableExactly(found.row.data.analyzerVersion);
    }
  }

  lemma BadOverrideExactly(d: Digest, state: ArtifactState, found: Lookup<Override>)
    ensures BadOverride(d, state, found) <==> !OverrideSound(d, state, found)
  {
    if found.One? {
      StorableExactly(found.row.data.actor);
      StorableExactly(found.row.data.reason);
    }
  }

  // ----- the decision -----

  predicate InForce(found: Lookup<Override>, asOf: Time) {
    found.One? && (found.row.data.expiresAt.Some? ==> asOf < found.row.data.expiresAt.value)
  }

  /** Rows are refused exactly for a defect; otherwise a manual decision in force wins, and without one
      only an artifact judged ALLOW is allowed. */
  lemma ValidateExactly(d: Digest, a: Artifact, verdict: Lookup<Verdict>, manual: Lookup<Override>, asOf: Time)
    ensures var r := Validate(d, a, verdict, manual, asOf);
            && (r == None <==> BadArtifact(a) || BadVerdict(d, a.state, verdict) || BadOverride(d, a.state, manual))
            && (r.Some? ==>
                  var c := r.value;
                  && c.state == a.state && c.cooldownUntil == a.cooldownUntil
                  && c.fallback == (if a.state == Judged(Allow) then Allow else Deny)
                  && c.effective == (if InForce(manual, asOf) then manual.row.data.decision else c.fallback)
                  && c.source == (if InForce(manual, asOf) then ManualOverride else Automated)
                  && (verdict.Absent? ==> c.policyVersion == None && c.analyzerVersion == None)
                  && (verdict.One? ==> c.policyVersion == Some(verdict.row.data.policyVersion)
                                       && c.analyzerVersion == Some(verdict.row.data.analyzerVersion))
                  && (c.cooldownFinished <==>
                        InForce(manual, asOf) || (a.cooldownUntil.Some? ==> a.cooldownUntil.value <= asOf)))
  {
    BadArtifactExactly(a);
    BadVerdictExactly(d, a.state, verdict);
    BadOverrideExactly(d, a.state, manual);
  }

  // ----- what the readers say -----

  predicate Unreadable(db: Db, d: Digest) {
    var verdict, manual := CurrentRow(db.verdicts, d), CurrentRow(db.overrides, d);
    || verdict.Several? || manual.Several?
    || (d in db.artifacts && (BadArtifact(db.artifacts[d]) || BadVerdict(d, db.artifacts[d].state, verdict)
                              || BadOverride(d, db.artifacts[d].state, manual)))
  }

  predicate IsUnknown(x: Decided, d: Digest) {
    && x.sha256 == d && !x.allowed && x.effective == Deny && x.source == Missing
    && x.state == None && x.policyVersion == None && x.cooldownUntil == None
  }

  /** What is said about an artifact with readable rows. */
  predicate Says(x: Decided, db: Db, d: Digest, asOf: Time)
    requires d in db.artifacts
  {
    var a, verdict, manual := db.artifacts[d], CurrentRow(db.verdicts, d), CurrentRow(db.overrides, d);
    var automated := if a.state == Judged(Allow) then Allow else Deny;
    && x.sha256 == d && x.state == Some(a.state) && x.cooldownUntil == a.cooldownUntil
    && x.policyVersion == (if verdict.One? then Some(verdict.row.data.policyVersion) else None)
    && (if InForce(manual, asOf) then
          && x.source == ManualOverride && x.effective == manual.row.data.decision && x.cooldownFinished
          && (x.allowed <==> manual.row.data.decision == Allow)
        else
          && x.source == Automated && x.effective == automated
          && (x.cooldownFinished <==> (a.cooldownUntil.Some? ==> a.cooldownUntil.value <= asOf))
          && (x.allowed <==> automated == Allow && x.cooldownFinished))
  }

  lemma RowsAreJoined(db: Db, d: Digest, asOf: Time)
    requires d in db.artifacts || CurrentRow(db.verdicts, d) != Absent || CurrentRow(db.overrides, d) != Absent
    ensures d in Joined(db, asOf)
  {
    var verdicts, overrides := Currents(db.verdicts, d), Currents(db.overrides, d);
    if verdicts != [] { assert db.verdicts[verdicts[0]].sha256 == d; }
    if overrides != [] { assert db.overrides[overrides[0]].sha256 == d; }
  }

  lemma DecidedAlone(db: Db, d: Digest, asOf: Time)
    ensures DecisionOf(db, d, asOf) == None <==> Unreadable(db, d)
    ensures DecisionOf(db, d, asOf).Some? ==>
              var x := DecisionOf(db, d, asOf).value;
              if d in db.artifacts then Says(x, db, d, asOf) else IsUnknown(x, d)
  {
    if d in db.artifacts {
      ValidateExactly(d, db.artifacts[d], CurrentRow(db.verdicts, d), CurrentRow(db.overrides, d), asOf);
    }
  }

  /** Over any database whatever: a lookup fails exactly for corrupt or ambiguous rows, and otherwise
      says exactly what the rows of the digest mean; a digest without an artifact is unknown. */
  lemma DecidedExactly(db: Db, d: Digest, asOf: Time)
    ensures Look(Joined(db, asOf), d) == None <==> Unreadable(db, d)
    ensures Look(Joined(db, asOf), d).Some? ==>
              var x := Look(Joined(db, asOf), d).value;
              if d in db.artifacts then Says(x, db, d, asOf) else IsUnknown(x, d)
  {
    DecidedAlone(db, d, asOf);
    if d in Joined(db, asOf) {
      assert Joined(db, asOf)[d] == DecisionOf(db, d, asOf);
    } else {
      if d in db.artifacts || CurrentRow(db.verdicts, d) != Absent || CurrentRow(db.overrides, d) != Absent {
        RowsAreJoined(db, d, asOf);
      }
    }
  }

  lemma MarkExactly(db: Db, d: Digest)
    ensures d in MarksOf(db) <==> CurrentRow(db.baselines, d) != Absent
    ensures d in MarksOf(db) ==>
              var mark := CurrentRow(db.baselines, d);
              MarksOf(db)[d] == if mark.One? then Some(mark.row.data.enabled) else None
  {
    var marks := Currents(db.baselines, d);
    if marks != [] { assert db.baselines[marks[0]].sha256 == d; }
  }

  /** Over any database, a mapping can be listed exactly when its artifact is there with readable rows
      and not marked twice; it is shown exactly when the artifact is allowed and no mark is against it. */
  lemma ListedExactly(db: Db, r: Release, asOf: Time)
    ensures Listable(Joined(db, asOf), MarksOf(db), r) <==>
              && r.sha256 in db.artifacts && !Unreadable(db, r.sha256)
              && !CurrentRow(db.baselines, r.sha256).Several?
    ensures Listable(Joined(db, asOf), MarksOf(db), r) ==>
              var x, mark := Look(Joined(db, asOf), r.sha256).value, CurrentRow(db.baselines, r.sha256);
              Says(x, db, r.sha256, asOf)
              && (Listed(Joined(db, asOf), MarksOf(db), r) <==> x.allowed && (mark.One? ==> mark.row.data.enabled))
  {
    DecidedExactly(db, r.sha256, asOf);
    MarkExactly(db, r.sha256);
  }

  /** What the download gate insists on, whoever made the record. */
  lemma GateExactly(x: Decided, d: Digest)
    ensures ExactAllow(x, d) <==>
              && x.sha256 == d && x.allowed && x.effective == Allow && x.source != Missing
              && x.state.Some? && (x.state.value.Judged? || x.state.value == Errored)
              && (x.source == Automated ==> x.state == Some(Judged(Allow)))
              && (x.policyVersion.Some? ==> !Blank(x.policyVersion.value))
              && (x.state != Some(Errored) ==> x.policyVersion.Some?)
  {
    if x.policyVersion.Some? { BlankExactly(x.policyVersion.value); }
  }
}
