/** The gates over states the store can reach. */
module GatesOnStore {
  import opened History
  import opened PersistedState
  import opened VerdictTables
  import opened VerdictInvariants
  import opened Gates

  /** No lookup fails, and a download is allowed exactly under an unexpired manual ALLOW or, with no
      override in force, an automated ALLOW whose cooldown is over. */
  lemma AllowedExactly(db: Db, d: Digest, asOf: Time)
    requires Inv(db)
    ensures Look(Joined(db, asOf), d).Some?
    ensures var manual := CurrentRow(db.overrides, d);
            Look(Joined(db, asOf), d).value.allowed <==>
              && d in db.artifacts
              && if ManualActive(manual, asOf) then manual.row.data.decision == Allow
                 else
                   && db.artifacts[d].state == Judged(Allow)
                   && (db.artifacts[d].cooldownUntil.Some? ==> db.artifacts[d].cooldownUntil.value <= asOf)
  {
    assert SliceSound(d, SliceOf(db, d));
  }

  /** The listing of the mapped releases never fails, and shows exactly those whose artifact is
      allowed and whose current baseline mark, if there is one, is on. */
  lemma ListingNeverFails(db: Db, asOf: Time, i: nat)
    requires Inv(db) && i < |db.releases|
    ensures Listable(Joined(db, asOf), MarksOf(db), db.releases[i])
    ensures var d, mark := db.releases[i].sha256, CurrentRow(db.baselines, db.releases[i].sha256);
            Listed(Joined(db, asOf), MarksOf(db), db.releases[i]) <==>
              Look(Joined(db, asOf), d).value.allowed && (mark.One? ==> mark.row.data.enabled)
  {
    var d := db.releases[i].sha256;
    ReleaseCounted(db.releases, i);
    assert SliceSound(d, SliceOf(db, d));
    MarkedOnce(db, d);
  }

  lemma MarkedOnce(db: Db, d: Digest)
    requires Inv(db)
    ensures var mark := CurrentRow(db.baselines, d);
            && !mark.Several?
            && (if mark.One? then d in MarksOf(db) && MarksOf(db)[d] == Some(mark.row.data.enabled)
                else d !in MarksOf(db))
  {
    AtMostOne(db.baselines, d);
  }
}
