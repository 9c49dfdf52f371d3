/** Any sequence of appends, commits, rollbacks and schema changes by any number of connections
    sharing one audit writer. */
module AuditRuns {
  import opened History
  import opened HashChain
  import opened AuditChain
  import opened AuditWriter

  function AuditChecks(h: Hash): Checks {
    Checks((row: AuditRow) => RowValid(row), AuditRule(h))
  }

  lemma ChecksConsistent(h: Hash)
    ensures Consistent(AuditChecks(h))
  {
    var c := AuditChecks(h);
    forall row, i, p | c.rule(row, i, p) == None ensures c.valid(row) && row.id == i && row.previousHash == p {
      assert RowFinding(h, row, i, p) == None;
    }
  }

  /** The one write transaction SQLite allows at a time, and what it sees. */
  datatype World = World(committed: seq<AuditRow>, schema: Option<Schema>, open: Option<View>, cache: Option<Cache>)

  const START := World([], None, None, None)

  /** A schema is changed between transactions, to one that meets the contract or not. */
  datatype Move = Begin(connection: nat) | Append(event: AuditEvent) | Commit | Rollback | Alter(schema: Option<Schema>)

  /** The table refuses a second row with an event hash. */
  predicate HashTaken(rows: seq<AuditRow>, hash: string) {
    exists i :: 0 <= i < |rows| && rows[i].eventHash == hash
  }

  /** append_in_transaction: verify the prefix, then insert the row that follows it. */
  function DoAppend(h: Hash, w: World, e: AuditEvent): World
    requires w.open.Some?
  {
    var view := w.open.value;
    var prefix := Prefix(AuditChecks(h), w.cache, view);
    if !EventValid(e) || prefix == None then w
    else
      var v := prefix.value;
      var seen := Some(Cache(view.connection, view.schema.value, v));
      if v.count >= MAX_ID then w.(cache := seen)
      else
        var row := RowAfter(h, v.count, v.head, e);
        if HashTaken(view.rows, row.eventHash) then w.(cache := seen)
        else w.(open := Some(view.(rows := view.rows + [row])), cache := seen)
  }

  function Apply(h: Hash, w: World, m: Move): World {
    match m
    case Begin(connection) => if w.open.Some? then w else w.(open := Some(View(connection, w.schema, w.committed)))
    case Append(e) => if w.open.Some? then DoAppend(h, w, e) else w
    case Commit => if w.open.Some? then w.(committed := w.open.value.rows, open := None) else w
    case Rollback => w.(open := None)
    case Alter(schema) => if w.open.Some? then w else w.(schema := schema)
  }

  ghost predicate Sound(h: Hash, w: World) {
    && Accepted(AuditRule(h), w.committed) && CacheSound(w.cache)
    && (w.open.Some? ==> Accepted(AuditRule(h), w.open.value.rows) && w.committed <= w.open.value.rows)
  }

  /** The incremental verifier answers what a full rescan would. */
  lemma CacheInvisible(h: Hash, w: World)
    requires Sound(h, w) && w.open.Some?
    ensures var view := w.open.value;
            && Prefix(AuditChecks(h), w.cache, view) == Cold(AuditChecks(h), view)
            && (view.schema.Some? ==> Cold(AuditChecks(h), view) == Some(Verified(|view.rows|, Head(view.rows))))
  {
    ChecksConsistent(h);
    CachedEqualsFull(AuditChecks(h), w.cache, w.open.value);
  }

  /** Is the log in a state to take the row of this event: an intact schema, a free id, and a hash that
      no row has? */
  predicate LogUp(h: Hash, w: World, e: AuditEvent) {
    && w.open.Some? && w.open.value.schema.Some? && |w.open.value.rows| < MAX_ID
    && !HashTaken(w.open.value.rows, NewRow(h, w.open.value.rows, e).eventHash)
  }

  predicate Appendable(h: Hash, w: World, e: AuditEvent) {
    EventValid(e) && LogUp(h, w, e)
  }

  /** Then it is always made, as the row the chain calls for. */
  lemma AppendsExactly(h: Hash, w: World, e: AuditEvent)
    requires HexHash(h) && Sound(h, w) && Appendable(h, w, e)
    ensures var after, view := DoAppend(h, w, e), w.open.value;
            after.open == Some(view.(rows := view.rows + [NewRow(h, view.rows, e)]))
            && Sound(h, after) && after.committed == w.committed
  {
    CacheInvisible(h, w);
    AppendAccepted(h, w.open.value.rows, e);
  }

  /** The row an append makes out of the verified prefix. */
  lemma SameRow(h: Hash, w: World, e: AuditEvent)
    requires Sound(h, w) && w.open.Some? && w.open.value.schema.Some?
    ensures var view := w.open.value;
            && Prefix(AuditChecks(h), w.cache, view) == Some(Verified(|view.rows|, Head(view.rows)))
            && CacheSound(Some(Cache(view.connection, view.schema.value, Verified(|view.rows|, Head(view.rows)))))
  {
    CacheInvisible(h, w);
  }

  lemma TakenAppend(h: Hash, w: World, e: AuditEvent)
    requires Sound(h, w) && w.open.Some? && w.open.value.schema.Some? && !LogUp(h, w, e)
    ensures var after := DoAppend(h, w, e);
            after.open == w.open && after.committed == w.committed && CacheSound(after.cache)
  {
    SameRow(h, w, e);
  }

  lemma RefusedAppend(h: Hash, w: World, e: AuditEvent)
    requires Sound(h, w) && w.open.Some? && !Appendable(h, w, e)
    ensures var after := DoAppend(h, w, e);
            after.open == w.open && after.committed == w.committed && CacheSound(after.cache)
  {
    if EventValid(e) {
      if w.open.value.schema.Some? { TakenAppend(h, w, e); } else { CacheInvisible(h, w); }
    }
  }

  /** A hash that is taken shows a collision of the hash function, between two rows with different
      contents. */
  lemma TakenHashCollides(h: Hash, w: World, e: AuditEvent)
    requires HexHash(h) && Sound(h, w) && w.open.Some? && EventValid(e) && |w.open.value.rows| < MAX_ID
    requires HashTaken(w.open.value.rows, NewRow(h, w.open.value.rows, e).eventHash)
    ensures exists row :: row in w.open.value.rows && Collide(h, row, NewRow(h, w.open.value.rows, e))
  {
    var rows := w.open.value.rows;
    var i :| 0 <= i < |rows| && rows[i].eventHash == NewRow(h, rows, e).eventHash;
    RepeatCollides(h, rows, e, i);
    assert rows[i] in rows;
  }

  lemma AppendKeeps(h: Hash, w: World, e: AuditEvent)
    requires HexHash(h) && Sound(h, w) && w.open.Some?
    ensures Sound(h, DoAppend(h, w, e)) && DoAppend(h, w, e).committed == w.committed
  {
    if Appendable(h, w, e) { AppendsExactly(h, w, e); } else { RefusedAppend(h, w, e); }
  }

  lemma AppendMoves(h: Hash, w: World, e: AuditEvent)
    ensures Apply(h, w, Append(e)) == if w.open.Some? then DoAppend(h, w, e) else w
  {}

  lemma BeginKeeps(h: Hash, w: World, connection: nat)
    requires Sound(h, w)
    ensures Sound(h, Apply(h, w, Begin(connection))) && w.committed <= Apply(h, w, Begin(connection)).committed
  {}

  lemma CommitKeeps(h: Hash, w: World)
    requires Sound(h, w)
    ensures Sound(h, Apply(h, w, Commit)) && w.committed <= Apply(h, w, Commit).committed
  {}

  lemma RollbackKeeps(h: Hash, w: World)
    requires Sound(h, w)
    ensures Sound(h, Apply(h, w, Rollback)) && w.committed <= Apply(h, w, Rollback).committed
  {}

  lemma AlterKeeps(h: Hash, w: World, schema: Option<Schema>)
    requires Sound(h, w)
    ensures Sound(h, Apply(h, w, Alter(schema))) && w.committed <= Apply(h, w, Alter(schema)).committed
  {}

  lemma MoveKeeps(h: Hash, w: World, m: Move)
    requires HexHash(h) && Sound(h, w)
    ensures Sound(h, Apply(h, w, m)) && w.committed <= Apply(h, w, m).committed
  {
    match m
    case Begin(connection) => BeginKeeps(h, w, connection);
    case Append(e) =>
      AppendMoves(h, w, e);
      if w.open.Some? { AppendKeeps(h, w, e); }
    case Commit => CommitKeeps(h, w);
    case Rollback => RollbackKeeps(h, w);
    case Alter(schema) => AlterKeeps(h, w, schema);
  }

  function Run(h: Hash, w: World, moves: seq<Move>): World
    decreases |moves|
  {
    if moves == [] then w else Run(h, Apply(h, w, moves[0]), moves[1..])
  }

  /** Over any run from an empty log: the committed log only grows, and whenever a transaction is
      open, cached verification and full rescan agree. */
  lemma {:induction false} RunKeeps(h: Hash, w: World, moves: seq<Move>)
    requires HexHash(h) && Sound(h, w)
    ensures Sound(h, Run(h, w, moves)) && w.committed <= Run(h, w, moves).committed
    decreases |moves|
  {
    if moves != [] {
      MoveKeeps(h, w, moves[0]);
      RunKeeps(h, Apply(h, w, moves[0]), moves[1..]);
    }
  }

  lemma AlwaysAgree(h: Hash, moves: seq<Move>)
    requires HexHash(h) && Run(h, START, moves).open.Some?
    ensures var w := Run(h, START, moves);
            var view := w.open.value;
            && Prefix(AuditChecks(h), w.cache, view) == Cold(AuditChecks(h), view)
            && (view.schema.Some? ==> Cold(AuditChecks(h), view) == Some(Verified(|view.rows|, Head(view.rows))))
  {
    RunKeeps(h, START, moves);
    CacheInvisible(h, Run(h, START, moves));
  }
}
