/**
 * The bound on revoked rows under the same write protocol. A revoke learns its subject by reading
 * the row, and locks that subject; the row may be missing then, or another by the time the statement
 * runs (backoffice/src/server/postgres-session-store.ts). The bound holds in every run in which a
 * revoke that updates a row holds the lock of that row's subject. Runs that never issue an id twice
 * and revoke only what was issued are such runs, and each of the two conditions is needed.
 */
module TombstoneBound {
  import opened Wrappers
  import opened SessionRecords
  import opened SessionSteps
  import opened SessionRuns
  import opened SqlSessionStore
  import opened SubjectLock

  // ---------------------------------------------------------------------------
  // What the statements do to revoked rows
  // ---------------------------------------------------------------------------

  /** A commit keeps a subject's revoked rows, less the evicted ones, and adds at most its own target. */
  lemma ApplyTombstones(rows: Table, c: Command, d: Delta, kept: set<string>, subject: string)
    requires CanCommit(rows, c, d)
    requires d.insert.Some? ==> Unrevoked(d.insert.value)
    ensures Members(Apply(rows, c, d, kept), subject, false)
         <= (Members(rows, subject, false) - d.evict)
            + (if c.Revoke? && d.update.Some? && d.update.value in rows && rows[d.update.value].subject == subject
               then {d.update.value} else {})
  {
  }

  /** Rows after a commit: the old ones, evolved or not, under the same subjects, and the inserted one. */
  lemma ApplySubjects(rows: Table, c: Command, d: Delta, kept: set<string>, id: string)
    requires id in Apply(rows, c, d, kept)
    ensures if d.insert.Some? && id == d.insert.value.id then Apply(rows, c, d, kept)[id] == d.insert.value
            else id in rows && Apply(rows, c, d, kept)[id].subject == rows[id].subject
  {
  }

  /** On its snapshot, a revoke leaves room for the row it is about to mark. */
  lemma RevokeLeavesRoom(rows: Table, c: Command)
    requires Keyed(rows) && c.Revoke? && Accepted(c) && DeltaOf(rows, c).update.Some?
    ensures c.id in rows && DeltaOf(rows, c).update.value == c.id
    ensures |Members(rows, rows[c.id].subject, false) - DeltaOf(rows, c).evict| <= c.maxRevokedPerSubject
  {
    TargetRows(rows, c.id, c.now);
    RowsOfKeyed(rows);
    var subject := rows[c.id].subject;
    TrimBounds(rows, subject, false, c.maxRevokedPerSubject);
    assert TombstoneCandidates(rows, c) == RowsOf(rows, subject, false);
    var doomed := Ids(Offset(ByAge, TombstoneCandidates(rows, c), c.maxRevokedPerSubject));
    ColumnsAreKeys(TombstoneCandidates(rows, c), c.maxRevokedPerSubject);
    assert RevokeDoomed(rows, c) == doomed;
    MembersWithout(rows, doomed, subject, false);
  }

  // ---------------------------------------------------------------------------
  // The guard
  // ---------------------------------------------------------------------------

  /** A revoke that updates a row, where it runs and where it commits, has locked that row's subject. */
  predicate Guarded(s: State, l: Label) {
    match l
    case Execute(i) =>
      i in s.txns && s.txns[i].phase.Ready? && s.txns[i].command.Revoke? && Accepted(s.txns[i].command) ==>
        GuardedUpdate(s.rows, s.txns[i].phase.holds, DeltaOf(s.rows, s.txns[i].command))
    case Commit(i, _) =>
      i in s.txns && s.txns[i].phase.Executed? && s.txns[i].command.Revoke? ==>
        GuardedUpdate(s.rows, s.txns[i].phase.held, s.txns[i].phase.delta)
    case _ => true
  }

  predicate GuardedUpdate(rows: Table, held: Option<string>, d: Delta) {
    d.update.Some? && d.update.value in rows ==> held == Some(rows[d.update.value].subject)
  }

  ghost predicate TxnRoomy(key: string -> int, s: State, i: nat, tombstones: int)
    requires i in s.txns
  {
    var t := s.txns[i];
    && Accepted(t.command) && (t.command.Revoke? ==> t.command.maxRevokedPerSubject == tombstones)
    && (Locked(t).Some? ==> key(Locked(t).value) in s.locks && s.locks[key(Locked(t).value)] == i)
    && (t.phase.Executed? ==> DeltaRoomy(s.rows, t.command, t.phase.held, t.phase.delta, tombstones))
  }

  /** Only a login inserts; a revoke that updates has left room, under its lock, for what it marks. */
  ghost predicate DeltaRoomy(rows: Table, c: Command, held: Option<string>, d: Delta, tombstones: int) {
    && (if c.Issue? then d.update == None && (d.insert.Some? ==> d.insert == Some(IssuedRecord(c)))
        else d.insert == None)
    && (c.Revoke? && d.update.Some? ==>
        held.Some? && |Members(rows, held.value, false) - d.evict| <= tombstones)
  }

  /** The room a guarded revoke has counted on is there, and no subject is over the bound. */
  ghost predicate Roomy(key: string -> int, s: State, tombstones: int) {
    && Keyed(s.rows)
    && (forall subject :: |Members(s.rows, subject, false)| <= tombstones + 1)
    && (forall i :: i in s.txns ==> TxnRoomy(key, s, i, tombstones))
  }

  lemma GuardedCommitBound(key: string -> int, s: State, i: nat, kept: set<string>, tombstones: int, subject: string)
    requires Roomy(key, s, tombstones) && Enabled(key, s, Commit(i, kept)) && Guarded(s, Commit(i, kept))
    ensures |Members(Next(key, s, Commit(i, kept)).rows, subject, false)| <= tombstones + 1
  {
    var c, d := s.txns[i].command, s.txns[i].phase.delta;
    assert TxnRoomy(key, s, i, tombstones);
    ApplyTombstones(s.rows, c, d, kept, subject);
    var after := Members(Apply(s.rows, c, d, kept), subject, false);
    if c.Revoke? && d.update.Some? && d.update.value in s.rows && s.rows[d.update.value].subject == subject {
      SubsetCount(after, (Members(s.rows, subject, false) - d.evict) + {d.update.value});
    } else {
      SubsetCount(after, Members(s.rows, subject, false));
    }
  }

  /** Fewer revoked rows leave no less room. */
  lemma RoomStays(rows: Table, after: Table, t: Txn, tombstones: int)
    requires t.phase.Executed? && DeltaRoomy(rows, t.command, t.phase.held, t.phase.delta, tombstones)
    requires t.command.Revoke? && t.phase.held.Some? ==>
      Members(after, t.phase.held.value, false) <= Members(rows, t.phase.held.value, false)
    ensures DeltaRoomy(after, t.command, t.phase.held, t.phase.delta, tombstones)
  {
    if t.command.Revoke? && t.phase.held.Some? {
      SubsetCount(Members(after, t.phase.held.value, false) - t.phase.delta.evict,
                  Members(rows, t.phase.held.value, false) - t.phase.delta.evict);
    }
  }

  /** A guarded commit adds revoked rows to no subject but the one it has locked. */
  lemma GuardedCommitAdds(
      rows: Table, c: Command, held: Option<string>, d: Delta, kept: set<string>, tombstones: int, subject: string)
    requires CanCommit(rows, c, d) && DeltaRoomy(rows, c, held, d, tombstones)
    requires (c.Revoke? ==> GuardedUpdate(rows, held, d)) && held != Some(subject)
    ensures Members(Apply(rows, c, d, kept), subject, false) <= Members(rows, subject, false)
  {
    ApplyTombstones(rows, c, d, kept, subject);
  }

  lemma LockedByAnother(key: string -> int, s: State, i: nat, kept: set<string>, tombstones: int, subject: string)
    requires Roomy(key, s, tombstones) && Enabled(key, s, Commit(i, kept)) && Guarded(s, Commit(i, kept))
    requires key(subject) in s.locks && s.locks[key(subject)] != i
    ensures Members(Next(key, s, Commit(i, kept)).rows, subject, false) <= Members(s.rows, subject, false)
  {
    var t := s.txns[i];
    assert TxnRoomy(key, s, i, tombstones);
    GuardedCommitAdds(s.rows, t.command, t.phase.held, t.phase.delta, kept, tombstones, subject);
  }

  /** A commit elsewhere takes none of the room a transaction holds the lock for. */
  lemma GuardedCommitTxn(key: string -> int, s: State, i: nat, kept: set<string>, tombstones: int, j: nat)
    requires Roomy(key, s, tombstones) && Enabled(key, s, Commit(i, kept)) && Guarded(s, Commit(i, kept))
    requires j in s.txns && j != i
    ensures TxnRoomy(key, Next(key, s, Commit(i, kept)), j, tombstones)
  {
    assert TxnRoomy(key, s, j, tombstones);
    if s.txns[j].phase.Executed? {
      if s.txns[j].phase.held.Some? {
        LockedByAnother(key, s, i, kept, tombstones, s.txns[j].phase.held.value);
      }
      RoomStays(s.rows, Next(key, s, Commit(i, kept)).rows, s.txns[j], tombstones);
    }
  }

  lemma GuardedCommit(key: string -> int, s: State, i: nat, kept: set<string>, tombstones: int)
    requires Roomy(key, s, tombstones) && Enabled(key, s, Commit(i, kept)) && Guarded(s, Commit(i, kept))
    ensures Roomy(key, Next(key, s, Commit(i, kept)), tombstones)
  {
    var after := Next(key, s, Commit(i, kept));
    ApplyKeyed(s.rows, s.txns[i].command, s.txns[i].phase.delta, kept);
    forall subject
      ensures |Members(after.rows, subject, false)| <= tombstones + 1
    {
      GuardedCommitBound(key, s, i, kept, tombstones, subject);
    }
    forall j | j in after.txns
      ensures TxnRoomy(key, after, j, tombstones)
    {
      GuardedCommitTxn(key, s, i, kept, tombstones, j);
    }
  }

  /** A transaction keeps its room while its own entry, its locks and the rows stay as they are. */
  lemma SameRoom(key: string -> int, s: State, after: State, j: nat, tombstones: int)
    requires j in s.txns && TxnRoomy(key, s, j, tombstones)
    requires j in after.txns && after.txns[j] == s.txns[j] && after.rows == s.rows
    requires forall k :: k in s.locks && s.locks[k] == j ==> k in after.locks && after.locks[k] == j
    ensures TxnRoomy(key, after, j, tombstones)
  {
    if Locked(s.txns[j]).Some? {
      var k := key(Locked(s.txns[j]).value);
      assert k in s.locks && s.locks[k] == j;
    }
  }

  /** A step of one transaction that leaves the rows alone keeps the others' room. */
  lemma OthersKeepRoom(key: string -> int, s: State, l: Label, tombstones: int)
    requires Roomy(key, s, tombstones) && Enabled(key, s, l) && !l.Commit?
    requires l.i in Next(key, s, l).txns ==> TxnRoomy(key, Next(key, s, l), l.i, tombstones)
    ensures Roomy(key, Next(key, s, l), tombstones)
  {
    var after := Next(key, s, l);
    forall j | j in after.txns
      ensures TxnRoomy(key, after, j, tombstones)
    {
      if j != l.i {
        SameRoom(key, s, after, j, tombstones);
      }
    }
  }

  lemma GuardedDelta(rows: Table, c: Command, holds: Option<string>, tombstones: int)
    requires Keyed(rows) && Accepted(c) && (c.Revoke? ==> c.maxRevokedPerSubject == tombstones)
    requires c.Revoke? ==> GuardedUpdate(rows, holds, DeltaOf(rows, c))
    ensures DeltaRoomy(rows, c, holds, DeltaOf(rows, c), tombstones)
  {
    DeltaShape(rows, c);
    if c.Revoke? && DeltaOf(rows, c).update.Some? {
      RevokeLeavesRoom(rows, c);
    }
  }

  lemma ExecutedRoomy(key: string -> int, s: State, i: nat, d: Delta, tombstones: int)
    requires Roomy(key, s, tombstones) && i in s.txns && s.txns[i].phase.Ready?
    requires DeltaRoomy(s.rows, s.txns[i].command, s.txns[i].phase.holds, d, tombstones)
    ensures Roomy(key, Moved(s, i, Executed(s.txns[i].phase.holds, d)), tombstones)
  {
    var after := Moved(s, i, Executed(s.txns[i].phase.holds, d));
    assert TxnRoomy(key, s, i, tombstones);
    assert TxnRoomy(key, after, i, tombstones);
    forall j | j in after.txns
      ensures TxnRoomy(key, after, j, tombstones)
    {
      if j != i {
        SameRoom(key, s, after, j, tombstones);
      }
    }
  }

  lemma GuardedExecute(key: string -> int, s: State, i: nat, tombstones: int)
    requires Roomy(key, s, tombstones) && Enabled(key, s, Execute(i)) && Guarded(s, Execute(i))
    ensures Roomy(key, Next(key, s, Execute(i)), tombstones)
  {
    var c := s.txns[i].command;
    assert TxnRoomy(key, s, i, tombstones);
    GuardedDelta(s.rows, c, s.txns[i].phase.holds, tombstones);
    ExecutedRoomy(key, s, i, DeltaOf(s.rows, c), tombstones);
  }

  /** Every guarded step keeps the bound on revoked rows. */
  lemma GuardedStep(key: string -> int, s: State, l: Label, tombstones: int)
    requires Roomy(key, s, tombstones) && Enabled(key, s, l) && Guarded(s, l)
    requires l.Begin? && l.command.Revoke? ==> l.command.maxRevokedPerSubject == tombstones
    ensures Roomy(key, Next(key, s, l), tombstones)
  {
    match l
    case Commit(i, kept) => GuardedCommit(key, s, i, kept, tombstones);
    case Execute(i) => GuardedExecute(key, s, i, tombstones);
    case Begin(_, _) => OthersKeepRoom(key, s, l, tombstones);
    case Abort(_) => OthersKeepRoom(key, s, l, tombstones);
    case Lock(i) =>
      assert TxnRoomy(key, s, i, tombstones);
      OthersKeepRoom(key, s, l, tombstones);
    case ResolveSubject(i) =>
      assert TxnRoomy(key, s, i, tombstones);
      OthersKeepRoom(key, s, l, tombstones);
  }

  predicate GuardedRun(key: string -> int, s: State, labels: seq<Label>, tombstones: int)
    decreases |labels|
  {
    labels == []
    || (&& Enabled(key, s, labels[0]) && Guarded(s, labels[0])
        && (labels[0].Begin? && labels[0].command.Revoke? ==> labels[0].command.maxRevokedPerSubject == tombstones)
        && GuardedRun(key, Next(key, s, labels[0]), labels[1..], tombstones))
  }

  function FinalGuarded(key: string -> int, s: State, labels: seq<Label>, tombstones: int): State
    requires GuardedRun(key, s, labels, tombstones)
    decreases |labels|
  {
    if labels == [] then s else FinalGuarded(key, Next(key, s, labels[0]), labels[1..], tombstones)
  }

  lemma {:induction false} GuardedRunKeepsRoom(key: string -> int, s: State, labels: seq<Label>, tombstones: int)
    requires Roomy(key, s, tombstones) && GuardedRun(key, s, labels, tombstones)
    ensures Roomy(key, FinalGuarded(key, s, labels, tombstones), tombstones)
    decreases |labels|
  {
    if labels != [] {
      GuardedStep(key, s, labels[0], tombstones);
      GuardedRunKeepsRoom(key, Next(key, s, labels[0]), labels[1..], tombstones);
    }
  }

  /**
   * In every interleaving in which a revoke that updates a row holds the lock of that row's subject, no
   * subject ever has more than `tombstones + 1` revoked rows.
   */
  lemma GuardedRunsBoundTombstones(key: string -> int, labels: seq<Label>, tombstones: nat, subject: string)
    requires GuardedRun(key, EMPTY, labels, tombstones)
    ensures |Members(FinalGuarded(key, EMPTY, labels, tombstones).rows, subject, false)| <= tombstones + 1
  {
    forall other
      ensures Members(EMPTY.rows, other, false) == {}
    {
    }
    GuardedRunKeepsRoom(key, EMPTY, labels, tombstones);
  }

  // ---------------------------------------------------------------------------
  // Runs that meet the guard
  // ---------------------------------------------------------------------------

  /** The protocol state with its history: which subject each id was issued for, and which issues committed. */
  datatype Traced = Traced(now: State, owner: map<string, string>, landed: set<string>)

  /** An issue brings an id never used before, a revoke names an id whose issue has committed. */
  predicate Disciplined(x: Traced, l: Label) {
    l.Begin? ==>
      && (l.command.Issue? ==> l.command.id !in x.owner)
      && (l.command.Revoke? ==> l.command.id in x.landed)
  }

  function NextTraced(key: string -> int, x: Traced, l: Label): Traced
    requires Enabled(key, x.now, l)
  {
    Traced(Next(key, x.now, l),
           if l.Begin? && l.command.Issue? then x.owner[l.command.id := l.command.subject] else x.owner,
           if l.Commit? && x.now.txns[l.i].phase.delta.insert.Some?
           then x.landed + {x.now.txns[l.i].phase.delta.insert.value.id} else x.landed)
  }

  ghost predicate TxnTraced(x: Traced, i: nat)
    requires i in x.now.txns
  {
    var t := x.now.txns[i];
    && (t.command.Issue? ==>
        && t.command.id in x.owner && x.owner[t.command.id] == t.command.subject && t.command.id !in x.landed
        && (t.phase.Executed? ==>
            (&& t.phase.delta.update == None
             && (t.phase.delta.insert.Some? ==> t.phase.delta.insert == Some(IssuedRecord(t.command))))))
    && (!t.command.Issue? && t.phase.Executed? ==> t.phase.delta.insert == None)
    && (t.command.Revoke? ==> t.command.id in x.landed && RevokeTraced(x, t))
  }

  /** A revoke has locked the subject of its row, or its row is gone for good. */
  ghost predicate RevokeTraced(x: Traced, t: Txn)
    requires t.command.Revoke? && t.command.id in x.landed
  {
    match t.phase
    case Started => true
    case Waiting(subject) => t.command.id in x.owner && subject == x.owner[t.command.id]
    case Ready(holds) =>
      if holds.Some? then t.command.id in x.owner && holds.value == x.owner[t.command.id]
      else t.command.id !in x.now.rows
    case Executed(held, d) =>
      d.update.Some? ==>
        d.update.value == t.command.id && t.command.id in x.owner && held == Some(x.owner[t.command.id])
  }

  ghost predicate TracedSafe(x: Traced) {
    && Keyed(x.now.rows)
    && x.landed <= x.owner.Keys
    && (forall id :: id in x.now.rows ==> id in x.landed && x.now.rows[id].subject == x.owner[id])
    && (forall i :: i in x.now.txns ==> TxnTraced(x, i))
    && (forall i, j :: i in x.now.txns && j in x.now.txns && i != j
                    && x.now.txns[i].command.Issue? && x.now.txns[j].command.Issue?
                    ==> x.now.txns[i].command.id != x.now.txns[j].command.id)
  }

  /** Where the history is kept, every step meets the guard. */
  lemma TraceMeetsGuard(key: string -> int, x: Traced, l: Label)
    requires TracedSafe(x) && Enabled(key, x.now, l)
    ensures Guarded(x.now, l)
  {
    if l.Execute? || l.Commit? {
      var t := x.now.txns[l.i];
      assert TxnTraced(x, l.i);
      if l.Execute? && t.command.Revoke? {
        if DeltaOf(x.now.rows, t.command).update.Some? {
          RevokeLeavesRoom(x.now.rows, t.command);
        }
      }
    }
  }

  lemma CommitRows(key: string -> int, x: Traced, i: nat, kept: set<string>)
    requires TracedSafe(x) && Enabled(key, x.now, Commit(i, kept))
    ensures var y := NextTraced(key, x, Commit(i, kept));
      && Keyed(y.now.rows) && y.landed <= y.owner.Keys
      && (forall id :: id in y.now.rows ==> id in y.landed && y.now.rows[id].subject == y.owner[id])
  {
    var y := NextTraced(key, x, Commit(i, kept));
    var c, d := x.now.txns[i].command, x.now.txns[i].phase.delta;
    assert TxnTraced(x, i);
    ApplyKeyed(x.now.rows, c, d, kept);
    forall id | id in y.now.rows
      ensures id in y.landed && id in y.owner && y.now.rows[id].subject == y.owner[id]
    {
      ApplySubjects(x.now.rows, c, d, kept, id);
    }
  }

  lemma CommitTxn(key: string -> int, x: Traced, i: nat, kept: set<string>, j: nat)
    requires TracedSafe(x) && Enabled(key, x.now, Commit(i, kept))
    requires j in x.now.txns && j != i
    ensures TxnTraced(NextTraced(key, x, Commit(i, kept)), j)
  {
    var y := NextTraced(key, x, Commit(i, kept));
    var c, d, t := x.now.txns[i].command, x.now.txns[i].phase.delta, x.now.txns[j];
    assert TxnTraced(x, i) && TxnTraced(x, j);
    if t.command.Revoke? && t.command.id in y.now.rows {
      ApplySubjects(x.now.rows, c, d, kept, t.command.id);
    }
  }

  lemma CommitKeepsTrace(key: string -> int, x: Traced, i: nat, kept: set<string>)
    requires TracedSafe(x) && Enabled(key, x.now, Commit(i, kept))
    ensures TracedSafe(NextTraced(key, x, Commit(i, kept)))
  {
    var y := NextTraced(key, x, Commit(i, kept));
    CommitRows(key, x, i, kept);
    forall j | j in y.now.txns
      ensures TxnTraced(y, j)
    {
      CommitTxn(key, x, i, kept, j);
    }
  }

  /** A transaction stays traced while its own entry, the rows and the landed ids stay as they are. */
  lemma SameTraced(x: Traced, y: Traced, j: nat)
    requires j in x.now.txns && TxnTraced(x, j)
    requires j in y.now.txns && y.now.txns[j] == x.now.txns[j] && y.now.rows == x.now.rows && y.landed == x.landed
    requires forall id :: id in x.owner ==> id in y.owner && y.owner[id] == x.owner[id]
    ensures TxnTraced(y, j)
  {
  }

  lemma MoveKeepsTrace(key: string -> int, x: Traced, l: Label)
    requires TracedSafe(x) && Enabled(key, x.now, l)
    requires l.ResolveSubject? || l.Lock? || l.Execute?
    requires TxnTraced(NextTraced(key, x, l), l.i)
    ensures TracedSafe(NextTraced(key, x, l))
  {
    var y := NextTraced(key, x, l);
    forall j | j in y.now.txns
      ensures TxnTraced(y, j)
    {
      if j != l.i {
        SameTraced(x, y, j);
      }
    }
  }

  lemma ExecuteKeepsTrace(key: string -> int, x: Traced, i: nat)
    requires TracedSafe(x) && Enabled(key, x.now, Execute(i))
    ensures TracedSafe(NextTraced(key, x, Execute(i)))
  {
    var t := x.now.txns[i];
    assert TxnTraced(x, i);
    DeltaShape(x.now.rows, t.command);
    if t.command.Revoke? && DeltaOf(x.now.rows, t.command).update.Some? {
      RevokeLeavesRoom(x.now.rows, t.command);
    }
    MoveKeepsTrace(key, x, Execute(i));
  }

  lemma BeginKeepsTrace(key: string -> int, x: Traced, i: nat, c: Command)
    requires TracedSafe(x) && Enabled(key, x.now, Begin(i, c)) && Disciplined(x, Begin(i, c))
    ensures TracedSafe(NextTraced(key, x, Begin(i, c)))
  {
    var y := NextTraced(key, x, Begin(i, c));
    forall j | j in y.now.txns
      ensures TxnTraced(y, j)
    {
      if j != i {
        SameTraced(x, y, j);
      }
    }
    forall j | j in x.now.txns && x.now.txns[j].command.Issue? && c.Issue?
      ensures x.now.txns[j].command.id != c.id
    {
      assert TxnTraced(x, j);
    }
  }

  lemma AbortKeepsTrace(key: string -> int, x: Traced, i: nat)
    requires TracedSafe(x) && Enabled(key, x.now, Abort(i))
    ensures TracedSafe(NextTraced(key, x, Abort(i)))
  {
    var y := NextTraced(key, x, Abort(i));
    forall j | j in y.now.txns
      ensures TxnTraced(y, j)
    {
      SameTraced(x, y, j);
    }
  }

  /** Every disciplined step keeps the history. */
  lemma StepKeepsTrace(key: string -> int, x: Traced, l: Label)
    requires TracedSafe(x) && Enabled(key, x.now, l) && Disciplined(x, l)
    ensures TracedSafe(NextTraced(key, x, l))
  {
    match l
    case Commit(i, kept) => CommitKeepsTrace(key, x, i, kept);
    case Execute(i) => ExecuteKeepsTrace(key, x, i);
    case Begin(i, c) => BeginKeepsTrace(key, x, i, c);
    case Abort(i) => AbortKeepsTrace(key, x, i);
    case Lock(i) =>
      assert TxnTraced(x, i);
      MoveKeepsTrace(key, x, l);
    case ResolveSubject(i) =>
      assert TxnTraced(x, i);
      MoveKeepsTrace(key, x, l);
  }

  predicate DisciplinedRun(key: string -> int, x: Traced, labels: seq<Label>, tombstones: int)
    decreases |labels|
  {
    labels == []
    || (&& Enabled(key, x.now, labels[0]) && Disciplined(x, labels[0])
        && (labels[0].Begin? && labels[0].command.Revoke? ==> labels[0].command.maxRevokedPerSubject == tombstones)
        && DisciplinedRun(key, NextTraced(key, x, labels[0]), labels[1..], tombstones))
  }

  /** A run that never issues an id twice and revokes only what was issued meets the guard throughout. */
  lemma {:induction false} DisciplinedRunsAreGuarded(
      key: string -> int, x: Traced, labels: seq<Label>, tombstones: int)
    requires TracedSafe(x) && DisciplinedRun(key, x, labels, tombstones)
    ensures GuardedRun(key, x.now, labels, tombstones)
    decreases |labels|
  {
    if labels != [] {
      TraceMeetsGuard(key, x, labels[0]);
      StepKeepsTrace(key, x, labels[0]);
      DisciplinedRunsAreGuarded(key, NextTraced(key, x, labels[0]), labels[1..], tombstones);
    }
  }

  /** So in every such interleaving, no subject ever has more than `tombstones + 1` revoked rows. */
  lemma DisciplinedRunsBoundTombstones(key: string -> int, labels: seq<Label>, tombstones: nat, subject: string)
    requires DisciplinedRun(key, Traced(EMPTY, map[], {}), labels, tombstones)
    ensures GuardedRun(key, EMPTY, labels, tombstones)
    ensures |Members(FinalGuarded(key, EMPTY, labels, tombstones).rows, subject, false)| <= tombstones + 1
  {
    DisciplinedRunsAreGuarded(key, Traced(EMPTY, map[], {}), labels, tombstones);
    GuardedRunsBoundTombstones(key, labels, tombstones, subject);
  }

  // ---------------------------------------------------------------------------
  // Without the discipline
  // ---------------------------------------------------------------------------

  /** A run with these bounds, and the state it ends in. */
  ghost predicate Leads(key: string -> int, s: State, labels: seq<Label>, end: State) {
    RunsFrom(key, s, labels, 2, 1) && Final(key, s, labels, 2, 1) == end
  }

  lemma StepLeads(key: string -> int, s: State, l: Label, rest: seq<Label>, end: State)
    requires Enabled(key, s, l) && (l.Begin? ==> FixedBounds(l.command, 2, 1))
    requires Leads(key, Next(key, s, l), rest, end)
    ensures Leads(key, s, [l] + rest, end)
  {
    assert ([l] + rest)[1..] == rest;
  }

  /** Running a statement whose delta is known. */
  lemma ExecuteLeads(
      key: string -> int, s: State, i: nat, c: Command, holds: Option<string>, d: Delta, rest: seq<Label>, end: State)
    requires i in s.txns && s.txns[i] == Txn(c, Ready(holds)) && Accepted(c) && DeltaOf(s.rows, c) == d
    requires Leads(key, s.(txns := s.txns[i := Txn(c, Executed(holds, d))]), rest, end)
    ensures Leads(key, s, [Execute(i)] + rest, end)
  {
    StepLeads(key, s, Execute(i), rest, end);
  }

  /** Committing a delta whose effect is known. */
  lemma CommitLeads(key: string -> int, s: State, i: nat, rows: Table, rest: seq<Label>, end: State)
    requires i in s.txns && s.txns[i].phase.Executed? && CanCommit(s.rows, s.txns[i].command, s.txns[i].phase.delta)
    requires Apply(s.rows, s.txns[i].command, s.txns[i].phase.delta, {}) == rows
    requires Leads(key, State(rows, Released(s.locks, i), s.txns - {i}), rest, end)
    ensures Leads(key, s, [Commit(i, {})] + rest, end)
  {
    StepLeads(key, s, Commit(i, {}), rest, end);
  }

  /** One tombstone is no more than one, so nothing is evicted beside it. */
  lemma SingleTombstone(rows: Table, tomb: Record, c: Command)
    requires Keyed(rows) && c.Revoke? && Accepted(c) && c.maxRevokedPerSubject == 1
    requires c.id in rows && LiveAt(rows[c.id], c.now)
    requires RowsOf(rows, rows[c.id].subject, false) == {tomb}
    ensures DeltaOf(rows, c) == Delta({}, {}, None, Some(c.id))
  {
    TargetRows(rows, c.id, c.now);
    RowsOfKeyed(rows);
    assert TombstoneCandidates(rows, c) == {tomb};
    AheadTrichotomy(ByAge, tomb, tomb);
    assert RowsAhead(ByAge, {tomb}, tomb) == {};
    assert Offset(ByAge, {tomb}, 1) == {};
    ColumnsAreKeys({tomb}, 1);
    assert RevokeDoomed(rows, c) == {};
  }

  lemma UpdateOnly(rows: Table, c: Command)
    requires c.Revoke? && c.id in rows && Unrevoked(rows[c.id])
    ensures var d := Delta({}, {}, None, Some(c.id));
      CanCommit(rows, c, d) && Apply(rows, c, d, {}) == rows[c.id := RevokedRecord(rows[c.id], c)]
  {
    assert rows - {} == rows;
  }

  lemma FirstLogin(rows: Table, y: Record, c: Command)
    requires Keyed(rows) && c.Issue? && Accepted(c) && c.device.None? && c.maxPerSubject == 2
    requires c.id !in rows && HoldersOf(rows, c.token) == {}
    requires StaleIds(rows, c.lastUsedAt) == {} && RowsOf(rows, c.subject, true) == {y}
    ensures DeltaOf(rows, c) == Delta({}, {}, Some(IssuedRecord(c)), None)
  {
    ConflictsAgree(rows, c);
    BranchesAreIdSets(rows, c.lastUsedAt, c.device);
    CandidatesSurvive(rows, c);
    assert WithoutStale(rows, c.lastUsedAt) == rows;
    assert WithoutDevice(rows, c.device) == rows;
    AheadTrichotomy(ByAge, y, y);
    assert RowsAhead(ByAge, {y}, y) == {};
    assert Offset(ByAge, {y}, 1) == {};
    ColumnsAreKeys({y}, 1);
    assert IssueDoomed(rows, c) == {};
  }

  /** A transaction's lifetime with nothing in between: a login that meets no obstacle. */
  lemma LoginRuns(key: string -> int, s: State, i: nat, c: Command, rest: seq<Label>, end: State)
    requires i !in s.txns && s.locks == map[] && c.Issue? && Accepted(c) && c.maxPerSubject == 2
    requires c.id !in s.rows && HoldersOf(s.rows, c.token) == {}
    requires DeltaOf(s.rows, c) == Delta({}, {}, Some(IssuedRecord(c)), None)
    requires Leads(key, s.(rows := s.rows[c.id := IssuedRecord(c)]), rest, end)
    ensures Leads(key, s, [Begin(i, c)] + ([Lock(i)] + ([Execute(i)] + ([Commit(i, {})] + rest))), end)
  {
    var locks := map[key(c.subject) := i];
    var d := Delta({}, {}, Some(IssuedRecord(c)), None);
    var begun, ready := Txn(c, Waiting(c.subject)), Txn(c, Ready(Some(c.subject)));
    var s2 := State(s.rows, locks, s.txns[i := ready]);
    var s3 := State(s.rows, locks, s.txns[i := Txn(c, Executed(Some(c.subject), d))]);
    InsertOnly(s.rows, c);
    assert s3.txns - {i} == s.txns && Released(locks, i) == map[];
    CommitLeads(key, s3, i, s.rows[c.id := IssuedRecord(c)], rest, end);
    assert s2.txns[i := s3.txns[i]] == s3.txns;
    ExecuteLeads(key, s2, i, c, Some(c.subject), d, [Commit(i, {})] + rest, end);
    LockLeads(key, s, i, c, c.subject, [Execute(i)] + ([Commit(i, {})] + rest), end);
    StepLeads(key, s, Begin(i, c), [Lock(i)] + ([Execute(i)] + ([Commit(i, {})] + rest)), end);
  }

  /** A waiting transaction takes a free lock. */
  lemma LockLeads(key: string -> int, s: State, i: nat, c: Command, subject: string, rest: seq<Label>, end: State)
    requires key(subject) !in s.locks
    requires Leads(key, State(s.rows, s.locks[key(subject) := i], s.txns[i := Txn(c, Ready(Some(subject)))]), rest, end)
    ensures Leads(key, s.(txns := s.txns[i := Txn(c, Waiting(subject))]), [Lock(i)] + rest, end)
  {
    var waiting := s.(txns := s.txns[i := Txn(c, Waiting(subject))]);
    var ready := Txn(c, Ready(Some(subject)));
    assert waiting.txns[i := ready] == s.txns[i := ready];
    StepLeads(key, waiting, Lock(i), rest, end);
  }

  /** A revoke that finds its row locks the row's subject and runs its statement. */
  lemma RevokeExecutes(key: string -> int, s: State, i: nat, c: Command, d: Delta, rest: seq<Label>, end: State)
    requires i !in s.txns && c.Revoke? && Accepted(c) && c.maxRevokedPerSubject == 1 && DeltaOf(s.rows, c) == d
    requires c.id in s.rows && key(s.rows[c.id].subject) !in s.locks
    requires Leads(key, Ran(key, s, i, c, s.rows[c.id].subject, d), rest, end)
    ensures Leads(key, s, [Begin(i, c)] + ([ResolveSubject(i)] + ([Lock(i)] + ([Execute(i)] + rest))), end)
  {
    var subject := s.rows[c.id].subject;
    var after := Ran(key, s, i, c, subject, d);
    var s3 := after.(txns := s.txns[i := Txn(c, Ready(Some(subject)))]);
    assert s3.txns[i := after.txns[i]] == after.txns;
    ExecuteLeads(key, s3, i, c, Some(subject), d, rest, end);
    LockLeads(key, s, i, c, subject, [Execute(i)] + rest, end);
    FoundLeads(key, s, i, c, [Lock(i)] + ([Execute(i)] + rest), end);
  }

  /** A revoke that finds its row waits for the lock of the row's subject. */
  lemma FoundLeads(key: string -> int, s: State, i: nat, c: Command, rest: seq<Label>, end: State)
    requires i !in s.txns && c.Revoke? && Accepted(c) && c.maxRevokedPerSubject == 1 && c.id in s.rows
    requires Leads(key, s.(txns := s.txns[i := Txn(c, Waiting(s.rows[c.id].subject))]), rest, end)
    ensures Leads(key, s, [Begin(i, c)] + ([ResolveSubject(i)] + rest), end)
  {
    var s1 := s.(txns := s.txns[i := Txn(c, Started)]);
    var waiting := Txn(c, Waiting(s.rows[c.id].subject));
    assert s1.txns[i := waiting] == s.txns[i := waiting];
    StepLeads(key, s1, ResolveSubject(i), rest, end);
    StepLeads(key, s, Begin(i, c), [ResolveSubject(i)] + rest, end);
  }

  /** The state once a revoke has locked a subject and run its statement. */
  function Ran(key: string -> int, s: State, i: nat, c: Command, subject: string, d: Delta): State {
    State(s.rows, s.locks[key(subject) := i], s.txns[i := Txn(c, Executed(Some(subject), d))])
  }

  function Marks(c: Command): Delta
    requires c.Revoke?
  {
    Delta({}, {}, None, Some(c.id))
  }

  /** Committing a revoke that evicts nothing. */
  lemma MarkLeads(
      key: string -> int, s: State, i: nat, c: Command, held: Option<string>, rest: seq<Label>, end: State)
    requires c.Revoke? && c.id in s.rows && Unrevoked(s.rows[c.id])
    requires i in s.txns && s.txns[i] == Txn(c, Executed(held, Marks(c)))
    requires var marked := s.rows[c.id := RevokedRecord(s.rows[c.id], c)];
      Leads(key, State(marked, Released(s.locks, i), s.txns - {i}), rest, end)
    ensures Leads(key, s, [Commit(i, {})] + rest, end)
  {
    UpdateOnly(s.rows, c);
    CommitLeads(key, s, i, s.rows[c.id := RevokedRecord(s.rows[c.id], c)], rest, end);
  }

  /** Two revokes that ran on the same rows commit one after the other. */
  lemma BothCommit(key: string -> int, s: State, x: Command, y: Command, holds: Option<string>, held: Option<string>)
    returns (end: State)
    requires x.Revoke? && y.Revoke? && Accepted(x) && x.id != y.id
    requires x.id in s.rows && y.id in s.rows && Unrevoked(s.rows[x.id]) && Unrevoked(s.rows[y.id])
    requires DeltaOf(s.rows, x) == Marks(x)
    requires s.txns == map[1 := Txn(x, Ready(holds)), 3 := Txn(y, Executed(held, Marks(y)))]
    ensures Leads(key, s, [Execute(1)] + ([Commit(1, {})] + ([Commit(3, {})] + [])), end)
    ensures end.rows == s.rows[x.id := RevokedRecord(s.rows[x.id], x)][y.id := RevokedRecord(s.rows[y.id], y)]
  {
    var rows1 := s.rows[x.id := RevokedRecord(s.rows[x.id], x)];
    var rows2 := rows1[y.id := RevokedRecord(s.rows[y.id], y)];
    var ran := s.(txns := map[1 := Txn(x, Executed(holds, Marks(x))), 3 := s.txns[3]]);
    var marked := State(rows1, Released(s.locks, 1), map[3 := s.txns[3]]);
    end := State(rows2, Released(marked.locks, 3), map[]);
    assert marked.txns - {3} == map[];
    MarkLeads(key, marked, 3, y, held, [], end);
    assert ran.txns - {1} == marked.txns;
    MarkLeads(key, ran, 1, x, holds, [Commit(3, {})] + [], end);
    assert s.txns[1 := ran.txns[1]] == ran.txns;
    ExecuteLeads(key, s, 1, x, holds, Marks(x), [Commit(1, {})] + ([Commit(3, {})] + []), end);
  }

  /** One live session, one tombstone, and a login about to come in. */
  ghost predicate Scene(rows: Table, tomb: Record, y: Record, issue: Command, revokeX: Command, revokeY: Command) {
    && Inv(rows) && rows == map[tomb.id := tomb, y.id := y] && tomb.id != y.id
    && !Unrevoked(tomb) && Unrevoked(y) && tomb.subject == y.subject
    && issue.Issue? && Accepted(issue) && issue.subject == y.subject && issue.device.None?
    && issue.maxPerSubject == 2 && issue.lastUsedAt < y.expiresAt && issue.lastUsedAt < issue.expiresAt
    && issue.id !in rows && HoldersOf(rows, issue.token) == {} && SessionId(y.id)
    && revokeX == Revoke(issue.id, issue.lastUsedAt, 1) && revokeY == Revoke(y.id, issue.lastUsedAt, 1)
  }

  lemma SceneRows(rows: Table, tomb: Record, y: Record, issue: Command, revokeX: Command, revokeY: Command)
    requires Scene(rows, tomb, y, issue, revokeX, revokeY)
    ensures Members(rows, y.subject, true) == {y.id} && Members(rows, y.subject, false) == {tomb.id}
    ensures Keyed(rows) && RowsOf(rows, y.subject, true) == {y}
    ensures var rows2 := rows[issue.id := IssuedRecord(issue)];
      Keyed(rows2) && RowsOf(rows2, y.subject, false) == {tomb}
  {
    RowsOfKeyed(rows);
    RowsOfKeyed(rows[issue.id := IssuedRecord(issue)]);
  }

  lemma SceneLogin(rows: Table, tomb: Record, y: Record, issue: Command, revokeX: Command, revokeY: Command)
    requires Scene(rows, tomb, y, issue, revokeX, revokeY)
    ensures DeltaOf(rows, issue) == Delta({}, {}, Some(IssuedRecord(issue)), None)
  {
    SceneRows(rows, tomb, y, issue, revokeX, revokeY);
    FirstLogin(rows, y, issue);
  }

  lemma SceneMarks(rows: Table, tomb: Record, y: Record, issue: Command, revokeX: Command, revokeY: Command)
    requires Scene(rows, tomb, y, issue, revokeX, revokeY)
    ensures var rows2 := rows[issue.id := IssuedRecord(issue)];
      DeltaOf(rows2, revokeX) == Marks(revokeX) && DeltaOf(rows2, revokeY) == Marks(revokeY)
  {
    var rows2 := rows[issue.id := IssuedRecord(issue)];
    SceneRows(rows, tomb, y, issue, revokeX, revokeY);
    SingleTombstone(rows2, tomb, revokeX);
    SingleTombstone(rows2, tomb, revokeY);
  }

  /** A revoke whose lookup finds no row is ready without a lock. */
  lemma MissedLookupRuns(key: string -> int, rows: Table, c: Command, rest: seq<Label>, end: State)
    requires c.Revoke? && Accepted(c) && c.maxRevokedPerSubject == 1 && c.id !in rows
    requires Leads(key, State(rows, map[], map[1 := Txn(c, Ready(None))]), rest, end)
    ensures Leads(key, State(rows, map[], map[]), [Begin(1, c)] + ([ResolveSubject(1)] + rest), end)
  {
    var s1 := State(rows, map[], map[1 := Txn(c, Started)]);
    assert s1.txns[1 := Txn(c, Ready(None))] == map[1 := Txn(c, Ready(None))];
    StepLeads(key, s1, ResolveSubject(1), rest, end);
    StepLeads(key, State(rows, map[], map[]), Begin(1, c), [ResolveSubject(1)] + rest, end);
  }

  /** The first revoke still to run, the second comes in, and both run before either commits. */
  function Revokes(c: Command): seq<Label> {
    [Begin(3, c)]
    + ([ResolveSubject(3)] + ([Lock(3)] + ([Execute(3)] + ([Execute(1)] + ([Commit(1, {})] + ([Commit(3, {})] + []))))))
  }

  lemma RevokesRun(key: string -> int, s: State, x: Command, y: Command, holds: Option<string>) returns (end: State)
    requires x.Revoke? && y.Revoke? && Accepted(x) && Accepted(y) && y.maxRevokedPerSubject == 1 && x.id != y.id
    requires x.id in s.rows && y.id in s.rows && Unrevoked(s.rows[x.id]) && Unrevoked(s.rows[y.id])
    requires DeltaOf(s.rows, x) == Marks(x) && DeltaOf(s.rows, y) == Marks(y)
    requires s.txns == map[1 := Txn(x, Ready(holds))] && key(s.rows[y.id].subject) !in s.locks
    ensures Leads(key, s, Revokes(y), end)
    ensures end.rows == s.rows[x.id := RevokedRecord(s.rows[x.id], x)][y.id := RevokedRecord(s.rows[y.id], y)]
  {
    var subject := s.rows[y.id].subject;
    var ran := Ran(key, s, 3, y, subject, Marks(y));
    end := BothCommit(key, ran, x, y, holds, Some(subject));
    RevokeExecutes(key, s, 3, y, Marks(y), [Execute(1)] + ([Commit(1, {})] + ([Commit(3, {})] + [])), end);
  }

  lemma SceneRevokes(key: string -> int, rows: Table, tomb: Record, y: Record, issue: Command, revokeX: Command,
                     revokeY: Command, holds: Option<string>, locks: map<int, nat>)
    returns (end: State)
    requires Scene(rows, tomb, y, issue, revokeX, revokeY) && key(y.subject) !in locks
    ensures var s := State(rows[issue.id := IssuedRecord(issue)], locks, map[1 := Txn(revokeX, Ready(holds))]);
      Leads(key, s, Revokes(revokeY), end)
    ensures end.rows == rows[issue.id := RevokedRecord(IssuedRecord(issue), revokeX)][y.id := RevokedRecord(y, revokeY)]
  {
    var s := State(rows[issue.id := IssuedRecord(issue)], locks, map[1 := Txn(revokeX, Ready(holds))]);
    SceneMarks(rows, tomb, y, issue, revokeX, revokeY);
    end := RevokesRun(key, s, revokeX, revokeY, holds);
    assert s.rows[issue.id := RevokedRecord(IssuedRecord(issue), revokeX)]
        == rows[issue.id := RevokedRecord(IssuedRecord(issue), revokeX)];
  }

  /** The interleaving: the lookup misses, the login commits, and both revokes run before either commits. */
  lemma SceneRuns(
      key: string -> int, rows: Table, tomb: Record, y: Record, issue: Command, revokeX: Command, revokeY: Command)
    returns (labels: seq<Label>, end: State)
    requires Scene(rows, tomb, y, issue, revokeX, revokeY)
    ensures Leads(key, State(rows, map[], map[]), labels, end)
    ensures end.rows == rows[issue.id := RevokedRecord(IssuedRecord(issue), revokeX)][y.id := RevokedRecord(y, revokeY)]
  {
    SceneLogin(rows, tomb, y, issue, revokeX, revokeY);
    end := SceneRevokes(key, rows, tomb, y, issue, revokeX, revokeY, None, map[]);
    LoginRuns(key, State(rows, map[], map[1 := Txn(revokeX, Ready(None))]), 2, issue, Revokes(revokeY), end);
    var login := [Begin(2, issue)] + ([Lock(2)] + ([Execute(2)] + ([Commit(2, {})] + Revokes(revokeY))));
    MissedLookupRuns(key, rows, revokeX, login, end);
    labels := [Begin(1, revokeX)] + ([ResolveSubject(1)] + login);
  }

  lemma ThreeTombstones(
      rows: Table, tomb: Record, y: Record, issue: Command, revokeX: Command, revokeY: Command)
    requires Scene(rows, tomb, y, issue, revokeX, revokeY)
    ensures
      var last := rows[issue.id := RevokedRecord(IssuedRecord(issue), revokeX)][y.id := RevokedRecord(y, revokeY)];
      |Members(last, y.subject, false)| == 3
  {
    var last := rows[issue.id := RevokedRecord(IssuedRecord(issue), revokeX)][y.id := RevokedRecord(y, revokeY)];
    assert Members(last, y.subject, false) == {tomb.id, issue.id, y.id};
  }

  /**
   * A revoke that looks its session up before the session's issue commits takes no lock. Run
   * beside another revoke for the same subject, it leaves three revoked rows where two are allowed.
   */
  lemma MissedLookupExceedsTheBound(
      key: string -> int, rows: Table, tomb: Record, y: Record, issue: Command, revokeX: Command, revokeY: Command)
    requires Scene(rows, tomb, y, issue, revokeX, revokeY)
    ensures |Members(rows, y.subject, true)| == 1 && |Members(rows, y.subject, false)| == 1
    ensures exists labels ::
      && RunsFrom(key, State(rows, map[], map[]), labels, 2, 1)
      && |Members(Final(key, State(rows, map[], map[]), labels, 2, 1).rows, y.subject, false)| == 3
  {
    SceneRows(rows, tomb, y, issue, revokeX, revokeY);
    ThreeTombstones(rows, tomb, y, issue, revokeX, revokeY);
    var labels, end := SceneRuns(key, rows, tomb, y, issue, revokeX, revokeY);
    assert Final(key, State(rows, map[], map[]), labels, 2, 1) == end;
  }

  /** Such a scene, written out: the bound does break. */
  lemma SceneExists() returns (rows: Table, tomb: Record, y: Record, issue: Command, revokeX: Command, revokeY: Command)
    ensures Scene(rows, tomb, y, issue, revokeX, revokeY)
  {
    SampleLoginIsAccepted('a', 2);
    SampleLoginIsAccepted('b', 2);
    SampleLoginIsAccepted('c', 2);
    SampleLoginsDiffer('a', 'b', 2);
    SampleLoginsDiffer('a', 'c', 2);
    SampleLoginsDiffer('b', 'c', 2);
    tomb := IssuedRecord(SampleLogin('a', 2)).(revoked := true, revokedAt := Some(1));
    y := IssuedRecord(SampleLogin('b', 2));
    issue := SampleLogin('c', 2);
    rows := map[tomb.id := tomb, y.id := y];
    revokeX, revokeY := Revoke(issue.id, 1, 1), Revoke(y.id, 1, 1);
  }

  // ---------------------------------------------------------------------------
  // With an id issued twice
  // ---------------------------------------------------------------------------

  /** The scene with one more row: an expired session of another subject, under the id about to be issued. */
  ghost predicate ReissueScene(
      rows: Table, x: Record, tomb: Record, y: Record, issue: Command, revokeX: Command, revokeY: Command)
  {
    && issue.Issue? && Inv(rows) && x.id == issue.id && x.subject != y.subject && Stale(x, issue.lastUsedAt)
    && rows == map[tomb.id := tomb, y.id := y][x.id := x]
    && Scene(map[tomb.id := tomb, y.id := y], tomb, y, issue, revokeX, revokeY)
  }

  /** A sweep with nothing in between. */
  lemma SweepRuns(key: string -> int, s: State, i: nat, now: int, rest: seq<Label>, end: State)
    requires i !in s.txns && Keyed(s.rows) && Instant(now) && s.locks == map[]
    requires Leads(key, s.(rows := WithoutStale(s.rows, now)), rest, end)
    ensures Leads(key, s, [Begin(i, Sweep(now))] + ([Execute(i)] + ([Commit(i, {})] + rest)), end)
  {
    var c := Sweep(now);
    var d := DeltaOf(s.rows, c);
    var s1 := s.(txns := s.txns[i := Txn(c, Ready(None))]);
    var s2 := s.(txns := s.txns[i := Txn(c, Executed(None, d))]);
    BranchesAreIdSets(s.rows, now, None);
    assert s1.txns[i := s2.txns[i]] == s2.txns && s2.txns - {i} == s.txns && Released(s2.locks, i) == s.locks;
    assert Apply(s.rows, c, d, {}) == WithoutStale(s.rows, now);
    CommitLeads(key, s2, i, WithoutStale(s.rows, now), rest, end);
    ExecuteLeads(key, s1, i, c, None, d, [Commit(i, {})] + rest, end);
    StepLeads(key, s, Begin(i, c), [Execute(i)] + ([Commit(i, {})] + rest), end);
  }

  /** From the login on, the first revoke waiting for the old subject's lock. */
  lemma WrongLockRuns(key: string -> int, rows: Table, other: string, tomb: Record, y: Record, issue: Command,
                      revokeX: Command, revokeY: Command)
    returns (labels: seq<Label>, end: State)
    requires Scene(rows, tomb, y, issue, revokeX, revokeY) && key(other) != key(y.subject)
    ensures Leads(key, State(rows, map[], map[1 := Txn(revokeX, Waiting(other))]), labels, end)
    ensures end.rows == rows[issue.id := RevokedRecord(IssuedRecord(issue), revokeX)][y.id := RevokedRecord(y, revokeY)]
  {
    SceneLogin(rows, tomb, y, issue, revokeX, revokeY);
    end := SceneRevokes(key, rows, tomb, y, issue, revokeX, revokeY, Some(other), map[key(other) := 1]);
    var rows2 := rows[issue.id := IssuedRecord(issue)];
    var waiting := map[1 := Txn(revokeX, Waiting(other))];
    LockLeads(key, State(rows2, map[], map[]), 1, revokeX, other, Revokes(revokeY), end);
    LoginRuns(key, State(rows, map[], waiting), 2, issue, [Lock(1)] + Revokes(revokeY), end);
    labels := [Begin(2, issue)] + ([Lock(2)] + ([Execute(2)] + ([Commit(2, {})] + ([Lock(1)] + Revokes(revokeY)))));
  }

  /** The interleaving: the lookup finds the old row, the row is swept and its id issued to another subject. */
  lemma ReissueRuns(key: string -> int, rows: Table, x: Record, tomb: Record, y: Record, issue: Command,
                    revokeX: Command, revokeY: Command)
    returns (labels: seq<Label>, end: State)
    requires ReissueScene(rows, x, tomb, y, issue, revokeX, revokeY) && key(x.subject) != key(y.subject)
    ensures Leads(key, State(rows, map[], map[]), labels, end)
    ensures end.rows == map[tomb.id := tomb, y.id := y]
                           [issue.id := RevokedRecord(IssuedRecord(issue), revokeX)][y.id := RevokedRecord(y, revokeY)]
  {
    var rows1: Table := map[tomb.id := tomb, y.id := y];
    var login;
    login, end := WrongLockRuns(key, rows1, x.subject, tomb, y, issue, revokeX, revokeY);
    var waiting := map[1 := Txn(revokeX, Waiting(x.subject))];
    assert WithoutStale(rows, issue.lastUsedAt) == rows1;
    SweepRuns(key, State(rows, map[], waiting), 4, issue.lastUsedAt, login, end);
    var swept := [Begin(4, Sweep(issue.lastUsedAt))] + ([Execute(4)] + ([Commit(4, {})] + login));
    FoundLeads(key, State(rows, map[], map[]), 1, revokeX, swept, end);
    labels := [Begin(1, revokeX)] + ([ResolveSubject(1)] + swept);
  }

  /**
   * A revoke that locks the subject its row had, while the row is swept and its id issued to another subject,
   * holds the wrong lock. Run beside a revoke for that subject, it leaves three revoked rows where two are
   * allowed, although every revoke names a session that had been committed.
   */
  lemma ReissuedIdExceedsTheBound(key: string -> int, rows: Table, x: Record, tomb: Record, y: Record, issue: Command,
                                  revokeX: Command, revokeY: Command)
    requires ReissueScene(rows, x, tomb, y, issue, revokeX, revokeY) && key(x.subject) != key(y.subject)
    ensures |Members(rows, y.subject, true)| == 1 && |Members(rows, y.subject, false)| == 1
    ensures revokeX.id in rows && revokeY.id in rows
    ensures exists labels ::
      && RunsFrom(key, State(rows, map[], map[]), labels, 2, 1)
      && |Members(Final(key, State(rows, map[], map[]), labels, 2, 1).rows, y.subject, false)| == 3
  {
    assert Members(rows, y.subject, true) == {y.id} && Members(rows, y.subject, false) == {tomb.id};
    ThreeTombstones(map[tomb.id := tomb, y.id := y], tomb, y, issue, revokeX, revokeY);
    var labels, end := ReissueRuns(key, rows, x, tomb, y, issue, revokeX, revokeY);
    assert Final(key, State(rows, map[], map[]), labels, 2, 1) == end;
  }

  /** Such a scene, written out. */
  lemma ReissueSceneExists() returns (
      rows: Table, x: Record, tomb: Record, y: Record, issue: Command, revokeX: Command, revokeY: Command)
    ensures ReissueScene(rows, x, tomb, y, issue, revokeX, revokeY)
  {
    SampleLoginIsAccepted('a', 2);
    SampleLoginIsAccepted('b', 2);
    SampleLoginIsAccepted('c', 2);
    SampleLoginsDiffer('a', 'b', 2);
    SampleLoginsDiffer('a', 'c', 2);
    SampleLoginsDiffer('b', 'c', 2);
    SampleLoginsDiffer('a', 'd', 2);
    SampleLoginsDiffer('b', 'd', 2);
    tomb := IssuedRecord(SampleLogin('a', 2)).(revoked := true, revokedAt := Some(1));
    y := IssuedRecord(SampleLogin('b', 2));
    issue := SampleLogin('c', 2).(lastUsedAt := 5);
    x := IssuedRecord(SampleLogin('d', 2)).(id := issue.id, subject := "another", expiresAt := 5);
    rows := map[tomb.id := tomb, y.id := y][x.id := x];
    revokeX, revokeY := Revoke(issue.id, 5, 1), Revoke(y.id, 5, 1);
    assert "another"[0] != "operator"[0];
  }
}
