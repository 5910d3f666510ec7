/**
 * Several store instances over one database: the write protocol of the PostgreSQL session store
 * as a state machine (enqueueWrite, lockSubject and the lifecycle statements of
 * backoffice/src/server/postgres-session-store.ts).
 *
 * A write transaction resolves the subject it must serialize on, takes that subject's advisory
 * lock, runs its statement against a snapshot of the committed rows, and commits later. Between
 * the snapshot and the commit any other transaction may take any step. The instances' own write
 * queues only remove interleavings, so they are not modelled: any number of transactions may be
 * open at once.
 */
module SubjectLock {
  import opened Texts
  import opened Wrappers
  import opened SessionRecords
  import opened SessionSteps
  import opened SessionRuns
  import opened SqlSessionStore

  /**
   * What a statement decided on its snapshot: the rows it evicts whatever happens to them, the
   * rows it deletes only if they are still stale, the row it inserts and the row it updates.
   */
  datatype Delta = Delta(evict: set<string>, stale: set<string>, insert: Option<Record>, update: Option<string>)

  datatype Phase =
    | Started                                          // must still resolve its subject
    | Waiting(subject: string)                         // must still take the subject's lock
    | Ready(holds: Option<string>)                     // holds the lock it needs, if any
    | Executed(held: Option<string>, delta: Delta)     // ran its statement, not committed

  datatype Txn = Txn(command: Command, phase: Phase)

  /** Committed rows, the advisory locks held, and the open transactions. */
  datatype State = State(rows: Table, locks: map<int, nat>, txns: map<nat, Txn>)

  datatype Label =
    | Begin(i: nat, command: Command)
    | ResolveSubject(i: nat)
    | Lock(i: nat)
    | Execute(i: nat)
    | Commit(i: nat, kept: set<string>)
    | Abort(i: nat)

  function NoDelta(stale: set<string>): Delta {
    Delta({}, stale, None, None)
  }

  /** The statement of a command, run on a snapshot. */
  function DeltaOf(rows: Table, c: Command): Delta
    requires Accepted(c)
  {
    match c
    case Issue(_, _, _, _, _, _, _, _, _, _, _) =>
      if IssueConflicts(rows, c) != {} then NoDelta({})
      else Delta(IssueDoomed(rows, c), {}, Some(IssuedRecord(c)), None)
    case Get(id, now) => NoDelta(Ids(StaleAmong(ById(rows, id), now)))
    case GetByToken(token, now) => NoDelta(Ids(StaleAmong(ByDigest(rows, token), now)))
    case Refresh(id, _, now, _) =>
      if Transitions(rows, id, now) && RefreshConflicts(rows, c) == {} then Delta({}, {}, None, Some(id))
      else NoDelta(Ids(StaleAmong(ById(rows, id), now)))
    case Revoke(id, now, _) =>
      if Transitions(rows, id, now) then Delta(RevokeDoomed(rows, c), {}, None, Some(id))
      else NoDelta(Ids(StaleAmong(ById(rows, id), now)))
    case BindDevice(id, _, now) =>
      if Transitions(rows, id, now) && id in rows && rows[id].device.None? then Delta({}, {}, None, Some(id))
      else NoDelta(Ids(StaleAmong(ById(rows, id), now)))
    case Sweep(now) => NoDelta(Ids(StaleBranch(rows, now)))
    case List(_, _, _) => NoDelta({})
    case Count(_) => NoDelta({})
  }

  /** The new version of an updated row, computed on the version committed last. */
  function Updated(r: Record, c: Command): Record {
    if c.Refresh? then RefreshedRecord(r, c)
    else if c.Revoke? then RevokedRecord(r, c)
    else if c.BindDevice? then BoundRecord(r, c)
    else r
  }

  /** The unique indexes accept the insert, and the mutation trigger accepts the update. */
  predicate CanCommit(rows: Table, c: Command, d: Delta) {
    && (d.insert.Some? ==>
        d.insert.value.id !in rows - d.evict && HoldersOf(rows - d.evict, d.insert.value.token) == {})
    && (d.update.Some? && d.update.value in rows ==>
        && Unrevoked(rows[d.update.value])
        && (c.BindDevice? ==> rows[d.update.value].device.None? || rows[d.update.value].device == Some(c.bound)))
    && (d.update.Some? && c.Refresh? ==> HoldersOf(rows, c.token) - {d.update.value} == {})
  }

  /** `kept` are the rows whose newer version is no longer stale and so survive a lazy delete. */
  function Apply(rows: Table, c: Command, d: Delta, kept: set<string>): Table {
    var left := rows - d.evict - (d.stale - kept);
    if d.insert.Some? then left[d.insert.value.id := d.insert.value]
    else if d.update.Some? && d.update.value in left then
      left[d.update.value := Updated(left[d.update.value], c)]
    else left
  }

  function FirstPhase(c: Command): Phase {
    match c
    case Issue(_, subject, _, _, _, _, _, _, _, _, _) => Waiting(subject)
    case Revoke(_, _, _) => Started
    case _ => Ready(None)
  }

  function Released(locks: map<int, nat>, i: nat): map<int, nat> {
    map k | k in locks && locks[k] != i :: locks[k]
  }

  predicate Enabled(key: string -> int, s: State, l: Label) {
    match l
    case Begin(i, c) => i !in s.txns && Accepted(c)
    case ResolveSubject(i) => i in s.txns && s.txns[i].phase.Started? && s.txns[i].command.Revoke?
    case Lock(i) => i in s.txns && s.txns[i].phase.Waiting? && key(s.txns[i].phase.subject) !in s.locks
    case Execute(i) => i in s.txns && s.txns[i].phase.Ready? && Accepted(s.txns[i].command)
    case Commit(i, kept) =>
      && i in s.txns && s.txns[i].phase.Executed?
      && CanCommit(s.rows, s.txns[i].command, s.txns[i].phase.delta)
    case Abort(i) => i in s.txns
  }

  function Moved(s: State, i: nat, phase: Phase): State
    requires i in s.txns
  {
    s.(txns := s.txns[i := Txn(s.txns[i].command, phase)])
  }

  function Next(key: string -> int, s: State, l: Label): State
    requires Enabled(key, s, l)
  {
    match l
    case Begin(i, c) => s.(txns := s.txns[i := Txn(c, FirstPhase(c))])
    case ResolveSubject(i) =>
      var id := s.txns[i].command.id;
      Moved(s, i, if id in s.rows then Waiting(s.rows[id].subject) else Ready(None))
    case Lock(i) =>
      var subject := s.txns[i].phase.subject;
      Moved(s.(locks := s.locks[key(subject) := i]), i, Ready(Some(subject)))
    case Execute(i) =>
      Moved(s, i, Executed(s.txns[i].phase.holds, DeltaOf(s.rows, s.txns[i].command)))
    case Commit(i, kept) =>
      State(Apply(s.rows, s.txns[i].command, s.txns[i].phase.delta, kept), Released(s.locks, i), s.txns - {i})
    case Abort(i) => State(s.rows, Released(s.locks, i), s.txns - {i})
  }

  // ---------------------------------------------------------------------------
  // The unrevoked bound
  // ---------------------------------------------------------------------------

  /** The subject a transaction has locked. */
  function Locked(t: Txn): Option<string> {
    match t.phase
    case Ready(holds) => holds
    case Executed(held, _) => held
    case _ => None
  }

  ghost predicate TxnSafe(key: string -> int, s: State, i: nat, active: int, tombstones: int)
    requires i in s.txns
  {
    var t := s.txns[i];
    && Accepted(t.command) && FixedBounds(t.command, active, tombstones)
    && (Locked(t).Some? ==> key(Locked(t).value) in s.locks && s.locks[key(Locked(t).value)] == i)
    && (t.command.Issue? ==> t.phase == Waiting(t.command.subject) || Locked(t) == Some(t.command.subject))
    && (t.phase.Executed? ==>
        var d := t.phase.delta;
        if t.command.Issue? then
          && d.update == None
          && (d.insert.Some? ==>
              && d.insert == Some(IssuedRecord(t.command))
              && |Members(s.rows, t.command.subject, true) - d.evict| < active)
        else d.insert == None)
  }

  ghost predicate Safe(key: string -> int, s: State, active: int, tombstones: int) {
    && Keyed(s.rows)
    && (forall subject :: |Members(s.rows, subject, true)| <= active)
    && (forall i :: i in s.txns ==> TxnSafe(key, s, i, active, tombstones))
  }

  /** A commit keeps a subject's unrevoked sessions, less the evicted ones, and adds at most its insert. */
  lemma ApplyActives(rows: Table, c: Command, d: Delta, kept: set<string>, subject: string)
    requires d.update.Some? ==> d.insert.None?
    requires CanCommit(rows, c, d)
    ensures Members(Apply(rows, c, d, kept), subject, true)
         <= (Members(rows, subject, true) - d.evict)
            + (if d.insert.Some? && d.insert.value.subject == subject then {d.insert.value.id} else {})
  {
  }

  lemma ApplyKeyed(rows: Table, c: Command, d: Delta, kept: set<string>)
    requires Keyed(rows)
    ensures Keyed(Apply(rows, c, d, kept))
  {
  }

  lemma MembersWithout(rows: Table, gone: set<string>, subject: string, unrevoked: bool)
    ensures Members(rows - gone, subject, unrevoked) == Members(rows, subject, unrevoked) - gone
  {
  }

  /** On its snapshot, an issue leaves room for the row it inserts. */
  lemma IssueLeavesRoom(rows: Table, c: Command)
    requires Keyed(rows) && c.Issue? && Accepted(c)
    ensures |Members(rows, c.subject, true) - IssueDoomed(rows, c)| < c.maxPerSubject
  {
    DoomedAgrees(rows, c);
    MembersWithout(rows, IssueDoomed(rows, c), c.subject, true);
    RoomIsBounded(rows, c);
  }

  /** Only an issue inserts, and it updates nothing. */
  lemma DeltaShape(rows: Table, c: Command)
    requires Accepted(c)
    ensures c.Issue? ==> DeltaOf(rows, c).update == None
    ensures c.Issue? && DeltaOf(rows, c).insert.Some? ==>
      DeltaOf(rows, c).insert == Some(IssuedRecord(c)) && DeltaOf(rows, c).evict == IssueDoomed(rows, c)
    ensures !c.Issue? ==> DeltaOf(rows, c).insert == None
  {
  }

  lemma CommitKeepsBound(
      key: string -> int, s: State, i: nat, kept: set<string>, active: int, tombstones: int, subject: string)
    requires Safe(key, s, active, tombstones) && Enabled(key, s, Commit(i, kept))
    ensures |Members(Next(key, s, Commit(i, kept)).rows, subject, true)| <= active
  {
    var c, d := s.txns[i].command, s.txns[i].phase.delta;
    assert TxnSafe(key, s, i, active, tombstones);
    var before, after := Members(s.rows, subject, true), Members(Apply(s.rows, c, d, kept), subject, true);
    ApplyActives(s.rows, c, d, kept, subject);
    if d.insert.Some? && d.insert.value.subject == subject {
      SubsetCount(after, (before - d.evict) + {d.insert.value.id});
    } else {
      SubsetCount(after, before);
    }
  }

  /** The room another transaction has counted on is still there after a commit. */
  lemma CommitKeepsTxn(key: string -> int, s: State, i: nat, kept: set<string>, active: int, tombstones: int, j: nat)
    requires Safe(key, s, active, tombstones) && Enabled(key, s, Commit(i, kept))
    requires j in Next(key, s, Commit(i, kept)).txns
    ensures TxnSafe(key, Next(key, s, Commit(i, kept)), j, active, tombstones)
  {
    var after := Next(key, s, Commit(i, kept));
    var c, d, t := s.txns[i].command, s.txns[i].phase.delta, s.txns[j];
    assert TxnSafe(key, s, i, active, tombstones) && TxnSafe(key, s, j, active, tombstones);
    if t.command.Issue? && t.phase.Executed? && t.phase.delta.insert.Some? {
      var subject := t.command.subject;
      ApplyActives(s.rows, c, d, kept, subject);
      assert !(d.insert.Some? && d.insert.value.subject == subject);
      SubsetCount(Members(after.rows, subject, true) - t.phase.delta.evict,
                  Members(s.rows, subject, true) - t.phase.delta.evict);
    }
  }

  lemma CommitIsSafe(key: string -> int, s: State, i: nat, kept: set<string>, active: int, tombstones: int)
    requires Safe(key, s, active, tombstones) && Enabled(key, s, Commit(i, kept))
    ensures Safe(key, Next(key, s, Commit(i, kept)), active, tombstones)
  {
    var after := Next(key, s, Commit(i, kept));
    assert TxnSafe(key, s, i, active, tombstones);
    ApplyKeyed(s.rows, s.txns[i].command, s.txns[i].phase.delta, kept);
    forall subject
      ensures |Members(after.rows, subject, true)| <= active
    {
      CommitKeepsBound(key, s, i, kept, active, tombstones, subject);
    }
    forall j | j in after.txns
      ensures TxnSafe(key, after, j, active, tombstones)
    {
      CommitKeepsTxn(key, s, i, kept, active, tombstones, j);
    }
  }

  lemma ExecuteIsSafe(key: string -> int, s: State, i: nat, active: int, tombstones: int)
    requires Safe(key, s, active, tombstones) && Enabled(key, s, Execute(i))
    ensures Safe(key, Next(key, s, Execute(i)), active, tombstones)
  {
    var after := Next(key, s, Execute(i));
    var t := s.txns[i];
    assert TxnSafe(key, s, i, active, tombstones);
    DeltaShape(s.rows, t.command);
    var moved := Txn(t.command, Executed(t.phase.holds, DeltaOf(s.rows, t.command)));
    assert after == s.(txns := s.txns[i := moved]);
    if t.command.Issue? {
      IssueLeavesRoom(s.rows, t.command);
    }
    assert Locked(moved) == Locked(t);
    assert TxnSafe(key, after, i, active, tombstones);
    forall j | j in after.txns
      ensures TxnSafe(key, after, j, active, tombstones)
    {
      if j != i {
        SameTxn(key, s, after, j, active, tombstones);
      }
    }
  }

  /** A transaction stays safe while its own entry, its locks and the rows stay as they are. */
  lemma SameTxn(key: string -> int, s: State, after: State, j: nat, active: int, tombstones: int)
    requires j in s.txns && TxnSafe(key, s, j, active, tombstones)
    requires j in after.txns && after.txns[j] == s.txns[j] && after.rows == s.rows
    requires forall k :: k in s.locks && s.locks[k] == j ==> k in after.locks && after.locks[k] == j
    ensures TxnSafe(key, after, j, active, tombstones)
  {
    if Locked(s.txns[j]).Some? {
      var k := key(Locked(s.txns[j]).value);
      assert k in s.locks && s.locks[k] == j;
    }
  }

  lemma LockIsSafe(key: string -> int, s: State, i: nat, active: int, tombstones: int)
    requires Safe(key, s, active, tombstones) && Enabled(key, s, Lock(i))
    ensures Safe(key, Next(key, s, Lock(i)), active, tombstones)
  {
    var after := Next(key, s, Lock(i));
    assert TxnSafe(key, s, i, active, tombstones);
    forall j | j in after.txns
      ensures TxnSafe(key, after, j, active, tombstones)
    {
      if j != i {
        SameTxn(key, s, after, j, active, tombstones);
      }
    }
  }

  lemma BeginIsSafe(key: string -> int, s: State, i: nat, c: Command, active: int, tombstones: int)
    requires Safe(key, s, active, tombstones) && Enabled(key, s, Begin(i, c)) && FixedBounds(c, active, tombstones)
    ensures Safe(key, Next(key, s, Begin(i, c)), active, tombstones)
  {
    var after := Next(key, s, Begin(i, c));
    assert TxnSafe(key, after, i, active, tombstones);
    forall j | j in after.txns
      ensures TxnSafe(key, after, j, active, tombstones)
    {
      if j != i {
        SameTxn(key, s, after, j, active, tombstones);
      }
    }
  }

  lemma ResolveIsSafe(key: string -> int, s: State, i: nat, active: int, tombstones: int)
    requires Safe(key, s, active, tombstones) && Enabled(key, s, ResolveSubject(i))
    ensures Safe(key, Next(key, s, ResolveSubject(i)), active, tombstones)
  {
    var after := Next(key, s, ResolveSubject(i));
    assert TxnSafe(key, s, i, active, tombstones);
    forall j | j in after.txns
      ensures TxnSafe(key, after, j, active, tombstones)
    {
      if j != i {
        SameTxn(key, s, after, j, active, tombstones);
      }
    }
  }

  lemma AbortIsSafe(key: string -> int, s: State, i: nat, active: int, tombstones: int)
    requires Safe(key, s, active, tombstones) && Enabled(key, s, Abort(i))
    ensures Safe(key, Next(key, s, Abort(i)), active, tombstones)
  {
    var after := Next(key, s, Abort(i));
    forall j | j in after.txns
      ensures TxnSafe(key, after, j, active, tombstones)
    {
      SameTxn(key, s, after, j, active, tombstones);
    }
  }

  /** Every step of the protocol keeps the bound on unrevoked sessions. */
  lemma StepIsSafe(key: string -> int, s: State, l: Label, active: int, tombstones: int)
    requires Safe(key, s, active, tombstones) && Enabled(key, s, l)
    requires l.Begin? ==> FixedBounds(l.command, active, tombstones)
    ensures Safe(key, Next(key, s, l), active, tombstones)
  {
    match l
    case Commit(i, kept) => CommitIsSafe(key, s, i, kept, active, tombstones);
    case Execute(i) => ExecuteIsSafe(key, s, i, active, tombstones);
    case Lock(i) => LockIsSafe(key, s, i, active, tombstones);
    case Begin(i, c) => BeginIsSafe(key, s, i, c, active, tombstones);
    case ResolveSubject(i) => ResolveIsSafe(key, s, i, active, tombstones);
    case Abort(i) => AbortIsSafe(key, s, i, active, tombstones);
  }

  /** A run: every step is enabled where it is taken, and commands use the fixed bounds. */
  predicate RunsFrom(key: string -> int, s: State, labels: seq<Label>, active: int, tombstones: int)
    decreases |labels|
  {
    labels == []
    || (&& Enabled(key, s, labels[0])
        && (labels[0].Begin? ==> FixedBounds(labels[0].command, active, tombstones))
        && RunsFrom(key, Next(key, s, labels[0]), labels[1..], active, tombstones))
  }

  function Final(key: string -> int, s: State, labels: seq<Label>, active: int, tombstones: int): State
    requires RunsFrom(key, s, labels, active, tombstones)
    decreases |labels|
  {
    if labels == [] then s else Final(key, Next(key, s, labels[0]), labels[1..], active, tombstones)
  }

  const EMPTY := State(map[], map[], map[])

  /**
   * In every interleaving of any number of transactions, whatever subjects hash to one lock, no
   * subject ever has more than `active` unrevoked committed rows.
   */
  lemma NoInterleavingExceedsTheBound(key: string -> int, labels: seq<Label>, active: nat, tombstones: int,
      subject: string)
    requires RunsFrom(key, EMPTY, labels, active, tombstones)
    ensures |Members(Final(key, EMPTY, labels, active, tombstones).rows, subject, true)| <= active
  {
    forall other
      ensures Members(EMPTY.rows, other, true) == {}
    {
    }
    RunIsSafe(key, EMPTY, labels, active, tombstones);
  }

  lemma {:induction false} RunIsSafe(key: string -> int, s: State, labels: seq<Label>, active: int, tombstones: int)
    requires Safe(key, s, active, tombstones) && RunsFrom(key, s, labels, active, tombstones)
    ensures Safe(key, Final(key, s, labels, active, tombstones), active, tombstones)
    decreases |labels|
  {
    if labels != [] {
      StepIsSafe(key, s, labels[0], active, tombstones);
      RunIsSafe(key, Next(key, s, labels[0]), labels[1..], active, tombstones);
    }
  }

  lemma NothingDoomed(none: Table, c: Command)
    requires none == map[] && c.Issue? && Accepted(c)
    ensures DeltaOf(none, c) == Delta({}, {}, Some(IssuedRecord(c)), None)
  {
    assert IssueConflicts(none, c) == {};
    assert StaleBranch(none, c.lastUsedAt) == {} && DeviceBranch(none, c.device) == {};
    assert OverflowCandidates(none, c) == {};
    assert Offset(ByAge, {}, c.maxPerSubject - 1) == {};
    assert Ids({}) == {};
    assert IssueDoomed(none, c) == {};
  }

  /**
   * The lock is what the bound rests on: two issues for one subject that both take their snapshot
   * before either commits leave two unrevoked rows where one is allowed.
   */
  lemma UnlockedSnapshotsExceedTheBound(a: Command, b: Command)
    requires a.Issue? && b.Issue? && Accepted(a) && Accepted(b)
    requires a.subject == b.subject && a.id != b.id && a.token != b.token
    requires a.maxPerSubject == b.maxPerSubject == 1
    ensures var da, db := DeltaOf(map[], a), DeltaOf(map[], b);
      && CanCommit(map[], a, da)
      && CanCommit(Apply(map[], a, da, {}), b, db)
      && |Members(Apply(Apply(map[], a, da, {}), b, db, {}), a.subject, true)| == 2
  {
    var none: Table := map[];
    NothingDoomed(none, a);
    NothingDoomed(none, b);
    InsertOnly(none, a);
    var one := none[a.id := IssuedRecord(a)];
    InsertOnly(one, b);
    BothStay(a, b);
  }

  lemma BothStay(a: Command, b: Command)
    requires a.Issue? && b.Issue? && a.subject == b.subject && a.id != b.id
    ensures |Members(map[a.id := IssuedRecord(a)][b.id := IssuedRecord(b)], a.subject, true)| == 2
  {
    assert Members(map[a.id := IssuedRecord(a)][b.id := IssuedRecord(b)], a.subject, true) == {a.id, b.id};
  }

  /** Two such logins, written out. */
  lemma TwoUnlockedLogins()
    ensures var a, b := SampleLogin('a', 1), SampleLogin('b', 1);
      && Accepted(a) && Accepted(b)
      && var da, db := DeltaOf(map[], a), DeltaOf(map[], b);
         |Members(Apply(Apply(map[], a, da, {}), b, db, {}), "operator", true)| == 2
  {
    SampleLoginIsAccepted('a', 1);
    SampleLoginIsAccepted('b', 1);
    SampleLoginsDiffer('a', 'b', 1);
    UnlockedSnapshotsExceedTheBound(SampleLogin('a', 1), SampleLogin('b', 1));
  }

  /** A delta that only inserts commits whenever its id and digest are free. */
  lemma InsertOnly(rows: Table, c: Command)
    requires c.Issue? && c.id !in rows && HoldersOf(rows, c.token) == {}
    ensures var d := Delta({}, {}, Some(IssuedRecord(c)), None);
      CanCommit(rows, c, d) && Apply(rows, c, d, {}) == rows[c.id := IssuedRecord(c)]
  {
    assert rows - {} == rows;
  }

  // ---------------------------------------------------------------------------
  // A transaction by itself
  // ---------------------------------------------------------------------------

  /** On the rows it has read, a statement passes the unique indexes and the trigger. */
  lemma OwnSnapshotCommits(rows: Table, c: Command)
    requires Inv(rows) && Accepted(c)
    ensures CanCommit(rows, c, DeltaOf(rows, c))
  {
    if c.Issue? {
      ConflictsAgree(rows, c);
    } else if c.Refresh? {
      RefreshConflictsAgree(rows, c);
      TargetRows(rows, c.id, c.now);
    } else if c.Revoke? || c.BindDevice? {
      TargetRows(rows, c.id, c.now);
    }
  }

  lemma RefreshConflictsAgree(rows: Table, c: Command)
    requires Keyed(rows) && c.Refresh?
    ensures RefreshConflicts(rows, c) == {} <==> HoldersOf(rows, c.token) - {c.id} == {}
  {
    RowsOfKeyed(rows);
    if r :| r in RefreshConflicts(rows, c) {
      assert r.id in HoldersOf(rows, c.token) - {c.id};
    }
    if id :| id in HoldersOf(rows, c.token) - {c.id} {
      assert rows[id] in RefreshConflicts(rows, c);
    }
  }

  /**
   * The statements of the protocol are those of the store: what a transaction commits on the rows it has
   * read is the table its statement leaves, whatever the command.
   */
  lemma CommitIsStatement(rows: Table, c: Command)
    requires Inv(rows) && Accepted(c)
    ensures CanCommit(rows, c, DeltaOf(rows, c))
    ensures Apply(rows, c, DeltaOf(rows, c), {}) == SqlStep(rows, c).table
  {
    OwnSnapshotCommits(rows, c);
    assert rows - {} - ({} - {}) == rows;
    match c
    case Issue(_, _, _, _, _, _, _, _, _, _, _) => IssueCommits(rows, c);
    case Get(id, now) => TargetRows(rows, id, now);
    case GetByToken(_, _) =>
    case Refresh(_, _, _, _) => RefreshCommits(rows, c);
    case Revoke(_, _, _) => RevokeCommits(rows, c);
    case BindDevice(_, _, _) => BindCommits(rows, c);
    case Sweep(_) =>
    case List(_, _, _) =>
    case Count(_) =>
  }

  lemma IssueCommits(rows: Table, c: Command)
    requires Keyed(rows) && c.Issue? && Accepted(c)
    ensures Apply(rows, c, DeltaOf(rows, c), {}) == SqlStep(rows, c).table
  {
    var doomed := IssueDoomed(rows, c);
    var none := IssueConflicts(rows, c) == {};
    assert (set id | id in doomed && none) == if none then doomed else {};
    assert rows - doomed - ({} - {}) == rows - doomed && rows - {} - ({} - {}) == rows - {};
  }

  lemma RefreshCommits(rows: Table, c: Command)
    requires Keyed(rows) && c.Refresh? && Accepted(c)
    ensures Apply(rows, c, DeltaOf(rows, c), {}) == SqlStep(rows, c).table
  {
    TargetRows(rows, c.id, c.now);
    UpdateApplies(rows, c, DeltaOf(rows, c));
  }

  lemma RevokeCommits(rows: Table, c: Command)
    requires Keyed(rows) && c.Revoke? && Accepted(c)
    ensures Apply(rows, c, DeltaOf(rows, c), {}) == SqlStep(rows, c).table
  {
    TargetRows(rows, c.id, c.now);
    RevokeSparesTarget(rows, c);
    UpdateApplies(rows, c, DeltaOf(rows, c));
  }

  lemma BindCommits(rows: Table, c: Command)
    requires Keyed(rows) && c.BindDevice? && Accepted(c)
    ensures Apply(rows, c, DeltaOf(rows, c), {}) == SqlStep(rows, c).table
  {
    TargetRows(rows, c.id, c.now);
    UpdateApplies(rows, c, DeltaOf(rows, c));
  }

  /** Applying a delta that inserts nothing: deletions, then the update of its target if that is left. */
  lemma UpdateApplies(rows: Table, c: Command, d: Delta)
    requires d.insert.None?
    ensures var left := rows - d.stale - d.evict;
      Apply(rows, c, d, {})
      == if d.update.Some? && d.update.value in left then
           left[d.update.value := Updated(left[d.update.value], c)] else left
  {
    assert rows - d.evict - (d.stale - {}) == rows - d.stale - d.evict;
  }

  /** The row a revoke marks is not among those it evicts. */
  lemma RevokeSparesTarget(rows: Table, c: Command)
    requires Keyed(rows) && c.Revoke? && Accepted(c)
    ensures c.id !in RevokeDoomed(rows, c) && (!Transitions(rows, c.id, c.now) ==> RevokeDoomed(rows, c) == {})
  {
  }

  // ---------------------------------------------------------------------------
  // The constraints under interleaving
  // ---------------------------------------------------------------------------

  /** A commit the indexes and the trigger allow keeps the table's constraints, whenever its statement ran. */
  lemma CommitKeepsConstraints(rows: Table, c: Command, d: Delta, kept: set<string>)
    requires Inv(rows) && Accepted(c) && CanCommit(rows, c, d)
    requires d.insert.Some? ==> c.Issue? && d.insert == Some(IssuedRecord(c))
    ensures Inv(Apply(rows, c, d, kept))
  {
    var after := Apply(rows, c, d, kept);
    ApplyKeyed(rows, c, d, kept);
    forall i, j | i in after && j in after && after[i].token == after[j].token
      ensures i == j
    {
      TokensStayApart(rows, c, d, kept, i, j);
    }
  }

  lemma TokensStayApart(rows: Table, c: Command, d: Delta, kept: set<string>, i: string, j: string)
    requires Inv(rows) && CanCommit(rows, c, d)
    requires d.insert.Some? ==> c.Issue? && d.insert == Some(IssuedRecord(c))
    requires var after := Apply(rows, c, d, kept); i in after && j in after && after[i].token == after[j].token
    ensures i == j
  {
    var left := rows - d.evict;
    if d.insert.Some? {
      assert forall id :: id in left ==> id !in HoldersOf(left, d.insert.value.token);
    } else if d.update.Some? && c.Refresh? {
      assert forall id :: id in rows && id != d.update.value ==> id !in HoldersOf(rows, c.token) - {d.update.value};
    }
  }

  /** And changes a row that stays only as the trigger allows. */
  lemma CommitEvolves(rows: Table, c: Command, d: Delta, kept: set<string>, id: string)
    requires CanCommit(rows, c, d) && id in rows && id in Apply(rows, c, d, kept)
    requires d.insert.Some? ==> d.insert.value.id != id
    ensures Evolves(rows[id], Apply(rows, c, d, kept)[id])
  {
  }

  lemma StepKeepsConstraints(key: string -> int, s: State, l: Label, active: int, tombstones: int)
    requires Safe(key, s, active, tombstones) && Inv(s.rows) && Enabled(key, s, l)
    ensures Inv(Next(key, s, l).rows)
  {
    if l.Commit? {
      assert TxnSafe(key, s, l.i, active, tombstones);
      CommitKeepsConstraints(s.rows, s.txns[l.i].command, s.txns[l.i].phase.delta, l.kept);
    }
  }

  /**
   * In every interleaving the committed rows meet the table's constraints, and no two answer to one bearer
   * digest: what a stale statement would break is refused at its commit.
   */
  lemma InterleavingsKeepConstraints(key: string -> int, labels: seq<Label>, active: nat, tombstones: int)
    requires RunsFrom(key, EMPTY, labels, active, tombstones)
    ensures Inv(Final(key, EMPTY, labels, active, tombstones).rows)
  {
    forall other
      ensures Members(EMPTY.rows, other, true) == {}
    {
    }
    RunKeepsConstraints(key, EMPTY, labels, active, tombstones);
  }

  lemma {:induction false} RunKeepsConstraints(
      key: string -> int, s: State, labels: seq<Label>, active: int, tombstones: int)
    requires Safe(key, s, active, tombstones) && Inv(s.rows) && RunsFrom(key, s, labels, active, tombstones)
    ensures Inv(Final(key, s, labels, active, tombstones).rows)
    decreases |labels|
  {
    if labels != [] {
      StepKeepsConstraints(key, s, labels[0], active, tombstones);
      StepIsSafe(key, s, labels[0], active, tombstones);
      RunKeepsConstraints(key, Next(key, s, labels[0]), labels[1..], active, tombstones);
    }
  }
}
