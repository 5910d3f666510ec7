/**
 * Appends to the shared audit table by any number of clients
 * (backoffice/src/server/postgres-audit-store.ts, backoffice/migrations/0001_append_only_audit.sql).
 *
 * A serializable transaction reads a single snapshot, and its first statement, the one that asks
 * for the advisory lock, is what takes it: the snapshot is older than the lock. Rows committed
 * while the transaction waited are therefore invisible to its head check. What stops it from
 * writing over them is the primary key on the sequence number, which is checked against the rows
 * actually committed.
 */
module AuditProtocol {
  import opened Wrappers
  import opened AuditChain
  import opened AuditStores

  /** Append one event if the head is the expected one, or seed the table if it is empty. */
  datatype Job = AppendJob(source: Source, expectedHead: string) | SeedJob(sources: seq<Source>)

  datatype Phase = Waiting | Holding | Inserted(added: seq<Event>)

  /** A transaction and the snapshot its first statement took. */
  datatype Txn = Txn(job: Job, snapshot: seq<Event>, phase: Phase)

  /** The committed rows in sequence order, the holder of the advisory lock, the open transactions. */
  datatype State = State(rows: seq<Event>, lock: Option<nat>, txns: map<nat, Txn>)

  datatype Label =
    | Begin(i: nat, job: Job)
    | TakeLock(i: nat)
    | Insert(i: nat, added: seq<Event>)
    | Commit(i: nat)
    | Abort(i: nat)

  /** What the transaction may write, judged on its snapshot alone. */
  ghost predicate Proposes(hash: Hash, snapshot: seq<Event>, job: Job, added: seq<Event>) {
    && Verified(hash, snapshot)
    && match job
       case AppendJob(source, expectedHead) =>
         && Head(snapshot) == expectedHead
         && !HoldsId(snapshot, source.facts.eventId)
         && |added| == 1
         && BuildEvent(hash, |snapshot| + 1, Head(snapshot), source) == Some(added[0])
       case SeedJob(sources) =>
         if snapshot == [] then Builds(hash, sources, added) else added == []
  }

  /** The primary key and the unique constraint on the event id, over the committed rows. */
  ghost predicate ConstraintsAccept(rows: seq<Event>, added: seq<Event>) {
    && (forall i, j :: 0 <= i < |rows| && 0 <= j < |added| ==> rows[i].payload.sequence != added[j].payload.sequence)
    && UniqueIds(rows + added)
  }

  ghost predicate Enabled(hash: Hash, s: State, l: Label) {
    match l
    case Begin(i, job) => i !in s.txns
    case TakeLock(i) => i in s.txns && s.txns[i].phase.Waiting? && s.lock.None?
    case Insert(i, added) =>
      && i in s.txns && s.txns[i].phase.Holding?
      && Proposes(hash, s.txns[i].snapshot, s.txns[i].job, added)
      && ConstraintsAccept(s.rows, added)
    case Commit(i) => i in s.txns && s.txns[i].phase.Inserted?
    case Abort(i) => i in s.txns
  }

  function Unlocked(s: State, i: nat): Option<nat> {
    if s.lock == Some(i) then None else s.lock
  }

  function Next(s: State, l: Label): State
    requires l.Begin? || l.i in s.txns
    requires l.Commit? ==> s.txns[l.i].phase.Inserted?
  {
    match l
    case Begin(i, job) => s.(txns := s.txns[i := Txn(job, s.rows, Waiting)])
    case TakeLock(i) => s.(lock := Some(i), txns := s.txns[i := s.txns[i].(phase := Holding)])
    case Insert(i, added) => s.(txns := s.txns[i := s.txns[i].(phase := Inserted(added))])
    case Commit(i) => State(s.rows + s.txns[i].phase.added, Unlocked(s, i), s.txns - {i})
    case Abort(i) => State(s.rows, Unlocked(s, i), s.txns - {i})
  }

  ghost predicate TxnInv(hash: Hash, s: State, i: nat)
    requires i in s.txns
  {
    var t := s.txns[i];
    && t.snapshot <= s.rows
    && (!t.phase.Waiting? ==> s.lock == Some(i))
    && (t.phase.Inserted? ==>
        (&& Verified(hash, s.rows + t.phase.added) && UniqueIds(s.rows + t.phase.added)
         && Proposes(hash, t.snapshot, t.job, t.phase.added)
         && (t.phase.added != [] ==> t.snapshot == s.rows)))
  }

  ghost predicate Inv(hash: Hash, s: State) {
    && Verified(hash, s.rows) && UniqueIds(s.rows)
    && forall i :: i in s.txns ==> TxnInv(hash, s, i)
  }

  /** In a verified chain the sequence numbers are exactly one to the length. */
  lemma SequenceTaken(hash: Hash, rows: seq<Event>, snapshot: seq<Event>)
    requires Verified(hash, rows) && snapshot <= rows && |snapshot| < |rows|
    ensures rows[|snapshot|].payload.sequence == |snapshot| + 1
  {
    assert LinkedAt(hash, rows, |snapshot|);
  }

  /** What the constraints accept was proposed on top of the very rows that are committed. */
  lemma AcceptedIsCurrent(hash: Hash, rows: seq<Event>, snapshot: seq<Event>, job: Job, added: seq<Event>)
    requires Verified(hash, rows) && snapshot <= rows
    requires Proposes(hash, snapshot, job, added) && ConstraintsAccept(rows, added) && added != []
    ensures snapshot == rows
  {
    assert added[0].payload.sequence == |snapshot| + 1 by {
      if job.SeedJob? {
        assert BuiltAt(hash, job.sources, added, 0);
      }
    }
    if |snapshot| < |rows| {
      SequenceTaken(hash, rows, snapshot);
      assert false;
    }
  }

  lemma ProposalVerifies(hash: Hash, rows: seq<Event>, job: Job, added: seq<Event>)
    requires Verified(hash, rows) && Proposes(hash, rows, job, added)
    ensures Verified(hash, rows + added)
  {
    match job
    case AppendJob(_, _) =>
      assert added == [added[0]];
      AppendVerifies(hash, rows, added[0]);
    case SeedJob(sources) =>
      if rows == [] {
        BuiltChainVerifies(hash, sources, added);
        assert rows + added == added;
      } else {
        assert rows + added == rows;
      }
  }

  lemma InsertKeepsInv(hash: Hash, s: State, i: nat, added: seq<Event>)
    requires Inv(hash, s) && Enabled(hash, s, Insert(i, added))
    ensures Inv(hash, Next(s, Insert(i, added)))
  {
    assert TxnInv(hash, s, i);
    if added == [] {
      assert s.rows + added == s.rows;
    } else {
      AcceptedIsCurrent(hash, s.rows, s.txns[i].snapshot, s.txns[i].job, added);
      ProposalVerifies(hash, s.rows, s.txns[i].job, added);
    }
    var after := Next(s, Insert(i, added));
    forall j | j in after.txns
      ensures TxnInv(hash, after, j)
    {
      if j != i {
        assert TxnInv(hash, s, j);
      }
    }
  }

  lemma CommitKeepsInv(hash: Hash, s: State, i: nat)
    requires Inv(hash, s) && Enabled(hash, s, Commit(i))
    ensures Inv(hash, Next(s, Commit(i)))
  {
    assert TxnInv(hash, s, i);
    var after := Next(s, Commit(i));
    forall j | j in after.txns
      ensures TxnInv(hash, after, j)
    {
      assert TxnInv(hash, s, j);
    }
  }

  /** Every step keeps the committed rows a verified chain with unique event ids. */
  lemma StepKeepsInv(hash: Hash, s: State, l: Label)
    requires Inv(hash, s) && Enabled(hash, s, l)
    ensures Inv(hash, Next(s, l)) && s.rows <= Next(s, l).rows
  {
    match l
    case Insert(i, added) => InsertKeepsInv(hash, s, i, added);
    case Commit(i) => CommitKeepsInv(hash, s, i);
    case _ =>
      var after := Next(s, l);
      forall j | j in after.txns
        ensures TxnInv(hash, after, j)
      {
        if j in s.txns {
          assert TxnInv(hash, s, j);
        }
      }
  }

  ghost predicate Runs(hash: Hash, s: State, labels: seq<Label>)
    decreases |labels|
  {
    labels == [] || (Enabled(hash, s, labels[0]) && Runs(hash, Next(s, labels[0]), labels[1..]))
  }

  ghost function Final(hash: Hash, s: State, labels: seq<Label>): State
    requires Runs(hash, s, labels)
    decreases |labels|
  {
    if labels == [] then s else Final(hash, Next(s, labels[0]), labels[1..])
  }

  /** In every interleaving the table is a verified chain that only grows, with unique event ids. */
  lemma {:induction false} RunKeepsInv(hash: Hash, s: State, labels: seq<Label>)
    requires Inv(hash, s) && Runs(hash, s, labels)
    ensures Inv(hash, Final(hash, s, labels)) && s.rows <= Final(hash, s, labels).rows
    decreases |labels|
  {
    if labels != [] {
      StepKeepsInv(hash, s, labels[0]);
      RunKeepsInv(hash, Next(s, labels[0]), labels[1..]);
    }
  }

  /** The append of transaction `i` commits in state `s`, expecting the given head. */
  predicate AppendsOn(s: State, i: nat, expectedHead: string) {
    i in s.txns && s.txns[i].phase.Inserted? && s.txns[i].job.AppendJob? && s.txns[i].job.expectedHead == expectedHead
  }

  /**
   * However many clients append with the same expected head, at most one commits: if another
   * commits later in the run, the rows exhibit a collision of the hash.
   */
  lemma OneCommitPerHead(hash: Hash, s: State, i: nat, labels: seq<Label>, j: nat, expectedHead: string)
    requires Inv(hash, s) && Enabled(hash, s, Commit(i)) && AppendsOn(s, i, expectedHead)
    requires Runs(hash, Next(s, Commit(i)), labels)
    requires AppendsOn(Final(hash, Next(s, Commit(i)), labels), j, expectedHead)
    ensures Collides(hash, EventSet(Final(hash, Next(s, Commit(i)), labels).rows))
  {
    assert TxnInv(hash, s, i);
    StepKeepsInv(hash, s, Commit(i));
    RunKeepsInv(hash, Next(s, Commit(i)), labels);
    var later := Final(hash, Next(s, Commit(i)), labels);
    assert TxnInv(hash, later, j);
    assert s.txns[i].snapshot == s.rows && later.txns[j].snapshot == later.rows;
    assert later.rows[..|s.rows|] == s.rows;
    assert later.rows[..|later.rows|] == later.rows;
    HeadsDiffer(hash, later.rows, |s.rows|, |later.rows|);
  }

  // ---------------------------------------------------------------------------
  // One transaction by itself
  // ---------------------------------------------------------------------------

  /**
   * On the rows it has read, a transaction may write exactly what the in-memory store with room for it
   * would append, and the constraints accept it.
   */
  lemma ProposalIsAppend(hash: Hash, rows: seq<Event>, source: Source, expectedHead: string, added: seq<Event>)
    requires Verified(hash, rows) && UniqueIds(rows)
    ensures Proposes(hash, rows, AppendJob(source, expectedHead), added)
      <==> var answer := AppendAnswer(hash, |rows| + 1, rows, source, expectedHead);
           answer.Appended? && added == [answer.event]
    ensures Proposes(hash, rows, AppendJob(source, expectedHead), added) ==> ConstraintsAccept(rows, added)
  {
    if Proposes(hash, rows, AppendJob(source, expectedHead), added) {
      assert added == [added[0]];
      forall i | 0 <= i < |rows|
        ensures rows[i].payload.sequence != added[0].payload.sequence
      {
        assert LinkedAt(hash, rows, i);
      }
      assert UniqueIds(rows + added);
    }
  }

  // ---------------------------------------------------------------------------
  // What the primary key is for
  // ---------------------------------------------------------------------------

  /** Two appends to the same rows, each good by itself, under event ids of their own. */
  ghost predicate Rivals(hash: Hash, rows: seq<Event>, a: Source, b: Source, first: Event, second: Event) {
    && Verified(hash, rows) && UniqueIds(rows) && a.facts.eventId != b.facts.eventId
    && !HoldsId(rows, a.facts.eventId) && !HoldsId(rows, b.facts.eventId)
    && BuildEvent(hash, |rows| + 1, Head(rows), a) == Some(first)
    && BuildEvent(hash, |rows| + 1, Head(rows), b) == Some(second)
  }

  /** Whatever the hash, there are such appends. */
  lemma RivalsExist(hash: Hash) returns (a: Source, b: Source, first: Event, second: Event)
    ensures Rivals(hash, [], a, b, first, second)
  {
    a := Source(Facts("a", "", "", "", Recorded, "", []), Some(0));
    b := a.(facts := a.facts.(eventId := "b"));
    first, second := BuildEvent(hash, 1, GENESIS, a).value, BuildEvent(hash, 1, GENESIS, b).value;
    assert "a"[0] != "b"[0];
  }

  lemma RivalRows(hash: Hash, rows: seq<Event>, a: Source, b: Source, first: Event, second: Event)
    requires Rivals(hash, rows, a, b, first, second)
    ensures UniqueIds(rows + [first]) && UniqueIds(rows + [first] + [second])
    ensures ConstraintsAccept(rows, [first])
  {
    forall i | 0 <= i < |rows|
      ensures rows[i].payload.sequence != first.payload.sequence
      ensures rows[i].payload.facts.eventId != a.facts.eventId && rows[i].payload.facts.eventId != b.facts.eventId
    {
      assert LinkedAt(hash, rows, i);
    }
  }

  /** Both begin before either has the lock; the first then runs to its end and the second takes the lock. */
  function RivalRun(rows: seq<Event>, a: Source, b: Source, first: Event): seq<Label> {
    [Begin(1, AppendJob(a, Head(rows)))] + ([Begin(2, AppendJob(b, Head(rows)))]
    + ([TakeLock(1)] + ([Insert(1, [first])] + ([Commit(1)] + ([TakeLock(2)] + [])))))
  }

  lemma RunsStep(hash: Hash, s: State, l: Label, rest: seq<Label>)
    requires Enabled(hash, s, l) && Runs(hash, Next(s, l), rest)
    ensures Runs(hash, s, [l] + rest)
    ensures Final(hash, s, [l] + rest) == Final(hash, Next(s, l), rest)
  {
    assert ([l] + rest)[1..] == rest;
  }

  lemma RivalsRun(hash: Hash, rows: seq<Event>, a: Source, b: Source, first: Event, second: Event)
    requires Rivals(hash, rows, a, b, first, second)
    ensures Runs(hash, State(rows, None, map[]), RivalRun(rows, a, b, first))
    ensures Final(hash, State(rows, None, map[]), RivalRun(rows, a, b, first))
      == State(rows + [first], Some(2), map[2 := Txn(AppendJob(b, Head(rows)), rows, Holding)])
  {
    var one, two := Txn(AppendJob(a, Head(rows)), rows, Waiting), Txn(AppendJob(b, Head(rows)), rows, Waiting);
    var s0, s1 := State(rows, None, map[]), State(rows, None, map[1 := one]);
    var s2 := State(rows, None, map[1 := one, 2 := two]);
    var s3 := State(rows, Some(1), map[1 := one.(phase := Holding), 2 := two]);
    var s4 := State(rows, Some(1), map[1 := one.(phase := Inserted([first])), 2 := two]);
    var s5 := State(rows + [first], None, map[2 := two]);
    RivalRows(hash, rows, a, b, first, second);
    assert Next(s5, TakeLock(2)) == State(rows + [first], Some(2), map[2 := two.(phase := Holding)]);
    RunsStep(hash, s5, TakeLock(2), []);
    assert Next(s4, Commit(1)) == s5;
    RunsStep(hash, s4, Commit(1), [TakeLock(2)] + []);
    assert Next(s3, Insert(1, [first])) == s4;
    RunsStep(hash, s3, Insert(1, [first]), [Commit(1)] + ([TakeLock(2)] + []));
    assert Next(s2, TakeLock(1)) == s3;
    var rest := [Insert(1, [first])] + ([Commit(1)] + ([TakeLock(2)] + []));
    RunsStep(hash, s2, TakeLock(1), rest);
    assert Next(s1, Begin(2, two.job)) == s2 && Next(s0, Begin(1, one.job)) == s1;
    RunsStep(hash, s1, Begin(2, two.job), [TakeLock(1)] + rest);
    RunsStep(hash, s0, Begin(1, one.job), [Begin(2, two.job)] + ([TakeLock(1)] + rest));
  }

  /**
   * Neither the lock, nor the head check, nor the unique event ids stop the second of two appends that
   * began on the same rows: under the lock, its own snapshot lets it write a row that would break the
   * chain. Of the constraints only the primary key refuses it.
   */
  lemma OnlyThePrimaryKeyStopsIt(hash: Hash, rows: seq<Event>, a: Source, b: Source, first: Event, second: Event)
    requires Rivals(hash, rows, a, b, first, second)
    ensures Runs(hash, State(rows, None, map[]), RivalRun(rows, a, b, first))
    ensures var s := Final(hash, State(rows, None, map[]), RivalRun(rows, a, b, first));
      && s.rows == rows + [first] && s.lock == Some(2) && 2 in s.txns && s.txns[2].phase.Holding?
      && Proposes(hash, s.txns[2].snapshot, s.txns[2].job, [second]) && UniqueIds(s.rows + [second])
      && !ConstraintsAccept(s.rows, [second]) && !Verified(hash, s.rows + [second])
  {
    RivalsRun(hash, rows, a, b, first, second);
    RivalRows(hash, rows, a, b, first, second);
    var broken := rows + [first] + [second];
    assert broken[|rows|] == first && broken[|rows| + 1] == second;
    assert !LinkedAt(hash, broken, |rows| + 1);
    assert (rows + [first])[|rows|].payload.sequence == [second][0].payload.sequence;
  }
}
