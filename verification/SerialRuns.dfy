/**
 * Transactions run one after the other: the write protocol is then the store's own statements in turn
 * (enqueueWrite in backoffice/src/server/postgres-session-store.ts).
 */
module SerialRuns {
  import opened Wrappers
  import opened SessionRecords
  import opened SessionSteps
  import opened SessionRuns
  import opened SqlSessionStore
  import opened SessionBackends
  import opened SubjectLock

  /** No transaction is open and no lock is held. */
  function Idle(rows: Table): State {
    State(rows, map[], map[])
  }

  /** The state a run ends in, if each of its steps is one the protocol allows. */
  function EndOf(key: string -> int, s: State, labels: seq<Label>): Option<State>
    decreases |labels|
  {
    if labels == [] then Some(s)
    else if !Enabled(key, s, labels[0]) then None
    else EndOf(key, Next(key, s, labels[0]), labels[1..])
  }

  /** One transaction from its begin to its commit, resolving and locking what its command asks for; then `rest`. */
  function Alone(rows: Table, c: Command, rest: seq<Label>): seq<Label> {
    var ends := [Execute(0)] + ([Commit(0, {})] + rest);
    if c.Issue? then [Begin(0, c)] + ([Lock(0)] + ends)
    else if c.Revoke? then [Begin(0, c)] + ([ResolveSubject(0)] + if c.id in rows then [Lock(0)] + ends else ends)
    else [Begin(0, c)] + ends
  }

  ghost function Serial(rows: Table, commands: seq<Command>): seq<Label>
    requires Inv(rows)
    decreases |commands|
  {
    if commands == [] then []
    else
      BackendsAgree(rows, commands[0]);
      StepKeepsInv(rows, commands[0]);
      Alone(rows, commands[0], Serial(SqlStep(rows, commands[0]).table, commands[1..]))
  }

  lemma OneStep(key: string -> int, s: State, l: Label, rest: seq<Label>)
    requires Enabled(key, s, l)
    ensures EndOf(key, s, [l] + rest) == EndOf(key, Next(key, s, l), rest)
  {
    assert ([l] + rest)[1..] == rest;
  }

  /** From a ready transaction on: the statement and its commit leave what the statement leaves. */
  lemma ReadyRuns(key: string -> int, rows: Table, c: Command, holds: Option<string>, rest: seq<Label>)
    requires Inv(rows) && Accepted(c)
    ensures var locks := if holds.Some? then map[key(holds.value) := 0] else map[];
      EndOf(key, State(rows, locks, map[0 := Txn(c, Ready(holds))]), [Execute(0)] + ([Commit(0, {})] + rest))
      == EndOf(key, Idle(SqlStep(rows, c).table), rest)
  {
    var locks := if holds.Some? then map[key(holds.value) := 0] else map[];
    var d := DeltaOf(rows, c);
    CommitIsStatement(rows, c);
    CommitRuns(key, rows, locks, c, holds, d, rest);
    ExecuteRuns(key, rows, locks, c, holds, d, [Commit(0, {})] + rest);
  }

  lemma ExecuteRuns(
      key: string -> int, rows: Table, locks: map<int, nat>, c: Command, holds: Option<string>, d: Delta,
      rest: seq<Label>)
    requires Accepted(c) && DeltaOf(rows, c) == d
    ensures EndOf(key, State(rows, locks, map[0 := Txn(c, Ready(holds))]), [Execute(0)] + rest)
      == EndOf(key, State(rows, locks, map[0 := Txn(c, Executed(holds, d))]), rest)
  {
    var s, ran := State(rows, locks, map[0 := Txn(c, Ready(holds))]), Txn(c, Executed(holds, d));
    assert s.txns[0 := ran] == map[0 := ran];
    OneStep(key, s, Execute(0), rest);
  }

  lemma CommitRuns(
      key: string -> int, rows: Table, locks: map<int, nat>, c: Command, held: Option<string>, d: Delta,
      rest: seq<Label>)
    requires CanCommit(rows, c, d) && forall k :: k in locks ==> locks[k] == 0
    ensures EndOf(key, State(rows, locks, map[0 := Txn(c, Executed(held, d))]), [Commit(0, {})] + rest)
      == EndOf(key, Idle(Apply(rows, c, d, {})), rest)
  {
    var s := State(rows, locks, map[0 := Txn(c, Executed(held, d))]);
    assert forall k :: k !in Released(locks, 0);
    assert s.txns - {0} == map[] && Released(locks, 0) == map[];
    OneStep(key, s, Commit(0, {}), rest);
  }

  lemma LockedRuns(key: string -> int, rows: Table, c: Command, subject: string, rest: seq<Label>)
    requires Inv(rows) && Accepted(c)
    ensures EndOf(key, State(rows, map[], map[0 := Txn(c, Waiting(subject))]),
                  [Lock(0)] + ([Execute(0)] + ([Commit(0, {})] + rest)))
      == EndOf(key, Idle(SqlStep(rows, c).table), rest)
  {
    var s := State(rows, map[], map[0 := Txn(c, Waiting(subject))]);
    ReadyRuns(key, rows, c, Some(subject), rest);
    var ready := Txn(c, Ready(Some(subject)));
    assert s.txns[0 := ready] == map[0 := ready] && s.locks[key(subject) := 0] == map[key(subject) := 0];
    OneStep(key, s, Lock(0), [Execute(0)] + ([Commit(0, {})] + rest));
  }

  lemma ResolvedRuns(key: string -> int, rows: Table, c: Command, rest: seq<Label>)
    requires Inv(rows) && Accepted(c) && c.Revoke?
    ensures var ends := [Execute(0)] + ([Commit(0, {})] + rest);
      EndOf(key, State(rows, map[], map[0 := Txn(c, Started)]),
            [ResolveSubject(0)] + if c.id in rows then [Lock(0)] + ends else ends)
      == EndOf(key, Idle(SqlStep(rows, c).table), rest)
  {
    var ends := [Execute(0)] + ([Commit(0, {})] + rest);
    var s := State(rows, map[], map[0 := Txn(c, Started)]);
    var resolved := Txn(c, if c.id in rows then Waiting(rows[c.id].subject) else Ready(None));
    assert s.txns[0 := resolved] == map[0 := resolved];
    OneStep(key, s, ResolveSubject(0), if c.id in rows then [Lock(0)] + ends else ends);
    if c.id in rows {
      LockedRuns(key, rows, c, rows[c.id].subject, rest);
    } else {
      ReadyRuns(key, rows, c, None, rest);
    }
  }

  /** Alone, any transaction is allowed all its steps and leaves what its statement leaves. */
  lemma AloneIsStatement(key: string -> int, rows: Table, c: Command, rest: seq<Label>)
    requires Inv(rows) && Accepted(c)
    ensures EndOf(key, Idle(rows), Alone(rows, c, rest)) == EndOf(key, Idle(SqlStep(rows, c).table), rest)
  {
    var ends := [Execute(0)] + ([Commit(0, {})] + rest);
    if c.Issue? {
      LockedRuns(key, rows, c, c.subject, rest);
      OneStep(key, Idle(rows), Begin(0, c), [Lock(0)] + ends);
    } else if c.Revoke? {
      var after := if c.id in rows then [Lock(0)] + ends else ends;
      OneStep(key, Idle(rows), Begin(0, c), [ResolveSubject(0)] + after);
      ResolvedRuns(key, rows, c, rest);
    } else {
      ReadyRuns(key, rows, c, None, rest);
      OneStep(key, Idle(rows), Begin(0, c), ends);
    }
  }

  /** Run one after the other, the transactions of any accepted commands leave the rows of the store's run. */
  lemma {:induction false} SerialRunsAreStoreRuns(key: string -> int, rows: Table, commands: seq<Command>)
    requires Inv(rows) && forall i :: 0 <= i < |commands| ==> Accepted(commands[i])
    ensures EndOf(key, Idle(rows), Serial(rows, commands)) == Some(Idle(SqlRun(rows, commands).table))
    decreases |commands|
  {
    if commands != [] {
      BackendsAgree(rows, commands[0]);
      StepKeepsInv(rows, commands[0]);
      var next, more := SqlStep(rows, commands[0]).table, commands[1..];
      AloneIsStatement(key, rows, commands[0], Serial(next, more));
      SerialRunsAreStoreRuns(key, next, more);
    }
  }
}
