/**
 * Runs of commands against the two backends, and against a store that never evicts lazily.
 */
module SessionBackends {
  import opened Wrappers
  import opened SessionRecords
  import opened SessionSteps
  import opened SessionRuns
  import opened SqlSessionStore

  datatype Outcome = Outcome(table: Table, answers: seq<Answer>)

  ghost function MemoryRun(t: Table, commands: seq<Command>): Outcome
    requires Inv(t)
    decreases |commands|
  {
    if commands == [] then Outcome(t, [])
    else
      StepKeepsInv(t, commands[0]);
      var first := MemoryStep(t, commands[0]);
      var rest := MemoryRun(first.table, commands[1..]);
      Outcome(rest.table, [first.answer] + rest.answers)
  }

  ghost function SqlRun(t: Table, commands: seq<Command>): Outcome
    requires Inv(t)
    decreases |commands|
  {
    if commands == [] then Outcome(t, [])
    else
      BackendsAgree(t, commands[0]);
      StepKeepsInv(t, commands[0]);
      var first := SqlStep(t, commands[0]);
      var rest := SqlRun(first.table, commands[1..]);
      Outcome(rest.table, [first.answer] + rest.answers)
  }

  /** In queue order, any command list gets the same answers and leaves the same rows on both backends. */
  lemma {:induction false} RunsAgree(t: Table, commands: seq<Command>)
    requires Inv(t)
    ensures SqlRun(t, commands) == MemoryRun(t, commands)
    decreases |commands|
  {
    if commands != [] {
      BackendsAgree(t, commands[0]);
      StepKeepsInv(t, commands[0]);
      RunsAgree(MemoryStep(t, commands[0]).table, commands[1..]);
    }
  }

  // ---------------------------------------------------------------------------
  // Lazy expiry cannot be observed
  // ---------------------------------------------------------------------------

  /**
   * The store that only filters: expired rows are never evicted, they are just not seen. Rows go
   * away by displacement and by the per-subject bounds alone.
   */
  ghost function FilterStep(f: Table, c: Command): Step
    requires Keyed(f)
  {
    if !Accepted(c) then Step(f, BadCommand)
    else
      match c
      case Issue(_, _, _, _, _, _, _, _, _, _, _) =>
        if c.id in f || HoldersOf(f, c.token) != {} then Step(f, Conflicting)
        else
          Step((f - Displaced(f, c))[c.id := IssuedRecord(c)], Found(Some(IssuedRecord(c))))
      case Get(id, now) =>
        Step(f, Found(if id in f && !Stale(f[id], now) then Some(f[id]) else None))
      case GetByToken(token, now) =>
        if HoldersOf(f, token) == {} then Step(f, Found(None))
        else
          var id :| id in HoldersOf(f, token);
          Step(f, Found(if !Stale(f[id], now) then Some(f[id]) else None))
      case Refresh(id, token, now, _) =>
        if id !in f || !LiveAt(f[id], now) then Step(f, Found(None))
        else if HoldersOf(f, token) - {id} != {} then Step(f, Conflicting)
        else Step(f[id := RefreshedRecord(f[id], c)], Found(Some(RefreshedRecord(f[id], c))))
      case Revoke(id, now, max) =>
        if id !in f || !LiveAt(f[id], now) then Step(f, Found(None))
        else
          Step(WithoutOverflow(f, f[id].subject, false, max)[id := RevokedRecord(f[id], c)],
               Found(Some(RevokedRecord(f[id], c))))
      case BindDevice(id, _, now) =>
        if id !in f || !LiveAt(f[id], now) || f[id].device.Some? then Step(f, Found(None))
        else Step(f[id := BoundRecord(f[id], c)], Found(Some(BoundRecord(f[id], c))))
      case Sweep(now) => Step(f, Swept(|StaleIds(f, now)|))
      case List(subject, now, limit) => ListStep(f, subject, now, limit)
      case Count(now) => CountStep(f, now)
  }

  /** The live rows a login removes: its device's, and its subject's beyond the bound. */
  ghost function Displaced(f: Table, c: Command): set<string>
    requires c.Issue? && Accepted(c) && Keyed(f)
  {
    var live := WithoutStale(f, c.lastUsedAt);
    var ofDevice := DeviceIds(live, c.device);
    ofDevice + Ids(Offset(ByAge, RowsOf(live - ofDevice, c.subject, true), c.maxPerSubject - 1))
  }

  /** The evicting store `t` holds the filtering store's rows but for some that are already expired. */
  ghost predicate Lags(t: Table, f: Table, now: int) {
    && Inv(t) && Keyed(f) && UniqueTokens(f)
    && t.Keys <= f.Keys
    && (forall id :: id in t ==> t[id] == f[id])
    && (forall id :: id in f && id !in t ==> Stale(f[id], now))
  }

  /** What an issue or a refresh must find free is taken in the one store exactly when it is in the other. */
  predicate SameConflicts(t: Table, f: Table, c: Command) {
    if c.Issue? then
      Accepted(c) ==>
        (c.id in f || HoldersOf(f, c.token) != {} <==> c.id in t || HoldersOf(t, c.token) != {})
    else if c.Refresh? then
      Accepted(c) && c.id in f && LiveAt(f[c.id], c.now) ==>
        (HoldersOf(f, c.token) - {c.id} != {} <==> HoldersOf(t, c.token) - {c.id} != {})
    else true
  }

  lemma LagsLater(t: Table, f: Table, earlier: int, now: int)
    requires Lags(t, f, earlier) && earlier <= now
    ensures Lags(t, f, now)
  {
  }

  lemma SameLiveRows(t: Table, f: Table, now: int)
    requires Lags(t, f, now)
    ensures LiveRows(t, now) == LiveRows(f, now)
    ensures WithoutStale(t, now) == WithoutStale(f, now)
    ensures forall subject :: RowsOf(t, subject, false) == RowsOf(f, subject, false)
  {
    RowsOfKeyed(t);
    RowsOfKeyed(f);
  }

  lemma IssueLags(t: Table, f: Table, c: Command)
    requires c.Issue? && Accepted(c) && Lags(t, f, c.lastUsedAt) && SameConflicts(t, f, c)
    ensures FilterStep(f, c).answer == MemoryStep(t, c).answer
    ensures Lags(MemoryStep(t, c).table, FilterStep(f, c).table, c.lastUsedAt)
  {
    SameLiveRows(t, f, c.lastUsedAt);
    if !(c.id in f || HoldersOf(f, c.token) != {}) {
      StepKeepsInv(t, c);
      RoomIsLive(t, f, c);
      InsertedLags(f, c, Displaced(f, c));
    }
  }

  lemma RoomIsLive(t: Table, f: Table, c: Command)
    requires c.Issue? && Accepted(c) && Keyed(f) && WithoutStale(t, c.lastUsedAt) == WithoutStale(f, c.lastUsedAt)
    ensures RoomFor(t, c) == WithoutStale(f, c.lastUsedAt) - Displaced(f, c)
  {
  }

  lemma InsertedLags(f: Table, c: Command, doomed: set<string>)
    requires c.Issue? && Keyed(f) && UniqueTokens(f) && c.id !in f && HoldersOf(f, c.token) == {}
    requires Inv((WithoutStale(f, c.lastUsedAt) - doomed)[c.id := IssuedRecord(c)])
    ensures Lags((WithoutStale(f, c.lastUsedAt) - doomed)[c.id := IssuedRecord(c)],
                 (f - doomed)[c.id := IssuedRecord(c)], c.lastUsedAt)
  {
    FilterRoom(f, c, doomed);
  }

  lemma FilterRoom(f: Table, c: Command, doomed: set<string>)
    requires c.Issue? && Keyed(f) && UniqueTokens(f) && c.id !in f && HoldersOf(f, c.token) == {}
    ensures var after := (f - doomed)[c.id := IssuedRecord(c)]; Keyed(after) && UniqueTokens(after)
  {
    forall id | id in f
      ensures f[id].token != c.token
    {
      assert id !in HoldersOf(f, c.token);
    }
  }

  /** One row rewritten under a digest that stays its own leaves the stores related. */
  lemma RewrittenLags(t: Table, f: Table, r: Record, now: int)
    requires Lags(t, f, now) && r.id in t && Inv(t[r.id := r])
    requires forall id :: id in f && f[id].token == r.token ==> id == r.id
    ensures Lags(t[r.id := r], f[r.id := r], now)
  {
  }

  /** A row that has expired can be gone from the one store and unseen in the other. */
  lemma DroppedLags(t: Table, f: Table, id: string, now: int)
    requires Lags(t, f, now) && id in t && Stale(t[id], now) && Inv(t - {id})
    ensures Lags(t - {id}, f, now)
  {
  }

  lemma RefreshLags(t: Table, f: Table, c: Command)
    requires c.Refresh? && Accepted(c) && Lags(t, f, c.now) && SameConflicts(t, f, c)
    ensures FilterStep(f, c).answer == MemoryStep(t, c).answer
    ensures Lags(MemoryStep(t, c).table, FilterStep(f, c).table, c.now)
  {
    StepKeepsInv(t, c);
    if c.id in t && Stale(t[c.id], c.now) {
      DroppedLags(t, f, c.id, c.now);
    } else if c.id in t && LiveAt(t[c.id], c.now) && HoldersOf(f, c.token) - {c.id} == {} {
      forall id | id in f && f[id].token == c.token
        ensures id == c.id
      {
        assert id !in HoldersOf(f, c.token) - {c.id};
      }
      RewrittenLags(t, f, RefreshedRecord(t[c.id], c), c.now);
    }
  }

  lemma BindLags(t: Table, f: Table, c: Command)
    requires c.BindDevice? && Accepted(c) && Lags(t, f, c.now)
    ensures FilterStep(f, c).answer == MemoryStep(t, c).answer
    ensures Lags(MemoryStep(t, c).table, FilterStep(f, c).table, c.now)
  {
    StepKeepsInv(t, c);
    if c.id in t && Stale(t[c.id], c.now) {
      DroppedLags(t, f, c.id, c.now);
    } else if c.id in t && LiveAt(t[c.id], c.now) && t[c.id].device.None? {
      RewrittenLags(t, f, BoundRecord(t[c.id], c), c.now);
    }
  }

  lemma RevokeLags(t: Table, f: Table, c: Command)
    requires c.Revoke? && Accepted(c) && Lags(t, f, c.now)
    ensures FilterStep(f, c).answer == MemoryStep(t, c).answer
    ensures Lags(MemoryStep(t, c).table, FilterStep(f, c).table, c.now)
  {
    StepKeepsInv(t, c);
    SameLiveRows(t, f, c.now);
    if c.id in f && LiveAt(f[c.id], c.now) {
      assert c.id in t;
      var subject := f[c.id].subject;
      var doomed := Ids(Offset(ByAge, RowsOf(f, subject, false), c.maxRevokedPerSubject));
      assert WithoutOverflow(f, subject, false, c.maxRevokedPerSubject) == f - doomed;
      assert WithoutOverflow(t, subject, false, c.maxRevokedPerSubject) == t - doomed;
      var after := (f - doomed)[c.id := RevokedRecord(f[c.id], c)];
      assert FilterStep(f, c).table == after;
      assert MemoryStep(t, c).table == (t - doomed)[c.id := RevokedRecord(f[c.id], c)];
    }
  }

  lemma GetByTokenLags(t: Table, f: Table, token: string, now: int)
    requires Lags(t, f, now) && Digest(token) && Instant(now)
    ensures FilterStep(f, GetByToken(token, now)).answer == MemoryStep(t, GetByToken(token, now)).answer
    ensures Lags(MemoryStep(t, GetByToken(token, now)).table, f, now)
  {
    StepKeepsInv(t, GetByToken(token, now));
    forall id | id in HoldersOf(f, token)
      ensures HoldersOf(f, token) == {id}
    {
    }
    assert HoldersOf(t, token) <= HoldersOf(f, token);
    forall id | id in HoldersOf(f, token) && id in t
      ensures id in HoldersOf(t, token)
    {
    }
  }

  /** On one command the two stores answer alike, a sweep's count apart, and stay related. */
  lemma StepLags(t: Table, f: Table, c: Command)
    requires Lags(t, f, Clock(c)) && SameConflicts(t, f, c)
    ensures !c.Sweep? ==> FilterStep(f, c).answer == MemoryStep(t, c).answer
    ensures Lags(MemoryStep(t, c).table, FilterStep(f, c).table, Clock(c))
  {
    if Accepted(c) {
      StepKeepsInv(t, c);
      SameLiveRows(t, f, Clock(c));
      match c
      case Issue(_, _, _, _, _, _, _, _, _, _, _) => IssueLags(t, f, c);
      case Refresh(_, _, _, _) => RefreshLags(t, f, c);
      case BindDevice(_, _, _) => BindLags(t, f, c);
      case Revoke(_, _, _) => RevokeLags(t, f, c);
      case GetByToken(token, now) => GetByTokenLags(t, f, token, now);
      case List(subject, now, limit) => assert LiveRowsOf(t, subject, now) == LiveRowsOf(f, subject, now);
      case _ =>
    }
  }

  /** On one command, a sweep apart, the answers are equal exactly when the conflicts are the same. */
  lemma StepExact(t: Table, f: Table, c: Command)
    requires Lags(t, f, Clock(c)) && !c.Sweep?
    ensures FilterStep(f, c).answer == MemoryStep(t, c).answer <==> SameConflicts(t, f, c)
  {
    if SameConflicts(t, f, c) {
      StepLags(t, f, c);
    }
  }

  /** The clock of the run never goes back. */
  predicate ClockForward(commands: seq<Command>, now: int)
    decreases |commands|
  {
    commands == [] || (now <= Clock(commands[0]) && ClockForward(commands[1..], Clock(commands[0])))
  }

  /** The conflicts are the same at every step of the run. */
  ghost predicate SameConflictsThroughout(t: Table, f: Table, commands: seq<Command>)
    requires Inv(t) && Keyed(f)
    decreases |commands|
  {
    commands == []
    || (StepKeepsInv(t, commands[0]);
        FilterKeepsKeys(f, commands[0]);
        && SameConflicts(t, f, commands[0])
        && SameConflictsThroughout(MemoryStep(t, commands[0]).table, FilterStep(f, commands[0]).table, commands[1..]))
  }

  ghost function FilterAnswers(f: Table, commands: seq<Command>): seq<Answer>
    requires Keyed(f)
    decreases |commands|
  {
    if commands == [] then []
    else
      var first := FilterStep(f, commands[0]);
      FilterKeepsKeys(f, commands[0]);
      [first.answer] + FilterAnswers(first.table, commands[1..])
  }

  lemma FilterKeepsKeys(f: Table, c: Command)
    requires Keyed(f)
    ensures Keyed(FilterStep(f, c).table)
  {
  }

  /** Every command of the run but a sweep gets the same answer from both stores. */
  ghost predicate AnswersAgree(t: Table, f: Table, commands: seq<Command>)
    requires Inv(t) && Keyed(f)
  {
    AnswerCounts(t, f, commands);
    SameAnswers(commands, FilterAnswers(f, commands), MemoryRun(t, commands).answers)
  }

  predicate SameAnswers(commands: seq<Command>, a: seq<Answer>, b: seq<Answer>)
    requires |a| == |b| == |commands|
  {
    forall i :: 0 <= i < |commands| && !commands[i].Sweep? ==> a[i] == b[i]
  }

  lemma FirstAnswer(c: Command, rest: seq<Command>, x: Answer, a: seq<Answer>, y: Answer, b: seq<Answer>)
    requires |a| == |b| == |rest|
    ensures SameAnswers([c] + rest, [x] + a, [y] + b) <==> (c.Sweep? || x == y) && SameAnswers(rest, a, b)
  {
    assert ([c] + rest)[0] == c && ([x] + a)[0] == x && ([y] + b)[0] == y;
    if SameAnswers([c] + rest, [x] + a, [y] + b) {
      forall i | 0 <= i < |rest| && !rest[i].Sweep?
        ensures a[i] == b[i]
      {
        assert ([c] + rest)[i + 1] == rest[i] && ([x] + a)[i + 1] == a[i] && ([y] + b)[i + 1] == b[i];
      }
    }
  }

  lemma AnswersInTurn(t: Table, f: Table, commands: seq<Command>)
    requires Inv(t) && Keyed(f) && commands != []
    ensures Inv(MemoryStep(t, commands[0]).table) && Keyed(FilterStep(f, commands[0]).table)
    ensures AnswersAgree(t, f, commands) <==>
      && (commands[0].Sweep? || FilterStep(f, commands[0]).answer == MemoryStep(t, commands[0]).answer)
      && AnswersAgree(MemoryStep(t, commands[0]).table, FilterStep(f, commands[0]).table, commands[1..])
  {
    var c, rest := commands[0], commands[1..];
    StepKeepsInv(t, c);
    FilterKeepsKeys(f, c);
    var t', f' := MemoryStep(t, c).table, FilterStep(f, c).table;
    AnswerCounts(t, f, commands);
    AnswerCounts(t', f', rest);
    assert commands == [c] + rest;
    FirstAnswer(c, rest, FilterStep(f, c).answer, FilterAnswers(f', rest),
                MemoryStep(t, c).answer, MemoryRun(t', rest).answers);
  }

  /**
   * Lazy expiry cannot be observed: over every run whose clock never goes back, every command but a
   * sweep gets the answer of a store that only filters expired rows and never evicts them, exactly when
   * no step presents an id or digest that only an evicted row still takes.
   */
  lemma {:induction false} LazyExpiryIsInvisible(t: Table, f: Table, commands: seq<Command>, now: int)
    requires Lags(t, f, now) && ClockForward(commands, now)
    ensures AnswersAgree(t, f, commands) <==> SameConflictsThroughout(t, f, commands)
    decreases |commands|
  {
    if commands != [] {
      var c := commands[0];
      LagsLater(t, f, now, Clock(c));
      AnswersInTurn(t, f, commands);
      if !c.Sweep? {
        StepExact(t, f, c);
      }
      if SameConflicts(t, f, c) {
        StepLags(t, f, c);
        LazyExpiryIsInvisible(MemoryStep(t, c).table, FilterStep(f, c).table, commands[1..], Clock(c));
      }
    }
  }

  /** Every id a login brings, and every digest a login or a rotation brings, is new to the run. */
  predicate BringsNew(ids: set<string>, tokens: set<string>, commands: seq<Command>)
    decreases |commands|
  {
    commands == []
    || (var c := commands[0];
        && (c.Issue? ==> c.id !in ids)
        && (c.Issue? || c.Refresh? ==> c.token !in tokens)
        && BringsNew(if c.Issue? then ids + {c.id} else ids,
                     if c.Issue? || c.Refresh? then tokens + {c.token} else tokens, commands[1..]))
  }

  /** The filtering store holds nothing but what was brought. */
  ghost predicate HoldsBrought(f: Table, ids: set<string>, tokens: set<string>) {
    f.Keys <= ids && forall id :: id in f ==> f[id].token in tokens
  }

  lemma FilterHoldsBrought(f: Table, c: Command, ids: set<string>, tokens: set<string>)
    requires Keyed(f) && HoldsBrought(f, ids, tokens)
    ensures HoldsBrought(FilterStep(f, c).table, if c.Issue? then ids + {c.id} else ids,
                         if c.Issue? || c.Refresh? then tokens + {c.token} else tokens)
  {
  }

  lemma {:induction false} NewIdsHideLazyExpiry(
      t: Table, f: Table, commands: seq<Command>, now: int, ids: set<string>, tokens: set<string>)
    requires Lags(t, f, now) && ClockForward(commands, now)
    requires HoldsBrought(f, ids, tokens) && BringsNew(ids, tokens, commands)
    ensures SameConflictsThroughout(t, f, commands)
    decreases |commands|
  {
    if commands != [] {
      var c := commands[0];
      LagsLater(t, f, now, Clock(c));
      assert SameConflicts(t, f, c);
      StepLags(t, f, c);
      FilterHoldsBrought(f, c, ids, tokens);
      NewIdsHideLazyExpiry(MemoryStep(t, c).table, FilterStep(f, c).table, commands[1..], Clock(c),
                           if c.Issue? then ids + {c.id} else ids,
                           if c.Issue? || c.Refresh? then tokens + {c.token} else tokens);
    }
  }

  /** From the empty store, with random ids and digests that never repeat, lazy expiry is never seen. */
  lemma FreshRunsHideLazyExpiry(commands: seq<Command>, now: int)
    requires ClockForward(commands, now) && BringsNew({}, {}, commands)
    ensures AnswersAgree(map[], map[], commands)
  {
    NewIdsHideLazyExpiry(map[], map[], commands, now, {}, {});
    LazyExpiryIsInvisible(map[], map[], commands, now);
  }

  lemma {:induction false} AnswerCounts(t: Table, f: Table, commands: seq<Command>)
    requires Inv(t) && Keyed(f)
    ensures |FilterAnswers(f, commands)| == |MemoryRun(t, commands).answers| == |commands|
    decreases |commands|
  {
    if commands != [] {
      StepKeepsInv(t, commands[0]);
      FilterKeepsKeys(f, commands[0]);
      AnswerCounts(MemoryStep(t, commands[0]).table, FilterStep(f, commands[0]).table, commands[1..]);
    }
  }

  /** The clock condition is needed: a read at a later instant makes an earlier one answer absent. */
  lemma BackwardClockIsVisible(t: Table, id: string, late: int, early: int)
    requires Inv(t) && id in t && SessionId(id) && Instant(late) && Instant(early)
    requires Stale(t[id], late) && !Stale(t[id], early)
    ensures MemoryRun(t, [Get(id, late), Get(id, early)]).answers == [Found(None), Found(None)]
    ensures FilterAnswers(t, [Get(id, late), Get(id, early)]) == [Found(None), Found(Some(t[id]))]
  {
    var commands := [Get(id, late), Get(id, early)];
    assert commands[1..] == [Get(id, early)] && commands[1..][1..] == [];
    StepKeepsInv(t, commands[0]);
    var gone := t - {id};
    assert MemoryStep(t, commands[0]) == Step(gone, Found(None));
    assert MemoryStep(gone, commands[1]) == Step(gone, Found(None));
    assert MemoryRun(gone, commands[1..]).answers == [Found(None)];
    assert FilterAnswers(t, commands[1..]) == [Found(Some(t[id]))];
  }

  /** The sample login's id issued again, once its session has expired. */
  function Reissued(first: Command): Command
    requires first.Issue?
  {
    first.(token := Repeated('b', 64), issuedAt := first.expiresAt, expiresAt := first.expiresAt + 10,
           lastUsedAt := first.expiresAt)
  }

  /**
   * Reuse is visible, written out: once a read has evicted the expired row, its id can be issued again in
   * the one store, and conflicts in the other.
   */
  lemma ReusedIdIsVisible()
    ensures var first := SampleLogin('a', 2);
      var t: Table := map[first.id := IssuedRecord(first)];
      var commands := [Get(first.id, first.expiresAt), Reissued(first)];
      && Inv(t) && Accepted(Reissued(first))
      && MemoryRun(t, commands).answers == [Found(None), Found(Some(IssuedRecord(Reissued(first))))]
      && FilterAnswers(t, commands) == [Found(None), Conflicting]
  {
    SampleLoginIsAccepted('a', 2);
    SampleLoginIsAccepted('b', 2);
    var first := SampleLogin('a', 2);
    var again := Reissued(first);
    var t: Table := map[first.id := IssuedRecord(first)];
    var commands := [Get(first.id, first.expiresAt), again];
    assert commands[1..] == [again] && commands[1..][1..] == [];
    var none: Table := map[];
    StepKeepsInv(t, commands[0]);
    assert t - {first.id} == none;
    assert MemoryStep(t, commands[0]) == Step(none, Found(None));
    assert MemoryStep(none, again).answer == Found(Some(IssuedRecord(again)));
    assert MemoryRun(none, commands[1..]).answers == [Found(Some(IssuedRecord(again)))];
    assert FilterAnswers(t, commands[1..]) == [Conflicting];
  }
}
