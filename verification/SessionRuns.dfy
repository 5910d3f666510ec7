/**
 * What every command, and every run of commands, keeps of a session table: the constraints and
 * the mutation trigger of the schema (backoffice/migrations/0002_operator_sessions.sql), the
 * per-subject bounds, and the terminal character of revocation and rotation.
 */
module SessionRuns {
  import opened Texts
  import opened Wrappers
  import opened SessionRecords
  import opened SessionSteps

  /** The CHECK constraints of the table that the session ids, digests and texts do not settle. */
  predicate RowChecks(r: Record) {
    && 0 < r.issuedAt < r.expiresAt
    && r.issuedAt <= r.lastUsedAt
    && (r.revokedAt.None? <==> !r.revoked)
    && (r.revokedAt.Some? ==> r.issuedAt <= r.revokedAt.value)
  }

  ghost predicate Inv(t: Table) {
    Keyed(t) && UniqueTokens(t) && forall id :: id in t ==> RowChecks(t[id])
  }

  /** What the mutation trigger lets an update do to a row, and nothing more. */
  predicate Evolves(before: Record, after: Record) {
    && after.id == before.id && after.subject == before.subject && after.email == before.email
    && after.name == before.name && after.role == before.role && after.issuedAt == before.issuedAt
    && before.expiresAt <= after.expiresAt && before.lastUsedAt <= after.lastUsedAt
    && (before.device.Some? ==> after.device == before.device)
    && (before.revokedAt.Some? ==> after == before)
  }

  lemma EvolvesTransitive(a: Record, b: Record, c: Record)
    requires Evolves(a, b) && Evolves(b, c)
    ensures Evolves(a, c)
  {
  }

  /** Trimming to make room only removes rows. */
  lemma RoomShrinks(t: Table, c: Command)
    requires c.Issue? && 1 <= c.maxPerSubject
    ensures RoomFor(t, c).Keys <= t.Keys
    ensures forall id :: id in RoomFor(t, c) ==> RoomFor(t, c)[id] == t[id]
  {
    var swept := WithoutStale(t, c.lastUsedAt);
    var displaced := WithoutDevice(swept, c.device);
    assert RoomFor(t, c).Keys <= displaced.Keys <= swept.Keys <= t.Keys;
  }

  /**
   * A command removes rows and writes at most one: `written` is that row, under its own id.
   */
  ghost predicate Effect(t: Table, after: Table, written: Option<Record>) {
    && (forall id :: id in after ==>
        (id in t && after[id] == t[id]) || (written.Some? && id == written.value.id && after[id] == written.value))
    && (written.Some? ==> written.value.id in after && after[written.value.id] == written.value)
  }

  /** The row a command inserts or updates, if it succeeds. */
  ghost function Written(t: Table, c: Command): Option<Record>
    requires Keyed(t)
  {
    if (c.Issue? || c.Refresh? || c.Revoke? || c.BindDevice?) && MemoryStep(t, c).answer.Found?
    then MemoryStep(t, c).answer.record
    else None
  }

  lemma StepEffect(t: Table, c: Command)
    requires Keyed(t)
    ensures Effect(t, MemoryStep(t, c).table, Written(t, c))
  {
    if Accepted(c) && c.Issue? {
      RoomShrinks(t, c);
    }
    if c.GetByToken? && HoldersOf(t, c.token) != {} {
      var id :| id in HoldersOf(t, c.token) && GetByTokenStep(t, c.token, c.now) == GetStep(t, id, c.now);
    }
  }

  /** The digest a written row answers to: the presented one, or the one it already had. */
  lemma WrittenToken(t: Table, c: Command)
    requires Keyed(t) && Written(t, c).Some?
    ensures Accepted(c) && Written(t, c).value.id == c.id
    ensures c.Issue? ==> HoldersOf(t, c.token) == {}
    ensures c.Refresh? ==> HoldersOf(t, c.token) - {c.id} == {}
    ensures var r := Written(t, c).value;
      if c.Issue? || c.Refresh? then r.token == c.token else r.id in t && r.token == t[r.id].token
  {
  }

  /** Every written row meets the constraints, takes a free digest, and is new or allowed by the trigger. */
  lemma WrittenRow(t: Table, c: Command)
    requires Inv(t) && Written(t, c).Some?
    ensures var r := Written(t, c).value;
      && RowChecks(r)
      && (forall id :: id in t && t[id].token == r.token ==> id == r.id)
      && (if c.Issue? then r.id !in t else r.id in t && Unrevoked(t[r.id]) && Evolves(t[r.id], r))
  {
    WrittenToken(t, c);
    var r := Written(t, c).value;
    forall id | id in t && t[id].token == r.token
      ensures id == r.id
    {
      if c.Issue? || c.Refresh? {
        assert id in HoldersOf(t, c.token);
        assert id !in HoldersOf(t, c.token) - {c.id};
      } else {
        assert t[id].token == t[c.id].token;
      }
    }
  }

  /** Every command keeps the schema's constraints. */
  lemma StepKeepsInv(t: Table, c: Command)
    requires Inv(t)
    ensures Inv(MemoryStep(t, c).table)
  {
    StepEffect(t, c);
    if Written(t, c).Some? {
      WrittenRow(t, c);
    }
  }

  /** No command makes the mutation trigger fire: a row that survives evolves. */
  lemma StepEvolves(t: Table, c: Command, id: string)
    requires Inv(t) && id in t && id in MemoryStep(t, c).table
    ensures Evolves(t[id], MemoryStep(t, c).table[id])
  {
    StepEffect(t, c);
    if Written(t, c).Some? {
      WrittenRow(t, c);
    }
  }

  /** Only an issue adds a session id. */
  lemma StepAdds(t: Table, c: Command, id: string)
    requires Inv(t) && id !in t && id in MemoryStep(t, c).table
    ensures c.Issue? && c.id == id
  {
    StepEffect(t, c);
    if Written(t, c).Some? {
      WrittenRow(t, c);
    }
  }

  // ---------------------------------------------------------------------------
  // Runs
  // ---------------------------------------------------------------------------

  ghost function Run(t: Table, commands: seq<Command>): (after: Table)
    requires Inv(t)
    ensures Inv(after)
    decreases |commands|
  {
    if commands == [] then t
    else
      StepKeepsInv(t, commands[0]);
      Run(MemoryStep(t, commands[0]).table, commands[1..])
  }

  /** Between two states of a run, a session id that was not issued anew only evolves. */
  lemma {:induction false} RunEvolves(t: Table, commands: seq<Command>, id: string)
    requires Inv(t)
    requires forall c :: c in commands && c.Issue? ==> c.id != id
    requires id in Run(t, commands)
    ensures id in t && Evolves(t[id], Run(t, commands)[id])
    decreases |commands|
  {
    if commands != [] {
      StepKeepsInv(t, commands[0]);
      var next := MemoryStep(t, commands[0]).table;
      RunEvolves(next, commands[1..], id);
      if id !in t {
        StepAdds(t, commands[0], id);
      } else {
        StepEvolves(t, commands[0], id);
        EvolvesTransitive(t[id], next[id], Run(next, commands[1..])[id]);
      }
    }
  }

  /** The directory's view of a bearer digest: the record that answers to it, unless revoked. */
  ghost function Resolve(t: Table, token: string, now: int): Option<Record>
  {
    match GetByTokenStep(t, token, now).answer
    case Found(Some(r)) => if r.revoked then None else Some(r)
    case _ => None
  }

  predicate Presents(c: Command, token: string) {
    (c.Issue? || c.Refresh?) && c.token == token
  }

  /** A digest no stored record holds stays unheld until a command presents it. */
  lemma {:induction false} UnheldStaysUnheld(t: Table, commands: seq<Command>, token: string)
    requires Inv(t) && HoldersOf(t, token) == {}
    requires forall c :: c in commands ==> !Presents(c, token)
    ensures HoldersOf(Run(t, commands), token) == {}
    decreases |commands|
  {
    if commands != [] {
      var c := commands[0];
      StepKeepsInv(t, c);
      StepEffect(t, c);
      var next := MemoryStep(t, c).table;
      assert c in commands && !Presents(c, token);
      forall id | id in next
        ensures next[id].token != token
      {
        assert id !in HoldersOf(t, token);
        if Written(t, c).Some? {
          WrittenToken(t, c);
          assert c.id !in HoldersOf(t, token);
        }
      }
      UnheldStaysUnheld(next, commands[1..], token);
    }
  }

  /** After a rotation the old bearer never resolves again, whatever follows, unless presented anew. */
  lemma RotatedTokenIsDead(t: Table, c: Command, commands: seq<Command>, now: int)
    requires Inv(t) && c.Refresh? && Written(t, c).Some?
    requires t[c.id].token != c.token
    requires forall d :: d in commands ==> !Presents(d, t[c.id].token)
    ensures Resolve(Run(t, [c] + commands), t[c.id].token, now) == None
  {
    StepKeepsInv(t, c);
    WrittenRow(t, c);
    var next := MemoryStep(t, c).table;
    assert next == t[c.id := RefreshedRecord(t[c.id], c)];
    assert HoldersOf(next, t[c.id].token) == {};
    UnheldStaysUnheld(next, commands, t[c.id].token);
    assert ([c] + commands)[1..] == commands;
  }

  /** A revoked session is never updated, never answers as live and never resolves, until evicted and issued anew. */
  lemma {:induction false} RevokedIsTerminal(t: Table, commands: seq<Command>, id: string, now: int)
    requires Inv(t) && id in t && !Unrevoked(t[id])
    requires forall c :: c in commands && c.Issue? ==> c.id != id
    requires forall c :: c in commands ==> !Presents(c, t[id].token)
    ensures var after := Run(t, commands);
      && (id in after ==> after[id] == t[id] && !LiveAt(after[id], now))
      && Resolve(after, t[id].token, now) == None
    decreases |commands|
  {
    if commands == [] {
      assert HoldersOf(t, t[id].token) == {id};
    } else {
      var c := commands[0];
      StepKeepsInv(t, c);
      var next := MemoryStep(t, c).table;
      if id in next {
        StepEvolves(t, c, id);
        RevokedIsTerminal(next, commands[1..], id, now);
      } else {
        EvictedTokenIsFree(t, c, id);
        UnheldStaysUnheld(next, commands[1..], t[id].token);
        if id in Run(next, commands[1..]) {
          RunEvolves(next, commands[1..], id);
        }
      }
    }
  }

  lemma EvictedTokenIsFree(t: Table, c: Command, id: string)
    requires Inv(t) && id in t && id !in MemoryStep(t, c).table && !Presents(c, t[id].token)
    ensures HoldersOf(MemoryStep(t, c).table, t[id].token) == {}
  {
    StepEffect(t, c);
    var next := MemoryStep(t, c).table;
    forall other | other in next
      ensures next[other].token != t[id].token
    {
      if Written(t, c).Some? {
        WrittenToken(t, c);
      }
    }
  }

  // ---------------------------------------------------------------------------
  // Bounds
  // ---------------------------------------------------------------------------

  /** The ids of a subject's unrevoked sessions, or of its revoked ones. */
  function Members(t: Table, subject: string, unrevoked: bool): set<string> {
    set id | id in t && t[id].subject == subject && Unrevoked(t[id]) == unrevoked
  }

  lemma MembersAreRows(t: Table, subject: string, unrevoked: bool)
    requires Keyed(t)
    ensures Members(t, subject, unrevoked) == Ids(RowsOf(t, subject, unrevoked))
  {
    RowsOfKeyed(t);
    forall id | id in Members(t, subject, unrevoked)
      ensures id in Ids(RowsOf(t, subject, unrevoked))
    {
      assert t[id] in RowsOf(t, subject, unrevoked);
    }
  }

  /** Trimming one class of a subject to `keep` leaves at most `keep` of it. */
  lemma TrimBounds(t: Table, subject: string, unrevoked: bool, keep: nat)
    requires Keyed(t)
    ensures |Members(WithoutOverflow(t, subject, unrevoked, keep), subject, unrevoked)| <= keep
  {
    RowsOfKeyed(t);
    var rows := RowsOf(t, subject, unrevoked);
    var listed := Listing(ByAge, rows);
    OffsetKeeps(ByAge, listed, keep);
    var kept := rows - Offset(ByAge, rows, keep);
    var trimmed := WithoutOverflow(t, subject, unrevoked, keep);
    forall id | id in Members(trimmed, subject, unrevoked)
      ensures id in Ids(kept)
    {
      assert t[id] in rows;
      IdsMembership(t, Offset(ByAge, rows, keep), id);
    }
    SubsetCount(Members(trimmed, subject, unrevoked), Ids(kept));
    IdsCount(kept);
  }

  /** A command whose per-subject bounds are the fixed ones. */
  predicate FixedBounds(c: Command, active: int, tombstones: int) {
    (c.Issue? ==> c.maxPerSubject == active) && (c.Revoke? ==> c.maxRevokedPerSubject == tombstones)
  }

  ghost predicate Bounded(t: Table, active: int, tombstones: int) {
    forall subject ::
      |Members(t, subject, true)| <= active && |Members(t, subject, false)| <= tombstones + 1
  }

  /** Only an issue for the subject raises its unrevoked count. */
  lemma StepActives(t: Table, c: Command, subject: string)
    requires Inv(t)
    ensures var next := MemoryStep(t, c).table;
      || Members(next, subject, true) <= Members(t, subject, true)
      || (c.Issue? && Accepted(c) && c.subject == subject
          && Members(next, subject, true) == Members(RoomFor(t, c), subject, true) + {c.id})
  {
    StepEffect(t, c);
    if Written(t, c).Some? {
      WrittenRow(t, c);
      WrittenToken(t, c);
      if c.Issue? {
        RoomShrinks(t, c);
        IssuedTable(t, c);
      }
    }
  }

  lemma IssuedTable(t: Table, c: Command)
    requires Keyed(t) && c.Issue? && Written(t, c).Some?
    ensures Accepted(c) && c.id !in t
    ensures MemoryStep(t, c).table == RoomFor(t, c)[c.id := IssuedRecord(c)]
  {
  }

  lemma RevokedTable(t: Table, c: Command)
    requires Keyed(t) && c.Revoke? && Written(t, c).Some?
    ensures Accepted(c) && c.id in t && Unrevoked(t[c.id])
    ensures MemoryStep(t, c).table
         == WithoutOverflow(t, t[c.id].subject, false, c.maxRevokedPerSubject)[c.id := RevokedRecord(t[c.id], c)]
  {
  }

  /** Only a revoke of one of the subject's sessions raises its revoked count. */
  lemma StepTombstones(t: Table, c: Command, subject: string)
    requires Inv(t)
    ensures var next := MemoryStep(t, c).table;
      || Members(next, subject, false) <= Members(t, subject, false)
      || (c.Revoke? && Accepted(c) && c.id in t && t[c.id].subject == subject
          && Members(next, subject, false)
             == Members(WithoutOverflow(t, subject, false, c.maxRevokedPerSubject), subject, false) + {c.id})
  {
    StepEffect(t, c);
    if Written(t, c).Some? {
      WrittenRow(t, c);
      WrittenToken(t, c);
      if c.Revoke? {
        RevokedTable(t, c);
      }
    }
  }

  lemma StepKeepsBounds(t: Table, c: Command, active: nat, tombstones: nat)
    requires Inv(t) && Bounded(t, active, tombstones) && FixedBounds(c, active, tombstones)
    ensures Bounded(MemoryStep(t, c).table, active, tombstones)
  {
    forall subject
      ensures |Members(MemoryStep(t, c).table, subject, true)| <= active
      ensures |Members(MemoryStep(t, c).table, subject, false)| <= tombstones + 1
    {
      StepBoundsActives(t, c, subject, active, tombstones);
      StepBoundsTombstones(t, c, subject, active, tombstones);
    }
  }

  /** Room for one more under a bound, counted. */
  lemma CountOneMore(next: set<string>, before: set<string>, room: set<string>, id: string, bound: nat)
    requires |before| <= bound
    requires next <= before || (next == room + {id} && |room| < bound)
    ensures |next| <= bound
  {
    if next <= before {
      SubsetCount(next, before);
    }
  }

  /** The passes before an issue leave the subject room for one more unrevoked session. */
  lemma RoomIsBounded(t: Table, c: Command)
    requires Keyed(t) && c.Issue? && 1 <= c.maxPerSubject
    ensures |Members(RoomFor(t, c), c.subject, true)| < c.maxPerSubject
  {
    var left := WithoutDevice(WithoutStale(t, c.lastUsedAt), c.device);
    TrimBounds(left, c.subject, true, c.maxPerSubject - 1);
  }

  lemma StepBoundsActives(t: Table, c: Command, subject: string, active: nat, tombstones: nat)
    requires Inv(t) && FixedBounds(c, active, tombstones) && |Members(t, subject, true)| <= active
    ensures |Members(MemoryStep(t, c).table, subject, true)| <= active
  {
    var before, next := Members(t, subject, true), Members(MemoryStep(t, c).table, subject, true);
    StepActives(t, c, subject);
    if next <= before {
      SubsetCount(next, before);
    } else {
      RoomIsBounded(t, c);
      CountOneMore(next, before, Members(RoomFor(t, c), subject, true), c.id, active);
    }
  }

  lemma StepBoundsTombstones(t: Table, c: Command, subject: string, active: nat, tombstones: nat)
    requires Inv(t) && FixedBounds(c, active, tombstones) && |Members(t, subject, false)| <= tombstones + 1
    ensures |Members(MemoryStep(t, c).table, subject, false)| <= tombstones + 1
  {
    var before, next := Members(t, subject, false), Members(MemoryStep(t, c).table, subject, false);
    StepTombstones(t, c, subject);
    if next <= before {
      SubsetCount(next, before);
    } else {
      TrimBounds(t, subject, false, c.maxRevokedPerSubject);
      var room := Members(WithoutOverflow(t, subject, false, c.maxRevokedPerSubject), subject, false);
      CountOneMore(next, before, room, c.id, tombstones + 1);
    }
  }

  /**
   * Over every run with fixed bounds, started from the empty store, a subject never has more
   * than `active` unrevoked sessions nor more than `tombstones + 1` revoked ones.
   */
  lemma RunsStayBounded(commands: seq<Command>, active: nat, tombstones: nat)
    requires forall c :: c in commands ==> FixedBounds(c, active, tombstones)
    ensures Bounded(Run(map[], commands), active, tombstones)
  {
    forall subject, unrevoked
      ensures Members(map[], subject, unrevoked) == {}
    {
    }
    RunKeepsBounds(map[], commands, active, tombstones);
  }

  lemma {:induction false} RunKeepsBounds(t: Table, commands: seq<Command>, active: nat, tombstones: nat)
    requires Inv(t) && Bounded(t, active, tombstones)
    requires forall c :: c in commands ==> FixedBounds(c, active, tombstones)
    ensures Bounded(Run(t, commands), active, tombstones)
    decreases |commands|
  {
    if commands != [] {
      StepKeepsInv(t, commands[0]);
      StepKeepsBounds(t, commands[0], active, tombstones);
      RunKeepsBounds(MemoryStep(t, commands[0]).table, commands[1..], active, tombstones);
    }
  }

  /** The `+ 1` is reached: a revoked row never competes with the tombstones it joins. */
  lemma RevokeFillsTombstones(t: Table, c: Command)
    requires Inv(t) && c.Revoke? && Written(t, c).Some?
    requires c.maxRevokedPerSubject <= |Members(t, t[c.id].subject, false)|
    ensures |Members(MemoryStep(t, c).table, t[c.id].subject, false)| == c.maxRevokedPerSubject + 1
  {
    var subject := t[c.id].subject;
    RevokedTable(t, c);
    StepTombstones(t, c, subject);
    MembersAreRows(t, subject, false);
    RowsOfKeyed(t);
    IdsCount(RowsOf(t, subject, false));
    ExactlyKept(t, subject, false, c.maxRevokedPerSubject);
    assert c.id !in Members(t, subject, false) && c.id in Members(MemoryStep(t, c).table, subject, false);
  }

  // ---------------------------------------------------------------------------
  // Eviction and displacement
  // ---------------------------------------------------------------------------

  /** `a` outlives `b` in an eviction: revoked later, or issued later if never revoked, ids breaking ties. */
  predicate Outlives(a: Record, b: Record) {
    var ageA, ageB := if a.revokedAt.Some? then a.revokedAt.value else a.issuedAt,
                      if b.revokedAt.Some? then b.revokedAt.value else b.issuedAt;
    ageB < ageA || (ageA == ageB && Less(a.id, b.id))
  }

  /** Trimming evicts exactly the oldest: every row kept sorts ahead of every row evicted. */
  lemma TrimEvictsOldest(t: Table, subject: string, unrevoked: bool, keep: nat, kept: string, evicted: string)
    requires Keyed(t)
    requires kept in Members(WithoutOverflow(t, subject, unrevoked, keep), subject, unrevoked)
    requires evicted in t && evicted !in WithoutOverflow(t, subject, unrevoked, keep)
    ensures evicted in Members(t, subject, unrevoked)
    ensures Ahead(ByAge, t[kept], t[evicted]) && Outlives(t[kept], t[evicted])
    ensures |Members(WithoutOverflow(t, subject, unrevoked, keep), subject, unrevoked)| == keep
  {
    RowsOfKeyed(t);
    var rows := RowsOf(t, subject, unrevoked);
    var overflow := Offset(ByAge, rows, keep);
    var r, s := t[kept], t[evicted];
    assert s in overflow && r in rows;
    IdsMembership(t, overflow, kept);
    AheadTrichotomy(ByAge, r, s);
    if Ahead(ByAge, s, r) {
      forall x | x in RowsAhead(ByAge, rows, s)
        ensures x in RowsAhead(ByAge, rows, r)
      {
        AheadTransitive(ByAge, x, s, r);
      }
      SubsetCount(RowsAhead(ByAge, rows, s), RowsAhead(ByAge, rows, r));
      assert false;
    }
    ExactlyKept(t, subject, unrevoked, keep);
    SubsetCount(RowsAhead(ByAge, rows, s), rows);
  }

  /** When something is evicted, exactly `keep` rows stay. */
  lemma ExactlyKept(t: Table, subject: string, unrevoked: bool, keep: nat)
    requires Keyed(t)
    ensures |RowsOf(t, subject, unrevoked)| >= keep ==>
      |Members(WithoutOverflow(t, subject, unrevoked, keep), subject, unrevoked)| == keep
  {
    RowsOfKeyed(t);
    var rows := RowsOf(t, subject, unrevoked);
    var listed := Listing(ByAge, rows);
    OffsetKeeps(ByAge, listed, keep);
    ElementsCount(ByAge, listed);
    var overflow := Offset(ByAge, rows, keep);
    var trimmed := WithoutOverflow(t, subject, unrevoked, keep);
    forall id
      ensures id in Members(trimmed, subject, unrevoked) <==> id in Ids(rows - overflow)
    {
      IdsMembership(t, overflow, id);
      IdsMembership(t, rows - overflow, id);
    }
    assert Members(trimmed, subject, unrevoked) == Ids(rows - overflow);
    IdsCount(rows - overflow);
  }

  /** After a login on a device, the new session is the only unrevoked one bound to it. */
  lemma LoginDisplacesDevice(t: Table, c: Command, id: string)
    requires Inv(t) && c.Issue? && c.device.Some? && Written(t, c).Some?
    requires id in MemoryStep(t, c).table
    requires Unrevoked(MemoryStep(t, c).table[id]) && MemoryStep(t, c).table[id].device == c.device
    ensures id == c.id
  {
    RoomShrinks(t, c);
    var swept := WithoutStale(t, c.lastUsedAt);
    var displaced := WithoutDevice(swept, c.device);
    assert RoomFor(t, c).Keys <= displaced.Keys;
    assert forall i :: i in displaced ==> !(Unrevoked(displaced[i]) && displaced[i].device == c.device);
  }
}
