/**
 * The in-memory session store: two maps updated in place, one from session ids to records and
 * one from bearer digests to session ids (backoffice/src/server/session-store.ts).
 *
 * Every operation is proved to act as `SessionSteps.MemoryStep` on the session map and to keep
 * the two maps inverse to each other.
 */
module MemorySessionStore {
  import opened Wrappers
  import opened SessionRecords
  import opened SessionSteps

  /** The digest map is the inverse of the session map. */
  ghost predicate Inverse(sessions: Table, digests: map<string, string>) {
    && Keyed(sessions)
    && (forall id :: id in sessions ==> sessions[id].token in digests && digests[sessions[id].token] == id)
    && (forall d :: d in digests ==> digests[d] in sessions && sessions[digests[d]].token == d)
  }

  /** Looking a digest up in the map answers what a scan of every record would. */
  lemma LookupIsScan(sessions: Table, digests: map<string, string>, token: string)
    requires Inverse(sessions, digests)
    ensures UniqueTokens(sessions)
    ensures HoldersOf(sessions, token) == if token in digests then {digests[token]} else {}
  {
    forall id | id in HoldersOf(sessions, token)
      ensures token in digests && id == digests[token]
    {
    }
  }

  lemma DropKeepsInverse(sessions: Table, digests: map<string, string>, r: Record)
    requires Inverse(sessions, digests) && r.id in sessions && sessions[r.id] == r
    ensures Inverse(sessions - {r.id}, digests - {r.token})
  {
  }

  lemma AddKeepsInverse(sessions: Table, digests: map<string, string>, r: Record)
    requires Inverse(sessions, digests) && r.id !in sessions && r.token !in digests
    ensures Inverse(sessions[r.id := r], digests[r.token := r.id])
  {
  }

  /** Removing rows one at a time: after `id`, the rows still to visit are `todo - {id}`. */
  lemma DropStep(t: Table, doomed: set<string>, todo: set<string>, id: string)
    requires id in todo
    ensures id in doomed ==> doomed - (todo - {id}) == (doomed - todo) + {id}
    ensures id in doomed ==> |doomed - (todo - {id})| == |doomed - todo| + 1
    ensures id in doomed ==> t - (doomed - (todo - {id})) == (t - (doomed - todo)) - {id}
    ensures id !in doomed ==> doomed - (todo - {id}) == doomed - todo
  {
    if id in doomed {
      assert doomed - (todo - {id}) == (doomed - todo) + {id};
    }
  }

  /** The subject's live rows already visited. */
  ghost function LiveOutsideOf(t: Table, subject: string, now: int, todo: set<string>): set<Record> {
    set r | r in LiveRowsOf(t, subject, now) && r.id !in todo
  }

  lemma OneMoreListed(t: Table, subject: string, now: int, todo: set<string>, id: string)
    requires Keyed(t) && todo <= t.Keys && id in todo
    ensures LiveOutsideOf(t, subject, now, todo - {id})
      == LiveOutsideOf(t, subject, now, todo)
         + if t[id].subject == subject && LiveAt(t[id], now) then {t[id]} else {}
    ensures forall r :: r in LiveOutsideOf(t, subject, now, todo) ==> r.id != id
  {
    RowsOfKeyed(t);
  }

  lemma PrefixIds(rows: seq<Record>, i: nat)
    requires i < |rows|
    ensures Ids(Elements(rows[..i + 1])) == Ids(Elements(rows[..i])) + {rows[i].id}
  {
    assert Elements(rows[..i + 1]) == Elements(rows[..i]) + {rows[i]};
  }

  /** Trimming only removes rows, so the id and digest an issue found free stay free. */
  lemma RoomIsFree(before: Table, c: Command, sessions: Table, digests: map<string, string>)
    requires c.Issue? && 1 <= c.maxPerSubject
    requires Inverse(sessions, digests) && sessions == RoomFor(before, c)
    requires c.id !in before && HoldersOf(before, c.token) == {}
    ensures c.id !in sessions && c.token !in digests
  {
    var swept := WithoutStale(before, c.lastUsedAt);
    var displaced := WithoutDevice(swept, c.device);
    assert sessions.Keys <= displaced.Keys <= swept.Keys <= before.Keys;
    forall id | id in sessions
      ensures sessions[id].token != c.token
    {
      assert id !in HoldersOf(before, c.token);
    }
  }

  /** Rotation frees the old digest and takes the new one. */
  lemma RotateKeepsInverse(sessions: Table, digests: map<string, string>, r: Record, rotated: Record)
    requires Inverse(sessions, digests) && r.id in sessions && sessions[r.id] == r && rotated.id == r.id
    requires rotated.token in digests ==> digests[rotated.token] == r.id
    ensures (sessions - {r.id})[rotated.id := rotated] == sessions[r.id := rotated]
    ensures Inverse(sessions[r.id := rotated], (digests - {r.token})[rotated.token := rotated.id])
  {
    DropKeepsInverse(sessions, digests, r);
    AddKeepsInverse(sessions - {r.id}, digests - {r.token}, rotated);
  }

  /** The rows sliced off a sorted listing are stored rows, each met once. */
  lemma TailRows(t: Table, listed: seq<Record>, keep: nat, tail: seq<Record>)
    requires Keyed(t) && Sorted(ByAge, listed) && Elements(listed) <= Rows(t)
    requires tail == if keep <= |listed| then listed[keep..] else []
    ensures forall i :: 0 <= i < |tail| ==> tail[i].id in t && t[tail[i].id] == tail[i]
    ensures forall i :: 0 <= i < |tail| ==> tail[i].id !in Ids(Elements(tail[..i]))
  {
    RowsOfKeyed(t);
    forall i | 0 <= i < |tail|
      ensures tail[i].id in t && t[tail[i].id] == tail[i]
      ensures tail[i].id !in Ids(Elements(tail[..i]))
    {
      assert tail[i] == listed[keep + i];
      assert tail[i] in Elements(listed);
      if tail[i].id in Ids(Elements(tail[..i])) {
        var j :| 0 <= j < i && tail[j].id == tail[i].id;
        assert tail[j] == listed[keep + j];
        assert tail[j] in Elements(listed);
        AheadTrichotomy(ByAge, tail[j], tail[i]);
        assert false;
      }
    }
  }

  /** The live rows already counted, `todo` being the ids still to visit. */
  function LiveOutside(t: Table, now: int, todo: set<string>): set<Record> {
    set r | r in LiveRows(t, now) && r.id !in todo
  }

  lemma OneMoreCounted(t: Table, now: int, todo: set<string>, id: string)
    requires Keyed(t) && id in todo && id in t
    ensures |LiveOutside(t, now, todo - {id})|
      == |LiveOutside(t, now, todo)| + if LiveAt(t[id], now) then 1 else 0
  {
    RowsOfKeyed(t);
    if LiveAt(t[id], now) {
      assert LiveOutside(t, now, todo - {id}) == LiveOutside(t, now, todo) + {t[id]};
    } else {
      assert LiveOutside(t, now, todo - {id}) == LiveOutside(t, now, todo);
    }
  }

  class Store {
    var sessions: Table
    var digests: map<string, string>
    var ready: bool

    ghost predicate Valid()
      reads this
    {
      Inverse(sessions, digests)
    }

    constructor ()
      ensures Valid() && sessions == map[] && !ready
    {
      sessions, digests, ready := map[], map[], false;
    }

    method Initialize()
      modifies this`ready
      ensures ready
    {
      ready := true;
    }

    method Close()
      modifies this`ready
      ensures !ready
    {
      ready := false;
    }

    method Drop(r: Record)
      requires Valid() && r.id in sessions && sessions[r.id] == r
      modifies this`sessions, this`digests
      ensures Valid() && sessions == old(sessions) - {r.id} && digests == old(digests) - {r.token}
    {
      DropKeepsInverse(sessions, digests, r);
      sessions := sessions - {r.id};
      digests := digests - {r.token};
    }

    method SweepExpired(now: int) returns (swept: nat)
      requires Valid()
      modifies this`sessions, this`digests
      ensures Valid()
      ensures sessions == WithoutStale(old(sessions), now)
      ensures swept == |StaleIds(old(sessions), now)|
    {
      swept := 0;
      var snapshot := sessions;
      var todo := snapshot.Keys;
      ghost var doomed := StaleIds(snapshot, now);
      assert doomed - todo == {};
      assert sessions == snapshot - (doomed - todo);
      while todo != {}
        invariant Valid() && todo <= snapshot.Keys
        invariant sessions == snapshot - (doomed - todo)
        invariant swept == |doomed - todo|
      {
        var id :| id in todo;
        DropStep(snapshot, doomed, todo, id);
        if snapshot[id].revokedAt.None? && snapshot[id].expiresAt <= now {
          Drop(snapshot[id]);
          swept := swept + 1;
        }
        todo := todo - {id};
      }
      assert doomed - todo == doomed;
    }

    method DisplaceDevice(device: Option<string>)
      requires Valid()
      modifies this`sessions, this`digests
      ensures Valid() && sessions == WithoutDevice(old(sessions), device)
    {
      if device.Some? {
        var snapshot := sessions;
        var todo := snapshot.Keys;
        ghost var doomed := DeviceIds(snapshot, device);
        assert doomed - todo == {};
        assert sessions == snapshot - (doomed - todo);
        while todo != {}
          invariant Valid() && todo <= snapshot.Keys
          invariant sessions == snapshot - (doomed - todo)
        {
          var id :| id in todo;
          DropStep(snapshot, doomed, todo, id);
          if snapshot[id].revokedAt.None? && snapshot[id].device == device {
            Drop(snapshot[id]);
          }
          todo := todo - {id};
        }
        assert doomed - todo == doomed;
      } else {
        assert sessions == sessions - {};
      }
    }

    /** The sorted listing of the records that pass a subject and class filter. */
    method SortedRowsOf(subject: string, unrevoked: bool) returns (listed: seq<Record>)
      requires Valid()
      ensures Sorted(ByAge, listed) && Elements(listed) == RowsOf(sessions, subject, unrevoked)
    {
      RowsOfKeyed(sessions);
      listed := [];
      var todo := sessions.Keys;
      while todo != {}
        invariant todo <= sessions.Keys
        invariant Sorted(ByAge, listed)
        invariant Elements(listed) == set r | r in RowsOf(sessions, subject, unrevoked) && r.id !in todo
      {
        var id :| id in todo;
        todo := todo - {id};
        var r := sessions[id];
        if r.subject == subject && r.revokedAt.None? == unrevoked {
          forall s | s in listed
            ensures s.id != r.id
          {
            assert s in Elements(listed);
          }
          InsertSorts(ByAge, r, listed);
          listed := Insert(ByAge, r, listed);
        }
      }
    }

    method EvictSubjectOverflow(subject: string, unrevoked: bool, keep: nat)
      requires Valid()
      modifies this`sessions, this`digests
      ensures Valid() && sessions == WithoutOverflow(old(sessions), subject, unrevoked, keep)
    {
      RowsOfKeyed(sessions);
      var survivors := SortedRowsOf(subject, unrevoked);
      var tail := if keep <= |survivors| then survivors[keep..] else [];
      SliceIsOffset(ByAge, survivors, keep);
      ghost var snapshot := sessions;
      TailRows(snapshot, survivors, keep, tail);
      var i := 0;
      assert Ids(Elements(tail[..0])) == {};
      while i < |tail|
        invariant 0 <= i <= |tail|
        invariant Valid()
        invariant sessions == snapshot - Ids(Elements(tail[..i]))
      {
        assert tail[i].id !in Ids(Elements(tail[..i]));
        Drop(tail[i]);
        PrefixIds(tail, i);
        i := i + 1;
      }
      assert tail[..i] == tail;
    }

    /** Lazy expiry: a stale record is dropped on sight. */
    method Live(r: Record, now: int) returns (found: Option<Record>)
      requires Valid() && r.id in sessions && sessions[r.id] == r
      modifies this`sessions, this`digests
      ensures Valid()
      ensures Step(sessions, Found(found)) == GetStep(old(sessions), r.id, now)
    {
      if r.revokedAt.None? && r.expiresAt <= now {
        Drop(r);
        return None;
      }
      return Some(r);
    }

    /** The three eviction passes that run before a new session is indexed. */
    method MakeRoom(c: Command)
      requires Valid() && c.Issue? && 1 <= c.maxPerSubject
      requires c.id !in sessions && HoldersOf(sessions, c.token) == {}
      modifies this`sessions, this`digests
      ensures Valid() && sessions == RoomFor(old(sessions), c)
      ensures c.id !in sessions && c.token !in digests
    {
      ghost var before := sessions;
      var _ := SweepExpired(c.lastUsedAt);
      DisplaceDevice(c.device);
      EvictSubjectOverflow(c.subject, true, c.maxPerSubject - 1);
      RoomIsFree(before, c, sessions, digests);
    }

    method IssueSession(c: Command) returns (answer: Answer)
      requires Valid() && c.Issue?
      modifies this`sessions, this`digests
      ensures Valid()
      ensures Accepted(c) && !ready ==> answer == Unavailable && sessions == old(sessions)
      ensures !Accepted(c) || ready ==> Step(sessions, answer) == MemoryStep(old(sessions), c)
    {
      if !Accepted(c) { return BadCommand; }
      if !ready { return Unavailable; }
      LookupIsScan(sessions, digests, c.token);
      if c.id in sessions || c.token in digests {
        return Conflicting;
      }
      ghost var before := sessions;
      assert MemoryStep(before, c) == IssueStep(before, c);
      assert c.id !in before && HoldersOf(before, c.token) == {};
      MakeRoom(c);
      var stored :=
        Record(c.id, c.subject, c.email, c.name, c.role, c.token, c.device, c.issuedAt, c.expiresAt, c.lastUsedAt,
               false, None);
      AddKeepsInverse(sessions, digests, stored);
      sessions := sessions[stored.id := stored];
      digests := digests[stored.token := stored.id];
      return Found(Some(stored));
    }

    method GetSession(c: Command) returns (answer: Answer)
      requires Valid() && c.Get?
      modifies this`sessions, this`digests
      ensures Valid()
      ensures Accepted(c) && !ready ==> answer == Unavailable && sessions == old(sessions)
      ensures !Accepted(c) || ready ==> Step(sessions, answer) == MemoryStep(old(sessions), c)
    {
      if !Accepted(c) { return BadCommand; }
      if !ready { return Unavailable; }
      var found: Option<Record> := None;
      if c.id in sessions {
        found := Live(sessions[c.id], c.now);
      }
      return Found(found);
    }

    method GetSessionByTokenDigest(c: Command) returns (answer: Answer)
      requires Valid() && c.GetByToken?
      modifies this`sessions, this`digests
      ensures Valid()
      ensures Accepted(c) && !ready ==> answer == Unavailable && sessions == old(sessions)
      ensures !Accepted(c) || ready ==> Step(sessions, answer) == MemoryStep(old(sessions), c)
    {
      if !Accepted(c) { return BadCommand; }
      if !ready { return Unavailable; }
      LookupIsScan(sessions, digests, c.token);
      var found: Option<Record> := None;
      if c.token in digests {
        assert HoldersOf(sessions, c.token) == {digests[c.token]};
        found := Live(sessions[digests[c.token]], c.now);
      }
      return Found(found);
    }

    method RefreshSession(c: Command) returns (answer: Answer)
      requires Valid() && c.Refresh?
      modifies this`sessions, this`digests
      ensures Valid()
      ensures Accepted(c) && !ready ==> answer == Unavailable && sessions == old(sessions)
      ensures !Accepted(c) || ready ==> Step(sessions, answer) == MemoryStep(old(sessions), c)
    {
      if !Accepted(c) { return BadCommand; }
      if !ready { return Unavailable; }
      if c.id !in sessions { return Found(None); }
      var record := sessions[c.id];
      var found := Live(record, c.now);
      if found.None? || record.revokedAt.Some? { return Found(None); }
      LookupIsScan(sessions, digests, c.token);
      if c.token in digests && digests[c.token] != c.id {
        assert digests[c.token] in HoldersOf(sessions, c.token) - {c.id};
        return Conflicting;
      }
      assert HoldersOf(sessions, c.token) - {c.id} == {};
      var rotated := record.(token := c.token, expiresAt := Max(c.expiresAt, record.expiresAt),
                             lastUsedAt := Max(c.now, record.lastUsedAt));
      RotateKeepsInverse(sessions, digests, record, rotated);
      Drop(record);
      sessions := sessions[rotated.id := rotated];
      digests := digests[rotated.token := rotated.id];
      return Found(Some(rotated));
    }

    method RevokeSession(c: Command) returns (answer: Answer)
      requires Valid() && c.Revoke?
      modifies this`sessions, this`digests
      ensures Valid()
      ensures Accepted(c) && !ready ==> answer == Unavailable && sessions == old(sessions)
      ensures !Accepted(c) || ready ==> Step(sessions, answer) == MemoryStep(old(sessions), c)
    {
      if !Accepted(c) { return BadCommand; }
      if !ready { return Unavailable; }
      if c.id !in sessions { return Found(None); }
      var record := sessions[c.id];
      var found := Live(record, c.now);
      if found.None? || record.revokedAt.Some? { return Found(None); }
      RowsOfKeyed(sessions);
      EvictSubjectOverflow(record.subject, false, c.maxRevokedPerSubject);
      assert c.id in sessions;
      var revoked := record.(revoked := true, revokedAt := Some(Max(c.now, record.issuedAt)));
      sessions := sessions[record.id := revoked];
      return Found(Some(revoked));
    }

    method BindDevice(c: Command) returns (answer: Answer)
      requires Valid() && c.BindDevice?
      modifies this`sessions, this`digests
      ensures Valid()
      ensures Accepted(c) && !ready ==> answer == Unavailable && sessions == old(sessions)
      ensures !Accepted(c) || ready ==> Step(sessions, answer) == MemoryStep(old(sessions), c)
    {
      if !Accepted(c) { return BadCommand; }
      if !ready { return Unavailable; }
      if c.id !in sessions { return Found(None); }
      var record := sessions[c.id];
      var found := Live(record, c.now);
      if found.None? || record.revokedAt.Some? || record.device.Some? { return Found(None); }
      var bound := record.(device := Some(c.bound), lastUsedAt := Max(c.now, record.lastUsedAt));
      sessions := sessions[record.id := bound];
      return Found(Some(bound));
    }

    method SweepExpiredSessions(c: Command) returns (answer: Answer)
      requires Valid() && c.Sweep?
      modifies this`sessions, this`digests
      ensures Valid()
      ensures Accepted(c) && !ready ==> answer == Unavailable && sessions == old(sessions)
      ensures !Accepted(c) || ready ==> Step(sessions, answer) == MemoryStep(old(sessions), c)
    {
      if !Accepted(c) { return BadCommand; }
      if !ready { return Unavailable; }
      var swept := SweepExpired(c.now);
      return Swept(swept);
    }

    method ListSessions(c: Command) returns (answer: Answer)
      requires Valid() && c.List?
      ensures Accepted(c) && !ready ==> answer == Unavailable
      ensures !Accepted(c) || ready ==> Step(sessions, answer) == MemoryStep(sessions, c)
    {
      if !Accepted(c) { return BadCommand; }
      if !ready { return Unavailable; }
      RowsOfKeyed(sessions);
      var listed: seq<Record> := [];
      var todo := sessions.Keys;
      while todo != {}
        invariant todo <= sessions.Keys
        invariant Sorted(ByUse, listed)
        invariant Elements(listed) == LiveOutsideOf(sessions, c.subject, c.now, todo)
      {
        var id :| id in todo;
        OneMoreListed(sessions, c.subject, c.now, todo, id);
        todo := todo - {id};
        var r := sessions[id];
        if r.subject == c.subject && r.revokedAt.None? && c.now < r.expiresAt {
          InsertSorts(ByUse, r, listed);
          listed := Insert(ByUse, r, listed);
        }
      }
      assert LiveOutsideOf(sessions, c.subject, c.now, todo) == LiveRowsOf(sessions, c.subject, c.now);
      SortedUnique(ByUse, listed, Listing(ByUse, LiveRowsOf(sessions, c.subject, c.now)));
      return Listed(Limit(listed, c.limit));
    }

    method CountSessions(c: Command) returns (answer: Answer)
      requires Valid() && c.Count?
      ensures Accepted(c) && !ready ==> answer == Unavailable
      ensures !Accepted(c) || ready ==> Step(sessions, answer) == MemoryStep(sessions, c)
    {
      if !Accepted(c) { return BadCommand; }
      if !ready { return Unavailable; }
      RowsOfKeyed(sessions);
      var count: nat := 0;
      var todo := sessions.Keys;
      while todo != {}
        invariant todo <= sessions.Keys
        invariant count == |LiveOutside(sessions, c.now, todo)|
      {
        var id :| id in todo;
        OneMoreCounted(sessions, c.now, todo, id);
        todo := todo - {id};
        if sessions[id].revokedAt.None? && c.now < sessions[id].expiresAt {
          count := count + 1;
        }
      }
      assert LiveOutside(sessions, c.now, todo) == LiveRows(sessions, c.now);
      return Counted(count);
    }
  }
}
