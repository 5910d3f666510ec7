/**
 * What each command of the session store does to the table, field by field: which record is stored and
 * answered, which records go, in what order records are listed and evicted
 * (backoffice/src/server/session-store.ts, backoffice/src/server/postgres-session-store.ts).
 */
module SessionFields {
  import opened Texts
  import opened Wrappers
  import opened SessionRecords
  import opened SessionSteps
  import opened SessionRuns

  // ---------------------------------------------------------------------------
  // Which commands are accepted
  // ---------------------------------------------------------------------------

  predicate IsSessionId(id: string) {
    |id| == 29 && id == "sess_" + id[5..] && IsHex(id[5..], 24)
  }

  predicate IsSubject(s: string) {
    1 <= |s| <= 128
    && forall i :: 0 <= i < |s| ==>
      'a' <= s[i] <= 'z' || 'A' <= s[i] <= 'Z' || '0' <= s[i] <= '9' || s[i] in ['_', '.', '+', ':', '@', '|', '-']
  }

  lemma IdsAndDigests(s: string)
    ensures SessionId(s) <==> IsSessionId(s)
    ensures Digest(s) <==> IsHex(s, 64)
    ensures Subject(s) <==> IsSubject(s)
  {
    HexIsHexDigits(s, 64);
    if |s| == 29 {
      HexIsHexDigits(s[5..], 24);
      assert s == s[..5] + s[5..];
    }
  }

  /** A login is accepted exactly when every field is in its grammar and the instants are in order. */
  lemma IssueAccepted(c: Command)
    requires c.Issue?
    ensures Accepted(c)
      <==> && IsSessionId(c.id) && IsSubject(c.subject) && IsHex(c.token, 64)
           && (c.device.Some? ==> IsHex(c.device.value, 64))
           && UnitLength(c.email) <= 320 && UnitLength(c.name) <= 200
           && (forall i :: 0 <= i < |c.email| ==> c.email[i] != '\0')
           && (forall i :: 0 <= i < |c.name| ==> c.name[i] != '\0')
           && 1 <= c.issuedAt < c.expiresAt <= 9_007_199_254_740_991
           && c.issuedAt <= c.lastUsedAt <= 9_007_199_254_740_991 && 1 <= c.maxPerSubject <= 64
  {
    IdsAndDigests(c.id);
    IdsAndDigests(c.subject);
    IdsAndDigests(c.token);
    if c.device.Some? {
      IdsAndDigests(c.device.value);
    }
  }

  /** The other commands: their references in the grammar, their instants and bounds in range. */
  lemma OthersAccepted(c: Command)
    requires !c.Issue?
    ensures Accepted(c)
      <==> && 0 <= c.now <= 9_007_199_254_740_991
           && (c.Get? || c.Refresh? || c.Revoke? || c.BindDevice? ==> IsSessionId(c.id))
           && (c.GetByToken? || c.Refresh? ==> IsHex(c.token, 64))
           && (c.Refresh? ==> c.now < c.expiresAt <= 9_007_199_254_740_991)
           && (c.Revoke? ==> 1 <= c.maxRevokedPerSubject <= 64)
           && (c.BindDevice? ==> IsHex(c.bound, 64))
           && (c.List? ==> IsSubject(c.subject) && 1 <= c.limit <= 64)
  {
    if c.Get? || c.Refresh? || c.Revoke? || c.BindDevice? {
      IdsAndDigests(c.id);
    }
    if c.GetByToken? || c.Refresh? {
      IdsAndDigests(c.token);
    }
    if c.BindDevice? {
      IdsAndDigests(c.bound);
    }
    if c.List? {
      IdsAndDigests(c.subject);
    }
  }

  // ---------------------------------------------------------------------------
  // Order and eviction
  // ---------------------------------------------------------------------------

  /** `left` is `t` without the members of a group beyond the `keep` that outlive the others. */
  ghost predicate Trimmed(t: Table, left: Table, group: set<string>, keep: nat) {
    && (forall id :: id in left ==> id in t && left[id] == t[id])
    && (forall id :: id in t && id !in group ==> id in left)
    && |set id | id in group && id in left| == (if |group| <= keep then |group| else keep)
    && forall id, gone :: id in group && id in left && gone in group && gone in t && gone !in left ==>
      Outlives(left[id], t[gone])
  }

  /** A subject's records, unrevoked or revoked. */
  function ClassOf(t: Table, subject: string, unrevoked: bool): set<string> {
    set id | id in t && t[id].subject == subject && t[id].revokedAt.None? == unrevoked
  }

  /** Evicting a subject's overflow leaves the youngest of the class, and everything else. */
  lemma OverflowGoes(t: Table, subject: string, unrevoked: bool, keep: nat)
    requires Keyed(t)
    ensures Trimmed(t, WithoutOverflow(t, subject, unrevoked, keep), ClassOf(t, subject, unrevoked), keep)
  {
    var left := WithoutOverflow(t, subject, unrevoked, keep);
    var group := ClassOf(t, subject, unrevoked);
    assert group == Members(t, subject, unrevoked);
    assert (set id | id in group && id in left) == Members(left, subject, unrevoked);
    KeptCount(t, subject, unrevoked, keep);
    RowsOfKeyed(t);
    forall id | id in t && id !in group
      ensures id in left
    {
      IdsMembership(t, Offset(ByAge, RowsOf(t, subject, unrevoked), keep), id);
    }
    forall id, gone | id in group && id in left && gone in group && gone !in left
      ensures Outlives(left[id], t[gone])
    {
      TrimEvictsOldest(t, subject, unrevoked, keep, id, gone);
    }
  }

  lemma KeptCount(t: Table, subject: string, unrevoked: bool, keep: nat)
    requires Keyed(t)
    ensures var group := Members(t, subject, unrevoked);
      |Members(WithoutOverflow(t, subject, unrevoked, keep), subject, unrevoked)|
      == if |group| <= keep then |group| else keep
  {
    MembersAreRows(t, subject, unrevoked);
    var rows := RowsOf(t, subject, unrevoked);
    RowsOfKeyed(t);
    IdsCount(rows);
    if keep <= |rows| {
      ExactlyKept(t, subject, unrevoked, keep);
    } else {
      forall r | r in rows
        ensures |RowsAhead(ByAge, rows, r)| < keep
      {
        SubsetCount(RowsAhead(ByAge, rows, r), rows);
      }
      assert Offset(ByAge, rows, keep) == {};
      assert WithoutOverflow(t, subject, unrevoked, keep) == t;
    }
  }

  // ---------------------------------------------------------------------------
  // Issue
  // ---------------------------------------------------------------------------

  /** The record an accepted login stores: the command's own fields, not revoked. */
  predicate IsStored(r: Record, c: Command)
    requires c.Issue?
  {
    && r.id == c.id && r.subject == c.subject && r.email == c.email && r.name == c.name && r.role == c.role
    && r.token == c.token && r.device == c.device && r.issuedAt == c.issuedAt && r.expiresAt == c.expiresAt
    && r.lastUsedAt == c.lastUsedAt && !r.revoked && r.revokedAt.None?
  }

  /** The records a login leaves before it trims: revoked, or neither expired nor on the login's device. */
  function Survivors(t: Table, c: Command): Table
    requires c.Issue?
  {
    map id | id in t
             && (t[id].revokedAt.Some?
                 || (c.lastUsedAt < t[id].expiresAt && (c.device.None? || t[id].device != c.device)))
           :: t[id]
  }

  /** The room a login makes is the survivors, the subject's unrevoked ones trimmed. */
  lemma RoomIsTrimmed(t: Table, c: Command)
    requires Keyed(t) && c.Issue? && 1 <= c.maxPerSubject
    ensures Keyed(Survivors(t, c))
    ensures RoomFor(t, c) == WithoutOverflow(Survivors(t, c), c.subject, true, c.maxPerSubject - 1)
  {
    SurvivorsAreLeft(t, c);
  }

  lemma SurvivorsAreLeft(t: Table, c: Command)
    requires Keyed(t) && c.Issue?
    ensures Keyed(Survivors(t, c)) && WithoutDevice(WithoutStale(t, c.lastUsedAt), c.device) == Survivors(t, c)
  {
  }

  predicate Taken(t: Table, id: string, token: string) {
    id in t || exists other :: other in t && t[other].token == token
  }

  /**
   * A login conflicts exactly when its id or its digest is taken by any record, and then changes nothing.
   * Otherwise the new record is stored and answered, beside the survivors less the subject's oldest
   * unrevoked ones, of which one less than the bound stays.
   */
  lemma IssueInFields(t: Table, c: Command)
    requires Keyed(t) && c.Issue? && Accepted(c)
    ensures var after, answer := MemoryStep(t, c).table, MemoryStep(t, c).answer;
      if Taken(t, c.id, c.token) then after == t && answer == Conflicting
      else
        && c.id in after && IsStored(after[c.id], c) && answer == Found(Some(after[c.id]))
        && Trimmed(Survivors(t, c), after - {c.id}, ClassOf(Survivors(t, c), c.subject, true), c.maxPerSubject - 1)
  {
    assert Taken(t, c.id, c.token) <==> c.id in t || HoldersOf(t, c.token) != {} by {
      if id :| id in t && t[id].token == c.token {
        assert id in HoldersOf(t, c.token);
      }
    }
    if !Taken(t, c.id, c.token) {
      RoomIsTrimmed(t, c);
      RoomShrinks(t, c);
      TrimmedAside(Survivors(t, c), RoomFor(t, c), c.id, IssuedRecord(c), c.subject, c.maxPerSubject - 1);
    }
  }

  lemma TrimmedAside(survivors: Table, room: Table, id: string, r: Record, subject: string, keep: nat)
    requires Keyed(survivors) && room == WithoutOverflow(survivors, subject, true, keep) && id !in room
    ensures Trimmed(survivors, room[id := r] - {id}, ClassOf(survivors, subject, true), keep)
  {
    assert room[id := r] - {id} == room;
    OverflowGoes(survivors, subject, true, keep);
  }

  // ---------------------------------------------------------------------------
  // The commands on one record
  // ---------------------------------------------------------------------------

  /** The record is there and has not expired, as a read sees it; revoked records do not expire. */
  predicate Seen(t: Table, id: string, now: int) {
    id in t && (t[id].revokedAt.Some? || now < t[id].expiresAt)
  }

  /** A command that finds its record missing or expired answers null; an expired record goes. */
  ghost predicate ReadsNull(t: Table, after: Table, answer: Answer, id: string) {
    && answer == Found(None)
    && (forall other :: other in after <==> other in t && other != id)
    && forall other :: other in after ==> after[other] == t[other]
  }

  /** A read answers the record while it is revoked or not expired; an expired one goes and reads as null. */
  lemma GetInFields(t: Table, id: string, now: int)
    requires Keyed(t) && Accepted(Get(id, now))
    ensures var s := MemoryStep(t, Get(id, now));
      if Seen(t, id, now) then s == Step(t, Found(Some(t[id]))) else ReadsNull(t, s.table, s.answer, id)
  {
  }

  lemma GetByTokenInFields(t: Table, token: string, now: int)
    requires Keyed(t) && UniqueTokens(t) && Accepted(GetByToken(token, now))
    ensures var s := MemoryStep(t, GetByToken(token, now));
      && ((forall id :: id in t ==> t[id].token != token) ==> s == Step(t, Found(None)))
      && (forall id :: id in t && t[id].token == token ==>
          if Seen(t, id, now) then s == Step(t, Found(Some(t[id]))) else ReadsNull(t, s.table, s.answer, id))
  {
    forall id | id in t && t[id].token == token
      ensures HoldersOf(t, token) == {id}
    {
    }
  }

  /** The one row a command on a record writes. */
  predicate Rewrites(t: Table, after: Table, answer: Answer, id: string) {
    && id in after && answer == Found(Some(after[id]))
    && after.Keys == t.Keys && forall other :: other in t && other != id ==> after[other] == t[other]
  }

  /** A refresh moves the digest, and moves expiry and last use forward only. */
  lemma RefreshInFields(t: Table, c: Command)
    requires Keyed(t) && c.Refresh? && Accepted(c)
    ensures var after, answer := MemoryStep(t, c).table, MemoryStep(t, c).answer;
      if !Seen(t, c.id, c.now) then ReadsNull(t, after, answer, c.id)
      else if t[c.id].revokedAt.Some? then after == t && answer == Found(None)
      else if exists id :: id in t && id != c.id && t[id].token == c.token then after == t && answer == Conflicting
      else
        var was := t[c.id];
        && Rewrites(t, after, answer, c.id)
        && after[c.id] == was.(token := c.token,
                               expiresAt := if was.expiresAt < c.expiresAt then c.expiresAt else was.expiresAt,
                               lastUsedAt := if was.lastUsedAt < c.now then c.now else was.lastUsedAt)
  {
    if id :| id in t && id != c.id && t[id].token == c.token {
      assert id in HoldersOf(t, c.token) - {c.id};
    }
    if id :| id in HoldersOf(t, c.token) - {c.id} {
      assert id in t && id != c.id && t[id].token == c.token;
    }
  }

  /**
   * A revoke marks a live record, at the clock or at its issue if that is later, and leaves of the
   * subject's other revoked records the latest up to the bound.
   */
  lemma RevokeInFields(t: Table, c: Command)
    requires Keyed(t) && c.Revoke? && Accepted(c)
    ensures var after, answer := MemoryStep(t, c).table, MemoryStep(t, c).answer;
      if !Seen(t, c.id, c.now) then ReadsNull(t, after, answer, c.id)
      else if t[c.id].revokedAt.Some? then after == t && answer == Found(None)
      else
        var was := t[c.id];
        var at := if was.issuedAt < c.now then c.now else was.issuedAt;
        && c.id in after && answer == Found(Some(after[c.id]))
        && after[c.id] == was.(revoked := true, revokedAt := Some(at))
        && Trimmed(t - {c.id}, after - {c.id}, ClassOf(t, was.subject, false), c.maxRevokedPerSubject)
  {
    if Seen(t, c.id, c.now) && t[c.id].revokedAt.None? {
      RevokedTable(t, c);
      TrimmedBeside(t, t[c.id].subject, c.maxRevokedPerSubject, c.id, MemoryStep(t, c).table[c.id]);
    }
  }

  lemma TrimmedBeside(t: Table, subject: string, keep: nat, id: string, r: Record)
    requires Keyed(t) && id in t && t[id].revokedAt.None?
    ensures var left := WithoutOverflow(t, subject, false, keep);
      Trimmed(t - {id}, left[id := r] - {id}, ClassOf(t, subject, false), keep)
  {
    var left := WithoutOverflow(t, subject, false, keep);
    OverflowGoes(t, subject, false, keep);
    assert left[id := r] - {id} == left - {id};
    OutsideTheGroup(t, left, id, ClassOf(t, subject, false), keep);
  }

  /** A record outside the group makes no difference to its trimming. */
  lemma OutsideTheGroup(t: Table, left: Table, id: string, group: set<string>, keep: nat)
    requires Trimmed(t, left, group, keep) && id in t && id !in group
    ensures Trimmed(t - {id}, left - {id}, group, keep)
  {
    assert (set other | other in group && other in left - {id}) == set other | other in group && other in left;
  }

  /** A device is bound to a live record that has none, and its last use moves forward only. */
  lemma BindInFields(t: Table, c: Command)
    requires Keyed(t) && c.BindDevice? && Accepted(c)
    ensures var after, answer := MemoryStep(t, c).table, MemoryStep(t, c).answer;
      if !Seen(t, c.id, c.now) then ReadsNull(t, after, answer, c.id)
      else if t[c.id].revokedAt.Some? || t[c.id].device.Some? then after == t && answer == Found(None)
      else
        var was := t[c.id];
        && Rewrites(t, after, answer, c.id)
        && after[c.id] == was.(device := Some(c.bound),
                               lastUsedAt := if was.lastUsedAt < c.now then c.now else was.lastUsedAt)
  {
  }

  // ---------------------------------------------------------------------------
  // Sweep, list, count
  // ---------------------------------------------------------------------------

  function LiveIds(t: Table, now: int): set<string> {
    set id | id in t && t[id].revokedAt.None? && now < t[id].expiresAt
  }

  function LiveIdsOf(t: Table, subject: string, now: int): set<string> {
    set id | id in LiveIds(t, now) && t[id].subject == subject
  }

  /** A sweep leaves the revoked and the live records as they are, and answers how many it removed. */
  lemma SweepInFields(t: Table, now: int)
    requires Keyed(t) && Accepted(Sweep(now))
    ensures var after, answer := MemoryStep(t, Sweep(now)).table, MemoryStep(t, Sweep(now)).answer;
      && (forall id :: id in after <==> id in t && (t[id].revokedAt.Some? || now < t[id].expiresAt))
      && (forall id :: id in after ==> after[id] == t[id])
      && answer == Swept(|t.Keys| - |after.Keys|)
  {
    var after := WithoutStale(t, now);
    assert after.Keys == t.Keys - StaleIds(t, now);
  }

  lemma CountInFields(t: Table, now: int)
    requires Keyed(t) && Accepted(Count(now))
    ensures MemoryStep(t, Count(now)) == Step(t, Counted(|LiveIds(t, now)|))
  {
    RowsOfKeyed(t);
    IdsCount(LiveRows(t, now));
    forall id | id in LiveIds(t, now)
      ensures id in Ids(LiveRows(t, now))
    {
      assert t[id] in LiveRows(t, now);
    }
    assert Ids(LiveRows(t, now)) == LiveIds(t, now);
  }

  /** `a` is listed before `b`: used later, or at one instant with the smaller id. */
  predicate UsedLater(a: Record, b: Record) {
    b.lastUsedAt < a.lastUsedAt || (a.lastUsedAt == b.lastUsedAt && Less(a.id, b.id))
  }

  /** The subject's live records in order: each once, the most recently used first. */
  ghost predicate AllListed(t: Table, live: set<string>, all: seq<Record>) {
    && |all| == |live|
    && (forall i :: 0 <= i < |all| ==> all[i].id in live && all[i].id in t && all[i] == t[all[i].id])
    && (forall i, j :: 0 <= i < j < |all| ==> UsedLater(all[i], all[j]))
    && forall id :: id in live && id in t ==> t[id] in all
  }

  lemma ListingListsAll(t: Table, subject: string, now: int)
    requires Keyed(t)
    ensures DistinctIds(LiveRowsOf(t, subject, now))
    ensures AllListed(t, LiveIdsOf(t, subject, now), Listing(ByUse, LiveRowsOf(t, subject, now)))
  {
    RowsOfKeyed(t);
    var rows := LiveRowsOf(t, subject, now);
    var all := Listing(ByUse, rows);
    var live := LiveIdsOf(t, subject, now);
    ElementsCount(ByUse, all);
    IdsCount(rows);
    forall id | id in live
      ensures t[id] in rows && id in Ids(rows) && t[id] in all
    {
      assert t[id] in rows;
      assert t[id] in Elements(all);
    }
    assert Ids(rows) == live;
    forall i | 0 <= i < |all|
      ensures all[i] in rows
    {
      assert all[i] in Elements(all);
    }
  }

  /**
   * A listing has live records of the subject only, the most recently used first, as many as there are up
   * to the limit; no live record it leaves out was used later than one it has.
   */
  lemma ListInFields(t: Table, subject: string, now: int, limit: int)
    requires Keyed(t) && Accepted(List(subject, now, limit))
    ensures var s := MemoryStep(t, List(subject, now, limit));
      var live := LiveIdsOf(t, subject, now);
      && s.table == t && s.answer.Listed?
      && var listed := s.answer.records;
         && |listed| == (if |live| <= limit then |live| else limit)
         && (forall i :: 0 <= i < |listed| ==> listed[i].id in live && listed[i] == t[listed[i].id])
         && (forall i, j :: 0 <= i < j < |listed| ==> UsedLater(listed[i], listed[j]))
         && forall i, id :: 0 <= i < |listed| && id in live && t[id] !in listed ==> UsedLater(listed[i], t[id])
  {
    ListingListsAll(t, subject, now);
    var all := Listing(ByUse, LiveRowsOf(t, subject, now));
    var live := LiveIdsOf(t, subject, now);
    var listed := Limit(all, limit);
    forall i, id | 0 <= i < |listed| && id in live && t[id] !in listed
      ensures UsedLater(listed[i], t[id])
    {
      LeftOut(all, limit, t[id], i);
    }
  }

  lemma LeftOut(all: seq<Record>, limit: nat, r: Record, i: nat)
    requires r in all && r !in Limit(all, limit) && i < |Limit(all, limit)|
    requires forall i, j :: 0 <= i < j < |all| ==> UsedLater(all[i], all[j])
    ensures UsedLater(Limit(all, limit)[i], r)
  {
    var j :| 0 <= j < |all| && all[j] == r;
    assert forall k :: 0 <= k < |Limit(all, limit)| ==> Limit(all, limit)[k] == all[k];
    assert |Limit(all, limit)| <= j;
  }
}
