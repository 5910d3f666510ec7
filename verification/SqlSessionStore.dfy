/**
 * The PostgreSQL session store: every lifecycle operation is one statement whose common table
 * expressions all read the same snapshot of the table
 * (backoffice/src/server/postgres-session-store.ts).
 *
 * The statements are set expressions over the snapshot. Each is proved to leave the table, and
 * give the answer, that the in-memory store's passes leave and give one after the other.
 */
module SqlSessionStore {
  import opened Texts
  import opened Wrappers
  import opened SessionRecords
  import opened SessionSteps

  // ---------------------------------------------------------------------------
  // Three-valued logic
  // ---------------------------------------------------------------------------

  datatype Truth = Yes | No | Unknown

  function Of(b: bool): Truth {
    if b then Yes else No
  }

  function And(p: Truth, q: Truth): Truth {
    if p == No || q == No then No else if p == Yes && q == Yes then Yes else Unknown
  }

  function Or(p: Truth, q: Truth): Truth {
    if p == Yes || q == Yes then Yes else if p == No && q == No then No else Unknown
  }

  /** `a = b`: unknown as soon as one side is NULL. */
  function Equal(a: Option<string>, b: Option<string>): Truth {
    if a.None? || b.None? then Unknown else Of(a.value == b.value)
  }

  /** `a <> b`, of the same kind. */
  function Differs(a: Option<string>, b: Option<string>): Truth {
    if a.None? || b.None? then Unknown else Of(a.value != b.value)
  }

  function IsNull<T>(a: Option<T>): Truth {
    Of(a.None?)
  }

  function IsNotNull<T>(a: Option<T>): Truth {
    Of(a.Some?)
  }

  /** `a IS DISTINCT FROM b`: never unknown, two NULLs are not distinct. */
  function IsDistinct(a: Option<string>, b: Option<string>): Truth {
    if a.None? || b.None? then Of(a.Some? || b.Some?) else Of(a.value != b.value)
  }

  /** WHERE keeps a row when its condition is true, not when it is unknown. */
  predicate Keeps(p: Truth) {
    p == Yes
  }

  // ---------------------------------------------------------------------------
  // ORDER BY
  // ---------------------------------------------------------------------------

  /** The columns the statements order by, each descending, `session_id` ascending among equals. */
  datatype Column = IssuedAt | RevokedAt | LastUsedAt

  /** The column's value; NULL, which no ordered selection contains, is read as zero. */
  function Value(column: Column, r: Record): int {
    match column
    case IssuedAt => r.issuedAt
    case RevokedAt => if r.revokedAt.Some? then r.revokedAt.value else 0
    case LastUsedAt => r.lastUsedAt
  }

  /** `a` comes before `b` under ORDER BY column DESC, session_id ASC. */
  predicate ComesBefore(column: Column, a: Record, b: Record) {
    Value(column, a) > Value(column, b) || (Value(column, a) == Value(column, b) && Less(a.id, b.id))
  }

  function Before(column: Column, rows: set<Record>, r: Record): set<Record> {
    set s | s in rows && ComesBefore(column, s, r)
  }

  /** ORDER BY ... OFFSET n leaves the rows with at least n rows before them. */
  function PastOffset(column: Column, rows: set<Record>, n: nat): set<Record> {
    set r | r in rows && |Before(column, rows, r)| >= n
  }

  /** On rows of one class, the columns of the statements order as the keys of the memory store do. */
  lemma ColumnsAreKeys(rows: set<Record>, n: nat)
    ensures (forall r :: r in rows ==> r.revokedAt.None?) ==> PastOffset(IssuedAt, rows, n) == Offset(ByAge, rows, n)
    ensures (forall r :: r in rows ==> r.revokedAt.Some?) ==> PastOffset(RevokedAt, rows, n) == Offset(ByAge, rows, n)
    ensures forall r :: Before(LastUsedAt, rows, r) == RowsAhead(ByUse, rows, r)
  {
    if forall r :: r in rows ==> r.revokedAt.None? {
      assert forall r :: r in rows ==> Before(IssuedAt, rows, r) == RowsAhead(ByAge, rows, r);
    }
    if forall r :: r in rows ==> r.revokedAt.Some? {
      assert forall r :: r in rows ==> Before(RevokedAt, rows, r) == RowsAhead(ByAge, rows, r);
    }
  }

  // ---------------------------------------------------------------------------
  // ISSUE
  // ---------------------------------------------------------------------------

  function IssueConflicts(t: Table, c: Command): set<Record>
    requires c.Issue?
  {
    set r | r in Rows(t) && Keeps(Or(Equal(Some(r.id), Some(c.id)), Equal(Some(r.token), Some(c.token))))
  }

  function StaleBranch(t: Table, now: int): set<Record> {
    set r | r in Rows(t) && Keeps(And(IsNull(r.revokedAt), Of(r.expiresAt <= now)))
  }

  function DeviceBranch(t: Table, device: Option<string>): set<Record> {
    set r | r in Rows(t) && Keeps(And(Equal(r.device, device), IsNull(r.revokedAt)))
  }

  function OverflowCandidates(t: Table, c: Command): set<Record>
    requires c.Issue?
  {
    set r | r in Rows(t) && Keeps(
        And(And(Equal(Some(r.subject), Some(c.subject)), IsNull(r.revokedAt)),
            And(Of(c.lastUsedAt < r.expiresAt),
                Or(IsNull(c.device), IsDistinct(r.device, c.device)))))
  }

  /** The union of the three doomed branches, all read from the one snapshot. */
  function IssueDoomed(t: Table, c: Command): set<string>
    requires c.Issue? && 1 <= c.maxPerSubject
  {
    Ids(StaleBranch(t, c.lastUsedAt))
    + Ids(DeviceBranch(t, c.device))
    + Ids(PastOffset(IssuedAt, OverflowCandidates(t, c), c.maxPerSubject - 1))
  }

  function IssueSql(t: Table, c: Command): Step
    requires c.Issue? && 1 <= c.maxPerSubject
  {
    var conflicts := IssueConflicts(t, c);
    var evicted := set id | id in IssueDoomed(t, c) && conflicts == {};
    var inserted :=
      Record(c.id, c.subject, c.email, c.name, c.role, c.token, c.device, c.issuedAt, c.expiresAt, c.lastUsedAt,
             false, None);
    if conflicts == {} then Step((t - evicted)[c.id := inserted], Found(Some(inserted)))
    else Step(t - evicted, Conflicting)
  }

  // ---------------------------------------------------------------------------
  // GET, GET BY TOKEN
  // ---------------------------------------------------------------------------

  function ById(t: Table, id: string): set<Record> {
    set r | r in Rows(t) && Keeps(Equal(Some(r.id), Some(id)))
  }

  function ByDigest(t: Table, token: string): set<Record> {
    set r | r in Rows(t) && Keeps(Equal(Some(r.token), Some(token)))
  }

  function StaleAmong(rows: set<Record>, now: int): set<Record> {
    set r | r in rows && Keeps(And(IsNull(r.revokedAt), Of(r.expiresAt <= now)))
  }

  /** The first row of a result, or null when it is empty. */
  ghost function FirstRow(rows: set<Record>): Option<Record> {
    if rows == {} then None else var r :| r in rows; Some(r)
  }

  ghost function GetSql(t: Table, id: string, now: int): Step {
    var stale := StaleAmong(ById(t, id), now);
    Step(t - Ids(stale), Found(FirstRow(set r | r in ById(t, id) && stale == {})))
  }

  ghost function GetByTokenSql(t: Table, token: string, now: int): Step {
    var stale := StaleAmong(ByDigest(t, token), now);
    Step(t - Ids(stale), Found(FirstRow(set r | r in ByDigest(t, token) && stale == {})))
  }

  // ---------------------------------------------------------------------------
  // REFRESH, REVOKE, BIND DEVICE
  // ---------------------------------------------------------------------------

  function Greatest(a: int, b: int): int {
    if b <= a then a else b
  }

  /** The target row exists and is not revoked, and the stale branch did not fire. */
  predicate Transitions(t: Table, id: string, now: int) {
    && (exists r :: r in ById(t, id) && Keeps(IsNull(r.revokedAt)))
    && StaleAmong(ById(t, id), now) == {}
  }

  function RefreshConflicts(t: Table, c: Command): set<Record>
    requires c.Refresh?
  {
    set r | r in ByDigest(t, c.token) && Keeps(Differs(Some(r.id), Some(c.id)))
  }

  function RefreshSql(t: Table, c: Command): Step
    requires c.Refresh?
  {
    var swept := t - Ids(StaleAmong(ById(t, c.id), c.now));
    var conflicts := RefreshConflicts(t, c);
    if conflicts != {} && Transitions(t, c.id, c.now) then Step(swept, Conflicting)
    else if Transitions(t, c.id, c.now) && conflicts == {} && c.id in t then
      var updated := t[c.id].(token := c.token, expiresAt := Greatest(c.expiresAt, t[c.id].expiresAt),
                              lastUsedAt := Greatest(c.now, t[c.id].lastUsedAt));
      Step(swept[c.id := updated], Found(Some(updated)))
    else Step(swept, Found(None))
  }

  /** `subject = (SELECT subject FROM target)`: NULL when the target row does not exist. */
  function TargetSubject(t: Table, id: string): Option<string> {
    if id in t then Some(t[id].subject) else None
  }

  function TombstoneCandidates(t: Table, c: Command): set<Record>
    requires c.Revoke?
  {
    set r | r in Rows(t) && Keeps(
        And(And(Equal(Some(r.subject), TargetSubject(t, c.id)), IsNotNull(r.revokedAt)),
            Differs(Some(r.id), Some(c.id))))
  }

  function RevokeDoomed(t: Table, c: Command): set<string>
    requires c.Revoke? && 0 <= c.maxRevokedPerSubject
  {
    set id | id in Ids(PastOffset(RevokedAt, TombstoneCandidates(t, c), c.maxRevokedPerSubject))
          && Transitions(t, c.id, c.now)
  }

  function RevokeSql(t: Table, c: Command): Step
    requires c.Revoke? && 0 <= c.maxRevokedPerSubject
  {
    var swept := t - Ids(StaleAmong(ById(t, c.id), c.now)) - RevokeDoomed(t, c);
    if Transitions(t, c.id, c.now) && c.id in t then
      var updated := t[c.id].(revoked := true, revokedAt := Some(Greatest(c.now, t[c.id].issuedAt)));
      Step(swept[c.id := updated], Found(Some(updated)))
    else Step(swept, Found(None))
  }

  function BindSql(t: Table, c: Command): Step
    requires c.BindDevice?
  {
    var swept := t - Ids(StaleAmong(ById(t, c.id), c.now));
    if && (exists r :: r in ById(t, c.id) && Keeps(And(IsNull(r.revokedAt), IsNull(r.device))))
       && StaleAmong(ById(t, c.id), c.now) == {} && c.id in t
    then
      var updated := t[c.id].(device := Some(c.bound), lastUsedAt := Greatest(c.now, t[c.id].lastUsedAt));
      Step(swept[c.id := updated], Found(Some(updated)))
    else Step(swept, Found(None))
  }

  // ---------------------------------------------------------------------------
  // SWEEP, LIST, COUNT
  // ---------------------------------------------------------------------------

  function SweepSql(t: Table, now: int): Step {
    var deleted := StaleBranch(t, now);
    Step(t - Ids(deleted), Swept(|deleted|))
  }

  function LiveSelection(t: Table, subject: Option<string>, now: int): set<Record> {
    set r | r in Rows(t) && Keeps(
        And(if subject.Some? then Equal(Some(r.subject), subject) else Yes,
            And(IsNull(r.revokedAt), Of(now < r.expiresAt))))
  }

  /** ORDER BY places at position `i` the row with exactly `i` rows ahead of it. */
  ghost predicate OrderedBy(column: Column, rows: set<Record>, listed: seq<Record>) {
    && |listed| == |rows|
    && forall i :: 0 <= i < |listed| ==> listed[i] in rows && |Before(column, rows, listed[i])| == i
  }

  ghost function ListSql(t: Table, subject: string, now: int, limit: nat): Step
    requires Keyed(t)
  {
    RowsOfKeyed(t);
    var rows := LiveSelection(t, Some(subject), now);
    OrderByExists(rows);
    var listed :| OrderedBy(LastUsedAt, rows, listed);
    Step(t, Listed(Limit(listed, limit)))
  }

  function CountSql(t: Table, now: int): Step {
    Step(t, Counted(|LiveSelection(t, None, now)|))
  }

  /** One command against the PostgreSQL store. */
  ghost function SqlStep(t: Table, c: Command): Step
    requires Keyed(t)
  {
    if !Accepted(c) then Step(t, BadCommand)
    else
      match c
      case Issue(_, _, _, _, _, _, _, _, _, _, _) => IssueSql(t, c)
      case Get(id, now) => GetSql(t, id, now)
      case GetByToken(token, now) => GetByTokenSql(t, token, now)
      case Refresh(_, _, _, _) => RefreshSql(t, c)
      case Revoke(_, _, _) => RevokeSql(t, c)
      case BindDevice(_, _, _) => BindSql(t, c)
      case Sweep(now) => SweepSql(t, now)
      case List(subject, now, limit) => ListSql(t, subject, now, limit)
      case Count(now) => CountSql(t, now)
  }

  // ---------------------------------------------------------------------------
  // One snapshot equals the passes
  // ---------------------------------------------------------------------------

  lemma BranchesAreIdSets(t: Table, now: int, device: Option<string>)
    requires Keyed(t)
    ensures Ids(StaleBranch(t, now)) == StaleIds(t, now)
    ensures Ids(DeviceBranch(t, device)) == DeviceIds(t, device)
  {
    RowsOfKeyed(t);
    forall id
      ensures id in Ids(StaleBranch(t, now)) <==> id in StaleIds(t, now)
      ensures id in Ids(DeviceBranch(t, device)) <==> id in DeviceIds(t, device)
    {
      IdsMembership(t, StaleBranch(t, now), id);
      IdsMembership(t, DeviceBranch(t, device), id);
    }
  }

  /**
   * The rows the overflow branch ranks in the snapshot are exactly the subject's unrevoked rows
   * that the sweep and the displacement leave behind.
   */
  lemma CandidatesSurvive(t: Table, c: Command)
    requires Keyed(t) && c.Issue?
    ensures OverflowCandidates(t, c)
         == RowsOf(WithoutDevice(WithoutStale(t, c.lastUsedAt), c.device), c.subject, true)
  {
    var swept := WithoutStale(t, c.lastUsedAt);
    var left := WithoutDevice(swept, c.device);
    RowsOfKeyed(t);
    RowsOfKeyed(left);
    forall r
      ensures r in OverflowCandidates(t, c) <==> r in RowsOf(left, c.subject, true)
    {
      if r in Rows(t) {
        assert r.id in swept <==> !Stale(r, c.lastUsedAt);
        assert r.id in left <==> r.id in swept && !(c.device.Some? && Unrevoked(r) && r.device == c.device);
      }
      if r in Rows(left) {
        assert r == t[r.id];
      }
    }
  }

  lemma ConflictsAgree(t: Table, c: Command)
    requires Keyed(t) && c.Issue?
    ensures IssueConflicts(t, c) == {} <==> c.id !in t && HoldersOf(t, c.token) == {}
  {
    RowsOfKeyed(t);
    if c.id in t {
      assert t[c.id] in IssueConflicts(t, c);
    }
    if id :| id in HoldersOf(t, c.token) {
      assert t[id] in IssueConflicts(t, c);
    }
    if r :| r in IssueConflicts(t, c) {
      assert r.id in t && (r.id == c.id || r.id in HoldersOf(t, c.token));
    }
  }

  lemma OverflowIsOffset(t: Table, c: Command)
    requires c.Issue? && 1 <= c.maxPerSubject
    ensures PastOffset(IssuedAt, OverflowCandidates(t, c), c.maxPerSubject - 1)
      == Offset(ByAge, OverflowCandidates(t, c), c.maxPerSubject - 1)
  {
    ColumnsAreKeys(OverflowCandidates(t, c), c.maxPerSubject - 1);
  }

  /** Deleting the union of the doomed branches at once is sweeping, displacing and trimming in turn. */
  lemma DoomedAgrees(t: Table, c: Command)
    requires Keyed(t) && c.Issue? && 1 <= c.maxPerSubject
    ensures t - IssueDoomed(t, c) == RoomFor(t, c)
  {
    var overflow := Ids(PastOffset(IssuedAt, OverflowCandidates(t, c), c.maxPerSubject - 1));
    BranchesAreIdSets(t, c.lastUsedAt, c.device);
    RoomInTurn(t, c);
    DeletedInTurn(t, StaleIds(t, c.lastUsedAt), DeviceIds(t, c.device), overflow);
  }

  lemma RoomInTurn(t: Table, c: Command)
    requires Keyed(t) && c.Issue? && 1 <= c.maxPerSubject
    ensures RoomFor(t, c)
      == t - StaleIds(t, c.lastUsedAt) - DeviceIds(t, c.device)
         - Ids(PastOffset(IssuedAt, OverflowCandidates(t, c), c.maxPerSubject - 1))
  {
    CandidatesSurvive(t, c);
    OverflowIsOffset(t, c);
    DeviceIdsAfterSweep(t, c.lastUsedAt, c.device);
  }

  lemma DeletedInTurn(t: Table, a: set<string>, b: set<string>, c: set<string>)
    ensures t - (a + b + c) == t - a - b - c
  {
  }

  lemma IssueAgrees(t: Table, c: Command)
    requires Keyed(t) && c.Issue? && 1 <= c.maxPerSubject
    ensures IssueSql(t, c) == IssueStep(t, c)
  {
    ConflictsAgree(t, c);
    var none := IssueConflicts(t, c) == {};
    var evicted := set id | id in IssueDoomed(t, c) && none;
    if none {
      assert evicted == IssueDoomed(t, c);
      DoomedAgrees(t, c);
    } else {
      assert evicted == {};
      assert t - evicted == t;
    }
  }

  /** Displacing a device after the sweep removes what displacing it at once would. */
  lemma DeviceIdsAfterSweep(t: Table, now: int, device: Option<string>)
    ensures WithoutDevice(WithoutStale(t, now), device) == t - StaleIds(t, now) - DeviceIds(t, device)
  {
    var swept := WithoutStale(t, now);
    assert DeviceIds(swept, device) == DeviceIds(t, device) - StaleIds(t, now);
  }

  lemma TargetRows(t: Table, id: string, now: int)
    requires Keyed(t)
    ensures ById(t, id) == if id in t then {t[id]} else {}
    ensures Ids(StaleAmong(ById(t, id), now)) == if id in t && Stale(t[id], now) then {id} else {}
    ensures Transitions(t, id, now) <==> id in t && LiveAt(t[id], now)
  {
    RowsOfKeyed(t);
    if id in t {
      assert t[id] in ById(t, id);
      assert ById(t, id) == {t[id]};
      if Stale(t[id], now) {
        assert StaleAmong(ById(t, id), now) == {t[id]};
      } else {
        assert StaleAmong(ById(t, id), now) == {};
      }
    }
  }

  lemma GetAgrees(t: Table, id: string, now: int)
    requires Keyed(t)
    ensures GetSql(t, id, now) == GetStep(t, id, now)
  {
    TargetRows(t, id, now);
    var stale := StaleAmong(ById(t, id), now);
    assert t - {} == t;
    if id in t && !Stale(t[id], now) {
      assert stale == {};
      assert (set r | r in ById(t, id) && stale == {}) == {t[id]};
    } else {
      if id in t {
        assert t[id] in stale;
      }
      assert (set r | r in ById(t, id) && stale == {}) == {};
    }
  }

  lemma DigestRows(t: Table, token: string)
    requires Keyed(t) && UniqueTokens(t)
    ensures HoldersOf(t, token) == {} ==> ByDigest(t, token) == {}
    ensures forall id :: id in HoldersOf(t, token) ==>
      HoldersOf(t, token) == {id} && ByDigest(t, token) == ById(t, id)
  {
    RowsOfKeyed(t);
    forall id | id in HoldersOf(t, token)
      ensures HoldersOf(t, token) == {id} && ByDigest(t, token) == ById(t, id)
    {
      forall r | r in ByDigest(t, token)
        ensures r in ById(t, id)
      {
        assert t[r.id].token == t[id].token;
      }
    }
    if r :| r in ByDigest(t, token) {
      assert r.id in HoldersOf(t, token);
    }
  }

  lemma GetByTokenAgrees(t: Table, token: string, now: int)
    requires Keyed(t) && UniqueTokens(t)
    ensures GetByTokenSql(t, token, now) == GetByTokenStep(t, token, now)
  {
    DigestRows(t, token);
    if HoldersOf(t, token) == {} {
      assert t - Ids({}) == t;
      assert (set r: Record | r in ByDigest(t, token) && StaleAmong(ByDigest(t, token), now) == {}) == {};
    } else {
      var id :| id in HoldersOf(t, token);
      assert ByDigest(t, token) == ById(t, id);
      GetAgrees(t, id, now);
    }
  }

  lemma RefreshAgrees(t: Table, c: Command)
    requires Keyed(t) && c.Refresh?
    ensures RefreshSql(t, c) == RefreshStep(t, c)
  {
    TargetRows(t, c.id, c.now);
    RowsOfKeyed(t);
    assert t - {} == t;
    assert RefreshConflicts(t, c) == {} <==> HoldersOf(t, c.token) - {c.id} == {} by {
      if r :| r in RefreshConflicts(t, c) {
        assert r.id in HoldersOf(t, c.token) - {c.id};
      }
      if id :| id in HoldersOf(t, c.token) - {c.id} {
        assert t[id] in RefreshConflicts(t, c);
      }
    }
  }

  lemma RevokeAgrees(t: Table, c: Command)
    requires Keyed(t) && c.Revoke? && 0 <= c.maxRevokedPerSubject
    ensures RevokeSql(t, c) == RevokeStep(t, c)
  {
    TargetRows(t, c.id, c.now);
    RowsOfKeyed(t);
    assert t - {} == t;
    if Transitions(t, c.id, c.now) {
      assert TombstoneCandidates(t, c) == RowsOf(t, t[c.id].subject, false);
      ColumnsAreKeys(TombstoneCandidates(t, c), c.maxRevokedPerSubject);
      assert RevokeDoomed(t, c) == Ids(Offset(ByAge, TombstoneCandidates(t, c), c.maxRevokedPerSubject));
    } else {
      assert RevokeDoomed(t, c) == {};
    }
  }

  lemma BindAgrees(t: Table, c: Command)
    requires Keyed(t) && c.BindDevice?
    ensures BindSql(t, c) == BindStep(t, c)
  {
    TargetRows(t, c.id, c.now);
    assert t - {} == t;
    if c.id in t {
      assert t[c.id] in ById(t, c.id);
      assert StaleAmong(ById(t, c.id), c.now) == {} <==> !Stale(t[c.id], c.now);
    }
  }

  lemma SweepAgrees(t: Table, now: int)
    requires Keyed(t)
    ensures SweepSql(t, now) == SweepStep(t, now)
  {
    BranchesAreIdSets(t, now, None);
    RowsOfKeyed(t);
    IdsCount(StaleBranch(t, now));
  }

  lemma OrderByExists(rows: set<Record>)
    requires DistinctIds(rows)
    ensures exists listed :: OrderedBy(LastUsedAt, rows, listed)
  {
    var listed := Listing(ByUse, rows);
    ElementsCount(ByUse, listed);
    ColumnsAreKeys(rows, 0);
    forall i | 0 <= i < |listed|
      ensures listed[i] in rows && |Before(LastUsedAt, rows, listed[i])| == i
    {
      RankInSorted(ByUse, listed, i);
      assert listed[i] in Elements(listed);
    }
    assert OrderedBy(LastUsedAt, rows, listed);
  }

  /** Ranks leave no choice: the ordered result is the sorted listing. */
  lemma OrderByIsListing(rows: set<Record>, listed: seq<Record>)
    requires DistinctIds(rows) && OrderedBy(LastUsedAt, rows, listed)
    ensures listed == Listing(ByUse, rows)
  {
    var other := Listing(ByUse, rows);
    ElementsCount(ByUse, other);
    ColumnsAreKeys(rows, 0);
    forall i | 0 <= i < |listed|
      ensures listed[i] == other[i]
    {
      assert listed[i] in Elements(other);
      var j :| 0 <= j < |other| && other[j] == listed[i];
      RankInSorted(ByUse, other, j);
    }
  }

  lemma ListAgrees(t: Table, subject: string, now: int, limit: nat)
    requires Keyed(t)
    ensures ListSql(t, subject, now, limit) == ListStep(t, subject, now, limit)
  {
    RowsOfKeyed(t);
    var rows := LiveSelection(t, Some(subject), now);
    assert rows == LiveRowsOf(t, subject, now);
    OrderByExists(rows);
    var listed :| OrderedBy(LastUsedAt, rows, listed)
                  && ListSql(t, subject, now, limit) == Step(t, Listed(Limit(listed, limit)));
    OrderByIsListing(rows, listed);
  }

  lemma CountAgrees(t: Table, now: int)
    ensures CountSql(t, now) == CountStep(t, now)
  {
    assert LiveSelection(t, None, now) == LiveRows(t, now);
  }

  /** One statement, one step: the two backends agree on every command. */
  lemma BackendsAgree(t: Table, c: Command)
    requires Keyed(t) && UniqueTokens(t)
    ensures SqlStep(t, c) == MemoryStep(t, c)
  {
    if Accepted(c) {
      match c
      case Issue(_, _, _, _, _, _, _, _, _, _, _) => IssueAgrees(t, c);
      case Get(id, now) => GetAgrees(t, id, now);
      case GetByToken(token, now) => GetByTokenAgrees(t, token, now);
      case Refresh(_, _, _, _) => RefreshAgrees(t, c);
      case Revoke(_, _, _) => RevokeAgrees(t, c);
      case BindDevice(_, _, _) => BindAgrees(t, c);
      case Sweep(now) => SweepAgrees(t, now);
      case List(subject, now, limit) => ListAgrees(t, subject, now, limit);
      case Count(now) => CountAgrees(t, now);
    }
  }
}
