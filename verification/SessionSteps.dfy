/**
 * The commands of the operator session store and what each one does to the table: the
 * specification the in-memory store is proved against, pass by pass
 * (backoffice/src/server/session-store.ts).
 */
module SessionSteps {
  import opened Texts
  import opened Wrappers
  import opened SessionRecords

  datatype Command =
    | Issue(id: string, subject: string, email: string, name: string, role: Role, token: string,
            device: Option<string>, issuedAt: int, expiresAt: int, lastUsedAt: int, maxPerSubject: int)
    | Get(id: string, now: int)
    | GetByToken(token: string, now: int)
    | Refresh(id: string, token: string, now: int, expiresAt: int)
    | Revoke(id: string, now: int, maxRevokedPerSubject: int)
    | BindDevice(id: string, bound: string, now: int)
    | Sweep(now: int)
    | List(subject: string, now: int, limit: int)
    | Count(now: int)

  /** A record or null, a sweep count, a listing, a count, or one of the two rejections. */
  datatype Answer =
    | Found(record: Option<Record>)
    | Swept(removed: nat)
    | Listed(records: seq<Record>)
    | Counted(live: nat)
    | Conflicting
    | BadCommand
    | Unavailable

  datatype Step = Step(table: Table, answer: Answer)

  // ---------------------------------------------------------------------------
  // Command checks: the assert* functions both backends call first
  // ---------------------------------------------------------------------------

  const SUBJECT_BOUND_LIMIT: int := 64
  const EMAIL_MAX: int := 320
  const NAME_MAX: int := 200

  predicate AllHex(s: string) {
    forall i :: 0 <= i < |s| ==> HexDigit(s[i])
  }

  predicate SessionId(s: string) {
    |s| == 29 && s[..5] == "sess_" && AllHex(s[5..])
  }

  predicate Digest(s: string) {
    |s| == 64 && AllHex(s)
  }

  predicate SubjectChar(c: char) {
    'a' <= c <= 'z' || 'A' <= c <= 'Z' || '0' <= c <= '9'
    || c == '_' || c == '.' || c == '+' || c == ':' || c == '@' || c == '|' || c == '-'
  }

  predicate Subject(s: string) {
    1 <= |s| <= 128 && forall i :: 0 <= i < |s| ==> SubjectChar(s[i])
  }

  predicate BoundedText(s: string, limit: int) {
    UnitLength(s) <= limit && '\0' !in s
  }

  predicate Instant(ms: int) {
    0 <= ms <= MAX_SAFE
  }

  predicate Bound(n: int) {
    1 <= n <= SUBJECT_BOUND_LIMIT
  }

  predicate Accepted(c: Command) {
    match c
    case Issue(id, subject, email, name, _, token, device, issuedAt, expiresAt, lastUsedAt, max) =>
      && SessionId(id) && Subject(subject)
      && BoundedText(email, EMAIL_MAX) && BoundedText(name, NAME_MAX)
      && Digest(token) && (device.Some? ==> Digest(device.value))
      && Instant(issuedAt) && Instant(expiresAt) && Instant(lastUsedAt)
      && 0 < issuedAt < expiresAt && issuedAt <= lastUsedAt
      && Bound(max)
    case Get(id, now) => SessionId(id) && Instant(now)
    case GetByToken(token, now) => Digest(token) && Instant(now)
    case Refresh(id, token, now, expiresAt) =>
      SessionId(id) && Digest(token) && Instant(now) && Instant(expiresAt) && now < expiresAt
    case Revoke(id, now, max) => SessionId(id) && Instant(now) && Bound(max)
    case BindDevice(id, bound, now) => SessionId(id) && Digest(bound) && Instant(now)
    case Sweep(now) => Instant(now)
    case List(subject, now, limit) => Subject(subject) && Instant(now) && Bound(limit)
    case Count(now) => Instant(now)
  }

  /** The clock reading a command carries. */
  function Clock(c: Command): int {
    if c.Issue? then c.lastUsedAt else c.now
  }

  // ---------------------------------------------------------------------------
  // Passes over the table
  // ---------------------------------------------------------------------------

  function Max(a: int, b: int): int {
    if a < b then b else a
  }

  function StaleIds(t: Table, now: int): set<string> {
    set id | id in t && Stale(t[id], now)
  }

  function WithoutStale(t: Table, now: int): Table {
    t - StaleIds(t, now)
  }

  /** The other unrevoked sessions of a device a new login displaces. */
  function DeviceIds(t: Table, device: Option<string>): set<string> {
    if device.None? then {} else set id | id in t && Unrevoked(t[id]) && t[id].device == device
  }

  function WithoutDevice(t: Table, device: Option<string>): Table {
    t - DeviceIds(t, device)
  }

  /** A subject's unrevoked rows, or its revoked ones. */
  function RowsOf(t: Table, subject: string, unrevoked: bool): set<Record> {
    set r | r in Rows(t) && r.subject == subject && Unrevoked(r) == unrevoked
  }

  /** Eviction of a subject's rows of one class beyond the newest `keep`. */
  function WithoutOverflow(t: Table, subject: string, unrevoked: bool, keep: nat): Table {
    t - Ids(Offset(ByAge, RowsOf(t, subject, unrevoked), keep))
  }

  function HoldersOf(t: Table, token: string): set<string> {
    set id | id in t && t[id].token == token
  }

  // ---------------------------------------------------------------------------
  // Commands
  // ---------------------------------------------------------------------------

  function IssuedRecord(c: Command): Record
    requires c.Issue?
  {
    Record(c.id, c.subject, c.email, c.name, c.role, c.token, c.device,
           c.issuedAt, c.expiresAt, c.lastUsedAt, false, None)
  }

  function RefreshedRecord(r: Record, c: Command): Record
    requires c.Refresh?
  {
    r.(token := c.token, expiresAt := Max(c.expiresAt, r.expiresAt), lastUsedAt := Max(c.now, r.lastUsedAt))
  }

  function RevokedRecord(r: Record, c: Command): Record
    requires c.Revoke?
  {
    r.(revoked := true, revokedAt := Some(Max(c.now, r.issuedAt)))
  }

  function BoundRecord(r: Record, c: Command): Record
    requires c.BindDevice?
  {
    r.(device := Some(c.bound), lastUsedAt := Max(c.now, r.lastUsedAt))
  }

  /** The table an issue writes into: swept, displaced, then trimmed to leave room for one more. */
  function RoomFor(t: Table, c: Command): Table
    requires c.Issue? && 1 <= c.maxPerSubject
  {
    WithoutOverflow(WithoutDevice(WithoutStale(t, c.lastUsedAt), c.device), c.subject, true, c.maxPerSubject - 1)
  }

  function IssueStep(t: Table, c: Command): Step
    requires c.Issue? && 1 <= c.maxPerSubject
  {
    if c.id in t || HoldersOf(t, c.token) != {} then Step(t, Conflicting)
    else Step(RoomFor(t, c)[c.id := IssuedRecord(c)], Found(Some(IssuedRecord(c))))
  }

  /** Lazy expiry: a stale record is evicted and reads as absent. */
  function GetStep(t: Table, id: string, now: int): Step {
    if id !in t then Step(t, Found(None))
    else if Stale(t[id], now) then Step(t - {id}, Found(None))
    else Step(t, Found(Some(t[id])))
  }

  /** The same lookup through the digest: at most one record holds it. */
  ghost function GetByTokenStep(t: Table, token: string, now: int): Step {
    if HoldersOf(t, token) == {} then Step(t, Found(None))
    else
      var id :| id in HoldersOf(t, token);
      GetStep(t, id, now)
  }

  function RefreshStep(t: Table, c: Command): Step
    requires c.Refresh?
  {
    if c.id !in t then Step(t, Found(None))
    else if Stale(t[c.id], c.now) then Step(t - {c.id}, Found(None))
    else if !Unrevoked(t[c.id]) then Step(t, Found(None))
    else if HoldersOf(t, c.token) - {c.id} != {} then Step(t, Conflicting)
    else
      var rotated := RefreshedRecord(t[c.id], c);
      Step(t[c.id := rotated], Found(Some(rotated)))
  }

  function RevokeStep(t: Table, c: Command): Step
    requires c.Revoke? && 0 <= c.maxRevokedPerSubject
  {
    if c.id !in t then Step(t, Found(None))
    else if Stale(t[c.id], c.now) then Step(t - {c.id}, Found(None))
    else if !Unrevoked(t[c.id]) then Step(t, Found(None))
    else
      var revoked := RevokedRecord(t[c.id], c);
      var trimmed := WithoutOverflow(t, t[c.id].subject, false, c.maxRevokedPerSubject);
      Step(trimmed[c.id := revoked], Found(Some(revoked)))
  }

  function BindStep(t: Table, c: Command): Step
    requires c.BindDevice?
  {
    if c.id !in t then Step(t, Found(None))
    else if Stale(t[c.id], c.now) then Step(t - {c.id}, Found(None))
    else if !Unrevoked(t[c.id]) || t[c.id].device.Some? then Step(t, Found(None))
    else
      var bound := BoundRecord(t[c.id], c);
      Step(t[c.id := bound], Found(Some(bound)))
  }

  function SweepStep(t: Table, now: int): Step {
    Step(WithoutStale(t, now), Swept(|StaleIds(t, now)|))
  }

  function LiveRows(t: Table, now: int): set<Record> {
    set r | r in Rows(t) && LiveAt(r, now)
  }

  function LiveRowsOf(t: Table, subject: string, now: int): set<Record> {
    set r | r in LiveRows(t, now) && r.subject == subject
  }

  function Limit(listed: seq<Record>, limit: nat): seq<Record> {
    if |listed| <= limit then listed else listed[..limit]
  }

  ghost function ListStep(t: Table, subject: string, now: int, limit: nat): Step
    requires Keyed(t)
  {
    RowsOfKeyed(t);
    Step(t, Listed(Limit(Listing(ByUse, LiveRowsOf(t, subject, now)), limit)))
  }

  function CountStep(t: Table, now: int): Step {
    Step(t, Counted(|LiveRows(t, now)|))
  }

  /** One command against the in-memory store. */
  ghost function MemoryStep(t: Table, c: Command): Step
    requires Keyed(t)
  {
    if !Accepted(c) then Step(t, BadCommand)
    else
      match c
      case Issue(_, _, _, _, _, _, _, _, _, _, _) => IssueStep(t, c)
      case Get(id, now) => GetStep(t, id, now)
      case GetByToken(token, now) => GetByTokenStep(t, token, now)
      case Refresh(_, _, _, _) => RefreshStep(t, c)
      case Revoke(_, _, _) => RevokeStep(t, c)
      case BindDevice(_, _, _) => BindStep(t, c)
      case Sweep(now) => SweepStep(t, now)
      case List(subject, now, limit) => ListStep(t, subject, now, limit)
      case Count(now) => CountStep(t, now)
  }

  // ---------------------------------------------------------------------------
  // Sample commands
  // ---------------------------------------------------------------------------

  function Repeated(c: char, n: nat): string {
    seq(n, _ => c)
  }

  /** A login of one operator, told apart by the digit its id and digest are made of. */
  function SampleLogin(digit: char, maxPerSubject: int): Command {
    Issue("sess_" + Repeated(digit, 24), "operator", "", "", Auditor, Repeated(digit, 64), None, 1, 10, 1,
          maxPerSubject)
  }

  lemma SampleLoginIsAccepted(digit: char, maxPerSubject: int)
    requires HexDigit(digit) && Bound(maxPerSubject)
    ensures Accepted(SampleLogin(digit, maxPerSubject))
  {
    var id := "sess_" + Repeated(digit, 24);
    assert id[..5] == "sess_" && id[5..] == Repeated(digit, 24);
  }

  lemma SampleLoginsDiffer(a: char, b: char, maxPerSubject: int)
    requires a != b
    ensures SampleLogin(a, maxPerSubject).id != SampleLogin(b, maxPerSubject).id
    ensures SampleLogin(a, maxPerSubject).token != SampleLogin(b, maxPerSubject).token
  {
    assert SampleLogin(a, maxPerSubject).id[5] == a && SampleLogin(b, maxPerSubject).id[5] == b;
    assert SampleLogin(a, maxPerSubject).token[0] == a && SampleLogin(b, maxPerSubject).token[0] == b;
  }
}
