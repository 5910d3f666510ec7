/**
 * The detail of one subject, as the operator contract carries it: the server's parser
 * (parseOperatorSubjectDetailView in backoffice/src/server/customer-api-client.ts), the camelCase copy
 * the server sends on (backoffice/src/server/server.ts), and the browser's parser of that copy
 * (parseOperatorSubjectView in backoffice/src/data/operator.ts).
 *
 * The blocks of a detail, its row, activity, dossier and balances, have parsers of their own; what
 * is added here is the frame around them and what the blocks must say of each other.
 */
module SubjectDetail {
  import opened Wrappers
  import opened ContractJson
  import D = Dossier
  import opened SubjectActivity
  import opened SubjectRows
  import opened Timestamps

  /** Everything but the three blocks that are lists or may be absent. */
  datatype Head = Head(
    row: Row, accountStatus: string, contactHash: string, sessions: int, devices: seq<string>, maxSessions: int,
    maxDevices: int)

  datatype Detail = Detail(head: Head, activity: seq<Activity>, kyc: Option<D.Kyc>, balances: seq<Balance>)

  const ACCOUNT_STATUSES := {"active", "closed", "dormant", "restricted"}
  const MAX_SESSIONS := 16
  const MAX_DEVICES := 8

  // ---------------------------------------------------------------------------
  // What an accepted detail is
  // ---------------------------------------------------------------------------

  predicate HeadStands(h: Head, expected: string) {
    && RowStands(h.row) && h.row.subjectId == expected && h.accountStatus in ACCOUNT_STATUSES
    && HexRef(h.contactHash, "cth_", 32) && Distinct(h.devices)
    && (forall i :: 0 <= i < |h.devices| ==> HexRef(h.devices[i], "dev_", 16))
    && 1 <= h.maxSessions <= MAX_SESSIONS && 1 <= h.maxDevices <= MAX_DEVICES
    && 0 <= h.sessions <= h.maxSessions && |h.devices| <= h.maxDevices
    && (0 < h.sessions ==> h.devices != [] && h.accountStatus != "closed")
  }

  function WindowOf(h: Head, snapshot: Option<int>): Window
    requires RowStands(h.row)
  {
    Window(Instant(h.row.registeredAt), Instant(h.row.lastActiveAt), snapshot)
  }

  function OfKind(page: seq<Activity>, kind: string): seq<Activity> {
    if page == [] then []
    else (if page[0].kind == kind then [page[0]] else []) + OfKind(page[1..], kind)
  }

  /** The first transition with a summary, if there is one. */
  function Find(transitions: seq<Activity>, summary: string): Option<Activity> {
    if transitions == [] then None
    else if transitions[0].summary == summary then Some(transitions[0])
    else Find(transitions[1..], summary)
  }

  /** Nothing has happened to an unverified subject; a pending one has submitted. */
  predicate TransitionsFit(transitions: seq<Activity>, kycStatus: string) {
    && (kycStatus == "unverified" ==> transitions == [])
    && (kycStatus == "pending" ==> forall i :: 0 <= i < |transitions| ==> transitions[i].summary == "submitted")
  }

  /** The operator's events against the roster: transitions by status, each once, and no more flags than are open. */
  predicate EventsFit(page: seq<Activity>, kycStatus: string, flags: int) {
    var transitions := OfKind(page, "kyc_transition");
    && TransitionsFit(transitions, kycStatus)
    && (forall i, j :: 0 <= i < j < |transitions| ==> transitions[i].summary != transitions[j].summary)
    && |OfKind(page, "flag_added")| <= flags
  }

  /** A closed account holds nothing. */
  predicate HoldsNothing(balances: seq<Balance>) {
    forall i :: 0 <= i < |balances| ==> UnitsOf(balances[i].available) == 0 && UnitsOf(balances[i].hold) == 0
  }

  predicate SubmittedWithin(a: D.Attempt, w: Window) {
    IsIso(a.submittedAt) && w.registered <= Instant(a.submittedAt) <= w.lastActive
  }

  /** The dossier inside the account's window, its newest attempt at the instants the transitions show. */
  predicate DossierFits(k: D.Kyc, page: seq<Activity>, w: Window) {
    var transitions := OfKind(page, "kyc_transition");
    var submitted, approved := Find(transitions, "submitted"), Find(transitions, "approved");
    && k.history != []
    && (forall i :: 0 <= i < |k.history| ==> SubmittedWithin(k.history[i], w))
    && (submitted.Some? ==> submitted.value.occurredAt == k.history[0].submittedAt)
    && (approved.Some? ==> Some(approved.value.occurredAt) == k.history[0].decidedAt)
  }

  ghost predicate KycStands(kyc: Option<D.Kyc>, h: Head, page: seq<Activity>, snapshot: Option<int>)
    requires RowStands(h.row)
  {
    kyc.Some? ==>
      && D.Stands(kyc.value, snapshot) && D.FitsRoster(kyc.value.status, Some(h.row.kycStatus))
      && DossierFits(kyc.value, page, WindowOf(h, snapshot))
  }

  ghost predicate DetailStands(d: Detail, expected: string, snapshot: Option<int>) {
    && HeadStands(d.head, expected)
    && Stands(d.activity, WindowOf(d.head, snapshot))
    && EventsFit(d.activity, d.head.row.kycStatus, d.head.row.flags)
    && |d.balances| == |ASSETS| && BalancesStand(d.balances)
    && (d.head.accountStatus == "closed" ==> HoldsNothing(d.balances))
    && KycStands(d.kyc, d.head, d.activity, snapshot)
  }

  /** The detail read, if it stands. */
  ghost function Checked(d: Option<Detail>, expected: string, snapshot: Option<int>): Option<Detail> {
    if d.Some? && DetailStands(d.value, expected, snapshot) then d else None
  }

  // ---------------------------------------------------------------------------
  // The detail on the wire
  // ---------------------------------------------------------------------------

  /** The head, read, and the three blocks, still to be read. */
  datatype Frame = Frame(head: Head, activity: Raw, kyc: Raw, balances: Raw)

  function LimitsRaw(maxSessions: int, maxDevices: int, sessionsKey: string, devicesKey: string): Raw {
    Obj(map[sessionsKey := IntRaw(maxSessions), devicesKey := IntRaw(maxDevices)])
  }

  predicate ReadsLimits(v: Raw, sessionsKey: string, devicesKey: string) {
    HasExactKeys(v, {sessionsKey, devicesKey}) && IsInt(v.fields[sessionsKey]) && IsInt(v.fields[devicesKey])
  }

  lemma LimitsAreWritten(v: Raw, sessionsKey: string, devicesKey: string)
    requires ReadsLimits(v, sessionsKey, devicesKey) && sessionsKey != devicesKey
    ensures v == LimitsRaw(v.fields[sessionsKey].n.Floor, v.fields[devicesKey].n.Floor, sessionsKey, devicesKey)
  {
    assert v.fields == map[sessionsKey := v.fields[sessionsKey], devicesKey := v.fields[devicesKey]];
  }

  function SnakeFrame(f: Frame): Raw {
    var h, r := f.head, f.head.row;
    Obj(map["subject_id" := Str(r.subjectId), "display_name" := Str(r.displayName), "kyc_status" := Str(r.kycStatus),
            "flags" := IntRaw(r.flags), "registered_at" := Str(r.registeredAt), "last_active_at" := Str(r.lastActiveAt),
            "posting" := Str("none"), "account_status" := Str(h.accountStatus), "contact_hash" := Str(h.contactHash),
            "sessions" := IntRaw(h.sessions), "devices" := Arr(WriteAll(h.devices, WriteText)),
            "limits" := LimitsRaw(h.maxSessions, h.maxDevices, "max_sessions", "max_devices"),
            "recent_activity" := f.activity, "kyc" := f.kyc, "balances" := f.balances])
  }

  predicate ReadsSnakeFrame(v: Raw) {
    && HasExactKeys(v, {"subject_id", "display_name", "kyc_status", "flags", "registered_at", "last_active_at",
                        "posting", "account_status", "contact_hash", "sessions", "devices", "limits",
                        "recent_activity", "kyc", "balances"})
    && var f := v.fields;
      && f["subject_id"].Str? && f["display_name"].Str? && f["kyc_status"].Str? && IsInt(f["flags"])
      && f["registered_at"].Str? && f["last_active_at"].Str? && f["posting"] == Str("none")
      && f["account_status"].Str? && f["contact_hash"].Str? && IsInt(f["sessions"])
      && f["devices"].Arr? && ReadAll(f["devices"].items, ReadText).Some?
      && ReadsLimits(f["limits"], "max_sessions", "max_devices")
  }

  function ReadSnakeFrame(v: Raw): Option<Frame> {
    if !ReadsSnakeFrame(v) then None
    else
      var f, limits := v.fields, v.fields["limits"].fields;
      var row := SubjectRow(f["subject_id"].s, f["display_name"].s, f["kyc_status"].s, f["flags"].n.Floor,
                            f["registered_at"].s, f["last_active_at"].s);
      var devices := ReadAll(f["devices"].items, ReadText).value;
      var head := Head(row, f["account_status"].s, f["contact_hash"].s, f["sessions"].n.Floor, devices,
                       limits["max_sessions"].n.Floor, limits["max_devices"].n.Floor);
      Some(Frame(head, f["recent_activity"], f["kyc"], f["balances"]))
  }

  lemma SnakeRowFields(f: Frame)
    ensures var m, r := SnakeFrame(f).fields, f.head.row;
      && m["subject_id"] == Str(r.subjectId) && m["display_name"] == Str(r.displayName)
      && m["kyc_status"] == Str(r.kycStatus) && m["flags"] == IntRaw(r.flags)
      && m["registered_at"] == Str(r.registeredAt) && m["last_active_at"] == Str(r.lastActiveAt)
      && m["posting"] == Str("none")
  {
  }

  lemma SnakeHeadFields(f: Frame)
    ensures var m, h := SnakeFrame(f).fields, f.head;
      && m["account_status"] == Str(h.accountStatus) && m["contact_hash"] == Str(h.contactHash)
      && m["sessions"] == IntRaw(h.sessions) && m["devices"] == Arr(WriteAll(h.devices, WriteText))
      && m["limits"] == LimitsRaw(h.maxSessions, h.maxDevices, "max_sessions", "max_devices")
  {
  }

  lemma SnakeBlockFields(f: Frame)
    ensures var m := SnakeFrame(f).fields;
      m["recent_activity"] == f.activity && m["kyc"] == f.kyc && m["balances"] == f.balances
  {
  }

  lemma SnakeFrameReads(f: Frame)
    ensures ReadsSnakeFrame(SnakeFrame(f))
  {
    TextsReadBack(f.head.devices);
    SnakeRowFields(f);
    SnakeHeadFields(f);
  }

  lemma SnakeFrameReadsBack(f: Frame)
    ensures ReadSnakeFrame(SnakeFrame(f)) == Some(f)
  {
    SnakeFrameReads(f);
    TextsReadBack(f.head.devices);
    SnakeRowFields(f);
    SnakeHeadFields(f);
    SnakeBlockFields(f);
  }

  lemma SnakeFrameIsWritten(v: Raw)
    requires ReadSnakeFrame(v).Some?
    ensures SnakeFrame(ReadSnakeFrame(v).value) == v
  {
    TextsAreWritten(v.fields["devices"].items);
    LimitsAreWritten(v.fields["limits"], "max_sessions", "max_devices");
    var w := SnakeFrame(ReadSnakeFrame(v).value);
    assert w.fields.Keys == v.fields.Keys;
    assert w.fields == v.fields;
  }

  function CamelFrame(f: Frame): Raw {
    var h, r := f.head, f.head.row;
    Obj(map["subjectId" := Str(r.subjectId), "displayName" := Str(r.displayName), "kycStatus" := Str(r.kycStatus),
            "flags" := IntRaw(r.flags), "registeredAt" := Str(r.registeredAt), "lastActiveAt" := Str(r.lastActiveAt),
            "posting" := Str("none"), "accountStatus" := Str(h.accountStatus), "contactHash" := Str(h.contactHash),
            "sessions" := IntRaw(h.sessions), "devices" := Arr(WriteAll(h.devices, WriteText)),
            "limits" := LimitsRaw(h.maxSessions, h.maxDevices, "maxSessions", "maxDevices"),
            "recentActivity" := f.activity, "kyc" := f.kyc, "balances" := f.balances])
  }

  predicate ReadsCamelFrame(v: Raw) {
    && HasExactKeys(v, {"subjectId", "displayName", "kycStatus", "flags", "registeredAt", "lastActiveAt",
                        "posting", "accountStatus", "contactHash", "sessions", "devices", "limits",
                        "recentActivity", "kyc", "balances"})
    && var f := v.fields;
      && f["subjectId"].Str? && f["displayName"].Str? && f["kycStatus"].Str? && IsInt(f["flags"])
      && f["registeredAt"].Str? && f["lastActiveAt"].Str? && f["posting"] == Str("none")
      && f["accountStatus"].Str? && f["contactHash"].Str? && IsInt(f["sessions"])
      && f["devices"].Arr? && ReadAll(f["devices"].items, ReadText).Some?
      && ReadsLimits(f["limits"], "maxSessions", "maxDevices")
  }

  function ReadCamelFrame(v: Raw): Option<Frame> {
    if !ReadsCamelFrame(v) then None
    else
      var f, limits := v.fields, v.fields["limits"].fields;
      var row := SubjectRow(f["subjectId"].s, f["displayName"].s, f["kycStatus"].s, f["flags"].n.Floor,
                            f["registeredAt"].s, f["lastActiveAt"].s);
      var devices := ReadAll(f["devices"].items, ReadText).value;
      var head := Head(row, f["accountStatus"].s, f["contactHash"].s, f["sessions"].n.Floor, devices,
                       limits["maxSessions"].n.Floor, limits["maxDevices"].n.Floor);
      Some(Frame(head, f["recentActivity"], f["kyc"], f["balances"]))
  }

  lemma CamelRowFields(f: Frame)
    ensures var m, r := CamelFrame(f).fields, f.head.row;
      && m["subjectId"] == Str(r.subjectId) && m["displayName"] == Str(r.displayName)
      && m["kycStatus"] == Str(r.kycStatus) && m["flags"] == IntRaw(r.flags)
      && m["registeredAt"] == Str(r.registeredAt) && m["lastActiveAt"] == Str(r.lastActiveAt)
      && m["posting"] == Str("none")
  {
  }

  lemma CamelHeadFields(f: Frame)
    ensures var m, h := CamelFrame(f).fields, f.head;
      && m["accountStatus"] == Str(h.accountStatus) && m["contactHash"] == Str(h.contactHash)
      && m["sessions"] == IntRaw(h.sessions) && m["devices"] == Arr(WriteAll(h.devices, WriteText))
      && m["limits"] == LimitsRaw(h.maxSessions, h.maxDevices, "maxSessions", "maxDevices")
  {
  }

  lemma CamelBlockFields(f: Frame)
    ensures var m := CamelFrame(f).fields;
      m["recentActivity"] == f.activity && m["kyc"] == f.kyc && m["balances"] == f.balances
  {
  }

  lemma CamelFrameReads(f: Frame)
    ensures ReadsCamelFrame(CamelFrame(f))
  {
    TextsReadBack(f.head.devices);
    CamelRowFields(f);
    CamelHeadFields(f);
  }

  lemma CamelFrameReadsBack(f: Frame)
    ensures ReadCamelFrame(CamelFrame(f)) == Some(f)
  {
    CamelFrameReads(f);
    TextsReadBack(f.head.devices);
    CamelRowFields(f);
    CamelHeadFields(f);
    CamelBlockFields(f);
  }

  lemma CamelFrameIsWritten(v: Raw)
    requires ReadCamelFrame(v).Some?
    ensures CamelFrame(ReadCamelFrame(v).value) == v
  {
    TextsAreWritten(v.fields["devices"].items);
    LimitsAreWritten(v.fields["limits"], "maxSessions", "maxDevices");
    var w := CamelFrame(ReadCamelFrame(v).value);
    assert w.fields.Keys == v.fields.Keys;
    assert w.fields == v.fields;
  }

  // ---------------------------------------------------------------------------
  // The parsers
  // ---------------------------------------------------------------------------

  function SnakeKycField(kyc: Option<D.Kyc>): Raw {
    if kyc.None? then Null else D.SnakeKyc(kyc.value)
  }

  function ReadSnakeKycField(v: Raw): Option<Option<D.Kyc>> {
    if v.Null? then Some(None)
    else if D.ReadSnakeKyc(v).None? then None
    else Some(D.ReadSnakeKyc(v))
  }

  function SnakeFrameOf(d: Detail): Frame {
    Frame(d.head, Arr(WriteAll(d.activity, SnakeActivity)), SnakeKycField(d.kyc),
          Arr(WriteAll(d.balances, SnakeBalance)))
  }

  function SnakeView(d: Detail): Raw {
    Obj(map["mode" := Str("test"), "subject" := SnakeFrame(SnakeFrameOf(d))])
  }

  /** The frame of the view, if it has one. */
  function SnakeOpen(v: Raw): Option<Frame> {
    if HasExactKeys(v, {"mode", "subject"}) && v.fields["mode"] == Str("test") then ReadSnakeFrame(v.fields["subject"])
    else None
  }

  function SnakeBlocks(f: Frame): Option<Detail> {
    if !f.activity.Arr? || ReadAll(f.activity.items, ReadSnakeActivity).None? || ReadSnakeKycField(f.kyc).None?
       || !f.balances.Arr? || ReadAll(f.balances.items, ReadSnakeBalance).None?
    then None
    else Some(Detail(f.head, ReadAll(f.activity.items, ReadSnakeActivity).value, ReadSnakeKycField(f.kyc).value,
                     ReadAll(f.balances.items, ReadSnakeBalance).value))
  }

  /** The view read as a whole, nothing tested yet. */
  function SnakeReadView(v: Raw): Option<Detail> {
    var f := SnakeOpen(v);
    if f.None? then None else SnakeBlocks(f.value)
  }

  /** What the parser accepts for the subject it asked for, and returns. */
  ghost function ServerDetail(v: Raw, expected: string, snapshot: int): Option<Detail> {
    Checked(SnakeReadView(v), expected, Some(snapshot))
  }

  lemma SnakeBlocksReadBack(d: Detail)
    ensures SnakeBlocks(SnakeFrameOf(d)) == Some(d)
  {
    SnakeActivitiesRoundTrip();
    SnakeBalancesRoundTrip();
    D.KycRoundTrip();
    ListsRoundTrip(d.activity, ReadSnakeActivity, SnakeActivity);
    ListsRoundTrip(d.balances, ReadSnakeBalance, SnakeBalance);
    if d.kyc.Some? {
      assert D.ReadSnakeKyc(D.SnakeKyc(d.kyc.value)) == d.kyc;
    }
  }

  lemma SnakeBlocksAreWritten(f: Frame)
    requires SnakeBlocks(f).Some?
    ensures SnakeFrameOf(SnakeBlocks(f).value) == f
  {
    SnakeActivitiesRoundTrip();
    SnakeBalancesRoundTrip();
    D.KycRoundTrip();
    ReadListsAreWritten(f.activity.items, ReadSnakeActivity, SnakeActivity);
    ReadListsAreWritten(f.balances.items, ReadSnakeBalance, SnakeBalance);
    if !f.kyc.Null? {
      assert D.SnakeKyc(D.ReadSnakeKyc(f.kyc).value) == f.kyc;
    }
  }

  lemma SnakeOpens(f: Frame)
    ensures SnakeOpen(Obj(map["mode" := Str("test"), "subject" := SnakeFrame(f)])) == Some(f)
  {
    SnakeFrameReadsBack(f);
  }

  lemma SnakeViewReadsBack(d: Detail)
    ensures SnakeReadView(SnakeView(d)) == Some(d)
  {
    SnakeBlocksReadBack(d);
    SnakeOpens(SnakeFrameOf(d));
  }

  lemma SnakeFromOpen(v: Raw)
    requires SnakeOpen(v).Some?
    ensures v == Obj(map["mode" := Str("test"), "subject" := SnakeFrame(SnakeOpen(v).value)])
  {
    SnakeFrameIsWritten(v.fields["subject"]);
    assert v.fields == map["mode" := Str("test"), "subject" := v.fields["subject"]];
  }

  lemma SnakeViewIsWritten(v: Raw)
    requires SnakeReadView(v).Some?
    ensures SnakeView(SnakeReadView(v).value) == v
  {
    SnakeFromOpen(v);
    SnakeBlocksAreWritten(SnakeOpen(v).value);
  }

  /** The block parsers in turn, and the tests between and after them. */
  ghost function ServerVerdict(f: Frame, expected: string, snapshot: int): Option<Detail> {
    if !HeadStands(f.head, expected) then None
    else
      var page := ServerPage(f.activity, WindowOf(f.head, Some(snapshot)));
      var balances := ServerBalances(f.balances);
      var kyc := ServerKycBlock(f.kyc, snapshot);
      if page.None? || !EventsFit(page.value, f.head.row.kycStatus, f.head.row.flags) || kyc.None? || balances.None?
         || (f.head.accountStatus == "closed" && !HoldsNothing(balances.value))
         || (kyc.value.Some? && !D.FitsRoster(kyc.value.value.status, Some(f.head.row.kycStatus)))
         || (kyc.value.Some? && !DossierFits(kyc.value.value, page.value, WindowOf(f.head, Some(snapshot))))
      then None
      else Some(Detail(f.head, page.value, kyc.value, balances.value))
  }

  lemma ServerPageIsRead(v: Raw, w: Window)
    ensures ServerPage(v, w)
      == if v.Arr? && ReadAll(v.items, ReadSnakeActivity).Some? && Stands(ReadAll(v.items, ReadSnakeActivity).value, w)
         then ReadAll(v.items, ReadSnakeActivity) else None
  {
    if v.Arr? {
      ReadAllItems(v.items, ReadSnakeActivity);
    }
  }

  lemma ServerBalancesAreRead(v: Raw)
    ensures ServerBalances(v)
      == if v.Arr? && ReadAll(v.items, ReadSnakeBalance).Some? && |v.items| == |ASSETS|
            && BalancesStand(ReadAll(v.items, ReadSnakeBalance).value)
         then ReadAll(v.items, ReadSnakeBalance) else None
    ensures v.Arr? && ReadAll(v.items, ReadSnakeBalance).Some? ==>
      |ReadAll(v.items, ReadSnakeBalance).value| == |v.items|
  {
    if v.Arr? {
      ReadAllItems(v.items, ReadSnakeBalance);
    }
  }

  lemma ServerVerdictStands(f: Frame, expected: string, snapshot: int)
    requires Checked(SnakeBlocks(f), expected, Some(snapshot)).Some?
    ensures ServerVerdict(f, expected, snapshot) == SnakeBlocks(f)
  {
    ServerPageIsRead(f.activity, WindowOf(f.head, Some(snapshot)));
    ServerBalancesAreRead(f.balances);
    ServerKycIsRead(f.kyc, snapshot);
  }

  lemma ServerVerdictReads(f: Frame, expected: string, snapshot: int)
    requires ServerVerdict(f, expected, snapshot).Some?
    ensures Checked(SnakeBlocks(f), expected, Some(snapshot)) == ServerVerdict(f, expected, snapshot)
  {
    ServerPageIsRead(f.activity, WindowOf(f.head, Some(snapshot)));
    ServerBalancesAreRead(f.balances);
    ServerKycIsRead(f.kyc, snapshot);
  }

  /** Parsed block by block, a frame gives exactly what it gives read as a whole and then tested. */
  lemma ServerVerdictIsDetail(f: Frame, expected: string, snapshot: int)
    ensures ServerVerdict(f, expected, snapshot) == Checked(SnakeBlocks(f), expected, Some(snapshot))
  {
    if ServerVerdict(f, expected, snapshot).Some? {
      ServerVerdictReads(f, expected, snapshot);
    } else if Checked(SnakeBlocks(f), expected, Some(snapshot)).Some? {
      ServerVerdictStands(f, expected, snapshot);
    }
  }

  method ServerParseDetail(v: Raw, expected: string, snapshot: int) returns (parsed: Option<Detail>)
    ensures parsed == ServerDetail(v, expected, snapshot)
  {
    var frame := SnakeOpen(v);
    if frame.None? {
      return None;
    }
    ServerVerdictIsDetail(frame.value, expected, snapshot);
    parsed := ServerParseBlocks(frame.value, expected, snapshot);
  }

  /** The dossier block: absent, or parsed; the server tests it against the roster afterwards. */
  ghost function ServerKycBlock(v: Raw, snapshot: int): Option<Option<D.Kyc>> {
    if v.Null? then Some(None)
    else
      var k := D.ServerDossier(v, snapshot);
      if k.None? then None else Some(k)
  }

  lemma ServerKycIsRead(v: Raw, snapshot: int)
    ensures ServerKycBlock(v, snapshot)
      == var kyc := ReadSnakeKycField(v);
         if kyc.Some? && (kyc.value.None? || D.Stands(kyc.value.value, Some(snapshot))) then kyc else None
  {
  }

  method ServerParseKycBlock(v: Raw, snapshot: int) returns (parsed: Option<Option<D.Kyc>>)
    ensures parsed == ServerKycBlock(v, snapshot)
  {
    if v.Null? {
      return Some(None);
    }
    var kyc := D.ServerParseKyc(v, snapshot);
    return if kyc.None? then None else Some(kyc);
  }

  method ServerParseBlocks(f: Frame, expected: string, snapshot: int) returns (parsed: Option<Detail>)
    ensures parsed == ServerVerdict(f, expected, snapshot)
  {
    if !HeadStands(f.head, expected) {
      return None;
    }
    var w := WindowOf(f.head, Some(snapshot));
    var page := ServerParsePage(f.activity, w);
    if page.None? || !EventsFit(page.value, f.head.row.kycStatus, f.head.row.flags) {
      return None;
    }
    var block := ServerParseKycBlock(f.kyc, snapshot);
    if block.None? {
      return None;
    }
    var kyc := block.value;
    var balances := ServerParseBalances(f.balances);
    if balances.None? || (f.head.accountStatus == "closed" && !HoldsNothing(balances.value)) {
      return None;
    }
    if kyc.Some? && !D.FitsRoster(kyc.value.status, Some(f.head.row.kycStatus)) {
      return None;
    }
    if kyc.Some? && !DossierFits(kyc.value, page.value, w) {
      return None;
    }
    return Some(Detail(f.head, page.value, kyc, balances.value));
  }

  function CamelKycField(kyc: Option<D.Kyc>): Raw {
    if kyc.None? then Null else D.CamelKyc(kyc.value)
  }

  function ReadCamelKycField(v: Raw): Option<Option<D.Kyc>> {
    if v.Null? then Some(None)
    else if D.ReadCamelKyc(v).None? then None
    else Some(D.ReadCamelKyc(v))
  }

  function CamelFrameOf(d: Detail): Frame {
    Frame(d.head, Arr(WriteAll(d.activity, CamelActivity)), CamelKycField(d.kyc),
          Arr(WriteAll(d.balances, CamelBalance)))
  }

  function CamelView(d: Detail): Raw {
    Obj(map["mode" := Str("test"), "subject" := CamelFrame(CamelFrameOf(d))])
  }

  /** The frame of the view, if it has one. */
  function CamelOpen(v: Raw): Option<Frame> {
    if HasExactKeys(v, {"mode", "subject"}) && v.fields["mode"] == Str("test") then ReadCamelFrame(v.fields["subject"])
    else None
  }

  function CamelBlocks(f: Frame): Option<Detail> {
    if !f.activity.Arr? || ReadAll(f.activity.items, ReadCamelActivity).None? || ReadCamelKycField(f.kyc).None?
       || !f.balances.Arr? || ReadAll(f.balances.items, ReadCamelBalance).None?
    then None
    else Some(Detail(f.head, ReadAll(f.activity.items, ReadCamelActivity).value, ReadCamelKycField(f.kyc).value,
                     ReadAll(f.balances.items, ReadCamelBalance).value))
  }

  /** The view read as a whole, nothing tested yet. */
  function CamelReadView(v: Raw): Option<Detail> {
    var f := CamelOpen(v);
    if f.None? then None else CamelBlocks(f.value)
  }

  /** What the parser accepts for the subject it asked for, and returns. */
  ghost function BrowserDetail(v: Raw, expected: string): Option<Detail> {
    Checked(CamelReadView(v), expected, None)
  }

  lemma CamelBlocksReadBack(d: Detail)
    ensures CamelBlocks(CamelFrameOf(d)) == Some(d)
  {
    CamelActivitiesRoundTrip();
    CamelBalancesRoundTrip();
    D.KycRoundTrip();
    ListsRoundTrip(d.activity, ReadCamelActivity, CamelActivity);
    ListsRoundTrip(d.balances, ReadCamelBalance, CamelBalance);
    if d.kyc.Some? {
      assert D.ReadCamelKyc(D.CamelKyc(d.kyc.value)) == d.kyc;
    }
  }

  lemma CamelBlocksAreWritten(f: Frame)
    requires CamelBlocks(f).Some?
    ensures CamelFrameOf(CamelBlocks(f).value) == f
  {
    CamelActivitiesRoundTrip();
    CamelBalancesRoundTrip();
    D.KycRoundTrip();
    ReadListsAreWritten(f.activity.items, ReadCamelActivity, CamelActivity);
    ReadListsAreWritten(f.balances.items, ReadCamelBalance, CamelBalance);
    if !f.kyc.Null? {
      assert D.CamelKyc(D.ReadCamelKyc(f.kyc).value) == f.kyc;
    }
  }

  lemma CamelOpens(f: Frame)
    ensures CamelOpen(Obj(map["mode" := Str("test"), "subject" := CamelFrame(f)])) == Some(f)
  {
    CamelFrameReadsBack(f);
  }

  lemma CamelViewReadsBack(d: Detail)
    ensures CamelReadView(CamelView(d)) == Some(d)
  {
    CamelBlocksReadBack(d);
    CamelOpens(CamelFrameOf(d));
  }

  lemma CamelFromOpen(v: Raw)
    requires CamelOpen(v).Some?
    ensures v == Obj(map["mode" := Str("test"), "subject" := CamelFrame(CamelOpen(v).value)])
  {
    CamelFrameIsWritten(v.fields["subject"]);
    assert v.fields == map["mode" := Str("test"), "subject" := v.fields["subject"]];
  }

  lemma CamelViewIsWritten(v: Raw)
    requires CamelReadView(v).Some?
    ensures CamelView(CamelReadView(v).value) == v
  {
    CamelFromOpen(v);
    CamelBlocksAreWritten(CamelOpen(v).value);
  }

  /** The block parsers in turn, and the tests between and after them. */
  ghost function BrowserVerdict(f: Frame, expected: string): Option<Detail> {
    if !HeadStands(f.head, expected) then None
    else
      var page := BrowserPage(f.activity, WindowOf(f.head, None));
      var balances := BrowserBalances(f.balances);
      var kyc := BrowserKycBlock(f.kyc, f.head.row.kycStatus);
      if page.None? || !EventsFit(page.value, f.head.row.kycStatus, f.head.row.flags) || kyc.None? || balances.None?
         || (f.head.accountStatus == "closed" && !HoldsNothing(balances.value))
         || (kyc.value.Some? && !DossierFits(kyc.value.value, page.value, WindowOf(f.head, None)))
      then None
      else Some(Detail(f.head, page.value, kyc.value, balances.value))
  }

  lemma BrowserPageIsRead(v: Raw, w: Window)
    ensures BrowserPage(v, w)
      == if v.Arr? && ReadAll(v.items, ReadCamelActivity).Some? && Stands(ReadAll(v.items, ReadCamelActivity).value, w)
         then ReadAll(v.items, ReadCamelActivity) else None
  {
    if v.Arr? {
      ReadAllItems(v.items, ReadCamelActivity);
    }
  }

  lemma BrowserBalancesAreRead(v: Raw)
    ensures BrowserBalances(v)
      == if v.Arr? && ReadAll(v.items, ReadCamelBalance).Some? && |v.items| == |ASSETS|
            && BalancesStand(ReadAll(v.items, ReadCamelBalance).value)
         then ReadAll(v.items, ReadCamelBalance) else None
    ensures v.Arr? && ReadAll(v.items, ReadCamelBalance).Some? ==>
      |ReadAll(v.items, ReadCamelBalance).value| == |v.items|
  {
    if v.Arr? {
      ReadAllItems(v.items, ReadCamelBalance);
    }
  }

  lemma BrowserVerdictStands(f: Frame, expected: string)
    requires Checked(CamelBlocks(f), expected, None).Some?
    ensures BrowserVerdict(f, expected) == CamelBlocks(f)
  {
    BrowserPageIsRead(f.activity, WindowOf(f.head, None));
    BrowserBalancesAreRead(f.balances);
    BrowserKycIsRead(f.kyc, f.head.row.kycStatus);
  }

  lemma BrowserVerdictReads(f: Frame, expected: string)
    requires BrowserVerdict(f, expected).Some?
    ensures Checked(CamelBlocks(f), expected, None) == BrowserVerdict(f, expected)
  {
    BrowserPageIsRead(f.activity, WindowOf(f.head, None));
    BrowserBalancesAreRead(f.balances);
    BrowserKycIsRead(f.kyc, f.head.row.kycStatus);
  }

  /** Parsed block by block, a frame gives exactly what it gives read as a whole and then tested. */
  lemma BrowserVerdictIsDetail(f: Frame, expected: string)
    ensures BrowserVerdict(f, expected) == Checked(CamelBlocks(f), expected, None)
  {
    if BrowserVerdict(f, expected).Some? {
      BrowserVerdictReads(f, expected);
    } else if Checked(CamelBlocks(f), expected, None).Some? {
      BrowserVerdictStands(f, expected);
    }
  }

  method BrowserParseDetail(v: Raw, expected: string) returns (parsed: Option<Detail>)
    ensures parsed == BrowserDetail(v, expected)
  {
    var frame := CamelOpen(v);
    if frame.None? {
      return None;
    }
    BrowserVerdictIsDetail(frame.value, expected);
    parsed := BrowserParseBlocks(frame.value, expected);
  }

  /** The browser's dossier parser takes the roster's status along. */
  ghost function BrowserKycBlock(v: Raw, roster: string): Option<Option<D.Kyc>> {
    if v.Null? then Some(None)
    else
      var k := D.BrowserDossier(v, Some(roster));
      if k.None? then None else Some(k)
  }

  lemma BrowserKycIsRead(v: Raw, roster: string)
    ensures BrowserKycBlock(v, roster)
      == var kyc := ReadCamelKycField(v);
         if kyc.Some?
            && (kyc.value.None?
                || (D.Stands(kyc.value.value, None) && D.FitsRoster(kyc.value.value.status, Some(roster))))
         then kyc else None
  {
  }

  method BrowserParseKycBlock(v: Raw, roster: string) returns (parsed: Option<Option<D.Kyc>>)
    ensures parsed == BrowserKycBlock(v, roster)
  {
    if v.Null? {
      return Some(None);
    }
    var kyc := D.BrowserParseKyc(v, Some(roster));
    return if kyc.None? then None else Some(kyc);
  }

  method BrowserParseBlocks(f: Frame, expected: string) returns (parsed: Option<Detail>)
    ensures parsed == BrowserVerdict(f, expected)
  {
    if !HeadStands(f.head, expected) {
      return None;
    }
    var w := WindowOf(f.head, None);
    var page := BrowserParsePage(f.activity, w);
    if page.None? || !EventsFit(page.value, f.head.row.kycStatus, f.head.row.flags) {
      return None;
    }
    var block := BrowserParseKycBlock(f.kyc, f.head.row.kycStatus);
    if block.None? {
      return None;
    }
    var kyc := block.value;
    var balances := BrowserParseBalances(f.balances);
    if balances.None? || (f.head.accountStatus == "closed" && !HoldsNothing(balances.value)) {
      return None;
    }
    if kyc.Some? && !DossierFits(kyc.value, page.value, w) {
      return None;
    }
    return Some(Detail(f.head, page.value, kyc, balances.value));
  }

  // ---------------------------------------------------------------------------
  // Results
  // ---------------------------------------------------------------------------

  /** Both parsers read exactly the wire form of the details that stand. */
  lemma AcceptedDetailsAreExact(v: Raw, d: Detail, expected: string, snapshot: int)
    ensures ServerDetail(v, expected, snapshot) == Some(d)
      <==> v == SnakeView(d) && DetailStands(d, expected, Some(snapshot))
    ensures BrowserDetail(v, expected) == Some(d) <==> v == CamelView(d) && DetailStands(d, expected, None)
  {
    SnakeViewReadsBack(d);
    CamelViewReadsBack(d);
    if SnakeReadView(v).Some? {
      SnakeViewIsWritten(v);
    }
    if CamelReadView(v).Some? {
      CamelViewIsWritten(v);
    }
  }

  lemma WithoutTheSnapshot(d: Detail, expected: string, snapshot: int)
    requires Checked(Some(d), expected, Some(snapshot)).Some?
    ensures Checked(Some(d), expected, None) == Some(d)
  {
    SubjectActivity.WithoutSnapshot(d.activity, WindowOf(d.head, Some(snapshot)));
    if d.kyc.Some? {
      D.WithoutBound(d.kyc.value, snapshot);
    }
  }

  /** A detail the server accepts, copied out in camelCase, is accepted by the browser as the same detail. */
  lemma BrowserAcceptsWhatServerRelays(v: Raw, expected: string, snapshot: int)
    requires ServerDetail(v, expected, snapshot).Some?
    ensures BrowserDetail(CamelView(ServerDetail(v, expected, snapshot).value), expected)
      == ServerDetail(v, expected, snapshot)
  {
    var d := ServerDetail(v, expected, snapshot).value;
    CamelViewReadsBack(d);
    WithoutTheSnapshot(d, expected, snapshot);
  }

  lemma {:induction false} FindIsMember(transitions: seq<Activity>, summary: string) returns (i: nat)
    requires Find(transitions, summary).Some?
    ensures i < |transitions| && transitions[i] == Find(transitions, summary).value && transitions[i].summary == summary
  {
    if transitions[0].summary == summary {
      i := 0;
    } else {
      i := FindIsMember(transitions[1..], summary);
      i := i + 1;
    }
  }

  lemma ApprovalRulesOut(transitions: seq<Activity>, kycStatus: string)
    requires TransitionsFit(transitions, kycStatus) && Find(transitions, "approved").Some?
    ensures kycStatus != "unverified" && kycStatus != "pending"
  {
    var i := FindIsMember(transitions, "approved");
    assert transitions[i].summary != "submitted";
  }

  lemma ApprovedMeansVerified(d: Detail, expected: string, snapshot: Option<int>)
    requires Checked(Some(d), expected, snapshot).Some?
    requires Find(OfKind(d.activity, "kyc_transition"), "approved").Some?
    ensures d.head.row.kycStatus == "verified"
  {
    assert RowStands(d.head.row);
    ApprovalRulesOut(OfKind(d.activity, "kyc_transition"), d.head.row.kycStatus);
  }

  /**
   * What the blocks of an accepted detail say of each other: an approval among the events means a verified
   * subject, and a dossier beside it is approved, was decided at that very instant, and was submitted no
   * later and within the account's window.
   */
  lemma ApprovalIsConsistent(d: Detail, expected: string, snapshot: Option<int>)
    requires DetailStands(d, expected, snapshot)
    requires Find(OfKind(d.activity, "kyc_transition"), "approved").Some?
    ensures d.head.row.kycStatus == "verified"
    ensures d.kyc.Some? ==>
      var newest, approval := d.kyc.value.history[0], Find(OfKind(d.activity, "kyc_transition"), "approved").value;
      && d.kyc.value.status == "approved" && newest.state == "approved"
      && newest.decidedAt == Some(approval.occurredAt)
      && Instant(d.head.row.registeredAt) <= Instant(newest.submittedAt) <= Instant(d.head.row.lastActiveAt)
      && Instant(newest.submittedAt) <= Instant(approval.occurredAt)
  {
    assert Checked(Some(d), expected, snapshot) == Some(d);
    ApprovedMeansVerified(d, expected, snapshot);
    if d.kyc.Some? {
      assert D.AttemptStands(d.kyc.value.history[0]);
      assert SubmittedWithin(d.kyc.value.history[0], WindowOf(d.head, snapshot));
    }
  }

  /** What only the server asks: nothing in the activity or the dossier lies past its snapshot. */
  ghost predicate DetailWithin(d: Detail, snapshot: int) {
    && (forall i :: 0 <= i < |d.activity| ==> D.Within(Some(d.activity[i].occurredAt), snapshot))
    && (d.kyc.Some? ==>
        forall i :: 0 <= i < |d.kyc.value.history| ==> D.AttemptWithin(d.kyc.value.history[i], Some(snapshot)))
  }

  lemma UnderTheSnapshot(d: Detail, expected: string, snapshot: int)
    requires Checked(Some(d), expected, None).Some?
    ensures Checked(Some(d), expected, Some(snapshot)).Some? <==> DetailWithin(d, snapshot)
  {
    SubjectActivity.UnderTheSnapshot(d.activity, WindowOf(d.head, None), snapshot);
  }

  /**
   * The converse: of the details the browser accepts, the server accepts exactly those in which nothing lies
   * past its snapshot.
   */
  lemma ServerAcceptsWhatBrowserDoes(d: Detail, expected: string, snapshot: int)
    requires BrowserDetail(CamelView(d), expected) == Some(d)
    ensures ServerDetail(SnakeView(d), expected, snapshot) == Some(d) <==> DetailWithin(d, snapshot)
  {
    SnakeViewReadsBack(d);
    UnderTheSnapshot(d, expected, snapshot);
  }
}
