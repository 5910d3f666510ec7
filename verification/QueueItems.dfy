/**
 * The items of the operator queue, in its three kinds, and their two forms on the wire: snake_case from
 * the customer API (backoffice/src/server/customer-api-client.ts), camelCase from the server to the
 * browser (backoffice/src/server/server.ts, backoffice/src/data/operator.ts).
 */
module QueueItems {
  import opened Wrappers
  import opened ContractJson
  import opened Texts
  import opened Timestamps

  datatype Kind = Kyc | Aml | Tickets

  /** What every kind of item has. */
  datatype Core = Core(
    queueId: string, subjectId: string, state: string, priority: string, assignee: Option<string>, ageMs: int)

  datatype Item =
    | KycItem(core: Core, displayName: string, submittedAt: string, slaDueAt: string)
    | AmlItem(core: Core, alertType: string, evidenceRefs: seq<string>, slaDueAt: string)
    | TicketItem(core: Core, category: string, openedAt: string)

  const MAX_EVIDENCE := 8
  const PRIORITIES := {"normal", "high", "urgent"}
  const CATEGORIES := {"question", "operation_problem", "complaint", "data_request"}

  function KindText(kind: Kind): string {
    match kind
    case Kyc => "kyc"
    case Aml => "aml"
    case Tickets => "tickets"
  }

  function KindOf(item: Item): Kind {
    match item
    case KycItem(_, _, _, _) => Kyc
    case AmlItem(_, _, _, _) => Aml
    case TicketItem(_, _, _) => Tickets
  }

  function States(kind: Kind): set<string> {
    if kind.Tickets? then {"open", "waiting", "escalated"} else {"pending", "in_review", "escalated"}
  }

  function QueueIdPrefix(kind: Kind): string {
    match kind
    case Kyc => "qky_"
    case Aml => "qml_"
    case Tickets => "qtick_"
  }

  // ---------------------------------------------------------------------------
  // What an accepted item is
  // ---------------------------------------------------------------------------

  predicate CoreStands(core: Core, kind: Kind) {
    && HexRef(core.queueId, QueueIdPrefix(kind), 24) && CustomerRef(core.subjectId) && core.state in States(kind)
    && core.priority in PRIORITIES && (core.assignee.Some? ==> OperatorRef(core.assignee.value)) && 0 <= core.ageMs
  }

  predicate ItemStands(item: Item, kind: Kind) {
    && KindOf(item) == kind && CoreStands(item.core, kind)
    && match item
       case KycItem(_, displayName, submittedAt, slaDueAt) =>
         DisplayName(displayName) && IsIso(submittedAt) && IsIso(slaDueAt) && Instant(submittedAt) < Instant(slaDueAt)
       case AmlItem(_, alertType, evidenceRefs, slaDueAt) =>
         && alertType in ALERT_TYPES && 1 <= |evidenceRefs| <= MAX_EVIDENCE && Distinct(evidenceRefs)
         && (forall i :: 0 <= i < |evidenceRefs| ==> HexRef(evidenceRefs[i], "evd_", 24)) && IsIso(slaDueAt)
       case TicketItem(_, category, openedAt) => category in CATEGORIES && IsIso(openedAt)
  }

  /** The instant a page is sorted on: the deadline, or for tickets the opening. */
  function SortText(item: Item): string {
    if item.TicketItem? then item.openedAt else item.slaDueAt
  }

  function PlaceOf(item: Item): Place
    requires IsIso(SortText(item))
  {
    Place(Instant(SortText(item)), item.core.queueId)
  }

  /** The age is counted from the opening or the submission to the snapshot; an alert's is not on the wire. */
  predicate AgeFits(item: Item, snapshot: int) {
    match item
    case KycItem(core, _, submittedAt, _) => IsIso(submittedAt) && core.ageMs == snapshot - Instant(submittedAt)
    case AmlItem(_, _, _, _) => true
    case TicketItem(core, _, openedAt) => IsIso(openedAt) && core.ageMs == snapshot - Instant(openedAt)
  }

  // ---------------------------------------------------------------------------
  // Items on the wire
  // ---------------------------------------------------------------------------

  function AssigneeRaw(assignee: Option<string>): Raw {
    if assignee.None? then Null else Obj(map["subject" := Str(assignee.value)])
  }

  function ReadAssignee(v: Raw): Option<Option<string>> {
    if v.Null? then Some(None)
    else if HasExactKeys(v, {"subject"}) && v.fields["subject"].Str? then Some(Some(v.fields["subject"].s))
    else None
  }

  lemma AssigneeIsWritten(v: Raw)
    requires ReadAssignee(v).Some?
    ensures AssigneeRaw(ReadAssignee(v).value) == v
  {
    if v.Obj? {
      assert v.fields == map["subject" := v.fields["subject"]];
    }
  }

  lemma AssigneeReadsBack(assignee: Option<string>)
    ensures ReadAssignee(AssigneeRaw(assignee)) == Some(assignee)
  {
  }

  function SnakeKyc(core: Core, displayName: string, submittedAt: string, slaDueAt: string): Raw {
    Obj(map["queue_id" := Str(core.queueId), "subject_id" := Str(core.subjectId), "state" := Str(core.state),
            "priority" := Str(core.priority), "assignee" := AssigneeRaw(core.assignee), "age_ms" := IntRaw(core.ageMs),
            "display_name" := Str(displayName), "submitted_at" := Str(submittedAt), "sla_due_at" := Str(slaDueAt)])
  }

  function SnakeAml(core: Core, alertType: string, evidenceRefs: seq<string>, slaDueAt: string): Raw {
    Obj(map["queue_id" := Str(core.queueId), "subject_id" := Str(core.subjectId), "state" := Str(core.state),
            "priority" := Str(core.priority), "assignee" := AssigneeRaw(core.assignee), "age_ms" := IntRaw(core.ageMs),
            "alert_type" := Str(alertType), "evidence_refs" := Arr(WriteAll(evidenceRefs, WriteText)),
            "sla_due_at" := Str(slaDueAt)])
  }

  function SnakeTicket(core: Core, category: string, openedAt: string): Raw {
    Obj(map["queue_id" := Str(core.queueId), "subject_id" := Str(core.subjectId), "state" := Str(core.state),
            "priority" := Str(core.priority), "assignee" := AssigneeRaw(core.assignee), "age_ms" := IntRaw(core.ageMs),
            "category" := Str(category), "opened_at" := Str(openedAt)])
  }

  function SnakeItem(item: Item): Raw {
    match item
    case KycItem(core, displayName, submittedAt, slaDueAt) => SnakeKyc(core, displayName, submittedAt, slaDueAt)
    case AmlItem(core, alertType, evidenceRefs, slaDueAt) => SnakeAml(core, alertType, evidenceRefs, slaDueAt)
    case TicketItem(core, category, openedAt) => SnakeTicket(core, category, openedAt)
  }

  function ReadSnakeCore(f: map<string, Raw>): Option<Core>
    requires {"queue_id", "subject_id", "state", "priority", "assignee", "age_ms"} <= f.Keys
  {
    if !f["queue_id"].Str? || !f["subject_id"].Str? || !f["state"].Str? || !f["priority"].Str?
       || ReadAssignee(f["assignee"]).None? || !IsInt(f["age_ms"])
    then None
    else Some(Core(f["queue_id"].s, f["subject_id"].s, f["state"].s, f["priority"].s, ReadAssignee(f["assignee"]).value,
                   f["age_ms"].n.Floor))
  }

  function ReadSnakeKyc(v: Raw): Option<Item> {
    if !HasExactKeys(v, {"queue_id", "subject_id", "state", "priority", "assignee", "age_ms", "display_name",
        "submitted_at",
                         "sla_due_at"})
    then None
    else
      var f := v.fields;
      var core := ReadSnakeCore(f);
      if core.None? || !f["display_name"].Str? || !f["submitted_at"].Str? || !f["sla_due_at"].Str? then None
      else Some(KycItem(core.value, f["display_name"].s, f["submitted_at"].s, f["sla_due_at"].s))
  }

  function ReadSnakeAml(v: Raw): Option<Item> {
    if !HasExactKeys(v, {"queue_id", "subject_id", "state", "priority", "assignee", "age_ms", "alert_type",
        "evidence_refs",
                         "sla_due_at"})
    then None
    else
      var f := v.fields;
      var core := ReadSnakeCore(f);
      if core.None? || !f["alert_type"].Str? || !f["evidence_refs"].Arr? || !f["sla_due_at"].Str?
         || ReadAll(f["evidence_refs"].items, ReadText).None?
      then None
      else Some(AmlItem(core.value, f["alert_type"].s, ReadAll(f["evidence_refs"].items, ReadText).value,
          f["sla_due_at"].s))
  }

  function ReadSnakeTicket(v: Raw): Option<Item> {
    if !HasExactKeys(v, {"queue_id", "subject_id", "state", "priority", "assignee", "age_ms", "category", "opened_at"})
    then None
    else
      var f := v.fields;
      var core := ReadSnakeCore(f);
      if core.None? || !f["category"].Str? || !f["opened_at"].Str? then None
      else Some(TicketItem(core.value, f["category"].s, f["opened_at"].s))
  }

  /** An item of any kind: the kinds differ in their key sets. */
  function ReadSnakeItem(v: Raw): Option<Item> {
    if !v.Obj? then None
    else if "display_name" in v.fields then ReadSnakeKyc(v)
    else if "alert_type" in v.fields then ReadSnakeAml(v)
    else ReadSnakeTicket(v)
  }

  lemma SnakeKycReadsBack(core: Core, displayName: string, submittedAt: string, slaDueAt: string)
    ensures ReadSnakeItem(SnakeKyc(core, displayName, submittedAt, slaDueAt))
      == Some(KycItem(core, displayName, submittedAt, slaDueAt))
  {
    AssigneeReadsBack(core.assignee);
  }

  lemma SnakeAmlReadsBack(core: Core, alertType: string, evidenceRefs: seq<string>, slaDueAt: string)
    ensures ReadSnakeItem(SnakeAml(core, alertType, evidenceRefs, slaDueAt))
      == Some(AmlItem(core, alertType, evidenceRefs, slaDueAt))
  {
    AssigneeReadsBack(core.assignee);
    TextsReadBack(evidenceRefs);
  }

  lemma SnakeTicketReadsBack(core: Core, category: string, openedAt: string)
    ensures ReadSnakeItem(SnakeTicket(core, category, openedAt)) == Some(TicketItem(core, category, openedAt))
  {
    var v := SnakeTicket(core, category, openedAt);
    AssigneeReadsBack(core.assignee);
    assert ReadSnakeCore(v.fields) == Some(core);
    assert ReadSnakeTicket(v) == Some(TicketItem(core, category, openedAt));
  }

  lemma SnakeKycIsWritten(v: Raw)
    requires ReadSnakeKyc(v).Some?
    ensures SnakeItem(ReadSnakeKyc(v).value) == v
  {
    AssigneeIsWritten(v.fields["assignee"]);
    var w := SnakeItem(ReadSnakeKyc(v).value);
    assert w.fields.Keys == v.fields.Keys;
    assert w.fields == v.fields;
  }

  lemma SnakeAmlIsWritten(v: Raw)
    requires ReadSnakeAml(v).Some?
    ensures SnakeItem(ReadSnakeAml(v).value) == v
  {
    AssigneeIsWritten(v.fields["assignee"]);
    TextsAreWritten(v.fields["evidence_refs"].items);
    var w := SnakeItem(ReadSnakeAml(v).value);
    assert w.fields.Keys == v.fields.Keys;
    assert w.fields == v.fields;
  }

  lemma SnakeTicketIsWritten(v: Raw)
    requires ReadSnakeTicket(v).Some?
    ensures SnakeItem(ReadSnakeTicket(v).value) == v
  {
    AssigneeIsWritten(v.fields["assignee"]);
    var w := SnakeItem(ReadSnakeTicket(v).value);
    assert w.fields.Keys == v.fields.Keys;
    assert w.fields == v.fields;
  }

  lemma SnakeItemsRoundTrip()
    ensures Undoes(ReadSnakeItem, SnakeItem)
  {
    forall v | ReadSnakeItem(v).Some?
      ensures SnakeItem(ReadSnakeItem(v).value) == v
    {
      if "display_name" in v.fields {
        SnakeKycIsWritten(v);
      } else if "alert_type" in v.fields {
        SnakeAmlIsWritten(v);
      } else {
        SnakeTicketIsWritten(v);
      }
    }
    forall item
      ensures ReadSnakeItem(SnakeItem(item)) == Some(item)
    {
      match item
      case KycItem(core, displayName, submittedAt, slaDueAt) => SnakeKycReadsBack(core, displayName, submittedAt,
          slaDueAt);
      case AmlItem(core, alertType, evidenceRefs, slaDueAt) =>
        SnakeAmlReadsBack(core, alertType, evidenceRefs, slaDueAt);
      case TicketItem(core, category, openedAt) => SnakeTicketReadsBack(core, category, openedAt);
    }
  }

  // The camelCase copy.

  function CamelKyc(core: Core, displayName: string, submittedAt: string, slaDueAt: string): Raw {
    Obj(map["queueId" := Str(core.queueId), "subjectId" := Str(core.subjectId), "state" := Str(core.state),
            "priority" := Str(core.priority), "assignee" := AssigneeRaw(core.assignee), "ageMs" := IntRaw(core.ageMs),
            "displayName" := Str(displayName), "submittedAt" := Str(submittedAt), "slaDueAt" := Str(slaDueAt)])
  }

  function CamelAml(core: Core, alertType: string, evidenceRefs: seq<string>, slaDueAt: string): Raw {
    Obj(map["queueId" := Str(core.queueId), "subjectId" := Str(core.subjectId), "state" := Str(core.state),
            "priority" := Str(core.priority), "assignee" := AssigneeRaw(core.assignee), "ageMs" := IntRaw(core.ageMs),
            "alertType" := Str(alertType), "evidenceRefs" := Arr(WriteAll(evidenceRefs, WriteText)),
            "slaDueAt" := Str(slaDueAt)])
  }

  function CamelTicket(core: Core, category: string, openedAt: string): Raw {
    Obj(map["queueId" := Str(core.queueId), "subjectId" := Str(core.subjectId), "state" := Str(core.state),
            "priority" := Str(core.priority), "assignee" := AssigneeRaw(core.assignee), "ageMs" := IntRaw(core.ageMs),
            "category" := Str(category), "openedAt" := Str(openedAt)])
  }

  function CamelItem(item: Item): Raw {
    match item
    case KycItem(core, displayName, submittedAt, slaDueAt) => CamelKyc(core, displayName, submittedAt, slaDueAt)
    case AmlItem(core, alertType, evidenceRefs, slaDueAt) => CamelAml(core, alertType, evidenceRefs, slaDueAt)
    case TicketItem(core, category, openedAt) => CamelTicket(core, category, openedAt)
  }

  function ReadCamelCore(f: map<string, Raw>): Option<Core>
    requires {"queueId", "subjectId", "state", "priority", "assignee", "ageMs"} <= f.Keys
  {
    if !f["queueId"].Str? || !f["subjectId"].Str? || !f["state"].Str? || !f["priority"].Str?
       || ReadAssignee(f["assignee"]).None? || !IsInt(f["ageMs"])
    then None
    else Some(Core(f["queueId"].s, f["subjectId"].s, f["state"].s, f["priority"].s, ReadAssignee(f["assignee"]).value,
                   f["ageMs"].n.Floor))
  }

  function ReadCamelKyc(v: Raw): Option<Item> {
    if !HasExactKeys(v, {"queueId", "subjectId", "state", "priority", "assignee", "ageMs", "displayName", "submittedAt",
                         "slaDueAt"})
    then None
    else
      var f := v.fields;
      var core := ReadCamelCore(f);
      if core.None? || !f["displayName"].Str? || !f["submittedAt"].Str? || !f["slaDueAt"].Str? then None
      else Some(KycItem(core.value, f["displayName"].s, f["submittedAt"].s, f["slaDueAt"].s))
  }

  function ReadCamelAml(v: Raw): Option<Item> {
    if !HasExactKeys(v, {"queueId", "subjectId", "state", "priority", "assignee", "ageMs", "alertType", "evidenceRefs",
                         "slaDueAt"})
    then None
    else
      var f := v.fields;
      var core := ReadCamelCore(f);
      if core.None? || !f["alertType"].Str? || !f["evidenceRefs"].Arr? || !f["slaDueAt"].Str?
         || ReadAll(f["evidenceRefs"].items, ReadText).None?
      then None
      else Some(AmlItem(core.value, f["alertType"].s, ReadAll(f["evidenceRefs"].items, ReadText).value,
                        f["slaDueAt"].s))
  }

  function ReadCamelTicket(v: Raw): Option<Item> {
    if !HasExactKeys(v, {"queueId", "subjectId", "state", "priority", "assignee", "ageMs", "category", "openedAt"})
    then None
    else
      var f := v.fields;
      var core := ReadCamelCore(f);
      if core.None? || !f["category"].Str? || !f["openedAt"].Str? then None
      else Some(TicketItem(core.value, f["category"].s, f["openedAt"].s))
  }

  /** An item of any kind: the kinds differ in their key sets. */
  function ReadCamelItem(v: Raw): Option<Item> {
    if !v.Obj? then None
    else if "displayName" in v.fields then ReadCamelKyc(v)
    else if "alertType" in v.fields then ReadCamelAml(v)
    else ReadCamelTicket(v)
  }

  lemma CamelKycReadsBack(core: Core, displayName: string, submittedAt: string, slaDueAt: string)
    ensures ReadCamelItem(CamelKyc(core, displayName, submittedAt, slaDueAt))
      == Some(KycItem(core, displayName, submittedAt, slaDueAt))
  {
    AssigneeReadsBack(core.assignee);
  }

  lemma CamelAmlReadsBack(core: Core, alertType: string, evidenceRefs: seq<string>, slaDueAt: string)
    ensures ReadCamelItem(CamelAml(core, alertType, evidenceRefs, slaDueAt))
      == Some(AmlItem(core, alertType, evidenceRefs, slaDueAt))
  {
    AssigneeReadsBack(core.assignee);
    TextsReadBack(evidenceRefs);
  }

  lemma CamelTicketReadsBack(core: Core, category: string, openedAt: string)
    ensures ReadCamelItem(CamelTicket(core, category, openedAt)) == Some(TicketItem(core, category, openedAt))
  {
    var v := CamelTicket(core, category, openedAt);
    AssigneeReadsBack(core.assignee);
    assert ReadCamelCore(v.fields) == Some(core);
    assert ReadCamelTicket(v) == Some(TicketItem(core, category, openedAt));
  }

  lemma CamelKycIsWritten(v: Raw)
    requires ReadCamelKyc(v).Some?
    ensures CamelItem(ReadCamelKyc(v).value) == v
  {
    AssigneeIsWritten(v.fields["assignee"]);
    var w := CamelItem(ReadCamelKyc(v).value);
    assert w.fields.Keys == v.fields.Keys;
    assert w.fields == v.fields;
  }

  lemma CamelAmlIsWritten(v: Raw)
    requires ReadCamelAml(v).Some?
    ensures CamelItem(ReadCamelAml(v).value) == v
  {
    AssigneeIsWritten(v.fields["assignee"]);
    TextsAreWritten(v.fields["evidenceRefs"].items);
    var w := CamelItem(ReadCamelAml(v).value);
    assert w.fields.Keys == v.fields.Keys;
    assert w.fields == v.fields;
  }

  lemma CamelTicketIsWritten(v: Raw)
    requires ReadCamelTicket(v).Some?
    ensures CamelItem(ReadCamelTicket(v).value) == v
  {
    AssigneeIsWritten(v.fields["assignee"]);
    var w := CamelItem(ReadCamelTicket(v).value);
    assert w.fields.Keys == v.fields.Keys;
    assert w.fields == v.fields;
  }

  lemma CamelItemsRoundTrip()
    ensures Undoes(ReadCamelItem, CamelItem)
  {
    forall v | ReadCamelItem(v).Some?
      ensures CamelItem(ReadCamelItem(v).value) == v
    {
      if "displayName" in v.fields {
        CamelKycIsWritten(v);
      } else if "alertType" in v.fields {
        CamelAmlIsWritten(v);
      } else {
        CamelTicketIsWritten(v);
      }
    }
    forall item
      ensures ReadCamelItem(CamelItem(item)) == Some(item)
    {
      match item
      case KycItem(core, displayName, submittedAt, slaDueAt) => CamelKycReadsBack(core, displayName, submittedAt,
          slaDueAt);
      case AmlItem(core, alertType, evidenceRefs, slaDueAt) =>
        CamelAmlReadsBack(core, alertType, evidenceRefs, slaDueAt);
      case TicketItem(core, category, openedAt) => CamelTicketReadsBack(core, category, openedAt);
    }
  }

}
