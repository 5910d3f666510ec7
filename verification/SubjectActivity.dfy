/**
 * The recent activity of a subject, as the operator contract carries it: the server's parser
 * (parseSubjectActivityItem and parseSubjectRecentActivity in backoffice/src/server/customer-api-client.ts),
 * the camelCase copy the server sends on (backoffice/src/server/server.ts), and the browser's parser of
 * that copy (parseActivityItem and parseRecentActivity in backoffice/src/data/operator.ts).
 */
module SubjectActivity {
  import opened Wrappers
  import opened ContractJson
  import opened ContractPages
  import Decimals = ReportDecimals
  import opened Texts
  import opened Timestamps

  datatype Money = Money(amount: string, asset: string)

  datatype Activity = Activity(activityId: string, kind: string, occurredAt: string, summary: string,
      money: Option<Money>)

  const MAX_ACTIVITIES := 8
  const TRANSITIONS := {"submitted", "approved"}
  const OPERATOR_KINDS := {"kyc_transition", "flag_added"}
  const MONEY_KINDS := {"deposit", "withdrawal", "quote", "order", "payment", "card", "check"}

  /** The summaries each kind may carry; no kind, no summary. */
  function SummariesOf(kind: string): set<string> {
    if kind == "deposit" then
      {"awaiting_payment", "payment_received", "partial_payment", "duplicate_payment", "payment_reversed",
       "expired_no_payment"}
    else if kind == "withdrawal" then
      {"draft", "screened", "pending_maker_approval", "pending_checker_approval", "unsigned_intent_ready", "broadcast",
       "confirmed", "rejected", "cancelled", "expired"}
    else if kind == "quote" then {"indicative"}
    else if kind == "order" then {"open", "cancelled", "expired", "rejected"}
    else if kind == "payment" then {"created", "processing", "completed", "failed", "reversed", "cancelled", "expired"}
    else if kind == "card" then {"pending_activation", "active", "frozen", "blocked", "expired", "terminated"}
    else if kind == "check" then
      {"awaiting_confirmation", "created", "awaiting_recipient_kyc", "claimed", "cancelled", "expired"}
    else if kind == "kyc" then
      {"submitted", "in_review", "approved", "rejected", "needs_more_data", "timed_out", "unavailable"}
    else if kind == "security" then {"login", "revoked"}
    else if kind == "kyc_transition" then TRANSITIONS
    else if kind == "flag_added" then ALERT_TYPES
    else {}
  }

  /** Digits, a point, and as many digits as the asset has decimals, with no superfluous zero in front. */
  predicate ScaledAmount(s: string, scale: nat) {
    var amount := Decimals.Split(s);
    && amount.Some? && |amount.value.fraction| == scale && 0 < scale && amount.value.whole != ""
    && (amount.value.whole == "0" || amount.value.whole[0] != '0')
  }

  /** The amount in the asset's smallest units. */
  function UnitsOf(s: string): int {
    var amount := Decimals.Split(s);
    if amount.None? then 0
    else
      Decimals.SplitParts(s);
      Decimals.DigitsJoin(amount.value.whole, amount.value.fraction);
      Decimals.NatOf(amount.value.whole + amount.value.fraction)
  }

  predicate MoneyStands(m: Money) {
    var scale := Decimals.ScaleOf(m.asset);
    scale.Some? && ScaledAmount(m.amount, scale.value) && 0 < UnitsOf(m.amount)
  }

  // ---------------------------------------------------------------------------
  // Items on the wire
  // ---------------------------------------------------------------------------

  function MoneyRaw(m: Option<Money>): Raw {
    if m.None? then Null else Obj(map["amount" := Str(m.value.amount), "asset" := Str(m.value.asset)])
  }

  function ReadMoney(v: Raw): Option<Option<Money>> {
    if v.Null? then Some(None)
    else if HasExactKeys(v, {"amount", "asset"}) && v.fields["amount"].Str? && v.fields["asset"].Str? then
      Some(Some(Money(v.fields["amount"].s, v.fields["asset"].s)))
    else None
  }

  lemma MoneyRoundTrip(v: Raw, m: Option<Money>)
    ensures ReadMoney(v) == Some(m) <==> v == MoneyRaw(m)
  {
    if ReadMoney(v) == Some(m) && m.Some? {
      assert v.fields == MoneyRaw(m).fields;
    }
  }

  function SnakeActivity(a: Activity): Raw {
    Obj(map["activity_id" := Str(a.activityId), "kind" := Str(a.kind), "occurred_at" := Str(a.occurredAt),
            "summary" := Str(a.summary), "money" := MoneyRaw(a.money)])
  }

  function ReadSnakeActivity(v: Raw): Option<Activity> {
    if !HasExactKeys(v, {"activity_id", "kind", "occurred_at", "summary", "money"}) then None
    else
      var f := v.fields;
      if !f["activity_id"].Str? || !f["kind"].Str? || !f["occurred_at"].Str? || !f["summary"].Str?
          || ReadMoney(f["money"]).None?
      then None
      else Some(Activity(f["activity_id"].s, f["kind"].s, f["occurred_at"].s, f["summary"].s,
          ReadMoney(f["money"]).value))
  }

  lemma SnakeActivitiesRoundTrip()
    ensures Undoes(ReadSnakeActivity, SnakeActivity)
  {
    forall a: Activity
      ensures ReadSnakeActivity(SnakeActivity(a)) == Some(a)
    {
      MoneyRoundTrip(MoneyRaw(a.money), a.money);
    }
    forall v | ReadSnakeActivity(v).Some?
      ensures SnakeActivity(ReadSnakeActivity(v).value) == v
    {
      MoneyRoundTrip(v.fields["money"], ReadMoney(v.fields["money"]).value);
      assert SnakeActivity(ReadSnakeActivity(v).value).fields == v.fields;
    }
  }

  function CamelActivity(a: Activity): Raw {
    Obj(map["activityId" := Str(a.activityId), "kind" := Str(a.kind), "occurredAt" := Str(a.occurredAt),
            "summary" := Str(a.summary), "money" := MoneyRaw(a.money)])
  }

  function ReadCamelActivity(v: Raw): Option<Activity> {
    if !HasExactKeys(v, {"activityId", "kind", "occurredAt", "summary", "money"}) then None
    else
      var f := v.fields;
      if !f["activityId"].Str? || !f["kind"].Str? || !f["occurredAt"].Str? || !f["summary"].Str?
          || ReadMoney(f["money"]).None?
      then None
      else Some(Activity(f["activityId"].s, f["kind"].s, f["occurredAt"].s, f["summary"].s,
                         ReadMoney(f["money"]).value))
  }

  lemma CamelActivitiesRoundTrip()
    ensures Undoes(ReadCamelActivity, CamelActivity)
  {
    forall a: Activity
      ensures ReadCamelActivity(CamelActivity(a)) == Some(a)
    {
      MoneyRoundTrip(MoneyRaw(a.money), a.money);
    }
    forall v | ReadCamelActivity(v).Some?
      ensures CamelActivity(ReadCamelActivity(v).value) == v
    {
      MoneyRoundTrip(v.fields["money"], ReadMoney(v.fields["money"]).value);
      assert CamelActivity(ReadCamelActivity(v).value).fields == v.fields;
    }
  }

  // ---------------------------------------------------------------------------
  // What an accepted page is
  // ---------------------------------------------------------------------------

  predicate IsOperatorRef(id: string) {
    "opact_" <= id
  }

  /** One item: its grammar and vocabulary, an operator's reference on an operator's kind, money where it belongs. */
  predicate ActivityStands(a: Activity) {
    && (HexRef(a.activityId, "act_", 24) || HexRef(a.activityId, "opact_", 24))
    && a.summary in SummariesOf(a.kind) && IsIso(a.occurredAt)
    && (a.kind in OPERATOR_KINDS <==> IsOperatorRef(a.activityId))
    && (if a.money.None? then a.kind !in MONEY_KINDS else a.kind in MONEY_KINDS && MoneyStands(a.money.value))
  }

  /** Work on the operator's side, which can come after the subject was last active. */
  predicate OperatorSide(a: Activity) {
    IsOperatorRef(a.activityId) && !(a.kind == "kyc_transition" && a.summary == "submitted")
  }

  /** The instants of the account; the server also knows the snapshot nothing can lie past. */
  datatype Window = Window(registered: int, lastActive: int, snapshot: Option<int>)

  predicate ActivityFits(a: Activity, w: Window) {
    && ActivityStands(a)
    && var at := Instant(a.occurredAt);
      && w.registered <= at && (w.snapshot.Some? ==> at <= w.snapshot.value)
      && (OperatorSide(a) || at <= w.lastActive)
  }

  function PlaceOf(a: Activity): Place
    requires IsIso(a.occurredAt)
  {
    Place(-Instant(a.occurredAt), a.activityId)
  }

  /** `a` stands above `b`: later, or at one instant with the smaller reference. */
  predicate Above(a: Activity, b: Activity) {
    IsIso(a.occurredAt) && IsIso(b.occurredAt) && Earlier(PlaceOf(a), PlaceOf(b))
  }

  function ActivityId(a: Activity): string {
    a.activityId
  }

  ghost predicate AllFit(page: seq<Activity>, w: Window) {
    forall i :: 0 <= i < |page| ==> ActivityFits(page[i], w)
  }

  ghost predicate PageStands(page: seq<Activity>, w: Window) {
    AllFit(page, w) && DistinctBy(ActivityId, page) && OrderedBy(Above, page)
  }

  ghost function AcceptedPage(items: seq<Raw>, read: Raw -> Option<Activity>, w: Window): Option<seq<Activity>> {
    Accepted(items, read, page => PageStands(page, w))
  }

  // ---------------------------------------------------------------------------
  // The loop
  // ---------------------------------------------------------------------------

  predicate Admits(page: seq<Activity>, a: Activity, w: Window) {
    ActivityFits(a, w) && a.activityId !in IdsOf(ActivityId, page) && (page == [] || Above(page[|page| - 1], a))
  }

  /** `admits` is the loop's test; named, so that the loop is followed without looking into it. */
  ghost predicate Decides(admits: (seq<Activity>, Activity) -> bool, w: Window) {
    forall page, a {:trigger Admits(page, a, w)} :: admits(page, a) <==> Admits(page, a, w)
  }

  lemma AboveIsTransitive()
    ensures Transitive(Above)
  {
    forall a, b, c | Above(a, b) && Above(b, c)
      ensures Above(a, c)
    {
      EarlierIsTransitive(PlaceOf(a), PlaceOf(b), PlaceOf(c));
    }
  }

  lemma FitExtends(page: seq<Activity>, a: Activity, w: Window)
    requires AllFit(page, w)
    ensures AllFit(page + [a], w) <==> ActivityFits(a, w)
  {
    assert (page + [a])[|page|] == a;
  }

  lemma Extend(page: seq<Activity>, a: Activity, w: Window)
    requires PageStands(page, w)
    ensures PageStands(page + [a], w) <==> Admits(page, a, w)
  {
    FitExtends(page, a, w);
    IdsStayDistinct(ActivityId, page, a);
    AboveIsTransitive();
    OrderExtends(Above, page, a);
  }

  lemma PrefixStands(page: seq<Activity>, more: seq<Activity>, w: Window)
    requires PageStands(page + more, w)
    ensures PageStands(page, w)
  {
    PrefixKeeps(Above, ActivityId, page, more);
    forall i | 0 <= i < |page|
      ensures ActivityFits(page[i], w)
    {
      assert (page + more)[i] == page[i];
    }
  }

  /** The loop accepts exactly the pages that stand, and returns them. */
  lemma ScanAcceptsStandingPages(
      items: seq<Raw>, read: Raw -> Option<Activity>, w: Window, admits: (seq<Activity>, Activity) -> bool)
    requires Decides(admits, w)
    ensures Scan(items, read, admits, []) == AcceptedPage(items, read, w)
  {
    var stands := (page: seq<Activity>) => PageStands(page, w);
    forall page, next | stands(page)
      ensures stands(page + [next]) <==> admits(page, next)
    {
      Extend(page, next, w);
    }
    forall page, more | stands(page + more)
      ensures stands(page)
    {
      PrefixStands(page, more, w);
    }
    ScanAcceptsStandingLists(items, read, admits, stands);
  }

  // ---------------------------------------------------------------------------
  // The parsers
  // ---------------------------------------------------------------------------

  /** The tests of one round. `previous` is the row above, as the loop carries it. */
  method CheckActivity(a: Activity, w: Window, seen: set<string>, previous: Option<Place>,
                       ghost page: seq<Activity>, ghost admits: (seq<Activity>, Activity) -> bool)
    returns (ok: bool)
    requires Decides(admits, w) && seen == IdsOf(ActivityId, page)
    requires (page != [] ==> IsIso(page[|page| - 1].occurredAt)) && previous == Last(page)
    ensures ok == admits(page, a) && (ok ==> IsIso(a.occurredAt))
  {
    assert admits(page, a) <==> Admits(page, a, w);
    if !ActivityStands(a) || a.activityId in seen {
      return false;
    }
    var occurredMs := Instant(a.occurredAt);
    if occurredMs < w.registered || (w.snapshot.Some? && w.snapshot.value < occurredMs) {
      return false;
    }
    if !OperatorSide(a) && w.lastActive < occurredMs {
      return false;
    }
    if previous.Some? {
      var last := previous.value;
      if -last.at < occurredMs || (occurredMs == -last.at && !Less(last.id, a.activityId)) {
        return false;
      }
    }
    return true;
  }

  /** What the loop carries from one row to the next: nothing before the first. */
  function Last(page: seq<Activity>): Option<Place>
    requires page != [] ==> IsIso(page[|page| - 1].occurredAt)
  {
    if page == [] then None else Some(PlaceOf(page[|page| - 1]))
  }

  /** The loop of both ends, over the items as each end reads them. */
  method ParseActivities(items: seq<Raw>, read: Raw -> Option<Activity>, w: Window,
                         ghost admits: (seq<Activity>, Activity) -> bool)
    returns (page: Option<seq<Activity>>)
    requires Decides(admits, w)
    ensures page == Scan(items, read, admits, [])
  {
    var seen: set<string> := {};
    var collected: seq<Activity> := [];
    var previous: Option<Place> := None;
    var index := 0;
    while index < |items|
      invariant 0 <= index <= |items| && seen == IdsOf(ActivityId, collected)
      invariant (collected != [] ==> IsIso(collected[|collected| - 1].occurredAt)) && previous == Last(collected)
      invariant Scan(items[index..], read, admits, collected) == Scan(items, read, admits, [])
    {
      Round(items, index, read, admits, collected);
      var raw := read(items[index]);
      if raw.None? {
        return None;
      }
      var ok := CheckActivity(raw.value, w, seen, previous, collected, admits);
      if !ok {
        return None;
      }
      OneMoreId(ActivityId, collected, raw.value);
      seen := seen + {raw.value.activityId};
      previous := Some(PlaceOf(raw.value));
      collected := collected + [raw.value];
      index := index + 1;
    }
    return Some(collected);
  }

  /** The page length is tested before the loop. */
  ghost function ServerPage(v: Raw, w: Window): Option<seq<Activity>> {
    if v.Arr? && 1 <= |v.items| <= MAX_ACTIVITIES then AcceptedPage(v.items, ReadSnakeActivity, w) else None
  }

  ghost function BrowserPage(v: Raw, w: Window): Option<seq<Activity>> {
    if v.Arr? && 1 <= |v.items| <= MAX_ACTIVITIES then AcceptedPage(v.items, ReadCamelActivity, w) else None
  }

  method ServerParsePage(v: Raw, w: Window) returns (page: Option<seq<Activity>>)
    ensures page == ServerPage(v, w)
  {
    if !v.Arr? || |v.items| < 1 || MAX_ACTIVITIES < |v.items| {
      return None;
    }
    ghost var admits := (page, a) => Admits(page, a, w);
    page := ParseActivities(v.items, ReadSnakeActivity, w, admits);
    ScanAcceptsStandingPages(v.items, ReadSnakeActivity, w, admits);
  }

  method BrowserParsePage(v: Raw, w: Window) returns (page: Option<seq<Activity>>)
    ensures page == BrowserPage(v, w)
  {
    if !v.Arr? || |v.items| < 1 || MAX_ACTIVITIES < |v.items| {
      return None;
    }
    ghost var admits := (page, a) => Admits(page, a, w);
    page := ParseActivities(v.items, ReadCamelActivity, w, admits);
    ScanAcceptsStandingPages(v.items, ReadCamelActivity, w, admits);
  }

  ghost predicate Stands(page: seq<Activity>, w: Window) {
    1 <= |page| <= MAX_ACTIVITIES && PageStands(page, w)
  }

  /** Both parsers read exactly the wire form of the pages that stand. */
  lemma AcceptedPagesAreExact(v: Raw, page: seq<Activity>, w: Window)
    ensures ServerPage(v, w) == Some(page) <==> v == Arr(WriteAll(page, SnakeActivity)) && Stands(page, w)
    ensures BrowserPage(v, w) == Some(page) <==> v == Arr(WriteAll(page, CamelActivity)) && Stands(page, w)
  {
    SnakeActivitiesRoundTrip();
    CamelActivitiesRoundTrip();
    ListExact(v, page, ReadSnakeActivity, SnakeActivity);
    ListExact(v, page, ReadCamelActivity, CamelActivity);
  }

  /** A page that stands under the server's window stands under the browser's, which knows no snapshot. */
  lemma WithoutSnapshot(page: seq<Activity>, w: Window)
    requires Stands(page, w)
    ensures Stands(page, w.(snapshot := None))
  {
    forall i | 0 <= i < |page|
      ensures ActivityFits(page[i], w.(snapshot := None))
    {
      assert ActivityFits(page[i], w);
    }
  }

  /** Of the pages that stand without a snapshot, those stand under one in which nothing lies past it. */
  lemma UnderTheSnapshot(page: seq<Activity>, w: Window, snapshot: int)
    requires w.snapshot.None? && Stands(page, w)
    ensures Stands(page, w.(snapshot := Some(snapshot)))
      <==> forall i :: 0 <= i < |page| ==> IsIso(page[i].occurredAt) && Instant(page[i].occurredAt) <= snapshot
  {
    forall i | 0 <= i < |page|
      ensures ActivityFits(page[i], w.(snapshot := Some(snapshot)))
        <==> IsIso(page[i].occurredAt) && Instant(page[i].occurredAt) <= snapshot
    {
      assert ActivityFits(page[i], w);
    }
  }
}
