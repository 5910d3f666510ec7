/**
 * What the accepted views of one subject say, field by field: the activity, the list and its balances, the
 * dossier, the detail that joins them, and one queue item in detail
 * (backoffice/src/server/customer-api-client.ts, backoffice/src/data/operator.ts).
 */
module SubjectFields {
  import opened Wrappers
  import opened ContractJson
  import opened ContractPages
  import opened ContractFields
  import opened Texts
  import opened Timestamps
  import Decimals = ReportDecimals
  import A = SubjectActivity
  import R = SubjectRows
  import D = Dossier
  import S = SubjectDetail
  import Q = QueueItemDetail
  import I = QueueItems

  // ---------------------------------------------------------------------------
  // Amounts
  // ---------------------------------------------------------------------------

  predicate AllDigits(s: string) {
    forall i :: 0 <= i < |s| ==> '0' <= s[i] <= '9'
  }

  /** A whole part with no leading zero, a point, and as many digits as the scale says. */
  predicate Parts(s: string, whole: string, fraction: string, scale: nat) {
    && s == whole + "." + fraction && whole != "" && |fraction| == scale && AllDigits(whole) && AllDigits(fraction)
    && (whole == "0" || whole[0] != '0')
  }

  ghost predicate Amount(s: string, scale: nat) {
    exists whole, fraction :: Parts(s, whole, fraction, scale)
  }

  lemma PartsSplit(s: string, whole: string, fraction: string, scale: nat)
    requires 0 < scale && Parts(s, whole, fraction, scale)
    ensures Decimals.Split(s) == Some(Decimals.Amount(whole, fraction)) && A.ScaledAmount(s, scale)
  {
    Decimals.SplitsAt(whole, fraction);
  }

  lemma ScaledParts(s: string, scale: nat)
    requires A.ScaledAmount(s, scale)
    ensures var a := Decimals.Split(s).value; Parts(s, a.whole, a.fraction, scale)
  {
    var p := Decimals.PointAt(s);
    Decimals.SplitParts(s);
    assert s == s[..p] + "." + s[p + 1..];
  }

  lemma AmountsAre(s: string, scale: nat)
    requires 0 < scale
    ensures A.ScaledAmount(s, scale) <==> Amount(s, scale)
  {
    if A.ScaledAmount(s, scale) {
      ScaledParts(s, scale);
    }
    if Amount(s, scale) {
      var whole, fraction :| Parts(s, whole, fraction, scale);
      PartsSplit(s, whole, fraction, scale);
    }
  }

  /** Some digit is not a zero. */
  predicate NotZero(s: string) {
    exists i :: 0 <= i < |s| && '1' <= s[i] <= '9'
  }

  lemma {:induction false} PositiveNumbers(s: string)
    requires Decimals.AllDigits(s)
    ensures 0 <= Decimals.NatOf(s) && (0 < Decimals.NatOf(s) <==> NotZero(s))
  {
    if s != "" {
      var front := s[..|s| - 1];
      PositiveNumbers(front);
      if NotZero(front) {
        var i :| 0 <= i < |front| && '1' <= front[i] <= '9';
        assert s[i] == front[i];
      }
      if NotZero(s) {
        var i :| 0 <= i < |s| && '1' <= s[i] <= '9';
        assert i < |front| ==> front[i] == s[i];
      }
    }
  }

  /** The units of an amount are none exactly when all its digits are zeros. */
  lemma UnitsAre(s: string, scale: nat)
    requires A.ScaledAmount(s, scale)
    ensures 0 <= A.UnitsOf(s) && (0 < A.UnitsOf(s) <==> NotZero(s))
  {
    ScaledParts(s, scale);
    var a := Decimals.Split(s).value;
    Decimals.SplitParts(s);
    Decimals.DigitsJoin(a.whole, a.fraction);
    PositiveNumbers(a.whole + a.fraction);
    PointIsNoDigit(s, a.whole, a.fraction);
  }

  lemma PointIsNoDigit(s: string, whole: string, fraction: string)
    requires s == whole + "." + fraction
    ensures NotZero(s) <==> NotZero(whole + fraction)
  {
    if NotZero(s) {
      var i :| 0 <= i < |s| && '1' <= s[i] <= '9';
      var j := if i < |whole| then i else i - 1;
      assert (whole + fraction)[j] == s[i];
    }
    if NotZero(whole + fraction) {
      var j :| 0 <= j < |whole + fraction| && '1' <= (whole + fraction)[j] <= '9';
      assert s[if j < |whole| then j else j + 1] == (whole + fraction)[j];
    }
  }

  /** The assets, in the order of the balances, and the number of decimals of each. */
  const SCALES := [("RUB", 2), ("TON", 9), ("USDT", 6)]

  lemma ScalesAre(asset: string, scale: nat)
    ensures Decimals.ScaleOf(asset) == Some(scale) <==> (asset, scale) in SCALES
  {
    var s := SCALES;
    assert s[0] == ("RUB", 2) && s[1] == ("TON", 9) && s[2] == ("USDT", 6);
  }

  // ---------------------------------------------------------------------------
  // Activity
  // ---------------------------------------------------------------------------

  /** What each kind of event may be summed up as. */
  const SUMMARIES: map<string, set<string>> := map[
      "deposit" := {"awaiting_payment", "payment_received", "partial_payment", "duplicate_payment",
                    "payment_reversed", "expired_no_payment"},
      "withdrawal" := {"draft", "screened", "pending_maker_approval", "pending_checker_approval",
                       "unsigned_intent_ready", "broadcast", "confirmed", "rejected", "cancelled", "expired"},
      "quote" := {"indicative"},
      "order" := {"open", "cancelled", "expired", "rejected"},
      "payment" := {"created", "processing", "completed", "failed", "reversed", "cancelled", "expired"},
      "card" := {"pending_activation", "active", "frozen", "blocked", "expired", "terminated"},
      "check" := {"awaiting_confirmation", "created", "awaiting_recipient_kyc", "claimed", "cancelled", "expired"},
      "kyc" := {"submitted", "in_review", "approved", "rejected", "needs_more_data", "timed_out", "unavailable"},
      "security" := {"login", "revoked"},
      "kyc_transition" := {"submitted", "approved"},
      "flag_added" := {"structuring", "velocity", "geo_mismatch"}]

  lemma SummariesAre(kind: string, summary: string)
    ensures summary in A.SummariesOf(kind) <==> kind in SUMMARIES && summary in SUMMARIES[kind]
  {
  }

  /** Money in one of the assets, at its scale, and not nothing. */
  ghost predicate Money(m: A.Money) {
    exists scale :: (m.asset, scale) in SCALES && Amount(m.amount, scale) && NotZero(m.amount)
  }

  lemma MoneyIs(m: A.Money)
    ensures A.MoneyStands(m) <==> Money(m)
  {
    var scale := Decimals.ScaleOf(m.asset);
    if scale.Some? {
      ScalesAre(m.asset, scale.value);
      AmountsAre(m.amount, scale.value);
      if A.ScaledAmount(m.amount, scale.value) {
        UnitsAre(m.amount, scale.value);
      }
    }
    if Money(m) {
      var n :| (m.asset, n) in SCALES && Amount(m.amount, n) && NotZero(m.amount);
      ScalesAre(m.asset, n);
    }
  }

  /** An event by itself: an operator's under an operator's reference, money exactly where it belongs. */
  ghost predicate Event(a: A.Activity) {
    && (if a.kind in {"kyc_transition", "flag_added"} then Ref(a.activityId, "opact_", 24)
        else Ref(a.activityId, "act_", 24))
    && a.kind in SUMMARIES && a.summary in SUMMARIES[a.kind] && IsIso(a.occurredAt)
    && (a.money.Some? <==> a.kind in {"deposit", "withdrawal", "quote", "order", "payment", "card", "check"})
    && (a.money.Some? ==> Money(a.money.value))
  }

  /** Inside the account: from its registration on, and, a submission or a customer's event, to its last activity. */
  predicate During(a: A.Activity, registered: int, lastActive: int) {
    && IsIso(a.occurredAt) && registered <= Instant(a.occurredAt)
    && (a.kind == "flag_added" || (a.kind == "kyc_transition" && a.summary == "approved")
        || Instant(a.occurredAt) <= lastActive)
  }

  lemma PrefixesDiffer(s: string)
    ensures HexRef(s, "opact_", 24) ==> A.IsOperatorRef(s)
    ensures HexRef(s, "act_", 24) ==> !A.IsOperatorRef(s)
  {
    assert "act_"[0] == 'a' && "opact_"[0] == 'o';
  }

  lemma EventsAre(a: A.Activity, registered: int, lastActive: int)
    ensures A.ActivityFits(a, A.Window(registered, lastActive, None)) <==> Event(a) && During(a, registered, lastActive)
  {
    EventIs(a);
    PrefixesDiffer(a.activityId);
    ActivityRefs(a.activityId, a.kind);
    if A.ActivityStands(a) {
      SideIs(a);
    }
  }

  lemma SideIs(a: A.Activity)
    requires a.kind in A.OPERATOR_KINDS <==> A.IsOperatorRef(a.activityId)
    requires a.kind == "kyc_transition" ==> a.summary in {"submitted", "approved"}
    ensures A.OperatorSide(a) <==> a.kind == "flag_added" || (a.kind == "kyc_transition" && a.summary == "approved")
  {
  }

  lemma EventIs(a: A.Activity)
    ensures A.ActivityStands(a) <==> Event(a)
  {
    ActivityRefs(a.activityId, a.kind);
    SummariesAre(a.kind, a.summary);
    if a.money.Some? {
      MoneyIs(a.money.value);
    }
  }

  lemma ActivityRefs(id: string, kind: string)
    ensures (HexRef(id, "act_", 24) || HexRef(id, "opact_", 24)) && (kind in A.OPERATOR_KINDS <==> A.IsOperatorRef(id))
      <==> if kind in {"kyc_transition", "flag_added"} then Ref(id, "opact_", 24) else Ref(id, "act_", 24)
  {
    References(id, "act_", 24);
    References(id, "opact_", 24);
    PrefixesDiffer(id);
  }

  /** Newest first, the smaller reference first at one instant. */
  predicate Newer(a: A.Activity, b: A.Activity) {
    && IsIso(a.occurredAt) && IsIso(b.occurredAt)
    && (Instant(b.occurredAt) < Instant(a.occurredAt)
        || (Instant(a.occurredAt) == Instant(b.occurredAt) && Less(a.activityId, b.activityId)))
  }

  /** One to eight events, newest first, under distinct references. */
  ghost predicate Page(page: seq<A.Activity>, registered: int, lastActive: int) {
    && 1 <= |page| <= 8
    && (forall i :: 0 <= i < |page| ==> Event(page[i]) && During(page[i], registered, lastActive))
    && forall i, j :: 0 <= i < j < |page| ==> page[i].activityId != page[j].activityId && Newer(page[i], page[j])
  }

  lemma PagesAre(page: seq<A.Activity>, registered: int, lastActive: int)
    ensures A.Stands(page, A.Window(registered, lastActive, None)) <==> Page(page, registered, lastActive)
  {
    var w := A.Window(registered, lastActive, None);
    forall i | 0 <= i < |page|
      ensures A.ActivityFits(page[i], w) <==> Event(page[i]) && During(page[i], registered, lastActive)
    {
      EventsAre(page[i], registered, lastActive);
    }
    forall i, j | 0 <= i < j < |page|
      ensures A.ActivityId(page[i]) != A.ActivityId(page[j]) <==> page[i].activityId != page[j].activityId
      ensures A.Above(page[i], page[j]) <==> Newer(page[i], page[j])
    {
    }
  }

  /** Nothing after the snapshot. */
  ghost predicate PageWithin(page: seq<A.Activity>, snapshot: int) {
    forall i :: 0 <= i < |page| ==> IsIso(page[i].occurredAt) && Instant(page[i].occurredAt) <= snapshot
  }

  /**
   * The activity in fields: the browser takes the wire form of a page exactly when it is one, the server
   * when also nothing in it lies past the snapshot.
   */
  lemma ActivityInFields(page: seq<A.Activity>, registered: int, lastActive: int, snapshot: int)
    ensures A.BrowserPage(Arr(WriteAll(page, A.CamelActivity)), A.Window(registered, lastActive, None)) == Some(page)
      <==> Page(page, registered, lastActive)
    ensures A.ServerPage(Arr(WriteAll(page, A.SnakeActivity)), A.Window(registered, lastActive, Some(snapshot)))
        == Some(page)
      <==> Page(page, registered, lastActive) && PageWithin(page, snapshot)
  {
    var w := A.Window(registered, lastActive, Some(snapshot));
    A.AcceptedPagesAreExact(Arr(WriteAll(page, A.CamelActivity)), page, w.(snapshot := None));
    A.AcceptedPagesAreExact(Arr(WriteAll(page, A.SnakeActivity)), page, w);
    PagesAre(page, registered, lastActive);
    SnapshotIs(page, w, snapshot);
  }

  lemma SnapshotIs(page: seq<A.Activity>, w: A.Window, snapshot: int)
    requires w.snapshot == Some(snapshot)
    ensures A.Stands(page, w) <==> A.Stands(page, w.(snapshot := None)) && PageWithin(page, snapshot)
  {
    var free := w.(snapshot := None);
    assert free.(snapshot := Some(snapshot)) == w;
    if A.Stands(page, w) {
      A.WithoutSnapshot(page, w);
    }
    if A.Stands(page, free) {
      A.UnderTheSnapshot(page, free, snapshot);
    }
  }

  // ---------------------------------------------------------------------------
  // The list of subjects, and balances
  // ---------------------------------------------------------------------------

  ghost predicate Subject(r: R.Row) {
    && NamedRef(r.subjectId, "syn_cust_") && TwoNames(r.displayName)
    && r.kycStatus in {"unverified", "pending", "verified"} && 0 <= r.flags
    && IsIso(r.registeredAt) && IsIso(r.lastActiveAt) && Instant(r.registeredAt) <= Instant(r.lastActiveAt)
  }

  lemma SubjectsAre(r: R.Row)
    ensures R.RowStands(r) <==> Subject(r)
  {
    References(r.subjectId, "syn_cust_", 0);
    DisplayNames(r.displayName);
  }

  /** One to sixty-four subjects under distinct references. */
  ghost predicate Subjects(rows: seq<R.Row>) {
    && 1 <= |rows| <= 64 && (forall i :: 0 <= i < |rows| ==> Subject(rows[i]))
    && forall i, j :: 0 <= i < j < |rows| ==> rows[i].subjectId != rows[j].subjectId
  }

  lemma RowsAre(rows: seq<R.Row>)
    ensures R.RowsStand(rows)
      <==> && (forall i :: 0 <= i < |rows| ==> Subject(rows[i]))
           && forall i, j :: 0 <= i < j < |rows| ==> rows[i].subjectId != rows[j].subjectId
  {
    forall i | 0 <= i < |rows|
      ensures R.RowStands(rows[i]) <==> Subject(rows[i])
    {
      SubjectsAre(rows[i]);
    }
    forall i, j | 0 <= i < j < |rows|
      ensures R.SubjectId(rows[i]) != R.SubjectId(rows[j]) <==> rows[i].subjectId != rows[j].subjectId
    {
    }
  }

  /** The list in fields: both ends take exactly the wire forms of such lists. */
  lemma ListInFields(rows: seq<R.Row>)
    ensures R.ServerList(R.SnakeList(rows)) == Some(rows) <==> Subjects(rows)
    ensures R.BrowserList(R.CamelList(rows)) == Some(rows) <==> Subjects(rows)
  {
    RowsAre(rows);
    R.ServerListIsExact(R.SnakeList(rows), rows);
    R.BrowserListIsExact(R.CamelList(rows), rows);
  }

  /** One balance for each asset, in the order of the table, at its scale. */
  ghost predicate Balances(page: seq<R.Balance>) {
    && |page| == 3
    && forall i :: 0 <= i < 3 ==>
      && page[i].asset == SCALES[i].0 && page[i].scale == SCALES[i].1
      && Amount(page[i].available, SCALES[i].1) && Amount(page[i].hold, SCALES[i].1)
  }

  lemma BalanceIs(b: R.Balance, i: nat)
    requires i < 3
    ensures |R.ASSETS| == 3
    ensures R.BalanceStands(b, i)
      <==> && b.asset == SCALES[i].0 && b.scale == SCALES[i].1
           && Amount(b.available, SCALES[i].1) && Amount(b.hold, SCALES[i].1)
  {
    var s, a := SCALES, R.ASSETS;
    assert s[0] == ("RUB", 2) && s[1] == ("TON", 9) && s[2] == ("USDT", 6);
    assert a[0] == "RUB" && a[1] == "TON" && a[2] == "USDT";
    ScalesAre(s[i].0, s[i].1);
    AmountsAre(b.available, s[i].1);
    AmountsAre(b.hold, s[i].1);
  }

  lemma BalancesAre(page: seq<R.Balance>)
    ensures |page| == |R.ASSETS| && R.BalancesStand(page) <==> Balances(page)
  {
    assert |R.ASSETS| == 3;
    if |page| == 3 {
      forall i: nat | i < 3
        ensures R.BalanceStands(page[i], i)
          <==> && page[i].asset == SCALES[i].0 && page[i].scale == SCALES[i].1
               && Amount(page[i].available, SCALES[i].1) && Amount(page[i].hold, SCALES[i].1)
      {
        BalanceIs(page[i], i);
      }
    }
  }

  lemma BalancesInFields(page: seq<R.Balance>)
    ensures R.ServerBalances(Arr(WriteAll(page, R.SnakeBalance))) == Some(page) <==> Balances(page)
    ensures R.BrowserBalances(Arr(WriteAll(page, R.CamelBalance))) == Some(page) <==> Balances(page)
  {
    BalancesAre(page);
    R.ServerBalancesAreExact(Arr(WriteAll(page, R.SnakeBalance)), page);
    R.BrowserBalancesAreExact(Arr(WriteAll(page, R.CamelBalance)), page);
  }

  // ---------------------------------------------------------------------------
  // The dossier
  // ---------------------------------------------------------------------------

  /** One attempt: undecided while it is under review, decided no earlier than it was submitted afterwards. */
  predicate Attempt(a: D.Attempt) {
    && Ref(a.sessionId, "kys_", 24) && IsIso(a.submittedAt)
    && (if a.state in {"submitted", "in_review"} then a.decidedAt.None?
        else
          && a.state in {"approved", "rejected", "needs_more_data", "timed_out"} && a.decidedAt.Some?
          && IsIso(a.decidedAt.value) && Instant(a.submittedAt) <= Instant(a.decidedAt.value))
    && (a.rejectionReason.Some? ==>
        a.state == "rejected" && a.rejectionReason.value in {"SIM_DOCUMENT_UNREADABLE", "SIM_DATA_MISMATCH"})
  }

  lemma AttemptsAre(a: D.Attempt)
    ensures D.AttemptStands(a) <==> Attempt(a)
  {
    References(a.sessionId, "kys_", 24);
  }

  /** The older attempt ended without approval no later than the newer was submitted. */
  predicate EndedBefore(older: D.Attempt, newer: D.Attempt) {
    && older.state in {"rejected", "needs_more_data", "timed_out"} && older.decidedAt.Some?
    && IsIso(older.decidedAt.value) && IsIso(newer.submittedAt)
    && Instant(older.decidedAt.value) <= Instant(newer.submittedAt) && older.sessionId != newer.sessionId
  }

  /** One to four attempts, newest first, each over before the next began; the header is the newest one's. */
  ghost predicate Dossier(k: D.Kyc) {
    && k.level in {"basic", "enhanced"} && 1 <= |k.history| <= 4
    && k.sessionId == k.history[0].sessionId && k.status == k.history[0].state
    && (forall i :: 0 <= i < |k.history| ==> Attempt(k.history[i]))
    && forall i, j :: 0 <= i < j < |k.history| ==> EndedBefore(k.history[j], k.history[i])
  }

  lemma DossiersAre(k: D.Kyc)
    ensures D.Stands(k, None) <==> Dossier(k)
  {
    forall i | 0 <= i < |k.history|
      ensures D.AttemptStands(k.history[i]) <==> Attempt(k.history[i])
    {
      AttemptsAre(k.history[i]);
    }
    if D.AllStand(k.history) {
      HistoriesAre(k.history);
    }
  }

  lemma HistoriesAre(h: seq<D.Attempt>)
    requires D.AllStand(h)
    ensures D.HistoryStands(h) <==> forall i, j :: 0 <= i < j < |h| ==> EndedBefore(h[j], h[i])
  {
    forall i, j | 0 <= i < j < |h|
      ensures D.Supersedes(h[i], h[j]) && D.SessionId(h[i]) != D.SessionId(h[j]) <==> EndedBefore(h[j], h[i])
    {
    }
  }

  /** Nothing the dossier names lies past the snapshot. */
  predicate DossierWithin(k: D.Kyc, snapshot: int) {
    forall i :: 0 <= i < |k.history| ==>
      && IsIso(k.history[i].submittedAt) && Instant(k.history[i].submittedAt) <= snapshot
      && (k.history[i].decidedAt.Some? ==>
          IsIso(k.history[i].decidedAt.value) && Instant(k.history[i].decidedAt.value) <= snapshot)
  }

  /** The roster's status settles which dossiers may stand beside it. */
  predicate Beside(status: string, roster: string) {
    match roster
    case "verified" => status == "approved"
    case "pending" => status in {"submitted", "in_review"}
    case "unverified" => status !in {"approved", "submitted", "in_review"}
    case _ => true
  }

  /**
   * The dossier in fields: the browser takes the wire form of a dossier exactly when it is one and fits the
   * roster, the server when nothing in it lies past the snapshot.
   */
  lemma DossierInFields(k: D.Kyc, roster: Option<string>, snapshot: int)
    ensures D.BrowserDossier(D.CamelKyc(k), roster) == Some(k)
      <==> Dossier(k) && (roster.Some? ==> Beside(k.status, roster.value))
    ensures D.ServerDossier(D.SnakeKyc(k), snapshot) == Some(k) <==> Dossier(k) && DossierWithin(k, snapshot)
  {
    D.AcceptedDossiersAreExact(D.CamelKyc(k), k, snapshot, roster);
    D.AcceptedDossiersAreExact(D.SnakeKyc(k), k, snapshot, roster);
    DossiersAre(k);
    RosterIs(k.status, roster);
    DossierSnapshotIs(k, snapshot);
  }

  lemma RosterIs(status: string, roster: Option<string>)
    ensures D.FitsRoster(status, roster) <==> (roster.Some? ==> Beside(status, roster.value))
  {
  }

  lemma DossierSnapshotIs(k: D.Kyc, snapshot: int)
    ensures D.Stands(k, Some(snapshot)) <==> D.Stands(k, None) && DossierWithin(k, snapshot)
  {
    forall i | 0 <= i < |k.history|
      ensures D.AttemptWithin(k.history[i], Some(snapshot))
        <==> && IsIso(k.history[i].submittedAt) && Instant(k.history[i].submittedAt) <= snapshot
             && (k.history[i].decidedAt.Some? ==>
                 IsIso(k.history[i].decidedAt.value) && Instant(k.history[i].decidedAt.value) <= snapshot)
    {
    }
  }

  // ---------------------------------------------------------------------------
  // The detail
  // ---------------------------------------------------------------------------

  /** The positions of the events of one kind. */
  function OfKind(page: seq<A.Activity>, kind: string): set<nat> {
    set i | 0 <= i < |page| && page[i].kind == kind
  }

  /** The events of one kind, picked out in order, are as many as there are, and each is one of them. */
  lemma {:induction false} PickedAre(page: seq<A.Activity>, kind: string)
    ensures |S.OfKind(page, kind)| == |OfKind(page, kind)|
    ensures forall a :: a in S.OfKind(page, kind) <==> a in page && a.kind == kind
  {
    if page == [] {
      assert OfKind(page, kind) == {};
    } else {
      var rest := page[1..];
      PickedAre(rest, kind);
      Shifted(page, kind);
      assert page == [page[0]] + rest;
    }
  }

  function Up(a: set<nat>): set<nat> {
    set i | i in a :: i + 1
  }

  lemma Shifted(page: seq<A.Activity>, kind: string)
    requires page != []
    ensures |OfKind(page, kind)| == |OfKind(page[1..], kind)| + if page[0].kind == kind then 1 else 0
  {
    var rest := OfKind(page[1..], kind);
    UpCounts(rest);
    forall i | i in OfKind(page, kind) && 0 < i
      ensures i in Up(rest)
    {
      assert i - 1 in rest;
    }
    assert OfKind(page, kind) == Up(rest) + if page[0].kind == kind then {0} else {};
  }

  lemma {:induction false} UpCounts(a: set<nat>)
    ensures |Up(a)| == |a|
  {
    if a != {} {
      var i :| i in a;
      UpCounts(a - {i});
      forall j | j in Up(a) && j != i + 1
        ensures j in Up(a - {i})
      {
        assert j - 1 in a - {i};
      }
      assert Up(a) == Up(a - {i}) + {i + 1};
    }
  }

  /** No two events of the kind say the same. */
  ghost predicate SaidOnce(page: seq<A.Activity>, kind: string) {
    forall i, j :: 0 <= i < j < |page| && page[i].kind == kind && page[j].kind == kind ==>
      page[i].summary != page[j].summary
  }

  predicate AllDiffer(picked: seq<A.Activity>) {
    forall i, j :: 0 <= i < j < |picked| ==> picked[i].summary != picked[j].summary
  }

  lemma {:induction false} OnceIs(page: seq<A.Activity>, kind: string)
    ensures AllDiffer(S.OfKind(page, kind)) <==> SaidOnce(page, kind)
  {
    if page != [] {
      var first, rest := page[0], page[1..];
      OnceIs(rest, kind);
      PickedAre(rest, kind);
      var picked := S.OfKind(rest, kind);
      assert SaidOnce(page, kind)
        <==> SaidOnce(rest, kind)
             && (first.kind == kind ==> forall a :: a in rest && a.kind == kind ==> a.summary != first.summary) by {
        OnceCons(page, kind);
      }
      if first.kind == kind {
        DifferCons(first, picked);
      } else {
        assert S.OfKind(page, kind) == picked;
      }
    }
  }

  lemma OnceCons(page: seq<A.Activity>, kind: string)
    requires page != []
    ensures SaidOnce(page, kind)
      <==> SaidOnce(page[1..], kind)
           && (page[0].kind == kind ==>
               forall a :: a in page[1..] && a.kind == kind ==> a.summary != page[0].summary)
  {
    var rest := page[1..];
    assert forall i :: 0 < i < |page| ==> page[i] == rest[i - 1];
    if SaidOnce(page, kind) {
      forall i, j | 0 <= i < j < |rest| && rest[i].kind == kind && rest[j].kind == kind
        ensures rest[i].summary != rest[j].summary
      {
        assert page[i + 1] == rest[i] && page[j + 1] == rest[j];
      }
      forall a | a in rest && a.kind == kind && page[0].kind == kind
        ensures a.summary != page[0].summary
      {
        var j :| 0 <= j < |rest| && rest[j] == a;
        assert page[j + 1] == a;
      }
    }
  }

  lemma DifferCons(first: A.Activity, picked: seq<A.Activity>)
    ensures AllDiffer([first] + picked)
      <==> AllDiffer(picked) && forall a :: a in picked ==> a.summary != first.summary
  {
    var all := [first] + picked;
    assert forall i :: 0 < i < |all| ==> all[i] == picked[i - 1];
    if AllDiffer(all) {
      forall i, j | 0 <= i < j < |picked|
        ensures picked[i].summary != picked[j].summary
      {
        assert all[i + 1] == picked[i] && all[j + 1] == picked[j];
      }
      forall a | a in picked
        ensures a.summary != first.summary
      {
        var j :| 0 <= j < |picked| && picked[j] == a;
        assert all[j + 1] == a && all[0] == first;
      }
    }
  }

  /**
   * The operator's events against the roster: no transition for an unverified subject, nothing but the
   * submission for a pending one, no transition twice, and no more flags raised than are open.
   */
  ghost predicate EventsBeside(page: seq<A.Activity>, status: string, flags: int) {
    && (forall a :: a in page && a.kind == "kyc_transition" ==>
        status != "unverified" && (status == "pending" ==> a.summary == "submitted"))
    && SaidOnce(page, "kyc_transition") && |OfKind(page, "flag_added")| <= flags
  }

  lemma EventsBesideIs(page: seq<A.Activity>, status: string, flags: int)
    ensures S.EventsFit(page, status, flags) <==> EventsBeside(page, status, flags)
  {
    var picked := S.OfKind(page, "kyc_transition");
    PickedAre(page, "kyc_transition");
    PickedAre(page, "flag_added");
    OnceIs(page, "kyc_transition");
    TransitionsAre(picked, page, status);
    assert S.EventsFit(page, status, flags)
      <==> S.TransitionsFit(picked, status) && AllDiffer(picked) && |S.OfKind(page, "flag_added")| <= flags;
  }

  lemma TransitionsAre(picked: seq<A.Activity>, page: seq<A.Activity>, status: string)
    requires forall a :: a in picked <==> a in page && a.kind == "kyc_transition"
    ensures S.TransitionsFit(picked, status)
      <==> forall a :: a in page && a.kind == "kyc_transition" ==>
             status != "unverified" && (status == "pending" ==> a.summary == "submitted")
  {
    if picked != [] {
      assert picked[0] in picked;
    }
    assert forall i :: 0 <= i < |picked| ==> picked[i] in page && picked[i].kind == "kyc_transition";
  }

  /** The dossier's attempts inside the account, the newest submitted and approved when the events say so. */
  ghost predicate DossierBeside(k: D.Kyc, page: seq<A.Activity>, registered: int, lastActive: int) {
    && k.history != []
    && (forall i :: 0 <= i < |k.history| ==>
        IsIso(k.history[i].submittedAt) && registered <= Instant(k.history[i].submittedAt) <= lastActive)
    && forall a :: a in page && a.kind == "kyc_transition" ==>
      && (a.summary == "submitted" ==> a.occurredAt == k.history[0].submittedAt)
      && (a.summary == "approved" ==> k.history[0].decidedAt == Some(a.occurredAt))
  }

  lemma {:induction false} FoundIs(picked: seq<A.Activity>, summary: string, a: A.Activity)
    requires AllDiffer(picked) && a in picked && a.summary == summary
    ensures S.Find(picked, summary) == Some(a)
  {
    var first, rest := picked[0], picked[1..];
    assert picked == [first] + rest;
    if first.summary == summary {
      var j :| 0 <= j < |picked| && picked[j] == a;
      assert j == 0;
    } else {
      DifferCons(first, rest);
      FoundIs(rest, summary, a);
    }
  }

  lemma DossierBesideIs(k: D.Kyc, page: seq<A.Activity>, w: A.Window)
    requires SaidOnce(page, "kyc_transition")
    ensures S.DossierFits(k, page, w) <==> DossierBeside(k, page, w.registered, w.lastActive)
  {
    var picked := S.OfKind(page, "kyc_transition");
    PickedAre(page, "kyc_transition");
    OnceIs(page, "kyc_transition");
    forall a | a in picked
      ensures S.Find(picked, a.summary) == Some(a)
    {
      FoundIs(picked, a.summary, a);
    }
    FoundInPicked(picked, "submitted");
    FoundInPicked(picked, "approved");
    forall i | 0 <= i < |k.history|
      ensures S.SubmittedWithin(k.history[i], w)
        <==> IsIso(k.history[i].submittedAt) && w.registered <= Instant(k.history[i].submittedAt) <= w.lastActive
    {
    }
  }

  lemma FoundInPicked(picked: seq<A.Activity>, summary: string)
    ensures S.Find(picked, summary).Some? ==>
      S.Find(picked, summary).value in picked && S.Find(picked, summary).value.summary == summary
  {
    if S.Find(picked, summary).Some? {
      var i := S.FindIsMember(picked, summary);
    }
  }

  /** The head: the subject asked for, its account, its devices and sessions within their limits. */
  ghost predicate Head(h: S.Head, expected: string) {
    && Subject(h.row) && h.row.subjectId == expected
    && h.accountStatus in {"active", "closed", "dormant", "restricted"} && Ref(h.contactHash, "cth_", 32)
    && 1 <= h.maxSessions <= 16 && 1 <= h.maxDevices <= 8
    && 0 <= h.sessions <= h.maxSessions && |h.devices| <= h.maxDevices
    && (forall i :: 0 <= i < |h.devices| ==> Ref(h.devices[i], "dev_", 16))
    && (forall i, j :: 0 <= i < j < |h.devices| ==> h.devices[i] != h.devices[j])
    && (0 < h.sessions ==> h.devices != [] && h.accountStatus != "closed")
  }

  lemma HeadsAre(h: S.Head, expected: string)
    ensures S.HeadStands(h, expected) <==> Head(h, expected)
  {
    SubjectsAre(h.row);
    References(h.contactHash, "cth_", 32);
    forall i | 0 <= i < |h.devices|
      ensures HexRef(h.devices[i], "dev_", 16) <==> Ref(h.devices[i], "dev_", 16)
    {
      References(h.devices[i], "dev_", 16);
    }
  }

  ghost predicate HoldsNothing(page: seq<R.Balance>) {
    forall i :: 0 <= i < |page| ==> !NotZero(page[i].available) && !NotZero(page[i].hold)
  }

  lemma HoldingsAre(page: seq<R.Balance>)
    requires Balances(page)
    ensures S.HoldsNothing(page) <==> HoldsNothing(page)
  {
    var s := SCALES;
    assert s[0] == ("RUB", 2) && s[1] == ("TON", 9) && s[2] == ("USDT", 6);
    forall i | 0 <= i < |page|
      ensures A.UnitsOf(page[i].available) == 0 && A.UnitsOf(page[i].hold) == 0
        <==> !NotZero(page[i].available) && !NotZero(page[i].hold)
    {
      AmountsAre(page[i].available, s[i].1);
      AmountsAre(page[i].hold, s[i].1);
      UnitsAre(page[i].available, s[i].1);
      UnitsAre(page[i].hold, s[i].1);
    }
  }

  /** The detail of a subject: its blocks, and what they say of each other. */
  ghost predicate Detail(d: S.Detail, expected: string) {
    && Head(d.head, expected)
    && var row := d.head.row;
       var registered, lastActive := Instant(row.registeredAt), Instant(row.lastActiveAt);
       && Page(d.activity, registered, lastActive) && EventsBeside(d.activity, row.kycStatus, row.flags)
       && Balances(d.balances) && (d.head.accountStatus == "closed" ==> HoldsNothing(d.balances))
       && (d.kyc.Some? ==>
           && Dossier(d.kyc.value) && Beside(d.kyc.value.status, row.kycStatus)
           && DossierBeside(d.kyc.value, d.activity, registered, lastActive))
  }

  /** What a dossier must be to stand in a detail. */
  ghost predicate KycIn(d: S.Detail)
    requires R.RowStands(d.head.row)
  {
    S.KycStands(d.kyc, d.head, d.activity, None)
  }

  lemma KycInIs(d: S.Detail)
    requires R.RowStands(d.head.row) && SaidOnce(d.activity, "kyc_transition")
    ensures KycIn(d)
      <==> (d.kyc.Some? ==>
            && Dossier(d.kyc.value) && Beside(d.kyc.value.status, d.head.row.kycStatus)
            && DossierBeside(d.kyc.value, d.activity, Instant(d.head.row.registeredAt),
                             Instant(d.head.row.lastActiveAt)))
  {
    if d.kyc.Some? {
      DossiersAre(d.kyc.value);
      RosterIs(d.kyc.value.status, Some(d.head.row.kycStatus));
      DossierBesideIs(d.kyc.value, d.activity, S.WindowOf(d.head, None));
    }
  }

  lemma DetailsAre(d: S.Detail, expected: string)
    ensures S.Checked(Some(d), expected, None).Some? <==> Detail(d, expected)
  {
    HeadsAre(d.head, expected);
    if Head(d.head, expected) {
      SubjectsAre(d.head.row);
      PagesAre(d.activity, Instant(d.head.row.registeredAt), Instant(d.head.row.lastActiveAt));
      EventsBesideIs(d.activity, d.head.row.kycStatus, d.head.row.flags);
      BalancesAre(d.balances);
      if Balances(d.balances) {
        HoldingsAre(d.balances);
      }
      if EventsBeside(d.activity, d.head.row.kycStatus, d.head.row.flags) {
        KycInIs(d);
      }
    }
  }

  /**
   * The detail in fields: the browser takes the wire form of a detail exactly when it is one, the server
   * exactly when moreover neither its events nor its dossier lie past the snapshot.
   */
  lemma DetailInFields(d: S.Detail, expected: string, snapshot: int)
    ensures S.BrowserDetail(S.CamelView(d), expected) == Some(d) <==> Detail(d, expected)
    ensures S.ServerDetail(S.SnakeView(d), expected, snapshot) == Some(d)
      <==> && Detail(d, expected) && PageWithin(d.activity, snapshot)
           && (d.kyc.Some? ==> DossierWithin(d.kyc.value, snapshot))
  {
    S.CamelViewReadsBack(d);
    DetailsAre(d, expected);
    if S.ServerDetail(S.SnakeView(d), expected, snapshot) == Some(d) {
      S.BrowserAcceptsWhatServerRelays(S.SnakeView(d), expected, snapshot);
    }
    if Detail(d, expected) {
      S.ServerAcceptsWhatBrowserDoes(d, expected, snapshot);
      WithinIs(d, snapshot);
    }
  }

  lemma WithinIs(d: S.Detail, snapshot: int)
    ensures S.DetailWithin(d, snapshot)
      <==> PageWithin(d.activity, snapshot) && (d.kyc.Some? ==> DossierWithin(d.kyc.value, snapshot))
  {
    forall i | 0 <= i < |d.activity|
      ensures D.Within(Some(d.activity[i].occurredAt), snapshot)
        <==> IsIso(d.activity[i].occurredAt) && Instant(d.activity[i].occurredAt) <= snapshot
    {
    }
    if d.kyc.Some? {
      KycWithinIs(d.kyc.value, snapshot);
    }
  }

  lemma KycWithinIs(k: D.Kyc, snapshot: int)
    ensures (forall i :: 0 <= i < |k.history| ==> D.AttemptWithin(k.history[i], Some(snapshot)))
      <==> DossierWithin(k, snapshot)
  {
  }

  // ---------------------------------------------------------------------------
  // One queue item in detail
  // ---------------------------------------------------------------------------

  predicate Flag(f: Q.Flag) {
    && Ref(f.flagId, "flg_", 24) && f.alertType in {"structuring", "velocity", "geo_mismatch"} && IsIso(f.raisedAt)
  }

  ghost predicate FlagsApart(flags: seq<Q.Flag>) {
    forall i, j :: 0 <= i < j < |flags| ==> flags[i].flagId != flags[j].flagId
  }

  /** What each kind adds: a dossier or none, at most eight distinct flags, or a ticket's subject and counts. */
  ghost predicate Extra(e: Q.Extra) {
    match e
    case KycExtra(kyc) => kyc.Some? ==> Dossier(kyc.value)
    case AmlExtra(flags) =>
      |flags| <= 8 && (forall i :: 0 <= i < |flags| ==> Flag(flags[i])) && FlagsApart(flags)
    case TicketExtra(subject, lastMessageAt, otherOpenTickets) =>
      1 <= UnitLength(subject) <= 160 && IsIso(lastMessageAt) && 0 <= otherOpenTickets <= 64
  }

  lemma {:induction false} FlagIdsAre(flags: seq<Q.Flag>)
    ensures |Q.FlagIds(flags)| == |flags|
    ensures forall i :: 0 <= i < |flags| ==> Q.FlagIds(flags)[i] == flags[i].flagId
  {
    if flags != [] {
      FlagIdsAre(flags[..|flags| - 1]);
    }
  }

  lemma FlagsApartIs(flags: seq<Q.Flag>)
    ensures Distinct(Q.FlagIds(flags)) <==> FlagsApart(flags)
  {
    FlagIdsAre(flags);
    var ids := Q.FlagIds(flags);
    if Distinct(ids) {
      forall i, j | 0 <= i < j < |flags|
        ensures flags[i].flagId != flags[j].flagId
      {
        assert ids[i] != ids[j];
      }
    }
  }

  lemma FlagsAre(flags: seq<Q.Flag>)
    ensures Q.AllFlagsStand(flags, None) <==> forall i :: 0 <= i < |flags| ==> Flag(flags[i])
  {
    forall i | 0 <= i < |flags|
      ensures Q.FlagStands(flags[i], None) <==> Flag(flags[i])
    {
      References(flags[i].flagId, "flg_", 24);
    }
  }

  lemma ExtrasAre(e: Q.Extra)
    ensures Q.ExtraStands(e, None) <==> Extra(e)
  {
    match e
    case KycExtra(kyc) => if kyc.Some? { DossiersAre(kyc.value); }
    case AmlExtra(flags) =>
      FlagsAre(flags);
      FlagsApartIs(flags);
    case TicketExtra(_, _, _) =>
  }

  /** What only the server asks: flags oldest first, pairwise, and nothing past its snapshot. */
  ghost predicate ExtraWithin(e: Q.Extra, snapshot: int) {
    match e
    case KycExtra(kyc) => kyc.Some? ==> DossierWithin(kyc.value, snapshot)
    case AmlExtra(flags) =>
      && (forall i :: 0 <= i < |flags| ==> IsIso(flags[i].raisedAt) && Instant(flags[i].raisedAt) <= snapshot)
      && forall i, j :: 0 <= i < j < |flags| ==>
        && IsIso(flags[i].raisedAt) && IsIso(flags[j].raisedAt)
        && (Instant(flags[i].raisedAt) < Instant(flags[j].raisedAt)
            || (Instant(flags[i].raisedAt) == Instant(flags[j].raisedAt) && Less(flags[i].flagId, flags[j].flagId)))
    case TicketExtra(_, lastMessageAt, _) => IsIso(lastMessageAt) && Instant(lastMessageAt) <= snapshot
  }

  lemma ExtraWithinIs(e: Q.Extra, snapshot: int)
    ensures Q.ExtraWithin(e, snapshot) <==> ExtraWithin(e, snapshot)
  {
    match e
    case KycExtra(kyc) => if kyc.Some? { KycWithinIs(kyc.value, snapshot); }
    case AmlExtra(flags) =>
      forall i | 0 <= i < |flags|
        ensures D.Within(Some(flags[i].raisedAt), snapshot)
          <==> IsIso(flags[i].raisedAt) && Instant(flags[i].raisedAt) <= snapshot
      {
      }
      forall i, j | 0 <= i < j < |flags|
        ensures Q.RaisedBefore(flags[i], flags[j])
          <==> && IsIso(flags[i].raisedAt) && IsIso(flags[j].raisedAt)
               && (Instant(flags[i].raisedAt) < Instant(flags[j].raisedAt)
                   || (Instant(flags[i].raisedAt) == Instant(flags[j].raisedAt)
                       && Less(flags[i].flagId, flags[j].flagId)))
      {
      }
    case TicketExtra(_, _, _) =>
  }

  /** An item of the kind asked for, under the reference asked for, with what its kind adds. */
  ghost predicate ItemDetail(d: Q.ItemDetail, kind: I.Kind, itemId: string) {
    && d.item.core.queueId == itemId && Item(d.item, kind) && Extra(d.extra)
    && (match kind
        case Kyc => d.extra.KycExtra?
        case Aml => d.extra.AmlExtra?
        case Tickets => d.extra.TicketExtra?)
  }

  lemma ItemDetailIs(d: Q.ItemDetail, kind: I.Kind, itemId: string)
    ensures Q.DetailStands(d, kind, itemId, None) <==> ItemDetail(d, kind, itemId)
  {
    ItemsAre(d.item, kind);
    ExtrasAre(d.extra);
  }

  /**
   * The item in fields: the browser takes the wire form of an item detail exactly when it is one, the server
   * exactly when moreover its age is counted to the snapshot and what it adds is in order and within it.
   */
  lemma ItemInFields(d: Q.ItemDetail, kind: I.Kind, itemId: string, snapshot: int)
    ensures Q.BrowserItem(Q.CamelView(d), kind, itemId) == Some(d) <==> ItemDetail(d, kind, itemId)
    ensures Q.ServerItem(Q.SnakeView(d), kind, itemId, snapshot) == Some(d)
      <==> ItemDetail(d, kind, itemId) && AgedTo(d.item, snapshot) && ExtraWithin(d.extra, snapshot)
  {
    Q.BrowserItemIsExact(Q.CamelView(d), d, kind, itemId);
    ItemDetailIs(d, kind, itemId);
    if Q.ServerItem(Q.SnakeView(d), kind, itemId, snapshot) == Some(d) {
      Q.BrowserAcceptsWhatServerRelays(Q.SnakeView(d), kind, itemId, snapshot);
    }
    if ItemDetail(d, kind, itemId) {
      Q.ServerAcceptsWhatBrowserDoes(d, kind, itemId, snapshot);
      ExtraWithinIs(d.extra, snapshot);
    }
  }
}
