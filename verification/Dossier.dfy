/**
 * The KYC dossier block of the operator contract: its parser on the server
 * (parseSubjectKyc in backoffice/src/server/customer-api-client.ts), the camelCase copy the server
 * sends on (backoffice/src/server/server.ts), and the browser's parser of that copy
 * (parseSubjectKyc in backoffice/src/data/operator.ts).
 */
module Dossier {
  import opened Wrappers
  import opened ContractJson
  import opened ContractPages
  import opened Texts
  import opened Timestamps

  datatype Attempt = Attempt(
    sessionId: string, state: string, submittedAt: string, decidedAt: Option<string>, rejectionReason: Option<string>)

  datatype Kyc = Kyc(status: string, level: string, sessionId: string, history: seq<Attempt>)

  const STATUSES := {"approved", "in_review", "needs_more_data", "rejected", "submitted", "timed_out"}
  const PENDING := {"submitted", "in_review"}
  const ENDINGS := {"rejected", "needs_more_data", "timed_out"}
  const LEVELS := {"basic", "enhanced"}
  const REASONS := {"SIM_DOCUMENT_UNREADABLE", "SIM_DATA_MISMATCH"}
  const HISTORY_BOUND := 4

  // ---------------------------------------------------------------------------
  // The two spellings
  // ---------------------------------------------------------------------------

  function SnakeAttempt(a: Attempt): Raw {
    Obj(map["session_id" := Str(a.sessionId), "state" := Str(a.state), "submitted_at" := Str(a.submittedAt),
            "decided_at" := OptionRaw(a.decidedAt), "rejection_reason" := OptionRaw(a.rejectionReason)])
  }

  function ReadSnakeAttempt(v: Raw): Option<Attempt> {
    if !HasExactKeys(v, {"session_id", "state", "submitted_at", "decided_at", "rejection_reason"}) then None
    else
      var f := v.fields;
      if !f["session_id"].Str? || !f["state"].Str? || !f["submitted_at"].Str? || !IsTextOrNull(f["decided_at"])
         || !IsTextOrNull(f["rejection_reason"])
      then None
      else Some(Attempt(f["session_id"].s, f["state"].s, f["submitted_at"].s, TextOrNull(f["decided_at"]),
                        TextOrNull(f["rejection_reason"])))
  }

  function CamelAttempt(a: Attempt): Raw {
    Obj(map["sessionId" := Str(a.sessionId), "state" := Str(a.state), "submittedAt" := Str(a.submittedAt),
            "decidedAt" := OptionRaw(a.decidedAt), "rejectionReason" := OptionRaw(a.rejectionReason)])
  }

  function ReadCamelAttempt(v: Raw): Option<Attempt> {
    if !HasExactKeys(v, {"sessionId", "state", "submittedAt", "decidedAt", "rejectionReason"}) then None
    else
      var f := v.fields;
      if !f["sessionId"].Str? || !f["state"].Str? || !f["submittedAt"].Str? || !IsTextOrNull(f["decidedAt"])
         || !IsTextOrNull(f["rejectionReason"])
      then None
      else Some(Attempt(f["sessionId"].s, f["state"].s, f["submittedAt"].s, TextOrNull(f["decidedAt"]),
                        TextOrNull(f["rejectionReason"])))
  }

  lemma SnakeAttemptIsWritten(v: Raw)
    requires ReadSnakeAttempt(v).Some?
    ensures SnakeAttempt(ReadSnakeAttempt(v).value) == v
  {
    assert SnakeAttempt(ReadSnakeAttempt(v).value).fields == v.fields;
  }

  lemma CamelAttemptIsWritten(v: Raw)
    requires ReadCamelAttempt(v).Some?
    ensures CamelAttempt(ReadCamelAttempt(v).value) == v
  {
    assert CamelAttempt(ReadCamelAttempt(v).value).fields == v.fields;
  }

  lemma SnakeAttemptReadsBack(a: Attempt)
    ensures ReadSnakeAttempt(SnakeAttempt(a)) == Some(a)
  {
  }

  lemma CamelAttemptReadsBack(a: Attempt)
    ensures ReadCamelAttempt(CamelAttempt(a)) == Some(a)
  {
  }

  lemma AttemptsRoundTrip()
    ensures Undoes(ReadSnakeAttempt, SnakeAttempt) && Undoes(ReadCamelAttempt, CamelAttempt)
  {
    forall v | ReadSnakeAttempt(v).Some?
      ensures SnakeAttempt(ReadSnakeAttempt(v).value) == v
    {
      SnakeAttemptIsWritten(v);
    }
    forall v | ReadCamelAttempt(v).Some?
      ensures CamelAttempt(ReadCamelAttempt(v).value) == v
    {
      CamelAttemptIsWritten(v);
    }
    forall a
      ensures ReadSnakeAttempt(SnakeAttempt(a)) == Some(a) && ReadCamelAttempt(CamelAttempt(a)) == Some(a)
    {
      SnakeAttemptReadsBack(a);
      CamelAttemptReadsBack(a);
    }
  }

  /** The block the customer API sends. */
  function SnakeKyc(k: Kyc): Raw {
    Obj(map["status" := Str(k.status), "level" := Str(k.level), "session_id" := Str(k.sessionId),
            "history" := Arr(WriteAll(k.history, SnakeAttempt))])
  }

  /** What the server sends on to the browser. */
  function CamelKyc(k: Kyc): Raw {
    Obj(map["status" := Str(k.status), "level" := Str(k.level), "sessionId" := Str(k.sessionId),
            "history" := Arr(WriteAll(k.history, CamelAttempt))])
  }

  function ReadSnakeKyc(v: Raw): Option<Kyc> {
    if !HasExactKeys(v, {"status", "level", "session_id", "history"}) then None
    else
      var f := v.fields;
      if !f["status"].Str? || !f["level"].Str? || !f["session_id"].Str? || !f["history"].Arr?
         || ReadAll(f["history"].items, ReadSnakeAttempt).None?
      then None
      else Some(Kyc(f["status"].s, f["level"].s, f["session_id"].s,
                    ReadAll(f["history"].items, ReadSnakeAttempt).value))
  }

  function ReadCamelKyc(v: Raw): Option<Kyc> {
    if !HasExactKeys(v, {"status", "level", "sessionId", "history"}) then None
    else
      var f := v.fields;
      if !f["status"].Str? || !f["level"].Str? || !f["sessionId"].Str? || !f["history"].Arr?
         || ReadAll(f["history"].items, ReadCamelAttempt).None?
      then None
      else Some(Kyc(f["status"].s, f["level"].s, f["sessionId"].s,
                    ReadAll(f["history"].items, ReadCamelAttempt).value))
  }

  lemma SnakeKycIsWritten(v: Raw)
    requires ReadSnakeKyc(v).Some?
    ensures SnakeKyc(ReadSnakeKyc(v).value) == v
  {
    AttemptsRoundTrip();
    ReadListsAreWritten(v.fields["history"].items, ReadSnakeAttempt, SnakeAttempt);
    assert SnakeKyc(ReadSnakeKyc(v).value).fields == v.fields;
  }

  lemma CamelKycIsWritten(v: Raw)
    requires ReadCamelKyc(v).Some?
    ensures CamelKyc(ReadCamelKyc(v).value) == v
  {
    AttemptsRoundTrip();
    ReadListsAreWritten(v.fields["history"].items, ReadCamelAttempt, CamelAttempt);
    assert CamelKyc(ReadCamelKyc(v).value).fields == v.fields;
  }

  lemma KycReadsBack(k: Kyc)
    ensures ReadSnakeKyc(SnakeKyc(k)) == Some(k) && ReadCamelKyc(CamelKyc(k)) == Some(k)
  {
    AttemptsRoundTrip();
    ListsRoundTrip(k.history, ReadSnakeAttempt, SnakeAttempt);
    ListsRoundTrip(k.history, ReadCamelAttempt, CamelAttempt);
  }

  lemma KycRoundTrip()
    ensures Undoes(ReadSnakeKyc, SnakeKyc) && Undoes(ReadCamelKyc, CamelKyc)
  {
    forall k: Kyc
      ensures ReadSnakeKyc(SnakeKyc(k)) == Some(k) && ReadCamelKyc(CamelKyc(k)) == Some(k)
    {
      KycReadsBack(k);
    }
    forall v | ReadSnakeKyc(v).Some?
      ensures SnakeKyc(ReadSnakeKyc(v).value) == v
    {
      SnakeKycIsWritten(v);
    }
    forall v | ReadCamelKyc(v).Some?
      ensures CamelKyc(ReadCamelKyc(v).value) == v
    {
      CamelKycIsWritten(v);
    }
  }

  // ---------------------------------------------------------------------------
  // What an accepted dossier is
  // ---------------------------------------------------------------------------

  /** One attempt by itself: its vocabularies, a decision exactly when it has left review, in order. */
  predicate AttemptStands(a: Attempt) {
    && HexRef(a.sessionId, "kys_", 24) && a.state in STATUSES && IsIso(a.submittedAt)
    && (a.decidedAt.None? <==> a.state in PENDING)
    && (a.decidedAt.Some? ==> IsIso(a.decidedAt.value) && Instant(a.submittedAt) <= Instant(a.decidedAt.value))
    && (a.rejectionReason.Some? ==> a.state == "rejected" && a.rejectionReason.value in REASONS)
  }

  /** `older` was decided, and resubmittably, no later than `newer` was submitted. */
  predicate Supersedes(newer: Attempt, older: Attempt) {
    && AttemptStands(newer) && AttemptStands(older) && older.state in ENDINGS && older.decidedAt.Some?
    && Instant(older.decidedAt.value) <= Instant(newer.submittedAt)
  }

  function SessionId(a: Attempt): string {
    a.sessionId
  }

  ghost predicate AllStand(h: seq<Attempt>) {
    forall i :: 0 <= i < |h| ==> AttemptStands(h[i])
  }

  ghost predicate HistoryStands(h: seq<Attempt>) {
    AllStand(h) && DistinctBy(SessionId, h) && OrderedBy(Supersedes, h)
  }

  /** Nothing in the history lies past the snapshot the server pins; the browser pins none. */
  predicate AttemptWithin(a: Attempt, bound: Option<int>) {
    bound.None? || (Within(Some(a.submittedAt), bound.value) && Within(a.decidedAt, bound.value))
  }

  /** An instant the dossier names, if any, is not past the snapshot. */
  predicate Within(at: Option<string>, snapshot: int) {
    at.None? || (IsIso(at.value) && Instant(at.value) <= snapshot)
  }

  ghost predicate PageStands(h: seq<Attempt>, bound: Option<int>) {
    HistoryStands(h) && forall i :: 0 <= i < |h| ==> AttemptWithin(h[i], bound)
  }

  /**
   * An accepted dossier: its attempts, newest first, occupy submitted-to-decided intervals of which no
   * two overlap; only the newest can be in review or approved; the header echoes the newest.
   */
  ghost predicate Stands(k: Kyc, bound: Option<int>) {
    && k.level in LEVELS && 1 <= |k.history| <= HISTORY_BOUND && PageStands(k.history, bound)
    && k.sessionId == k.history[0].sessionId && k.status == k.history[0].state
  }

  /** The roster's status bounds the dossier's; without a roster row there is no bound. */
  predicate FitsRoster(status: string, roster: Option<string>) {
    && (roster == Some("verified") ==> status == "approved")
    && (roster == Some("pending") ==> status in PENDING)
    && (roster == Some("unverified") ==> status != "approved" && status !in PENDING)
  }

  /** What the server's parser accepts, and returns. */
  ghost function ServerDossier(v: Raw, snapshot: int): Option<Kyc> {
    var k := ReadSnakeKyc(v);
    if k.Some? && Stands(k.value, Some(snapshot)) then k else None
  }

  ghost function BrowserDossier(v: Raw, roster: Option<string>): Option<Kyc> {
    var k := ReadCamelKyc(v);
    if k.Some? && Stands(k.value, None) && FitsRoster(k.value.status, roster) then k else None
  }

  // ---------------------------------------------------------------------------
  // The parsers
  // ---------------------------------------------------------------------------

  /** What the loops test of an attempt against the one before it on the page. */
  predicate Follows(a: Attempt, newer: Attempt, previousSubmittedAt: string) {
    && a.state in ENDINGS && a.decidedAt.Some? && !Less(newer.submittedAt, a.decidedAt.value)
    && !Less(previousSubmittedAt, a.submittedAt)
  }

  /** The string tests against the neighbour, read as instants. */
  lemma FollowsIsSupersedes(a: Attempt, newer: Attempt)
    requires AttemptStands(a) && AttemptStands(newer)
    ensures Follows(a, newer, newer.submittedAt) <==> Supersedes(newer, a)
  {
    if a.decidedAt.Some? {
      OrderOfTextsIsOrderOfInstants(newer.submittedAt, a.decidedAt.value);
      OrderOfTextsIsOrderOfInstants(newer.submittedAt, a.submittedAt);
    }
  }

  lemma SupersedesIsTransitive()
    ensures Transitive(Supersedes)
  {
  }

  /** The adjacent string tests of the loop are enough for every pair of attempts. */
  lemma AdjacentTestsReachEveryPair(h: seq<Attempt>, a: Attempt, i: nat)
    requires HistoryStands(h) && AttemptStands(a) && i < |h|
    requires Follows(a, h[|h| - 1], h[|h| - 1].submittedAt)
    ensures Supersedes(h[i], a)
  {
    FollowsIsSupersedes(a, h[|h| - 1]);
    SupersedesIsTransitive();
    OrderExtends(Supersedes, h, a);
    assert Supersedes((h + [a])[i], (h + [a])[|h|]);
  }

  /** The tests of one round of the loop, but for the server's snapshot. */
  predicate Joins(history: seq<Attempt>, a: Attempt) {
    && AttemptStands(a) && a.sessionId !in IdsOf(SessionId, history)
    && (history != [] ==> Follows(a, history[|history| - 1], history[|history| - 1].submittedAt))
  }

  predicate Admits(history: seq<Attempt>, a: Attempt, bound: Option<int>) {
    Joins(history, a) && AttemptWithin(a, bound)
  }

  /** `admits` is the loop's test; named, so that the loop is followed without looking into it. */
  ghost predicate Decides(admits: (seq<Attempt>, Attempt) -> bool, bound: Option<int>) {
    forall page, a {:trigger Admits(page, a, bound)} :: admits(page, a) <==> Admits(page, a, bound)
  }

  lemma StandExtends(history: seq<Attempt>, a: Attempt)
    requires AllStand(history)
    ensures AllStand(history + [a]) <==> AttemptStands(a)
  {
    assert (history + [a])[|history|] == a;
  }

  /** One more attempt stands with the page before it exactly when it joins it. */
  lemma Extend(history: seq<Attempt>, a: Attempt)
    requires HistoryStands(history)
    ensures HistoryStands(history + [a]) <==> Joins(history, a)
  {
    StandExtends(history, a);
    IdsStayDistinct(SessionId, history, a);
    if AttemptStands(a) {
      if history != [] {
        FollowsIsSupersedes(a, history[|history| - 1]);
      }
      SupersedesIsTransitive();
      OrderExtends(Supersedes, history, a);
    }
  }

  lemma ExtendPage(history: seq<Attempt>, a: Attempt, bound: Option<int>)
    requires PageStands(history, bound)
    ensures PageStands(history + [a], bound) <==> Admits(history, a, bound)
  {
    Extend(history, a);
    if PageStands(history + [a], bound) {
      assert (history + [a])[|history|] == a;
    }
  }

  lemma PrefixStands(h: seq<Attempt>, more: seq<Attempt>, bound: Option<int>)
    requires PageStands(h + more, bound)
    ensures PageStands(h, bound)
  {
    PrefixKeeps(Supersedes, SessionId, h, more);
    forall i | 0 <= i < |h|
      ensures AttemptStands(h[i]) && AttemptWithin(h[i], bound)
    {
      assert (h + more)[i] == h[i];
    }
  }

  /** The loop accepts exactly the pages that stand, and returns them. */
  lemma ScanAcceptsStandingPages(
      items: seq<Raw>, read: Raw -> Option<Attempt>, bound: Option<int>, admits: (seq<Attempt>, Attempt) -> bool)
    requires Decides(admits, bound)
    ensures Scan(items, read, admits, []) == AcceptedHistory(items, read, bound)
  {
    var stands := (page: seq<Attempt>) => PageStands(page, bound);
    forall page, next | stands(page)
      ensures stands(page + [next]) <==> admits(page, next)
    {
      ExtendPage(page, next, bound);
    }
    forall page, more | stands(page + more)
      ensures stands(page)
    {
      PrefixStands(page, more, bound);
    }
    ScanAcceptsStandingLists(items, read, admits, stands);
  }

  ghost function AcceptedHistory(items: seq<Raw>, read: Raw -> Option<Attempt>, bound: Option<int>)
    : Option<seq<Attempt>>
  {
    Accepted(items, read, page => PageStands(page, bound))
  }

  /** One round of both ends, over the attempt as each end reads it. */
  method NextAttempt(raw: Raw, read: Raw -> Option<Attempt>, bound: Option<int>, sessionIds: set<string>,
                     previous: Option<Attempt>, previousSubmittedAt: string,
                     ghost page: seq<Attempt>, ghost admits: (seq<Attempt>, Attempt) -> bool)
    returns (row: Option<Attempt>)
    requires Decides(admits, bound) && sessionIds == IdsOf(SessionId, page)
    requires if page == [] then previous.None? else
      previous == Some(page[|page| - 1]) && previousSubmittedAt == page[|page| - 1].submittedAt
    ensures row == Row(raw, read, admits, page)
  {
    row := read(raw);
    if row.Some? {
      assert admits(page, row.value) <==> Admits(page, row.value, bound);
      if !AttemptStands(row.value) || row.value.sessionId in sessionIds || !AttemptWithin(row.value, bound) {
        row := None;
      } else if previous.Some? && !Follows(row.value, previous.value, previousSubmittedAt) {
        row := None;
      }
    }
  }

  method ParseHistory(items: seq<Raw>, read: Raw -> Option<Attempt>, bound: Option<int>,
                      ghost admits: (seq<Attempt>, Attempt) -> bool)
    returns (page: Option<seq<Attempt>>)
    requires Decides(admits, bound)
    ensures page == Scan(items, read, admits, [])
  {
    var sessionIds: set<string> := {};
    var history: seq<Attempt> := [];
    var previousSubmittedAt := "";
    var index := 0;
    while index < |items|
      invariant 0 <= index == |history| <= |items| && sessionIds == IdsOf(SessionId, history)
      invariant 0 < index ==> previousSubmittedAt == history[index - 1].submittedAt
      invariant Scan(items[index..], read, admits, history) == Scan(items, read, admits, [])
    {
      Round(items, index, read, admits, history);
      var previous := if index == 0 then None else Some(history[index - 1]);
      var row := NextAttempt(items[index], read, bound, sessionIds, previous, previousSubmittedAt, history, admits);
      if row.None? {
        return None;
      }
      OneMoreId(SessionId, history, row.value);
      sessionIds := sessionIds + {row.value.sessionId};
      previousSubmittedAt := row.value.submittedAt;
      history := history + [row.value];
      index := index + 1;
    }
    return Some(history);
  }

  predicate SnakeHeader(v: Raw) {
    && HasExactKeys(v, {"status", "level", "session_id", "history"})
    && v.fields["status"].Str? && v.fields["status"].s in STATUSES
    && v.fields["level"].Str? && v.fields["level"].s in LEVELS
    && v.fields["session_id"].Str? && HexRef(v.fields["session_id"].s, "kys_", 24)
    && v.fields["history"].Arr? && 1 <= |v.fields["history"].items| <= HISTORY_BOUND
  }

  /** The tests before and after the loop, given what the loop returns. */
  lemma ServerVerdict(v: Raw, snapshot: int)
    ensures !SnakeHeader(v) ==> ServerDossier(v, snapshot).None?
    ensures SnakeHeader(v) ==>
      var page := AcceptedHistory(v.fields["history"].items, ReadSnakeAttempt, Some(snapshot));
      && (page.Some? ==> page.value != [])
      && ServerDossier(v, snapshot)
        == if page.None? || v.fields["session_id"].s != page.value[0].sessionId
              || v.fields["status"].s != page.value[0].state
           then None
           else Some(Kyc(v.fields["status"].s, v.fields["level"].s, v.fields["session_id"].s, page.value))
  {
    if HasExactKeys(v, {"status", "level", "session_id", "history"}) && v.fields["history"].Arr? {
      ReadAllItems(v.fields["history"].items, ReadSnakeAttempt);
    }
  }

  method ServerParseKyc(v: Raw, snapshot: int) returns (parsed: Option<Kyc>)
    ensures parsed == ServerDossier(v, snapshot)
  {
    ServerVerdict(v, snapshot);
    if !SnakeHeader(v) {
      return None;
    }
    var f := v.fields;
    ghost var admits := (page, a) => Admits(page, a, Some(snapshot));
    var page := ParseHistory(f["history"].items, ReadSnakeAttempt, Some(snapshot), admits);
    ScanAcceptsStandingPages(f["history"].items, ReadSnakeAttempt, Some(snapshot), admits);
    if page.None? || f["session_id"].s != page.value[0].sessionId || f["status"].s != page.value[0].state {
      return None;
    }
    return Some(Kyc(f["status"].s, f["level"].s, f["session_id"].s, page.value));
  }

  predicate CamelHeader(v: Raw) {
    && HasExactKeys(v, {"status", "level", "sessionId", "history"})
    && v.fields["status"].Str? && v.fields["status"].s in STATUSES
    && v.fields["level"].Str? && v.fields["level"].s in LEVELS
    && v.fields["sessionId"].Str? && HexRef(v.fields["sessionId"].s, "kys_", 24)
    && v.fields["history"].Arr? && 1 <= |v.fields["history"].items| <= HISTORY_BOUND
  }

  /** The tests before and after the loop, given what the loop returns. */
  lemma BrowserVerdict(v: Raw, roster: Option<string>)
    ensures !CamelHeader(v) ==> BrowserDossier(v, roster).None?
    ensures CamelHeader(v) ==>
      var page := AcceptedHistory(v.fields["history"].items, ReadCamelAttempt, None);
      && (page.Some? ==> page.value != [])
      && BrowserDossier(v, roster)
        == if page.None? || !FitsRoster(v.fields["status"].s, roster)
              || v.fields["sessionId"].s != page.value[0].sessionId
              || v.fields["status"].s != page.value[0].state
           then None
           else Some(Kyc(v.fields["status"].s, v.fields["level"].s, v.fields["sessionId"].s, page.value))
  {
    if HasExactKeys(v, {"status", "level", "sessionId", "history"}) && v.fields["history"].Arr? {
      ReadAllItems(v.fields["history"].items, ReadCamelAttempt);
    }
  }

  method BrowserParseKyc(v: Raw, roster: Option<string>) returns (parsed: Option<Kyc>)
    ensures parsed == BrowserDossier(v, roster)
  {
    BrowserVerdict(v, roster);
    if !CamelHeader(v) {
      return None;
    }
    var f := v.fields;
    if !FitsRoster(f["status"].s, roster) {
      return None;
    }
    ghost var admits := (page, a) => Admits(page, a, None);
    var page := ParseHistory(f["history"].items, ReadCamelAttempt, None, admits);
    ScanAcceptsStandingPages(f["history"].items, ReadCamelAttempt, None, admits);
    if page.None? || f["sessionId"].s != page.value[0].sessionId || f["status"].s != page.value[0].state {
      return None;
    }
    return Some(Kyc(f["status"].s, f["level"].s, f["sessionId"].s, page.value));
  }

  // ---------------------------------------------------------------------------
  // Results
  // ---------------------------------------------------------------------------

  /** Of two attempts the older was submitted and decided before the newer was submitted, and is over. */
  lemma AttemptsDoNotOverlap(k: Kyc, bound: Option<int>, newer: nat, older: nat)
    requires Stands(k, bound) && newer < older < |k.history|
    ensures var n, o := k.history[newer], k.history[older];
      && o.decidedAt.Some? && o.state != "approved" && o.state !in PENDING && o.sessionId != n.sessionId
      && Instant(o.submittedAt) <= Instant(o.decidedAt.value) <= Instant(n.submittedAt)
      && (n.decidedAt.Some? ==> Instant(n.submittedAt) <= Instant(n.decidedAt.value))
  {
    assert Supersedes(k.history[newer], k.history[older]);
    assert SessionId(k.history[newer]) != SessionId(k.history[older]);
  }

  /** Both parsers read exactly the wire form of what they accept: nothing is dropped or made up. */
  lemma AcceptedDossiersAreExact(v: Raw, k: Kyc, snapshot: int, roster: Option<string>)
    ensures ServerDossier(v, snapshot) == Some(k) <==> v == SnakeKyc(k) && Stands(k, Some(snapshot))
    ensures BrowserDossier(v, roster) == Some(k)
      <==> v == CamelKyc(k) && Stands(k, None) && FitsRoster(k.status, roster)
  {
    KycRoundTrip();
  }

  /**
   * A dossier the server accepts, sent on in camelCase, is accepted by the browser with every field
   * preserved, under the roster bound the server's caller has checked as well.
   */
  lemma BrowserAcceptsWhatServerRelays(v: Raw, snapshot: int, roster: Option<string>)
    requires ServerDossier(v, snapshot).Some? && FitsRoster(ServerDossier(v, snapshot).value.status, roster)
    ensures BrowserDossier(CamelKyc(ServerDossier(v, snapshot).value), roster) == ServerDossier(v, snapshot)
  {
    KycRoundTrip();
    WithoutBound(ServerDossier(v, snapshot).value, snapshot);
  }

  /**
   * The converse: of the dossiers the browser accepts, the server accepts exactly those in which nothing
   * lies past its snapshot.
   */
  lemma ServerAcceptsWhatBrowserDoes(k: Kyc, snapshot: int, roster: Option<string>)
    requires BrowserDossier(CamelKyc(k), roster) == Some(k)
    ensures ServerDossier(SnakeKyc(k), snapshot) == Some(k)
      <==> forall i :: 0 <= i < |k.history| ==> AttemptWithin(k.history[i], Some(snapshot))
  {
    AcceptedDossiersAreExact(CamelKyc(k), k, snapshot, roster);
    AcceptedDossiersAreExact(SnakeKyc(k), k, snapshot, roster);
  }

  lemma WithoutBound(k: Kyc, snapshot: int)
    requires Stands(k, Some(snapshot))
    ensures Stands(k, None)
  {
  }
}
