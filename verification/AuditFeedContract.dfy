/**
 * The operator audit feed of the contract: the server's parser (parseOperatorAuditView in
 * backoffice/src/server/customer-api-client.ts), the camelCase copy the server sends on
 * (backoffice/src/server/server.ts), and the browser's parser of that copy
 * (parseOperatorAuditView in backoffice/src/data/operator.ts).
 */
module AuditFeedContract {
  import opened Wrappers
  import opened ContractJson
  import opened ContractPages
  import Decimals = ReportDecimals
  import opened Texts
  import opened Timestamps

  datatype Entry = Entry(
    auditId: string, actorSubjectId: string, actorRole: string, action: string, targetKind: string, targetId: string,
    at: string, detailHash: string)

  datatype Feed = Feed(asOf: string, entries: seq<Entry>, nextCursor: Option<string>)

  const MAX_ENTRIES := 32
  const ROLES := {"compliance-lead", "support-l1", "aml-investigator", "fraud-investigator", "auditor"}

  /** The one kind of target each action has. */
  function TargetKindOf(action: string): Option<string> {
    if action == "session.opened" || action == "session.rotated" then Some("session")
    else if action == "queue.viewed" then Some("queue_item")
    else if action == "subject.viewed" then Some("subject")
    else if action == "flag.reviewed" then Some("flag")
    else None
  }

  predicate QueueItemRef(s: string) {
    HexRef(s, "qky_", 24) || HexRef(s, "qml_", 24) || HexRef(s, "qtick_", 24)
  }

  /** The server: each kind of target has its own grammar. */
  predicate TargetOfKind(kind: string, id: string) {
    if kind == "session" then HexRef(id, "osn_", 24)
    else if kind == "queue_item" then QueueItemRef(id)
    else if kind == "subject" then CustomerRef(id)
    else HexRef(id, "flg_", 24)
  }

  /** The browser: the union of the grammars. */
  predicate TargetOfAnyKind(id: string) {
    HexRef(id, "osn_", 24) || QueueItemRef(id) || HexRef(id, "flg_", 24) || CustomerRef(id)
  }

  // ---------------------------------------------------------------------------
  // The feed on the wire
  // ---------------------------------------------------------------------------

  function SnakeEntry(e: Entry): Raw {
    Obj(map["audit_id" := Str(e.auditId), "actor_subject_id" := Str(e.actorSubjectId), "actor_role" := Str(e.actorRole),
            "action" := Str(e.action), "target_kind" := Str(e.targetKind), "target_id" := Str(e.targetId),
            "at" := Str(e.at), "detail_hash" := Str(e.detailHash)])
  }

  function CamelEntry(e: Entry): Raw {
    Obj(map["auditId" := Str(e.auditId), "actorSubjectId" := Str(e.actorSubjectId), "actorRole" := Str(e.actorRole),
            "action" := Str(e.action), "targetKind" := Str(e.targetKind), "targetId" := Str(e.targetId),
            "at" := Str(e.at), "detailHash" := Str(e.detailHash)])
  }

  function ReadSnakeEntry(v: Raw): Option<Entry> {
    if !HasExactKeys(v, {"audit_id", "actor_subject_id", "actor_role", "action", "target_kind", "target_id", "at",
                         "detail_hash"})
       || !(forall key :: key in v.fields ==> v.fields[key].Str?)
    then None
    else
      var f := v.fields;
      Some(Entry(f["audit_id"].s, f["actor_subject_id"].s, f["actor_role"].s, f["action"].s, f["target_kind"].s,
                 f["target_id"].s, f["at"].s, f["detail_hash"].s))
  }

  function ReadCamelEntry(v: Raw): Option<Entry> {
    if !HasExactKeys(v, {"auditId", "actorSubjectId", "actorRole", "action", "targetKind", "targetId", "at",
        "detailHash"})
       || !(forall key :: key in v.fields ==> v.fields[key].Str?)
    then None
    else
      var f := v.fields;
      Some(Entry(f["auditId"].s, f["actorSubjectId"].s, f["actorRole"].s, f["action"].s, f["targetKind"].s,
                 f["targetId"].s, f["at"].s, f["detailHash"].s))
  }

  lemma SnakeEntryIsWritten(v: Raw)
    requires ReadSnakeEntry(v).Some?
    ensures SnakeEntry(ReadSnakeEntry(v).value) == v
  {
    var w := SnakeEntry(ReadSnakeEntry(v).value);
    assert w.fields.Keys == v.fields.Keys;
    assert w.fields == v.fields;
  }

  lemma CamelEntryIsWritten(v: Raw)
    requires ReadCamelEntry(v).Some?
    ensures CamelEntry(ReadCamelEntry(v).value) == v
  {
    var w := CamelEntry(ReadCamelEntry(v).value);
    assert w.fields.Keys == v.fields.Keys;
    assert w.fields == v.fields;
  }

  lemma SnakeEntryReadsBack(e: Entry)
    ensures ReadSnakeEntry(SnakeEntry(e)) == Some(e)
  {
  }

  lemma CamelEntryReadsBack(e: Entry)
    ensures ReadCamelEntry(CamelEntry(e)) == Some(e)
  {
  }

  lemma EntriesRoundTrip()
    ensures Undoes(ReadSnakeEntry, SnakeEntry) && Undoes(ReadCamelEntry, CamelEntry)
  {
    forall v | ReadSnakeEntry(v).Some?
      ensures SnakeEntry(ReadSnakeEntry(v).value) == v
    {
      SnakeEntryIsWritten(v);
    }
    forall v | ReadCamelEntry(v).Some?
      ensures CamelEntry(ReadCamelEntry(v).value) == v
    {
      CamelEntryIsWritten(v);
    }
    forall e
      ensures ReadSnakeEntry(SnakeEntry(e)) == Some(e) && ReadCamelEntry(CamelEntry(e)) == Some(e)
    {
      SnakeEntryReadsBack(e);
      CamelEntryReadsBack(e);
    }
  }

  function SnakeFeed(feed: Feed): Raw {
    Obj(map["mode" := Str("test"),
            "audit" := Obj(map["as_of" := Str(feed.asOf), "entries" := Arr(WriteAll(feed.entries, SnakeEntry)),
                               "next_cursor" := OptionRaw(feed.nextCursor)])])
  }

  function CamelFeed(feed: Feed): Raw {
    Obj(map["mode" := Str("test"),
            "audit" := Obj(map["asOf" := Str(feed.asOf), "entries" := Arr(WriteAll(feed.entries, CamelEntry)),
                               "nextCursor" := OptionRaw(feed.nextCursor)])])
  }

  /** The feed but for its entries. */
  datatype Frame = Frame(asOf: string, entries: seq<Raw>, nextCursor: Option<string>)

  function ReadFrame(v: Raw, asOf: string, nextCursor: string): Option<Frame> {
    if !HasExactKeys(v, {"mode", "audit"}) || v.fields["mode"] != Str("test") then None
    else
      var audit := v.fields["audit"];
      if !HasExactKeys(audit, {asOf, "entries", nextCursor}) || !audit.fields[asOf].Str?
         || !audit.fields["entries"].Arr?
         || !IsTextOrNull(audit.fields[nextCursor])
      then None
      else Some(Frame(audit.fields[asOf].s, audit.fields["entries"].items, TextOrNull(audit.fields[nextCursor])))
  }

  function FrameRaw(f: Frame, asOf: string, nextCursor: string): Raw {
    Obj(map["mode" := Str("test"),
            "audit" := Obj(map[asOf := Str(f.asOf), "entries" := Arr(f.entries),
                               nextCursor := OptionRaw(f.nextCursor)])])
  }

  lemma FrameRoundTrip(v: Raw, f: Frame, asOf: string, nextCursor: string)
    requires asOf != "entries" && nextCursor != "entries" && asOf != nextCursor
    ensures ReadFrame(v, asOf, nextCursor) == Some(f) <==> v == FrameRaw(f, asOf, nextCursor)
  {
    if ReadFrame(v, asOf, nextCursor) == Some(f) {
      var w := FrameRaw(f, asOf, nextCursor);
      assert w.fields["audit"].fields == v.fields["audit"].fields;
      assert w.fields == v.fields;
    }
  }

  function ReadSnakeFeed(v: Raw): Option<Feed> {
    var f := ReadFrame(v, "as_of", "next_cursor");
    if f.None? || ReadAll(f.value.entries, ReadSnakeEntry).None? then None
    else Some(Feed(f.value.asOf, ReadAll(f.value.entries, ReadSnakeEntry).value, f.value.nextCursor))
  }

  function ReadCamelFeed(v: Raw): Option<Feed> {
    var f := ReadFrame(v, "asOf", "nextCursor");
    if f.None? || ReadAll(f.value.entries, ReadCamelEntry).None? then None
    else Some(Feed(f.value.asOf, ReadAll(f.value.entries, ReadCamelEntry).value, f.value.nextCursor))
  }

  lemma FeedsRoundTrip(v: Raw, feed: Feed)
    ensures ReadSnakeFeed(v) == Some(feed) <==> v == SnakeFeed(feed)
    ensures ReadCamelFeed(v) == Some(feed) <==> v == CamelFeed(feed)
  {
    EntriesRoundTrip();
    var snake := Frame(feed.asOf, WriteAll(feed.entries, SnakeEntry), feed.nextCursor);
    var camel := Frame(feed.asOf, WriteAll(feed.entries, CamelEntry), feed.nextCursor);
    FrameRoundTrip(v, snake, "as_of", "next_cursor");
    FrameRoundTrip(v, camel, "asOf", "nextCursor");
    ListsRoundTrip(feed.entries, ReadSnakeEntry, SnakeEntry);
    ListsRoundTrip(feed.entries, ReadCamelEntry, CamelEntry);
    if ReadSnakeFeed(v) == Some(feed) {
      ReadListsAreWritten(ReadFrame(v, "as_of", "next_cursor").value.entries, ReadSnakeEntry, SnakeEntry);
    }
    if ReadCamelFeed(v) == Some(feed) {
      ReadListsAreWritten(ReadFrame(v, "asOf", "nextCursor").value.entries, ReadCamelEntry, CamelEntry);
    }
  }

  // ---------------------------------------------------------------------------
  // What an accepted feed is
  // ---------------------------------------------------------------------------

  datatype Side = Server | Browser

  predicate EntryStands(e: Entry, side: Side) {
    && HexRef(e.auditId, "au_", 24) && OperatorRef(e.actorSubjectId) && e.actorRole in ROLES
    && TargetKindOf(e.action) == Some(e.targetKind) && IsIso(e.at) && HexRef(e.detailHash, "adh_", 32)
    && (if side.Server? then TargetOfKind(e.targetKind, e.targetId) else TargetOfAnyKind(e.targetId))
  }

  function PlaceOf(e: Entry): Place
    requires IsIso(e.at)
  {
    Place(Instant(e.at), e.auditId)
  }

  /** `newer` stands above `older`: later, or at one instant with the greater reference. */
  predicate Above(newer: Entry, older: Entry) {
    IsIso(newer.at) && IsIso(older.at) && Earlier(PlaceOf(older), PlaceOf(newer))
  }

  predicate EntryFits(e: Entry, asOf: string, side: Side) {
    EntryStands(e, side) && IsIso(asOf) && Instant(e.at) <= Instant(asOf)
  }

  function AuditId(e: Entry): string {
    e.auditId
  }

  ghost predicate AllFit(page: seq<Entry>, asOf: string, side: Side) {
    forall i :: 0 <= i < |page| ==> EntryFits(page[i], asOf, side)
  }

  ghost predicate PageStands(page: seq<Entry>, asOf: string, side: Side) {
    AllFit(page, asOf, side) && DistinctBy(AuditId, page) && OrderedBy(Above, page)
  }

  /** An accepted feed; the server also pins the instant it is taken at. */
  ghost predicate FeedStands(feed: Feed, side: Side, pinned: string) {
    && IsIso(feed.asOf) && (side.Server? ==> feed.asOf == pinned)
    && (feed.nextCursor.Some? ==> HexRef(feed.nextCursor.value, "auc_", 16))
    && 1 <= |feed.entries| <= MAX_ENTRIES && PageStands(feed.entries, feed.asOf, side)
  }

  ghost function ServerFeed(v: Raw, pinned: string): Option<Feed> {
    var feed := ReadSnakeFeed(v);
    if feed.Some? && FeedStands(feed.value, Server, pinned) then feed else None
  }

  ghost function BrowserFeed(v: Raw): Option<Feed> {
    var feed := ReadCamelFeed(v);
    if feed.Some? && FeedStands(feed.value, Browser, "") then feed else None
  }

  // ---------------------------------------------------------------------------
  // The loop
  // ---------------------------------------------------------------------------

  /** What the loop carries from one row to the next: nothing before the first. */
  function Last(page: seq<Entry>): Option<Place>
    requires page != [] ==> IsIso(page[|page| - 1].at)
  {
    if page == [] then None else Some(PlaceOf(page[|page| - 1]))
  }

  predicate Admits(page: seq<Entry>, e: Entry, asOf: string, side: Side) {
    && EntryFits(e, asOf, side) && e.auditId !in IdsOf(AuditId, page)
    && (page == [] || Above(page[|page| - 1], e))
  }

  /** `admits` is the loop's test; named, so that the loop is followed without looking into it. */
  ghost predicate Decides(admits: (seq<Entry>, Entry) -> bool, asOf: string, side: Side) {
    forall page, e {:trigger Admits(page, e, asOf, side)} :: admits(page, e) <==> Admits(page, e, asOf, side)
  }

  lemma AboveIsTransitive()
    ensures Transitive(Above)
  {
    forall a, b, c | Above(a, b) && Above(b, c)
      ensures Above(a, c)
    {
      EarlierIsTransitive(PlaceOf(c), PlaceOf(b), PlaceOf(a));
    }
  }

  lemma FitExtends(page: seq<Entry>, e: Entry, asOf: string, side: Side)
    requires AllFit(page, asOf, side)
    ensures AllFit(page + [e], asOf, side) <==> EntryFits(e, asOf, side)
  {
    assert (page + [e])[|page|] == e;
  }

  lemma Extend(page: seq<Entry>, e: Entry, asOf: string, side: Side)
    requires PageStands(page, asOf, side)
    ensures PageStands(page + [e], asOf, side) <==> Admits(page, e, asOf, side)
  {
    FitExtends(page, e, asOf, side);
    IdsStayDistinct(AuditId, page, e);
    AboveIsTransitive();
    OrderExtends(Above, page, e);
  }

  lemma PrefixStands(page: seq<Entry>, more: seq<Entry>, asOf: string, side: Side)
    requires PageStands(page + more, asOf, side)
    ensures PageStands(page, asOf, side)
  {
    PrefixKeeps(Above, AuditId, page, more);
    forall i | 0 <= i < |page|
      ensures EntryFits(page[i], asOf, side)
    {
      assert (page + more)[i] == page[i];
    }
  }

  ghost function AcceptedPage(items: seq<Raw>, read: Raw -> Option<Entry>, asOf: string, side: Side)
    : Option<seq<Entry>>
  {
    Accepted(items, read, page => PageStands(page, asOf, side))
  }

  lemma ScanAcceptsStandingPages(
      items: seq<Raw>, read: Raw -> Option<Entry>, asOf: string, side: Side, admits: (seq<Entry>, Entry) -> bool)
    requires Decides(admits, asOf, side)
    ensures Scan(items, read, admits, []) == AcceptedPage(items, read, asOf, side)
  {
    var stands := (page: seq<Entry>) => PageStands(page, asOf, side);
    forall page, next | stands(page)
      ensures stands(page + [next]) <==> admits(page, next)
    {
      Extend(page, next, asOf, side);
    }
    forall page, more | stands(page + more)
      ensures stands(page)
    {
      PrefixStands(page, more, asOf, side);
    }
    ScanAcceptsStandingLists(items, read, admits, stands);
  }

  // ---------------------------------------------------------------------------
  // The parsers
  // ---------------------------------------------------------------------------

  /** The tests of one round; the two ends differ in the grammar of the target. */
  method CheckEntry(e: Entry, asOfMs: int, side: Side, seen: set<string>, previous: Option<Place>,
                    ghost asOf: string, ghost page: seq<Entry>, ghost admits: (seq<Entry>, Entry) -> bool)
    returns (ok: bool)
    requires Decides(admits, asOf, side) && IsIso(asOf) && asOfMs == Instant(asOf) && seen == IdsOf(AuditId, page)
    requires (page != [] ==> IsIso(page[|page| - 1].at)) && previous == Last(page)
    ensures ok == admits(page, e) && (ok ==> IsIso(e.at))
  {
    assert admits(page, e) <==> Admits(page, e, asOf, side);
    if !EntryStands(e, side) || e.auditId in seen {
      return false;
    }
    var occurredMs := Instant(e.at);
    if asOfMs < occurredMs {
      return false;
    }
    if previous.Some? {
      var last := previous.value;
      if last.at < occurredMs || (occurredMs == last.at && !Less(e.auditId, last.id)) {
        return false;
      }
    }
    return true;
  }

  /** The loop of both ends, over the entries as each end reads them. */
  method ParseEntries(items: seq<Raw>, read: Raw -> Option<Entry>, asOf: string, side: Side,
                      ghost admits: (seq<Entry>, Entry) -> bool)
    returns (page: Option<seq<Entry>>)
    requires IsIso(asOf) && Decides(admits, asOf, side)
    ensures page == Scan(items, read, admits, [])
  {
    var asOfMs := Instant(asOf);
    var seen: set<string> := {};
    var entries: seq<Entry> := [];
    var previous: Option<Place> := None;
    var index := 0;
    while index < |items|
      invariant 0 <= index <= |items| && seen == IdsOf(AuditId, entries)
      invariant (entries != [] ==> IsIso(entries[|entries| - 1].at)) && previous == Last(entries)
      invariant Scan(items[index..], read, admits, entries) == Scan(items, read, admits, [])
    {
      Round(items, index, read, admits, entries);
      var raw := read(items[index]);
      if raw.None? {
        return None;
      }
      var ok := CheckEntry(raw.value, asOfMs, side, seen, previous, asOf, entries, admits);
      if !ok {
        return None;
      }
      OneMoreId(AuditId, entries, raw.value);
      seen := seen + {raw.value.auditId};
      previous := Some(PlaceOf(raw.value));
      entries := entries + [raw.value];
      index := index + 1;
    }
    return Some(entries);
  }

  predicate FrameStands(f: Frame) {
    && IsIso(f.asOf) && (f.nextCursor.Some? ==> HexRef(f.nextCursor.value, "auc_", 16))
    && 1 <= |f.entries| <= MAX_ENTRIES
  }

  /** The tests before the loop, and what the loop leaves to be returned. */
  lemma ServerVerdict(v: Raw, pinned: string)
    ensures var f := ReadFrame(v, "as_of", "next_cursor");
      ServerFeed(v, pinned)
        == if f.None? || !FrameStands(f.value) || f.value.asOf != pinned then None
           else
             var page := AcceptedPage(f.value.entries, ReadSnakeEntry, pinned, Server);
             if page.None? then None else Some(Feed(pinned, page.value, f.value.nextCursor))
  {
    var snake := ReadFrame(v, "as_of", "next_cursor");
    if snake.Some? {
      ReadAllItems(snake.value.entries, ReadSnakeEntry);
    }
  }

  lemma BrowserVerdict(v: Raw)
    ensures var f := ReadFrame(v, "asOf", "nextCursor");
      BrowserFeed(v)
        == if f.None? || !FrameStands(f.value) then None
           else
             var page := AcceptedPage(f.value.entries, ReadCamelEntry, f.value.asOf, Browser);
             if page.None? then None else Some(Feed(f.value.asOf, page.value, f.value.nextCursor))
  {
    var camel := ReadFrame(v, "asOf", "nextCursor");
    if camel.Some? {
      ReadAllItems(camel.value.entries, ReadCamelEntry);
    }
  }

  method ServerParseFeed(v: Raw, pinned: string) returns (parsed: Option<Feed>)
    ensures parsed == ServerFeed(v, pinned)
  {
    ServerVerdict(v, pinned);
    var frame := ReadFrame(v, "as_of", "next_cursor");
    if frame.None? || !FrameStands(frame.value) || frame.value.asOf != pinned {
      return None;
    }
    ghost var admits := (page, e) => Admits(page, e, pinned, Server);
    var page := ParseEntries(frame.value.entries, ReadSnakeEntry, pinned, Server, admits);
    ScanAcceptsStandingPages(frame.value.entries, ReadSnakeEntry, pinned, Server, admits);
    if page.None? {
      return None;
    }
    return Some(Feed(pinned, page.value, frame.value.nextCursor));
  }

  method BrowserParseFeed(v: Raw) returns (parsed: Option<Feed>)
    ensures parsed == BrowserFeed(v)
  {
    BrowserVerdict(v);
    var frame := ReadFrame(v, "asOf", "nextCursor");
    if frame.None? || !FrameStands(frame.value) {
      return None;
    }
    var asOf := frame.value.asOf;
    ghost var admits := (page, e) => Admits(page, e, asOf, Browser);
    var page := ParseEntries(frame.value.entries, ReadCamelEntry, asOf, Browser, admits);
    ScanAcceptsStandingPages(frame.value.entries, ReadCamelEntry, asOf, Browser, admits);
    if page.None? {
      return None;
    }
    return Some(Feed(asOf, page.value, frame.value.nextCursor));
  }

  // ---------------------------------------------------------------------------
  // Results
  // ---------------------------------------------------------------------------

  /** A target in the grammar of its kind is in the union the browser tests. */
  lemma ServerEntriesSuitTheBrowser(e: Entry, asOf: string)
    requires EntryFits(e, asOf, Server)
    ensures EntryFits(e, asOf, Browser)
  {
  }

  /** Both parsers read exactly the wire form of what they accept: nothing is dropped or made up. */
  lemma AcceptedFeedsAreExact(v: Raw, feed: Feed, pinned: string)
    ensures ServerFeed(v, pinned) == Some(feed) <==> v == SnakeFeed(feed) && FeedStands(feed, Server, pinned)
    ensures BrowserFeed(v) == Some(feed) <==> v == CamelFeed(feed) && FeedStands(feed, Browser, "")
  {
    FeedsRoundTrip(v, feed);
  }

  /** A feed the server accepts, copied out in camelCase, is accepted by the browser as the same feed. */
  lemma BrowserAcceptsWhatServerRelays(v: Raw, pinned: string)
    requires ServerFeed(v, pinned).Some?
    ensures BrowserFeed(CamelFeed(ServerFeed(v, pinned).value)) == ServerFeed(v, pinned)
  {
    var feed := ServerFeed(v, pinned).value;
    FeedsRoundTrip(CamelFeed(feed), feed);
    forall i | 0 <= i < |feed.entries|
      ensures EntryFits(feed.entries[i], feed.asOf, Browser)
    {
      ServerEntriesSuitTheBrowser(feed.entries[i], feed.asOf);
    }
  }

  /**
   * The converse: of the feeds the browser accepts, the server accepts exactly those taken at its pinned
   * instant in which every target is in the grammar of its own kind.
   */
  lemma ServerAcceptsWhatBrowserDoes(feed: Feed, pinned: string)
    requires BrowserFeed(CamelFeed(feed)) == Some(feed)
    ensures ServerFeed(SnakeFeed(feed), pinned) == Some(feed)
      <==> feed.asOf == pinned
           && forall i :: 0 <= i < |feed.entries| ==> TargetOfKind(feed.entries[i].targetKind, feed.entries[i].targetId)
  {
    AcceptedFeedsAreExact(CamelFeed(feed), feed, pinned);
    AcceptedFeedsAreExact(SnakeFeed(feed), feed, pinned);
    forall i | 0 <= i < |feed.entries|
      ensures EntryFits(feed.entries[i], feed.asOf, Server)
        <==> TargetOfKind(feed.entries[i].targetKind, feed.entries[i].targetId)
    {
      assert EntryFits(feed.entries[i], feed.asOf, Browser);
    }
  }

  // ---------------------------------------------------------------------------
  // A feed only the browser accepts
  // ---------------------------------------------------------------------------

  const SAMPLE_INSTANT := "2026-09-01T00:00:00.000Z"

  lemma ZerosAreRefs(prefix: string, n: nat)
    ensures HexRef(prefix + Zeros(n), prefix, n)
    ensures 8 <= n <= 32 ==> NameRef(prefix + Zeros(n), prefix)
  {
    var s := prefix + Zeros(n);
    assert s[..|prefix|] == prefix;
  }

  /** One flag, reviewed under the reference of a customer. */
  function ForeignFeed(): Feed {
    Feed(SAMPLE_INSTANT,
         [Entry("au_" + Zeros(24), "syn_oper_" + Zeros(8), "auditor", "flag.reviewed", "flag", "syn_cust_" + Zeros(8),
                SAMPLE_INSTANT, "adh_" + Zeros(32))],
         None)
  }

  /** The browser accepts that feed, the server refuses it whatever instant it pins. */
  lemma BrowserTakesForeignTargets(pinned: string)
    ensures BrowserFeed(CamelFeed(ForeignFeed())) == Some(ForeignFeed())
    ensures ServerFeed(SnakeFeed(ForeignFeed()), pinned) == None
  {
    var feed := ForeignFeed();
    var e := feed.entries[0];
    ZerosAreRefs("au_", 24);
    ZerosAreRefs("syn_oper_", 8);
    ZerosAreRefs("syn_cust_", 8);
    ZerosAreRefs("adh_", 32);
    SampleInstantIsIso();
    assert EntryStands(e, Browser);
    assert PageStands(feed.entries, feed.asOf, Browser);
    AcceptedFeedsAreExact(CamelFeed(feed), feed, "");
    ServerAcceptsWhatBrowserDoes(feed, pinned);
    assert e.targetId[0] == 's' && "flg_"[0] == 'f';
    assert !TargetOfKind(e.targetKind, e.targetId);
    if ServerFeed(SnakeFeed(feed), pinned).Some? {
      FeedsRoundTrip(SnakeFeed(feed), ServerFeed(SnakeFeed(feed), pinned).value);
      FeedsRoundTrip(SnakeFeed(feed), feed);
    }
  }

  lemma SampleInstantIsIso()
    ensures IsIso(SAMPLE_INSTANT)
  {
    SampleDate();
    SampleTime();
    var s := SAMPLE_INSTANT;
    assert s == "2026-09-01T00:00:00.000Z";
    assert s[4] == s[7] == '-' && s[10] == 'T' && s[13] == s[16] == ':' && s[19] == '.' && s[23] == 'Z';
  }

  lemma SampleDate()
    ensures var s := SAMPLE_INSTANT;
      Decimals.AllDigits(s[0..4]) && Decimals.AllDigits(s[5..7]) && Decimals.AllDigits(s[8..10])
      && 0 <= Decimals.NatOf(s[0..4]) && Decimals.NatOf(s[5..7]) == 9 && Decimals.NatOf(s[8..10]) == 1
  {
    var s := SAMPLE_INSTANT;
    assert s[0..4] == [s[0], s[1], s[2], s[3]] == "2026";
    assert s[5..7] == [s[5], s[6]] == "09";
    assert s[8..10] == [s[8], s[9]] == "01";
    Decimals.NatBounds("2026");
    TwoDigits("09");
    TwoDigits("01");
  }

  lemma SampleTime()
    ensures var s := SAMPLE_INSTANT;
      Decimals.AllDigits(s[11..13]) && Decimals.AllDigits(s[14..16])
      && Decimals.AllDigits(s[17..19]) && Decimals.AllDigits(s[20..23])
      && Decimals.NatOf(s[11..13]) == Decimals.NatOf(s[14..16]) == Decimals.NatOf(s[17..19]) == 0
      && 0 <= Decimals.NatOf(s[20..23]) < 1000
  {
    var s := SAMPLE_INSTANT;
    assert s[11..13] == [s[11], s[12]] == "00" && s[14..16] == [s[14], s[15]] == "00";
    assert s[17..19] == [s[17], s[18]] == "00" && s[20..23] == [s[20], s[21], s[22]] == "000";
    TwoDigits("00");
    Decimals.NatBounds("000");
    assert Decimals.Pow10(3) == 1000;
  }
}
