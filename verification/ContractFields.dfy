/**
 * What the views of the operator contract say, field by field, once they are accepted: for each view the
 * wire forms the server takes (backoffice/src/server/customer-api-client.ts) and those the browser takes
 * (backoffice/src/data/operator.ts), in terms of literal vocabularies, references taken apart and instants.
 */
module ContractFields {
  import opened Wrappers
  import opened ContractJson
  import opened ContractPages
  import opened Texts
  import opened Timestamps
  import I = QueueItems
  import Q = QueueContract
  import F = AuditFeedContract

  // ---------------------------------------------------------------------------
  // References and names
  // ---------------------------------------------------------------------------

  /** The prefix, then exactly `n` lower-case hexadecimal digits. */
  predicate Ref(s: string, prefix: string, n: nat) {
    |s| == |prefix| + n && s == prefix + s[|prefix|..] && IsHex(s[|prefix|..], n)
  }

  /** The prefix, then 8 to 32 lower-case letters and digits. */
  predicate NamedRef(s: string, prefix: string) {
    && |prefix| + 8 <= |s| <= |prefix| + 32 && s == prefix + s[|prefix|..]
    && forall i :: |prefix| <= i < |s| ==> 'a' <= s[i] <= 'z' || '0' <= s[i] <= '9'
  }

  predicate Name(s: string) {
    2 <= |s| <= 32 && 'A' <= s[0] <= 'Z' && forall i :: 1 <= i < |s| ==> 'a' <= s[i] <= 'z'
  }

  ghost predicate TwoNames(s: string) {
    exists a, b :: Name(a) && Name(b) && s == a + " " + b
  }

  lemma References(s: string, prefix: string, n: nat)
    ensures HexRef(s, prefix, n) <==> Ref(s, prefix, n)
    ensures NameRef(s, prefix) <==> NamedRef(s, prefix)
  {
    if |prefix| <= |s| {
      HexIsHexDigits(s[|prefix|..], n);
      assert s == s[..|prefix|] + s[|prefix|..];
      assert forall i :: |prefix| <= i < |s| ==> s[i] == s[|prefix|..][i - |prefix|];
    }
  }

  lemma Capitals(s: string)
    ensures Capitalised(s) <==> Name(s)
  {
  }

  lemma NamesApart(a: string, b: string)
    requires Name(a) && Name(b)
    ensures DisplayName(a + " " + b)
  {
    var s := a + " " + b;
    assert s[..|a|] == a && s[|a| + 1..] == b && s[|a|] == ' ';
    Capitals(a);
    Capitals(b);
    assert Capitalised(s[..|a|]) && Capitalised(s[|a| + 1..]);
  }

  lemma NamesTogether(s: string, k: nat)
    requires k < |s| && s[k] == ' ' && Capitalised(s[..k]) && Capitalised(s[k + 1..])
    ensures TwoNames(s)
  {
    Capitals(s[..k]);
    Capitals(s[k + 1..]);
    assert s == s[..k] + " " + s[k + 1..];
  }

  lemma DisplayNames(s: string)
    ensures DisplayName(s) <==> TwoNames(s)
  {
    if DisplayName(s) {
      var k :| 0 <= k < |s| && s[k] == ' ' && Capitalised(s[..k]) && Capitalised(s[k + 1..]);
      NamesTogether(s, k);
    }
    if TwoNames(s) {
      var a, b :| Name(a) && Name(b) && s == a + " " + b;
      NamesApart(a, b);
    }
  }

  // ---------------------------------------------------------------------------
  // The queue
  // ---------------------------------------------------------------------------

  /** An item of a queue: its references and vocabularies, and the instants of its kind. */
  ghost predicate Item(item: I.Item, kind: I.Kind) {
    var c := item.core;
    && NamedRef(c.subjectId, "syn_cust_") && c.priority in {"normal", "high", "urgent"}
    && (c.assignee.Some? ==> NamedRef(c.assignee.value, "syn_oper_")) && 0 <= c.ageMs
    && match item
       case KycItem(_, displayName, submittedAt, slaDueAt) =>
         && kind.Kyc? && Ref(c.queueId, "qky_", 24) && c.state in {"pending", "in_review", "escalated"}
         && TwoNames(displayName) && IsIso(submittedAt) && IsIso(slaDueAt)
         && Instant(submittedAt) < Instant(slaDueAt)
       case AmlItem(_, alertType, evidenceRefs, slaDueAt) =>
         && kind.Aml? && Ref(c.queueId, "qml_", 24) && c.state in {"pending", "in_review", "escalated"}
         && alertType in {"structuring", "velocity", "geo_mismatch"} && 1 <= |evidenceRefs| <= 8
         && (forall i :: 0 <= i < |evidenceRefs| ==> Ref(evidenceRefs[i], "evd_", 24))
         && (forall i, j :: 0 <= i < j < |evidenceRefs| ==> evidenceRefs[i] != evidenceRefs[j]) && IsIso(slaDueAt)
       case TicketItem(_, category, openedAt) =>
         && kind.Tickets? && Ref(c.queueId, "qtick_", 24) && c.state in {"open", "waiting", "escalated"}
         && category in {"question", "operation_problem", "complaint", "data_request"} && IsIso(openedAt)
  }

  lemma ItemsAre(item: I.Item, kind: I.Kind)
    ensures I.ItemStands(item, kind) <==> Item(item, kind)
  {
    References(item.core.queueId, I.QueueIdPrefix(kind), 24);
    References(item.core.subjectId, "syn_cust_", 0);
    if item.core.assignee.Some? {
      References(item.core.assignee.value, "syn_oper_", 0);
    }
    match item
    case KycItem(_, displayName, _, _) => DisplayNames(displayName);
    case AmlItem(_, _, evidenceRefs, _) =>
      forall i | 0 <= i < |evidenceRefs|
        ensures HexRef(evidenceRefs[i], "evd_", 24) <==> Ref(evidenceRefs[i], "evd_", 24)
      {
        References(evidenceRefs[i], "evd_", 24);
      }
    case TicketItem(_, _, _) =>
  }

  /** The age counts from the submission or the opening to the snapshot; an alert's start is not on the wire. */
  predicate AgedTo(item: I.Item, snapshot: int) {
    match item
    case KycItem(core, _, submittedAt, _) => IsIso(submittedAt) && Instant(submittedAt) + core.ageMs == snapshot
    case AmlItem(_, _, _, _) => true
    case TicketItem(core, _, openedAt) => IsIso(openedAt) && Instant(openedAt) + core.ageMs == snapshot
  }

  /** Cases and alerts go by their deadline, tickets by their opening; the smaller reference first among equals. */
  predicate GoesBefore(a: I.Item, b: I.Item) {
    var x, y := if a.TicketItem? then a.openedAt else a.slaDueAt, if b.TicketItem? then b.openedAt else b.slaDueAt;
    && IsIso(x) && IsIso(y)
    && (Instant(x) < Instant(y) || (Instant(x) == Instant(y) && Less(a.core.queueId, b.core.queueId)))
  }

  function InState(items: seq<I.Item>, state: string): set<nat> {
    set i | 0 <= i < |items| && items[i].core.state == state
  }

  lemma {:induction false} CountsAre(items: seq<I.Item>, state: string)
    ensures Q.Count(items, state) == |InState(items, state)|
  {
    if items != [] {
      var last := |items| - 1;
      CountsAre(items[..last], state);
      assert InState(items, state)
          == InState(items[..last], state) + if items[last].core.state == state then {last} else {};
    } else {
      assert InState(items, state) == {};
    }
  }

  ghost predicate Tally(t: Q.Tally, kind: I.Kind, items: seq<I.Item>) {
    match t
    case Reviews(pending, inReview, escalated) =>
      && !kind.Tickets? && pending == |InState(items, "pending")| && inReview == |InState(items, "in_review")|
      && escalated == |InState(items, "escalated")|
    case Conversations(open, waiting, escalated) =>
      && kind.Tickets? && open == |InState(items, "open")| && waiting == |InState(items, "waiting")|
      && escalated == |InState(items, "escalated")|
  }

  lemma TalliesAre(t: Q.Tally, kind: I.Kind, items: seq<I.Item>)
    ensures Q.TallyFitsKind(t, kind) && Q.TallyStands(t, items) <==> Tally(t, kind, items)
  {
    CountsAre(items, "pending");
    CountsAre(items, "in_review");
    CountsAre(items, "escalated");
    CountsAre(items, "open");
    CountsAre(items, "waiting");
  }

  /** The items of a view, whoever reads it: at most 64, each in its grammar, under distinct references, counted. */
  ghost predicate QueueItself(q: Q.Queue) {
    && |q.items| <= 64 && q.count == |q.items| && Tally(q.byState, q.kind, q.items)
    && (forall i :: 0 <= i < |q.items| ==> Item(q.items[i], q.kind))
    && forall i, j :: 0 <= i < j < |q.items| ==> q.items[i].core.queueId != q.items[j].core.queueId
  }

  lemma QueueItselfIs(q: Q.Queue)
    ensures Q.QueueStands(q, None) <==> QueueItself(q)
  {
    TalliesAre(q.byState, q.kind, q.items);
    forall i | 0 <= i < |q.items|
      ensures Q.ItemFits(q.items[i], q.kind, None) <==> Item(q.items[i], q.kind)
    {
      ItemsAre(q.items[i], q.kind);
    }
    assert DistinctBy(Q.QueueId, q.items)
      <==> forall i, j :: 0 <= i < j < |q.items| ==> q.items[i].core.queueId != q.items[j].core.queueId;
  }

  /**
   * The queue in fields. The browser takes the wire form of a view exactly when its items are in their
   * grammar, under distinct references, and counted by the summary; the server exactly when they are also
   * in order, each pair of them, and aged to its snapshot.
   */
  lemma QueueInFields(q: Q.Queue, snapshot: int)
    ensures Q.BrowserQueue(Q.CamelQueue(q)) == Some(q) <==> QueueItself(q)
    ensures Q.ServerQueue(Q.SnakeQueue(q), q.kind, snapshot) == Some(q)
      <==> && QueueItself(q) && (forall i :: 0 <= i < |q.items| ==> AgedTo(q.items[i], snapshot))
           && forall i, j :: 0 <= i < j < |q.items| ==> GoesBefore(q.items[i], q.items[j])
  {
    Q.AcceptedQueuesAreExact(Q.CamelQueue(q), q, snapshot);
    QueueItselfIs(q);
    if Q.ServerQueue(Q.SnakeQueue(q), q.kind, snapshot) == Some(q) {
      ServerQueuesStand(q, snapshot);
    }
    if QueueItself(q) {
      Q.ServerAcceptsWhatBrowserDoes(q, snapshot);
    }
    QueueOrderIs(q.items, snapshot);
  }

  lemma ServerQueuesStand(q: Q.Queue, snapshot: int)
    requires Q.ServerQueue(Q.SnakeQueue(q), q.kind, snapshot) == Some(q)
    ensures Q.BrowserQueue(Q.CamelQueue(q)) == Some(q)
  {
    Q.BrowserAcceptsWhatServerRelays(Q.SnakeQueue(q), q.kind, snapshot);
  }

  lemma QueueOrderIs(items: seq<I.Item>, snapshot: int)
    ensures OrderedBy(Q.Above, items) <==> forall i, j :: 0 <= i < j < |items| ==> GoesBefore(items[i], items[j])
    ensures (forall i :: 0 <= i < |items| ==> I.AgeFits(items[i], snapshot))
      <==> forall i :: 0 <= i < |items| ==> AgedTo(items[i], snapshot)
  {
    forall i | 0 <= i < |items|
      ensures I.AgeFits(items[i], snapshot) <==> AgedTo(items[i], snapshot)
    {
    }
    forall i, j | 0 <= i < j < |items|
      ensures Q.Above(items[i], items[j]) <==> GoesBefore(items[i], items[j])
    {
    }
  }

  // ---------------------------------------------------------------------------
  // The audit feed
  // ---------------------------------------------------------------------------

  /** What each action is done to. */
  const TARGETS := {("session.opened", "session"), ("session.rotated", "session"), ("queue.viewed", "queue_item"),
                    ("subject.viewed", "subject"), ("flag.reviewed", "flag")}

  predicate ItemRef(s: string) {
    Ref(s, "qky_", 24) || Ref(s, "qml_", 24) || Ref(s, "qtick_", 24)
  }

  /** An entry, but for its target's reference. */
  predicate Entry(e: F.Entry, asOf: string) {
    && Ref(e.auditId, "au_", 24) && NamedRef(e.actorSubjectId, "syn_oper_") && Ref(e.detailHash, "adh_", 32)
    && e.actorRole in {"compliance-lead", "support-l1", "aml-investigator", "fraud-investigator", "auditor"}
    && (e.action, e.targetKind) in TARGETS && IsIso(e.at) && IsIso(asOf) && Instant(e.at) <= Instant(asOf)
  }

  /** The server asks for the reference of the target's own kind, the browser for one of any kind. */
  predicate Target(e: F.Entry, side: F.Side) {
    if side.Browser? then
      || Ref(e.targetId, "osn_", 24) || ItemRef(e.targetId) || NamedRef(e.targetId, "syn_cust_")
      || Ref(e.targetId, "flg_", 24)
    else
      && (e.targetKind == "session" ==> Ref(e.targetId, "osn_", 24))
      && (e.targetKind == "queue_item" ==> ItemRef(e.targetId))
      && (e.targetKind == "subject" ==> NamedRef(e.targetId, "syn_cust_"))
      && (e.targetKind == "flag" ==> Ref(e.targetId, "flg_", 24))
  }

  lemma ActionsAre(action: string, kind: string)
    ensures F.TargetKindOf(action) == Some(kind) <==> (action, kind) in TARGETS
  {
  }

  lemma TargetsAre(e: F.Entry)
    requires (e.action, e.targetKind) in TARGETS
    ensures F.TargetOfKind(e.targetKind, e.targetId) <==> Target(e, F.Server)
    ensures F.TargetOfAnyKind(e.targetId) <==> Target(e, F.Browser)
  {
    References(e.targetId, "osn_", 24);
    References(e.targetId, "qky_", 24);
    References(e.targetId, "qml_", 24);
    References(e.targetId, "qtick_", 24);
    References(e.targetId, "syn_cust_", 0);
    References(e.targetId, "flg_", 24);
  }

  lemma EntriesAre(e: F.Entry, asOf: string, side: F.Side)
    ensures F.EntryFits(e, asOf, side) <==> Entry(e, asOf) && Target(e, side)
  {
    References(e.auditId, "au_", 24);
    References(e.actorSubjectId, "syn_oper_", 0);
    References(e.detailHash, "adh_", 32);
    ActionsAre(e.action, e.targetKind);
    if (e.action, e.targetKind) in TARGETS {
      TargetsAre(e);
    }
  }

  /** Newest first: later, or at one instant under the greater reference. */
  predicate ListedAbove(a: F.Entry, b: F.Entry) {
    && IsIso(a.at) && IsIso(b.at)
    && (Instant(b.at) < Instant(a.at) || (Instant(a.at) == Instant(b.at) && Less(b.auditId, a.auditId)))
  }

  ghost predicate Feed(feed: F.Feed, side: F.Side) {
    && IsIso(feed.asOf) && (feed.nextCursor.Some? ==> Ref(feed.nextCursor.value, "auc_", 16))
    && 1 <= |feed.entries| <= 32 && Entries(feed.entries, feed.asOf, side)
  }

  /** Each entry by itself, and every pair of them. */
  ghost predicate Entries(page: seq<F.Entry>, asOf: string, side: F.Side) {
    && (forall i :: 0 <= i < |page| ==> Entry(page[i], asOf) && Target(page[i], side))
    && forall i, j :: 0 <= i < j < |page| ==> page[i].auditId != page[j].auditId && ListedAbove(page[i], page[j])
  }

  lemma PagesAre(page: seq<F.Entry>, asOf: string, side: F.Side)
    ensures F.PageStands(page, asOf, side) <==> Entries(page, asOf, side)
  {
    forall i | 0 <= i < |page|
      ensures F.EntryFits(page[i], asOf, side) <==> Entry(page[i], asOf) && Target(page[i], side)
    {
      EntriesAre(page[i], asOf, side);
    }
    forall i, j | 0 <= i < j < |page|
      ensures F.AuditId(page[i]) != F.AuditId(page[j]) <==> page[i].auditId != page[j].auditId
      ensures F.Above(page[i], page[j]) <==> ListedAbove(page[i], page[j])
    {
    }
  }

  lemma FeedsAre(feed: F.Feed, side: F.Side, pinned: string)
    ensures F.FeedStands(feed, side, pinned) <==> Feed(feed, side) && (side.Server? ==> feed.asOf == pinned)
  {
    PagesAre(feed.entries, feed.asOf, side);
    if feed.nextCursor.Some? {
      References(feed.nextCursor.value, "auc_", 16);
    }
  }

  /**
   * The audit feed in fields: both ends take exactly the wire forms of feeds newest first, under distinct
   * references, with nothing after the instant they are taken at; they differ in the target's reference,
   * and the server pins the instant.
   */
  lemma FeedInFields(feed: F.Feed, pinned: string)
    ensures F.ServerFeed(F.SnakeFeed(feed), pinned) == Some(feed) <==> Feed(feed, F.Server) && feed.asOf == pinned
    ensures F.BrowserFeed(F.CamelFeed(feed)) == Some(feed) <==> Feed(feed, F.Browser)
  {
    F.AcceptedFeedsAreExact(F.SnakeFeed(feed), feed, pinned);
    F.AcceptedFeedsAreExact(F.CamelFeed(feed), feed, pinned);
    FeedsAre(feed, F.Server, pinned);
    FeedsAre(feed, F.Browser, "");
  }
}
