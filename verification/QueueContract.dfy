/**
 * The operator queue of the contract: the server's parser (parseOperatorQueueView in
 * backoffice/src/server/customer-api-client.ts), the camelCase copy the server sends on
 * (backoffice/src/server/server.ts), and the browser's parser of that copy
 * (parseOperatorQueueView in backoffice/src/data/operator.ts).
 */
module QueueContract {
  import opened Wrappers
  import opened ContractJson
  import opened ContractPages
  import opened Texts
  import opened Timestamps
  import opened QueueItems

  datatype Tally =
    | Reviews(pending: int, inReview: int, escalated: int)
    | Conversations(open: int, waiting: int, escalated: int)

  datatype Queue = Queue(kind: Kind, items: seq<Item>, count: int, byState: Tally)

  const MAX_ITEMS := 64

  // ---------------------------------------------------------------------------
  // The view on the wire
  // ---------------------------------------------------------------------------

  function SnakeTally(t: Tally): Raw {
    match t
    case Reviews(pending, inReview, escalated) =>
      Obj(map["pending" := IntRaw(pending), "in_review" := IntRaw(inReview), "escalated" := IntRaw(escalated)])
    case Conversations(open, waiting, escalated) =>
      Obj(map["open" := IntRaw(open), "waiting" := IntRaw(waiting), "escalated" := IntRaw(escalated)])
  }

  /** The server's copy, state by state: only `in_review` is spelled anew. */
  function CamelTally(t: Tally): Raw {
    match t
    case Reviews(pending, inReview, escalated) =>
      Obj(map["pending" := IntRaw(pending), "inReview" := IntRaw(inReview), "escalated" := IntRaw(escalated)])
    case Conversations(open, waiting, escalated) =>
      Obj(map["open" := IntRaw(open), "waiting" := IntRaw(waiting), "escalated" := IntRaw(escalated)])
  }

  function ReadTally(v: Raw, kind: Kind, inReview: string): Option<Tally> {
    if kind.Tickets? then
      if HasExactKeys(v, {"open", "waiting", "escalated"}) && IsInt(v.fields["open"]) && IsInt(v.fields["waiting"])
         && IsInt(v.fields["escalated"])
      then Some(Conversations(v.fields["open"].n.Floor, v.fields["waiting"].n.Floor, v.fields["escalated"].n.Floor))
      else None
    else
      if HasExactKeys(v, {"pending", inReview, "escalated"}) && IsInt(v.fields["pending"]) && IsInt(v.fields[inReview])
         && IsInt(v.fields["escalated"])
      then Some(Reviews(v.fields["pending"].n.Floor, v.fields[inReview].n.Floor, v.fields["escalated"].n.Floor))
      else None
  }

  predicate TallyFitsKind(t: Tally, kind: Kind) {
    t.Conversations? == kind.Tickets?
  }

  lemma TallyRoundTrip(v: Raw, t: Tally, kind: Kind)
    ensures ReadTally(v, kind, "in_review") == Some(t) <==> v == SnakeTally(t) && TallyFitsKind(t, kind)
    ensures ReadTally(v, kind, "inReview") == Some(t) <==> v == CamelTally(t) && TallyFitsKind(t, kind)
  {
    if ReadTally(v, kind, "in_review") == Some(t) {
      assert v.fields == SnakeTally(t).fields;
    }
    if ReadTally(v, kind, "inReview") == Some(t) {
      assert v.fields == CamelTally(t).fields;
    }
  }

  function SnakeQueue(q: Queue): Raw {
    Obj(map["mode" := Str("test"),
            "queue" := Obj(map["kind" := Str(KindText(q.kind)), "items" := Arr(WriteAll(q.items, SnakeItem)),
                               "summary" := Obj(map["count" := IntRaw(q.count), "by_state" := SnakeTally(q.byState)]),
                               "posting" := Str("none")])])
  }

  function CamelQueue(q: Queue): Raw {
    Obj(map["mode" := Str("test"),
            "queue" := Obj(map["kind" := Str(KindText(q.kind)), "items" := Arr(WriteAll(q.items, CamelItem)),
                               "summary" := Obj(map["count" := IntRaw(q.count), "byState" := CamelTally(q.byState)]),
                               "posting" := Str("none")])])
  }

  function ReadKind(v: Raw): Option<Kind> {
    if v == Str("kyc") then Some(Kyc)
    else if v == Str("aml") then Some(Aml)
    else if v == Str("tickets") then Some(Tickets)
    else None
  }

  /** The frame both ends share: mode, kind, posting, and the items and summary still to be read. */
  datatype Frame = Frame(kind: Kind, items: seq<Raw>, count: int, byState: Raw)

  function ReadFrame(v: Raw, byState: string): Option<Frame> {
    if !HasExactKeys(v, {"mode", "queue"}) || v.fields["mode"] != Str("test") then None
    else
      var queue := v.fields["queue"];
      if !HasExactKeys(queue, {"kind", "items", "summary", "posting"}) || ReadKind(queue.fields["kind"]).None?
         || queue.fields["posting"] != Str("none") || !queue.fields["items"].Arr?
      then None
      else
        var summary := queue.fields["summary"];
        if !HasExactKeys(summary, {"count", byState}) || !IsInt(summary.fields["count"]) then None
        else Some(Frame(ReadKind(queue.fields["kind"]).value, queue.fields["items"].items,
                        summary.fields["count"].n.Floor, summary.fields[byState]))
  }

  function FrameRaw(f: Frame, byState: string): Raw {
    Obj(map["mode" := Str("test"),
            "queue" := Obj(map["kind" := Str(KindText(f.kind)), "items" := Arr(f.items),
                               "summary" := Obj(map["count" := IntRaw(f.count), byState := f.byState]),
                               "posting" := Str("none")])])
  }

  lemma FrameIsWritten(v: Raw, byState: string)
    requires ReadFrame(v, byState).Some? && byState != "count"
    ensures FrameRaw(ReadFrame(v, byState).value, byState) == v
  {
    var w := FrameRaw(ReadFrame(v, byState).value, byState);
    var queue := v.fields["queue"];
    assert w.fields["queue"].fields["summary"].fields == queue.fields["summary"].fields;
    assert w.fields["queue"].fields == queue.fields;
    assert w.fields == v.fields;
  }

  lemma FrameReadsBack(f: Frame, byState: string)
    requires byState != "count"
    ensures ReadFrame(FrameRaw(f, byState), byState) == Some(f)
  {
  }

  function ReadSnakeQueue(v: Raw): Option<Queue> {
    var f := ReadFrame(v, "by_state");
    if f.None? || ReadAll(f.value.items, ReadSnakeItem).None?
       || ReadTally(f.value.byState, f.value.kind, "in_review").None?
    then None
    else Some(Queue(f.value.kind, ReadAll(f.value.items, ReadSnakeItem).value, f.value.count,
                    ReadTally(f.value.byState, f.value.kind, "in_review").value))
  }

  function ReadCamelQueue(v: Raw): Option<Queue> {
    var f := ReadFrame(v, "byState");
    if f.None? || ReadAll(f.value.items, ReadCamelItem).None?
       || ReadTally(f.value.byState, f.value.kind, "inReview").None?
    then None
    else Some(Queue(f.value.kind, ReadAll(f.value.items, ReadCamelItem).value, f.value.count,
                    ReadTally(f.value.byState, f.value.kind, "inReview").value))
  }

  lemma SnakeQueueIsExact(v: Raw, q: Queue)
    ensures ReadSnakeQueue(v) == Some(q) <==> v == SnakeQueue(q) && TallyFitsKind(q.byState, q.kind)
  {
    SnakeItemsRoundTrip();
    ListsRoundTrip(q.items, ReadSnakeItem, SnakeItem);
    var frame := Frame(q.kind, WriteAll(q.items, SnakeItem), q.count, SnakeTally(q.byState));
    FrameReadsBack(frame, "by_state");
    assert FrameRaw(frame, "by_state") == SnakeQueue(q);
    TallyRoundTrip(SnakeTally(q.byState), q.byState, q.kind);
    if ReadSnakeQueue(v) == Some(q) {
      var f := ReadFrame(v, "by_state").value;
      FrameIsWritten(v, "by_state");
      ReadListsAreWritten(f.items, ReadSnakeItem, SnakeItem);
      TallyRoundTrip(f.byState, q.byState, q.kind);
    }
  }

  lemma CamelQueueIsExact(v: Raw, q: Queue)
    ensures ReadCamelQueue(v) == Some(q) <==> v == CamelQueue(q) && TallyFitsKind(q.byState, q.kind)
  {
    CamelItemsRoundTrip();
    ListsRoundTrip(q.items, ReadCamelItem, CamelItem);
    var frame := Frame(q.kind, WriteAll(q.items, CamelItem), q.count, CamelTally(q.byState));
    FrameReadsBack(frame, "byState");
    assert FrameRaw(frame, "byState") == CamelQueue(q);
    TallyRoundTrip(CamelTally(q.byState), q.byState, q.kind);
    if ReadCamelQueue(v) == Some(q) {
      var f := ReadFrame(v, "byState").value;
      FrameIsWritten(v, "byState");
      ReadListsAreWritten(f.items, ReadCamelItem, CamelItem);
      TallyRoundTrip(f.byState, q.byState, q.kind);
    }
  }

  // ---------------------------------------------------------------------------
  // What an accepted view is
  // ---------------------------------------------------------------------------

  function QueueId(item: Item): string {
    item.core.queueId
  }

  /** `a` stands above `b`: by the kind's instant, and within one instant by the reference. */
  predicate Above(a: Item, b: Item) {
    IsIso(SortText(a)) && IsIso(SortText(b)) && Earlier(PlaceOf(a), PlaceOf(b))
  }

  /** An item by itself; under the server's snapshot its age is counted to it. */
  predicate ItemFits(item: Item, kind: Kind, snapshot: Option<int>) {
    ItemStands(item, kind) && (snapshot.None? || AgeFits(item, snapshot.value))
  }

  ghost predicate AllFit(page: seq<Item>, kind: Kind, snapshot: Option<int>) {
    forall i :: 0 <= i < |page| ==> ItemFits(page[i], kind, snapshot)
  }

  /** The items of an accepted page; the server, which knows the snapshot, also asks for the kind's order. */
  ghost predicate PageStands(page: seq<Item>, kind: Kind, snapshot: Option<int>) {
    AllFit(page, kind, snapshot) && DistinctBy(QueueId, page) && (snapshot.None? || OrderedBy(Above, page))
  }

  function Count(page: seq<Item>, state: string): nat {
    if page == [] then 0
    else Count(page[..|page| - 1], state) + if page[|page| - 1].core.state == state then 1 else 0
  }

  predicate TallyStands(t: Tally, page: seq<Item>) {
    match t
    case Reviews(pending, inReview, escalated) =>
      pending == Count(page, "pending") && inReview == Count(page, "in_review") && escalated == Count(page, "escalated")
    case Conversations(open, waiting, escalated) =>
      open == Count(page, "open") && waiting == Count(page, "waiting") && escalated == Count(page, "escalated")
  }

  /** An accepted view: an accepted page, and a summary that counts it, as a whole and state by state. */
  ghost predicate QueueStands(q: Queue, snapshot: Option<int>) {
    && |q.items| <= MAX_ITEMS && PageStands(q.items, q.kind, snapshot) && q.count == |q.items|
    && TallyFitsKind(q.byState, q.kind) && TallyStands(q.byState, q.items)
  }

  /** What the server's parser accepts for the kind it asked for, and returns. */
  ghost function ServerQueue(v: Raw, kind: Kind, snapshot: int): Option<Queue> {
    var q := ReadSnakeQueue(v);
    if q.Some? && q.value.kind == kind && QueueStands(q.value, Some(snapshot)) then q else None
  }

  ghost function BrowserQueue(v: Raw): Option<Queue> {
    var q := ReadCamelQueue(v);
    if q.Some? && QueueStands(q.value, None) then q else None
  }

  // ---------------------------------------------------------------------------
  // The loop
  // ---------------------------------------------------------------------------

  function LastText(page: seq<Item>): string {
    if page == [] then "" else SortText(page[|page| - 1])
  }

  function LastId(page: seq<Item>): string {
    if page == [] then "" else page[|page| - 1].core.queueId
  }

  /** The order test: not before the row above, and within one instant by the reference. */
  predicate InOrder(previousText: string, previousId: string, item: Item) {
    !Less(SortText(item), previousText) && (SortText(item) == previousText ==> Less(previousId, item.core.queueId))
  }

  predicate Admits(page: seq<Item>, item: Item, kind: Kind, snapshot: Option<int>) {
    && ItemFits(item, kind, snapshot) && item.core.queueId !in IdsOf(QueueId, page)
    && (snapshot.None? || InOrder(LastText(page), LastId(page), item))
  }

  /** `admits` is the loop's test; named, so that the loop is followed without looking into it. */
  ghost predicate Decides(admits: (seq<Item>, Item) -> bool, kind: Kind, snapshot: Option<int>) {
    forall page, item {:trigger Admits(page, item, kind, snapshot)} ::
      admits(page, item) <==> Admits(page, item, kind, snapshot)
  }

  lemma OrderTestIsPlace(page: seq<Item>, item: Item)
    requires IsIso(SortText(item)) && (page == [] || IsIso(SortText(page[|page| - 1])))
    ensures InOrder(LastText(page), LastId(page), item) <==> (page != [] ==> Above(page[|page| - 1], item))
  {
    if page != [] {
      OrderOfTextsIsOrderOfInstants(SortText(item), SortText(page[|page| - 1]));
    }
  }

  lemma AboveIsTransitive()
    ensures Transitive(Above)
  {
    forall a, b, c | Above(a, b) && Above(b, c)
      ensures Above(a, c)
    {
      EarlierIsTransitive(PlaceOf(a), PlaceOf(b), PlaceOf(c));
    }
  }

  lemma FitExtends(page: seq<Item>, item: Item, kind: Kind, snapshot: Option<int>)
    requires AllFit(page, kind, snapshot)
    ensures AllFit(page + [item], kind, snapshot) <==> ItemFits(item, kind, snapshot)
  {
    assert (page + [item])[|page|] == item;
  }

  lemma FitsSorts(page: seq<Item>, kind: Kind, snapshot: Option<int>, i: nat)
    requires AllFit(page, kind, snapshot) && i < |page|
    ensures IsIso(SortText(page[i]))
  {
    assert ItemFits(page[i], kind, snapshot);
  }

  /** One more item stands with the page before it exactly when the loop admits it. */
  lemma Extend(page: seq<Item>, item: Item, kind: Kind, snapshot: Option<int>)
    requires PageStands(page, kind, snapshot)
    ensures PageStands(page + [item], kind, snapshot) <==> Admits(page, item, kind, snapshot)
  {
    FitExtends(page, item, kind, snapshot);
    IdsStayDistinct(QueueId, page, item);
    if snapshot.Some? && ItemFits(item, kind, snapshot) {
      if page != [] {
        FitsSorts(page, kind, snapshot, |page| - 1);
      }
      OrderTestIsPlace(page, item);
      AboveIsTransitive();
      OrderExtends(Above, page, item);
    }
  }

  lemma PrefixStands(page: seq<Item>, more: seq<Item>, kind: Kind, snapshot: Option<int>)
    requires PageStands(page + more, kind, snapshot)
    ensures PageStands(page, kind, snapshot)
  {
    PrefixKeeps(Above, QueueId, page, more);
    forall i | 0 <= i < |page|
      ensures ItemFits(page[i], kind, snapshot)
    {
      assert (page + more)[i] == page[i];
    }
  }

  ghost function AcceptedPage(items: seq<Raw>, read: Raw -> Option<Item>, kind: Kind, snapshot: Option<int>)
    : Option<seq<Item>>
  {
    Accepted(items, read, page => PageStands(page, kind, snapshot))
  }

  /** The loop accepts exactly the lists that stand, and returns them. */
  lemma ScanAcceptsStandingPages(
      items: seq<Raw>, read: Raw -> Option<Item>, kind: Kind, snapshot: Option<int>, admits: (seq<Item>, Item) -> bool)
    requires Decides(admits, kind, snapshot)
    ensures Scan(items, read, admits, []) == AcceptedPage(items, read, kind, snapshot)
  {
    var stands := (page: seq<Item>) => PageStands(page, kind, snapshot);
    forall page, next | stands(page)
      ensures stands(page + [next]) <==> admits(page, next)
    {
      Extend(page, next, kind, snapshot);
    }
    forall page, more | stands(page + more)
      ensures stands(page)
    {
      PrefixStands(page, more, kind, snapshot);
    }
    ScanAcceptsStandingLists(items, read, admits, stands);
  }

  // ---------------------------------------------------------------------------
  // The tallies
  // ---------------------------------------------------------------------------

  /** The browser tallies under the spelling of its own summary. */
  function StateKey(state: string): string {
    if state == "in_review" then "inReview" else state
  }

  function KeyCount(page: seq<Item>, key: string): nat {
    if page == [] then 0
    else KeyCount(page[..|page| - 1], key) + if StateKey(page[|page| - 1].core.state) == key then 1 else 0
  }

  lemma {:induction false} KeysCountStates(page: seq<Item>, state: string)
    requires state != "inReview" && forall i :: 0 <= i < |page| ==> page[i].core.state != "inReview"
    ensures KeyCount(page, StateKey(state)) == Count(page, state)
  {
    if page != [] {
      KeysCountStates(page[..|page| - 1], state);
    }
  }

  function TallyAt(tallied: map<string, int>, key: string): int {
    if key in tallied then tallied[key] else 0
  }

  ghost predicate TalliesStates(tallied: map<string, int>, page: seq<Item>) {
    forall state :: TallyAt(tallied, state) == Count(page, state)
  }

  ghost predicate TalliesKeys(tallied: map<string, int>, page: seq<Item>) {
    forall key :: TallyAt(tallied, key) == KeyCount(page, key)
  }

  lemma OneMoreTallied(tallied: map<string, int>, page: seq<Item>, item: Item)
    ensures var state := item.core.state;
      TalliesStates(tallied, page) ==> TalliesStates(tallied[state := TallyAt(tallied, state) + 1], page + [item])
    ensures var key := StateKey(item.core.state);
      TalliesKeys(tallied, page) ==> TalliesKeys(tallied[key := TallyAt(tallied, key) + 1], page + [item])
  {
    var after := page + [item];
    assert after[|page|] == item && after[..|page|] == page;
    assert forall state :: Count(after, state) == Count(page, state) + if item.core.state == state then 1 else 0;
    assert forall key ::
        KeyCount(after, key) == KeyCount(page, key) + if StateKey(item.core.state) == key then 1 else 0;
  }

  lemma StatesAreKnown(page: seq<Item>, kind: Kind, snapshot: Option<int>)
    requires AllFit(page, kind, snapshot)
    ensures forall i :: 0 <= i < |page| ==> page[i].core.state in States(kind)
  {
    forall i | 0 <= i < |page|
      ensures page[i].core.state in States(kind)
    {
      assert ItemFits(page[i], kind, snapshot);
    }
  }

  /** The states of an accepted view count every item once. */
  lemma {:induction false} StatesPartitionThePage(page: seq<Item>, kind: Kind)
    requires forall i :: 0 <= i < |page| ==> page[i].core.state in States(kind)
    ensures kind.Tickets? ==> Count(page, "open") + Count(page, "waiting") + Count(page, "escalated") == |page|
    ensures !kind.Tickets? ==> Count(page, "pending") + Count(page, "in_review") + Count(page, "escalated") == |page|
  {
    if page != [] {
      StatesPartitionThePage(page[..|page| - 1], kind);
      assert page[|page| - 1].core.state in States(kind);
    }
  }

  // ---------------------------------------------------------------------------
  // The parsers
  // ---------------------------------------------------------------------------

  /** The tests of one round on the server. */
  method ServerRow(raw: Raw, kind: Kind, snapshot: int, seen: set<string>,
                   previousInstant: string, previousQueueId: string,
                   ghost page: seq<Item>, ghost admits: (seq<Item>, Item) -> bool)
    returns (row: Option<Item>)
    requires Decides(admits, kind, Some(snapshot))
    requires seen == IdsOf(QueueId, page) && previousInstant == LastText(page) && previousQueueId == LastId(page)
    ensures row == Row(raw, ReadSnakeItem, admits, page)
  {
    row := ReadSnakeItem(raw);
    if row.Some? {
      assert admits(page, row.value) <==> Admits(page, row.value, kind, Some(snapshot));
      if !ItemFits(row.value, kind, Some(snapshot)) || row.value.core.queueId in seen
         || !InOrder(previousInstant, previousQueueId, row.value) {
        row := None;
      }
    }
  }

  method ServerParseItems(items: seq<Raw>, kind: Kind, snapshot: int, ghost admits: (seq<Item>, Item) -> bool)
    returns (page: Option<seq<Item>>, tallied: map<string, int>)
    requires Decides(admits, kind, Some(snapshot))
    ensures page == Scan(items, ReadSnakeItem, admits, [])
    ensures page.Some? ==> TalliesStates(tallied, page.value)
  {
    var seen: set<string> := {};
    var collected: seq<Item> := [];
    var previousInstant, previousQueueId := "", "";
    var index := 0;
    tallied := map[];
    while index < |items|
      invariant 0 <= index <= |items| && seen == IdsOf(QueueId, collected)
      invariant previousInstant == LastText(collected) && previousQueueId == LastId(collected)
      invariant TalliesStates(tallied, collected)
      invariant Scan(items[index..], ReadSnakeItem, admits, collected) == Scan(items, ReadSnakeItem, admits, [])
    {
      Round(items, index, ReadSnakeItem, admits, collected);
      var row := ServerRow(items[index], kind, snapshot, seen, previousInstant, previousQueueId, collected, admits);
      if row.None? {
        return None, tallied;
      }
      var item := row.value;
      OneMoreId(QueueId, collected, item);
      OneMoreTallied(tallied, collected, item);
      seen := seen + {item.core.queueId};
      previousInstant := SortText(item);
      previousQueueId := item.core.queueId;
      tallied := tallied[item.core.state := TallyAt(tallied, item.core.state) + 1];
      collected := collected + [item];
      index := index + 1;
    }
    page := Some(collected);
  }

  predicate SummaryFits(t: Tally, tallied: map<string, int>, inReview: string) {
    match t
    case Reviews(pending, reviewed, escalated) =>
      && pending == TallyAt(tallied, "pending") && reviewed == TallyAt(tallied, inReview)
      && escalated == TallyAt(tallied, "escalated")
    case Conversations(open, waiting, escalated) =>
      && open == TallyAt(tallied, "open") && waiting == TallyAt(tallied, "waiting")
      && escalated == TallyAt(tallied, "escalated")
  }

  /** The tests around the loop, given what the loop returns. */
  lemma ServerVerdict(v: Raw, kind: Kind, snapshot: int)
    ensures ReadFrame(v, "by_state").None? ==> ServerQueue(v, kind, snapshot).None?
    ensures ReadFrame(v, "by_state").Some? ==>
      var f := ReadFrame(v, "by_state").value;
      var page := AcceptedPage(f.items, ReadSnakeItem, kind, Some(snapshot));
      var tally := ReadTally(f.byState, f.kind, "in_review");
      ServerQueue(v, kind, snapshot)
        == if f.kind != kind || MAX_ITEMS < |f.items| || page.None? || tally.None? || f.count != |page.value|
              || !TallyStands(tally.value, page.value)
           then None
           else Some(Queue(kind, page.value, f.count, tally.value))
  {
    if ReadFrame(v, "by_state").Some? {
      ReadAllItems(ReadFrame(v, "by_state").value.items, ReadSnakeItem);
    }
  }

  method ServerParseQueue(v: Raw, kind: Kind, snapshot: int) returns (parsed: Option<Queue>)
    ensures parsed == ServerQueue(v, kind, snapshot)
  {
    ServerVerdict(v, kind, snapshot);
    var frame := ReadFrame(v, "by_state");
    if frame.None? || frame.value.kind != kind || MAX_ITEMS < |frame.value.items| {
      return None;
    }
    ghost var admits := (page, item) => Admits(page, item, kind, Some(snapshot));
    var page, tallied := ServerParseItems(frame.value.items, kind, snapshot, admits);
    ScanAcceptsStandingPages(frame.value.items, ReadSnakeItem, kind, Some(snapshot), admits);
    var tally := ReadTally(frame.value.byState, kind, "in_review");
    if page.None? || tally.None? || frame.value.count != |page.value|
       || !SummaryFits(tally.value, tallied, "in_review") {
      return None;
    }
    return Some(Queue(kind, page.value, frame.value.count, tally.value));
  }

  method BrowserRow(raw: Raw, kind: Kind, seen: set<string>,
                    ghost page: seq<Item>, ghost admits: (seq<Item>, Item) -> bool)
    returns (row: Option<Item>)
    requires Decides(admits, kind, None) && seen == IdsOf(QueueId, page)
    ensures row == Row(raw, ReadCamelItem, admits, page)
  {
    row := ReadCamelItem(raw);
    if row.Some? {
      assert admits(page, row.value) <==> Admits(page, row.value, kind, None);
      if !ItemFits(row.value, kind, None) || row.value.core.queueId in seen {
        row := None;
      }
    }
  }

  method BrowserParseItems(items: seq<Raw>, kind: Kind, ghost admits: (seq<Item>, Item) -> bool)
    returns (page: Option<seq<Item>>, tallied: map<string, int>)
    requires Decides(admits, kind, None)
    ensures page == Scan(items, ReadCamelItem, admits, [])
    ensures page.Some? ==> TalliesKeys(tallied, page.value)
  {
    var seen: set<string> := {};
    var collected: seq<Item> := [];
    var index := 0;
    tallied := map[];
    while index < |items|
      invariant 0 <= index <= |items| && seen == IdsOf(QueueId, collected)
      invariant TalliesKeys(tallied, collected)
      invariant Scan(items[index..], ReadCamelItem, admits, collected) == Scan(items, ReadCamelItem, admits, [])
    {
      Round(items, index, ReadCamelItem, admits, collected);
      var row := BrowserRow(items[index], kind, seen, collected, admits);
      if row.None? {
        return None, tallied;
      }
      var item := row.value;
      OneMoreId(QueueId, collected, item);
      OneMoreTallied(tallied, collected, item);
      seen := seen + {item.core.queueId};
      var tallyKey := StateKey(item.core.state);
      tallied := tallied[tallyKey := TallyAt(tallied, tallyKey) + 1];
      collected := collected + [item];
      index := index + 1;
    }
    page := Some(collected);
  }

  /** On an accepted page the browser's tallies, under its own spelling, are the counts of the states. */
  lemma KeysAreStates(page: seq<Item>, kind: Kind, tally: Tally, tallied: map<string, int>)
    requires AllFit(page, kind, None)
    requires TalliesKeys(tallied, page)
    ensures SummaryFits(tally, tallied, "inReview") <==> TallyStands(tally, page)
  {
    StatesAreKnown(page, kind, None);
    KeysCountStates(page, "pending");
    KeysCountStates(page, "in_review");
    KeysCountStates(page, "escalated");
    KeysCountStates(page, "open");
    KeysCountStates(page, "waiting");
  }

  lemma BrowserVerdict(v: Raw)
    ensures ReadFrame(v, "byState").None? ==> BrowserQueue(v).None?
    ensures ReadFrame(v, "byState").Some? ==>
      var f := ReadFrame(v, "byState").value;
      var page := AcceptedPage(f.items, ReadCamelItem, f.kind, None);
      var tally := ReadTally(f.byState, f.kind, "inReview");
      && (page.Some? ==> AllFit(page.value, f.kind, None))
      && BrowserQueue(v)
        == if MAX_ITEMS < |f.items| || page.None? || tally.None? || f.count != |page.value|
              || !TallyStands(tally.value, page.value)
           then None
           else Some(Queue(f.kind, page.value, f.count, tally.value))
  {
    if ReadFrame(v, "byState").Some? {
      ReadAllItems(ReadFrame(v, "byState").value.items, ReadCamelItem);
    }
  }

  method BrowserParseQueue(v: Raw) returns (parsed: Option<Queue>)
    ensures parsed == BrowserQueue(v)
  {
    BrowserVerdict(v);
    var frame := ReadFrame(v, "byState");
    if frame.None? || MAX_ITEMS < |frame.value.items| {
      return None;
    }
    var kind := frame.value.kind;
    ghost var admits := (page, item) => Admits(page, item, kind, None);
    var page, tallied := BrowserParseItems(frame.value.items, kind, admits);
    ScanAcceptsStandingPages(frame.value.items, ReadCamelItem, kind, None, admits);
    var tally := ReadTally(frame.value.byState, kind, "inReview");
    if page.None? || tally.None? || frame.value.count != |page.value| {
      return None;
    }
    KeysAreStates(page.value, kind, tally.value, tallied);
    if !SummaryFits(tally.value, tallied, "inReview") {
      return None;
    }
    return Some(Queue(kind, page.value, frame.value.count, tally.value));
  }

  // ---------------------------------------------------------------------------
  // Results
  // ---------------------------------------------------------------------------

  /** Both parsers read exactly the wire form of what they accept: nothing is dropped or made up. */
  lemma AcceptedQueuesAreExact(v: Raw, q: Queue, snapshot: int)
    ensures ServerQueue(v, q.kind, snapshot) == Some(q) <==> v == SnakeQueue(q) && QueueStands(q, Some(snapshot))
    ensures BrowserQueue(v) == Some(q) <==> v == CamelQueue(q) && QueueStands(q, None)
  {
    SnakeQueueIsExact(v, q);
    CamelQueueIsExact(v, q);
  }

  /**
   * A view the server accepts, copied out in camelCase, is accepted by the browser as the same view, for
   * every kind.
   */
  lemma BrowserAcceptsWhatServerRelays(v: Raw, kind: Kind, snapshot: int)
    requires ServerQueue(v, kind, snapshot).Some?
    ensures BrowserQueue(CamelQueue(ServerQueue(v, kind, snapshot).value)) == ServerQueue(v, kind, snapshot)
  {
    var q := ServerQueue(v, kind, snapshot).value;
    CamelQueueIsExact(CamelQueue(q), q);
    WithoutSnapshot(q.items, kind, snapshot);
  }

  /**
   * The converse: of the views the browser accepts, the server, asked for their kind, accepts exactly those
   * in the kind's order whose ages are counted to its snapshot.
   */
  lemma ServerAcceptsWhatBrowserDoes(q: Queue, snapshot: int)
    requires BrowserQueue(CamelQueue(q)) == Some(q)
    ensures ServerQueue(SnakeQueue(q), q.kind, snapshot) == Some(q)
      <==> OrderedBy(Above, q.items) && forall i :: 0 <= i < |q.items| ==> AgeFits(q.items[i], snapshot)
  {
    AcceptedQueuesAreExact(CamelQueue(q), q, snapshot);
    AcceptedQueuesAreExact(SnakeQueue(q), q, snapshot);
    forall i | 0 <= i < |q.items|
      ensures ItemFits(q.items[i], q.kind, Some(snapshot)) <==> AgeFits(q.items[i], snapshot)
    {
      assert ItemFits(q.items[i], q.kind, None);
    }
  }

  lemma WithoutSnapshot(page: seq<Item>, kind: Kind, snapshot: int)
    requires PageStands(page, kind, Some(snapshot))
    ensures PageStands(page, kind, None)
  {
    forall i | 0 <= i < |page|
      ensures ItemFits(page[i], kind, None)
    {
      assert ItemFits(page[i], kind, Some(snapshot));
    }
  }

  /** The summary of an accepted view adds up, and on the server the page is in order throughout. */
  lemma AcceptedQueuesAddUp(q: Queue, snapshot: Option<int>)
    requires QueueStands(q, snapshot)
    ensures match q.byState
      case Reviews(pending, inReview, escalated) => pending + inReview + escalated == q.count
      case Conversations(open, waiting, escalated) => open + waiting + escalated == q.count
    ensures forall i, j :: 0 <= i < j < |q.items| && snapshot.Some? ==> Above(q.items[i], q.items[j])
  {
    StatesAreKnown(q.items, q.kind, snapshot);
    StatesPartitionThePage(q.items, q.kind);
  }
}
