/**
 * The two audit stores: the bounded in-memory chain (backoffice/src/server/audit-store.ts) and
 * the append-only table behind it in PostgreSQL (backoffice/src/server/postgres-audit-store.ts).
 */
module AuditStores {
  import opened Wrappers
  import opened AuditChain

  datatype AppendResult =
    | Appended(event: Event)
    | HeadChanged
    | DuplicateId
    | CapacityExhausted
    | NotCanonicalizable
    | BrokenChain

  ghost predicate UniqueIds(events: seq<Event>) {
    forall i, j :: 0 <= i < j < |events| ==> events[i].payload.facts.eventId != events[j].payload.facts.eventId
  }

  predicate HoldsId(events: seq<Event>, eventId: string) {
    exists i :: 0 <= i < |events| && events[i].payload.facts.eventId == eventId
  }

  /** What an append answers, by the guards in the order the store tries them. */
  function AppendAnswer(hash: Hash, capacity: int, events: seq<Event>, source: Source, expectedHead: string)
    : AppendResult
  {
    if Head(events) != expectedHead then HeadChanged
    else if HoldsId(events, source.facts.eventId) then DuplicateId
    else if capacity <= |events| then CapacityExhausted
    else
      var next := BuildEvent(hash, |events| + 1, Head(events), source);
      if next.None? then NotCanonicalizable else Appended(next.value)
  }

  function AppendEvents(hash: Hash, capacity: int, events: seq<Event>, source: Source, expectedHead: string)
    : seq<Event>
  {
    match AppendAnswer(hash, capacity, events, source, expectedHead)
    case Appended(next) => events + [next]
    case _ => events
  }

  /** The in-memory store. */
  class MemoryAuditStore {
    const hash: Hash
    const maxEvents: int
    var events: seq<Event>

    ghost predicate Valid()
      reads this
    {
      Verified(hash, events) && |events| <= maxEvents
    }

    constructor (hash: Hash, maxEvents: int, events: seq<Event>)
      requires Verified(hash, events) && |events| <= maxEvents
      ensures Valid() && this.hash == hash && this.maxEvents == maxEvents && this.events == events
    {
      this.hash, this.maxEvents, this.events := hash, maxEvents, events;
    }

    /** The constructor of the source, which throws when the seed does not fit or is no chain. */
    static method Open(hash: Hash, sources: seq<Source>, maxEvents: int) returns (store: MemoryAuditStore?)
      ensures store != null <==> |sources| <= maxEvents <= MAX_SAFE && Canonicalizable(sources)
      ensures store != null ==>
        fresh(store) && store.Valid() && store.hash == hash && store.maxEvents == maxEvents
        && Builds(hash, sources, store.events)
    {
      if maxEvents < |sources| || MAX_SAFE < maxEvents {
        return null;
      }
      var chain := BuildAuditChain(hash, sources);
      if chain.None? {
        return null;
      }
      BuiltChainVerifies(hash, sources, chain.value);
      store := new MemoryAuditStore(hash, maxEvents, chain.value);
    }

    /** Every read re-verifies the chain; the re-verification never fails. */
    method VerifiedEvents() returns (ok: bool)
      requires Valid()
      ensures ok
    {
      ok := VerifyAuditChain(hash, events);
    }

    method Snapshot() returns (view: seq<Event>, headHash: string)
      requires Valid()
      ensures view == events && Verified(hash, view) && headHash == Head(view)
    {
      var ok := VerifiedEvents();
      return events, Head(events);
    }

    method Append(source: Source, expectedHeadHash: string) returns (result: AppendResult)
      requires Valid()
      modifies this
      ensures Valid()
      ensures result == AppendAnswer(hash, maxEvents, old(events), source, expectedHeadHash)
      ensures events == AppendEvents(hash, maxEvents, old(events), source, expectedHeadHash)
    {
      var ok := VerifiedEvents();
      if !ok { return BrokenChain; }
      var headHash := Head(events);
      if headHash != expectedHeadHash { return HeadChanged; }
      if HoldsId(events, source.facts.eventId) { return DuplicateId; }
      if |events| >= maxEvents { return CapacityExhausted; }
      var next := BuildEvent(hash, |events| + 1, headHash, source);
      if next.None? { return NotCanonicalizable; }
      AppendVerifies(hash, events, next.value);
      events := events + [next.value];
      return Appended(next.value);
    }
  }

  // ---------------------------------------------------------------------------
  // Runs of the in-memory store
  // ---------------------------------------------------------------------------

  datatype Attempt = Attempt(source: Source, expectedHead: string)

  function RunAppends(hash: Hash, capacity: int, events: seq<Event>, attempts: seq<Attempt>): seq<Event>
    decreases |attempts|
  {
    if attempts == [] then events
    else
      RunAppends(hash, capacity,
                 AppendEvents(hash, capacity, events, attempts[0].source, attempts[0].expectedHead), attempts[1..])
  }

  /** Every attempt keeps the chain verified, extended, within capacity and free of repeated ids. */
  lemma AppendKeeps(hash: Hash, capacity: int, events: seq<Event>, attempt: Attempt)
    requires Verified(hash, events) && |events| <= capacity && UniqueIds(events)
    ensures var after := AppendEvents(hash, capacity, events, attempt.source, attempt.expectedHead);
      Verified(hash, after) && |after| <= capacity && UniqueIds(after) && events <= after
  {
    match AppendAnswer(hash, capacity, events, attempt.source, attempt.expectedHead)
    case Appended(next) =>
      AppendVerifies(hash, events, next);
    case _ =>
  }

  /** Over any run each snapshot extends every earlier one, and all of it holds at the end. */
  lemma {:induction false} RunKeeps(hash: Hash, capacity: int, events: seq<Event>, attempts: seq<Attempt>)
    requires Verified(hash, events) && |events| <= capacity && UniqueIds(events)
    ensures var after := RunAppends(hash, capacity, events, attempts);
      Verified(hash, after) && |after| <= capacity && UniqueIds(after) && events <= after
    decreases |attempts|
  {
    if attempts != [] {
      AppendKeeps(hash, capacity, events, attempts[0]);
      RunKeeps(hash, capacity,
               AppendEvents(hash, capacity, events, attempts[0].source, attempts[0].expectedHead), attempts[1..]);
    }
  }

  /**
   * Of several appends that expect the same head, at most one succeeds: a second success, however
   * much later in the run, would exhibit a collision of the hash.
   */
  lemma OneAppendPerHead(hash: Hash, capacity: int, events: seq<Event>, first: Attempt, between: seq<Attempt>,
      second: Attempt)
    requires Verified(hash, events) && |events| <= capacity && UniqueIds(events)
    requires first.expectedHead == second.expectedHead
    requires AppendAnswer(hash, capacity, events, first.source, first.expectedHead).Appended?
    ensures var one := AppendEvents(hash, capacity, events, first.source, first.expectedHead);
      var later := RunAppends(hash, capacity, one, between);
      AppendAnswer(hash, capacity, later, second.source, second.expectedHead).Appended?
      ==> Collides(hash, EventSet(later))
  {
    var one := AppendEvents(hash, capacity, events, first.source, first.expectedHead);
    AppendKeeps(hash, capacity, events, first);
    RunKeeps(hash, capacity, one, between);
    var later := RunAppends(hash, capacity, one, between);
    assert later[..|events|] == one[..|events|] == events;
    assert later[..|later|] == later;
    HeadsDiffer(hash, later, |events|, |later|);
  }

  // ---------------------------------------------------------------------------
  // The stored rows
  // ---------------------------------------------------------------------------

  /** A row keeps the facts and the hashes, but neither the tone nor the member order of the object. */
  datatype Row = Row(
    sequence: int, eventId: string, occurredAt: int, actor: string, action: string, resource: string,
    outcome: string, evidenceDigest: string, previousHash: string, hash: string)

  function OutcomeText(v: Verdict): string {
    match v
    case Recorded => "recorded"
    case Denied => "denied"
    case Reviewed => "reviewed"
  }

  function ParseOutcome(s: string): Option<Verdict> {
    if s == "recorded" then Some(Recorded)
    else if s == "denied" then Some(Denied)
    else if s == "reviewed" then Some(Reviewed)
    else None
  }

  const STORED_ORDER: seq<Member> :=
    [EventId, OccurredAt, Actor, Action, Resource, OutcomeMember, EvidenceDigest]

  function ToRow(e: Event): Row {
    var f := e.payload.facts;
    Row(e.payload.sequence, f.eventId, e.payload.occurredAt, f.actor, f.action, f.resource,
        OutcomeText(f.outcome), f.evidenceDigest, e.payload.previousHash, e.hash)
  }

  /** toAuditEvent: the event is rebuilt in the store's own member order and its hash compared. */
  function ToEvent(hash: Hash, row: Row): Option<Event> {
    var outcome := ParseOutcome(row.outcome);
    if outcome.None? then None
    else
      var facts :=
        Facts(row.eventId, row.actor, row.action, row.resource, outcome.value, row.evidenceDigest, STORED_ORDER);
      var event := BuildEvent(hash, row.sequence, row.previousHash, Source(facts, Some(row.occurredAt)));
      if event.None? || event.value.hash != row.hash then None else event
  }

  function ReadBack(hash: Hash, rows: seq<Row>): Option<seq<Event>> {
    if rows == [] then Some([])
    else
      var first, rest := ToEvent(hash, rows[0]), ReadBack(hash, rows[1..]);
      if first.None? || rest.None? then None else Some([first.value] + rest.value)
  }

  function ToRows(events: seq<Event>): seq<Row> {
    seq(|events|, i requires 0 <= i < |events| => ToRow(events[i]))
  }

  /** The payload the store hashes when it reads a row back. */
  function Reordered(p: Payload): Payload {
    p.(facts := p.facts.(order := STORED_ORDER))
  }

  /** An event as the builder makes it: in range, hashed, and toned by its outcome. */
  predicate Built(hash: Hash, e: Event) {
    1 <= e.payload.sequence <= MAX_SAFE && e.hash == hash(e.payload) && e.tone == ToneOf(e.payload.facts.outcome)
  }

  lemma OutcomeRoundTrip(v: Verdict)
    ensures ParseOutcome(OutcomeText(v)) == Some(v)
  {
  }

  /**
   * A stored event reads back as itself exactly when its object listed its members in the store's
   * order. In any other order it cannot be read back at all, short of a collision of the hash.
   */
  lemma RowRoundTrip(hash: Hash, e: Event)
    requires Built(hash, e)
    ensures ToEvent(hash, ToRow(e)) == Some(e) <==> e.payload.facts.order == STORED_ORDER
    ensures e.payload.facts.order != STORED_ORDER ==>
      ToEvent(hash, ToRow(e)) == None || Clash(hash, Reordered(e.payload), e.payload)
  {
    OutcomeRoundTrip(e.payload.facts.outcome);
  }

  /** The rows of a chain read back, in order, as that chain exactly when every event lists its members so. */
  lemma {:induction false} ChainRoundTrip(hash: Hash, events: seq<Event>)
    requires forall i :: 0 <= i < |events| ==> Built(hash, events[i])
    ensures ReadBack(hash, ToRows(events)) == Some(events)
      <==> forall i :: 0 <= i < |events| ==> events[i].payload.facts.order == STORED_ORDER
  {
    if events != [] {
      ChainRoundTrip(hash, events[1..]);
      RowRoundTrip(hash, events[0]);
      assert ToRows(events)[1..] == ToRows(events[1..]);
      assert events == [events[0]] + events[1..];
      FirstAndRest(events);
    }
  }

  lemma FirstAndRest(events: seq<Event>)
    requires events != []
    ensures (forall i :: 0 <= i < |events| ==> events[i].payload.facts.order == STORED_ORDER)
      <==> && events[0].payload.facts.order == STORED_ORDER
           && forall i :: 0 <= i < |events[1..]| ==> events[1..][i].payload.facts.order == STORED_ORDER
  {
    assert forall i :: 0 < i < |events| ==> events[i] == events[1..][i - 1];
  }

  // ---------------------------------------------------------------------------
  // Appends in fields
  // ---------------------------------------------------------------------------

  /** The head the store shows: the last event's hash, or sixty-four zeros. */
  predicate ShowsHead(events: seq<Event>, head: string) {
    if events == [] then |head| == 64 && forall i :: 0 <= i < 64 ==> head[i] == '0'
    else head == events[|events| - 1].hash
  }

  lemma HeadIsShown(events: seq<Event>, head: string)
    ensures ShowsHead(events, head) <==> Head(events) == head
  {
    if events == [] && ShowsHead(events, head) {
      assert head == GENESIS;
    }
  }

  /** The event an append adds: numbered, linked to the expected head, hashed, toned by its outcome. */
  predicate IsNext(hash: Hash, events: seq<Event>, source: Source, expectedHead: string, e: Event) {
    var p := e.payload;
    && p.sequence == |events| + 1 && p.previousHash == expectedHead && p.facts == source.facts
    && source.occurredAt == Some(p.occurredAt) && e.hash == hash(p)
    && (e.tone.Danger? <==> p.facts.outcome.Denied?) && (e.tone.Info? <==> p.facts.outcome.Reviewed?)
  }

  /**
   * An append succeeds exactly when the head is the expected one, no stored event has its id, there is room,
   * and the event can be canonicalized; it then answers that event and adds it last. Otherwise nothing is
   * added, and the first of these that fails is answered.
   */
  lemma AppendInFields(hash: Hash, capacity: int, events: seq<Event>, source: Source, expectedHead: string)
    ensures var answer := AppendAnswer(hash, capacity, events, source, expectedHead);
      var after := AppendEvents(hash, capacity, events, source, expectedHead);
      var held := exists e :: e in events && e.payload.facts.eventId == source.facts.eventId;
      var fits := source.occurredAt.Some? && |events| + 1 <= 9_007_199_254_740_991;
      && (!ShowsHead(events, expectedHead) ==> answer == HeadChanged)
      && (ShowsHead(events, expectedHead) && held ==> answer == DuplicateId)
      && (ShowsHead(events, expectedHead) && !held && capacity <= |events| ==> answer == CapacityExhausted)
      && (ShowsHead(events, expectedHead) && !held && |events| < capacity && !fits ==> answer == NotCanonicalizable)
      && (ShowsHead(events, expectedHead) && !held && |events| < capacity && fits ==>
          && answer.Appended? && IsNext(hash, events, source, expectedHead, answer.event)
          && after == events + [answer.event])
      && (!answer.Appended? ==> after == events)
  {
    HeadIsShown(events, expectedHead);
    if e :| e in events && e.payload.facts.eventId == source.facts.eventId {
      var i :| 0 <= i < |events| && events[i] == e;
      assert HoldsId(events, source.facts.eventId);
    }
  }
}
