/**
 * The audit hash chain: building it, verifying it, and what a verified chain's head says about
 * its events (backoffice/src/server/controls.ts).
 *
 * The hash is any function of the hashed payload, a parameter of everything here. No property of
 * it is assumed: where one would be needed, the result names the two payloads that collide.
 */
module AuditChain {
  import opened Texts
  import opened Wrappers

  datatype Verdict = Recorded | Denied | Reviewed

  datatype Tone = Danger | Info | Success

  /** The members of an event, in the order an object literal may list them. */
  datatype Member = EventId | OccurredAt | Actor | Action | Resource | OutcomeMember | EvidenceDigest

  /** What happened; `order` is the member order of the object, which the hashed JSON text shows. */
  datatype Facts = Facts(
    eventId: string,
    actor: string,
    action: string,
    resource: string,
    outcome: Verdict,
    evidenceDigest: string,
    order: seq<Member>)

  /** An event to append. `occurredAt` is the instant its text names, None when it names none. */
  datatype Source = Source(facts: Facts, occurredAt: Option<int>)

  /** The object whose JSON text is hashed; the instant is written in its one canonical form. */
  datatype Payload = Payload(sequence: int, previousHash: string, facts: Facts, occurredAt: int)

  datatype Event = Event(payload: Payload, hash: string, tone: Tone)

  type Hash = Payload -> string

  const GENESIS: string := Zeros(64)

  function ToneOf(outcome: Verdict): Tone {
    match outcome
    case Denied => Danger
    case Reviewed => Info
    case Recorded => Success
  }

  /** buildAuditEvent: None where the source throws. */
  function BuildEvent(hash: Hash, sequence: int, previousHash: string, source: Source): Option<Event> {
    if sequence < 1 || MAX_SAFE < sequence || source.occurredAt.None? then None
    else
      var payload := Payload(sequence, previousHash, source.facts, source.occurredAt.value);
      Some(Event(payload, hash(payload), ToneOf(source.facts.outcome)))
  }

  function Head(events: seq<Event>): string {
    if events == [] then GENESIS else events[|events| - 1].hash
  }

  /** The event at `i` carries its position, the hash of the one before it, and its own hash. */
  predicate LinkedAt(hash: Hash, events: seq<Event>, i: nat)
    requires i < |events|
  {
    && events[i].payload.sequence == i + 1
    && events[i].payload.previousHash == Head(events[..i])
    && hash(events[i].payload) == events[i].hash
  }

  ghost predicate Verified(hash: Hash, events: seq<Event>) {
    forall i: nat :: i < |events| ==> LinkedAt(hash, events, i)
  }

  /** Every source can be made into an event. */
  predicate Canonicalizable(sources: seq<Source>) {
    |sources| <= MAX_SAFE && forall i :: 0 <= i < |sources| ==> sources[i].occurredAt.Some?
  }

  /** The event at `i` was built from the source at `i`, on top of the events before it. */
  predicate BuiltAt(hash: Hash, sources: seq<Source>, chain: seq<Event>, i: nat)
    requires i < |sources| && i < |chain|
  {
    BuildEvent(hash, i + 1, Head(chain[..i]), sources[i]) == Some(chain[i])
  }

  /** `chain` is the sources turned into events one after the other, each linked to the one before. */
  ghost predicate Builds(hash: Hash, sources: seq<Source>, chain: seq<Event>) {
    |chain| == |sources| && forall i: nat :: i < |sources| ==> BuiltAt(hash, sources, chain, i)
  }

  lemma BuildsOneMore(hash: Hash, sources: seq<Source>, chain: seq<Event>, source: Source, next: Event)
    requires Builds(hash, sources, chain)
    requires BuildEvent(hash, |chain| + 1, Head(chain), source) == Some(next)
    ensures Builds(hash, sources + [source], chain + [next])
  {
    forall i: nat | i < |chain| + 1
      ensures BuiltAt(hash, sources + [source], chain + [next], i)
    {
      assert (chain + [next])[..i] == chain[..i];
      if i < |chain| {
        assert BuiltAt(hash, sources, chain, i);
      } else {
        assert chain[..i] == chain;
      }
    }
  }

  /** A built chain verifies. */
  lemma BuiltChainVerifies(hash: Hash, sources: seq<Source>, chain: seq<Event>)
    requires Builds(hash, sources, chain)
    ensures Verified(hash, chain)
  {
    forall i: nat | i < |chain|
      ensures LinkedAt(hash, chain, i)
    {
      assert BuiltAt(hash, sources, chain, i);
    }
  }

  method BuildAuditChain(hash: Hash, sources: seq<Source>) returns (chain: Option<seq<Event>>)
    ensures chain.Some? <==> Canonicalizable(sources)
    ensures chain.Some? ==> Builds(hash, sources, chain.value)
  {
    var previousHash := GENESIS;
    var events: seq<Event> := [];
    var index := 0;
    while index < |sources|
      invariant 0 <= index <= |sources| && index <= MAX_SAFE && |events| == index
      invariant previousHash == Head(events)
      invariant Builds(hash, sources[..index], events)
      invariant forall i :: 0 <= i < index ==> sources[i].occurredAt.Some?
    {
      var chained := BuildEvent(hash, index + 1, previousHash, sources[index]);
      if chained.None? {
        return None;
      }
      BuildsOneMore(hash, sources[..index], events, sources[index], chained.value);
      assert sources[..index + 1] == sources[..index] + [sources[index]];
      previousHash := chained.value.hash;
      events := events + [chained.value];
      index := index + 1;
    }
    assert sources[..index] == sources;
    return Some(events);
  }

  /** The verifier, threading the previous hash through its loop. */
  method VerifyAuditChain(hash: Hash, events: seq<Event>) returns (ok: bool)
    ensures ok <==> Verified(hash, events)
  {
    var previousHash := GENESIS;
    var index := 0;
    while index < |events|
      invariant 0 <= index <= |events|
      invariant previousHash == Head(events[..index])
      invariant Verified(hash, events[..index])
    {
      var event := events[index];
      assert LinkedAt(hash, events, index)
        <==> !(event.payload.sequence != index + 1 || event.payload.previousHash != previousHash
               || hash(event.payload) != event.hash);
      if event.payload.sequence != index + 1 || event.payload.previousHash != previousHash
         || hash(event.payload) != event.hash {
        return false;
      }
      AppendVerifies(hash, events[..index], event);
      assert events[..index + 1] == events[..index] + [event];
      previousHash := event.hash;
      index := index + 1;
    }
    assert events[..index] == events;
    return true;
  }

  /** A chain with one more linked event verifies. */
  lemma AppendVerifies(hash: Hash, events: seq<Event>, next: Event)
    requires Verified(hash, events)
    requires next.payload.sequence == |events| + 1 && next.payload.previousHash == Head(events)
    requires hash(next.payload) == next.hash
    ensures Verified(hash, events + [next])
  {
    var longer := events + [next];
    forall i: nat | i < |longer|
      ensures LinkedAt(hash, longer, i)
    {
      assert longer[..i] == events[..i];
      if i < |events| {
        assert LinkedAt(hash, events, i);
      } else {
        assert events[..i] == events;
      }
    }
  }

  lemma PrefixVerifies(hash: Hash, events: seq<Event>, n: nat)
    requires Verified(hash, events) && n <= |events|
    ensures Verified(hash, events[..n])
  {
    forall i: nat | i < n
      ensures LinkedAt(hash, events[..n], i)
    {
      assert LinkedAt(hash, events, i);
      assert events[..n][..i] == events[..i];
    }
  }

  // ---------------------------------------------------------------------------
  // The head settles the chain
  // ---------------------------------------------------------------------------

  /** Two events agree in everything but their tone, which the hash does not cover. */
  predicate SameButTone(a: Event, b: Event) {
    a.payload == b.payload && a.hash == b.hash
  }

  ghost predicate SameChain(a: seq<Event>, b: seq<Event>) {
    |a| == |b| && forall i :: 0 <= i < |a| ==> SameButTone(a[i], b[i])
  }

  /** Two payloads that hash alike, or one that hashes to the genesis constant. */
  predicate Clash(hash: Hash, a: Payload, b: Payload) {
    (a != b && hash(a) == hash(b)) || hash(a) == GENESIS
  }

  ghost predicate Collides(hash: Hash, events: set<Event>) {
    exists a, b :: a in events && b in events && Clash(hash, a.payload, b.payload)
  }

  function EventSet(events: seq<Event>): set<Event> {
    set e | e in events
  }

  lemma CollidesMore(hash: Hash, few: set<Event>, many: set<Event>)
    requires few <= many && Collides(hash, few)
    ensures Collides(hash, many)
  {
    var a, b :| a in few && b in few && Clash(hash, a.payload, b.payload);
    assert a in many && b in many;
  }

  /**
   * Two verified chains with the same head hash are the same chain, tones apart, or they exhibit
   * a collision of the hash.
   */
  lemma {:induction false} HeadSettlesChain(hash: Hash, a: seq<Event>, b: seq<Event>)
    requires Verified(hash, a) && Verified(hash, b) && Head(a) == Head(b)
    ensures SameChain(a, b) || Collides(hash, EventSet(a) + EventSet(b))
    decreases |a| + |b|
  {
    assert a != [] ==> LinkedAt(hash, a, |a| - 1);
    assert b != [] ==> LinkedAt(hash, b, |b| - 1);
    if a != [] && b != [] {
      var x, y := a[|a| - 1], b[|b| - 1];
      if x.payload == y.payload {
        PrefixVerifies(hash, a, |a| - 1);
        PrefixVerifies(hash, b, |b| - 1);
        HeadSettlesChain(hash, a[..|a| - 1], b[..|b| - 1]);
        LastAgrees(hash, a, b);
      } else {
        ClashIn(hash, a, b, x, y);
      }
    } else if b != [] {
      ClashIn(hash, b, a, b[|b| - 1], b[|b| - 1]);
      assert EventSet(b) + EventSet(a) == EventSet(a) + EventSet(b);
    } else if a != [] {
      ClashIn(hash, a, b, a[|a| - 1], a[|a| - 1]);
    }
  }

  lemma ClashIn(hash: Hash, a: seq<Event>, b: seq<Event>, x: Event, y: Event)
    requires x in EventSet(a) + EventSet(b) && y in EventSet(a) + EventSet(b) && Clash(hash, x.payload, y.payload)
    ensures Collides(hash, EventSet(a) + EventSet(b))
  {
  }

  lemma LastAgrees(hash: Hash, a: seq<Event>, b: seq<Event>)
    requires a != [] && b != [] && SameButTone(a[|a| - 1], b[|b| - 1])
    requires var a', b' := a[..|a| - 1], b[..|b| - 1];
      SameChain(a', b') || Collides(hash, EventSet(a') + EventSet(b'))
    ensures SameChain(a, b) || Collides(hash, EventSet(a) + EventSet(b))
  {
    var a', b' := a[..|a| - 1], b[..|b| - 1];
    if SameChain(a', b') {
      forall i | 0 <= i < |a|
        ensures SameButTone(a[i], b[i])
      {
        if i < |a| - 1 {
          assert SameButTone(a'[i], b'[i]);
        }
      }
    } else {
      CollidesMore(hash, EventSet(a') + EventSet(b'), EventSet(a) + EventSet(b));
    }
  }

  /** No two positions of one verified chain share a head, short of a collision. */
  lemma HeadsDiffer(hash: Hash, events: seq<Event>, n: nat, m: nat)
    requires Verified(hash, events) && n < m <= |events|
    ensures Head(events[..n]) != Head(events[..m]) || Collides(hash, EventSet(events))
  {
    if Head(events[..n]) == Head(events[..m]) {
      PrefixVerifies(hash, events, n);
      PrefixVerifies(hash, events, m);
      HeadSettlesChain(hash, events[..n], events[..m]);
      CollidesMore(hash, EventSet(events[..n]) + EventSet(events[..m]), EventSet(events));
    }
  }
}
