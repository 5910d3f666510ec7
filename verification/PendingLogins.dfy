/**
 * The store of logins in flight: an insertion-ordered map of expiring entries
 * (backoffice/src/server/session.ts), and the login and callback handlers that use it
 * (backoffice/src/server/server.ts).
 */
module PendingLogins {
  import opened Wrappers

  datatype PendingLogin = PendingLogin(
    nonce: string, verifier: string, initiator: string, previousSession: Option<string>, expiresAt: int)

  /** One entry of the map; the map is the sequence of its entries in insertion order. */
  datatype Entry = Entry(key: string, value: PendingLogin)

  datatype Filter = ByInitiator(initiator: string) | Everyone

  predicate Matches(f: Filter, v: PendingLogin) {
    match f
    case ByInitiator(initiator) => v.initiator == initiator
    case Everyone => true
  }

  const MAX_PER_INITIATOR: nat := 2
  const MAX_PENDING: nat := 256

  // ---------------------------------------------------------------------------
  // The map
  // ---------------------------------------------------------------------------

  predicate HasKey(es: seq<Entry>, key: string) {
    exists i :: 0 <= i < |es| && es[i].key == key
  }

  ghost predicate DistinctKeys(es: seq<Entry>) {
    forall i, j :: 0 <= i < j < |es| ==> es[i].key != es[j].key
  }

  function Lookup(es: seq<Entry>, key: string): Option<PendingLogin> {
    if es == [] then None
    else if es[0].key == key then Some(es[0].value)
    else Lookup(es[1..], key)
  }

  /** Map.delete. */
  function Without(es: seq<Entry>, key: string): seq<Entry> {
    if es == [] then []
    else if es[0].key == key then Without(es[1..], key)
    else [es[0]] + Without(es[1..], key)
  }

  /** Map.set: a key already there keeps its place. */
  function Put(es: seq<Entry>, key: string, value: PendingLogin): seq<Entry> {
    if es == [] then [Entry(key, value)]
    else if es[0].key == key then [Entry(key, value)] + es[1..]
    else [es[0]] + Put(es[1..], key, value)
  }

  function Unexpired(es: seq<Entry>, now: int): seq<Entry> {
    if es == [] then []
    else (if es[0].value.expiresAt <= now then [] else [es[0]]) + Unexpired(es[1..], now)
  }

  function Matching(es: seq<Entry>, f: Filter): nat {
    if es == [] then 0 else (if Matches(f, es[0].value) then 1 else 0) + Matching(es[1..], f)
  }

  /** The entries without the first `n` that match. */
  function DropOldest(es: seq<Entry>, f: Filter, n: nat): seq<Entry> {
    if es == [] || n == 0 then es
    else if Matches(f, es[0].value) then DropOldest(es[1..], f, n - 1)
    else [es[0]] + DropOldest(es[1..], f, n)
  }

  function Retained(es: seq<Entry>, f: Filter, limit: nat): seq<Entry> {
    DropOldest(es, f, if limit < Matching(es, f) then Matching(es, f) - limit else 0)
  }

  /** get: an expired entry is deleted on sight. */
  function GetEntries(es: seq<Entry>, key: string, now: int): seq<Entry> {
    if Lookup(es, key).Some? && Lookup(es, key).value.expiresAt <= now then Without(es, key) else es
  }

  function GetValue(es: seq<Entry>, key: string, now: int): Option<PendingLogin> {
    if Lookup(es, key).Some? && Lookup(es, key).value.expiresAt <= now then None else Lookup(es, key)
  }

  // ---------------------------------------------------------------------------
  // Facts about the map
  // ---------------------------------------------------------------------------

  /** `kept` is part of `es`, in the same order. */
  ghost predicate Subsequence(kept: seq<Entry>, es: seq<Entry>) {
    if kept == [] then true
    else if es == [] then false
    else (kept[0] == es[0] && Subsequence(kept[1..], es[1..])) || Subsequence(kept, es[1..])
  }

  lemma {:induction false} SubsequenceSelf(es: seq<Entry>)
    ensures Subsequence(es, es)
  {
    if es != [] {
      SubsequenceSelf(es[1..]);
    }
  }

  /** A part of a map has its keys, no more matches than the whole, and no repeated key. */
  lemma {:induction false} SubsequenceFacts(kept: seq<Entry>, es: seq<Entry>, f: Filter, key: string)
    requires Subsequence(kept, es)
    ensures |kept| <= |es| && Matching(kept, f) <= Matching(es, f)
    ensures HasKey(kept, key) ==> HasKey(es, key)
  {
    if kept != [] {
      if kept[0] == es[0] && Subsequence(kept[1..], es[1..]) {
        SubsequenceFacts(kept[1..], es[1..], f, key);
        if HasKey(kept, key) && kept[0].key != key {
          var i :| 0 <= i < |kept| && kept[i].key == key;
          assert kept[1..][i - 1].key == key;
        }
      } else {
        SubsequenceFacts(kept, es[1..], f, key);
      }
      if HasKey(es[1..], key) {
        var i :| 0 <= i < |es[1..]| && es[1..][i].key == key;
        assert es[i + 1].key == key;
      }
    }
  }

  lemma {:induction false} SubsequenceDistinct(kept: seq<Entry>, es: seq<Entry>)
    requires Subsequence(kept, es) && DistinctKeys(es)
    ensures DistinctKeys(kept)
  {
    if kept != [] {
      if kept[0] == es[0] && Subsequence(kept[1..], es[1..]) {
        SubsequenceDistinct(kept[1..], es[1..]);
        forall j | 0 < j < |kept|
          ensures kept[j].key != kept[0].key
        {
          SubsequenceFacts(kept[1..], es[1..], Everyone, kept[j].key);
          assert kept[1..][j - 1].key == kept[j].key;
          var i :| 0 <= i < |es[1..]| && es[1..][i].key == kept[j].key;
          assert es[i + 1].key == kept[j].key;
        }
        forall i, j | 0 <= i < j < |kept|
          ensures kept[i].key != kept[j].key
        {
          if i > 0 {
            assert kept[1..][i - 1].key != kept[1..][j - 1].key;
          }
        }
      } else {
        SubsequenceDistinct(kept, es[1..]);
      }
    }
  }

  lemma {:induction false} WithoutIsPart(es: seq<Entry>, key: string)
    ensures Subsequence(Without(es, key), es) && !HasKey(Without(es, key), key)
  {
    if es != [] {
      WithoutIsPart(es[1..], key);
      if es[0].key != key {
        assert Without(es, key)[1..] == Without(es[1..], key);
        HasKeyCons(Without(es, key), key);
      }
    }
  }

  lemma {:induction false} UnexpiredIsPart(es: seq<Entry>, now: int)
    ensures Subsequence(Unexpired(es, now), es)
  {
    if es != [] {
      UnexpiredIsPart(es[1..], now);
      if es[0].value.expiresAt <= now {
        assert Unexpired(es, now) == Unexpired(es[1..], now);
        assert Subsequence(Unexpired(es[1..], now), es[1..]);
      } else {
        assert Unexpired(es, now)[1..] == Unexpired(es[1..], now);
      }
    }
  }

  lemma {:induction false} DropIsPart(es: seq<Entry>, f: Filter, n: nat)
    ensures Subsequence(DropOldest(es, f, n), es)
    ensures n <= Matching(es, f) ==> Matching(DropOldest(es, f, n), f) == Matching(es, f) - n
  {
    if es == [] || n == 0 {
      SubsequenceSelf(es);
    } else if Matches(f, es[0].value) {
      DropIsPart(es[1..], f, n - 1);
    } else {
      DropIsPart(es[1..], f, n);
    }
  }

  lemma {:induction false} EveryoneCounts(es: seq<Entry>)
    ensures Matching(es, Everyone) == |es|
  {
    if es != [] {
      EveryoneCounts(es[1..]);
    }
  }

  /** Trimming leaves at most `limit` matching entries, and takes nothing else away. */
  lemma RetainBounds(es: seq<Entry>, f: Filter, limit: nat)
    ensures Matching(Retained(es, f, limit), f) <= limit
    ensures Subsequence(Retained(es, f, limit), es)
  {
    DropIsPart(es, f, if limit < Matching(es, f) then Matching(es, f) - limit else 0);
  }

  /** Trimming keeps the entry stored last, as long as it keeps anything. */
  lemma {:induction false} LastSurvives(es: seq<Entry>, f: Filter, n: nat)
    requires es != [] && n < Matching(es, f) + 1 && (Matches(f, es[|es| - 1].value) ==> n < Matching(es, f))
    ensures var kept := DropOldest(es, f, n); kept != [] && kept[|kept| - 1] == es[|es| - 1]
  {
    assert |es| == 1 ==> Matching(es[1..], f) == 0;
    if n > 0 && |es| > 1 {
      assert es[1..][|es| - 2] == es[|es| - 1];
      if Matches(f, es[0].value) {
        LastSurvives(es[1..], f, n - 1);
      } else {
        LastSurvives(es[1..], f, n);
      }
    }
  }

  lemma {:induction false} PutFresh(es: seq<Entry>, key: string, value: PendingLogin)
    requires !HasKey(es, key)
    ensures Put(es, key, value) == es + [Entry(key, value)]
  {
    if es != [] {
      assert es[0].key != key;
      assert !HasKey(es[1..], key) by {
        assert forall i :: 0 <= i < |es[1..]| ==> es[1..][i] == es[i + 1];
      }
      PutFresh(es[1..], key, value);
      assert es == [es[0]] + es[1..];
    }
  }

  lemma {:induction false} PutFacts(es: seq<Entry>, key: string, value: PendingLogin, f: Filter, other: string)
    ensures |Put(es, key, value)| <= |es| + 1
    ensures Matching(Put(es, key, value), f) <= Matching(es, f) + (if Matches(f, value) then 1 else 0)
    ensures HasKey(Put(es, key, value), other) <==> other == key || HasKey(es, other)
  {
    var put := Put(es, key, value);
    if es == [] {
      assert put[0].key == key;
      assert put[1..] == [];
    } else if es[0].key == key {
      assert put[1..] == es[1..];
      assert put[0].key == key;
      if HasKey(put, other) && other != key {
        var i :| 0 <= i < |put| && put[i].key == other;
        assert es[i].key == other;
      }
      if HasKey(es, other) && other != key {
        var i :| 0 <= i < |es| && es[i].key == other;
        assert put[i].key == other;
      }
    } else {
      PutFacts(es[1..], key, value, f, other);
      assert put[1..] == Put(es[1..], key, value) && put[0] == es[0];
      HasKeyCons(put, other);
      HasKeyCons(es, other);
    }
  }

  lemma HasKeyCons(es: seq<Entry>, key: string)
    requires es != []
    ensures HasKey(es, key) <==> es[0].key == key || HasKey(es[1..], key)
  {
    if HasKey(es, key) && es[0].key != key {
      var i :| 0 <= i < |es| && es[i].key == key;
      assert es[1..][i - 1].key == key;
    }
    if HasKey(es[1..], key) {
      var i :| 0 <= i < |es[1..]| && es[1..][i].key == key;
      assert es[i + 1].key == key;
    }
  }

  lemma {:induction false} PutDistinct(es: seq<Entry>, key: string, value: PendingLogin)
    requires DistinctKeys(es)
    ensures DistinctKeys(Put(es, key, value))
  {
    if es != [] && es[0].key != key {
      PutDistinct(es[1..], key, value);
      var put := Put(es, key, value);
      assert put[1..] == Put(es[1..], key, value);
      forall i, j | 0 <= i < j < |put|
        ensures put[i].key != put[j].key
      {
        assert put[1..][j - 1] == put[j];
        if i > 0 {
          assert put[1..][i - 1] == put[i];
        } else {
          PutFacts(es[1..], key, value, Everyone, put[j].key);
          assert HasKey(put[1..], put[j].key);
          if HasKey(es[1..], put[j].key) {
            var k :| 0 <= k < |es[1..]| && es[1..][k].key == put[j].key;
            assert es[k + 1].key == put[j].key;
          }
        }
      }
    }
  }

  lemma {:induction false} LookupFinds(es: seq<Entry>, key: string)
    ensures Lookup(es, key).Some? <==> HasKey(es, key)
  {
    if es != [] {
      LookupFinds(es[1..], key);
      HasKeyCons(es, key);
    }
  }

  // ---------------------------------------------------------------------------
  // The store
  // ---------------------------------------------------------------------------

  class ExpiringStore {
    var entries: seq<Entry>

    constructor ()
      ensures entries == []
    {
      entries := [];
    }

    method Get(key: string, now: int) returns (value: Option<PendingLogin>)
      modifies this
      ensures value == GetValue(old(entries), key, now) && entries == GetEntries(old(entries), key, now)
    {
      value := Lookup(entries, key);
      if value.Some? && value.value.expiresAt <= now {
        entries := Without(entries, key);
        value := None;
      }
    }

    method Set(key: string, value: PendingLogin, now: int)
      modifies this
      ensures entries == Put(Unexpired(old(entries), now), key, value)
    {
      var kept: seq<Entry> := [];
      var i := 0;
      while i < |entries|
        invariant 0 <= i <= |entries| && entries == old(entries)
        invariant kept + Unexpired(entries[i..], now) == Unexpired(entries, now)
      {
        assert entries[i..][1..] == entries[i + 1..];
        if now < entries[i].value.expiresAt {
          kept := kept + [entries[i]];
        }
        i := i + 1;
      }
      assert kept == Unexpired(entries, now);
      entries := Put(kept, key, value);
    }

    method Take(key: string, now: int) returns (value: Option<PendingLogin>)
      modifies this
      ensures value == GetValue(old(entries), key, now)
      ensures entries == Without(GetEntries(old(entries), key, now), key)
    {
      value := Get(key, now);
      entries := Without(entries, key);
    }

    /** The matching keys are listed in order, and the oldest of them deleted one by one. */
    method RetainNewest(f: Filter, limit: nat)
      requires DistinctKeys(entries)
      modifies this
      ensures entries == Retained(old(entries), f, limit)
    {
      var matching := MatchingKeys(entries, f);
      ghost var before := entries;
      MatchingCount(before, f);
      var excess := if limit < |matching| then |matching| - limit else 0;
      var i := 0;
      while i < excess
        invariant 0 <= i <= excess <= |matching|
        invariant entries == DropOldest(before, f, i)
      {
        DropNext(before, f, i);
        entries := Without(entries, matching[i]);
        i := i + 1;
      }
    }
  }

  function MatchingKeys(es: seq<Entry>, f: Filter): seq<string> {
    if es == [] then [] else (if Matches(f, es[0].value) then [es[0].key] else []) + MatchingKeys(es[1..], f)
  }

  lemma {:induction false} MatchingCount(es: seq<Entry>, f: Filter)
    ensures |MatchingKeys(es, f)| == Matching(es, f)
  {
    if es != [] {
      MatchingCount(es[1..], f);
    }
  }

  lemma {:induction false} MatchingKeyStored(es: seq<Entry>, f: Filter, i: nat)
    requires i < |MatchingKeys(es, f)|
    ensures HasKey(es, MatchingKeys(es, f)[i])
  {
    HasKeyCons(es, MatchingKeys(es, f)[i]);
    if Matches(f, es[0].value) {
      if i > 0 {
        MatchingKeyStored(es[1..], f, i - 1);
      }
    } else {
      MatchingKeyStored(es[1..], f, i);
    }
  }

  lemma {:induction false} WithoutAbsent(es: seq<Entry>, key: string)
    requires !HasKey(es, key)
    ensures Without(es, key) == es
  {
    if es != [] {
      HasKeyCons(es, key);
      WithoutAbsent(es[1..], key);
      assert es == [es[0]] + es[1..];
    }
  }

  lemma DropNone(es: seq<Entry>, f: Filter)
    ensures DropOldest(es, f, 0) == es
  {
  }

  /** Deleting the next matching key drops one more of the oldest. */
  lemma {:induction false} DropNext(es: seq<Entry>, f: Filter, n: nat)
    requires DistinctKeys(es) && n < |MatchingKeys(es, f)|
    ensures Without(DropOldest(es, f, n), MatchingKeys(es, f)[n]) == DropOldest(es, f, n + 1)
  {
    var key := MatchingKeys(es, f)[n];
    assert DistinctKeys(es[1..]);
    FirstKeyApart(es);
    DropNone(es[1..], f);
    if Matches(f, es[0].value) {
      if n == 0 {
        WithoutAbsent(es[1..], key);
      } else {
        DropNext(es[1..], f, n - 1);
      }
    } else {
      MatchingKeyStored(es[1..], f, n);
      DropNext(es[1..], f, n);
      assert DropOldest(es, f, n) == [es[0]] + DropOldest(es[1..], f, n);
    }
  }

  lemma FirstKeyApart(es: seq<Entry>)
    requires DistinctKeys(es) && es != []
    ensures !HasKey(es[1..], es[0].key)
  {
    assert forall i :: 0 <= i < |es[1..]| ==> es[1..][i] == es[i + 1];
  }

  // ---------------------------------------------------------------------------
  // Logins and callbacks
  // ---------------------------------------------------------------------------

  datatype Request =
    | Login(state: string, nonce: string, verifier: string, session: Option<string>, presented: Option<string>,
            previousSession: Option<string>, expiresAt: int, now: int)
    | Callback(state: string, cookieState: string, cookieNonce: string, now: int)

  /** The live session's subject, or the initiator of the login whose cookie is presented, or a new root. */
  function Initiator(r: Request, prior: Option<PendingLogin>): string
    requires r.Login?
  {
    if r.session.Some? then "sess:" + r.session.value
    else if prior.Some? then prior.value.initiator
    else "flow:" + r.state
  }

  function StoredLogin(es: seq<Entry>, r: Request): PendingLogin
    requires r.Login?
  {
    var prior := if r.presented.Some? then GetValue(es, r.presented.value, r.now) else None;
    PendingLogin(r.nonce, r.verifier, Initiator(r, prior), r.previousSession, r.expiresAt)
  }

  /** The map once the login is stored, before it is trimmed. */
  function WithLogin(es: seq<Entry>, r: Request): seq<Entry>
    requires r.Login?
  {
    var seen := if r.presented.Some? then GetEntries(es, r.presented.value, r.now) else es;
    Put(Unexpired(seen, r.now), r.state, StoredLogin(es, r))
  }

  function Handle(es: seq<Entry>, r: Request): seq<Entry> {
    match r
    case Login(_, _, _, _, _, _, _, _) =>
      Retained(Retained(WithLogin(es, r), ByInitiator(StoredLogin(es, r).initiator), MAX_PER_INITIATOR), Everyone,
          MAX_PENDING)
    case Callback(state, cookieState, cookieNonce, now) =>
      if cookieState != state || cookieNonce == "" then es
      else Without(GetEntries(es, state, now), state)
  }

  /** What a callback goes on with: the pending login, if it is there and the cookie has its state and its nonce. */
  function Taken(es: seq<Entry>, r: Request): Option<PendingLogin>
    requires r.Callback?
  {
    if r.cookieState != r.state || r.cookieNonce == "" then None
    else
      var pending := GetValue(es, r.state, r.now);
      if pending.Some? && pending.value.nonce != r.cookieNonce then None else pending
  }

  method HandleLogin(store: ExpiringStore, r: Request)
    requires r.Login? && DistinctKeys(store.entries)
    modifies store
    ensures store.entries == Handle(old(store.entries), r)
  {
    ghost var before := store.entries;
    var prior: Option<PendingLogin> := None;
    if r.presented.Some? {
      prior := store.Get(r.presented.value, r.now);
      WithoutIsPart(before, r.presented.value);
      SubsequenceDistinct(Without(before, r.presented.value), before);
    }
    ghost var seen := store.entries;
    var initiator := Initiator(r, prior);
    store.Set(r.state, PendingLogin(r.nonce, r.verifier, initiator, r.previousSession, r.expiresAt), r.now);
    UnexpiredIsPart(seen, r.now);
    SubsequenceDistinct(Unexpired(seen, r.now), seen);
    PutDistinct(Unexpired(seen, r.now), r.state, StoredLogin(before, r));
    ghost var stored := store.entries;
    store.RetainNewest(ByInitiator(initiator), MAX_PER_INITIATOR);
    RetainBounds(stored, ByInitiator(initiator), MAX_PER_INITIATOR);
    SubsequenceDistinct(store.entries, stored);
    store.RetainNewest(Everyone, MAX_PENDING);
  }

  method HandleCallback(store: ExpiringStore, r: Request) returns (pending: Option<PendingLogin>)
    requires r.Callback?
    modifies store
    ensures store.entries == Handle(old(store.entries), r) && pending == Taken(old(store.entries), r)
  {
    pending := None;
    if r.cookieState == r.state && r.cookieNonce != "" {
      pending := store.Take(r.state, r.now);
      if pending.Some? && pending.value.nonce != r.cookieNonce {
        pending := None;
      }
    }
  }

  // ---------------------------------------------------------------------------
  // Runs
  // ---------------------------------------------------------------------------

  ghost predicate Bounded(es: seq<Entry>) {
    && DistinctKeys(es) && |es| <= MAX_PENDING
    && forall initiator :: Matching(es, ByInitiator(initiator)) <= MAX_PER_INITIATOR
  }

  lemma PartIsBounded(kept: seq<Entry>, es: seq<Entry>)
    requires Subsequence(kept, es) && Bounded(es)
    ensures Bounded(kept)
  {
    SubsequenceDistinct(kept, es);
    SubsequenceFacts(kept, es, Everyone, "");
    forall initiator
      ensures Matching(kept, ByInitiator(initiator)) <= MAX_PER_INITIATOR
    {
      SubsequenceFacts(kept, es, ByInitiator(initiator), "");
    }
  }

  lemma GetIsPart(es: seq<Entry>, key: string, now: int)
    ensures Subsequence(GetEntries(es, key, now), es)
  {
    WithoutIsPart(es, key);
    SubsequenceSelf(es);
  }

  /** The entries a login is stored among are bounded. */
  lemma SeenIsBounded(es: seq<Entry>, r: Request) returns (base: seq<Entry>)
    requires r.Login? && Bounded(es)
    ensures Bounded(base) && Put(base, r.state, StoredLogin(es, r)) == WithLogin(es, r)
    ensures HasKey(base, r.state) ==> HasKey(es, r.state)
  {
    var seen := es;
    SubsequenceSelf(es);
    if r.presented.Some? {
      seen := GetEntries(es, r.presented.value, r.now);
      GetIsPart(es, r.presented.value, r.now);
    }
    PartIsBounded(seen, es);
    UnexpiredIsPart(seen, r.now);
    base := Unexpired(seen, r.now);
    PartIsBounded(base, seen);
    SubsequenceFacts(base, seen, Everyone, r.state);
    SubsequenceFacts(seen, es, Everyone, r.state);
  }

  lemma LoginKeepsBounds(es: seq<Entry>, r: Request)
    requires r.Login? && Bounded(es)
    ensures Bounded(Handle(es, r))
  {
    var base := SeenIsBounded(es, r);
    var login := StoredLogin(es, r);
    var stored := WithLogin(es, r);
    var own := ByInitiator(login.initiator);
    var trimmed := Retained(stored, own, MAX_PER_INITIATOR);
    var final := Retained(trimmed, Everyone, MAX_PENDING);
    PutDistinct(base, r.state, login);
    RetainBounds(stored, own, MAX_PER_INITIATOR);
    RetainBounds(trimmed, Everyone, MAX_PENDING);
    SubsequenceDistinct(trimmed, stored);
    SubsequenceDistinct(final, trimmed);
    EveryoneCounts(final);
    forall initiator
      ensures Matching(final, ByInitiator(initiator)) <= MAX_PER_INITIATOR
    {
      SubsequenceFacts(final, trimmed, ByInitiator(initiator), "");
      SubsequenceFacts(trimmed, stored, ByInitiator(initiator), "");
      PutFacts(base, r.state, login, ByInitiator(initiator), "");
    }
  }

  lemma CallbackKeepsBounds(es: seq<Entry>, r: Request)
    requires r.Callback? && Bounded(es)
    ensures Bounded(Handle(es, r))
  {
    GetIsPart(es, r.state, r.now);
    PartIsBounded(GetEntries(es, r.state, r.now), es);
    WithoutIsPart(GetEntries(es, r.state, r.now), r.state);
    PartIsBounded(Without(GetEntries(es, r.state, r.now), r.state), GetEntries(es, r.state, r.now));
  }

  function Run(es: seq<Entry>, requests: seq<Request>): seq<Entry>
    decreases |requests|
  {
    if requests == [] then es else Run(Handle(es, requests[0]), requests[1..])
  }

  /** In every run at most two logins per initiator and 256 in all are pending, whatever the states. */
  lemma {:induction false} RunsStayBounded(es: seq<Entry>, requests: seq<Request>)
    requires Bounded(es)
    ensures Bounded(Run(es, requests))
    decreases |requests|
  {
    if requests != [] {
      if requests[0].Login? {
        LoginKeepsBounds(es, requests[0]);
      } else {
        CallbackKeepsBounds(es, requests[0]);
      }
      RunsStayBounded(Handle(es, requests[0]), requests[1..]);
    }
  }

  lemma {:induction false} MatchesLast(es: seq<Entry>, f: Filter, e: Entry)
    requires Matches(f, e.value)
    ensures Matching(es + [e], f) == Matching(es, f) + 1
  {
    if es == [] {
      assert es + [e] == [e];
      assert [e][1..] == [];
    } else {
      MatchesLast(es[1..], f, e);
      assert (es + [e])[1..] == es[1..] + [e];
    }
  }

  /** A login stored under a fresh state survives its own trimming, as the newest entry. */
  lemma LoginSurvives(es: seq<Entry>, r: Request)
    requires r.Login? && Bounded(es) && !HasKey(es, r.state)
    ensures var after := Handle(es, r);
      after != [] && after[|after| - 1] == Entry(r.state, StoredLogin(es, r))
  {
    var base := SeenIsBounded(es, r);
    var login := StoredLogin(es, r);
    var e := Entry(r.state, login);
    PutFresh(base, r.state, login);
    var stored := base + [e];
    var own := ByInitiator(login.initiator);
    RetainKeepsLast(stored, own, MAX_PER_INITIATOR);
    RetainKeepsLast(Retained(stored, own, MAX_PER_INITIATOR), Everyone, MAX_PENDING);
  }

  /** Trimming that keeps at least one matching entry keeps a matching last one. */
  lemma RetainKeepsLast(es: seq<Entry>, f: Filter, limit: nat)
    requires es != [] && Matches(f, es[|es| - 1].value) && 1 <= limit
    ensures var kept := Retained(es, f, limit); kept != [] && kept[|kept| - 1] == es[|es| - 1]
  {
    assert es == es[..|es| - 1] + [es[|es| - 1]];
    MatchesLast(es[..|es| - 1], f, es[|es| - 1]);
    LastSurvives(es, f, if limit < Matching(es, f) then Matching(es, f) - limit else 0);
  }

  /** A state that is not stored, and that no login in the run brings back, is never handed out. */
  lemma {:induction false} AbsentStaysAbsent(es: seq<Entry>, requests: seq<Request>, state: string)
    requires Bounded(es) && !HasKey(es, state)
    requires forall r :: r in requests && r.Login? ==> r.state != state
    ensures !HasKey(Run(es, requests), state)
    decreases |requests|
  {
    if requests != [] {
      var r := requests[0];
      if r.Login? {
        LoginKeepsBounds(es, r);
        LoginAddsOnly(es, r, state);
      } else {
        CallbackKeepsBounds(es, r);
        GetIsPart(es, r.state, r.now);
        WithoutIsPart(GetEntries(es, r.state, r.now), r.state);
        SubsequenceFacts(GetEntries(es, r.state, r.now), es, Everyone, state);
        SubsequenceFacts(Without(GetEntries(es, r.state, r.now), r.state), GetEntries(es, r.state, r.now), Everyone,
            state);
      }
      AbsentStaysAbsent(Handle(es, r), requests[1..], state);
    }
  }

  lemma LoginAddsOnly(es: seq<Entry>, r: Request, state: string)
    requires r.Login? && Bounded(es) && r.state != state && !HasKey(es, state)
    ensures !HasKey(Handle(es, r), state)
  {
    var seen := if r.presented.Some? then GetEntries(es, r.presented.value, r.now) else es;
    SubsequenceSelf(es);
    if r.presented.Some? {
      GetIsPart(es, r.presented.value, r.now);
    }
    SubsequenceFacts(seen, es, Everyone, state);
    UnexpiredIsPart(seen, r.now);
    SubsequenceFacts(Unexpired(seen, r.now), seen, Everyone, state);
    PutFacts(Unexpired(seen, r.now), r.state, StoredLogin(es, r), Everyone, state);
    var stored := WithLogin(es, r);
    var own := ByInitiator(StoredLogin(es, r).initiator);
    RetainBounds(stored, own, MAX_PER_INITIATOR);
    RetainBounds(Retained(stored, own, MAX_PER_INITIATOR), Everyone, MAX_PENDING);
    SubsequenceFacts(Retained(stored, own, MAX_PER_INITIATOR), stored, Everyone, state);
    SubsequenceFacts(Handle(es, r), Retained(stored, own, MAX_PER_INITIATOR), Everyone, state);
  }

  /** Each state is taken at most once: after a callback took it, no later callback is handed anything for it. */
  lemma TakenAtMostOnce(es: seq<Entry>, first: Request, between: seq<Request>, second: Request)
    requires Bounded(es) && first.Callback? && second.Callback? && second.state == first.state
    requires Taken(es, first).Some?
    requires forall r :: r in between && r.Login? ==> r.state != first.state
    ensures Taken(Run(Handle(es, first), between), second) == None
  {
    CallbackKeepsBounds(es, first);
    WithoutIsPart(GetEntries(es, first.state, first.now), first.state);
    AbsentStaysAbsent(Handle(es, first), between, first.state);
    LookupFinds(Run(Handle(es, first), between), first.state);
  }
}
