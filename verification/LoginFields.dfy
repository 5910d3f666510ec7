/**
 * What a login stores and a callback is handed, field by field, and which entries go when a store is full
 * (backoffice/src/server/server.ts, backoffice/src/server/session.ts).
 */
module LoginFields {
  import opened Wrappers
  import opened PendingLogins

  // ---------------------------------------------------------------------------
  // Entries
  // ---------------------------------------------------------------------------

  lemma {:induction false} LookupIs(es: seq<Entry>, key: string, v: PendingLogin)
    requires DistinctKeys(es)
    ensures Lookup(es, key) == Some(v) <==> Entry(key, v) in es
  {
    if es != [] {
      var rest := es[1..];
      assert es == [es[0]] + rest;
      assert forall i :: 0 <= i < |rest| ==> rest[i] == es[i + 1];
      LookupIs(rest, key, v);
    }
  }

  lemma {:induction false} UnexpiredAre(es: seq<Entry>, now: int)
    ensures forall e :: e in Unexpired(es, now) <==> e in es && now < e.value.expiresAt
  {
    if es != [] {
      UnexpiredAre(es[1..], now);
      assert es == [es[0]] + es[1..];
    }
  }

  lemma {:induction false} WithoutIs(es: seq<Entry>, key: string)
    ensures forall e :: e in Without(es, key) <==> e in es && e.key != key
  {
    if es != [] {
      WithoutIs(es[1..], key);
      assert es == [es[0]] + es[1..];
    }
  }

  /** The positions from `from` on of the entries of an initiator, or of all. */
  function Positions(es: seq<Entry>, f: Filter, from: nat): set<nat> {
    set i | from <= i < |es| && (f.Everyone? || es[i].value.initiator == f.initiator)
  }

  lemma {:induction false} MatchingIs(es: seq<Entry>, f: Filter, from: nat)
    requires from <= |es|
    ensures Matching(es[from..], f) == |Positions(es, f, from)|
    decreases |es| - from
  {
    if from < |es| {
      MatchingIs(es, f, from + 1);
      assert es[from..][1..] == es[from + 1..];
      assert Positions(es, f, from) == Positions(es, f, from + 1) + if Matches(f, es[from].value) then {from} else {};
    } else {
      assert Positions(es, f, from) == {};
    }
  }

  lemma {:induction false} DroppedAre(es: seq<Entry>, f: Filter, n: nat, i: nat)
    requires DistinctKeys(es) && i < |es|
    ensures es[i] in DropOldest(es, f, n) <==> !Matches(f, es[i].value) || n <= Matching(es[..i], f)
    decreases |es|
  {
    if n > 0 {
      var rest := es[1..];
      assert forall j :: 0 <= j < |rest| ==> rest[j] == es[j + 1];
      FirstApart(es, f, n);
      if i > 0 {
        assert es[..i][1..] == rest[..i - 1] && es[..i][0] == es[0];
        if Matches(f, es[0].value) {
          DroppedAre(rest, f, n - 1, i - 1);
        } else {
          DroppedAre(rest, f, n, i - 1);
        }
      }
    }
  }

  lemma {:induction false} DroppedFrom(es: seq<Entry>, f: Filter, n: nat)
    ensures forall e :: e in DropOldest(es, f, n) ==> e in es
  {
    if es != [] && n > 0 {
      DroppedFrom(es[1..], f, if Matches(f, es[0].value) then n - 1 else n);
      assert es == [es[0]] + es[1..];
    }
  }

  /** The first entry comes no second time. */
  lemma FirstApart(es: seq<Entry>, f: Filter, n: nat)
    requires DistinctKeys(es) && es != []
    ensures es[0] !in DropOldest(es[1..], f, n) && (0 < n ==> es[0] !in DropOldest(es[1..], f, n - 1))
  {
    var rest := es[1..];
    assert forall j :: 0 <= j < |rest| ==> rest[j] == es[j + 1];
    DroppedFrom(rest, f, n);
    if 0 < n {
      DroppedFrom(rest, f, n - 1);
    }
  }

  /**
   * Keeping the newest: an entry of another initiator stays, one of the initiator stays exactly when at most
   * `limit` of the initiator's, itself among them, were stored from it on.
   */
  lemma RetainedInFields(es: seq<Entry>, f: Filter, limit: nat, i: nat)
    requires DistinctKeys(es) && i < |es|
    ensures es[i] in Retained(es, f, limit)
      <==> (f.ByInitiator? && es[i].value.initiator != f.initiator) || |Positions(es, f, i)| <= limit
  {
    var n := if limit < Matching(es, f) then Matching(es, f) - limit else 0;
    DroppedAre(es, f, n, i);
    MatchingIs(es, f, i);
    MatchingSplits(es, f, i);
  }

  lemma {:induction false} MatchingSplits(es: seq<Entry>, f: Filter, i: nat)
    requires i <= |es|
    ensures Matching(es, f) == Matching(es[..i], f) + Matching(es[i..], f)
  {
    if i == 0 {
      assert es[..0] == [] && es[0..] == es;
    } else {
      MatchingSplits(es[1..], f, i - 1);
      assert es[1..][..i - 1] == es[..i][1..] && es[1..][i - 1..] == es[i..];
    }
  }

  // ---------------------------------------------------------------------------
  // Logins and callbacks
  // ---------------------------------------------------------------------------

  /** A stored login that has not expired. */
  predicate Live(es: seq<Entry>, key: string, v: PendingLogin, now: int) {
    Entry(key, v) in es && now < v.expiresAt
  }

  /** Who the login counts for: the session's subject, the initiator of the login whose cookie is shown, or itself. */
  ghost predicate CountsFor(es: seq<Entry>, r: Request, initiator: string)
    requires r.Login?
  {
    if r.session.Some? then initiator == "sess:" + r.session.value
    else if exists v :: r.presented.Some? && Live(es, r.presented.value, v, r.now) then
      exists v :: Live(es, r.presented.value, v, r.now) && initiator == v.initiator
    else initiator == "flow:" + r.state
  }

  lemma InitiatorIs(es: seq<Entry>, r: Request)
    requires r.Login? && DistinctKeys(es)
    ensures CountsFor(es, r, StoredLogin(es, r).initiator)
  {
    if r.presented.Some? {
      var found := Lookup(es, r.presented.value);
      if found.Some? {
        LookupIs(es, r.presented.value, found.value);
        assert found.value.expiresAt > r.now ==> Live(es, r.presented.value, found.value, r.now);
      }
      forall v | Live(es, r.presented.value, v, r.now)
        ensures found == Some(v)
      {
        LookupIs(es, r.presented.value, v);
      }
    }
  }

  /**
   * A login under a fresh state is stored last with its own nonce, verifier, former session and deadline, for
   * the right initiator; what stays beside it was there and has not expired; and at most 2 of an initiator and
   * 256 in all are left.
   */
  lemma LoginInFields(es: seq<Entry>, r: Request)
    requires r.Login? && Bounded(es) && !HasKey(es, r.state)
    ensures var after := Handle(es, r);
      && after != []
      && var last := after[|after| - 1];
         && last.key == r.state && last.value.nonce == r.nonce && last.value.verifier == r.verifier
         && last.value.previousSession == r.previousSession && last.value.expiresAt == r.expiresAt
         && CountsFor(es, r, last.value.initiator)
         && (forall i :: 0 <= i < |after| - 1 ==> after[i] in es && r.now < after[i].value.expiresAt)
         && |after| <= 256 && forall initiator :: |Positions(after, ByInitiator(initiator), 0)| <= 2
  {
    LoginSurvives(es, r);
    LoginKeepsBounds(es, r);
    InitiatorIs(es, r);
    var after := Handle(es, r);
    forall initiator
      ensures |Positions(after, ByInitiator(initiator), 0)| <= 2
    {
      MatchingIs(after, ByInitiator(initiator), 0);
      assert after[0..] == after;
    }
    LeftBeside(es, r);
  }

  lemma LeftBeside(es: seq<Entry>, r: Request)
    requires r.Login? && Bounded(es) && !HasKey(es, r.state)
    ensures var after := Handle(es, r);
      forall i :: 0 <= i < |after| - 1 ==> after[i] in es && r.now < after[i].value.expiresAt
  {
    LoginKeepsBounds(es, r);
    LoginSurvives(es, r);
    var after := Handle(es, r);
    forall i | 0 <= i < |after| - 1
      ensures after[i] in es && r.now < after[i].value.expiresAt
    {
      assert after[i].key != after[|after| - 1].key;
      StoredFrom(es, r, after[i]);
    }
  }

  /** Everything in the store after a login is the login or an entry that was there and has not expired. */
  lemma StoredFrom(es: seq<Entry>, r: Request, e: Entry)
    requires r.Login? && e in Handle(es, r) && e.key != r.state
    ensures e in es && r.now < e.value.expiresAt
  {
    var seen := if r.presented.Some? then GetEntries(es, r.presented.value, r.now) else es;
    var stored, own := WithLogin(es, r), ByInitiator(StoredLogin(es, r).initiator);
    var trimmed := Retained(stored, own, MAX_PER_INITIATOR);
    DroppedFrom(trimmed, Everyone, if MAX_PENDING < Matching(trimmed, Everyone) then
                                     Matching(trimmed, Everyone) - MAX_PENDING else 0);
    DroppedFrom(stored, own, if MAX_PER_INITIATOR < Matching(stored, own) then
                               Matching(stored, own) - MAX_PER_INITIATOR else 0);
    PutFrom(Unexpired(seen, r.now), r.state, StoredLogin(es, r), e);
    UnexpiredAre(seen, r.now);
    if r.presented.Some? {
      WithoutIs(es, r.presented.value);
    }
  }

  lemma {:induction false} PutFrom(es: seq<Entry>, key: string, v: PendingLogin, e: Entry)
    requires e in Put(es, key, v) && e.key != key
    ensures e in es
  {
    if es != [] && es[0].key != key && e != es[0] {
      PutFrom(es[1..], key, v, e);
    }
  }

  /**
   * The callback of that login, while it has not expired: it is handed exactly what the login stored, and
   * only when its cookie shows the state and the nonce.
   */
  lemma CallbackInFields(es: seq<Entry>, r: Request, c: Request)
    requires r.Login? && Bounded(es) && !HasKey(es, r.state) && c.Callback? && c.state == r.state
    ensures var taken := Taken(Handle(es, r), c);
      if c.cookieState == r.state && c.cookieNonce == r.nonce && r.nonce != "" && c.now < r.expiresAt then
        && taken.Some? && taken.value.nonce == r.nonce && taken.value.verifier == r.verifier
        && taken.value.previousSession == r.previousSession
      else taken == None
  {
    var after := Handle(es, r);
    LoginSurvives(es, r);
    LoginKeepsBounds(es, r);
    assert Entry(r.state, StoredLogin(es, r)) in after;
    LookupIs(after, r.state, StoredLogin(es, r));
  }

  /** Whatever a callback is handed was stored under its state, has not expired, and has the cookie's nonce. */
  lemma TakenInFields(es: seq<Entry>, c: Request, v: PendingLogin)
    requires DistinctKeys(es) && c.Callback?
    ensures Taken(es, c) == Some(v)
      <==> && Entry(c.state, v) in es && c.now < v.expiresAt
           && c.cookieState == c.state && c.cookieNonce != "" && v.nonce == c.cookieNonce
    ensures c.cookieState == c.state && c.cookieNonce != "" ==>
      forall e :: e in Handle(es, c) <==> e in es && e.key != c.state
    ensures !(c.cookieState == c.state && c.cookieNonce != "") ==> Handle(es, c) == es
  {
    LookupIs(es, c.state, v);
    WithoutIs(GetEntries(es, c.state, c.now), c.state);
    WithoutIs(es, c.state);
  }
}
