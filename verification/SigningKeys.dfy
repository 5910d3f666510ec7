/**
 * The rotating ring of signing keys and the verification of envelopes against it, on the server
 * (backoffice/src/server/signing.ts) and in the browser (backoffice/src/data/client.ts).
 *
 * Key pairs are named by their key id. The signature scheme is any pair of functions of which only
 * one thing is asked: what a key signed verifies under that key.
 */
module SigningKeys {
  import opened Wrappers
  import opened CanonicalJson

  datatype Key = Key(keyId: string, version: int, active: bool, createdAt: int, retiredAt: Option<int>)

  /** The signed fields of an envelope. `issuedAt` is None when its text is not a canonical instant. */
  datatype Message = Message(
    signatureVersion: int, keyId: string, keyVersion: int, issuedAt: Option<int>,
    requestId: string, resource: string, payload: Js)

  /**
   * A signature's text: not base64url at all, or bytes written with stray bits in its last
   * character, or bytes written the one canonical way.
   */
  datatype SignatureText = Malformed | Loose(bytes: seq<int>) | Canonical(bytes: seq<int>)

  datatype Envelope = Envelope(message: Message, signature: SignatureText)

  datatype Scheme = Scheme(sign: (string, Message) -> seq<int>, verify: (string, Message, seq<int>) -> bool)

  const KEYSET_MAX_KEYS: int := 8
  const MAX_SKEW_MS: int := 300_000

  ghost predicate Correct(scheme: Scheme) {
    forall id, m :: scheme.verify(id, m, scheme.sign(id, m))
  }

  // ---------------------------------------------------------------------------
  // Rotation
  // ---------------------------------------------------------------------------

  function Retire(keys: seq<Key>, now: int): (retired: seq<Key>)
    ensures |retired| == |keys|
  {
    if keys == [] then []
    else
      [if keys[0].active then keys[0].(active := false, retiredAt := Some(now)) else keys[0]] + Retire(keys[1..], now)
  }

  function HighestVersion(keys: seq<Key>): (highest: int)
    ensures 0 <= highest
  {
    if keys == [] then 0
    else if keys[0].version < HighestVersion(keys[1..]) then HighestVersion(keys[1..])
    else if keys[0].version < 0 then 0 else keys[0].version
  }

  /** The retired keys of a list. */
  function Retired(keys: seq<Key>): seq<Key> {
    if keys == [] then []
    else (if keys[0].active then [] else [keys[0]]) + Retired(keys[1..])
  }

  function InsertByVersion(k: Key, keys: seq<Key>): seq<Key> {
    if keys == [] || keys[0].version <= k.version then [k] + keys
    else [keys[0]] + InsertByVersion(k, keys[1..])
  }

  /** Highest version first. */
  function SortByVersion(keys: seq<Key>): seq<Key> {
    if keys == [] then [] else InsertByVersion(keys[0], SortByVersion(keys[1..]))
  }

  function Take(keys: seq<Key>, n: nat): seq<Key> {
    if |keys| <= n then keys else keys[..n]
  }

  function Rotated(keys: seq<Key>, now: int, keyId: string, maximumRetired: nat): seq<Key> {
    var retired := Retire(keys, now);
    [Key(keyId, HighestVersion(retired) + 1, true, now, None)]
    + Take(SortByVersion(Retired(retired)), maximumRetired)
  }

  predicate DescendingVersions(keys: seq<Key>) {
    forall i :: 0 < i < |keys| ==> keys[i].version < keys[i - 1].version
  }

  lemma {:induction false} SortedStays(keys: seq<Key>)
    requires DescendingVersions(keys)
    ensures SortByVersion(keys) == keys
  {
    if keys != [] {
      SortedStays(keys[1..]);
      assert keys == [keys[0]] + keys[1..];
      if |keys| > 1 {
        assert keys[1].version < keys[0].version;
      }
    }
  }

  // ---------------------------------------------------------------------------
  // The ring after any number of rotations
  // ---------------------------------------------------------------------------

  datatype Rotation = Rotation(now: int, keyId: string)

  function After(rotations: seq<Rotation>, maximumRetired: nat): seq<Key> {
    if rotations == [] then []
    else
      var last := rotations[|rotations| - 1];
      Rotated(After(rotations[..|rotations| - 1], maximumRetired), last.now, last.keyId, maximumRetired)
  }

  function Min(a: int, b: int): int {
    if a < b then a else b
  }

  /** The key of rotation `j` (counted from one) as it stands after all of them. */
  function KeyOf(rotations: seq<Rotation>, j: int): Key
    requires 1 <= j <= |rotations|
  {
    Key(rotations[j - 1].keyId, j, j == |rotations|, rotations[j - 1].now,
        if j == |rotations| then None else Some(rotations[j].now))
  }

  /** The last keys, newest first, as many as the window holds. */
  function Window(rotations: seq<Rotation>, maximumRetired: nat): (keys: seq<Key>)
    ensures |keys| == Min(|rotations|, maximumRetired + 1)
  {
    seq(Min(|rotations|, maximumRetired + 1),
        i requires 0 <= i < Min(|rotations|, maximumRetired + 1) => KeyOf(rotations, |rotations| - i))
  }

  lemma {:induction false} RetireAll(keys: seq<Key>, now: int)
    ensures forall i :: 0 <= i < |keys| ==>
      Retire(keys, now)[i] == if keys[i].active then keys[i].(active := false, retiredAt := Some(now)) else keys[i]
    ensures Retired(Retire(keys, now)) == Retire(keys, now)
  {
    if keys != [] {
      RetireAll(keys[1..], now);
      var first := if keys[0].active then keys[0].(active := false, retiredAt := Some(now)) else keys[0];
      assert Retire(keys, now) == [first] + Retire(keys[1..], now);
      assert Retire(keys, now)[1..] == Retire(keys[1..], now);
    }
  }

  lemma {:induction false} HighestIsFirst(keys: seq<Key>)
    requires DescendingVersions(keys) && forall i :: 0 <= i < |keys| ==> 0 <= keys[i].version
    ensures HighestVersion(keys) == if keys == [] then 0 else keys[0].version
  {
    if keys != [] {
      HighestIsFirst(keys[1..]);
    }
  }

  lemma WindowAt(rotations: seq<Rotation>, maximumRetired: nat, i: nat)
    requires i < |Window(rotations, maximumRetired)|
    ensures Window(rotations, maximumRetired)[i] == KeyOf(rotations, |rotations| - i)
    ensures Window(rotations, maximumRetired)[i].keyId == rotations[|rotations| - i - 1].keyId
  {
  }

  /** The window of the earlier rotations, once its active key is retired. */
  lemma RetiredWindow(rotations: seq<Rotation>, maximumRetired: nat) returns (retired: seq<Key>)
    requires rotations != []
    ensures retired == Retire(Window(rotations[..|rotations| - 1], maximumRetired), rotations[|rotations| - 1].now)
    ensures |retired| == Min(|rotations| - 1, maximumRetired + 1)
    ensures forall i :: 0 <= i < |retired| ==> retired[i] == KeyOf(rotations, |rotations| - 1 - i)
    ensures Retired(retired) == retired
  {
    var n, before, now := |rotations|, rotations[..|rotations| - 1], rotations[|rotations| - 1].now;
    var keys := Window(before, maximumRetired);
    retired := Retire(keys, now);
    RetireAll(keys, now);
    forall i | 0 <= i < |keys|
      ensures retired[i] == KeyOf(rotations, n - 1 - i)
    {
      assert |before| == n - 1;
      WindowAt(before, maximumRetired, i);
      KeyRetires(rotations, n - 1 - i);
      assert keys[i] == KeyOf(before, n - 1 - i);
    }
  }

  /** What the next rotation makes of a key that was in the ring before it. */
  lemma KeyRetires(rotations: seq<Rotation>, j: int)
    requires 1 <= j < |rotations|
    ensures var n := |rotations|;
      var key := KeyOf(rotations[..n - 1], j);
      KeyOf(rotations, j)
      == if key.active then key.(active := false, retiredAt := Some(rotations[n - 1].now)) else key
  {
  }

  lemma VersionsDescend(rotations: seq<Rotation>, retired: seq<Key>)
    requires |retired| < |rotations|
    requires forall i :: 0 <= i < |retired| ==> retired[i] == KeyOf(rotations, |rotations| - 1 - i)
    ensures SortByVersion(retired) == retired && HighestVersion(retired) == if retired == [] then 0 else |rotations| - 1
  {
    forall i | 0 <= i < |retired|
      ensures retired[i].version == |rotations| - 1 - i
    {
    }
    HighestIsFirst(retired);
    SortedStays(retired);
  }

  /** One rotation of a window is the next window. */
  lemma WindowRotates(rotations: seq<Rotation>, maximumRetired: nat)
    requires rotations != []
    ensures var n := |rotations|;
      Rotated(Window(rotations[..n - 1], maximumRetired), rotations[n - 1].now, rotations[n - 1].keyId, maximumRetired)
      == Window(rotations, maximumRetired)
  {
    var n := |rotations|;
    var retired := RetiredWindow(rotations, maximumRetired);
    VersionsDescend(rotations, retired);
    var next := [Key(rotations[n - 1].keyId, n, true, rotations[n - 1].now, None)] + Take(retired, maximumRetired);
    var window := Window(rotations, maximumRetired);
    assert |next| == |window|;
    forall i | 0 <= i < |next|
      ensures next[i] == window[i]
    {
      WindowAt(rotations, maximumRetired, i);
      if i > 0 {
        assert next[i] == retired[i - 1];
      }
    }
  }

  /**
   * After n rotations the ring holds versions n, n - 1, ... down to the window's end, with only the
   * first active and every other retired at the instant of the rotation that replaced it.
   */
  lemma {:induction false} RingIsWindow(rotations: seq<Rotation>, maximumRetired: nat)
    ensures After(rotations, maximumRetired) == Window(rotations, maximumRetired)
    decreases |rotations|
  {
    if rotations != [] {
      RingIsWindow(rotations[..|rotations| - 1], maximumRetired);
      WindowRotates(rotations, maximumRetired);
    }
  }

  // ---------------------------------------------------------------------------
  // Envelopes
  // ---------------------------------------------------------------------------

  /** The checks on an envelope's own fields, the signature's text and the payload included. */
  predicate Shaped(e: Envelope) {
    && e.message.signatureVersion == 1
    && 1 <= e.message.keyVersion <= MAX_SAFE
    && e.message.requestId != ""
  }

  /** The first key with the id, as `find` returns it. */
  function FindKey(keys: seq<Key>, keyId: string): Option<Key> {
    if keys == [] then None
    else if keys[0].keyId == keyId then Some(keys[0])
    else FindKey(keys[1..], keyId)
  }

  predicate ServerVerifies(scheme: Scheme, keys: seq<Key>, e: Envelope) {
    && Shaped(e) && e.signature.Canonical? && e.message.issuedAt.Some?
    && IsCanonical(e.message.payload, 0)
    && var key := FindKey(keys, e.message.keyId);
      && key.Some? && key.value.version == e.message.keyVersion
      && (key.value.active || (key.value.retiredAt.Some? && e.message.issuedAt.value <= key.value.retiredAt.value))
      && scheme.verify(e.message.keyId, e.message, e.signature.bytes)
  }

  function FindActive(keys: seq<Key>): Option<Key> {
    if keys == [] then None else if keys[0].active then Some(keys[0]) else FindActive(keys[1..])
  }

  /** The envelope the ring's active key signs. */
  function Signed(
      scheme: Scheme, keys: seq<Key>, issuedAt: int, requestId: string, resource: string, payload: Js): Envelope
    requires FindActive(keys).Some?
  {
    var key := FindActive(keys).value;
    var message := Message(1, key.keyId, key.version, Some(issuedAt), requestId, resource, payload);
    Envelope(message, Canonical(scheme.sign(key.keyId, message)))
  }

  predicate DistinctKeyIds(rotations: seq<Rotation>) {
    forall i, j :: 0 <= i < j < |rotations| ==> rotations[i].keyId != rotations[j].keyId
  }

  lemma {:induction false} FindAt(keys: seq<Key>, i: nat)
    requires i < |keys| && forall j :: 0 <= j < i ==> keys[j].keyId != keys[i].keyId
    ensures FindKey(keys, keys[i].keyId) == Some(keys[i])
  {
    if i > 0 {
      FindAt(keys[1..], i - 1);
      assert keys[0].keyId != keys[i].keyId;
    }
  }

  lemma {:induction false} FindNone(keys: seq<Key>, keyId: string)
    requires forall j :: 0 <= j < |keys| ==> keys[j].keyId != keyId
    ensures FindKey(keys, keyId) == None
  {
    if keys != [] {
      FindNone(keys[1..], keyId);
    }
  }

  lemma SameRotation(rotations: seq<Rotation>, i: nat, j: nat)
    requires DistinctKeyIds(rotations) && i < |rotations| && j < |rotations|
    ensures rotations[i].keyId == rotations[j].keyId <==> i == j
  {
  }

  lemma WhereInWindow(rotations: seq<Rotation>, maximumRetired: nat, j: int)
    requires 1 <= j <= |rotations| && DistinctKeyIds(rotations)
    ensures var keys := Window(rotations, maximumRetired);
      forall i :: 0 <= i < |keys| ==> (keys[i].keyId == rotations[j - 1].keyId <==> |rotations| - i == j)
  {
    var keys := Window(rotations, maximumRetired);
    forall i | 0 <= i < |keys|
      ensures keys[i].keyId == rotations[j - 1].keyId <==> |rotations| - i == j
    {
      WindowAt(rotations, maximumRetired, i);
      SameRotation(rotations, |rotations| - i - 1, j - 1);
    }
  }

  /** After all rotations the key of rotation `j` is found exactly when the window still holds it. */
  lemma FindInRing(rotations: seq<Rotation>, maximumRetired: nat, j: int)
    requires 1 <= j <= |rotations| && DistinctKeyIds(rotations)
    ensures FindKey(After(rotations, maximumRetired), rotations[j - 1].keyId)
         == if |rotations| - j <= maximumRetired then Some(KeyOf(rotations, j)) else None
  {
    RingIsWindow(rotations, maximumRetired);
    WhereInWindow(rotations, maximumRetired, j);
    var keys, i := Window(rotations, maximumRetired), |rotations| - j;
    if i <= maximumRetired {
      WindowAt(rotations, maximumRetired, i);
      assert keys[i] == KeyOf(rotations, j) && keys[i].keyId == rotations[j - 1].keyId;
      FindAt(keys, i);
    } else {
      FindNone(keys, rotations[j - 1].keyId);
    }
  }

  lemma ActiveOfRing(rotations: seq<Rotation>, maximumRetired: nat)
    requires rotations != []
    ensures FindActive(After(rotations, maximumRetired)) == Some(KeyOf(rotations, |rotations|))
  {
    RingIsWindow(rotations, maximumRetired);
    assert Window(rotations, maximumRetired)[0] == KeyOf(rotations, |rotations|);
  }

  /**
   * An envelope signed at `issuedAt` after the first n rotations verifies, after r more, exactly
   * when at most `maximumRetired` rotations followed and the first of them was not earlier than it.
   */
  lemma EnvelopeOutlivesRotations(
      scheme: Scheme, rotations: seq<Rotation>, n: nat, maximumRetired: nat,
      issuedAt: int, requestId: string, resource: string, payload: Js)
    requires Correct(scheme) && DistinctKeyIds(rotations) && 1 <= n <= |rotations| && n <= MAX_SAFE
    requires requestId != "" && IsCanonical(payload, 0)
    ensures FindActive(After(rotations[..n], maximumRetired)).Some?
    ensures var e := Signed(scheme, After(rotations[..n], maximumRetired), issuedAt, requestId, resource, payload);
      ServerVerifies(scheme, After(rotations, maximumRetired), e)
      <==> |rotations| - n <= maximumRetired && (n < |rotations| ==> issuedAt <= rotations[n].now)
  {
    ActiveOfRing(rotations[..n], maximumRetired);
    FindInRing(rotations, maximumRetired, n);
    var e := Signed(scheme, After(rotations[..n], maximumRetired), issuedAt, requestId, resource, payload);
    assert e.message.keyId == rotations[n - 1].keyId && e.message.keyVersion == n;
    assert scheme.verify(e.message.keyId, e.message, e.signature.bytes);
  }

  /** The envelope names rotation `j`, still in the ring, and was issued before the key was replaced. */
  predicate SignedUnder(rotations: seq<Rotation>, maximumRetired: nat, m: Message, j: int)
    requires 1 <= j <= |rotations|
  {
    && |rotations| - j <= maximumRetired && m.keyId == rotations[j - 1].keyId && m.keyVersion == j
    && m.issuedAt.Some? && (j < |rotations| ==> m.issuedAt.value <= rotations[j].now)
  }

  /**
   * Verification after any rotations, for any envelope: it holds exactly when the envelope is of version 1
   * with a request id, its signature is written canonically and verifies under the key it names, its
   * payload passes the check, and it names a rotation of the ring by key id and number.
   */
  lemma VerifiesExactly(scheme: Scheme, rotations: seq<Rotation>, maximumRetired: nat, e: Envelope)
    requires rotations != [] && DistinctKeyIds(rotations)
    ensures ServerVerifies(scheme, After(rotations, maximumRetired), e)
      <==> && e.message.signatureVersion == 1 && e.message.requestId != "" && IsCanonical(e.message.payload, 0)
           && e.signature.Canonical? && scheme.verify(e.message.keyId, e.message, e.signature.bytes)
           && e.message.keyVersion <= 9_007_199_254_740_991
           && exists j :: 1 <= j <= |rotations| && SignedUnder(rotations, maximumRetired, e.message, j)
  {
    var keys := After(rotations, maximumRetired);
    if FindKey(keys, e.message.keyId).Some? {
      var j := RotationFound(rotations, maximumRetired, e.message.keyId);
      assert SignedUnder(rotations, maximumRetired, e.message, j) <==>
          e.message.keyVersion == j && e.message.issuedAt.Some?
          && (j < |rotations| ==> e.message.issuedAt.value <= rotations[j].now);
      forall k | 1 <= k <= |rotations| && SignedUnder(rotations, maximumRetired, e.message, k)
        ensures k == j
      {
        SameRotation(rotations, k - 1, j - 1);
      }
    } else {
      forall k | 1 <= k <= |rotations|
        ensures !SignedUnder(rotations, maximumRetired, e.message, k)
      {
        FindInRing(rotations, maximumRetired, k);
      }
    }
  }

  /** A key found in the ring is that of a rotation still in the window. */
  lemma RotationFound(rotations: seq<Rotation>, maximumRetired: nat, keyId: string) returns (j: int)
    requires DistinctKeyIds(rotations) && FindKey(After(rotations, maximumRetired), keyId).Some?
    ensures 1 <= j <= |rotations| && |rotations| - j <= maximumRetired && rotations[j - 1].keyId == keyId
    ensures FindKey(After(rotations, maximumRetired), keyId).value == KeyOf(rotations, j)
  {
    RingIsWindow(rotations, maximumRetired);
    var keys := Window(rotations, maximumRetired);
    FoundHasId(keys, keyId);
    j := RotationOf(rotations, maximumRetired, FindKey(keys, keyId).value);
  }

  lemma RotationOf(rotations: seq<Rotation>, maximumRetired: nat, key: Key) returns (j: int)
    requires key in Window(rotations, maximumRetired)
    ensures 1 <= j <= |rotations| && |rotations| - j <= maximumRetired && key == KeyOf(rotations, j)
  {
    var keys := Window(rotations, maximumRetired);
    var i :| 0 <= i < |keys| && keys[i] == key;
    WindowAt(rotations, maximumRetired, i);
    j := |rotations| - i;
  }

  // ---------------------------------------------------------------------------
  // The published keyset
  // ---------------------------------------------------------------------------

  datatype Keyset = Keyset(activeKeyId: string, keys: seq<Key>)

  function Published(keys: seq<Key>): Keyset
    requires FindActive(keys).Some?
  {
    Keyset(FindActive(keys).value.keyId, keys)
  }

  function Actives(keys: seq<Key>): seq<Key> {
    if keys == [] then [] else (if keys[0].active then [keys[0]] else []) + Actives(keys[1..])
  }

  predicate UniqueKeyIds(keys: seq<Key>) {
    forall i, j :: 0 <= i < j < |keys| ==> keys[i].keyId != keys[j].keyId
  }

  /** isValidKeyset. */
  predicate ValidKeyset(ks: Keyset) {
    && 1 <= |ks.keys| <= KEYSET_MAX_KEYS
    && |Actives(ks.keys)| == 1 && Actives(ks.keys)[0].keyId == ks.activeKeyId
    && UniqueKeyIds(ks.keys)
  }

  lemma {:induction false} NoActives(keys: seq<Key>)
    requires forall i :: 0 <= i < |keys| ==> !keys[i].active
    ensures Actives(keys) == []
  {
    if keys != [] {
      NoActives(keys[1..]);
    }
  }

  /** The keyset the ring publishes is valid to the browser exactly when it has at most eight keys. */
  lemma PublishedKeysetIsValid(rotations: seq<Rotation>, maximumRetired: nat)
    requires rotations != [] && DistinctKeyIds(rotations)
    ensures FindActive(After(rotations, maximumRetired)).Some?
    ensures ValidKeyset(Published(After(rotations, maximumRetired)))
      <==> |rotations| <= 8 || maximumRetired + 1 <= 8
  {
    ActiveOfRing(rotations, maximumRetired);
    RingIsWindow(rotations, maximumRetired);
    OneActive(rotations, maximumRetired);
    WindowIdsDiffer(rotations, maximumRetired);
  }

  lemma OneActive(rotations: seq<Rotation>, maximumRetired: nat)
    requires rotations != []
    ensures Actives(Window(rotations, maximumRetired)) == [KeyOf(rotations, |rotations|)]
  {
    var keys := Window(rotations, maximumRetired);
    assert keys == [keys[0]] + keys[1..] && keys[0] == KeyOf(rotations, |rotations|);
    forall i | 0 <= i < |keys[1..]|
      ensures !keys[1..][i].active
    {
      assert keys[1..][i] == KeyOf(rotations, |rotations| - i - 1);
    }
    NoActives(keys[1..]);
  }

  lemma WindowIdsDiffer(rotations: seq<Rotation>, maximumRetired: nat)
    requires DistinctKeyIds(rotations)
    ensures UniqueKeyIds(Window(rotations, maximumRetired))
  {
    var keys := Window(rotations, maximumRetired);
    forall i, j | 0 <= i < j < |keys|
      ensures keys[i].keyId != keys[j].keyId
    {
      WindowAt(rotations, maximumRetired, i);
      WindowAt(rotations, maximumRetired, j);
      SameRotation(rotations, |rotations| - i - 1, |rotations| - j - 1);
    }
  }

  /** verifyEnvelope, on a keyset the browser holds and at an instant of the browser's clock. */
  predicate BrowserVerifies(scheme: Scheme, ks: Keyset, e: Envelope, expectedResource: string, now: int) {
    && Shaped(e) && !e.signature.Malformed?
    && AssertCanonical(e.message.payload, 0)
    && var key := FindKey(ks.keys, e.message.keyId);
      && key.Some? && key.value.version == e.message.keyVersion
      && (key.value.active <==> key.value.keyId == ks.activeKeyId)
      && e.message.resource == expectedResource
      && e.message.issuedAt.Some? && -MAX_SKEW_MS <= now - e.message.issuedAt.value <= MAX_SKEW_MS
      && (!key.value.active ==> key.value.retiredAt.Some? && e.message.issuedAt.value <= key.value.retiredAt.value)
      && scheme.verify(e.message.keyId, e.message, e.signature.bytes)
  }

  lemma {:induction false} FoundHasId(keys: seq<Key>, keyId: string)
    requires FindKey(keys, keyId).Some?
    ensures FindKey(keys, keyId).value.keyId == keyId
    ensures FindKey(keys, keyId).value in keys
  {
    if keys[0].keyId != keyId {
      FoundHasId(keys[1..], keyId);
    }
  }

  /** In the ring, the key that is active is the one the keyset names. */
  lemma ActiveIsNamed(rotations: seq<Rotation>, maximumRetired: nat, keyId: string)
    requires rotations != [] && DistinctKeyIds(rotations)
    requires FindKey(After(rotations, maximumRetired), keyId).Some?
    ensures var key := FindKey(After(rotations, maximumRetired), keyId).value;
      key.active <==> key.keyId == rotations[|rotations| - 1].keyId
  {
    RingIsWindow(rotations, maximumRetired);
    var keys, n := Window(rotations, maximumRetired), |rotations|;
    FoundHasId(keys, keyId);
    var key := FindKey(keys, keyId).value;
    var i :| 0 <= i < |keys| && keys[i] == key;
    WindowAt(rotations, maximumRetired, i);
    SameRotation(rotations, n - i - 1, n - 1);
  }

  /** The same envelope with its signature written the canonical way. */
  function Canonically(e: Envelope): Envelope {
    if e.signature.Loose? then e.(signature := Canonical(e.signature.bytes)) else e
  }

  /**
   * For a payload that came through JSON.parse, the browser accepts an envelope under the published
   * keyset exactly when the server would accept it, for the resource asked for and within the clock
   * window, had its signature been written canonically. Only the server insists on that writing.
   */
  lemma BothEndsAgree(
      scheme: Scheme, rotations: seq<Rotation>, maximumRetired: nat, e: Envelope, expectedResource: string, now: int)
    requires rotations != [] && DistinctKeyIds(rotations) && Parsed(e.message.payload)
    ensures FindActive(After(rotations, maximumRetired)).Some?
    ensures var keys := After(rotations, maximumRetired);
      BrowserVerifies(scheme, Published(keys), e, expectedResource, now)
      <==> && ServerVerifies(scheme, keys, Canonically(e))
           && e.message.resource == expectedResource
           && -300_000 <= now - e.message.issuedAt.value <= 300_000
    ensures ServerVerifies(scheme, After(rotations, maximumRetired), e)
      <==> e.signature.Canonical? && ServerVerifies(scheme, After(rotations, maximumRetired), Canonically(e))
  {
    ActiveOfRing(rotations, maximumRetired);
    ChecksAgree(e.message.payload, 0);
    var keys := After(rotations, maximumRetired);
    if FindKey(keys, e.message.keyId).Some? {
      ActiveIsNamed(rotations, maximumRetired, e.message.keyId);
    }
  }

  // ---------------------------------------------------------------------------
  // The provider
  // ---------------------------------------------------------------------------

  /** The key provider: rotation replaces its ring. Each generated pair's key id is handed in. */
  class KeyProvider {
    const scheme: Scheme
    const maximumRetiredKeys: nat
    var keys: seq<Key>
    ghost var rotations: seq<Rotation>

    ghost predicate Valid()
      reads this
    {
      rotations != [] && keys == After(rotations, maximumRetiredKeys)
    }

    constructor (scheme: Scheme, maximumRetiredKeys: nat, now: int, keyId: string)
      requires 1 <= maximumRetiredKeys
      ensures Valid() && this.scheme == scheme && this.maximumRetiredKeys == maximumRetiredKeys
      ensures rotations == [Rotation(now, keyId)]
    {
      this.scheme, this.maximumRetiredKeys := scheme, maximumRetiredKeys;
      keys := Rotated([], now, keyId, maximumRetiredKeys);
      rotations := [Rotation(now, keyId)];
      new;
      assert rotations[..0] == [];
    }

    method Rotate(now: int, keyId: string) returns (published: Key)
      requires Valid()
      modifies this
      ensures Valid() && rotations == old(rotations) + [Rotation(now, keyId)]
      ensures keys == Rotated(old(keys), now, keyId, maximumRetiredKeys)
      ensures published == keys[0] && published == KeyOf(rotations, |rotations|)
    {
      var retired := Retire(keys, now);
      var version := HighestVersion(retired) + 1;
      var active := Key(keyId, version, true, now, None);
      var retained := Take(SortByVersion(Retired(retired)), maximumRetiredKeys);
      keys := [active] + retained;
      rotations := rotations + [Rotation(now, keyId)];
      assert rotations[..|rotations| - 1] == old(rotations);
      RingIsWindow(rotations, maximumRetiredKeys);
      published := active;
      assert keys[0] == Window(rotations, maximumRetiredKeys)[0];
    }

    method Sign(issuedAt: int, requestId: string, resource: string, payload: Js) returns (e: Envelope)
      requires Valid()
      ensures e.message.keyId == rotations[|rotations| - 1].keyId && e.message.keyVersion == |rotations|
      ensures e.message.signatureVersion == 1 && e.message.issuedAt == Some(issuedAt) && e.message.payload == payload
      ensures e.message.requestId == requestId && e.message.resource == resource
      ensures Correct(scheme) && DistinctKeyIds(rotations) && |rotations| <= MAX_SAFE ==>
        (ServerVerifies(scheme, keys, e) <==> requestId != "" && IsCanonical(payload, 0))
    {
      ActiveOfRing(rotations, maximumRetiredKeys);
      var key := FindActive(keys).value;
      var message := Message(1, key.keyId, key.version, Some(issuedAt), requestId, resource, payload);
      e := Envelope(message, Canonical(scheme.sign(key.keyId, message)));
      if Correct(scheme) && DistinctKeyIds(rotations) && |rotations| <= MAX_SAFE {
        assert rotations[..|rotations|] == rotations;
        FindInRing(rotations, maximumRetiredKeys, |rotations|);
        assert scheme.verify(key.keyId, message, e.signature.bytes);
      }
    }

    method Verify(e: Envelope) returns (ok: bool)
      ensures ok <==> ServerVerifies(scheme, keys, e)
    {
      if !Shaped(e) || !e.signature.Canonical? || e.message.issuedAt.None? { return false; }
      if !IsCanonical(e.message.payload, 0) { return false; }
      var key := FindKey(keys, e.message.keyId);
      if key.None? || key.value.version != e.message.keyVersion { return false; }
      if !key.value.active {
        if key.value.retiredAt.None? || key.value.retiredAt.value < e.message.issuedAt.value { return false; }
      }
      return scheme.verify(e.message.keyId, e.message, e.signature.bytes);
    }
  }
}
