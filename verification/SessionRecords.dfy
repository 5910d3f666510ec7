/**
 * The operator session record, the table that holds the records, and the two orders in which
 * the store lists them (backoffice/src/server/session-store.ts).
 *
 * A table maps a session id to its record, the primary key of the database table and the key of
 * the in-memory `sessions` map alike.
 */
module SessionRecords {
  import opened Texts
  import opened Wrappers

  datatype Role = ComplianceLead | SupportL1 | AmlInvestigator | FraudInvestigator | Auditor

  datatype Record = Record(
    id: string,
    subject: string,
    email: string,
    name: string,
    role: Role,
    token: string,
    device: Option<string>,
    issuedAt: int,
    expiresAt: int,
    lastUsedAt: int,
    revoked: bool,
    revokedAt: Option<int>)

  type Table = map<string, Record>

  predicate Unrevoked(r: Record) {
    r.revokedAt.None?
  }

  /** An unrevoked record whose lifetime has ended: what every lazy eviction removes. */
  predicate Stale(r: Record, now: int) {
    Unrevoked(r) && r.expiresAt <= now
  }

  predicate LiveAt(r: Record, now: int) {
    Unrevoked(r) && now < r.expiresAt
  }

  /** Every record is stored under its own id. */
  ghost predicate Keyed(t: Table) {
    forall id :: id in t ==> t[id].id == id
  }

  /** No two records answer to one bearer digest. */
  ghost predicate UniqueTokens(t: Table) {
    forall i, j :: i in t && j in t && t[i].token == t[j].token ==> i == j
  }

  function Rows(t: Table): set<Record> {
    t.Values
  }

  function Ids(rows: set<Record>): set<string> {
    set r | r in rows :: r.id
  }

  /** Rows taken from a keyed table are told apart by their ids. */
  ghost predicate DistinctIds(rows: set<Record>) {
    forall a, b :: a in rows && b in rows && a.id == b.id ==> a == b
  }

  lemma RowsOfKeyed(t: Table)
    requires Keyed(t)
    ensures forall r :: r in Rows(t) <==> r.id in t && t[r.id] == r
    ensures DistinctIds(Rows(t))
  {
    forall r | r in Rows(t)
      ensures r.id in t && t[r.id] == r
    {
      var id :| id in t && t[id] == r;
    }
    forall r: Record | r.id in t && t[r.id] == r
      ensures r in Rows(t)
    {
    }
  }

  lemma IdsMembership(t: Table, rows: set<Record>, id: string)
    requires Keyed(t) && rows <= Rows(t)
    ensures id in Ids(rows) <==> id in t && t[id] in rows
  {
    RowsOfKeyed(t);
    if id in t && t[id] in rows {
      assert t[id].id == id;
    }
  }

  lemma {:induction false} IdsCount(rows: set<Record>)
    requires DistinctIds(rows)
    ensures |Ids(rows)| == |rows|
  {
    if rows != {} {
      var r :| r in rows;
      IdsCount(rows - {r});
      assert r.id !in Ids(rows - {r});
      assert Ids(rows) == Ids(rows - {r}) + {r.id};
    }
  }

  lemma {:induction false} SubsetCount<T>(a: set<T>, b: set<T>)
    requires a <= b
    ensures |a| <= |b|
  {
    if a != {} {
      var x :| x in a;
      SubsetCount(a - {x}, b - {x});
    }
  }

  // ---------------------------------------------------------------------------
  // Orders
  // ---------------------------------------------------------------------------

  /**
   * The two `sort` comparators of the store. Evictions rank a record by the instant it was
   * revoked, or issued when it never was; listings rank it by the instant it was last used.
   */
  datatype Order = ByAge | ByUse

  function Key(o: Order, r: Record): int {
    match o
    case ByAge => if r.revokedAt.Some? then r.revokedAt.value else r.issuedAt
    case ByUse => r.lastUsedAt
  }

  /** `a` sorts ahead of `b`: the later key first, the smaller id first among equal keys. */
  predicate Ahead(o: Order, a: Record, b: Record) {
    Key(o, b) < Key(o, a) || (Key(o, a) == Key(o, b) && Less(a.id, b.id))
  }

  lemma AheadTrichotomy(o: Order, a: Record, b: Record)
    ensures Ahead(o, a, b) || a.id == b.id || Ahead(o, b, a)
    ensures !(Ahead(o, a, b) && Ahead(o, b, a))
    ensures !Ahead(o, a, a)
  {
    LessIsTotal(a.id, b.id);
  }

  lemma AheadTransitive(o: Order, a: Record, b: Record, c: Record)
    requires Ahead(o, a, b) && Ahead(o, b, c)
    ensures Ahead(o, a, c)
  {
    if Key(o, a) == Key(o, b) == Key(o, c) {
      LessIsTransitive(a.id, b.id, c.id);
    }
  }

  // ---------------------------------------------------------------------------
  // Ranks: what ORDER BY, OFFSET and LIMIT mean for a set of rows
  // ---------------------------------------------------------------------------

  function RowsAhead(o: Order, rows: set<Record>, r: Record): set<Record> {
    set s | s in rows && Ahead(o, s, r)
  }

  /** The rows that `ORDER BY ... OFFSET n` leaves: those with at least `n` rows ahead of them. */
  function Offset(o: Order, rows: set<Record>, n: nat): set<Record> {
    set r | r in rows && n <= |RowsAhead(o, rows, r)|
  }

  /** `listed` is the rows in order. */
  ghost predicate Sorted(o: Order, listed: seq<Record>) {
    forall i, j :: 0 <= i < j < |listed| ==> Ahead(o, listed[i], listed[j])
  }

  function Elements(listed: seq<Record>): set<Record> {
    set r | r in listed
  }

  lemma {:induction false} ElementsCount(o: Order, listed: seq<Record>)
    requires Sorted(o, listed)
    ensures |Elements(listed)| == |listed|
  {
    if |listed| > 0 {
      var last := listed[|listed| - 1];
      var front := listed[..|listed| - 1];
      ElementsCount(o, front);
      if last in front {
        var i :| 0 <= i < |front| && front[i] == last;
        AheadTrichotomy(o, listed[i], listed[|listed| - 1]);
        assert false;
      }
      assert Elements(listed) == Elements(front) + {last};
    }
  }

  /** The rows ahead of the element at position `i` are exactly the `i` elements before it. */
  lemma RankInSorted(o: Order, listed: seq<Record>, i: nat)
    requires Sorted(o, listed) && i < |listed|
    ensures |RowsAhead(o, Elements(listed), listed[i])| == i
  {
    var before := RowsAhead(o, Elements(listed), listed[i]);
    forall s | s in Elements(listed)
      ensures s in before <==> s in listed[..i]
    {
      if s in listed[..i] {
        var j :| 0 <= j < i && listed[j] == s;
      } else {
        var j :| 0 <= j < |listed| && listed[j] == s;
        assert i <= j;
        AheadTrichotomy(o, listed[i], s);
      }
    }
    assert before == Elements(listed[..i]);
    ElementsCount(o, listed[..i]);
  }

  /** Sorting the rows and slicing off the first `n` removes exactly what OFFSET keeps. */
  lemma SliceIsOffset(o: Order, listed: seq<Record>, n: nat)
    requires Sorted(o, listed)
    ensures Elements(if n <= |listed| then listed[n..] else []) == Offset(o, Elements(listed), n)
  {
    var tail := if n <= |listed| then listed[n..] else [];
    forall r | r in Elements(listed)
      ensures r in tail <==> n <= |RowsAhead(o, Elements(listed), r)|
    {
      var i :| 0 <= i < |listed| && listed[i] == r;
      RankInSorted(o, listed, i);
      if n <= i {
        assert tail[i - n] == r;
      }
      if r in tail {
        var j :| 0 <= j < |tail| && tail[j] == r;
        RankInSorted(o, listed, n + j);
      }
    }
    forall r | r in tail
      ensures r in listed
    {
    }
  }

  /** A set of rows has at most one sorted listing. */
  lemma SortedUnique(o: Order, a: seq<Record>, b: seq<Record>)
    requires Sorted(o, a) && Sorted(o, b) && Elements(a) == Elements(b)
    ensures a == b
  {
    ElementsCount(o, a);
    ElementsCount(o, b);
    forall i | 0 <= i < |a|
      ensures a[i] == b[i]
    {
      RankInSorted(o, a, i);
      assert a[i] in Elements(b);
      var j :| 0 <= j < |b| && b[j] == a[i];
      RankInSorted(o, b, j);
    }
  }

  /** What OFFSET leaves out: at most the first `n` rows. */
  lemma OffsetKeeps(o: Order, listed: seq<Record>, n: nat)
    requires Sorted(o, listed)
    ensures |Elements(listed) - Offset(o, Elements(listed), n)| == if n <= |listed| then n else |listed|
  {
    SliceIsOffset(o, listed, n);
    ElementsCount(o, listed);
    if n <= |listed| {
      ElementsCount(o, listed[n..]);
      assert Elements(listed[n..]) <= Elements(listed);
    } else {
      assert Offset(o, Elements(listed), n) == {};
    }
  }

  /** Insertion of one row into a sorted listing. */
  function Insert(o: Order, r: Record, listed: seq<Record>): seq<Record> {
    if listed == [] || Ahead(o, r, listed[0]) then [r] + listed
    else [listed[0]] + Insert(o, r, listed[1..])
  }

  lemma {:induction false} InsertSorts(o: Order, r: Record, listed: seq<Record>)
    requires Sorted(o, listed)
    requires forall s :: s in listed ==> s.id != r.id
    ensures Sorted(o, Insert(o, r, listed))
    ensures Elements(Insert(o, r, listed)) == Elements(listed) + {r}
  {
    var inserted := Insert(o, r, listed);
    if listed == [] {
    } else if Ahead(o, r, listed[0]) {
      forall j | 0 < j < |inserted|
        ensures Ahead(o, r, inserted[j])
      {
        if j > 1 {
          AheadTransitive(o, r, listed[0], listed[j - 1]);
        }
      }
    } else {
      InsertSorts(o, r, listed[1..]);
      AheadTrichotomy(o, r, listed[0]);
      assert listed[0] in listed;
      var rest := Insert(o, r, listed[1..]);
      forall j | 0 <= j < |rest|
        ensures Ahead(o, listed[0], rest[j])
      {
        assert rest[j] in Elements(rest);
        if rest[j] != r {
          assert rest[j] in listed[1..];
          var i :| 0 <= i < |listed[1..]| && listed[1..][i] == rest[j];
          assert listed[i + 1] == rest[j];
        }
      }
      assert Elements(listed) == Elements(listed[1..]) + {listed[0]};
      assert Elements(inserted) == Elements(rest) + {listed[0]};
    }
  }

  /** The rows in order, as ORDER BY returns them. */
  ghost function Listing(o: Order, rows: set<Record>): (listed: seq<Record>)
    requires DistinctIds(rows)
    ensures Sorted(o, listed) && Elements(listed) == rows
  {
    if rows == {} then []
    else
      var r :| r in rows;
      var rest := Listing(o, rows - {r});
      InsertSorts(o, r, rest);
      Insert(o, r, rest)
  }
}
