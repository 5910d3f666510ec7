/**
 * The subjects of the operator contract, as rows of the list: the server's parser
 * (parseOperatorSubjectsView in backoffice/src/server/customer-api-client.ts), the camelCase copy the
 * server sends on (backoffice/src/server/server.ts), and the browser's parser of that copy
 * (parseOperatorSubjectsView in backoffice/src/data/operator.ts). The balances of a subject's detail
 * are here too.
 */
module SubjectRows {
  import opened Wrappers
  import opened ContractJson
  import opened ContractPages
  import Decimals = ReportDecimals
  import opened SubjectActivity
  import opened Timestamps

  datatype Row = SubjectRow(
    subjectId: string, displayName: string, kycStatus: string, flags: int, registeredAt: string, lastActiveAt: string)

  datatype Balance = Balance(asset: string, scale: int, available: string, hold: string)

  const MAX_SUBJECTS := 64
  const KYC_STATUSES := {"unverified", "pending", "verified"}
  const ASSETS := ["RUB", "TON", "USDT"]

  predicate RowStands(r: Row) {
    && CustomerRef(r.subjectId) && DisplayName(r.displayName) && r.kycStatus in KYC_STATUSES && 0 <= r.flags
    && IsIso(r.registeredAt) && IsIso(r.lastActiveAt) && Instant(r.registeredAt) <= Instant(r.lastActiveAt)
  }

  function SubjectId(r: Row): string {
    r.subjectId
  }

  ghost predicate AllRowsStand(rows: seq<Row>) {
    forall i :: 0 <= i < |rows| ==> RowStands(rows[i])
  }

  ghost predicate RowsStand(rows: seq<Row>) {
    AllRowsStand(rows) && DistinctBy(SubjectId, rows)
  }

  /** The balances in the fixed order of the assets, each at its asset's scale. */
  predicate BalanceStands(b: Balance, index: nat) {
    && index < |ASSETS| && b.asset == ASSETS[index]
    && var scale := Decimals.ScaleOf(b.asset);
      && scale.Some? && b.scale == scale.value
      && ScaledAmount(b.available, scale.value) && ScaledAmount(b.hold, scale.value)
  }

  ghost predicate BalancesStand(page: seq<Balance>) {
    forall i :: 0 <= i < |page| ==> BalanceStands(page[i], i)
  }

  // ---------------------------------------------------------------------------
  // Rows and balances on the wire
  // ---------------------------------------------------------------------------

  function SnakeRow(r: Row): Raw {
    Obj(map["subject_id" := Str(r.subjectId), "display_name" := Str(r.displayName), "kyc_status" := Str(r.kycStatus),
            "flags" := IntRaw(r.flags), "registered_at" := Str(r.registeredAt), "last_active_at" := Str(r.lastActiveAt),
            "posting" := Str("none")])
  }

  function ReadSnakeRow(v: Raw): Option<Row> {
    if !HasExactKeys(v, {"subject_id", "display_name", "kyc_status", "flags", "registered_at", "last_active_at",
                         "posting"})
    then None
    else
      var f := v.fields;
      if !f["subject_id"].Str? || !f["display_name"].Str? || !f["kyc_status"].Str? || !IsInt(f["flags"])
         || !f["registered_at"].Str? || !f["last_active_at"].Str? || f["posting"] != Str("none")
      then None
      else Some(SubjectRow(f["subject_id"].s, f["display_name"].s, f["kyc_status"].s, f["flags"].n.Floor,
                           f["registered_at"].s, f["last_active_at"].s))
  }

  lemma SnakeRowIsWritten(v: Raw)
    requires ReadSnakeRow(v).Some?
    ensures SnakeRow(ReadSnakeRow(v).value) == v
  {
    assert SnakeRow(ReadSnakeRow(v).value).fields == v.fields;
  }

  lemma SnakeRowReadsBack(r: Row)
    ensures ReadSnakeRow(SnakeRow(r)) == Some(r)
  {
  }

  lemma SnakeRowsRoundTrip()
    ensures Undoes(ReadSnakeRow, SnakeRow)
  {
    forall v | ReadSnakeRow(v).Some?
      ensures SnakeRow(ReadSnakeRow(v).value) == v
    {
      SnakeRowIsWritten(v);
    }
    forall r
      ensures ReadSnakeRow(SnakeRow(r)) == Some(r)
    {
      SnakeRowReadsBack(r);
    }
  }

  function SnakeBalance(b: Balance): Raw {
    Obj(map["asset" := Str(b.asset), "asset_scale" := IntRaw(b.scale), "available" := Str(b.available),
            "hold" := Str(b.hold)])
  }

  function ReadSnakeBalance(v: Raw): Option<Balance> {
    if !HasExactKeys(v, {"asset", "asset_scale", "available", "hold"}) then None
    else
      var f := v.fields;
      if !f["asset"].Str? || !IsInt(f["asset_scale"]) || !f["available"].Str? || !f["hold"].Str? then None
      else Some(Balance(f["asset"].s, f["asset_scale"].n.Floor, f["available"].s, f["hold"].s))
  }

  lemma SnakeBalancesRoundTrip()
    ensures Undoes(ReadSnakeBalance, SnakeBalance)
  {
    forall v | ReadSnakeBalance(v).Some?
      ensures SnakeBalance(ReadSnakeBalance(v).value) == v
    {
      assert SnakeBalance(ReadSnakeBalance(v).value).fields == v.fields;
    }
  }

  function CamelRow(r: Row): Raw {
    Obj(map["subjectId" := Str(r.subjectId), "displayName" := Str(r.displayName), "kycStatus" := Str(r.kycStatus),
            "flags" := IntRaw(r.flags), "registeredAt" := Str(r.registeredAt), "lastActiveAt" := Str(r.lastActiveAt),
            "posting" := Str("none")])
  }

  function ReadCamelRow(v: Raw): Option<Row> {
    if !HasExactKeys(v, {"subjectId", "displayName", "kycStatus", "flags", "registeredAt", "lastActiveAt",
                         "posting"})
    then None
    else
      var f := v.fields;
      if !f["subjectId"].Str? || !f["displayName"].Str? || !f["kycStatus"].Str? || !IsInt(f["flags"])
         || !f["registeredAt"].Str? || !f["lastActiveAt"].Str? || f["posting"] != Str("none")
      then None
      else Some(SubjectRow(f["subjectId"].s, f["displayName"].s, f["kycStatus"].s, f["flags"].n.Floor,
                           f["registeredAt"].s, f["lastActiveAt"].s))
  }

  lemma CamelRowIsWritten(v: Raw)
    requires ReadCamelRow(v).Some?
    ensures CamelRow(ReadCamelRow(v).value) == v
  {
    assert CamelRow(ReadCamelRow(v).value).fields == v.fields;
  }

  lemma CamelRowReadsBack(r: Row)
    ensures ReadCamelRow(CamelRow(r)) == Some(r)
  {
  }

  lemma CamelRowsRoundTrip()
    ensures Undoes(ReadCamelRow, CamelRow)
  {
    forall v | ReadCamelRow(v).Some?
      ensures CamelRow(ReadCamelRow(v).value) == v
    {
      CamelRowIsWritten(v);
    }
    forall r
      ensures ReadCamelRow(CamelRow(r)) == Some(r)
    {
      CamelRowReadsBack(r);
    }
  }

  function CamelBalance(b: Balance): Raw {
    Obj(map["asset" := Str(b.asset), "assetScale" := IntRaw(b.scale), "available" := Str(b.available),
            "hold" := Str(b.hold)])
  }

  function ReadCamelBalance(v: Raw): Option<Balance> {
    if !HasExactKeys(v, {"asset", "assetScale", "available", "hold"}) then None
    else
      var f := v.fields;
      if !f["asset"].Str? || !IsInt(f["assetScale"]) || !f["available"].Str? || !f["hold"].Str? then None
      else Some(Balance(f["asset"].s, f["assetScale"].n.Floor, f["available"].s, f["hold"].s))
  }

  lemma CamelBalancesRoundTrip()
    ensures Undoes(ReadCamelBalance, CamelBalance)
  {
    forall v | ReadCamelBalance(v).Some?
      ensures CamelBalance(ReadCamelBalance(v).value) == v
    {
      assert CamelBalance(ReadCamelBalance(v).value).fields == v.fields;
    }
  }

  // ---------------------------------------------------------------------------
  // The loops' tests
  // ---------------------------------------------------------------------------

  predicate AdmitsRow(rows: seq<Row>, r: Row) {
    RowStands(r) && r.subjectId !in IdsOf(SubjectId, rows)
  }

  ghost predicate DecidesRow(admits: (seq<Row>, Row) -> bool) {
    forall rows, r {:trigger AdmitsRow(rows, r)} :: admits(rows, r) <==> AdmitsRow(rows, r)
  }

  lemma ExtendRows(rows: seq<Row>, r: Row)
    requires RowsStand(rows)
    ensures RowsStand(rows + [r]) <==> AdmitsRow(rows, r)
  {
    RowExtends(rows, r);
    IdsStayDistinct(SubjectId, rows, r);
  }

  lemma RowExtends(rows: seq<Row>, r: Row)
    requires AllRowsStand(rows)
    ensures AllRowsStand(rows + [r]) <==> RowStands(r)
  {
    assert (rows + [r])[|rows|] == r;
  }

  lemma PrefixRows(rows: seq<Row>, more: seq<Row>)
    requires RowsStand(rows + more)
    ensures RowsStand(rows)
  {
    assert forall i :: 0 <= i < |rows| ==> (rows + more)[i] == rows[i];
  }

  /** The loop accepts exactly the lists whose rows stand under distinct references. */
  lemma ScanAcceptsStandingRows(items: seq<Raw>, read: Raw -> Option<Row>, admits: (seq<Row>, Row) -> bool)
    requires DecidesRow(admits)
    ensures Scan(items, read, admits, []) == Accepted(items, read, RowsStand)
  {
    forall rows, next | RowsStand(rows)
      ensures RowsStand(rows + [next]) <==> admits(rows, next)
    {
      ExtendRows(rows, next);
    }
    forall rows, more | RowsStand(rows + more)
      ensures RowsStand(rows)
    {
      PrefixRows(rows, more);
    }
    ScanAcceptsStandingLists(items, read, admits, RowsStand);
  }

  predicate AdmitsBalance(page: seq<Balance>, b: Balance) {
    BalanceStands(b, |page|)
  }

  ghost predicate DecidesBalance(admits: (seq<Balance>, Balance) -> bool) {
    forall page, b {:trigger AdmitsBalance(page, b)} :: admits(page, b) <==> AdmitsBalance(page, b)
  }

  lemma ScanAcceptsStandingBalances(
      items: seq<Raw>, read: Raw -> Option<Balance>, admits: (seq<Balance>, Balance) -> bool)
    requires DecidesBalance(admits)
    ensures Scan(items, read, admits, []) == Accepted(items, read, BalancesStand)
  {
    forall page, next | BalancesStand(page)
      ensures BalancesStand(page + [next]) <==> admits(page, next)
    {
      assert (page + [next])[|page|] == next;
      assert admits(page, next) <==> AdmitsBalance(page, next);
    }
    forall page, more | BalancesStand(page + more)
      ensures BalancesStand(page)
    {
      assert forall i :: 0 <= i < |page| ==> (page + more)[i] == page[i];
    }
    ScanAcceptsStandingLists(items, read, admits, BalancesStand);
  }

  // ---------------------------------------------------------------------------
  // The parsers
  // ---------------------------------------------------------------------------

  lemma ListFrame(v: Raw)
    requires HasExactKeys(v, {"mode", "subjects"}) && v.fields["mode"] == Str("test")
    ensures v == Obj(map["mode" := Str("test"), "subjects" := v.fields["subjects"]])
  {
    assert v.fields == map["mode" := Str("test"), "subjects" := v.fields["subjects"]];
  }

  method CheckRow(r: Row, seen: set<string>, ghost rows: seq<Row>, ghost admits: (seq<Row>, Row) -> bool)
    returns (ok: bool)
    requires DecidesRow(admits) && seen == IdsOf(SubjectId, rows)
    ensures ok == admits(rows, r)
  {
    assert admits(rows, r) <==> AdmitsRow(rows, r);
    ok := RowStands(r) && r.subjectId !in seen;
  }

  method CheckBalance(b: Balance, index: nat, ghost page: seq<Balance>, ghost admits: (seq<Balance>, Balance) -> bool)
    returns (ok: bool)
    requires DecidesBalance(admits) && index == |page|
    ensures ok == admits(page, b)
  {
    assert admits(page, b) <==> AdmitsBalance(page, b);
    ok := BalanceStands(b, index);
  }

  /** The loop of both ends, over the rows as each end reads them. */
  method ParseRows(items: seq<Raw>, read: Raw -> Option<Row>, ghost admits: (seq<Row>, Row) -> bool)
    returns (rows: Option<seq<Row>>)
    requires DecidesRow(admits)
    ensures rows == Scan(items, read, admits, [])
  {
    var seen: set<string> := {};
    var collected: seq<Row> := [];
    var index := 0;
    while index < |items|
      invariant 0 <= index <= |items| && seen == IdsOf(SubjectId, collected)
      invariant Scan(items[index..], read, admits, collected) == Scan(items, read, admits, [])
    {
      Round(items, index, read, admits, collected);
      var raw := read(items[index]);
      if raw.None? {
        return None;
      }
      var ok := CheckRow(raw.value, seen, collected, admits);
      if !ok {
        return None;
      }
      OneMoreId(SubjectId, collected, raw.value);
      seen := seen + {raw.value.subjectId};
      collected := collected + [raw.value];
      index := index + 1;
    }
    return Some(collected);
  }

  function SnakeList(rows: seq<Row>): Raw {
    Obj(map["mode" := Str("test"), "subjects" := Arr(WriteAll(rows, SnakeRow))])
  }

  method ServerParseList(v: Raw) returns (rows: Option<seq<Row>>)
    ensures rows == ServerList(v)
  {
    if !HasExactKeys(v, {"mode", "subjects"}) || v.fields["mode"] != Str("test") || !v.fields["subjects"].Arr? {
      return None;
    }
    var items := v.fields["subjects"].items;
    if |items| < 1 || MAX_SUBJECTS < |items| {
      return None;
    }
    ghost var admits := AdmitsRow;
    rows := ParseRows(items, ReadSnakeRow, admits);
    ScanAcceptsStandingRows(items, ReadSnakeRow, admits);
  }

  /** What the parser accepts, and returns. */
  ghost function ServerList(v: Raw): Option<seq<Row>> {
    if !HasExactKeys(v, {"mode", "subjects"}) || v.fields["mode"] != Str("test") || !v.fields["subjects"].Arr?
       || |v.fields["subjects"].items| < 1 || MAX_SUBJECTS < |v.fields["subjects"].items|
    then None
    else Accepted(v.fields["subjects"].items, ReadSnakeRow, RowsStand)
  }

  lemma ServerListReadsBack(rows: seq<Row>)
    requires 1 <= |rows| <= MAX_SUBJECTS && RowsStand(rows)
    ensures ServerList(SnakeList(rows)) == Some(rows)
  {
    SnakeRowsRoundTrip();
    ListExact(Arr(WriteAll(rows, SnakeRow)), rows, ReadSnakeRow, SnakeRow);
  }

  lemma ServerListIsWritten(v: Raw)
    requires ServerList(v).Some?
    ensures var rows := ServerList(v).value;
      v == SnakeList(rows) && 1 <= |rows| <= MAX_SUBJECTS && RowsStand(rows)
  {
    var rows := ServerList(v).value;
    SnakeRowsRoundTrip();
    ListExact(v.fields["subjects"], rows, ReadSnakeRow, SnakeRow);
    ListFrame(v);
    ReadAllItems(v.fields["subjects"].items, ReadSnakeRow);
  }

  lemma ServerListIsExact(v: Raw, rows: seq<Row>)
    ensures ServerList(v) == Some(rows)
      <==> v == SnakeList(rows) && 1 <= |rows| <= MAX_SUBJECTS && RowsStand(rows)
  {
    if ServerList(v) == Some(rows) {
      ServerListIsWritten(v);
    }
    if v == SnakeList(rows) && 1 <= |rows| <= MAX_SUBJECTS && RowsStand(rows) {
      ServerListReadsBack(rows);
    }
  }

  /** The loop of both ends over the balances: one for every asset, in their fixed order. */
  method ParseBalances(v: Raw, read: Raw -> Option<Balance>) returns (page: Option<seq<Balance>>)
    ensures page == AcceptedBalances(v, read)
  {
    if !v.Arr? || |v.items| != |ASSETS| {
      return None;
    }
    var items := v.items;
    ghost var admits := AdmitsBalance;
    ScanAcceptsStandingBalances(items, read, admits);
    var entries: seq<Balance> := [];
    var index := 0;
    while index < |items|
      invariant 0 <= index == |entries| <= |items|
      invariant Scan(items[index..], read, admits, entries) == Scan(items, read, admits, [])
    {
      Round(items, index, read, admits, entries);
      var raw := read(items[index]);
      if raw.None? {
        return None;
      }
      var ok := CheckBalance(raw.value, index, entries, admits);
      if !ok {
        return None;
      }
      entries := entries + [raw.value];
      index := index + 1;
    }
    return Some(entries);
  }

  ghost function AcceptedBalances(v: Raw, read: Raw -> Option<Balance>): Option<seq<Balance>> {
    if !v.Arr? || |v.items| != |ASSETS| then None else Accepted(v.items, read, BalancesStand)
  }

  method ServerParseBalances(v: Raw) returns (page: Option<seq<Balance>>)
    ensures page == ServerBalances(v)
  {
    page := ParseBalances(v, ReadSnakeBalance);
  }

  ghost function ServerBalances(v: Raw): Option<seq<Balance>> {
    AcceptedBalances(v, ReadSnakeBalance)
  }

  lemma ServerBalancesAreExact(v: Raw, page: seq<Balance>)
    ensures ServerBalances(v) == Some(page)
      <==> v == Arr(WriteAll(page, SnakeBalance)) && |page| == |ASSETS| && BalancesStand(page)
  {
    SnakeBalancesRoundTrip();
    ListExact(v, page, ReadSnakeBalance, SnakeBalance);
  }

  function CamelList(rows: seq<Row>): Raw {
    Obj(map["mode" := Str("test"), "subjects" := Arr(WriteAll(rows, CamelRow))])
  }

  method BrowserParseList(v: Raw) returns (rows: Option<seq<Row>>)
    ensures rows == BrowserList(v)
  {
    if !HasExactKeys(v, {"mode", "subjects"}) || v.fields["mode"] != Str("test") || !v.fields["subjects"].Arr? {
      return None;
    }
    var items := v.fields["subjects"].items;
    if |items| < 1 || MAX_SUBJECTS < |items| {
      return None;
    }
    ghost var admits := AdmitsRow;
    rows := ParseRows(items, ReadCamelRow, admits);
    ScanAcceptsStandingRows(items, ReadCamelRow, admits);
  }

  /** What the parser accepts, and returns. */
  ghost function BrowserList(v: Raw): Option<seq<Row>> {
    if !HasExactKeys(v, {"mode", "subjects"}) || v.fields["mode"] != Str("test") || !v.fields["subjects"].Arr?
       || |v.fields["subjects"].items| < 1 || MAX_SUBJECTS < |v.fields["subjects"].items|
    then None
    else Accepted(v.fields["subjects"].items, ReadCamelRow, RowsStand)
  }

  lemma BrowserListReadsBack(rows: seq<Row>)
    requires 1 <= |rows| <= MAX_SUBJECTS && RowsStand(rows)
    ensures BrowserList(CamelList(rows)) == Some(rows)
  {
    CamelRowsRoundTrip();
    ListExact(Arr(WriteAll(rows, CamelRow)), rows, ReadCamelRow, CamelRow);
  }

  lemma BrowserListIsWritten(v: Raw)
    requires BrowserList(v).Some?
    ensures var rows := BrowserList(v).value;
      v == CamelList(rows) && 1 <= |rows| <= MAX_SUBJECTS && RowsStand(rows)
  {
    var rows := BrowserList(v).value;
    CamelRowsRoundTrip();
    ListExact(v.fields["subjects"], rows, ReadCamelRow, CamelRow);
    ListFrame(v);
    ReadAllItems(v.fields["subjects"].items, ReadCamelRow);
  }

  lemma BrowserListIsExact(v: Raw, rows: seq<Row>)
    ensures BrowserList(v) == Some(rows)
      <==> v == CamelList(rows) && 1 <= |rows| <= MAX_SUBJECTS && RowsStand(rows)
  {
    if BrowserList(v) == Some(rows) {
      BrowserListIsWritten(v);
    }
    if v == CamelList(rows) && 1 <= |rows| <= MAX_SUBJECTS && RowsStand(rows) {
      BrowserListReadsBack(rows);
    }
  }

  method BrowserParseBalances(v: Raw) returns (page: Option<seq<Balance>>)
    ensures page == BrowserBalances(v)
  {
    page := ParseBalances(v, ReadCamelBalance);
  }

  ghost function BrowserBalances(v: Raw): Option<seq<Balance>> {
    AcceptedBalances(v, ReadCamelBalance)
  }

  lemma BrowserBalancesAreExact(v: Raw, page: seq<Balance>)
    ensures BrowserBalances(v) == Some(page)
      <==> v == Arr(WriteAll(page, CamelBalance)) && |page| == |ASSETS| && BalancesStand(page)
  {
    CamelBalancesRoundTrip();
    ListExact(v, page, ReadCamelBalance, CamelBalance);
  }

  /** A list the server accepts, copied out in camelCase, is accepted by the browser as the same list. */
  lemma BrowserAcceptsWhatServerRelays(v: Raw)
    requires ServerList(v).Some?
    ensures BrowserList(CamelList(ServerList(v).value)) == ServerList(v)
  {
    ServerListIsExact(v, ServerList(v).value);
    BrowserListIsExact(CamelList(ServerList(v).value), ServerList(v).value);
  }
}
