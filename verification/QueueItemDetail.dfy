/**
 * One queue item in detail, as the operator contract carries it: the server's parser
 * (parseOperatorQueueItemDetailView in backoffice/src/server/customer-api-client.ts), the camelCase
 * copy the server sends on (backoffice/src/server/server.ts), and the browser's parser of that copy
 * (parseOperatorQueueItemDetailView in backoffice/src/data/operator.ts).
 */
module QueueItemDetail {
  import opened Wrappers
  import opened ContractJson
  import opened ContractPages
  import D = Dossier
  import opened QueueItems
  import opened Texts
  import opened Timestamps

  datatype Flag = Flag(flagId: string, alertType: string, raisedAt: string)

  /** What each kind adds to the item of the list. */
  datatype Extra =
    | KycExtra(kyc: Option<D.Kyc>)
    | AmlExtra(flags: seq<Flag>)
    | TicketExtra(subject: string, lastMessageAt: string, otherOpenTickets: int)

  datatype ItemDetail = ItemDetail(item: Item, extra: Extra)

  const MAX_FLAGS := 8
  const MAX_SUBJECT := 160
  const MAX_OPEN := 64

  predicate ExtraOfKind(e: Extra, kind: Kind) {
    match kind
    case Kyc => e.KycExtra?
    case Aml => e.AmlExtra?
    case Tickets => e.TicketExtra?
  }

  // ---------------------------------------------------------------------------
  // What an accepted detail is
  // ---------------------------------------------------------------------------

  predicate FlagStands(f: Flag, snapshot: Option<int>) {
    && HexRef(f.flagId, "flg_", 24) && f.alertType in ALERT_TYPES && IsIso(f.raisedAt)
    && (snapshot.None? || Instant(f.raisedAt) <= snapshot.value)
  }

  function FlagPlace(f: Flag): Place
    requires IsIso(f.raisedAt)
  {
    Place(Instant(f.raisedAt), f.flagId)
  }

  predicate RaisedBefore(a: Flag, b: Flag) {
    IsIso(a.raisedAt) && IsIso(b.raisedAt) && Earlier(FlagPlace(a), FlagPlace(b))
  }

  function FlagIds(flags: seq<Flag>): seq<string> {
    if flags == [] then [] else FlagIds(flags[..|flags| - 1]) + [flags[|flags| - 1].flagId]
  }

  predicate AllFlagsStand(flags: seq<Flag>, snapshot: Option<int>) {
    forall i :: 0 <= i < |flags| ==> FlagStands(flags[i], snapshot)
  }

  /** The extension by itself. The server, which knows the snapshot, also asks for the flags' order. */
  ghost predicate ExtraStands(e: Extra, snapshot: Option<int>) {
    match e
    case KycExtra(kyc) => kyc.Some? ==> D.Stands(kyc.value, snapshot)
    case AmlExtra(flags) =>
      && |flags| <= MAX_FLAGS && AllFlagsStand(flags, snapshot) && Distinct(FlagIds(flags))
      && (snapshot.None? || OrderedBy(RaisedBefore, flags))
    case TicketExtra(subject, lastMessageAt, otherOpenTickets) =>
      && 1 <= UnitLength(subject) <= MAX_SUBJECT && IsIso(lastMessageAt)
      && (snapshot.None? || Instant(lastMessageAt) <= snapshot.value) && 0 <= otherOpenTickets <= MAX_OPEN
  }

  predicate ItemPartStands(item: Item, kind: Kind, itemId: string, snapshot: Option<int>) {
    && item.core.queueId == itemId && ItemStands(item, kind) && (snapshot.None? || AgeFits(item, snapshot.value))
  }

  ghost predicate DetailStands(d: ItemDetail, kind: Kind, itemId: string, snapshot: Option<int>) {
    ItemPartStands(d.item, kind, itemId, snapshot) && ExtraOfKind(d.extra, kind) && ExtraStands(d.extra, snapshot)
  }

  // The form of the customer API.

  function SnakeFlag(f: Flag): Raw {
    Obj(map["flag_id" := Str(f.flagId), "alert_type" := Str(f.alertType), "raised_at" := Str(f.raisedAt)])
  }

  function ReadSnakeFlag(v: Raw): Option<Flag> {
    if !HasExactKeys(v, {"flag_id", "alert_type", "raised_at"}) then None
    else
      var f := v.fields;
      if !f["flag_id"].Str? || !f["alert_type"].Str? || !f["raised_at"].Str? then None
      else Some(Flag(f["flag_id"].s, f["alert_type"].s, f["raised_at"].s))
  }

  lemma SnakeFlagsRoundTrip()
    ensures Undoes(ReadSnakeFlag, SnakeFlag)
  {
    forall v | ReadSnakeFlag(v).Some?
      ensures SnakeFlag(ReadSnakeFlag(v).value) == v
    {
      assert SnakeFlag(ReadSnakeFlag(v).value).fields == v.fields;
    }
  }

  function SnakeExtra(e: Extra): map<string, Raw> {
    match e
    case KycExtra(kyc) => map["kyc" := if kyc.None? then Null else D.SnakeKyc(kyc.value)]
    case AmlExtra(flags) => map["flags" := Arr(WriteAll(flags, SnakeFlag))]
    case TicketExtra(subject, lastMessageAt, otherOpenTickets) =>
      map["subject" := Str(subject), "last_message_at" := Str(lastMessageAt),
          "other_open_tickets" := IntRaw(otherOpenTickets)]
  }

  function SnakeExtraKeys(kind: Kind): set<string> {
    match kind
    case Kyc => {"kyc"}
    case Aml => {"flags"}
    case Tickets => {"subject", "last_message_at", "other_open_tickets"}
  }

  function ReadSnakeExtra(f: map<string, Raw>, kind: Kind): Option<Extra>
    requires SnakeExtraKeys(kind) <= f.Keys
  {
    match kind
    case Kyc =>
      if f["kyc"].Null? then Some(KycExtra(None))
      else if D.ReadSnakeKyc(f["kyc"]).None? then None
      else Some(KycExtra(D.ReadSnakeKyc(f["kyc"])))
    case Aml =>
      if !f["flags"].Arr? || ReadAll(f["flags"].items, ReadSnakeFlag).None? then None
      else Some(AmlExtra(ReadAll(f["flags"].items, ReadSnakeFlag).value))
    case Tickets =>
      if !f["subject"].Str? || !f["last_message_at"].Str? || !IsInt(f["other_open_tickets"]) then None
      else Some(TicketExtra(f["subject"].s, f["last_message_at"].s, f["other_open_tickets"].n.Floor))
  }

  /** The item's own keys and the kind's, and no others. */
  function ReadSnakeDetail(v: Raw, kind: Kind): Option<ItemDetail> {
    if !v.Obj? || !(SnakeExtraKeys(kind) <= v.fields.Keys) then None
    else
      var item := ReadSnakeItem(Obj(v.fields - SnakeExtraKeys(kind)));
      var extra := ReadSnakeExtra(v.fields, kind);
      if item.None? || extra.None? then None else Some(ItemDetail(item.value, extra.value))
  }

  function SnakeView(d: ItemDetail): Raw {
    Obj(map["mode" := Str("test"), "kind" := Str(KindText(KindOf(d.item))),
            "item" := Obj(SnakeItem(d.item).fields + SnakeExtra(d.extra))])
  }

  function ReadSnakeView(v: Raw, kind: Kind): Option<ItemDetail> {
    if !HasExactKeys(v, {"mode", "kind", "item"}) || v.fields["mode"] != Str("test")
       || v.fields["kind"] != Str(KindText(kind))
    then None
    else ReadSnakeDetail(v.fields["item"], kind)
  }

  /** A part of the fields, and the rest. */
  lemma PutTogether(f: map<string, Raw>, keys: set<string>, part: map<string, Raw>)
    requires keys <= f.Keys && part.Keys == keys && forall k :: k in part ==> part[k] == f[k]
    ensures f - keys + part == f
  {
  }

  lemma SnakeExtraReadsBack(e: Extra, kind: Kind)
    requires ExtraOfKind(e, kind)
    ensures SnakeExtra(e).Keys == SnakeExtraKeys(kind) && ReadSnakeExtra(SnakeExtra(e), kind) == Some(e)
  {
    match e
    case KycExtra(kyc) =>
      D.KycRoundTrip();
      assert kyc.Some? ==> D.ReadSnakeKyc(D.SnakeKyc(kyc.value)) == kyc;
    case AmlExtra(flags) =>
      SnakeFlagsRoundTrip();
      ListsRoundTrip(flags, ReadSnakeFlag, SnakeFlag);
    case TicketExtra(_, _, _) =>
  }

  lemma SnakeExtraIsWritten(f: map<string, Raw>, kind: Kind)
    requires SnakeExtraKeys(kind) <= f.Keys && ReadSnakeExtra(f, kind).Some?
    ensures var e := ReadSnakeExtra(f, kind).value;
      ExtraOfKind(e, kind) && SnakeExtra(e).Keys == SnakeExtraKeys(kind)
          && forall k :: k in SnakeExtra(e) ==> SnakeExtra(e)[k] == f[k]
  {
    match kind
    case Kyc =>
      D.KycRoundTrip();
      assert !f["kyc"].Null? ==> D.SnakeKyc(D.ReadSnakeKyc(f["kyc"]).value) == f["kyc"];
    case Aml =>
      SnakeFlagsRoundTrip();
      ReadListsAreWritten(f["flags"].items, ReadSnakeFlag, SnakeFlag);
    case Tickets =>
  }

  lemma SnakeKeysApart(item: Item)
    ensures SnakeItem(item).Obj? && SnakeItem(item).fields.Keys !! SnakeExtraKeys(KindOf(item))
  {
  }

  lemma SnakeViewReadsBack(d: ItemDetail)
    requires ExtraOfKind(d.extra, KindOf(d.item))
    ensures ReadSnakeView(SnakeView(d), KindOf(d.item)) == Some(d)
  {
    var kind, own, added := KindOf(d.item), SnakeItem(d.item).fields, SnakeExtra(d.extra);
    SnakeItemsRoundTrip();
    SnakeKeysApart(d.item);
    SnakeExtraReadsBack(d.extra, kind);
    assert (own + added) - SnakeExtraKeys(kind) == own;
    assert forall k :: k in SnakeExtraKeys(kind) ==> (own + added)[k] == added[k];
    assert ReadSnakeItem(Obj(own)) == Some(d.item);
    assert ReadSnakeExtra(own + added, kind) == ReadSnakeExtra(added, kind);
  }

  lemma SnakeViewIsWritten(v: Raw, kind: Kind)
    requires ReadSnakeView(v, kind).Some? && KindOf(ReadSnakeView(v, kind).value.item) == kind
    ensures ExtraOfKind(ReadSnakeView(v, kind).value.extra, kind)
    ensures SnakeView(ReadSnakeView(v, kind).value) == v
  {
    var d, f := ReadSnakeView(v, kind).value, v.fields["item"].fields;
    SnakeItemsRoundTrip();
    SnakeExtraIsWritten(f, kind);
    assert SnakeItem(d.item) == Obj(f - SnakeExtraKeys(kind));
    PutTogether(f, SnakeExtraKeys(kind), SnakeExtra(d.extra));
    assert v.fields == SnakeView(d).fields;
  }

  ghost function ServerItem(v: Raw, kind: Kind, itemId: string, snapshot: int): Option<ItemDetail> {
    var d := ReadSnakeView(v, kind);
    if d.Some? && DetailStands(d.value, kind, itemId, Some(snapshot)) then d else None
  }

  lemma ServerItemIsExact(v: Raw, d: ItemDetail, kind: Kind, itemId: string, snapshot: int)
    ensures ServerItem(v, kind, itemId, snapshot) == Some(d)
      <==> v == SnakeView(d) && DetailStands(d, kind, itemId, Some(snapshot))
  {
    if ServerItem(v, kind, itemId, snapshot) == Some(d) {
      SnakeViewIsWritten(v, kind);
    }
    if DetailStands(d, kind, itemId, Some(snapshot)) {
      SnakeViewReadsBack(d);
    }
  }

  // The camelCase copy.

  function CamelFlag(f: Flag): Raw {
    Obj(map["flagId" := Str(f.flagId), "alertType" := Str(f.alertType), "raisedAt" := Str(f.raisedAt)])
  }

  function ReadCamelFlag(v: Raw): Option<Flag> {
    if !HasExactKeys(v, {"flagId", "alertType", "raisedAt"}) then None
    else
      var f := v.fields;
      if !f["flagId"].Str? || !f["alertType"].Str? || !f["raisedAt"].Str? then None
      else Some(Flag(f["flagId"].s, f["alertType"].s, f["raisedAt"].s))
  }

  lemma CamelFlagsRoundTrip()
    ensures Undoes(ReadCamelFlag, CamelFlag)
  {
    forall v | ReadCamelFlag(v).Some?
      ensures CamelFlag(ReadCamelFlag(v).value) == v
    {
      assert CamelFlag(ReadCamelFlag(v).value).fields == v.fields;
    }
  }

  function CamelExtra(e: Extra): map<string, Raw> {
    match e
    case KycExtra(kyc) => map["kyc" := if kyc.None? then Null else D.CamelKyc(kyc.value)]
    case AmlExtra(flags) => map["flags" := Arr(WriteAll(flags, CamelFlag))]
    case TicketExtra(subject, lastMessageAt, otherOpenTickets) =>
      map["subject" := Str(subject), "lastMessageAt" := Str(lastMessageAt),
          "otherOpenTickets" := IntRaw(otherOpenTickets)]
  }

  function CamelExtraKeys(kind: Kind): set<string> {
    match kind
    case Kyc => {"kyc"}
    case Aml => {"flags"}
    case Tickets => {"subject", "lastMessageAt", "otherOpenTickets"}
  }

  function ReadCamelExtra(f: map<string, Raw>, kind: Kind): Option<Extra>
    requires CamelExtraKeys(kind) <= f.Keys
  {
    match kind
    case Kyc =>
      if f["kyc"].Null? then Some(KycExtra(None))
      else if D.ReadCamelKyc(f["kyc"]).None? then None
      else Some(KycExtra(D.ReadCamelKyc(f["kyc"])))
    case Aml =>
      if !f["flags"].Arr? || ReadAll(f["flags"].items, ReadCamelFlag).None? then None
      else Some(AmlExtra(ReadAll(f["flags"].items, ReadCamelFlag).value))
    case Tickets =>
      if !f["subject"].Str? || !f["lastMessageAt"].Str? || !IsInt(f["otherOpenTickets"]) then None
      else Some(TicketExtra(f["subject"].s, f["lastMessageAt"].s, f["otherOpenTickets"].n.Floor))
  }

  /** The item's own keys and the kind's, and no others. */
  function ReadCamelDetail(v: Raw, kind: Kind): Option<ItemDetail> {
    if !v.Obj? || !(CamelExtraKeys(kind) <= v.fields.Keys) then None
    else
      var item := ReadCamelItem(Obj(v.fields - CamelExtraKeys(kind)));
      var extra := ReadCamelExtra(v.fields, kind);
      if item.None? || extra.None? then None else Some(ItemDetail(item.value, extra.value))
  }

  function CamelView(d: ItemDetail): Raw {
    Obj(map["mode" := Str("test"), "kind" := Str(KindText(KindOf(d.item))),
            "item" := Obj(CamelItem(d.item).fields + CamelExtra(d.extra))])
  }

  function ReadCamelView(v: Raw, kind: Kind): Option<ItemDetail> {
    if !HasExactKeys(v, {"mode", "kind", "item"}) || v.fields["mode"] != Str("test")
       || v.fields["kind"] != Str(KindText(kind))
    then None
    else ReadCamelDetail(v.fields["item"], kind)
  }

  lemma CamelExtraReadsBack(e: Extra, kind: Kind)
    requires ExtraOfKind(e, kind)
    ensures CamelExtra(e).Keys == CamelExtraKeys(kind) && ReadCamelExtra(CamelExtra(e), kind) == Some(e)
  {
    match e
    case KycExtra(kyc) =>
      D.KycRoundTrip();
      assert kyc.Some? ==> D.ReadCamelKyc(D.CamelKyc(kyc.value)) == kyc;
    case AmlExtra(flags) =>
      CamelFlagsRoundTrip();
      ListsRoundTrip(flags, ReadCamelFlag, CamelFlag);
    case TicketExtra(_, _, _) =>
  }

  lemma CamelExtraIsWritten(f: map<string, Raw>, kind: Kind)
    requires CamelExtraKeys(kind) <= f.Keys && ReadCamelExtra(f, kind).Some?
    ensures var e := ReadCamelExtra(f, kind).value;
      ExtraOfKind(e, kind) && CamelExtra(e).Keys == CamelExtraKeys(kind)
          && forall k :: k in CamelExtra(e) ==> CamelExtra(e)[k] == f[k]
  {
    match kind
    case Kyc =>
      D.KycRoundTrip();
      assert !f["kyc"].Null? ==> D.CamelKyc(D.ReadCamelKyc(f["kyc"]).value) == f["kyc"];
    case Aml =>
      CamelFlagsRoundTrip();
      ReadListsAreWritten(f["flags"].items, ReadCamelFlag, CamelFlag);
    case Tickets =>
  }

  lemma CamelKeysApart(item: Item)
    ensures CamelItem(item).Obj? && CamelItem(item).fields.Keys !! CamelExtraKeys(KindOf(item))
  {
  }

  lemma CamelViewReadsBack(d: ItemDetail)
    requires ExtraOfKind(d.extra, KindOf(d.item))
    ensures ReadCamelView(CamelView(d), KindOf(d.item)) == Some(d)
  {
    var kind, own, added := KindOf(d.item), CamelItem(d.item).fields, CamelExtra(d.extra);
    CamelItemsRoundTrip();
    CamelKeysApart(d.item);
    CamelExtraReadsBack(d.extra, kind);
    assert (own + added) - CamelExtraKeys(kind) == own;
    assert forall k :: k in CamelExtraKeys(kind) ==> (own + added)[k] == added[k];
    assert ReadCamelItem(Obj(own)) == Some(d.item);
    assert ReadCamelExtra(own + added, kind) == ReadCamelExtra(added, kind);
  }

  lemma CamelViewIsWritten(v: Raw, kind: Kind)
    requires ReadCamelView(v, kind).Some? && KindOf(ReadCamelView(v, kind).value.item) == kind
    ensures ExtraOfKind(ReadCamelView(v, kind).value.extra, kind)
    ensures CamelView(ReadCamelView(v, kind).value) == v
  {
    var d, f := ReadCamelView(v, kind).value, v.fields["item"].fields;
    CamelItemsRoundTrip();
    CamelExtraIsWritten(f, kind);
    assert CamelItem(d.item) == Obj(f - CamelExtraKeys(kind));
    PutTogether(f, CamelExtraKeys(kind), CamelExtra(d.extra));
    assert v.fields == CamelView(d).fields;
  }

  ghost function BrowserItem(v: Raw, kind: Kind, itemId: string): Option<ItemDetail> {
    var d := ReadCamelView(v, kind);
    if d.Some? && DetailStands(d.value, kind, itemId, None) then d else None
  }

  lemma BrowserItemIsExact(v: Raw, d: ItemDetail, kind: Kind, itemId: string)
    ensures BrowserItem(v, kind, itemId) == Some(d) <==> v == CamelView(d) && DetailStands(d, kind, itemId, None)
  {
    if BrowserItem(v, kind, itemId) == Some(d) {
      CamelViewIsWritten(v, kind);
    }
    if DetailStands(d, kind, itemId, None) {
      CamelViewReadsBack(d);
    }
  }

  // ---------------------------------------------------------------------------
  // The parsers
  // ---------------------------------------------------------------------------

  predicate TicketStands(e: Extra, snapshot: Option<int>)
    requires e.TicketExtra?
  {
    && 1 <= UnitLength(e.subject) <= MAX_SUBJECT && IsIso(e.lastMessageAt)
    && (snapshot.None? || Instant(e.lastMessageAt) <= snapshot.value) && 0 <= e.otherOpenTickets <= MAX_OPEN
  }

  lemma RaisedBeforeIsTransitive()
    ensures Transitive(RaisedBefore)
  {
    forall a, b, c | RaisedBefore(a, b) && RaisedBefore(b, c)
      ensures RaisedBefore(a, c)
    {
      EarlierIsTransitive(FlagPlace(a), FlagPlace(b), FlagPlace(c));
    }
  }

  lemma FlagOrderExtends(flags: seq<Flag>, k: nat)
    requires k < |flags| && OrderedBy(RaisedBefore, flags[..k])
    ensures OrderedBy(RaisedBefore, flags[..k + 1]) <==> k == 0 || RaisedBefore(flags[k - 1], flags[k])
  {
    assert flags[..k] + [flags[k]] == flags[..k + 1];
    RaisedBeforeIsTransitive();
    OrderExtends(RaisedBefore, flags[..k], flags[k]);
  }

  /** The server's loop over the flags, comparing neighbours by their texts. */
  method FlagsInOrder(flags: seq<Flag>) returns (ok: bool)
    requires forall i :: 0 <= i < |flags| ==> IsIso(flags[i].raisedAt)
    ensures ok <==> OrderedBy(RaisedBefore, flags)
  {
    var previous: Option<Flag> := None;
    var k := 0;
    while k < |flags|
      invariant 0 <= k <= |flags| && OrderedBy(RaisedBefore, flags[..k])
      invariant previous == if k == 0 then None else Some(flags[k - 1])
    {
      var flag := flags[k];
      FlagOrderExtends(flags, k);
      if previous.Some? {
        OrderOfTextsIsOrderOfInstants(flag.raisedAt, previous.value.raisedAt);
        if Less(flag.raisedAt, previous.value.raisedAt)
           || (flag.raisedAt == previous.value.raisedAt && !Less(previous.value.flagId, flag.flagId)) {
          PartKeeps(RaisedBefore, flags, k + 1);
          return false;
        }
      }
      previous := Some(flag);
      k := k + 1;
    }
    assert flags[..k] == flags;
    return true;
  }

  /** The tests of the extension, as it has been read from the fields. */
  method ServerParseExtra(f: map<string, Raw>, e: Extra, kind: Kind, snapshot: int) returns (ok: bool)
    requires SnakeExtraKeys(kind) <= f.Keys && ReadSnakeExtra(f, kind) == Some(e)
    ensures ok == (ExtraOfKind(e, kind) && ExtraStands(e, Some(snapshot)))
  {
    match kind {
      case Kyc =>
        if f["kyc"].Null? {
          return true;
        }
        var kyc := D.ServerParseKyc(f["kyc"], snapshot);
        return kyc.Some?;
      case Aml =>
        if MAX_FLAGS < |e.flags| || !AllFlagsStand(e.flags, Some(snapshot)) || !Distinct(FlagIds(e.flags)) {
          return false;
        }
        FlagsHaveInstants(e.flags, Some(snapshot));
        var ordered := FlagsInOrder(e.flags);
        return ordered;
      case Tickets =>
        return TicketStands(e, Some(snapshot));
    }
  }

  method ServerParseItem(v: Raw, kind: Kind, itemId: string, snapshot: int) returns (parsed: Option<ItemDetail>)
    ensures parsed == ServerItem(v, kind, itemId, snapshot)
  {
    var d := ReadSnakeView(v, kind);
    if d.None? || !ItemPartStands(d.value.item, kind, itemId, Some(snapshot)) {
      return None;
    }
    var ok := ServerParseExtra(v.fields["item"].fields, d.value.extra, kind, snapshot);
    return if ok then d else None;
  }

  lemma FlagsHaveInstants(flags: seq<Flag>, snapshot: Option<int>)
    requires AllFlagsStand(flags, snapshot)
    ensures forall i :: 0 <= i < |flags| ==> IsIso(flags[i].raisedAt)
  {
    forall i | 0 <= i < |flags|
      ensures IsIso(flags[i].raisedAt)
    {
      assert FlagStands(flags[i], snapshot);
    }
  }

  /** The tests of the extension, as it has been read from the fields. */
  method BrowserParseExtra(f: map<string, Raw>, e: Extra, kind: Kind) returns (ok: bool)
    requires CamelExtraKeys(kind) <= f.Keys && ReadCamelExtra(f, kind) == Some(e)
    ensures ok == (ExtraOfKind(e, kind) && ExtraStands(e, None))
  {
    match kind {
      case Kyc =>
        if f["kyc"].Null? {
          return true;
        }
        var kyc := D.BrowserParseKyc(f["kyc"], None);
        return kyc.Some?;
      case Aml =>
        if MAX_FLAGS < |e.flags| || !AllFlagsStand(e.flags, None) || !Distinct(FlagIds(e.flags)) {
          return false;
        }
        return true;
      case Tickets =>
        return TicketStands(e, None);
    }
  }

  method BrowserParseItem(v: Raw, kind: Kind, itemId: string) returns (parsed: Option<ItemDetail>)
    ensures parsed == BrowserItem(v, kind, itemId)
  {
    var d := ReadCamelView(v, kind);
    if d.None? || !ItemPartStands(d.value.item, kind, itemId, None) {
      return None;
    }
    var ok := BrowserParseExtra(v.fields["item"].fields, d.value.extra, kind);
    return if ok then d else None;
  }

  // ---------------------------------------------------------------------------
  // Results
  // ---------------------------------------------------------------------------

  lemma WithoutSnapshot(e: Extra, snapshot: int)
    requires ExtraStands(e, Some(snapshot))
    ensures ExtraStands(e, None)
  {
    match e
    case KycExtra(kyc) =>
      if kyc.Some? {
        D.WithoutBound(kyc.value, snapshot);
      }
    case AmlExtra(flags) =>
      forall i | 0 <= i < |flags|
        ensures FlagStands(flags[i], None)
      {
        assert FlagStands(flags[i], Some(snapshot));
      }
    case TicketExtra(_, _, _) =>
  }

  /** An item the server accepts, copied out in camelCase, is accepted by the browser as the same item. */
  lemma BrowserAcceptsWhatServerRelays(v: Raw, kind: Kind, itemId: string, snapshot: int)
    requires ServerItem(v, kind, itemId, snapshot).Some?
    ensures BrowserItem(CamelView(ServerItem(v, kind, itemId, snapshot).value), kind, itemId)
      == ServerItem(v, kind, itemId, snapshot)
  {
    var d := ServerItem(v, kind, itemId, snapshot).value;
    WithoutSnapshot(d.extra, snapshot);
    BrowserItemIsExact(CamelView(d), d, kind, itemId);
  }

  /** What only the server asks of the extension: the flags' order, and nothing past its snapshot. */
  ghost predicate ExtraWithin(e: Extra, snapshot: int) {
    match e
    case KycExtra(kyc) =>
      kyc.Some? ==> forall i :: 0 <= i < |kyc.value.history| ==> D.AttemptWithin(kyc.value.history[i], Some(snapshot))
    case AmlExtra(flags) =>
      && OrderedBy(RaisedBefore, flags)
      && forall i :: 0 <= i < |flags| ==> D.Within(Some(flags[i].raisedAt), snapshot)
    case TicketExtra(_, lastMessageAt, _) => D.Within(Some(lastMessageAt), snapshot)
  }

  lemma UnderTheSnapshot(e: Extra, snapshot: int)
    requires ExtraStands(e, None)
    ensures ExtraStands(e, Some(snapshot)) <==> ExtraWithin(e, snapshot)
  {
    if e.AmlExtra? {
      forall i | 0 <= i < |e.flags|
        ensures FlagStands(e.flags[i], Some(snapshot)) <==> D.Within(Some(e.flags[i].raisedAt), snapshot)
      {
        assert FlagStands(e.flags[i], None);
      }
    }
  }

  /**
   * The converse: of the items the browser accepts, the server accepts exactly those whose age is counted to
   * its snapshot and whose extension is in order and within it.
   */
  lemma ServerAcceptsWhatBrowserDoes(d: ItemDetail, kind: Kind, itemId: string, snapshot: int)
    requires BrowserItem(CamelView(d), kind, itemId) == Some(d)
    ensures ServerItem(SnakeView(d), kind, itemId, snapshot) == Some(d)
      <==> AgeFits(d.item, snapshot) && ExtraWithin(d.extra, snapshot)
  {
    BrowserItemIsExact(CamelView(d), d, kind, itemId);
    ServerItemIsExact(SnakeView(d), d, kind, itemId, snapshot);
    UnderTheSnapshot(d.extra, snapshot);
  }
}
