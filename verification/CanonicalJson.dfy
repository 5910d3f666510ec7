/**
 * Which JavaScript values may be signed, and what their serialization reads back as: the checks of
 * both ends (backoffice/src/server/signing.ts, backoffice/src/data/client.ts) over a model of the
 * values themselves, down to accessors, holes and prototypes.
 *
 * A finite number other than minus zero is represented by the text JavaScript prints for it.
 */
module CanonicalJson {
  import opened Wrappers
  import opened JsonText
  import opened JsonGrammar

  const MAX_PAYLOAD_DEPTH: int := 16

  datatype Number = Finite(raw: Text) | MinusZero | Infinite | NotANumber

  datatype Proto = ObjectProto | NullProto | OtherProto

  /** `Other` stands for undefined, functions, symbols and big integers. */
  datatype Js =
    | Other
    | Null
    | Bool(b: bool)
    | Num(n: Number)
    | Str(s: Text)
    | Arr(plain: bool, slots: Slots, named: bool)         // named: own members besides the elements
    | Obj(proto: Proto, symbols: nat, props: Props)

  datatype Slots = NoSlots | Slot(kind: Element, rest: Slots)

  /** An element is missing, stored, or computed by a getter, which may answer anew each time. */
  datatype Element = Hole | Item(v: Js) | Getter(checked: Js, printed: Js)

  datatype Props = NoProps | Prop(key: Text, enumerable: bool, kind: Descriptor, rest: Props)

  datatype Descriptor = Data(v: Js) | Accessor(printed: Js)

  // ---------------------------------------------------------------------------
  // The two checks
  // ---------------------------------------------------------------------------

  /** The server's check, isCanonicalJsonValue. */
  predicate IsCanonical(v: Js, depth: int)
    decreases v
  {
    if MAX_PAYLOAD_DEPTH < depth then false
    else
      match v
      case Other => false
      case Null => true
      case Bool(_) => true
      case Num(n) => n.Finite?
      case Str(_) => true
      case Arr(plain, slots, _) => plain && CanonicalSlots(slots, depth + 1)
      case Obj(proto, symbols, props) => !proto.OtherProto? && symbols == 0 && CanonicalProps(props, depth + 1)
  }

  predicate CanonicalSlots(ss: Slots, depth: int)
    decreases ss
  {
    || ss.NoSlots?
    || (&& (match ss.kind
            case Hole => false
            case Item(v) => IsCanonical(v, depth)
            case Getter(checked, _) => IsCanonical(checked, depth))
        && CanonicalSlots(ss.rest, depth))
  }

  predicate CanonicalProps(ps: Props, depth: int)
    decreases ps
  {
    || ps.NoProps?
    || (&& (ps.enumerable ==> ps.kind.Data? && IsCanonical(ps.kind.v, depth))
        && CanonicalProps(ps.rest, depth))
  }

  /** The browser's check, assertCanonicalJson: true when it does not throw. */
  predicate AssertCanonical(v: Js, depth: int)
    decreases v
  {
    if MAX_PAYLOAD_DEPTH < depth then false
    else
      match v
      case Num(n) => n.Finite?
      case Arr(_, slots, _) => AssertSlots(slots, depth + 1)
      case Obj(_, _, props) => AssertProps(props, depth + 1)
      case _ => true
  }

  predicate AssertSlots(ss: Slots, depth: int)
    decreases ss
  {
    || ss.NoSlots?
    || (&& (match ss.kind
            case Hole => depth <= MAX_PAYLOAD_DEPTH
            case Item(v) => AssertCanonical(v, depth)
            case Getter(checked, _) => AssertCanonical(checked, depth))
        && AssertSlots(ss.rest, depth))
  }

  predicate AssertProps(ps: Props, depth: int)
    decreases ps
  {
    || ps.NoProps?
    || (&& (ps.enumerable ==>
            (match ps.kind
             case Data(v) => AssertCanonical(v, depth)
             case Accessor(printed) => AssertCanonical(printed, depth)))
        && AssertProps(ps.rest, depth))
  }

  /** A value as JSON.parse makes it: stored elements, stored enumerable members, plain prototypes. */
  predicate Parsed(v: Js) {
    match v
    case Other => false
    case Num(n) => !n.NotANumber?
    case Arr(plain, slots, named) => plain && !named && ParsedSlots(slots)
    case Obj(proto, symbols, props) => proto.ObjectProto? && symbols == 0 && ParsedProps(props)
    case _ => true
  }

  predicate ParsedSlots(ss: Slots) {
    ss.NoSlots? || (ss.kind.Item? && Parsed(ss.kind.v) && ParsedSlots(ss.rest))
  }

  predicate ParsedProps(ps: Props) {
    ps.NoProps? || (ps.enumerable && ps.kind.Data? && Parsed(ps.kind.v) && ParsedProps(ps.rest))
  }

  /** On parsed values the two checks accept exactly the same trees, depth bound included. */
  lemma {:induction false} ChecksAgree(v: Js, depth: int)
    requires Parsed(v)
    ensures IsCanonical(v, depth) <==> AssertCanonical(v, depth)
    decreases v
  {
    match v
    case Arr(_, slots, _) => SlotChecksAgree(slots, depth + 1);
    case Obj(_, _, props) => PropChecksAgree(props, depth + 1);
    case _ =>
  }

  lemma {:induction false} SlotChecksAgree(ss: Slots, depth: int)
    requires ParsedSlots(ss)
    ensures CanonicalSlots(ss, depth) <==> AssertSlots(ss, depth)
    decreases ss
  {
    if ss.Slot? {
      ChecksAgree(ss.kind.v, depth);
      SlotChecksAgree(ss.rest, depth);
    }
  }

  lemma {:induction false} PropChecksAgree(ps: Props, depth: int)
    requires ParsedProps(ps)
    ensures CanonicalProps(ps, depth) <==> AssertProps(ps, depth)
    decreases ps
  {
    if ps.Prop? {
      ChecksAgree(ps.kind.v, depth);
      PropChecksAgree(ps.rest, depth);
    }
  }

  // ---------------------------------------------------------------------------
  // String literals as JSON.stringify writes them
  // ---------------------------------------------------------------------------

  function HexUnit(n: int): Unit
    requires 0 <= n < 16
  {
    if n < 10 then 48 + n else 87 + n
  }

  function LongText(u: Unit): Text {
    [BACKSLASH, 117, HexUnit(u / 4096), HexUnit(u / 256 % 16), HexUnit(u / 16 % 16), HexUnit(u % 16)]
  }

  predicate High(u: Unit) {
    0xD800 <= u <= 0xDBFF
  }

  predicate Low(u: Unit) {
    0xDC00 <= u <= 0xDFFF
  }

  /** How one unit is written when it does not start a surrogate pair. */
  function EscapeUnit(u: Unit): Text {
    if u == QUOTE || u == BACKSLASH then [BACKSLASH, u]
    else if u == 8 then [BACKSLASH, 98]
    else if u == 9 then [BACKSLASH, 116]
    else if u == 10 then [BACKSLASH, 110]
    else if u == 12 then [BACKSLASH, 102]
    else if u == 13 then [BACKSLASH, 114]
    else if u < 32 || High(u) || Low(u) then LongText(u)
    else [u]
  }

  /** Quotes, backslashes and controls are escaped, and so is a surrogate without its partner. */
  function Escape(s: Text): Text {
    if s == [] then []
    else if High(s[0]) && |s| > 1 && Low(s[1]) then [s[0], s[1]] + Escape(s[2..])
    else EscapeUnit(s[0]) + Escape(s[1..])
  }

  /** A unit is its four hexadecimal digits. */
  lemma FourDigits(u: Unit)
    ensures u == u / 4096 * 4096 + u / 256 % 16 * 256 + u / 16 % 16 * 16 + u % 16
    ensures 0 <= u / 4096 < 16
  {
    var a, b, c := u / 16, u / 16 / 16, u / 16 / 16 / 16;
    assert u == a * 16 + u % 16 && a == b * 16 + a % 16 && b == c * 16 + b % 16;
    Sixteenths(u, a, b);
    assert u / 256 == b;
    assert u == c * 4096 + (b % 16 * 256 + a % 16 * 16 + u % 16);
    Quotient(u, c, b % 16 * 256 + a % 16 * 16 + u % 16);
  }

  lemma Sixteenths(u: int, a: int, b: int)
    requires a == u / 16 && b == a / 16
    ensures u / 256 == b
  {
  }

  lemma Quotient(u: int, c: int, rest: int)
    requires u == c * 4096 + rest && 0 <= rest < 4096
    ensures u / 4096 == c
  {
  }

  lemma LongTextAt(u: Unit, rest: Text)
    ensures var t := LongText(u) + rest;
      && t[0] == BACKSLASH && t[1] == 117 && t[2] == HexUnit(u / 4096) && t[3] == HexUnit(u / 256 % 16)
      && t[4] == HexUnit(u / 16 % 16) && t[5] == HexUnit(u % 16) && t[6..] == rest
  {
  }

  lemma LongTextReads(u: Unit, rest: Text)
    ensures LongEscape(LongText(u) + rest) && LongEscaped(LongText(u) + rest) == u
    ensures ShortEscape(117) == None
    ensures (LongText(u) + rest)[6..] == rest
  {
    LongTextAt(u, rest);
    HexUnitReads(u / 4096);
    HexUnitReads(u / 256 % 16);
    HexUnitReads(u / 16 % 16);
    HexUnitReads(u % 16);
    FourDigits(u);
  }

  lemma HexUnitReads(n: int)
    requires 0 <= n < 16
    ensures Hex(HexUnit(n)) && HexValue(HexUnit(n)) == n
  {
  }

  lemma LongDecodes(u: Unit, rest: Text)
    ensures Decode(LongText(u) + rest) == Prepend(u, Decode(rest))
  {
    LongTextReads(u, rest);
    assert (LongText(u) + rest)[1] == 117;
  }

  lemma ShortDecodes(e: Unit, rest: Text)
    requires ShortEscape(e).Some?
    ensures Decode([BACKSLASH, e] + rest) == Prepend(ShortEscape(e).value, Decode(rest))
  {
    assert ([BACKSLASH, e] + rest)[2..] == rest;
  }

  lemma PlainDecodes(u: Unit, rest: Text)
    requires u != BACKSLASH && u != QUOTE && 32 <= u
    ensures Decode([u] + rest) == Prepend(u, Decode(rest))
  {
    assert ([u] + rest)[1..] == rest;
  }

  lemma UnitDecodes(u: Unit, rest: Text)
    ensures Decode(EscapeUnit(u) + rest) == Prepend(u, Decode(rest))
  {
    if u == QUOTE || u == BACKSLASH || u == 8 || u == 9 || u == 10 || u == 12 || u == 13 {
      ShortDecodes(EscapeUnit(u)[1], rest);
    } else if u < 32 || High(u) || Low(u) {
      LongDecodes(u, rest);
    } else {
      PlainDecodes(u, rest);
    }
  }

  lemma PairDecodes(high: Unit, low: Unit, rest: Text)
    requires High(high) && Low(low)
    ensures Decode([high, low] + rest) == Prepend(high, Prepend(low, Decode(rest)))
  {
    PlainDecodes(low, rest);
    PlainDecodes(high, [low] + rest);
    assert [high, low] + rest == [high] + ([low] + rest);
  }

  /** Every string survives being written as a literal and read back. */
  lemma {:induction false} EscapeRoundTrip(s: Text)
    ensures Decode(Escape(s)) == Some(s)
    decreases |s|
  {
    if s == [] {
    } else if High(s[0]) && |s| > 1 && Low(s[1]) {
      EscapeRoundTrip(s[2..]);
      PairDecodes(s[0], s[1], Escape(s[2..]));
      assert s == [s[0]] + ([s[1]] + s[2..]);
    } else {
      EscapeRoundTrip(s[1..]);
      UnitDecodes(s[0], Escape(s[1..]));
      assert s == [s[0]] + s[1..];
    }
  }

  // ---------------------------------------------------------------------------
  // JSON.stringify and JSON.parse
  // ---------------------------------------------------------------------------

  const NULL_TEXT: Text := [110, 117, 108, 108]
  const TRUE_TEXT: Text := [116, 114, 117, 101]
  const FALSE_TEXT: Text := [102, 97, 108, 115, 101]
  const ZERO_TEXT: Text := [48]
  const MINUS_ZERO_TEXT: Text := [45, 48]

  /** The text of a number starts with a digit or a minus sign. */
  predicate NumberText(raw: Text) {
    && raw != [] && (raw[0] == 45 || 48 <= raw[0] <= 57)
    && (forall i :: 0 <= i < |raw| ==> Plain(raw[i]))
    && raw != MINUS_ZERO_TEXT
  }

  /** What JSON.stringify writes for a value; None where it writes nothing at all. */
  function Print(v: Js): Option<Value> {
    match v
    case Other => None
    case Null => Some(Atom(NULL_TEXT))
    case Bool(b) => Some(Atom(if b then TRUE_TEXT else FALSE_TEXT))
    case Num(n) =>
      (match n
       case Finite(raw) => Some(Atom(raw))
       case MinusZero => Some(Atom(ZERO_TEXT))
       case _ => Some(Atom(NULL_TEXT)))
    case Str(s) => Some(Value.Str(Escape(s)))
    case Arr(_, slots, _) => Some(Value.Arr([], PrintSlots(slots)))
    case Obj(_, _, props) => Some(Value.Obj([], PrintProps(props)))
  }

  function PrintSlots(ss: Slots): Elems {
    if ss.NoSlots? then NoElems
    else
      var shown :=
        match ss.kind
        case Hole => None
        case Item(v) => Print(v)
        case Getter(_, printed) => Print(printed);
      Elem([], if shown.Some? then shown.value else Atom(NULL_TEXT), [], PrintSlots(ss.rest))
  }

  function PrintProps(ps: Props): Members {
    if ps.NoProps? then NoMembers
    else
      var shown :=
        match ps.kind
        case Data(v) => Print(v)
        case Accessor(printed) => Print(printed);
      if !ps.enumerable || shown.None? then PrintProps(ps.rest)
      else JsonText.Members.Member([], Escape(ps.key), [], [], shown.value, [], PrintProps(ps.rest))
  }

  /** What JSON.parse makes of a value whose objects repeat no name. */
  function Read(c: Value): Js
    requires WellFormed(c)
  {
    match c
    case Atom(raw) =>
      if raw == NULL_TEXT then Null
      else if raw == TRUE_TEXT then Bool(true)
      else if raw == FALSE_TEXT then Bool(false)
      else if raw == MINUS_ZERO_TEXT then Num(MinusZero)
      else Num(Finite(raw))
    case Str(body) => Js.Str(Decode(body).value)
    case Arr(_, elems) => Js.Arr(true, ReadElems(elems), false)
    case Obj(_, members) => Js.Obj(ObjectProto, 0, ReadMembers(members))
  }

  function ReadElems(es: Elems): Slots
    requires WellFormedElems(es)
  {
    if es.NoElems? then NoSlots else Slot(Item(Read(es.v)), ReadElems(es.rest))
  }

  function ReadMembers(ms: Members): Props
    requires WellFormedMembers(ms)
  {
    if ms.NoMembers? then NoProps
    else Prop(Decode(ms.name).value, true, Data(Read(ms.v)), ReadMembers(ms.rest))
  }

  /** The numbers of a value are the texts JavaScript prints, and no object has a key twice. */
  predicate Sound(v: Js) {
    match v
    case Num(n) => n.Finite? ==> NumberText(n.raw)
    case Arr(_, slots, _) => SoundSlots(slots)
    case Obj(_, _, props) => !Repeats(Keys(props)) && SoundProps(props)
    case _ => true
  }

  predicate SoundSlots(ss: Slots) {
    || ss.NoSlots?
    || (&& (match ss.kind
            case Hole => true
            case Item(v) => Sound(v)
            case Getter(checked, printed) => Sound(checked) && Sound(printed))
        && SoundSlots(ss.rest))
  }

  predicate SoundProps(ps: Props) {
    || ps.NoProps?
    || (&& (match ps.kind
            case Data(v) => Sound(v)
            case Accessor(printed) => Sound(printed))
        && SoundProps(ps.rest))
  }

  /** The keys JSON.stringify visits. */
  function Keys(ps: Props): seq<Text> {
    if ps.NoProps? then [] else (if ps.enumerable then [ps.key] else []) + Keys(ps.rest)
  }

  lemma AtomWellFormed(v: Js)
    requires Sound(v) && (v.Null? || v.Bool? || v.Num?)
    ensures WellFormed(Print(v).value)
  {
    assert forall i :: 0 <= i < |NULL_TEXT| ==> Plain(NULL_TEXT[i]);
    assert forall i :: 0 <= i < |TRUE_TEXT| ==> Plain(TRUE_TEXT[i]);
    assert forall i :: 0 <= i < |FALSE_TEXT| ==> Plain(FALSE_TEXT[i]);
    assert forall i :: 0 <= i < |ZERO_TEXT| ==> Plain(ZERO_TEXT[i]);
  }

  /** What JSON.stringify writes is JSON text, with no white space. */
  lemma {:induction false} PrintIsJson(v: Js)
    requires Sound(v)
    ensures Print(v).Some? ==> WellFormed(Print(v).value) && Normal(Print(v).value)
    decreases v
  {
    match v
    case Str(s) => EscapeRoundTrip(s);
    case Arr(_, slots, _) => PrintSlotsIsJson(slots);
    case Obj(_, _, props) => PrintPropsIsJson(props);
    case Other =>
    case _ => AtomWellFormed(v);
  }

  lemma {:induction false} PrintSlotsIsJson(ss: Slots)
    requires SoundSlots(ss)
    ensures WellFormedElems(PrintSlots(ss)) && NormalElems(PrintSlots(ss))
    decreases ss
  {
    if ss.Slot? {
      AtomWellFormed(Null);
      PrintSlotsIsJson(ss.rest);
      match ss.kind
      case Hole =>
      case Item(v) => PrintIsJson(v);
      case Getter(_, printed) => PrintIsJson(printed);
    }
  }

  lemma {:induction false} PrintPropsIsJson(ps: Props)
    requires SoundProps(ps)
    ensures WellFormedMembers(PrintProps(ps)) && NormalMembers(PrintProps(ps))
    decreases ps
  {
    if ps.Prop? {
      PrintPropsIsJson(ps.rest);
      EscapeRoundTrip(ps.key);
      match ps.kind
      case Data(v) => PrintIsJson(v);
      case Accessor(printed) => PrintIsJson(printed);
    }
  }

  // ---------------------------------------------------------------------------
  // The round trip
  // ---------------------------------------------------------------------------

  /** The same value with ordinary prototypes, which is all JSON.parse can give back. */
  function Plainly(v: Js): Js {
    match v
    case Arr(plain, slots, named) => Js.Arr(plain, PlainSlots(slots), named)
    case Obj(proto, symbols, props) => Js.Obj(ObjectProto, symbols, PlainProps(props))
    case _ => v
  }

  function PlainSlots(ss: Slots): Slots {
    if ss.NoSlots? then NoSlots
    else
      Slot(match ss.kind
           case Item(v) => Item(Plainly(v))
           case other => other,
           PlainSlots(ss.rest))
  }

  function PlainProps(ps: Props): Props {
    if ps.NoProps? then NoProps
    else
      Prop(ps.key, ps.enumerable,
           match ps.kind
           case Data(v) => Data(Plainly(v))
           case other => other,
           PlainProps(ps.rest))
  }

  /** No computed elements, no named members on arrays, no hidden members on objects. */
  predicate Faithful(v: Js) {
    match v
    case Arr(_, slots, named) => !named && FaithfulSlots(slots)
    case Obj(_, _, props) => FaithfulProps(props)
    case _ => true
  }

  predicate FaithfulSlots(ss: Slots) {
    ss.NoSlots? || ((ss.kind.Item? ==> Faithful(ss.kind.v)) && !ss.kind.Getter? && FaithfulSlots(ss.rest))
  }

  predicate FaithfulProps(ps: Props) {
    ps.NoProps? || (ps.enumerable && (ps.kind.Data? ==> Faithful(ps.kind.v)) && FaithfulProps(ps.rest))
  }

  /** The length of an array and of an object's member list. */
  function Length(ps: Props): nat {
    if ps.NoProps? then 0 else 1 + Length(ps.rest)
  }

  /**
   * A value the server accepts for signing reads back from its own serialization as itself,
   * prototypes apart, exactly when it is faithful: the check lets through arrays with computed
   * elements or named members and objects with hidden members, and those read back as something else.
   */
  lemma {:induction false} CanonicalRoundTrip(v: Js, depth: int)
    requires Sound(v) && IsCanonical(v, depth)
    ensures Print(v).Some? && WellFormed(Print(v).value)
    ensures Read(Print(v).value) == Plainly(v) <==> Faithful(v)
    decreases v
  {
    PrintIsJson(v);
    match v
    case Str(s) => EscapeRoundTrip(s);
    case Arr(_, slots, _) => SlotsRoundTrip(slots, depth + 1);
    case Obj(_, _, props) => PropsRoundTrip(props, depth + 1);
    case Num(n) => NumbersAreNotNames(n.raw);
    case _ =>
  }

  lemma NumbersAreNotNames(raw: Text)
    requires NumberText(raw)
    ensures raw != NULL_TEXT && raw != TRUE_TEXT && raw != FALSE_TEXT && raw != MINUS_ZERO_TEXT
  {
  }

  lemma {:induction false} SlotsRoundTrip(ss: Slots, depth: int)
    requires SoundSlots(ss) && CanonicalSlots(ss, depth)
    ensures WellFormedElems(PrintSlots(ss))
    ensures ReadElems(PrintSlots(ss)) == PlainSlots(ss) <==> FaithfulSlots(ss)
    decreases ss
  {
    PrintSlotsIsJson(ss);
    if ss.Slot? {
      SlotsRoundTrip(ss.rest, depth);
      if ss.kind.Item? {
        CanonicalRoundTrip(ss.kind.v, depth);
      }
    }
  }

  lemma {:induction false} PropsRoundTrip(ps: Props, depth: int)
    requires SoundProps(ps) && CanonicalProps(ps, depth)
    ensures WellFormedMembers(PrintProps(ps))
    ensures ReadMembers(PrintProps(ps)) == PlainProps(ps) <==> FaithfulProps(ps)
    ensures Length(ReadMembers(PrintProps(ps))) <= Length(PlainProps(ps))
    decreases ps
  {
    PrintPropsIsJson(ps);
    if ps.Prop? {
      PropsRoundTrip(ps.rest, depth);
      EscapeRoundTrip(ps.key);
      if ps.enumerable {
        CanonicalRoundTrip(ps.kind.v, depth);
      } else {
        assert ReadMembers(PrintProps(ps)) != PlainProps(ps);
      }
    }
  }

  /**
   * Whatever text carries the serialization of a value that passed the check and is faithful, it can
   * only be read as that value: any JSON value written by that text, white space around it allowed,
   * reads back as it.
   */
  lemma SerializationReadsBack(v: Js, before: Text, c: Value, after: Text)
    requires Sound(v) && IsCanonical(v, 0) && Faithful(v)
    requires Spaces(before) && WellFormed(c) && Normal(c) && Spaces(after)
    requires before + (TextOf(c) + after) == TextOf(Print(v).value)
    ensures Read(c) == Plainly(v)
  {
    CanonicalRoundTrip(v, 0);
    PrintIsJson(v);
    var printed := Print(v).value;
    assert [] + (TextOf(printed) + []) == TextOf(printed);
    TextDeterminesValue(before, c, after, [], printed, []);
  }

  // ---------------------------------------------------------------------------
  // What is signed, parsed again
  // ---------------------------------------------------------------------------

  /** How deep lists and objects nest in a text. */
  function Height(c: Value): nat {
    match c
    case Arr(_, elems) => ElemsHeight(elems)
    case Obj(_, members) => MembersHeight(members)
    case _ => 0
  }

  function ElemsHeight(es: Elems): nat {
    if es.NoElems? then 0 else Higher(1 + Height(es.v), ElemsHeight(es.rest))
  }

  function MembersHeight(ms: Members): nat {
    if ms.NoMembers? then 0 else Higher(1 + Height(ms.v), MembersHeight(ms.rest))
  }

  function Higher(a: nat, b: nat): nat {
    if a < b then b else a
  }

  /**
   * Signing runs no check. Whatever value is signed, what is parsed from its text passes either end's
   * check exactly when the text nests no deeper than the bound.
   */
  lemma SignedTextPassesByDepth(v: Js)
    requires Sound(v) && Print(v).Some?
    ensures WellFormed(Print(v).value)
    ensures AssertCanonical(Read(Print(v).value), 0) <==> Height(Print(v).value) <= 16
    ensures IsCanonical(Read(Print(v).value), 0) <==> Height(Print(v).value) <= 16
  {
    PrintIsJson(v);
    PrintedPasses(v, 0);
    ChecksAgree(Read(Print(v).value), 0);
  }

  lemma {:induction false} PrintedPasses(v: Js, depth: nat)
    requires Sound(v) && Print(v).Some? && WellFormed(Print(v).value)
    ensures Parsed(Read(Print(v).value))
    ensures IsCanonical(Read(Print(v).value), depth) <==> depth + Height(Print(v).value) <= MAX_PAYLOAD_DEPTH
    decreases v
  {
    match v
    case Arr(_, slots, _) => PrintedSlotsPass(slots, depth);
    case Obj(_, _, props) => PrintedPropsPass(props, depth);
    case Num(n) =>
      if n.Finite? {
        NumbersAreNotNames(n.raw);
      }
    case _ =>
  }

  lemma {:induction false} PrintedSlotsPass(ss: Slots, depth: nat)
    requires SoundSlots(ss) && WellFormedElems(PrintSlots(ss))
    ensures ParsedSlots(ReadElems(PrintSlots(ss)))
    ensures CanonicalSlots(ReadElems(PrintSlots(ss)), depth + 1)
      <==> ss.NoSlots? || depth + ElemsHeight(PrintSlots(ss)) <= MAX_PAYLOAD_DEPTH
    decreases ss
  {
    if ss.Slot? {
      PrintedSlotsPass(ss.rest, depth);
      PrintedElementPasses(ss.kind, PrintSlots(ss).v, depth + 1);
      FirstElement(ReadElems(PrintSlots(ss)), depth + 1);
    }
  }

  lemma FirstElement(ss: Slots, depth: int)
    requires ss.Slot? && ss.kind.Item?
    ensures CanonicalSlots(ss, depth) <==> IsCanonical(ss.kind.v, depth) && CanonicalSlots(ss.rest, depth)
    ensures ParsedSlots(ss) <==> Parsed(ss.kind.v) && ParsedSlots(ss.rest)
  {
  }

  /** The text of an element: what it prints, or null. */
  lemma {:induction false} PrintedElementPasses(kind: Element, c: Value, depth: nat)
    requires SoundSlots(Slot(kind, NoSlots)) && WellFormed(c) && c == PrintSlots(Slot(kind, NoSlots)).v
    ensures Parsed(Read(c)) && (IsCanonical(Read(c), depth) <==> depth + Height(c) <= MAX_PAYLOAD_DEPTH)
    decreases kind
  {
    match kind
    case Hole =>
    case Item(v) => if Print(v).Some? { PrintedPasses(v, depth); }
    case Getter(_, printed) => if Print(printed).Some? { PrintedPasses(printed, depth); }
  }

  lemma {:induction false} PrintedPropsPass(ps: Props, depth: nat)
    requires SoundProps(ps) && WellFormedMembers(PrintProps(ps))
    ensures ParsedProps(ReadMembers(PrintProps(ps)))
    ensures CanonicalProps(ReadMembers(PrintProps(ps)), depth + 1)
      <==> PrintProps(ps).NoMembers? || depth + MembersHeight(PrintProps(ps)) <= MAX_PAYLOAD_DEPTH
    decreases ps
  {
    if ps.Prop? {
      PrintedPropsPass(ps.rest, depth);
      var shown := if ps.kind.Data? then ps.kind.v else ps.kind.printed;
      if ps.enumerable && Print(shown).Some? {
        PrintedPasses(shown, depth + 1);
      }
    }
  }

  /** A payload that passed the server's check and is faithful passes the browser's, once parsed. */
  lemma SignedPayloadsPassBothChecks(v: Js)
    requires Sound(v) && IsCanonical(v, 0) && Faithful(v)
    ensures AssertCanonical(Plainly(v), 0)
  {
    PlainlyParsed(v, 0);
    ChecksAgree(Plainly(v), 0);
  }

  lemma {:induction false} PlainlyParsed(v: Js, depth: int)
    requires IsCanonical(v, depth) && Faithful(v)
    ensures Parsed(Plainly(v)) && IsCanonical(Plainly(v), depth)
    decreases v
  {
    match v
    case Arr(_, slots, _) => PlainSlotsParsed(slots, depth + 1);
    case Obj(_, _, props) => PlainPropsParsed(props, depth + 1);
    case _ =>
  }

  lemma {:induction false} PlainSlotsParsed(ss: Slots, depth: int)
    requires CanonicalSlots(ss, depth) && FaithfulSlots(ss)
    ensures ParsedSlots(PlainSlots(ss)) && CanonicalSlots(PlainSlots(ss), depth)
    decreases ss
  {
    if ss.Slot? {
      PlainlyParsed(ss.kind.v, depth);
      PlainSlotsParsed(ss.rest, depth);
    }
  }

  lemma {:induction false} PlainPropsParsed(ps: Props, depth: int)
    requires CanonicalProps(ps, depth) && FaithfulProps(ps)
    ensures ParsedProps(PlainProps(ps)) && CanonicalProps(PlainProps(ps), depth)
    decreases ps
  {
    if ps.Prop? {
      PlainlyParsed(ps.kind.v, depth);
      PlainPropsParsed(ps.rest, depth);
    }
  }

  /** The check passes a computed element on the answer it got, and the serialization shows another. */
  lemma ComputedElementsChange(checked: Js, printed: Js)
    requires IsCanonical(checked, 1) && Sound(checked) && Sound(printed) && Print(printed).Some?
    ensures var v := Js.Arr(true, Slot(Getter(checked, printed), NoSlots), false);
      && IsCanonical(v, 0) && Print(v).Some?
      && Print(v).value == Value.Arr([], Elem([], Print(printed).value, [], NoElems))
  {
  }
}
