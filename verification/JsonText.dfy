/**
 * JSON text as sequences of UTF-16 code units: the string literals of section 7 of RFC 8259, white
 * space of section 2, and values of sections 3 to 5 as trees that remember how they were written.
 */
module JsonText {
  import opened Wrappers

  type Unit = u: int | 0 <= u < 0x1_0000
  type Text = seq<Unit>

  const QUOTE: Unit := 34
  const COMMA: Unit := 44
  const COLON: Unit := 58
  const LBRACKET: Unit := 91
  const BACKSLASH: Unit := 92
  const RBRACKET: Unit := 93
  const LBRACE: Unit := 123
  const RBRACE: Unit := 125

  predicate Space(u: Unit) {
    u == 32 || u == 9 || u == 10 || u == 13
  }

  predicate Spaces(t: Text) {
    forall i :: 0 <= i < |t| ==> Space(t[i])
  }

  function SkipSpaces(t: Text): (rest: Text)
    ensures |rest| <= |t|
  {
    if t != [] && Space(t[0]) then SkipSpaces(t[1..]) else t
  }

  lemma {:induction false} SkipsExactly(ws: Text, rest: Text)
    requires Spaces(ws)
    ensures SkipSpaces(ws + rest) == SkipSpaces(rest)
  {
    if ws == [] {
      assert ws + rest == rest;
    } else {
      assert (ws + rest)[1..] == ws[1..] + rest;
      SkipsExactly(ws[1..], rest);
    }
  }

  // ---------------------------------------------------------------------------
  // String literals
  // ---------------------------------------------------------------------------

  predicate Hex(u: Unit) {
    48 <= u <= 57 || 65 <= u <= 70 || 97 <= u <= 102
  }

  function HexValue(u: Unit): (value: int)
    requires Hex(u)
    ensures 0 <= value < 16
  {
    if u <= 57 then u - 48 else if u <= 70 then u - 55 else u - 87
  }

  /** The character a two-character escape stands for. */
  function ShortEscape(u: Unit): Option<Unit> {
    if u == QUOTE || u == BACKSLASH || u == 47 then Some(u)
    else if u == 98 then Some(8)
    else if u == 102 then Some(12)
    else if u == 110 then Some(10)
    else if u == 114 then Some(13)
    else if u == 116 then Some(9)
    else None
  }

  predicate LongEscape(body: Text) {
    |body| >= 6 && body[0] == BACKSLASH && body[1] == 117
    && Hex(body[2]) && Hex(body[3]) && Hex(body[4]) && Hex(body[5])
  }

  function LongEscaped(body: Text): Unit
    requires LongEscape(body)
  {
    ((HexValue(body[2]) * 16 + HexValue(body[3])) * 16 + HexValue(body[4])) * 16 + HexValue(body[5])
  }

  /** What a literal's body, the text between its quotes, decodes to; None when it is malformed. */
  function Decode(body: Text): Option<Text> {
    if body == [] then Some([])
    else if body[0] == BACKSLASH then
      if |body| >= 2 && ShortEscape(body[1]).Some? then Prepend(ShortEscape(body[1]).value, Decode(body[2..]))
      else if LongEscape(body) then Prepend(LongEscaped(body), Decode(body[6..]))
      else None
    else if body[0] == QUOTE || body[0] < 32 then None
    else Prepend(body[0], Decode(body[1..]))
  }

  function Prepend(u: Unit, rest: Option<Text>): Option<Text> {
    if rest.Some? then Some([u] + rest.value) else None
  }

  /** The number of units before the first quote that no backslash escapes. */
  function BodyLength(t: Text): (n: Option<nat>)
    ensures n.Some? ==> n.value < |t| && t[n.value] == QUOTE
  {
    if t == [] then None
    else if t[0] == QUOTE then Some(0)
    else if t[0] == BACKSLASH then
      if |t| < 2 then None
      else if BodyLength(t[2..]).Some? then Some(BodyLength(t[2..]).value + 2) else None
    else if BodyLength(t[1..]).Some? then Some(BodyLength(t[1..]).value + 1)
    else None
  }

  /** A body with another behind it starts with the same units and goes on with the rest of both. */
  lemma CutInto(body: Text, rest: Text, n: nat)
    requires n <= |body|
    ensures (body + rest)[n..] == body[n..] + rest && (body + rest)[..n] == body[..n]
    ensures forall i :: 0 <= i < n ==> (body + rest)[i] == body[i]
  {
  }

  lemma PlainUnit(t: Text, at: nat)
    requires at < |t| && t[at] != QUOTE && t[at] != BACKSLASH
    ensures BodyLength(t[at + 1..]).Some? ==> BodyLength(t[at..]) == Some(BodyLength(t[at + 1..]).value + 1)
  {
    assert t[at..][1..] == t[at + 1..];
  }

  lemma FourPlain(t: Text)
    requires LongEscape(t)
    ensures BodyLength(t[6..]).Some? ==> BodyLength(t) == Some(BodyLength(t[6..]).value + 6)
  {
    PlainUnit(t, 5);
    PlainUnit(t, 4);
    PlainUnit(t, 3);
    PlainUnit(t, 2);
  }

  /** A well-formed body ends at the quote that follows it. */
  lemma BodyEndsAtQuote(body: Text, rest: Text)
    requires Decode(body).Some?
    ensures BodyLength(body + [QUOTE] + rest) == Some(|body|)
  {
    assert body + [QUOTE] + rest == body + ([QUOTE] + rest);
    BodyEnds(body, [QUOTE] + rest);
  }

  lemma {:induction false} BodyEnds(body: Text, end: Text)
    requires Decode(body).Some? && end != [] && end[0] == QUOTE
    ensures BodyLength(body + end) == Some(|body|)
    decreases |body|
  {
    if body == [] {
      assert body + end == end;
    } else if body[0] != BACKSLASH {
      BodyEnds(body[1..], end);
      CutInto(body, end, 1);
    } else if ShortEscape(body[1]).Some? {
      BodyEnds(body[2..], end);
      CutInto(body, end, 2);
    } else {
      BodyEnds(body[6..], end);
      CutInto(body, end, 6);
      FourPlain(body + end);
    }
  }

  // ---------------------------------------------------------------------------
  // Values as written
  // ---------------------------------------------------------------------------

  /**
   * A value and the exact way it is written. An `Atom` is a number or one of the three literal
   * names; `Str` and member names keep the body of their literal, escapes and all.
   */
  datatype Value =
    | Atom(raw: Text)
    | Str(body: Text)
    | Arr(blank: Text, elems: Elems)
    | Obj(blank: Text, members: Members)

  datatype Elems = NoElems | Elem(before: Text, v: Value, after: Text, rest: Elems)

  datatype Members =
    | NoMembers
    | Member(before: Text, name: Text, mid: Text, gap: Text, v: Value, after: Text, rest: Members)

  function TextOf(v: Value): Text {
    match v
    case Atom(raw) => raw
    case Str(body) => [QUOTE] + body + [QUOTE]
    case Arr(blank, elems) => [LBRACKET] + (if elems.NoElems? then blank else ElemsText(elems)) + [RBRACKET]
    case Obj(blank, members) => [LBRACE] + (if members.NoMembers? then blank else MembersText(members)) + [RBRACE]
  }

  function ElemsText(es: Elems): Text
    requires es.Elem?
  {
    es.before + TextOf(es.v) + es.after + (if es.rest.NoElems? then [] else [COMMA] + ElemsText(es.rest))
  }

  function MembersText(ms: Members): Text
    requires ms.Member?
  {
    ms.before + [QUOTE] + ms.name + [QUOTE] + ms.mid + [COLON] + ms.gap + TextOf(ms.v) + ms.after
    + (if ms.rest.NoMembers? then [] else [COMMA] + MembersText(ms.rest))
  }

  /** A unit of a number or a literal name: none of the six structural characters, a quote or space. */
  predicate Plain(u: Unit) {
    && u != LBRACE && u != RBRACE && u != LBRACKET && u != RBRACKET
    && u != COLON && u != COMMA && u != QUOTE && !Space(u)
  }

  predicate WellFormed(v: Value) {
    match v
    case Atom(raw) => raw != [] && forall i :: 0 <= i < |raw| ==> Plain(raw[i])
    case Str(body) => Decode(body).Some?
    case Arr(blank, elems) => Spaces(blank) && WellFormedElems(elems)
    case Obj(blank, members) => Spaces(blank) && WellFormedMembers(members)
  }

  predicate WellFormedElems(es: Elems) {
    es.NoElems? || (Spaces(es.before) && WellFormed(es.v) && Spaces(es.after) && WellFormedElems(es.rest))
  }

  predicate WellFormedMembers(ms: Members) {
    || ms.NoMembers?
    || (&& Spaces(ms.before) && Decode(ms.name).Some? && Spaces(ms.mid) && Spaces(ms.gap)
        && WellFormed(ms.v) && Spaces(ms.after) && WellFormedMembers(ms.rest))
  }

  /** The decoded names of an object's members, in order. */
  function Names(ms: Members): seq<Text>
    requires WellFormedMembers(ms)
  {
    if ms.NoMembers? then [] else [Decode(ms.name).value] + Names(ms.rest)
  }

  predicate Repeats(names: seq<Text>) {
    exists i, j :: 0 <= i < j < |names| && names[i] == names[j]
  }

  /** Some object in the tree has two members whose decoded names are equal. */
  predicate HasDuplicate(v: Value)
    requires WellFormed(v)
  {
    match v
    case Atom(_) => false
    case Str(_) => false
    case Arr(_, elems) => ElemsHaveDuplicate(elems)
    case Obj(_, members) => Repeats(Names(members)) || MembersHaveDuplicate(members)
  }

  predicate ElemsHaveDuplicate(es: Elems)
    requires WellFormedElems(es)
  {
    es.Elem? && (HasDuplicate(es.v) || ElemsHaveDuplicate(es.rest))
  }

  predicate MembersHaveDuplicate(ms: Members)
    requires WellFormedMembers(ms)
  {
    ms.Member? && (HasDuplicate(ms.v) || MembersHaveDuplicate(ms.rest))
  }
}
