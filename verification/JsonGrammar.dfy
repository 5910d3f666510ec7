/**
 * The JSON grammar is unambiguous: a text is written by at most one value. This is what lets the
 * model speak of the value a JSON text denotes (sections 2 to 7 of RFC 8259).
 */
module JsonGrammar {
  import opened Wrappers
  import opened JsonText

  /** Empty lists keep their white space, non-empty ones have none outside their members. */
  predicate Normal(v: Value) {
    match v
    case Atom(_) => true
    case Str(_) => true
    case Arr(blank, elems) => (elems.NoElems? || blank == []) && NormalElems(elems)
    case Obj(blank, members) => (members.NoMembers? || blank == []) && NormalMembers(members)
  }

  predicate NormalElems(es: Elems) {
    es.NoElems? || (Normal(es.v) && NormalElems(es.rest))
  }

  predicate NormalMembers(ms: Members) {
    ms.NoMembers? || (Normal(ms.v) && NormalMembers(ms.rest))
  }

  /** The text after a value cannot prolong it: it is empty, or white space or punctuation comes next. */
  predicate Stops(t: Text) {
    t == [] || !Plain(t[0])
  }

  lemma {:induction false} SpacesSplit(a: Text, x: Text, b: Text, y: Text)
    requires Spaces(a) && Spaces(b) && a + x == b + y
    requires x == [] || !Space(x[0])
    requires y == [] || !Space(y[0])
    ensures a == b && x == y
  {
    SkipsExactly(a, x);
    SkipsExactly(b, y);
    assert |a| == |b|;
    assert a == (a + x)[..|a|] && b == (b + y)[..|a|];
  }

  function SkipPlain(t: Text): Text {
    if t != [] && Plain(t[0]) then SkipPlain(t[1..]) else t
  }

  lemma {:induction false} SkipsPlain(a: Text, x: Text)
    requires forall i :: 0 <= i < |a| ==> Plain(a[i])
    requires Stops(x)
    ensures SkipPlain(a + x) == x
  {
    if a == [] {
      assert a + x == x;
    } else {
      assert (a + x)[1..] == a[1..] + x;
      SkipsPlain(a[1..], x);
    }
  }

  lemma PlainSplit(a: Text, x: Text, b: Text, y: Text)
    requires forall i :: 0 <= i < |a| ==> Plain(a[i])
    requires forall i :: 0 <= i < |b| ==> Plain(b[i])
    requires a + x == b + y && Stops(x) && Stops(y)
    ensures a == b && x == y
  {
    SkipsPlain(a, x);
    SkipsPlain(b, y);
    assert |a| == |b|;
    assert a == (a + x)[..|a|] && b == (b + y)[..|a|];
  }

  lemma BodySplit(a: Text, x: Text, b: Text, y: Text)
    requires Decode(a).Some? && Decode(b).Some?
    requires a + ([QUOTE] + x) == b + ([QUOTE] + y)
    ensures a == b && x == y
  {
    assert a + ([QUOTE] + x) == a + [QUOTE] + x && b + ([QUOTE] + y) == b + [QUOTE] + y;
    BodyEndsAtQuote(a, x);
    BodyEndsAtQuote(b, y);
    var t := a + ([QUOTE] + x);
    assert a == t[..|a|] && b == t[..|a|] && x == t[|a| + 1..] && y == t[|a| + 1..];
  }

  /** A value starts with no white space, and its first unit tells its kind. */
  lemma Starts(v: Value)
    requires WellFormed(v)
    ensures TextOf(v) != [] && !Space(TextOf(v)[0])
    ensures TextOf(v)[0] == QUOTE <==> v.Str?
    ensures TextOf(v)[0] == LBRACKET <==> v.Arr?
    ensures TextOf(v)[0] == LBRACE <==> v.Obj?
    ensures v.Atom? <==> Plain(TextOf(v)[0])
  {
  }

  function Inside(v: Value): Text
    requires v.Arr? || v.Obj?
  {
    if v.Arr? then (if v.elems.NoElems? then v.blank else ElemsText(v.elems))
    else (if v.members.NoMembers? then v.blank else MembersText(v.members))
  }

  lemma Peel(u: Unit, a: Text, w: Unit, b: Text)
    requires [u] + a == [w] + b
    ensures u == w && a == b
  {
    assert ([u] + a)[0] == u && ([w] + b)[0] == w;
    assert ([u] + a)[1..] == a && ([w] + b)[1..] == b;
  }

  lemma Brackets(v: Value, x: Text)
    requires v.Arr? || v.Obj?
    ensures TextOf(v) + x
         == [if v.Arr? then LBRACKET else LBRACE] + (Inside(v) + ([if v.Arr? then RBRACKET else RBRACE] + x))
  {
  }

  lemma Quotes(v: Value, x: Text)
    requires v.Str?
    ensures TextOf(v) + x == [QUOTE] + (v.body + ([QUOTE] + x))
  {
  }

  lemma Kinds(v: Value, x: Text, w: Value, y: Text)
    requires WellFormed(v) && WellFormed(w) && TextOf(v) + x == TextOf(w) + y
    ensures v.Atom? == w.Atom? && v.Str? == w.Str? && v.Arr? == w.Arr? && v.Obj? == w.Obj?
  {
    Starts(v);
    Starts(w);
    assert (TextOf(v) + x)[0] == TextOf(v)[0] && (TextOf(w) + y)[0] == TextOf(w)[0];
  }

  /** Two values that start one text at one place are one value, and end at one place. */
  lemma {:induction false} ValueSplit(v: Value, x: Text, w: Value, y: Text)
    requires WellFormed(v) && WellFormed(w) && Normal(v) && Normal(w)
    requires TextOf(v) + x == TextOf(w) + y && Stops(x) && Stops(y)
    ensures v == w && x == y
    decreases v
  {
    Kinds(v, x, w, y);
    match v
    case Atom(raw) =>
      PlainSplit(raw, x, w.raw, y);
    case Str(body) =>
      Quotes(v, x);
      Quotes(w, y);
      Peel(QUOTE, body + ([QUOTE] + x), QUOTE, w.body + ([QUOTE] + y));
      BodySplit(body, x, w.body, y);
    case Arr(blank, elems) =>
      Brackets(v, x);
      Brackets(w, y);
      var a, b := [RBRACKET] + x, [RBRACKET] + y;
      Peel(LBRACKET, Inside(v) + a, LBRACKET, Inside(w) + b);
      ListStart(v, a, w, b, RBRACKET);
      if elems.NoElems? {
        SpacesSplit(blank, a, w.blank, b);
      } else {
        ElemsSplit(elems, a, w.elems, b);
      }
      Peel(RBRACKET, x, RBRACKET, y);
    case Obj(blank, members) =>
      Brackets(v, x);
      Brackets(w, y);
      var a, b := [RBRACE] + x, [RBRACE] + y;
      Peel(LBRACE, Inside(v) + a, LBRACE, Inside(w) + b);
      ListStart(v, a, w, b, RBRACE);
      if members.NoMembers? {
        SpacesSplit(blank, a, w.blank, b);
      } else {
        MembersSplit(members, a, w.members, b);
      }
      Peel(RBRACE, x, RBRACE, y);
  }

  lemma FirstElem(es: Elems, a: Text)
    requires WellFormedElems(es) && es.Elem?
    ensures var first := SkipSpaces(ElemsText(es) + a);
      first != [] && first[0] != RBRACKET
  {
    var rest := es.after + ((if es.rest.NoElems? then [] else [COMMA] + ElemsText(es.rest)) + a);
    assert ElemsText(es) + a == es.before + (TextOf(es.v) + rest);
    SkipsExactly(es.before, TextOf(es.v) + rest);
    Starts(es.v);
    assert (TextOf(es.v) + rest)[0] == TextOf(es.v)[0];
    FirstNotClose(es.v);
  }

  lemma FirstMember(ms: Members, a: Text)
    requires WellFormedMembers(ms) && ms.Member?
    ensures var first := SkipSpaces(MembersText(ms) + a);
      first != [] && first[0] == QUOTE
  {
    var rest := MembersText(ms)[|ms.before| + 1..] + a;
    assert MembersText(ms) + a == ms.before + ([QUOTE] + rest);
    SkipsExactly(ms.before, [QUOTE] + rest);
  }

  /** What comes first inside brackets, white space apart: the closing one exactly when the list is empty. */
  lemma FirstInside(v: Value, a: Text, close: Unit)
    requires (v.Arr? && close == RBRACKET) || (v.Obj? && close == RBRACE)
    requires WellFormed(v) && a != [] && a[0] == close
    ensures var first := SkipSpaces(Inside(v) + a);
      first != [] && (first[0] == close <==> (if v.Arr? then v.elems.NoElems? else v.members.NoMembers?))
  {
    if v.Arr? && v.elems.Elem? {
      FirstElem(v.elems, a);
    } else if v.Obj? && v.members.Member? {
      FirstMember(v.members, a);
    } else {
      SkipsExactly(v.blank, a);
    }
  }

  lemma FirstNotClose(v: Value)
    requires WellFormed(v)
    ensures TextOf(v) != [] && TextOf(v)[0] != RBRACKET && TextOf(v)[0] != RBRACE && TextOf(v)[0] != COMMA
  {
  }

  lemma ListStart(v: Value, a: Text, w: Value, b: Text, close: Unit)
    requires (v.Arr? && w.Arr? && close == RBRACKET) || (v.Obj? && w.Obj? && close == RBRACE)
    requires WellFormed(v) && WellFormed(w)
    requires a != [] && a[0] == close && b != [] && b[0] == close
    requires Inside(v) + a == Inside(w) + b
    ensures v.Arr? ==> v.elems.NoElems? == w.elems.NoElems?
    ensures v.Obj? ==> v.members.NoMembers? == w.members.NoMembers?
  {
    FirstInside(v, a, close);
    FirstInside(w, b, close);
  }

  function ElemsTail(es: Elems): Text
    requires es.Elem?
  {
    if es.rest.NoElems? then [] else [COMMA] + ElemsText(es.rest)
  }

  lemma ElemShape(es: Elems, x: Text)
    requires es.Elem?
    ensures ElemsText(es) + x == es.before + (TextOf(es.v) + (es.after + (ElemsTail(es) + x)))
  {
  }

  lemma StopsAfter(after: Text, rest: Text)
    requires Spaces(after) && Stops(rest)
    ensures Stops(after + rest)
  {
    if after != [] {
      assert (after + rest)[0] == after[0];
    } else {
      assert after + rest == rest;
    }
  }

  lemma StopsTail(tail: Text, x: Text)
    requires (tail == [] || tail[0] == COMMA) && x != [] && !Plain(x[0]) && !Space(x[0])
    ensures tail + x != [] && !Plain((tail + x)[0]) && !Space((tail + x)[0])
  {
    if tail == [] {
      assert tail + x == x;
    }
  }

  /** An element read from its start: white space, its value, white space, then punctuation. */
  lemma ElemReady(es: Elems, x: Text)
    requires es.Elem? && WellFormedElems(es) && x != [] && x[0] == RBRACKET
    ensures ElemsText(es) + x == es.before + (TextOf(es.v) + (es.after + (ElemsTail(es) + x)))
    ensures TextOf(es.v) + (es.after + (ElemsTail(es) + x)) != []
    ensures !Space((TextOf(es.v) + (es.after + (ElemsTail(es) + x)))[0])
    ensures Stops(es.after + (ElemsTail(es) + x))
    ensures ElemsTail(es) + x != [] && !Space((ElemsTail(es) + x)[0])
  {
    ElemShape(es, x);
    Starts(es.v);
    StopsTail(ElemsTail(es), x);
    StopsAfter(es.after, ElemsTail(es) + x);
    FirstOf(es.v, es.after + (ElemsTail(es) + x));
  }

  /** After the tails agree, the lists end together or go on together. */
  lemma TailSplit(s: Text, x: Text, t: Text, y: Text, close: Unit)
    requires s + x == t + y && close != COMMA
    requires x != [] && x[0] == close && y != [] && y[0] == close
    requires (s == [] || s[0] == COMMA) && (t == [] || t[0] == COMMA)
    ensures s == [] <==> t == []
    ensures s == [] ==> x == y
    ensures s != [] ==> s[1..] + x == t[1..] + y
  {
    SameTail(s, x, t, y, close);
    if s == [] {
      assert s + x == x && t + y == y;
    } else {
      assert s + x == [COMMA] + (s[1..] + x) && t + y == [COMMA] + (t[1..] + y);
      Peel(COMMA, s[1..] + x, COMMA, t[1..] + y);
    }
  }

  lemma {:induction false} ElemsSplit(es: Elems, x: Text, fs: Elems, y: Text)
    requires es.Elem? && fs.Elem? && WellFormedElems(es) && WellFormedElems(fs) && NormalElems(es) && NormalElems(fs)
    requires x != [] && x[0] == RBRACKET && y != [] && y[0] == RBRACKET
    requires ElemsText(es) + x == ElemsText(fs) + y
    ensures es == fs && x == y
    decreases es
  {
    var s, t := ElemsTail(es), ElemsTail(fs);
    ElemReady(es, x);
    ElemReady(fs, y);
    SpacesSplit(es.before, TextOf(es.v) + (es.after + (s + x)), fs.before, TextOf(fs.v) + (fs.after + (t + y)));
    ValueSplit(es.v, es.after + (s + x), fs.v, fs.after + (t + y));
    SpacesSplit(es.after, s + x, fs.after, t + y);
    TailSplit(s, x, t, y, RBRACKET);
    if es.rest.Elem? {
      assert s[1..] == ElemsText(es.rest) && t[1..] == ElemsText(fs.rest);
      ElemsSplit(es.rest, x, fs.rest, y);
    }
  }

  lemma FirstOf(v: Value, rest: Text)
    requires TextOf(v) != []
    ensures TextOf(v) + rest != [] && (TextOf(v) + rest)[0] == TextOf(v)[0]
  {
  }

  /** Either both lists go on with a comma, or both end. */
  lemma SameTail(s: Text, x: Text, t: Text, y: Text, close: Unit)
    requires s + x == t + y && close != COMMA
    requires x != [] && x[0] == close && y != [] && y[0] == close
    requires (s == [] || s[0] == COMMA) && (t == [] || t[0] == COMMA)
    ensures s == [] <==> t == []
  {
    assert (s + x)[0] == if s == [] then x[0] else s[0];
    assert (t + y)[0] == if t == [] then y[0] else t[0];
  }

  function MembersTail(ms: Members): Text
    requires ms.Member?
  {
    if ms.rest.NoMembers? then [] else [COMMA] + MembersText(ms.rest)
  }

  /** A member from its value on. */
  function Valued(ms: Members, x: Text): Text
    requires ms.Member?
  {
    TextOf(ms.v) + (ms.after + (MembersTail(ms) + x))
  }

  lemma MemberShape(ms: Members, x: Text)
    requires ms.Member?
    ensures MembersText(ms) + x
         == ms.before + ([QUOTE] + (ms.name + ([QUOTE] + (ms.mid + ([COLON] + (ms.gap + Valued(ms, x)))))))
  {
  }

  /** The name, the colon and the white space around them are settled by the text. */
  lemma NameSplit(ms: Members, x: Text, ns: Members, y: Text)
    requires ms.Member? && ns.Member? && WellFormedMembers(ms) && WellFormedMembers(ns)
    requires MembersText(ms) + x == MembersText(ns) + y
    ensures ms.before == ns.before && ms.name == ns.name && ms.mid == ns.mid && ms.gap == ns.gap
    ensures Valued(ms, x) == Valued(ns, y)
  {
    MemberShape(ms, x);
    MemberShape(ns, y);
    var c, d := ms.gap + Valued(ms, x), ns.gap + Valued(ns, y);
    var a, b := ms.mid + ([COLON] + c), ns.mid + ([COLON] + d);
    SpacesSplit(ms.before, [QUOTE] + (ms.name + ([QUOTE] + a)), ns.before, [QUOTE] + (ns.name + ([QUOTE] + b)));
    Peel(QUOTE, ms.name + ([QUOTE] + a), QUOTE, ns.name + ([QUOTE] + b));
    BodySplit(ms.name, a, ns.name, b);
    SpacesSplit(ms.mid, [COLON] + c, ns.mid, [COLON] + d);
    Peel(COLON, c, COLON, d);
    Starts(ms.v);
    Starts(ns.v);
    FirstOf(ms.v, ms.after + (MembersTail(ms) + x));
    FirstOf(ns.v, ns.after + (MembersTail(ns) + y));
    SpacesSplit(ms.gap, Valued(ms, x), ns.gap, Valued(ns, y));
  }

  lemma MemberReady(ms: Members, x: Text)
    requires ms.Member? && WellFormedMembers(ms) && x != [] && x[0] == RBRACE
    ensures Stops(ms.after + (MembersTail(ms) + x))
    ensures MembersTail(ms) + x != [] && !Space((MembersTail(ms) + x)[0])
  {
    StopsTail(MembersTail(ms), x);
    StopsAfter(ms.after, MembersTail(ms) + x);
  }

  lemma {:induction false} MembersSplit(ms: Members, x: Text, ns: Members, y: Text)
    requires ms.Member? && ns.Member? && WellFormedMembers(ms) && WellFormedMembers(ns)
    requires NormalMembers(ms) && NormalMembers(ns)
    requires x != [] && x[0] == RBRACE && y != [] && y[0] == RBRACE
    requires MembersText(ms) + x == MembersText(ns) + y
    ensures ms == ns && x == y
    decreases ms
  {
    var s, t := MembersTail(ms), MembersTail(ns);
    NameSplit(ms, x, ns, y);
    MemberReady(ms, x);
    MemberReady(ns, y);
    ValueSplit(ms.v, ms.after + (s + x), ns.v, ns.after + (t + y));
    SpacesSplit(ms.after, s + x, ns.after, t + y);
    TailSplit(s, x, t, y, RBRACE);
    if ms.rest.Member? {
      assert s[1..] == MembersText(ms.rest) && t[1..] == MembersText(ns.rest);
      MembersSplit(ms.rest, x, ns.rest, y);
    }
  }

  /** A JSON text, white space around its value included, is written in one way only. */
  lemma TextDeterminesValue(before: Text, v: Value, after: Text, before': Text, v': Value, after': Text)
    requires Spaces(before) && Spaces(after) && Spaces(before') && Spaces(after')
    requires WellFormed(v) && WellFormed(v') && Normal(v) && Normal(v')
    requires before + (TextOf(v) + after) == before' + (TextOf(v') + after')
    ensures before == before' && v == v' && after == after'
  {
    Starts(v);
    Starts(v');
    FirstOf(v, after);
    FirstOf(v', after');
    SpacesSplit(before, TextOf(v) + after, before', TextOf(v') + after');
    ValueSplit(v, after, v', after');
  }
}
