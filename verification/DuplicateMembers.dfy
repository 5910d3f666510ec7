/**
 * The one-pass scanner that rejects duplicate object members
 * (backoffice/src/server/oidc.ts), against the definition over JSON trees.
 */
module DuplicateMembers {
  import opened Wrappers
  import opened JsonText

  /** What the scope stack holds: the names an object has shown so far, or nothing for an array. */
  datatype Scope = Object(names: set<Text>) | Array

  /**
   * The scan passes, finds a duplicate, meets a member name that is no string literal, or never
   * returns because a literal is not closed.
   */
  datatype Outcome = Clean | Duplicate | BadLiteral | Endless

  function Popped(scopes: seq<Scope>): seq<Scope> {
    if scopes == [] then [] else scopes[..|scopes| - 1]
  }

  /** A colon comes next, white space apart. */
  predicate ColonNext(t: Text) {
    SkipSpaces(t) != [] && SkipSpaces(t)[0] == COLON
  }

  predicate InObject(scopes: seq<Scope>) {
    scopes != [] && scopes[|scopes| - 1].Object?
  }

  /** The scopes after a character outside any literal. */
  function Stepped(scopes: seq<Scope>, character: Unit): seq<Scope> {
    if character == LBRACE then scopes + [Object({})]
    else if character == LBRACKET then scopes + [Array]
    else if character == RBRACE || character == RBRACKET then Popped(scopes)
    else scopes
  }

  /** The scan of the text still to read, under the open scopes. */
  function Scan(t: Text, scopes: seq<Scope>): Outcome
    decreases |t|
  {
    if t == [] then Clean
    else if t[0] != QUOTE then Scan(t[1..], Stepped(scopes, t[0]))
    else
      var n := BodyLength(t[1..]);
      if n.None? then Endless
      else ScanLiteral(t[1..n.value + 1], t[n.value + 2..], scopes)
  }

  /** A literal is a member name when it stands in an object and a colon follows it. */
  function ScanLiteral(body: Text, rest: Text, scopes: seq<Scope>): Outcome
    decreases |rest| + 1
  {
    if InObject(scopes) && ColonNext(rest) then
      var names := scopes[|scopes| - 1].names;
      if Decode(body).None? then BadLiteral
      else if Decode(body).value in names then Duplicate
      else Scan(rest, Popped(scopes) + [Object(names + {Decode(body).value})])
    else Scan(rest, scopes)
  }

  /** The inner loop over a literal: from its opening quote to the quote that closes it. */
  method EndOfLiteral(text: Text, start: nat) returns (index: nat)
    requires start < |text| && BodyLength(text[start + 1..]).Some?
    ensures index == start + 1 + BodyLength(text[start + 1..]).value
    ensures index < |text| && text[index] == QUOTE
  {
    ghost var end := start + 1 + BodyLength(text[start + 1..]).value;
    index := start + 1;
    while text[index] != QUOTE
      invariant start < index <= end < |text|
      invariant BodyLength(text[index..]) == Some(end - index)
      decreases end - index
    {
      assert text[index..][1..] == text[index + 1..];
      if text[index] == BACKSLASH {
        assert text[index..][2..] == text[index + 2..];
        index := index + 1;
      }
      index := index + 1;
    }
  }

  /** The inner loop that looks past white space. */
  method PastSpaces(text: Text, from: nat) returns (next: nat)
    requires from <= |text|
    ensures from <= next <= |text|
    ensures SkipSpaces(text[from..]) == text[next..]
    ensures ColonNext(text[from..]) <==> next < |text| && text[next] == COLON
  {
    next := from;
    while next < |text| && Space(text[next])
      invariant from <= next <= |text|
      invariant SkipSpaces(text[next..]) == SkipSpaces(text[from..])
    {
      assert text[next..][1..] == text[next + 1..];
      next := next + 1;
    }
  }

  /** At a quote, the scan splits into the literal and the text after it. */
  lemma ScanAtQuote(text: Text, index: nat, end: nat, scopes: seq<Scope>)
    requires index < end < |text| && text[index] == QUOTE
    requires BodyLength(text[index + 1..]) == Some(end - index - 1)
    ensures Scan(text[index..], scopes) == ScanLiteral(text[index + 1..end], text[end + 1..], scopes)
  {
    var t := text[index..];
    assert t[1..] == text[index + 1..];
    assert t[1..end - index] == text[index + 1..end];
    assert t[end - index + 1..] == text[end + 1..];
  }

  lemma ScanOrdinary(text: Text, index: nat, scopes: seq<Scope>)
    requires index < |text| && text[index] != QUOTE
    ensures Scan(text[index..], scopes) == Scan(text[index + 1..], Stepped(scopes, text[index]))
  {
    assert text[index..][1..] == text[index + 1..];
  }

  lemma UnclosedIsEndless(text: Text, index: nat, scopes: seq<Scope>)
    requires index < |text| && text[index] == QUOTE
    ensures BodyLength(text[index + 1..]).None? ==> Scan(text[index..], scopes) == Endless
  {
    assert text[index..][1..] == text[index + 1..];
  }

  lemma LiteralVerdict(text: Text, start: nat, end: nat, scopes: seq<Scope>, named: bool)
    requires start < end < |text| && text[start] == QUOTE && BodyLength(text[start + 1..]) == Some(end - start - 1)
    requires named <==> InObject(scopes) && ColonNext(text[end + 1..])
    ensures !named ==> Scan(text[start..], scopes) == Scan(text[end + 1..], scopes)
    ensures named ==>
      var member, names := Decode(text[start + 1..end]), scopes[|scopes| - 1].names;
      Scan(text[start..], scopes)
        == if member.None? then BadLiteral
           else if member.value in names then Duplicate
           else Scan(text[end + 1..], Popped(scopes) + [Object(names + {member.value})])
  {
    ScanAtQuote(text, start, end, scopes);
  }

  /** The literal that opens at `start`: its closing quote, and the scopes with its name in them, if it is one. */
  method OnLiteral(text: Text, start: nat, scopes: seq<Scope>) returns (verdict: Outcome, index: nat, after: seq<Scope>)
    requires start < |text| && text[start] == QUOTE && BodyLength(text[start + 1..]).Some?
    ensures start < index < |text|
    ensures Scan(text[start..], scopes) == if verdict == Clean then Scan(text[index + 1..], after) else verdict
  {
    index := EndOfLiteral(text, start);
    after := scopes;
    verdict := Clean;
    var next := PastSpaces(text, index + 1);
    ghost var named := InObject(scopes) && ColonNext(text[index + 1..]);
    LiteralVerdict(text, start, index, scopes, named);
    if InObject(scopes) && next < |text| && text[next] == COLON {
      var member := Decode(text[start + 1..index]);
      if member.None? {
        return BadLiteral, index, scopes;
      }
      var names := scopes[|scopes| - 1].names;
      if member.value in names {
        return Duplicate, index, scopes;
      }
      after := Popped(scopes) + [Object(names + {member.value})];
    }
  }

  /** The scanner, with its index and its scope stack. */
  method AssertNoDuplicateMembers(text: Text) returns (outcome: Outcome)
    requires Scan(text, []) != Endless
    ensures outcome == Scan(text, [])
  {
    var scopes: seq<Scope> := [];
    var index := 0;
    assert text[0..] == text;
    while index < |text|
      invariant 0 <= index <= |text|
      invariant Scan(text[index..], scopes) == Scan(text, [])
    {
      var character := text[index];
      if character == QUOTE {
        UnclosedIsEndless(text, index, scopes);
        var verdict;
        verdict, index, scopes := OnLiteral(text, index, scopes);
        if verdict != Clean {
          return verdict;
        }
      } else {
        ScanOrdinary(text, index, scopes);
        if character == LBRACE {
          scopes := scopes + [Object({})];
        } else if character == LBRACKET {
          scopes := scopes + [Array];
        } else if character == RBRACE || character == RBRACKET {
          scopes := Popped(scopes);
        }
      }
      index := index + 1;
    }
    return Clean;
  }

  // ---------------------------------------------------------------------------
  // The scan of a JSON tree
  // ---------------------------------------------------------------------------

  /** Units the scanner steps over without looking: white space, commas, colons, numbers, names. */
  predicate Inert(t: Text) {
    forall i :: 0 <= i < |t| ==>
      t[i] != LBRACE && t[i] != RBRACE && t[i] != LBRACKET && t[i] != RBRACKET && t[i] != QUOTE
  }

  lemma {:induction false} ScanInert(t: Text, post: Text, scopes: seq<Scope>)
    requires Inert(t)
    ensures Scan(t + post, scopes) == Scan(post, scopes)
    decreases |t|
  {
    if t == [] {
      assert t + post == post;
    } else {
      assert (t + post)[1..] == t[1..] + post;
      ScanInert(t[1..], post, scopes);
    }
  }

  lemma ScanQuoted(body: Text, post: Text, scopes: seq<Scope>)
    requires Decode(body).Some?
    ensures Scan([QUOTE] + body + [QUOTE] + post, scopes) == ScanLiteral(body, post, scopes)
  {
    var t := [QUOTE] + body + [QUOTE] + post;
    assert t[1..] == body + [QUOTE] + post;
    BodyEndsAtQuote(body, post);
    assert t[1..|body| + 1] == body;
    assert t[|body| + 2..] == post;
  }

  predicate Meets(names: seq<Text>, seen: set<Text>) {
    exists i :: 0 <= i < |names| && names[i] in seen
  }

  function NameSet(names: seq<Text>): set<Text> {
    set n | n in names
  }

  lemma RepeatsCons(name: Text, rest: seq<Text>)
    ensures Repeats([name] + rest) <==> name in rest || Repeats(rest)
  {
    var names := [name] + rest;
    if name in rest {
      var j :| 0 <= j < |rest| && rest[j] == name;
      assert names[0] == names[j + 1];
    }
    if Repeats(rest) {
      var i, j :| 0 <= i < j < |rest| && rest[i] == rest[j];
      assert names[i + 1] == names[j + 1];
    }
    if Repeats(names) {
      var i, j :| 0 <= i < j < |names| && names[i] == names[j];
      assert rest[j - 1] == names[j];
      if i > 0 {
        assert rest[i - 1] == rest[j - 1];
      }
    }
  }

  lemma MeetsCons(name: Text, rest: seq<Text>, seen: set<Text>)
    ensures Meets([name] + rest, seen) <==> name in seen || Meets(rest, seen)
    ensures Meets(rest, seen + {name}) <==> name in rest || Meets(rest, seen)
    ensures NameSet([name] + rest) == {name} + NameSet(rest)
  {
    var names := [name] + rest;
    if Meets(names, seen) {
      var i :| 0 <= i < |names| && names[i] in seen;
      assert i == 0 || rest[i - 1] == names[i];
    }
    if name in seen {
      assert names[0] in seen;
    }
    if Meets(rest, seen) {
      var i :| 0 <= i < |rest| && rest[i] in seen;
      assert names[i + 1] in seen && rest[i] in seen + {name};
    }
    if name in rest {
      var i :| 0 <= i < |rest| && rest[i] == name;
      assert rest[i] in seen + {name};
    }
  }

  lemma {:induction false} ScanValue(v: Value, post: Text, scopes: seq<Scope>)
    requires WellFormed(v) && !ColonNext(post)
    ensures Scan(TextOf(v) + post, scopes) == if HasDuplicate(v) then Duplicate else Scan(post, scopes)
    decreases v, 1
  {
    match v
    case Atom(raw) => ScanInert(raw, post, scopes);
    case Str(body) => ScanQuoted(body, post, scopes);
    case Arr(_, _) => ScanArray(v, post, scopes);
    case Obj(_, _) => ScanObject(v, post, scopes);
  }

  lemma {:induction false} ScanArray(v: Value, post: Text, scopes: seq<Scope>)
    requires v.Arr? && WellFormed(v) && !ColonNext(post)
    ensures Scan(TextOf(v) + post, scopes) == if HasDuplicate(v) then Duplicate else Scan(post, scopes)
    decreases v, 0
  {
    var inside := if v.elems.NoElems? then v.blank else ElemsText(v.elems);
    assert TextOf(v) + post == [LBRACKET] + (inside + ([RBRACKET] + post));
    ScanBracket(LBRACKET, inside + ([RBRACKET] + post), scopes);
    ScanBracket(RBRACKET, post, scopes + [Array]);
    assert Popped(scopes + [Array]) == scopes;
    if v.elems.NoElems? {
      ScanInert(v.blank, [RBRACKET] + post, scopes + [Array]);
    } else {
      NotColon(RBRACKET, post);
      ScanElems(v.elems, [RBRACKET] + post, scopes + [Array]);
    }
  }

  lemma {:induction false} ScanObject(v: Value, post: Text, scopes: seq<Scope>)
    requires v.Obj? && WellFormed(v) && !ColonNext(post)
    ensures Scan(TextOf(v) + post, scopes) == if HasDuplicate(v) then Duplicate else Scan(post, scopes)
    decreases v, 0
  {
    var inside := if v.members.NoMembers? then v.blank else MembersText(v.members);
    assert TextOf(v) + post == [LBRACE] + (inside + ([RBRACE] + post));
    ScanBracket(LBRACE, inside + ([RBRACE] + post), scopes);
    if v.members.NoMembers? {
      ScanInert(v.blank, [RBRACE] + post, scopes + [Object({})]);
      ScanBracket(RBRACE, post, scopes + [Object({})]);
      assert Popped(scopes + [Object({})]) == scopes;
    } else {
      NotColon(RBRACE, post);
      ScanMembers(v.members, {}, [RBRACE] + post, scopes);
      var last := scopes + [Object({} + NameSet(Names(v.members)))];
      ScanBracket(RBRACE, post, last);
      assert Popped(last) == scopes;
    }
  }

  lemma ScanBracket(bracket: Unit, rest: Text, scopes: seq<Scope>)
    requires bracket != QUOTE
    ensures Scan([bracket] + rest, scopes) == Scan(rest, Stepped(scopes, bracket))
  {
    assert ([bracket] + rest)[1..] == rest;
  }

  lemma NotColon(u: Unit, post: Text)
    requires u != COLON && !Space(u)
    ensures !ColonNext([u] + post)
  {
  }

  lemma {:induction false} ScanElems(es: Elems, post: Text, scopes: seq<Scope>)
    requires WellFormedElems(es) && es.Elem? && !ColonNext(post) && scopes != []
    ensures Scan(ElemsText(es) + post, scopes) == if ElemsHaveDuplicate(es) then Duplicate else Scan(post, scopes)
    decreases es, 0
  {
    var tail := if es.rest.NoElems? then [] else [COMMA] + ElemsText(es.rest);
    assert ElemsText(es) + post == es.before + (TextOf(es.v) + (es.after + (tail + post)));
    ScanInert(es.before, TextOf(es.v) + (es.after + (tail + post)), scopes);
    NoColonAfter(es.after, tail, post);
    ScanValue(es.v, es.after + (tail + post), scopes);
    ScanInert(es.after, tail + post, scopes);
    if es.rest.Elem? {
      ScanComma(tail, ElemsText(es.rest), post, scopes);
      ScanElems(es.rest, post, scopes);
    } else {
      assert tail + post == post;
    }
  }

  lemma ScanComma(tail: Text, rest: Text, post: Text, scopes: seq<Scope>)
    requires tail == [COMMA] + rest
    ensures Scan(tail + post, scopes) == Scan(rest + post, scopes)
  {
    assert tail + post == [COMMA] + (rest + post);
    ScanInert([COMMA], rest + post, scopes);
  }

  lemma ScanColon(mid: Text, gap: Text, rest: Text, scopes: seq<Scope>)
    requires Spaces(mid) && Spaces(gap)
    ensures Scan(mid + ([COLON] + (gap + rest)), scopes) == Scan(rest, scopes)
    ensures ColonNext(mid + ([COLON] + (gap + rest)))
  {
    ScanInert(mid, [COLON] + (gap + rest), scopes);
    ScanInert([COLON], gap + rest, scopes);
    ScanInert(gap, rest, scopes);
    SkipsExactly(mid, [COLON] + (gap + rest));
  }

  /** After a value come white space and then a comma, or what follows the whole list. */
  lemma NoColonAfter(after: Text, tail: Text, post: Text)
    requires Spaces(after) && !ColonNext(post) && (tail == [] || tail[0] == COMMA)
    ensures !ColonNext(after + (tail + post))
  {
    SkipsExactly(after, tail + post);
    if tail == [] {
      assert tail + post == post;
    }
  }

  /** What is written after a member's name and before the next member or the closing brace. */
  function MemberTail(ms: Members, post: Text): Text
    requires ms.Member?
  {
    (if ms.rest.NoMembers? then [] else [COMMA] + MembersText(ms.rest)) + post
  }

  /** The scan of a member up to its value: the name is recorded, or found a second time. */
  lemma ScanName(ms: Members, names: set<Text>, post: Text, scopes: seq<Scope>)
    requires WellFormedMembers(ms) && ms.Member?
    ensures var name := Decode(ms.name).value;
      Scan(MembersText(ms) + post, scopes + [Object(names)])
      == if name in names then Duplicate
         else Scan(TextOf(ms.v) + (ms.after + MemberTail(ms, post)), scopes + [Object(names + {name})])
  {
    var name := Decode(ms.name).value;
    var open, next := scopes + [Object(names)], scopes + [Object(names + {name})];
    var valued := TextOf(ms.v) + (ms.after + MemberTail(ms, post));
    var named := ms.mid + ([COLON] + (ms.gap + valued));
    MemberShape(ms, post);
    ScanInert(ms.before, [QUOTE] + ms.name + [QUOTE] + named, open);
    ScanQuoted(ms.name, named, open);
    ScanColon(ms.mid, ms.gap, valued, next);
    assert open[|open| - 1] == Object(names) && Popped(open) == scopes;
  }

  lemma MemberShape(ms: Members, post: Text)
    requires ms.Member?
    ensures MembersText(ms) + post
         == ms.before + ([QUOTE] + ms.name + [QUOTE]
            + (ms.mid + ([COLON] + (ms.gap + (TextOf(ms.v) + (ms.after + MemberTail(ms, post)))))))
  {
  }

  /** The scan of one member: its name is new, its value repeats no name, or the scan stops there. */
  lemma {:induction false} ScanMember(ms: Members, seen: set<Text>, post: Text, scopes: seq<Scope>)
    requires WellFormedMembers(ms) && ms.Member? && !ColonNext(post)
    ensures var name := Decode(ms.name).value;
      Scan(MembersText(ms) + post, scopes + [Object(seen)])
      == if name in seen || HasDuplicate(ms.v) then Duplicate
         else Scan(MemberTail(ms, post), scopes + [Object(seen + {name})])
    decreases ms, 0
  {
    var next := scopes + [Object(seen + {Decode(ms.name).value})];
    var tail := if ms.rest.NoMembers? then [] else [COMMA] + MembersText(ms.rest);
    ScanName(ms, seen, post, scopes);
    NoColonAfter(ms.after, tail, post);
    ScanValue(ms.v, ms.after + (tail + post), next);
    ScanInert(ms.after, tail + post, next);
  }

  /** A list goes wrong at its first member or after it. */
  lemma FaultOfList(ms: Members, seen: set<Text>)
    requires WellFormedMembers(ms) && ms.Member?
    ensures var name := Decode(ms.name).value;
      && (Repeats(Names(ms)) || Meets(Names(ms), seen) || MembersHaveDuplicate(ms)
          <==> name in seen || HasDuplicate(ms.v)
               || Repeats(Names(ms.rest)) || Meets(Names(ms.rest), seen + {name}) || MembersHaveDuplicate(ms.rest))
      && seen + {name} + NameSet(Names(ms.rest)) == seen + NameSet(Names(ms))
  {
    RepeatsCons(Decode(ms.name).value, Names(ms.rest));
    MeetsCons(Decode(ms.name).value, Names(ms.rest), seen);
  }

  lemma {:induction false} ScanMembers(ms: Members, seen: set<Text>, post: Text, scopes: seq<Scope>)
    requires WellFormedMembers(ms) && ms.Member? && !ColonNext(post)
    ensures Scan(MembersText(ms) + post, scopes + [Object(seen)])
         == if Repeats(Names(ms)) || Meets(Names(ms), seen) || MembersHaveDuplicate(ms) then Duplicate
            else Scan(post, scopes + [Object(seen + NameSet(Names(ms)))])
    decreases ms, 1
  {
    var name := Decode(ms.name).value;
    var next := scopes + [Object(seen + {name})];
    ScanMember(ms, seen, post, scopes);
    FaultOfList(ms, seen);
    if ms.rest.Member? {
      ScanComma([COMMA] + MembersText(ms.rest), MembersText(ms.rest), post, next);
      ScanMembers(ms.rest, seen + {name}, post, scopes);
    } else {
      assert MemberTail(ms, post) == post;
      assert seen + {name} == seen + NameSet(Names(ms));
    }
  }

  /**
   * On every JSON text, whatever its nesting, white space and escapes, the scanner terminates and
   * rejects exactly the texts in which some object repeats a member name.
   */
  lemma ScanDecidesDuplicates(before: Text, v: Value, after: Text)
    requires Spaces(before) && WellFormed(v) && Spaces(after)
    ensures Scan(before + TextOf(v) + after, []) == if HasDuplicate(v) then Duplicate else Clean
  {
    assert before + TextOf(v) + after == before + (TextOf(v) + after);
    ScanInert(before, TextOf(v) + after, []);
    assert after + [] == after;
    SkipsExactly(after, []);
    ScanValue(v, after, []);
    ScanInert(after, [], []);
  }

  // ---------------------------------------------------------------------------
  // Texts that are not JSON
  // ---------------------------------------------------------------------------

  /** Every literal that opens in the text also closes in it. */
  predicate LiteralsClosed(t: Text) {
    if t == [] then true
    else if t[0] == QUOTE then
      BodyLength(t[1..]).Some? && LiteralsClosed(t[BodyLength(t[1..]).value + 2..])
    else LiteralsClosed(t[1..])
  }

  /** Closed literals are enough for the scan to return. */
  lemma {:induction false} ClosedLiteralsTerminate(t: Text, scopes: seq<Scope>)
    requires LiteralsClosed(t)
    ensures Scan(t, scopes) != Endless
    decreases |t|
  {
    if t == [] {
    } else if t[0] == QUOTE {
      var n := BodyLength(t[1..]).value;
      var body, rest := t[1..n + 1], t[n + 2..];
      ClosedLiteralsTerminate(rest, scopes);
      if InObject(scopes) && Decode(body).Some? {
        ClosedLiteralsTerminate(rest, Popped(scopes) + [Object(scopes[|scopes| - 1].names + {Decode(body).value})]);
      }
    } else {
      ClosedLiteralsTerminate(t[1..], Stepped(scopes, t[0]));
    }
  }

  /** The text ahead of the first literal that never closes. */
  function BeforeUnclosed(t: Text): (ahead: Text)
    ensures ahead <= t && LiteralsClosed(ahead)
    decreases |t|
  {
    if t == [] then []
    else if t[0] != QUOTE then
      PlainAhead(t[0], BeforeUnclosed(t[1..]));
      [t[0]] + BeforeUnclosed(t[1..])
    else
      var n := BodyLength(t[1..]);
      if n.None? then []
      else
        LiteralAhead(t, n.value, BeforeUnclosed(t[n.value + 2..]));
        t[..n.value + 2] + BeforeUnclosed(t[n.value + 2..])
  }

  lemma PlainAhead(u: Unit, more: Text)
    requires u != QUOTE
    ensures LiteralsClosed(more) ==> LiteralsClosed([u] + more)
  {
    assert ([u] + more)[1..] == more;
  }

  /** What follows a literal has no part in where it ends. */
  lemma {:induction false} BodyEndsAlike(t: Text, n: nat, more: Text)
    requires BodyLength(t) == Some(n)
    ensures n < |t| && BodyLength(t[..n + 1] + more) == Some(n)
    decreases |t|
  {
    var cut := t[..n + 1] + more;
    assert cut[0] == t[0];
    if t[0] == BACKSLASH {
      BodyEndsAlike(t[2..], n - 2, more);
      assert cut[2..] == t[2..][..n - 1] + more;
    } else if t[0] != QUOTE {
      BodyEndsAlike(t[1..], n - 1, more);
      assert cut[1..] == t[1..][..n] + more;
    }
  }

  lemma LiteralAhead(t: Text, n: nat, more: Text)
    requires t != [] && t[0] == QUOTE && BodyLength(t[1..]) == Some(n)
    ensures n + 2 <= |t|
    ensures var cut := t[..n + 2] + more;
      cut[0] == QUOTE && BodyLength(cut[1..]) == Some(n) && cut[1..n + 1] == t[1..n + 1] && cut[n + 2..] == more
    ensures LiteralsClosed(more) ==> LiteralsClosed(t[..n + 2] + more)
  {
    BodyEndsAlike(t[1..], n, more);
    assert (t[..n + 2] + more)[1..] == t[1..][..n + 1] + more;
  }

  /** The cut falls on a quote, so what comes next after white space is a colon on both sides or on neither. */
  lemma {:induction false} ColonSurvivesTheCut(t: Text)
    ensures ColonNext(BeforeUnclosed(t)) <==> ColonNext(t)
    decreases |t|
  {
    if t != [] && Space(t[0]) {
      ColonSurvivesTheCut(t[1..]);
      assert BeforeUnclosed(t)[1..] == BeforeUnclosed(t[1..]);
    }
  }

  /** The scopes the scan goes on under after a literal it does not reject. */
  function AfterLiteral(body: Text, rest: Text, scopes: seq<Scope>): seq<Scope> {
    if InObject(scopes) && ColonNext(rest) && Decode(body).Some? then
      Popped(scopes) + [Object(scopes[|scopes| - 1].names + {Decode(body).value})]
    else scopes
  }

  lemma DecidedPast(body: Text, rest: Text, cut: Text, scopes: seq<Scope>)
    requires ColonNext(cut) <==> ColonNext(rest)
    requires var next := AfterLiteral(body, rest, scopes);
      Scan(rest, next) == if Scan(cut, next) == Clean then Endless else Scan(cut, next)
    ensures ScanLiteral(body, rest, scopes)
      == if ScanLiteral(body, cut, scopes) == Clean then Endless else ScanLiteral(body, cut, scopes)
  {
  }

  /**
   * With an unclosed literal in the text, the scan rejects exactly what it rejects ahead of that literal,
   * and otherwise runs for ever.
   */
  lemma {:induction false} UnclosedLiteralsDecide(t: Text, scopes: seq<Scope>)
    requires !LiteralsClosed(t)
    ensures Scan(t, scopes)
      == if Scan(BeforeUnclosed(t), scopes) == Clean then Endless else Scan(BeforeUnclosed(t), scopes)
    decreases |t|
  {
    if t[0] != QUOTE {
      UnclosedLiteralsDecide(t[1..], Stepped(scopes, t[0]));
      assert BeforeUnclosed(t)[1..] == BeforeUnclosed(t[1..]);
    } else if BodyLength(t[1..]).Some? {
      var n := BodyLength(t[1..]).value;
      var body, rest := t[1..n + 1], t[n + 2..];
      LiteralAhead(t, n, BeforeUnclosed(rest));
      ColonSurvivesTheCut(rest);
      UnclosedLiteralsDecide(rest, AfterLiteral(body, rest, scopes));
      DecidedPast(body, rest, BeforeUnclosed(rest), scopes);
    }
  }

  /**
   * The scan runs for ever exactly when some literal never closes and nothing ahead of the first such
   * literal is rejected.
   */
  lemma EndlessExactlyWhenUnclosed(t: Text, scopes: seq<Scope>)
    ensures Scan(t, scopes) == Endless <==> !LiteralsClosed(t) && Scan(BeforeUnclosed(t), scopes) == Clean
  {
    if LiteralsClosed(t) {
      ClosedLiteralsTerminate(t, scopes);
    } else {
      UnclosedLiteralsDecide(t, scopes);
      ClosedLiteralsTerminate(BeforeUnclosed(t), scopes);
    }
  }

  /** From an unclosed literal on, the inner loop never meets the quote it is looking for. */
  lemma {:induction false} NoQuoteAhead(t: Text, steps: nat)
    requires BodyLength(t).None?
    ensures Walk(t, steps) < |t| ==> t[Walk(t, steps)] != QUOTE
  {
    if steps > 0 && t != [] {
      var step := if t[0] == BACKSLASH then 2 else 1;
      if step <= |t| {
        NoQuoteAhead(t[step..], steps - 1);
      }
    }
  }

  /** Where the inner loop's index is after some turns, past the end of the text included. */
  function Walk(t: Text, steps: nat): nat
    decreases steps
  {
    if steps == 0 then 0
    else if t == [] then steps
    else
      var step := if t[0] == BACKSLASH then 2 else 1;
      step + Walk(if step <= |t| then t[step..] else [], steps - 1)
  }

  /** The scan-first caller can be handed such a text: a lone quote. */
  lemma LoneQuoteIsEndless()
    ensures !LiteralsClosed([QUOTE]) && BeforeUnclosed([QUOTE]) == [] && Scan([QUOTE], []) == Endless
  {
    assert [QUOTE][1..] == [];
    EndlessExactlyWhenUnclosed([QUOTE], []);
  }
}
