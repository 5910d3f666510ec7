/**
 * The hand-written parser of a flat JSON object of strings
 * (backoffice/src/server/request-body.ts), against the JSON grammar.
 */
module RequestBody {
  import opened Wrappers
  import opened JsonText

  datatype Token = Token(value: Text, rest: Text)

  /** The units `.` does not match in a regular expression without the `s` flag. */
  predicate LineTerminator(u: Unit) {
    u == 10 || u == 13 || u == 0x2028 || u == 0x2029
  }

  /** The length of the literal body the sticky regular expression matches, up to its closing quote. */
  function TokenLength(t: Text): (n: Option<nat>)
    ensures n.Some? ==> n.value < |t| && t[n.value] == QUOTE
  {
    if t == [] then None
    else if t[0] == QUOTE then Some(0)
    else if t[0] == BACKSLASH then
      if |t| < 2 || LineTerminator(t[1]) then None
      else if TokenLength(t[2..]).Some? then Some(TokenLength(t[2..]).value + 2) else None
    else if TokenLength(t[1..]).Some? then Some(TokenLength(t[1..]).value + 1)
    else None
  }

  /** readString: white space, one literal, decoded. */
  function ReadToken(t: Text): (token: Option<Token>)
    ensures token.Some? ==> |token.value.rest| < |t|
  {
    var start := SkipSpaces(t);
    if start == [] || start[0] != QUOTE then None
    else
      var n := TokenLength(start[1..]);
      if n.None? then None else TokenOf(start[1..n.value + 1], start[n.value + 2..])
  }

  function TokenOf(body: Text, rest: Text): Option<Token> {
    var value := Decode(body);
    if value.None? then None else Some(Token(value.value, rest))
  }

  /** expect: white space, then the one character. */
  function Expected(t: Text, character: Unit): (rest: Option<Text>)
    ensures rest.Some? ==> |rest.value| < |t|
  {
    var start := SkipSpaces(t);
    if start == [] || start[0] != character then None else Some(start[1..])
  }

  datatype Entries = Entries(read: map<Text, Text>, rest: Text)

  /** One turn of the member loop: a key, a colon and a value; `rest` starts past white space. */
  function ParseMember(t: Text, entries: map<Text, Text>): (parsed: Option<Entries>)
    ensures parsed.Some? ==> |parsed.value.rest| < |t|
  {
    var key := ReadToken(t);
    if key.None? then None
    else
      var colon := Expected(key.value.rest, COLON);
      if colon.None? then None
      else
        var value := ReadToken(colon.value);
        if value.None? || key.value.value in entries then None
        else Some(Entries(entries[key.value.value := value.value.value], SkipSpaces(value.value.rest)))
  }

  function ParseMembers(t: Text, entries: map<Text, Text>): Option<Entries>
    decreases |t|
  {
    var parsed := ParseMember(t, entries);
    if parsed.None? then None
    else if parsed.value.rest != [] && parsed.value.rest[0] == COMMA then
      ParseMembers(parsed.value.rest[1..], parsed.value.read)
    else parsed
  }

  /** The closing brace and the end of the text. */
  function ParseEnd(e: Entries): Option<map<Text, Text>> {
    var close := Expected(e.rest, RBRACE);
    if close.None? || SkipSpaces(close.value) != [] then None else Some(e.read)
  }

  function ParseObject(t: Text): Option<map<Text, Text>> {
    var open := Expected(t, LBRACE);
    if open.None? then None
    else
      var inside := SkipSpaces(open.value);
      if inside != [] && inside[0] == RBRACE then ParseEnd(Entries(map[], inside))
      else
        var parsed := ParseMembers(inside, map[]);
        if parsed.None? then None else ParseEnd(parsed.value)
  }

  function Shifted(n: Option<nat>, offset: nat): Option<nat> {
    if n.None? then None else Some(offset + n.value)
  }

  /** One turn of the match: an escaped pair or a plain unit. */
  lemma TokenStep(text: Text, at: nat)
    requires at < |text| && text[at] != QUOTE
    requires text[at] == BACKSLASH ==> at + 1 < |text| && !LineTerminator(text[at + 1])
    ensures var next := if text[at] == BACKSLASH then at + 2 else at + 1;
      Shifted(TokenLength(text[at..]), at) == Shifted(TokenLength(text[next..]), next)
  {
    assert text[at..][1..] == text[at + 1..];
    if text[at] == BACKSLASH {
      assert text[at..][2..] == text[at + 2..];
    }
  }

  lemma {:induction false} SkippedStaysSkipped(t: Text)
    ensures SkipSpaces(SkipSpaces(t)) == SkipSpaces(t)
  {
    if t != [] && Space(t[0]) {
      SkippedStaysSkipped(t[1..]);
    }
  }

  lemma TokenSkips(t: Text)
    ensures ReadToken(SkipSpaces(t)) == ReadToken(t)
    ensures SkipSpaces(t) == [] || SkipSpaces(t)[0] != QUOTE ==> ReadToken(t) == None
  {
    SkippedStaysSkipped(t);
  }

  lemma Cuts(text: Text, index: nat, end: nat)
    requires index < end < |text|
    ensures text[index..][1..end - index] == text[index + 1..end]
    ensures text[index..][end - index + 1..] == text[end + 1..]
  {
  }

  /** A token that starts right here, cut at its closing quote. */
  lemma TokenOfLiteral(start: Text, body: Option<nat>)
    requires start != [] && start[0] == QUOTE && body == TokenLength(start[1..])
    ensures body.Some? ==> body.value + 1 < |start|
    ensures ReadToken(start)
      == if body.None? then None else TokenOf(start[1..body.value + 1], start[body.value + 2..])
  {
    assert SkipSpaces(start) == start;
  }

  /** The same in terms of positions in the text. */
  lemma TokenAt(text: Text, index: nat, end: Option<nat>)
    requires index < |text| && text[index] == QUOTE
    requires end == Shifted(TokenLength(text[index + 1..]), index + 1)
    ensures end.Some? ==> index < end.value < |text|
    ensures end.None? ==> ReadToken(text[index..]) == None
    ensures end.Some? ==> ReadToken(text[index..]) == TokenOf(text[index + 1..end.value], text[end.value + 1..])
  {
    var start := text[index..];
    var n := TokenLength(text[index + 1..]);
    assert start[1..] == text[index + 1..];
    TokenOfLiteral(start, n);
    if n.Some? {
      assert n.value + 1 == end.value - index;
      Cuts(text, index, end.value);
    }
  }

  lemma RestAt(text: Text, index: nat)
    requires index <= |text|
    ensures text[index..] == [] <==> index == |text|
    ensures index < |text| ==> text[index..][0] == text[index] && text[index..][1..] == text[index + 1..]
  {
  }

  type Reader = (Text, map<Text, Text>) -> Option<Entries>

  /** `member` and `members` are the round and the loop; named, so that the loop is followed without looking in. */
  ghost predicate IsRound(member: Reader) {
    forall t, entries {:trigger ParseMember(t, entries)} :: member(t, entries) == ParseMember(t, entries)
  }

  ghost predicate IsLoop(members: Reader) {
    forall t, entries {:trigger ParseMembers(t, entries)} :: members(t, entries) == ParseMembers(t, entries)
  }

  /** A comma after a member: the loop goes on behind it. */
  lemma MembersGoOn(
      member: Reader, members: Reader, t: Text, entries: map<Text, Text>, read: map<Text, Text>, rest: Text)
    requires IsRound(member) && IsLoop(members)
    requires member(t, entries) == Some(Entries(read, rest)) && rest != [] && rest[0] == COMMA
    ensures members(t, entries) == members(rest[1..], read)
  {
    assert member(t, entries) == ParseMember(t, entries) && members(t, entries) == ParseMembers(t, entries);
    assert members(rest[1..], read) == ParseMembers(rest[1..], read);
  }

  lemma MembersEnd(member: Reader, members: Reader, t: Text, entries: map<Text, Text>)
    requires IsRound(member) && IsLoop(members)
    requires member(t, entries).Some? ==>
      var rest := member(t, entries).value.rest; rest == [] || rest[0] != COMMA
    ensures members(t, entries) == member(t, entries)
  {
    assert member(t, entries) == ParseMember(t, entries) && members(t, entries) == ParseMembers(t, entries);
  }

  /** The parser, its shared index and its helpers; every helper only moves the index forward. */
  class Parser {
    const text: Text
    var index: nat

    constructor (text: Text)
      ensures this.text == text && index == 0
    {
      this.text := text;
      index := 0;
    }

    ghost predicate Valid()
      reads this
    {
      index <= |text|
    }

    ghost function Rest(): Text
      reads this
      requires Valid()
    {
      text[index..]
    }

    method SkipWhitespace()
      requires Valid()
      modifies this
      ensures Valid() && old(index) <= index
      ensures Rest() == SkipSpaces(old(Rest()))
    {
      while index < |text| && Space(text[index])
        invariant old(index) <= index <= |text|
        invariant SkipSpaces(text[index..]) == SkipSpaces(old(Rest()))
      {
        assert text[index..][1..] == text[index + 1..];
        index := index + 1;
      }
    }

    method Expect(character: Unit) returns (ok: bool)
      requires Valid()
      modifies this
      ensures Valid()
      ensures ok <==> Expected(old(Rest()), character).Some?
      ensures ok ==> old(index) < index && Rest() == Expected(old(Rest()), character).value
    {
      SkipWhitespace();
      if index >= |text| || text[index] != character {
        return false;
      }
      assert text[index..][1..] == text[index + 1..];
      index := index + 1;
      return true;
    }

    /** The sticky match of the literal token, from its opening quote. */
    method MatchToken() returns (end: Option<nat>)
      requires Valid() && index < |text| && text[index] == QUOTE
      ensures end == Shifted(TokenLength(text[index + 1..]), index + 1)
    {
      var at := index + 1;
      ghost var whole := Shifted(TokenLength(text[at..]), at);
      while at < |text| && text[at] != QUOTE
        invariant index < at <= |text|
        invariant Shifted(TokenLength(text[at..]), at) == whole
      {
        var escaped := text[at] == BACKSLASH;
        if escaped && (at + 1 >= |text| || LineTerminator(text[at + 1])) {
          return None;
        }
        TokenStep(text, at);
        at := if escaped then at + 2 else at + 1;
      }
      return if at < |text| then Some(at) else None;
    }

    /** The literal that starts at the index. */
    method ReadLiteral() returns (value: Option<Text>)
      requires Valid() && index < |text| && text[index] == QUOTE
      modifies this
      ensures Valid()
      ensures ReadToken(old(Rest())).None? ==> value == None
      ensures ReadToken(old(Rest())).Some? ==>
        && value == Some(ReadToken(old(Rest())).value.value)
        && old(index) < index && Rest() == ReadToken(old(Rest())).value.rest
    {
      ghost var token := ReadToken(Rest());
      var end := MatchToken();
      TokenAt(text, index, end);
      if end.None? {
        return None;
      }
      value := Decode(text[index + 1..end.value]);
      assert token == if value.None? then None else Some(Token(value.value, text[end.value + 1..]));
      index := end.value + 1;
    }

    method ReadString() returns (value: Option<Text>)
      requires Valid()
      modifies this
      ensures Valid()
      ensures ReadToken(old(Rest())).None? ==> value == None
      ensures ReadToken(old(Rest())).Some? ==>
        && value == Some(ReadToken(old(Rest())).value.value)
        && old(index) < index && Rest() == ReadToken(old(Rest())).value.rest
    {
      TokenSkips(Rest());
      SkipWhitespace();
      if index >= |text| || text[index] != QUOTE {
        return None;
      }
      value := ReadLiteral();
    }

    /** One key, colon and value. */
    method ReadMember(entries: map<Text, Text>, ghost member: Reader) returns (ok: bool, extended: map<Text, Text>)
      requires Valid() && IsRound(member)
      modifies this
      ensures Valid()
      ensures ok <==> member(old(Rest()), entries).Some?
      ensures ok ==> old(index) < index && Entries(extended, Rest()) == member(old(Rest()), entries).value
    {
      assert member(Rest(), entries) == ParseMember(Rest(), entries);
      var key := ReadString();
      if key.None? { return false, map[]; }
      var colon := Expect(COLON);
      if !colon { return false, map[]; }
      var value := ReadString();
      if value.None? || key.value in entries { return false, map[]; }
      SkipWhitespace();
      return true, entries[key.value := value.value];
    }

    /** The member loop. */
    method ReadMembers(ghost member: Reader, ghost members: Reader) returns (ok: bool, entries: map<Text, Text>)
      requires Valid() && IsRound(member) && IsLoop(members)
      modifies this
      ensures Valid()
      ensures ok <==> members(old(Rest()), map[]).Some?
      ensures ok ==> Entries(entries, Rest()) == members(old(Rest()), map[]).value
    {
      entries := map[];
      while true
        invariant Valid()
        invariant members(Rest(), entries) == members(old(Rest()), map[])
        decreases |text| - index
      {
        ghost var t, before := Rest(), entries;
        ok, entries := ReadMember(entries, member);
        RestAt(text, index);
        if !ok || index >= |text| || text[index] != COMMA {
          MembersEnd(member, members, t, before);
          return;
        }
        MembersGoOn(member, members, t, before, entries, Rest());
        index := index + 1;
      }
    }

    method Parse() returns (result: Option<map<Text, Text>>)
      requires index == 0
      modifies this
      ensures result == ParseObject(text)
      ensures result.Some? ==> index == |text|
    {
      assert text[0..] == text;
      var entries: map<Text, Text> := map[];
      var open := Expect(LBRACE);
      if !open { return None; }
      SkipWhitespace();
      if index >= |text| || text[index] != RBRACE {
        var ok, found := ReadMembers(ParseMember, ParseMembers);
        if !ok { return None; }
        entries := found;
      }
      var close := Expect(RBRACE);
      if !close { return None; }
      SkipWhitespace();
      if index != |text| { return None; }
      return Some(entries);
    }
  }

  // ---------------------------------------------------------------------------
  // Every rendering is read back
  // ---------------------------------------------------------------------------

  lemma OrdinaryUnit(t: Text, at: nat)
    requires at < |t| && t[at] != QUOTE && t[at] != BACKSLASH
    ensures Shifted(TokenLength(t[at..]), at) == Shifted(TokenLength(t[at + 1..]), at + 1)
  {
    assert t[at..][1..] == t[at + 1..];
  }

  lemma FourOrdinaryUnits(t: Text)
    requires 6 <= |t| && forall i :: 2 <= i < 6 ==> t[i] != QUOTE && t[i] != BACKSLASH
    ensures Shifted(TokenLength(t[2..]), 2) == Shifted(TokenLength(t[6..]), 6)
  {
    OrdinaryUnit(t, 5);
    OrdinaryUnit(t, 4);
    OrdinaryUnit(t, 3);
    OrdinaryUnit(t, 2);
  }

  lemma EscapedUnit(t: Text, at: nat)
    requires at + 1 < |t| && t[at] == BACKSLASH && !LineTerminator(t[at + 1])
    ensures Shifted(TokenLength(t[at..]), at) == Shifted(TokenLength(t[at + 2..]), at + 2)
  {
    assert t[at..][2..] == t[at + 2..];
  }

  lemma OrdinaryBefore(body: Text, rest: Text)
    requires body != [] && body[0] != QUOTE && body[0] != BACKSLASH
    ensures Shifted(TokenLength(body + rest), 0) == Shifted(TokenLength(body[1..] + rest), 1)
  {
    var t := body + rest;
    assert t[0..] == t && t[1..] == body[1..] + rest;
    OrdinaryUnit(t, 0);
  }

  lemma LongUnit(t: Text)
    requires LongEscape(t)
    ensures Shifted(TokenLength(t), 0) == Shifted(TokenLength(t[6..]), 6)
  {
    assert t[0..] == t;
    FourOrdinaryUnits(t);
    EscapedUnit(t, 0);
  }

  lemma LongBefore(body: Text, rest: Text)
    requires LongEscape(body)
    ensures LongEscape(body + rest) && (body + rest)[6..] == body[6..] + rest
  {
  }

  lemma ShortUnit(body: Text, rest: Text)
    requires 2 <= |body| && body[0] == BACKSLASH && ShortEscape(body[1]).Some?
    requires TokenLength(body[2..] + ([QUOTE] + rest)) == Some(|body| - 2)
    ensures TokenLength(body + ([QUOTE] + rest)) == Some(|body|)
  {
    var t := body + ([QUOTE] + rest);
    assert t[2..] == body[2..] + ([QUOTE] + rest);
    assert t[0] == body[0] && t[1] == body[1];
    EscapedUnit(t, 0);
    assert t[0..] == t;
  }

  /** A well-formed literal is one the regular expression matches to its closing quote. */
  lemma {:induction false} TokenEndsAtQuote(body: Text, rest: Text)
    requires Decode(body).Some?
    ensures TokenLength(body + ([QUOTE] + rest)) == Some(|body|)
    decreases |body|
  {
    if body == [] {
      assert [] + ([QUOTE] + rest) == [QUOTE] + rest;
    } else if body[0] != BACKSLASH {
      TokenEndsAtQuote(body[1..], rest);
      OrdinaryBefore(body, [QUOTE] + rest);
    } else if ShortEscape(body[1]).Some? {
      TokenEndsAtQuote(body[2..], rest);
      ShortUnit(body, rest);
    } else {
      TokenEndsAtQuote(body[6..], rest);
      LongBefore(body, [QUOTE] + rest);
      LongUnit(body + ([QUOTE] + rest));
    }
  }

  lemma ReadsLiteral(ws: Text, body: Text, rest: Text)
    requires Spaces(ws) && Decode(body).Some?
    ensures ReadToken(ws + ([QUOTE] + (body + ([QUOTE] + rest)))) == Some(Token(Decode(body).value, rest))
  {
    var start := [QUOTE] + (body + ([QUOTE] + rest));
    SkipsExactly(ws, start);
    SliceLiteral(body, rest);
    TokenEndsAtQuote(body, rest);
  }

  lemma SliceLiteral(body: Text, rest: Text)
    ensures var start := [QUOTE] + (body + ([QUOTE] + rest));
      && start[1..] == body + ([QUOTE] + rest)
      && start[1..|body| + 1] == body && start[|body| + 2..] == rest
  {
  }

  lemma ReadsCharacter(ws: Text, character: Unit, rest: Text)
    requires Spaces(ws) && !Space(character)
    ensures Expected(ws + ([character] + rest), character) == Some(rest)
  {
    SkipsExactly(ws, [character] + rest);
    assert ([character] + rest)[1..] == rest;
  }

  /** A flat object: every member's value is a string. */
  predicate AllStrings(ms: Members) {
    ms.NoMembers? || (ms.v.Str? && Decode(ms.v.body).Some? && AllStrings(ms.rest))
  }

  /** The map a flat object denotes. */
  function MapOf(ms: Members): map<Text, Text>
    requires WellFormedMembers(ms) && AllStrings(ms)
  {
    if ms.NoMembers? then map[]
    else map[Decode(ms.name).value := Decode(ms.v.body).value] + MapOf(ms.rest)
  }

  /** Text between a member's value and whatever follows the member list. */
  function Tail(ms: Members, post: Text): Text
    requires ms.Member?
  {
    if ms.rest.NoMembers? then post else [COMMA] + (MembersText(ms.rest) + post)
  }

  lemma MemberShape(ms: Members, post: Text)
    requires ms.Member? && ms.v.Str?
    ensures MembersText(ms) + post
         == ms.before + ([QUOTE] + (ms.name + ([QUOTE] + (ms.mid + ([COLON] + (ms.gap + ([QUOTE] + (ms.v.body
             + ([QUOTE] + (ms.after + Tail(ms, post)))))))))))
  {
    var value := TextOf(ms.v);
    var t := Tail(ms, post);
    var p4 := ms.before + [QUOTE] + ms.name + [QUOTE];
    var p7 := p4 + ms.mid + [COLON] + ms.gap;
    var end := if ms.rest.NoMembers? then [] else [COMMA] + MembersText(ms.rest);
    assert end + post == t;
    assert MembersText(ms) == p7 + value + ms.after + end;
    FourParts(p7, value, ms.after, end, post);
    FourParts(p4, ms.mid, [COLON], ms.gap, value + (ms.after + t));
    FourParts(ms.before, [QUOTE], ms.name, [QUOTE], ms.mid + ([COLON] + (ms.gap + (value + (ms.after + t)))));
    Enclosed(ms.v.body, ms.after + t);
  }

  lemma FourParts(a: Text, b: Text, c: Text, d: Text, rest: Text)
    ensures (a + b + c + d) + rest == a + (b + (c + (d + rest)))
  {
  }

  lemma Enclosed(body: Text, rest: Text)
    ensures ([QUOTE] + body + [QUOTE]) + rest == [QUOTE] + (body + ([QUOTE] + rest))
  {
  }

  /** One written member is read as its decoded pair, unless its name was read before. */
  lemma ReadsMember(ms: Members, post: Text, entries: map<Text, Text>)
    requires WellFormedMembers(ms) && AllStrings(ms) && ms.Member?
    ensures var name, value := Decode(ms.name).value, Decode(ms.v.body).value;
      ParseMember(MembersText(ms) + post, entries)
      == if name in entries then None
         else Some(Entries(entries[name := value], SkipSpaces(Tail(ms, post))))
  {
    var tail := ms.after + Tail(ms, post);
    var valued := ms.gap + ([QUOTE] + (ms.v.body + ([QUOTE] + tail)));
    MemberShape(ms, post);
    ReadsLiteral(ms.before, ms.name, ms.mid + ([COLON] + valued));
    ReadsCharacter(ms.mid, COLON, valued);
    ReadsLiteral(ms.gap, ms.v.body, tail);
    SkipsExactly(ms.after, Tail(ms, post));
  }

  predicate Fresh(names: seq<Text>, entries: map<Text, Text>) {
    forall i :: 0 <= i < |names| ==> names[i] !in entries
  }

  lemma FreshCons(name: Text, value: Text, rest: seq<Text>, entries: map<Text, Text>)
    ensures (!Repeats([name] + rest) && Fresh([name] + rest, entries))
      <==> (name !in entries && !Repeats(rest) && Fresh(rest, entries[name := value]))
  {
    var names := [name] + rest;
    assert forall i :: 0 <= i < |rest| ==> names[i + 1] == rest[i];
    if !Repeats(names) && Fresh(names, entries) {
      assert names[0] == name;
      forall i, j | 0 <= i < j < |rest|
        ensures rest[i] != rest[j]
      {
        assert names[i + 1] != names[j + 1];
      }
      forall i | 0 <= i < |rest|
        ensures rest[i] !in entries[name := value]
      {
        assert names[0] != names[i + 1];
      }
    }
    if name !in entries && !Repeats(rest) && Fresh(rest, entries[name := value]) {
      forall i, j | 0 <= i < j < |names|
        ensures names[i] != names[j]
      {
        assert names[j] == rest[j - 1];
        if i > 0 {
          assert names[i] == rest[i - 1];
        }
      }
      forall i | 0 <= i < |names|
        ensures names[i] !in entries
      {
        if i > 0 {
          assert names[i] == rest[i - 1];
        }
      }
    }
  }

  /** One turn of the member loop over a written list. */
  lemma MembersStep(ms: Members, post: Text, entries: map<Text, Text>)
    requires WellFormedMembers(ms) && AllStrings(ms) && ms.Member?
    requires post != [] && post[0] == RBRACE
    ensures var name, value := Decode(ms.name).value, Decode(ms.v.body).value;
      ParseMembers(MembersText(ms) + post, entries)
      == if name in entries then None
         else if ms.rest.Member? then ParseMembers(MembersText(ms.rest) + post, entries[name := value])
         else Some(Entries(entries[name := value], post))
  {
    ReadsMember(ms, post, entries);
    if ms.rest.Member? {
      assert Tail(ms, post)[1..] == MembersText(ms.rest) + post;
    }
  }

  /** Every name is new when its turn comes. */
  predicate AllNew(ms: Members, entries: map<Text, Text>)
    requires WellFormedMembers(ms) && AllStrings(ms)
  {
    || ms.NoMembers?
    || (&& Decode(ms.name).value !in entries
        && AllNew(ms.rest, entries[Decode(ms.name).value := Decode(ms.v.body).value]))
  }

  lemma {:induction false} AllNewMeansDistinct(ms: Members, entries: map<Text, Text>)
    requires WellFormedMembers(ms) && AllStrings(ms)
    ensures AllNew(ms, entries) <==> !Repeats(Names(ms)) && Fresh(Names(ms), entries)
  {
    if ms.Member? {
      var name, value := Decode(ms.name).value, Decode(ms.v.body).value;
      AllNewMeansDistinct(ms.rest, entries[name := value]);
      FreshCons(name, value, Names(ms.rest), entries);
    }
  }

  lemma {:induction false} ReadsMembers(ms: Members, post: Text, entries: map<Text, Text>)
    requires WellFormedMembers(ms) && AllStrings(ms) && ms.Member?
    requires post != [] && post[0] == RBRACE
    ensures ParseMembers(MembersText(ms) + post, entries)
         == if AllNew(ms, entries) then Some(Entries(entries + MapOf(ms), post)) else None
    decreases ms
  {
    MembersStep(ms, post, entries);
    MapGrows(ms, entries);
    if ms.rest.Member? {
      ReadsMembers(ms.rest, post, entries[Decode(ms.name).value := Decode(ms.v.body).value]);
    } else {
      var added := entries[Decode(ms.name).value := Decode(ms.v.body).value];
      assert added + MapOf(ms.rest) == added;
      assert AllNew(ms.rest, added);
    }
  }

  lemma MapGrows(ms: Members, entries: map<Text, Text>)
    requires WellFormedMembers(ms) && AllStrings(ms) && ms.Member?
    ensures entries[Decode(ms.name).value := Decode(ms.v.body).value] + MapOf(ms.rest) == entries + MapOf(ms)
  {
  }

  /**
   * Every way of writing a flat object of strings, whatever its white space and escapes, is read
   * as the map it denotes when its decoded names are distinct, and refused when they are not.
   */
  lemma RenderingsAreRead(before: Text, blank: Text, ms: Members, after: Text)
    requires Spaces(before) && WellFormed(Obj(blank, ms)) && AllStrings(ms) && Spaces(after)
    ensures ParseObject(before + (TextOf(Obj(blank, ms)) + after))
         == if Repeats(Names(ms)) then None else Some(MapOf(ms))
  {
    var inside := if ms.NoMembers? then blank else MembersText(ms);
    var close := [RBRACE] + after;
    assert TextOf(Obj(blank, ms)) + after == [LBRACE] + (inside + close);
    ReadsCharacter(before, LBRACE, inside + close);
    if ms.NoMembers? {
      SkipsExactly(blank, close);
      ClosingRead(map[], after);
    } else {
      MembersStart(ms, close);
      ReadsMembers(ms, close, map[]);
      AllNewMeansDistinct(ms, map[]);
      ClosingRead(MapOf(ms), after);
      assert map[] + MapOf(ms) == MapOf(ms);
    }
  }

  lemma ClosingRead(read: map<Text, Text>, after: Text)
    requires Spaces(after)
    ensures ParseEnd(Entries(read, [RBRACE] + after)) == Some(read)
  {
    ReadsCharacter([], RBRACE, after);
    assert [] + ([RBRACE] + after) == [RBRACE] + after;
    assert after + [] == after;
    SkipsExactly(after, []);
  }

  /** A member list does not open with a closing brace, and skipping its white space loses nothing. */
  lemma MembersStart(ms: Members, close: Text)
    requires WellFormedMembers(ms) && AllStrings(ms) && ms.Member?
    ensures var inside := SkipSpaces(MembersText(ms) + close);
      && inside != [] && inside[0] == QUOTE
      && forall entries :: ParseMembers(inside, entries) == ParseMembers(MembersText(ms) + close, entries)
  {
    var t := MembersText(ms) + close;
    MemberShape(ms, close);
    var named := [QUOTE] + (ms.name + ([QUOTE] + (ms.mid + ([COLON] + (ms.gap + ([QUOTE] + (ms.v.body + ([QUOTE]
        + (ms.after + Tail(ms, close))))))))));
    assert t == ms.before + named;
    SkipsExactly(ms.before, named);
    TokenSkips(t);
  }

  // ---------------------------------------------------------------------------
  // Only renderings are read
  // ---------------------------------------------------------------------------

  function Leading(t: Text): Text {
    t[..|t| - |SkipSpaces(t)|]
  }

  lemma {:induction false} LeadingIsSpace(t: Text)
    ensures Spaces(Leading(t)) && t == Leading(t) + SkipSpaces(t)
  {
    if t != [] && Space(t[0]) {
      LeadingIsSpace(t[1..]);
      assert Leading(t) == [t[0]] + Leading(t[1..]);
    }
  }

  lemma ExpectedSound(t: Text, character: Unit)
    requires Expected(t, character).Some?
    ensures Spaces(Leading(t)) && t == Leading(t) + ([character] + Expected(t, character).value)
  {
    LeadingIsSpace(t);
    var start := SkipSpaces(t);
    assert start == [character] + start[1..];
  }

  lemma TokenSound(t: Text) returns (body: Text)
    requires ReadToken(t).Some?
    ensures Decode(body) == Some(ReadToken(t).value.value)
    ensures Spaces(Leading(t)) && t == Leading(t) + ([QUOTE] + (body + ([QUOTE] + ReadToken(t).value.rest)))
  {
    LeadingIsSpace(t);
    var start := SkipSpaces(t);
    var n := TokenLength(start[1..]).value;
    body := start[1..n + 1];
    CutLiteral(start, n);
  }

  lemma CutLiteral(start: Text, n: nat)
    requires n + 1 < |start| && start[0] == QUOTE && start[n + 1] == QUOTE
    ensures start == [QUOTE] + (start[1..n + 1] + ([QUOTE] + start[n + 2..]))
  {
  }

  /** A member the parser reads is written as the grammar says, whatever list goes on after it. */
  lemma MemberSound(t: Text, entries: map<Text, Text>) returns (one: Members)
    requires ParseMember(t, entries).Some?
    ensures one.Member? && one.rest.NoMembers? && WellFormedMembers(one) && AllStrings(one)
    ensures Decode(one.name).value !in entries
    ensures ParseMember(t, entries).value.read == entries[Decode(one.name).value := Decode(one.v.body).value]
    ensures t == MembersText(one) + ParseMember(t, entries).value.rest
  {
    var key := ReadToken(t).value;
    var name := TokenSound(t);
    ExpectedSound(key.rest, COLON);
    var valued := Expected(key.rest, COLON).value;
    var body := TokenSound(valued);
    var rest := ReadToken(valued).value.rest;
    LeadingIsSpace(rest);
    one := Member(Leading(t), name, Leading(key.rest), Leading(valued), Str(body), Leading(rest), NoMembers);
    assert WellFormed(one.v) && WellFormedMembers(NoMembers);
    assert WellFormedMembers(one);
    MemberShape(one, SkipSpaces(rest));
  }

  /** Putting a member in front of a list that a comma separates it from. */
  lemma MemberBefore(one: Members, more: Members, post: Text)
    requires one.Member? && one.rest.NoMembers? && one.v.Str? && more.Member?
    ensures MembersText(one) + ([COMMA] + (MembersText(more) + post)) == MembersText(one.(rest := more)) + post
  {
    MemberShape(one, [COMMA] + (MembersText(more) + post));
    MemberShape(one.(rest := more), post);
  }

  lemma PutBefore(one: Members, more: Members, entries: map<Text, Text>, post: Text) returns (ms: Members)
    requires one.Member? && one.rest.NoMembers? && WellFormedMembers(one) && AllStrings(one)
    requires Decode(one.name).value !in entries
    requires more.Member? && WellFormedMembers(more) && AllStrings(more)
    requires AllNew(more, entries[Decode(one.name).value := Decode(one.v.body).value])
    ensures ms.Member? && WellFormedMembers(ms) && AllStrings(ms) && AllNew(ms, entries)
    ensures entries + MapOf(ms) == entries[Decode(one.name).value := Decode(one.v.body).value] + MapOf(more)
    ensures MembersText(one) + ([COMMA] + (MembersText(more) + post)) == MembersText(ms) + post
  {
    ms := one.(rest := more);
    MemberBefore(one, more, post);
    MapGrows(ms, entries);
  }

  lemma {:induction false} MembersSound(t: Text, entries: map<Text, Text>) returns (ms: Members)
    requires ParseMembers(t, entries).Some?
    ensures ms.Member? && WellFormedMembers(ms) && AllStrings(ms) && AllNew(ms, entries)
    ensures ParseMembers(t, entries).value.read == entries + MapOf(ms)
    ensures t == MembersText(ms) + ParseMembers(t, entries).value.rest
    decreases |t|
  {
    var parsed := ParseMember(t, entries).value;
    var one := MemberSound(t, entries);
    if parsed.rest != [] && parsed.rest[0] == COMMA {
      var more := MembersSound(parsed.rest[1..], parsed.read);
      var post := ParseMembers(t, entries).value.rest;
      CommaBefore(parsed.rest, MembersText(more) + post);
      ms := PutBefore(one, more, entries, post);
    } else {
      ms := one;
      MapOfOne(one, entries);
    }
  }

  lemma CommaBefore(t: Text, rest: Text)
    requires t != [] && t[0] == COMMA && t[1..] == rest
    ensures t == [COMMA] + rest
  {
  }

  lemma MapOfOne(one: Members, entries: map<Text, Text>)
    requires one.Member? && one.rest.NoMembers? && WellFormedMembers(one) && AllStrings(one)
    ensures entries + MapOf(one) == entries[Decode(one.name).value := Decode(one.v.body).value]
  {
    assert MapOf(one.rest) == map[];
    MapGrows(one, entries);
  }

  /** White space in front of a list belongs to its first member. */
  lemma BlankBefore(blank: Text, ms: Members, post: Text)
    requires Spaces(blank) && ms.Member? && WellFormedMembers(ms) && AllStrings(ms)
    ensures var moved := ms.(before := blank + ms.before);
      && WellFormedMembers(moved) && AllStrings(moved)
      && Names(moved) == Names(ms) && MapOf(moved) == MapOf(ms)
      && blank + (MembersText(ms) + post) == MembersText(moved) + post
  {
    MemberShape(ms, post);
    MemberShape(ms.(before := blank + ms.before), post);
  }

  lemma {:induction false} MembersEndSkipped(t: Text, entries: map<Text, Text>)
    requires ParseMembers(t, entries).Some?
    ensures var rest := ParseMembers(t, entries).value.rest; SkipSpaces(rest) == rest
    decreases |t|
  {
    var parsed := ParseMember(t, entries).value;
    SkippedStaysSkipped(ReadToken(Expected(ReadToken(t).value.rest, COLON).value).value.rest);
    if parsed.rest != [] && parsed.rest[0] == COMMA {
      MembersEndSkipped(parsed.rest[1..], parsed.read);
    }
  }

  /** The accepted text, taken apart. */
  lemma Dissect(t: Text) returns (before: Text, blank: Text, ms: Members, after: Text)
    requires ParseObject(t).Some?
    ensures Spaces(before) && WellFormed(Obj(blank, ms)) && AllStrings(ms) && Spaces(after)
    ensures t == before + (TextOf(Obj(blank, ms)) + after)
  {
    ExpectedSound(t, LBRACE);
    before := Leading(t);
    var open := Expected(t, LBRACE).value;
    LeadingIsSpace(open);
    blank := Leading(open);
    var inside := SkipSpaces(open);
    SkippedStaysSkipped(open);
    ms := NoMembers;
    var close := inside;
    if !(inside != [] && inside[0] == RBRACE) {
      var list := MembersSound(inside, map[]);
      close := ParseMembers(inside, map[]).value.rest;
      MembersEndSkipped(inside, map[]);
      BlankBefore(blank, list, close);
      ms := list.(before := blank + list.before);
    }
    ExpectedSound(close, RBRACE);
    after := Expected(close, RBRACE).value;
    LeadingIsSpace(after);
    assert close == [RBRACE] + after;
    Braces(ms, blank, open, after);
  }

  lemma Braces(ms: Members, blank: Text, open: Text, after: Text)
    requires open == (if ms.NoMembers? then blank else MembersText(ms)) + ([RBRACE] + after)
    ensures [LBRACE] + open == TextOf(Obj(blank, ms)) + after
  {
  }

  /** `t` writes, with white space around it allowed, a flat object with distinct names that denotes `m`. */
  ghost predicate Writes(t: Text, m: map<Text, Text>) {
    exists before, blank, ms, after ::
      && Spaces(before) && WellFormed(Obj(blank, ms)) && AllStrings(ms) && Spaces(after)
      && t == before + (TextOf(Obj(blank, ms)) + after)
      && !Repeats(Names(ms)) && MapOf(ms) == m
  }

  /**
   * The parser accepts exactly the texts that write a flat object of strings with distinct decoded
   * names, and reads such a text as the map it denotes.
   */
  lemma AcceptsExactlyFlatObjects(t: Text, m: map<Text, Text>)
    ensures ParseObject(t) == Some(m) <==> Writes(t, m)
  {
    if ParseObject(t) == Some(m) {
      var before, blank, ms, after := Dissect(t);
      RenderingsAreRead(before, blank, ms, after);
    }
    if Writes(t, m) {
      var before, blank, ms, after :|
        && Spaces(before) && WellFormed(Obj(blank, ms)) && AllStrings(ms) && Spaces(after)
        && t == before + (TextOf(Obj(blank, ms)) + after)
        && !Repeats(Names(ms)) && MapOf(ms) == m;
      RenderingsAreRead(before, blank, ms, after);
    }
  }
}
