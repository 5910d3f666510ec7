/**
 * What a JSON string literal stands for, from the tables of section 7 of RFC 8259: a sequence of plain
 * characters, two-character escapes and `\u` escapes, their digits in either case. The decoder the scanner,
 * the parser and the signing checks share accepts exactly these and gives exactly their meaning.
 */
module JsonLiterals {
  import opened Wrappers
  import opened JsonText

  /** A hexadecimal digit as written: its value, and whether it is written in upper case. */
  datatype Digit = Digit(value: nat, upper: bool)

  datatype Piece = Character(u: Unit) | TwoCharacter(row: nat) | Escaped(a: Digit, b: Digit, c: Digit, d: Digit)

  const LOWER_DIGITS := "0123456789abcdef"
  const UPPER_DIGITS := "0123456789ABCDEF"

  /** The characters that may follow a reverse solidus, and the code point each then stands for. */
  const ESCAPE_LETTERS := "\"\\/bfnrt"
  const ESCAPE_MEANINGS: seq<Unit> := [0x22, 0x5C, 0x2F, 0x08, 0x0C, 0x0A, 0x0D, 0x09]

  predicate ValidDigit(d: Digit) {
    d.value < 16
  }

  /** Any character may stand for itself but the quotation mark, the reverse solidus and the control characters. */
  predicate ValidPiece(p: Piece) {
    match p
    case Character(u) => 0x20 <= u && u != 0x22 && u != 0x5C
    case TwoCharacter(row) => row < 8
    case Escaped(a, b, c, d) => ValidDigit(a) && ValidDigit(b) && ValidDigit(c) && ValidDigit(d)
  }

  predicate Valid(ps: seq<Piece>) {
    forall i :: 0 <= i < |ps| ==> ValidPiece(ps[i])
  }

  function DigitUnit(d: Digit): Unit
    requires ValidDigit(d)
  {
    DigitIsUnit(d);
    (if d.upper then UPPER_DIGITS[d.value] else LOWER_DIGITS[d.value]) as int
  }

  lemma DigitIsUnit(d: Digit)
    requires ValidDigit(d)
    ensures (if d.upper then UPPER_DIGITS[d.value] else LOWER_DIGITS[d.value]) as int < 0x1_0000
  {
    var l, u := LOWER_DIGITS, UPPER_DIGITS;
    if d.value < 10 {
      assert l[d.value] as int == 0x30 + d.value && u[d.value] as int == 0x30 + d.value;
    } else {
      assert l[d.value] as int == 0x57 + d.value && u[d.value] as int == 0x37 + d.value;
    }
  }

  lemma LettersAreUnits()
    ensures |ESCAPE_LETTERS| == 8 && forall row :: 0 <= row < 8 ==> ESCAPE_LETTERS[row] as int < 0x1_0000
  {
    var s := ESCAPE_LETTERS;
    assert s[0] == '\"' && s[1] == '\\' && s[2] == '/' && s[3] == 'b' && s[4] == 'f' && s[5] == 'n' && s[6] == 'r'
           && s[7] == 't';
  }

  function Spelled(p: Piece): Text
    requires ValidPiece(p)
  {
    match p
    case Character(u) => [u]
    case TwoCharacter(row) => LettersAreUnits(); [0x5C, ESCAPE_LETTERS[row] as int]
    case Escaped(a, b, c, d) => [0x5C, 0x75, DigitUnit(a), DigitUnit(b), DigitUnit(c), DigitUnit(d)]
  }

  function Meant(p: Piece): Unit
    requires ValidPiece(p)
  {
    match p
    case Character(u) => u
    case TwoCharacter(row) => ESCAPE_MEANINGS[row]
    case Escaped(a, b, c, d) => 0x1000 * a.value + 0x100 * b.value + 0x10 * c.value + d.value
  }

  function Spelling(ps: seq<Piece>): Text
    requires Valid(ps)
  {
    if ps == [] then [] else Spelled(ps[0]) + Spelling(ps[1..])
  }

  function Meaning(ps: seq<Piece>): Text
    requires Valid(ps)
  {
    if ps == [] then [] else [Meant(ps[0])] + Meaning(ps[1..])
  }

  // ---------------------------------------------------------------------------
  // Decoding
  // ---------------------------------------------------------------------------

  /** Every digit, in either case, is read as its value. */
  lemma DigitReads(d: Digit)
    requires ValidDigit(d)
    ensures Hex(DigitUnit(d)) && HexValue(DigitUnit(d)) == d.value
  {
    var l, u := LOWER_DIGITS, UPPER_DIGITS;
    if d.value < 10 {
      assert l[d.value] as int == 0x30 + d.value && u[d.value] as int == 0x30 + d.value;
    } else {
      assert l[d.value] as int == 0x57 + d.value && u[d.value] as int == 0x37 + d.value;
    }
  }

  lemma TwoCharacterReads(row: nat)
    requires row < 8
    ensures ESCAPE_LETTERS[row] as int < 0x1_0000
    ensures ShortEscape(ESCAPE_LETTERS[row] as int) == Some(ESCAPE_MEANINGS[row])
  {
    LettersAreUnits();
    var s, m := ESCAPE_LETTERS, ESCAPE_MEANINGS;
    assert s[0] == '\"' && s[1] == '\\' && s[2] == '/' && s[3] == 'b' && s[4] == 'f' && s[5] == 'n' && s[6] == 'r'
           && s[7] == 't';
    assert m[0] == 34 && m[1] == 92 && m[2] == 47 && m[3] == 8 && m[4] == 12 && m[5] == 10 && m[6] == 13 && m[7] == 9;
  }

  /** One piece in front of a body adds its meaning in front of the body's. */
  lemma PieceReads(p: Piece, rest: Text)
    requires ValidPiece(p)
    ensures Decode(Spelled(p) + rest) == Prepend(Meant(p), Decode(rest))
  {
    var t := Spelled(p) + rest;
    match p
    case Character(_) => assert t[1..] == rest;
    case TwoCharacter(row) =>
      TwoCharacterReads(row);
      assert t[0] == 0x5C && t[1] == ESCAPE_LETTERS[row] as int && t[2..] == rest;
    case Escaped(a, b, c, d) =>
      DigitReads(a);
      DigitReads(b);
      DigitReads(c);
      DigitReads(d);
      EscapeReads(t, rest, DigitUnit(a), DigitUnit(b), DigitUnit(c), DigitUnit(d));
  }

  lemma EscapeReads(t: Text, rest: Text, a: Unit, b: Unit, c: Unit, d: Unit)
    requires t == [0x5C, 0x75, a, b, c, d] + rest && Hex(a) && Hex(b) && Hex(c) && Hex(d)
    ensures Decode(t)
      == Prepend(((HexValue(a) * 16 + HexValue(b)) * 16 + HexValue(c)) * 16 + HexValue(d), Decode(rest))
  {
    assert t[0] == 0x5C && t[1] == 0x75 && t[2] == a && t[3] == b && t[4] == c && t[5] == d && t[6..] == rest;
  }

  /** Every literal of the grammar decodes to its meaning. */
  lemma {:induction false} SpellingDecodes(ps: seq<Piece>)
    requires Valid(ps)
    ensures Decode(Spelling(ps)) == Some(Meaning(ps))
  {
    if ps != [] {
      SpellingDecodes(ps[1..]);
      PieceReads(ps[0], Spelling(ps[1..]));
    }
  }

  lemma DigitOf(u: Unit) returns (d: Digit)
    requires Hex(u)
    ensures ValidDigit(d) && DigitUnit(d) == u
  {
    d := Digit(HexValue(u), 65 <= u <= 70);
    var l, w := LOWER_DIGITS, UPPER_DIGITS;
    if u <= 57 {
      assert l[u - 48] as int == u;
    } else if u <= 70 {
      assert w[u - 55] as int == u;
    } else {
      assert l[u - 87] as int == u;
    }
  }

  lemma RowOf(u: Unit) returns (row: nat)
    requires ShortEscape(u).Some?
    ensures row < 8 && Spelled(TwoCharacter(row)) == [0x5C, u]
  {
    var s := ESCAPE_LETTERS;
    assert s[0] == '\"' && s[1] == '\\' && s[2] == '/' && s[3] == 'b' && s[4] == 'f' && s[5] == 'n' && s[6] == 'r'
           && s[7] == 't';
    row := if u == 34 then 0 else if u == 92 then 1 else if u == 47 then 2 else if u == 98 then 3
           else if u == 102 then 4 else if u == 110 then 5 else if u == 114 then 6 else 7;
  }

  /** The piece a decodable body begins with. */
  lemma FirstPiece(body: Text) returns (p: Piece, rest: Text)
    requires body != [] && Decode(body).Some?
    ensures ValidPiece(p) && body == Spelled(p) + rest && |rest| < |body| && Decode(rest).Some?
  {
    if body[0] != BACKSLASH {
      p, rest := Character(body[0]), body[1..];
    } else if ShortEscape(body[1]).Some? {
      var row := RowOf(body[1]);
      p, rest := TwoCharacter(row), body[2..];
    } else {
      var a := DigitOf(body[2]);
      var b := DigitOf(body[3]);
      var c := DigitOf(body[4]);
      var d := DigitOf(body[5]);
      p, rest := Escaped(a, b, c, d), body[6..];
      assert body == [body[0], body[1], body[2], body[3], body[4], body[5]] + body[6..];
    }
  }

  /** And only those decode: a body that decodes is spelled by pieces whose meaning it decodes to. */
  lemma {:induction false} DecodedIsSpelling(body: Text) returns (ps: seq<Piece>)
    requires Decode(body).Some?
    ensures Valid(ps) && Spelling(ps) == body && Decode(body) == Some(Meaning(ps))
    decreases |body|
  {
    ps := [];
    if body != [] {
      var p, rest := FirstPiece(body);
      var more := DecodedIsSpelling(rest);
      ps := [p] + more;
      assert ps[1..] == more;
    }
    SpellingDecodes(ps);
  }

  /** Every code unit, its four digits each in the case one likes, is written by an escape that decodes to it. */
  lemma EveryUnitHasEscapes(u: Unit, a: bool, b: bool, c: bool, d: bool)
    ensures var p := Escaped(Digit(u / 0x1000, a), Digit(u / 0x100 % 0x10, b), Digit(u / 0x10 % 0x10, c),
                             Digit(u % 0x10, d));
      ValidPiece(p) && Decode(Spelled(p)) == Some([u])
  {
    var p := Escaped(Digit(u / 0x1000, a), Digit(u / 0x100 % 0x10, b), Digit(u / 0x10 % 0x10, c), Digit(u % 0x10, d));
    PieceReads(p, []);
    assert Spelled(p) + [] == Spelled(p);
    assert Decode([]) == Some([]) && [u] + [] == [u];
    assert u / 0x1000 == u / 0x100 / 0x10 && u / 0x100 == u / 0x10 / 0x10;
    assert Meant(p) == u;
  }

  /** The same name, with its e acute written out and escaped in upper case. */
  lemma EAcute()
    ensures Decode([0xE9]) == Some([0xE9])
    ensures Decode([0x5C, 0x75, 0x30, 0x30, 0x45, 0x39]) == Some([0xE9])
  {
    var body: Text := [0x5C, 0x75, 0x30, 0x30, 0x45, 0x39];
    EscapeReads(body + [], [], 0x30, 0x30, 0x45, 0x39);
    var plain: Text := [0xE9];
    assert body + [] == body && plain[1..] == [] && plain + [] == plain && Decode([]) == Some([]);
  }

  /** White space is the four characters of section 2. */
  lemma SpacesAre(u: Unit)
    ensures Space(u) <==> u in {0x20, 0x09, 0x0A, 0x0D}
  {
  }

  /** The characters of numbers and of the three literal names (sections 3 and 6). */
  const ATOM_CHARACTERS := "+-.0123456789Eaeflnrstu"

  lemma AtomCharacters(u: Unit)
    requires exists c :: c in ATOM_CHARACTERS && u == c as int
    ensures Plain(u)
  {
    var s := ATOM_CHARACTERS;
    var c :| c in s && u == c as int;
    assert c > ' ' && c != '{' && c != '}' && c != '[' && c != ']' && c != ':' && c != ',' && c != '\"';
  }

  /** Whatever is written in them is a value of the grammar the scanner and the parser are read against. */
  lemma AtomsAreValues(raw: Text)
    requires raw != [] && forall i :: 0 <= i < |raw| ==> exists c :: c in ATOM_CHARACTERS && raw[i] == c as int
    ensures WellFormed(Atom(raw))
  {
    forall i | 0 <= i < |raw|
      ensures Plain(raw[i])
    {
      AtomCharacters(raw[i]);
    }
  }
}
