/**
 * The check of what may be signed, place by place: it accepts a value exactly when everything that occurs in
 * it is of an accepted sort and no more than sixteen levels down; and the text that is signed, character by
 * character (backoffice/src/server/signing.ts).
 */
module PayloadFields {
  import opened Wrappers
  import opened CanonicalJson
  import opened JsonText
  import opened JsonLiterals

  /** `w` is `v`, or an element or visible member of it, `depth` levels down. */
  predicate Occurs(v: Js, w: Js, depth: nat)
    decreases v
  {
    || (depth == 0 && w == v)
    || (0 < depth
        && match v
           case Arr(_, slots, _) => OccursInSlots(slots, w, depth - 1)
           case Obj(_, _, props) => OccursInProps(props, w, depth - 1)
           case _ => false)
  }

  predicate OccursInSlots(ss: Slots, w: Js, depth: nat)
    decreases ss
  {
    && ss.Slot?
    && ((ss.kind.Item? && Occurs(ss.kind.v, w, depth)) || (ss.kind.Getter? && Occurs(ss.kind.checked, w, depth))
        || OccursInSlots(ss.rest, w, depth))
  }

  predicate OccursInProps(ps: Props, w: Js, depth: nat)
    decreases ps
  {
    && ps.Prop?
    && ((ps.enumerable && ps.kind.Data? && Occurs(ps.kind.v, w, depth)) || OccursInProps(ps.rest, w, depth))
  }

  predicate HasHole(ss: Slots) {
    ss.Slot? && (ss.kind.Hole? || HasHole(ss.rest))
  }

  predicate HasVisibleAccessor(ps: Props) {
    ps.Prop? && ((ps.enumerable && ps.kind.Accessor?) || HasVisibleAccessor(ps.rest))
  }

  /** A value by itself: no undefined, function, symbol or big integer, no odd number, array or object. */
  predicate Fine(w: Js) {
    match w
    case Other => false
    case Num(n) => n.Finite?
    case Arr(plain, slots, _) => plain && !HasHole(slots)
    case Obj(proto, symbols, props) =>
      (proto == ObjectProto || proto == NullProto) && symbols == 0 && !HasVisibleAccessor(props)
    case _ => true
  }

  /** Everything in `v`, itself `from` levels down, is fine and not below the sixteenth level. */
  ghost predicate AllFine(v: Js, from: nat) {
    forall w, depth: nat :: Occurs(v, w, depth) ==> from + depth <= 16 && Fine(w)
  }

  ghost predicate SlotsFine(ss: Slots, from: nat) {
    forall w, depth: nat :: OccursInSlots(ss, w, depth) ==> from + depth <= 16 && Fine(w)
  }

  ghost predicate PropsFine(ps: Props, from: nat) {
    forall w, depth: nat :: OccursInProps(ps, w, depth) ==> from + depth <= 16 && Fine(w)
  }

  /** A value is fine throughout when it is itself and its elements or members are, one level further down. */
  lemma FineThroughout(v: Js, from: nat)
    ensures AllFine(v, from)
      <==> && from <= 16 && Fine(v)
           && (v.Arr? ==> SlotsFine(v.slots, from + 1)) && (v.Obj? ==> PropsFine(v.props, from + 1))
  {
    if AllFine(v, from) {
      assert Occurs(v, v, 0);
      forall w, depth: nat | v.Arr? && OccursInSlots(v.slots, w, depth)
        ensures from + 1 + depth <= 16 && Fine(w)
      {
        assert Occurs(v, w, depth + 1);
      }
      forall w, depth: nat | v.Obj? && OccursInProps(v.props, w, depth)
        ensures from + 1 + depth <= 16 && Fine(w)
      {
        assert Occurs(v, w, depth + 1);
      }
    } else {
      var w, depth: nat :| Occurs(v, w, depth) && !(from + depth <= 16 && Fine(w));
      assert 0 < depth && v.Arr? ==> OccursInSlots(v.slots, w, depth - 1);
      assert 0 < depth && v.Obj? ==> OccursInProps(v.props, w, depth - 1);
    }
  }

  lemma SlotsFineCons(ss: Slots, from: nat)
    requires ss.Slot?
    ensures SlotsFine(ss, from)
      <==> && (ss.kind.Item? ==> AllFine(ss.kind.v, from)) && (ss.kind.Getter? ==> AllFine(ss.kind.checked, from))
           && SlotsFine(ss.rest, from)
  {
    if SlotsFine(ss, from) {
      forall w, depth: nat | ss.kind.Item? && Occurs(ss.kind.v, w, depth)
        ensures from + depth <= 16 && Fine(w)
      {
        assert OccursInSlots(ss, w, depth);
      }
      forall w, depth: nat | ss.kind.Getter? && Occurs(ss.kind.checked, w, depth)
        ensures from + depth <= 16 && Fine(w)
      {
        assert OccursInSlots(ss, w, depth);
      }
      forall w, depth: nat | OccursInSlots(ss.rest, w, depth)
        ensures from + depth <= 16 && Fine(w)
      {
        assert OccursInSlots(ss, w, depth);
      }
    } else {
      var w, depth: nat :| OccursInSlots(ss, w, depth) && !(from + depth <= 16 && Fine(w));
      assert OccursInSlots(ss.rest, w, depth) || (ss.kind.Item? && Occurs(ss.kind.v, w, depth))
             || (ss.kind.Getter? && Occurs(ss.kind.checked, w, depth));
    }
  }

  lemma PropsFineCons(ps: Props, from: nat)
    requires ps.Prop?
    ensures PropsFine(ps, from)
      <==> (ps.enumerable && ps.kind.Data? ==> AllFine(ps.kind.v, from)) && PropsFine(ps.rest, from)
  {
    if PropsFine(ps, from) {
      forall w, depth: nat | ps.enumerable && ps.kind.Data? && Occurs(ps.kind.v, w, depth)
        ensures from + depth <= 16 && Fine(w)
      {
        assert OccursInProps(ps, w, depth);
      }
      forall w, depth: nat | OccursInProps(ps.rest, w, depth)
        ensures from + depth <= 16 && Fine(w)
      {
        assert OccursInProps(ps, w, depth);
      }
    } else {
      var w, depth: nat :| OccursInProps(ps, w, depth) && !(from + depth <= 16 && Fine(w));
      assert OccursInProps(ps.rest, w, depth) || (ps.enumerable && ps.kind.Data? && Occurs(ps.kind.v, w, depth));
    }
  }

  lemma {:induction false} CheckIs(v: Js, from: nat)
    ensures IsCanonical(v, from) <==> AllFine(v, from)
    decreases v
  {
    FineThroughout(v, from);
    match v
    case Arr(_, slots, _) => SlotsCheckIs(slots, from + 1);
    case Obj(_, _, props) => PropsCheckIs(props, from + 1);
    case _ =>
  }

  lemma {:induction false} SlotsCheckIs(ss: Slots, from: nat)
    ensures CanonicalSlots(ss, from) <==> SlotsFine(ss, from) && !HasHole(ss)
    decreases ss
  {
    if ss.Slot? {
      SlotsFineCons(ss, from);
      SlotsCheckIs(ss.rest, from);
      match ss.kind
      case Hole =>
      case Item(v) => CheckIs(v, from);
      case Getter(checked, _) => CheckIs(checked, from);
    }
  }

  lemma {:induction false} PropsCheckIs(ps: Props, from: nat)
    ensures CanonicalProps(ps, from) <==> PropsFine(ps, from) && !HasVisibleAccessor(ps)
    decreases ps
  {
    if ps.Prop? {
      PropsFineCons(ps, from);
      PropsCheckIs(ps.rest, from);
      if ps.enumerable && ps.kind.Data? {
        CheckIs(ps.kind.v, from);
      }
    }
  }

  /** The server's check accepts a payload exactly when everything that occurs in it is fine and near enough. */
  lemma PayloadInFields(v: Js)
    ensures IsCanonical(v, 0) <==> AllFine(v, 0)
  {
    CheckIs(v, 0);
  }

  // ---------------------------------------------------------------------------
  // Strings as they are written
  // ---------------------------------------------------------------------------

  /** Half of a surrogate pair: a leading half with its partner after it, a trailing one with it before. */
  predicate Paired(s: Text, i: nat)
    requires i < |s|
  {
    || (0xD800 <= s[i] <= 0xDBFF && i + 1 < |s| && 0xDC00 <= s[i + 1] <= 0xDFFF)
    || (0xDC00 <= s[i] <= 0xDFFF && 0 < i && 0xD800 <= s[i - 1] <= 0xDBFF)
  }

  /** How JSON.stringify writes a unit: by a two-character escape if there is one, by digits if it must, or as it is. */
  function PieceFor(u: Unit, paired: bool): Piece {
    if u == 0x22 then TwoCharacter(0)
    else if u == 0x5C then TwoCharacter(1)
    else if u == 0x08 then TwoCharacter(3)
    else if u == 0x0C then TwoCharacter(4)
    else if u == 0x0A then TwoCharacter(5)
    else if u == 0x0D then TwoCharacter(6)
    else if u == 0x09 then TwoCharacter(7)
    else if u < 0x20 || (0xD800 <= u <= 0xDFFF && !paired) then
      Escaped(Digit(u / 0x1000, false), Digit(u / 0x100 % 0x10, false), Digit(u / 0x10 % 0x10, false),
              Digit(u % 0x10, false))
    else Character(u)
  }

  function Pieces(s: Text, from: nat): (ps: seq<Piece>)
    requires from <= |s|
    ensures Valid(ps)
    decreases |s| - from
  {
    if from == |s| then [] else [PieceFor(s[from], Paired(s, from))] + Pieces(s, from + 1)
  }

  lemma LowerDigit(n: nat)
    requires n < 16
    ensures DigitUnit(Digit(n, false)) == HexUnit(n)
  {
    var l := LOWER_DIGITS;
    if n < 10 {
      assert l[n] as int == 0x30 + n;
    } else {
      assert l[n] as int == 0x57 + n;
    }
  }

  lemma UnitsAreWritten(u: Unit)
    ensures ValidPiece(PieceFor(u, false)) && EscapeUnit(u) == Spelled(PieceFor(u, false))
  {
    LowerDigit(u / 0x1000);
    LowerDigit(u / 0x100 % 0x10);
    LowerDigit(u / 0x10 % 0x10);
    LowerDigit(u % 0x10);
    var s := ESCAPE_LETTERS;
    assert s[0] == '\"' && s[1] == '\\' && s[3] == 'b' && s[4] == 'f' && s[5] == 'n' && s[6] == 'r' && s[7] == 't';
  }

  lemma FirstWritten(s: Text, from: nat)
    requires from < |s|
    ensures ValidPiece(PieceFor(s[from], Paired(s, from)))
    ensures Spelling(Pieces(s, from)) == Spelled(PieceFor(s[from], Paired(s, from))) + Spelling(Pieces(s, from + 1))
  {
    assert Pieces(s, from)[1..] == Pieces(s, from + 1);
  }

  lemma PairWritten(s: Text, from: nat)
    requires from + 1 < |s| && High(s[from]) && Low(s[from + 1])
    ensures Spelling(Pieces(s, from)) == [s[from], s[from + 1]] + Spelling(Pieces(s, from + 2))
  {
    FirstWritten(s, from);
    FirstWritten(s, from + 1);
  }

  /** A string is written unit by unit, each by its own piece. */
  lemma {:induction false} StringsAreWritten(s: Text, from: nat)
    requires from <= |s| && (from < |s| && 0xDC00 <= s[from] <= 0xDFFF ==> !Paired(s, from))
    ensures Escape(s[from..]) == Spelling(Pieces(s, from))
    decreases |s| - from
  {
    var t := s[from..];
    if from < |s| {
      if High(t[0]) && |t| > 1 && Low(t[1]) {
        assert t[2..] == s[from + 2..];
        StringsAreWritten(s, from + 2);
        PairWritten(s, from);
      } else {
        assert t[1..] == s[from + 1..];
        StringsAreWritten(s, from + 1);
        FirstWritten(s, from);
        UnitsAreWritten(t[0]);
      }
    }
  }

  /** The text of a string: each unit as it is, or by its shortest escape, or by four lower-case digits. */
  lemma StringInFields(s: Text)
    ensures Escape(s) == Spelling(Pieces(s, 0))
  {
    StringsAreWritten(s, 0);
    assert s[0..] == s;
  }

  /** What values without elements or members are written as, and what stands for those that are not written. */
  lemma LeavesAreWritten(raw: Text, s: Text)
    ensures Print(Null) == Some(Atom([0x6E, 0x75, 0x6C, 0x6C]))
    ensures Print(Bool(true)) == Some(Atom([0x74, 0x72, 0x75, 0x65]))
    ensures Print(Bool(false)) == Some(Atom([0x66, 0x61, 0x6C, 0x73, 0x65]))
    ensures Print(Num(Finite(raw))) == Some(Atom(raw)) && Print(Num(MinusZero)) == Some(Atom([0x30]))
    ensures Print(Num(Infinite)) == Print(Num(NotANumber)) == Print(Null)
    ensures Print(Js.Str(s)) == Some(Value.Str(Spelling(Pieces(s, 0)))) && Print(Other) == None
    ensures PrintSlots(Slot(Hole, NoSlots)) == PrintSlots(Slot(Item(Other), NoSlots))
      == PrintSlots(Slot(Item(Null), NoSlots))
  {
    StringInFields(s);
  }
}
