/**
 * The order of texts, and the characters and vocabulary several components share.
 */
module Texts {
  predicate HexDigit(c: char) {
    '0' <= c <= '9' || 'a' <= c <= 'f'
  }

  const HEX_DIGITS := "0123456789abcdef"

  lemma HexDigitsAre(c: char)
    ensures HexDigit(c) <==> c in HEX_DIGITS
  {
    var s := HEX_DIGITS;
    if c in HEX_DIGITS {
      var i :| 0 <= i < 16 && s[i] == c;
    }
    if '0' <= c <= '9' {
      assert s[c as int - '0' as int] == c;
    } else if 'a' <= c <= 'f' {
      assert s[c as int - 'a' as int + 10] == c;
    }
  }

  /** Exactly `n` lower-case hexadecimal digits. */
  predicate IsHex(s: string, n: nat) {
    |s| == n && forall i :: 0 <= i < n ==> s[i] in HEX_DIGITS
  }

  lemma HexIsHexDigits(s: string, n: nat)
    ensures IsHex(s, n) <==> |s| == n && forall i :: 0 <= i < n ==> HexDigit(s[i])
  {
    forall c
      ensures HexDigit(c) <==> c in HEX_DIGITS
    {
      HexDigitsAre(c);
    }
  }

  /** The white space `\s` matches in a JavaScript pattern. */
  predicate Blank(c: char) {
    || '\t' <= c <= '\r' || c == ' ' || c == '\U{00A0}' || c == '\U{1680}' || '\U{2000}' <= c <= '\U{200A}'
    || c == '\U{2028}' || c == '\U{2029}' || c == '\U{202F}' || c == '\U{205F}' || c == '\U{3000}' || c == '\U{FEFF}'
  }

  /** The length JavaScript reports: a character past U+FFFF takes two code units. */
  function UnitLength(s: string): nat {
    if s == "" then 0 else UnitLength(s[..|s| - 1]) + if s[|s| - 1] as int < 0x1_0000 then 1 else 2
  }

  function Zeros(n: nat): string {
    seq(n, _ => '0')
  }

  /** The kinds of alert a flag is raised for. */
  const ALERT_TYPES := {"structuring", "velocity", "geo_mismatch"}

  /**
   * JavaScript's `<` on strings: by code unit, a proper prefix first. Session ids sort by it in both
   * backends.
   */
  predicate Less(a: string, b: string)
    decreases |a|
  {
    if b == "" then false
    else if a == "" then true
    else a[0] < b[0] || (a[0] == b[0] && Less(a[1..], b[1..]))
  }

  /** `a` and `b` share their first `k` characters, and then `a` ends or goes on with the smaller one. */
  predicate PartAt(a: string, b: string, k: nat) {
    k <= |a| && k < |b| && a[..k] == b[..k] && (k == |a| || a[k] < b[k])
  }

  /** The order of texts by their first difference. */
  lemma {:induction false} LessByFirstDifference(a: string, b: string)
    ensures Less(a, b) <==> exists k: nat :: PartAt(a, b, k)
    decreases |a|
  {
    forall k: nat | PartAt(a, b, k) && 0 < k
      ensures a[0] == b[0]
    {
      assert a[0] == a[..k][0] && b[0] == b[..k][0];
    }
    if b == "" {
    } else if a == "" || a[0] < b[0] {
      assert PartAt(a, b, 0);
    } else if a[0] == b[0] {
      LessByFirstDifference(a[1..], b[1..]);
      if k: nat :| PartAt(a[1..], b[1..], k) {
        assert a[..k + 1] == [a[0]] + a[1..][..k] && b[..k + 1] == [b[0]] + b[1..][..k];
        assert PartAt(a, b, k + 1);
      }
      if k: nat :| PartAt(a, b, k) {
        assert a[1..][..k - 1] == a[..k][1..] && b[1..][..k - 1] == b[..k][1..];
        assert PartAt(a[1..], b[1..], k - 1);
      }
    } else {
      assert forall k: nat :: PartAt(a, b, k) ==> k == 0;
    }
  }

  lemma {:induction false} LessIsTotal(a: string, b: string)
    ensures Less(a, b) || a == b || Less(b, a)
    ensures !(Less(a, b) && Less(b, a)) && !Less(a, a)
    decreases |a|
  {
    if a != "" {
      LessIsTotal(a[1..], a[1..]);
      if b != "" {
        LessIsTotal(a[1..], b[1..]);
        if a[1..] == b[1..] && a[0] == b[0] {
          assert a == [a[0]] + a[1..] && b == [b[0]] + b[1..];
        }
      }
    }
  }

  lemma {:induction false} LessIsTransitive(a: string, b: string, c: string)
    requires Less(a, b) && Less(b, c)
    ensures Less(a, c)
    decreases |a|
  {
    if a != "" && a[0] == b[0] && b[0] == c[0] {
      LessIsTransitive(a[1..], b[1..], c[1..]);
    }
  }

  /** Texts of one length compare by any first part, then by the rest. */
  lemma {:induction false} LessInParts(a: string, b: string, k: nat)
    requires |a| == |b| && k <= |a|
    ensures Less(a, b) <==> Less(a[..k], b[..k]) || (a[..k] == b[..k] && Less(a[k..], b[k..]))
    decreases |a|
  {
    if k == 0 {
      assert a[k..] == a && b[k..] == b;
    } else {
      LessInParts(a[1..], b[1..], k - 1);
      assert a[..k][1..] == a[1..][..k - 1] && b[..k][1..] == b[1..][..k - 1];
      assert a[..k] == [a[0]] + a[1..][..k - 1] && b[..k] == [b[0]] + b[1..][..k - 1];
      assert a[k..] == a[1..][k - 1..] && b[k..] == b[1..][k - 1..];
    }
  }

  function Astral(s: string): set<nat> {
    set i | 0 <= i < |s| && s[i] > '\U{FFFF}'
  }

  /** A character past U+FFFF counts once more. */
  lemma {:induction false} UnitsAre(s: string)
    ensures UnitLength(s) == |s| + |Astral(s)|
  {
    if s == "" {
      assert Astral(s) == {};
    } else {
      var last := |s| - 1;
      UnitsAre(s[..last]);
      assert Astral(s) == Astral(s[..last]) + if s[last] > '\U{FFFF}' then {last} else {};
    }
  }
}
