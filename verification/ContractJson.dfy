/**
 * The JSON the operator contract is written in, and what the parsers of both ends share: exact key
 * sets, lists, reference grammars (backoffice/src/server/customer-api-client.ts,
 * backoffice/src/data/operator.ts).
 *
 * Property names of a parsed JSON object are distinct and their order is never looked at, so an
 * object is a map.
 */
module ContractJson {
  import opened Texts
  import opened Wrappers

  datatype Raw =
    | Null
    | Bool(b: bool)
    | Num(n: real)
    | Str(s: string)
    | Arr(items: seq<Raw>)
    | Obj(fields: map<string, Raw>)

  predicate HasExactKeys(v: Raw, keys: set<string>) {
    v.Obj? && v.fields.Keys == keys
  }

  /** Number.isInteger. */
  predicate IsInt(v: Raw) {
    v.Num? && v.n == v.n.Floor as real
  }

  function IntRaw(n: int): Raw {
    Num(n as real)
  }

  // ---------------------------------------------------------------------------
  // Optional texts
  // ---------------------------------------------------------------------------

  predicate IsTextOrNull(v: Raw) {
    v.Null? || v.Str?
  }

  function TextOrNull(v: Raw): Option<string>
    requires IsTextOrNull(v)
  {
    if v.Null? then None else Some(v.s)
  }

  function OptionRaw(o: Option<string>): Raw {
    if o.None? then Null else Str(o.value)
  }

  // ---------------------------------------------------------------------------
  // Lists
  // ---------------------------------------------------------------------------

  /** Every item read, or nothing. */
  function ReadAll<T>(items: seq<Raw>, read: Raw -> Option<T>): Option<seq<T>> {
    if items == [] then Some([])
    else if read(items[0]).None? || ReadAll(items[1..], read).None? then None
    else Some([read(items[0]).value] + ReadAll(items[1..], read).value)
  }

  function WriteAll<T>(values: seq<T>, write: T -> Raw): seq<Raw> {
    if values == [] then [] else [write(values[0])] + WriteAll(values[1..], write)
  }

  lemma {:induction false} ReadAllItems<T>(items: seq<Raw>, read: Raw -> Option<T>)
    ensures ReadAll(items, read).Some? <==> forall i :: 0 <= i < |items| ==> read(items[i]).Some?
    ensures ReadAll(items, read).Some? ==>
      && |ReadAll(items, read).value| == |items|
      && forall i :: 0 <= i < |items| ==> ReadAll(items, read).value[i] == read(items[i]).value
  {
    if items != [] {
      ReadAllItems(items[1..], read);
      if forall i :: 0 <= i < |items| ==> read(items[i]).Some? {
        forall i | 0 <= i < |items[1..]|
          ensures read(items[1..][i]).Some?
        {
          assert items[1..][i] == items[i + 1];
        }
      }
      if ReadAll(items, read).Some? {
        forall i | 0 <= i < |items|
          ensures read(items[i]).Some? && ReadAll(items, read).value[i] == read(items[i]).value
        {
          if 0 < i {
            assert items[1..][i - 1] == items[i];
          }
        }
      }
    }
  }

  /** `read` undoes `write`, and reads nothing else. */
  ghost predicate Undoes<T(!new)>(read: Raw -> Option<T>, write: T -> Raw) {
    && (forall t :: read(write(t)) == Some(t))
    && (forall v :: read(v).Some? ==> write(read(v).value) == v)
  }

  lemma {:induction false} ListsRoundTrip<T(!new)>(values: seq<T>, read: Raw -> Option<T>, write: T -> Raw)
    requires Undoes(read, write)
    ensures ReadAll(WriteAll(values, write), read) == Some(values)
  {
    if values != [] {
      ListsRoundTrip(values[1..], read, write);
      assert WriteAll(values, write)[1..] == WriteAll(values[1..], write);
      assert read(write(values[0])) == Some(values[0]);
      assert values == [values[0]] + values[1..];
    }
  }

  lemma {:induction false} ReadListsAreWritten<T(!new)>(items: seq<Raw>, read: Raw -> Option<T>, write: T -> Raw)
    requires Undoes(read, write) && ReadAll(items, read).Some?
    ensures WriteAll(ReadAll(items, read).value, write) == items
  {
    if items != [] {
      ReadListsAreWritten(items[1..], read, write);
      assert ReadAll(items, read).value[1..] == ReadAll(items[1..], read).value;
    }
  }

  /** A list reads as `values` exactly when it is written from them. */
  lemma ListExact<T(!new)>(v: Raw, values: seq<T>, read: Raw -> Option<T>, write: T -> Raw)
    requires Undoes(read, write)
    ensures v.Arr? && ReadAll(v.items, read) == Some(values) <==> v == Arr(WriteAll(values, write))
    ensures |WriteAll(values, write)| == |values|
  {
    ListsRoundTrip(values, read, write);
    ReadAllItems(WriteAll(values, write), read);
    if v.Arr? && ReadAll(v.items, read).Some? {
      ReadListsAreWritten(v.items, read, write);
    }
  }

  function ReadText(v: Raw): Option<string> {
    if v.Str? then Some(v.s) else None
  }

  function WriteText(s: string): Raw {
    Str(s)
  }

  lemma TextsReadBack(list: seq<string>)
    ensures ReadAll(WriteAll(list, WriteText), ReadText) == Some(list)
  {
    ListsRoundTrip(list, ReadText, WriteText);
  }

  lemma TextsAreWritten(items: seq<Raw>)
    requires ReadAll(items, ReadText).Some?
    ensures WriteAll(ReadAll(items, ReadText).value, WriteText) == items
  {
    ReadListsAreWritten(items, ReadText, WriteText);
  }

  /** `new Set(list).size === list.length`. */
  predicate Distinct<T(==)>(list: seq<T>) {
    forall i, j :: 0 <= i < j < |list| ==> list[i] != list[j]
  }

  // ---------------------------------------------------------------------------
  // Reference grammars
  // ---------------------------------------------------------------------------

  predicate IsLowerAlnum(c: char) {
    '0' <= c <= '9' || 'a' <= c <= 'z'
  }

  /** `^prefix[0-9a-f]{n}$`. */
  predicate HexRef(s: string, prefix: string, n: nat) {
    |s| == |prefix| + n && prefix <= s && forall i :: |prefix| <= i < |s| ==> HexDigit(s[i])
  }

  /** `^prefix[a-z0-9]{8,32}$`. */
  predicate NameRef(s: string, prefix: string) {
    |prefix| + 8 <= |s| <= |prefix| + 32 && prefix <= s && forall i :: |prefix| <= i < |s| ==> IsLowerAlnum(s[i])
  }

  predicate Capitalised(s: string) {
    2 <= |s| <= 32 && 'A' <= s[0] <= 'Z' && forall i :: 1 <= i < |s| ==> 'a' <= s[i] <= 'z'
  }

  /** Two capitalised words. */
  predicate DisplayName(s: string) {
    exists k :: 0 <= k < |s| && s[k] == ' ' && Capitalised(s[..k]) && Capitalised(s[k + 1..])
  }

  predicate CustomerRef(s: string) {
    NameRef(s, "syn_cust_")
  }

  predicate OperatorRef(s: string) {
    NameRef(s, "syn_oper_")
  }
}
