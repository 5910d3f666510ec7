/**
 * The loops of the contract parsers have one shape: read the next item, test it against the items
 * collected so far, collect it or refuse the whole list. What such a loop accepts is settled here once.
 */
module ContractPages {
  import opened Wrappers
  import opened ContractJson

  /** The next item, when it can be read and is admitted after `page`. */
  function Row<T>(v: Raw, read: Raw -> Option<T>, admits: (seq<T>, T) -> bool, page: seq<T>): Option<T> {
    if read(v).Some? && admits(page, read(v).value) then read(v) else None
  }

  /** The loop over the rest of the list, `page` being what it has collected. */
  function Scan<T>(items: seq<Raw>, read: Raw -> Option<T>, admits: (seq<T>, T) -> bool, page: seq<T>): Option<seq<T>>
    decreases |items|
  {
    if items == [] then Some(page)
    else
      var row := Row(items[0], read, admits, page);
      if row.None? then None else Scan(items[1..], read, admits, page + [row.value])
  }

  /** One round of the loop leaves the verdict as it is. */
  lemma Round<T>(items: seq<Raw>, index: nat, read: Raw -> Option<T>, admits: (seq<T>, T) -> bool, page: seq<T>)
    requires index < |items|
    ensures var row := Row(items[index], read, admits, page);
      Scan(items[index..], read, admits, page)
        == if row.None? then None else Scan(items[index + 1..], read, admits, page + [row.value])
  {
    assert items[index..][0] == items[index] && items[index..][1..] == items[index + 1..];
  }

  /** The list read as a whole, if what it reads as stands. */
  ghost function Accepted<T>(items: seq<Raw>, read: Raw -> Option<T>, stands: seq<T> -> bool): Option<seq<T>> {
    var page := ReadAll(items, read);
    if page.Some? && stands(page.value) then page else None
  }

  /** `admits` is the step of `stands`: it decides what one more item makes of a standing page. */
  ghost predicate Steps<T(!new)>(admits: (seq<T>, T) -> bool, stands: seq<T> -> bool) {
    && stands([])
    && (forall page, next :: stands(page) ==> (stands(page + [next]) <==> admits(page, next)))
    && (forall page, more :: stands(page + more) ==> stands(page))
  }

  lemma {:induction false} ScanFrom<T(!new)>(
      items: seq<Raw>, read: Raw -> Option<T>, admits: (seq<T>, T) -> bool, stands: seq<T> -> bool, page: seq<T>)
    requires Steps(admits, stands) && stands(page)
    ensures Scan(items, read, admits, page)
      == var rest := ReadAll(items, read);
         if rest.Some? && stands(page + rest.value) then Some(page + rest.value) else None
    decreases |items|
  {
    var rest := ReadAll(items, read);
    if items == [] {
      assert page + [] == page;
    } else if read(items[0]).Some? {
      var next := read(items[0]).value;
      assert stands(page + [next]) <==> admits(page, next);
      if rest.Some? {
        assert page + rest.value == (page + [next]) + rest.value[1..];
      }
      if admits(page, next) {
        ScanFrom(items[1..], read, admits, stands, page + [next]);
      }
    }
  }

  /** A loop that tests item by item accepts exactly the lists that stand as a whole. */
  lemma ScanAcceptsStandingLists<T(!new)>(
      items: seq<Raw>, read: Raw -> Option<T>, admits: (seq<T>, T) -> bool, stands: seq<T> -> bool)
    requires Steps(admits, stands)
    ensures Scan(items, read, admits, []) == Accepted(items, read, stands)
  {
    ScanFrom(items, read, admits, stands, []);
    var rest := ReadAll(items, read);
    if rest.Some? {
      assert [] + rest.value == rest.value;
    }
  }

  // ---------------------------------------------------------------------------
  // Pages in order, under distinct references
  // ---------------------------------------------------------------------------

  /** Every row stands before every row after it. */
  ghost predicate OrderedBy<T>(before: (T, T) -> bool, page: seq<T>) {
    forall i, j :: 0 <= i < j < |page| ==> before(page[i], page[j])
  }

  ghost predicate Transitive<T(!new)>(before: (T, T) -> bool) {
    forall a, b, c :: before(a, b) && before(b, c) ==> before(a, c)
  }

  /** Comparing neighbours puts the whole page in order. */
  lemma OrderExtends<T(!new)>(before: (T, T) -> bool, page: seq<T>, next: T)
    requires Transitive(before) && OrderedBy(before, page)
    ensures OrderedBy(before, page + [next]) <==> page == [] || before(page[|page| - 1], next)
  {
    var after := page + [next];
    if page != [] && OrderedBy(before, after) {
      assert before(after[|page| - 1], after[|page|]);
    }
    if page != [] && before(page[|page| - 1], next) {
      forall i, j | 0 <= i < j < |after|
        ensures before(after[i], after[j])
      {
        if j == |page| && i < |page| - 1 {
          assert before(page[i], page[|page| - 1]);
        }
      }
    }
  }

  function IdsOf<T(==)>(id: T -> string, page: seq<T>): set<string> {
    set t | t in page :: id(t)
  }

  ghost predicate DistinctBy<T>(id: T -> string, page: seq<T>) {
    forall i, j :: 0 <= i < j < |page| ==> id(page[i]) != id(page[j])
  }

  lemma IdsStayDistinct<T>(id: T -> string, page: seq<T>, next: T)
    requires DistinctBy(id, page)
    ensures DistinctBy(id, page + [next]) <==> id(next) !in IdsOf(id, page)
  {
    var after := page + [next];
    assert after[|page|] == next && forall i :: 0 <= i < |page| ==> after[i] == page[i];
    if id(next) in IdsOf(id, page) {
      var i :| 0 <= i < |page| && id(page[i]) == id(next);
      assert id(after[i]) == id(after[|page|]);
    } else {
      assert forall i :: 0 <= i < |page| ==> id(page[i]) in IdsOf(id, page);
    }
  }

  lemma OneMoreId<T>(id: T -> string, page: seq<T>, next: T)
    ensures IdsOf(id, page + [next]) == IdsOf(id, page) + {id(next)}
  {
    assert (page + [next])[|page|] == next;
    assert forall t :: t in page + [next] <==> t in page || t == next;
  }

  lemma PrefixKeeps<T>(before: (T, T) -> bool, id: T -> string, page: seq<T>, more: seq<T>)
    ensures OrderedBy(before, page + more) ==> OrderedBy(before, page)
    ensures DistinctBy(id, page + more) ==> DistinctBy(id, page)
  {
    assert forall i :: 0 <= i < |page| ==> (page + more)[i] == page[i];
  }

  lemma PartKeeps<T>(before: (T, T) -> bool, page: seq<T>, k: nat)
    requires k <= |page|
    ensures OrderedBy(before, page) ==> OrderedBy(before, page[..k])
  {
  }
}
