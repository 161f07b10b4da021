/** The library collections the programs fill and drain, given by the
    contracts the programs rely on: an ArrayList of pairs, and an OSU
    SortingMachine with an insertion and an extraction mode. */
module Collections {
  import opened Ordering

  /** ArrayList<Map.Entry<String, Integer>>. */
  class EntryList {
    var items: seq<Entry>

    constructor ()
      ensures items == []
    {
      items := [];
    }

    /** size: zero exactly when the list is empty. */
    function Size(): (n: nat)
      reads this
      ensures n == 0 <==> items == []
    {
      |items|
    }

    /** add: appends at the end. */
    method Add(e: Entry)
      modifies this
      ensures items == old(items) + [e]
    {
      items := items + [e];
    }

    /** remove(index): removes and returns the element at index. */
    method Remove(index: nat) returns (e: Entry)
      requires index < |items|
      modifies this
      ensures e == old(items)[index]
      ensures items == old(items)[..index] + old(items)[index + 1..]
    {
      e := items[index];
      items := items[..index] + items[index + 1..];
    }

    /** sort(c): a permutation of the list, sorted by c. */
    method Sort(c: Comparator)
      modifies this
      ensures SortedBy(c, items)
      ensures multiset(items) == multiset(old(items))
    {
      items := SortBy(c, items);
    }
  }

  /** SortingMachine<Map.Pair<String, Integer>>: a multiset of pairs, a
      comparator and a mode flag. */
  class SortingMachine {
    const order: Comparator
    var contents: multiset<Entry>
    var insertionMode: bool

    constructor (order: Comparator)
      ensures this.order == order
      ensures contents == multiset{} && insertionMode
    {
      this.order := order;
      contents := multiset{};
      insertionMode := true;
    }

    /** size: zero exactly when the machine holds nothing. */
    function Size(): (n: nat)
      reads this
      ensures n == 0 <==> contents == multiset{}
    {
      |contents|
    }

    /** isInInsertionMode: the mode flag. */
    function IsInInsertionMode(): bool
      reads this
    {
      insertionMode
    }

    /** add: only in insertion mode. */
    method Add(x: Entry)
      requires insertionMode
      modifies this
      ensures contents == old(contents) + multiset{x}
      ensures insertionMode
    {
      contents := contents + multiset{x};
    }

    /** changeToExtractionMode: only in insertion mode. */
    method ChangeToExtractionMode()
      requires insertionMode
      modifies this
      ensures contents == old(contents)
      ensures !insertionMode
    {
      insertionMode := false;
    }

    /** removeFirst: only in extraction mode and when not empty; removes a
        pair that no other pair precedes under the comparator. */
    method RemoveFirst() returns (x: Entry)
      requires !insertionMode && |contents| > 0
      modifies this
      ensures IsFirst(order, x, old(contents))
      ensures contents == old(contents) - multiset{x}
      ensures !insertionMode
    {
      FirstExists(order, contents);
      x :| IsFirst(order, x, contents);
      contents := contents - multiset{x};
    }
  }
}
