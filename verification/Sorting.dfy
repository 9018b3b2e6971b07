/** Stable sorting by an integer key, as JavaScript's sort and Go's SliceStable both promise it. */
module Sorting {

  /** A row's sort key together with its position in its list. */
  datatype Entry = Entry(key: int, index: nat)

  predicate Before(a: Entry, b: Entry) {
    a.key < b.key || (a.key == b.key && a.index < b.index)
  }

  ghost predicate Sorted(entries: seq<Entry>) {
    forall i, j :: 0 <= i < j < |entries| ==> Before(entries[i], entries[j])
  }

  ghost predicate InListOrder(entries: seq<Entry>) {
    forall i, j :: 0 <= i < j < |entries| ==> entries[i].index < entries[j].index
  }

  function Insert(e: Entry, sorted: seq<Entry>): seq<Entry> {
    if sorted == [] then [e]
    else if e.key < sorted[0].key then [e] + sorted
    else [sorted[0]] + Insert(e, sorted[1..])
  }

  /** A stable sort by key: an entry goes behind the earlier entries that share its key. */
  function StableSort(entries: seq<Entry>): seq<Entry> {
    if entries == [] then []
    else Insert(entries[|entries| - 1], StableSort(entries[..|entries| - 1]))
  }

  lemma {:induction false} InsertSorts(e: Entry, sorted: seq<Entry>)
    requires Sorted(sorted)
    requires forall x :: x in sorted ==> x.index < e.index
    ensures Sorted(Insert(e, sorted))
    ensures forall x :: x in Insert(e, sorted) <==> x == e || x in sorted
  {
    if sorted == [] {
    } else if e.key < sorted[0].key {
      assert forall j :: 0 < j < |sorted| ==> Before(sorted[0], sorted[j]);
    } else {
      InsertSorts(e, sorted[1..]);
      var rest := Insert(e, sorted[1..]);
      assert forall x :: x in sorted <==> x == sorted[0] || x in sorted[1..];
      assert forall j :: 0 <= j < |rest| ==> rest[j] in rest && Before(sorted[0], rest[j]);
    }
  }

  lemma {:induction false} StableSortSorts(entries: seq<Entry>)
    requires InListOrder(entries)
    ensures Sorted(StableSort(entries))
    ensures forall x :: x in StableSort(entries) <==> x in entries
  {
    if entries != [] {
      var front, last := entries[..|entries| - 1], entries[|entries| - 1];
      StableSortSorts(front);
      InsertSorts(last, StableSort(front));
      assert entries == front + [last];
    }
  }
}
