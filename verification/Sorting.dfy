/** Array.prototype.sort: a stable sort by a comparator, given as "is not after". */
module Sorting {

  /** The comparator is a total preorder. */
  ghost predicate IsOrder<T(!new)>(notAfter: (T, T) -> bool) {
    && (forall a, b :: notAfter(a, b) || notAfter(b, a))
    && forall a, b, c :: notAfter(a, b) && notAfter(b, c) ==> notAfter(a, c)
  }

  function Insert<T(!new)>(notAfter: (T, T) -> bool, sorted: seq<T>, row: T): (r: seq<T>)
    ensures |r| == |sorted| + 1
    decreases |sorted|
  {
    var last := |sorted| - 1;
    if |sorted| == 0 || notAfter(sorted[last], row) then sorted + [row]
    else Insert(notAfter, sorted[..last], row) + [sorted[last]]
  }

  function Sort<T(!new)>(notAfter: (T, T) -> bool, rows: seq<T>): (r: seq<T>)
    ensures |r| == |rows|
    decreases |rows|
  {
    if |rows| == 0 then [] else Insert(notAfter, Sort(notAfter, rows[..|rows| - 1]), rows[|rows| - 1])
  }

  predicate InOrder<T(!new)>(notAfter: (T, T) -> bool, rows: seq<T>) {
    forall i, j :: 0 <= i < j < |rows| ==> notAfter(rows[i], rows[j])
  }

  /** The rows that compare equal to `like`, in their order. */
  function Ties<T(!new)>(notAfter: (T, T) -> bool, rows: seq<T>, like: T): seq<T>
    decreases |rows|
  {
    if |rows| == 0 then []
    else
      var last := rows[|rows| - 1];
      Ties(notAfter, rows[..|rows| - 1], like)
      + if notAfter(last, like) && notAfter(like, last) then [last] else []
  }

  lemma {:induction false} OrderFacts<T(!new)>(notAfter: (T, T) -> bool, a: T, b: T, c: T)
    requires IsOrder(notAfter)
    ensures notAfter(a, b) || notAfter(b, a)
    ensures notAfter(a, b) && notAfter(b, c) ==> notAfter(a, c)
  {
  }

  lemma {:induction false} InsertKeepsOrder<T(!new)>(notAfter: (T, T) -> bool, sorted: seq<T>, row: T)
    requires IsOrder(notAfter) && InOrder(notAfter, sorted)
    ensures InOrder(notAfter, Insert(notAfter, sorted, row))
    ensures multiset(Insert(notAfter, sorted, row)) == multiset(sorted) + multiset{row}
    decreases |sorted|
  {
    hide IsOrder;
    var last := |sorted| - 1;
    var r := Insert(notAfter, sorted, row);
    if |sorted| == 0 || notAfter(sorted[last], row) {
      forall i | 0 <= i < |sorted|
        ensures notAfter(sorted[i], row)
      {
        OrderFacts(notAfter, sorted[i], sorted[last], row);
      }
    } else {
      var rest := Insert(notAfter, sorted[..last], row);
      InsertKeepsOrder(notAfter, sorted[..last], row);
      OrderFacts(notAfter, row, sorted[last], row);
      assert sorted == sorted[..last] + [sorted[last]];
      forall i | 0 <= i < |rest|
        ensures notAfter(rest[i], sorted[last])
      {
        assert rest[i] in multiset(rest);
        assert rest[i] in multiset(sorted[..last]) || rest[i] == row;
      }
    }
  }

  lemma {:induction false} TiesOfConcat<T(!new)>(notAfter: (T, T) -> bool, rows: seq<T>, last: T, like: T)
    ensures Ties(notAfter, rows + [last], like)
            == Ties(notAfter, rows, like)
               + if notAfter(last, like) && notAfter(like, last) then [last] else []
  {
  }

  lemma {:induction false} InsertIsStable<T(!new)>(notAfter: (T, T) -> bool, sorted: seq<T>, row: T, like: T)
    requires IsOrder(notAfter)
    ensures Ties(notAfter, Insert(notAfter, sorted, row), like) == Ties(notAfter, sorted + [row], like)
    decreases |sorted|
  {
    hide IsOrder;
    var last := |sorted| - 1;
    if |sorted| > 0 && !notAfter(sorted[last], row) {
      InsertIsStable(notAfter, sorted[..last], row, like);
      TiesOfConcat(notAfter, Insert(notAfter, sorted[..last], row), sorted[last], like);
      TiesOfConcat(notAfter, sorted[..last], row, like);
      TiesOfConcat(notAfter, sorted, row, like);
      OrderFacts(notAfter, sorted[last], like, row);
    }
  }

  /** Sorting keeps exactly the given rows, puts them in order, and keeps ties as they were. */
  lemma {:induction false} SortIsStable<T(!new)>(notAfter: (T, T) -> bool, rows: seq<T>, like: T)
    requires IsOrder(notAfter)
    ensures InOrder(notAfter, Sort(notAfter, rows))
    ensures multiset(Sort(notAfter, rows)) == multiset(rows)
    ensures Ties(notAfter, Sort(notAfter, rows), like) == Ties(notAfter, rows, like)
    decreases |rows|
  {
    hide IsOrder, Insert;
    if |rows| > 0 {
      var init, last := rows[..|rows| - 1], rows[|rows| - 1];
      assert rows == init + [last];
      SortIsStable(notAfter, init, like);
      InsertKeepsOrder(notAfter, Sort(notAfter, init), last);
      InsertIsStable(notAfter, Sort(notAfter, init), last, like);
      TiesOfConcat(notAfter, Sort(notAfter, init), last, like);
    }
  }
}
