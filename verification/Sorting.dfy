/** A stable insertion sort by any total order. */
module Sorting {

  function Insert<T>(sorted: seq<T>, x: T, le: (T, T) -> bool): seq<T> {
    if sorted == [] || le(x, sorted[0]) then [x] + sorted else [sorted[0]] + Insert(sorted[1..], x, le)
  }

  function Sort<T>(s: seq<T>, le: (T, T) -> bool): seq<T> {
    if s == [] then [] else Insert(Sort(s[1..], le), s[0], le)
  }

  ghost predicate IsOrder<T(!new)>(le: (T, T) -> bool) {
    && (forall x, y :: le(x, y) || le(y, x))
    && (forall x, y, z :: le(x, y) && le(y, z) ==> le(x, z))
  }

  ghost predicate Ascends<T>(s: seq<T>, le: (T, T) -> bool) {
    forall i, j :: 0 <= i < j < |s| ==> le(s[i], s[j])
  }

  lemma FirstAscends<T(!new)>(x: T, s: seq<T>, le: (T, T) -> bool)
    requires IsOrder(le) && Ascends(s, le) && (s != [] ==> le(x, s[0]))
    ensures Ascends([x] + s, le)
  {
    forall j | 0 <= j < |s| ensures le(x, s[j]) {
      if j > 0 {
        assert le(s[0], s[j]);
      }
    }
  }

  lemma InsertStarts<T>(sorted: seq<T>, x: T, le: (T, T) -> bool)
    ensures var r := Insert(sorted, x, le); r != [] && (r[0] == x || (sorted != [] && r[0] == sorted[0]))
  {
  }

  lemma {:induction false} InsertAscends<T(!new)>(sorted: seq<T>, x: T, le: (T, T) -> bool)
    requires IsOrder(le) && Ascends(sorted, le)
    ensures Ascends(Insert(sorted, x, le), le)
  {
    if sorted == [] || le(x, sorted[0]) {
      FirstAscends(x, sorted, le);
    } else {
      InsertAscends(sorted[1..], x, le);
      InsertStarts(sorted[1..], x, le);
      FirstAscends(sorted[0], Insert(sorted[1..], x, le), le);
    }
  }

  lemma {:induction false} SortAscends<T(!new)>(s: seq<T>, le: (T, T) -> bool)
    requires IsOrder(le)
    ensures Ascends(Sort(s, le), le)
  {
    if s != [] {
      SortAscends(s[1..], le);
      InsertAscends(Sort(s[1..], le), s[0], le);
    }
  }

  lemma {:induction false} InsertKeeps<T>(sorted: seq<T>, x: T, le: (T, T) -> bool)
    ensures multiset(Insert(sorted, x, le)) == multiset(sorted) + multiset{x}
  {
    if sorted != [] && !le(x, sorted[0]) {
      InsertKeeps(sorted[1..], x, le);
      assert sorted == [sorted[0]] + sorted[1..];
    }
  }

  lemma {:induction false} SortKeeps<T>(s: seq<T>, le: (T, T) -> bool)
    ensures multiset(Sort(s, le)) == multiset(s)
  {
    if s != [] {
      SortKeeps(s[1..], le);
      InsertKeeps(Sort(s[1..], le), s[0], le);
      assert s == [s[0]] + s[1..];
    }
  }
}
