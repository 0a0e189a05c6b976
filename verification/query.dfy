/**
 * The two table queries the routes use, over a table held as a sequence of
 * rows in table order: `findFirst` and `findMany` with a `where` filter.
 */
module Query {
  import opened Wrappers

  /** `findFirst({where})`: the index of the first row that satisfies `where`. */
  function FindFirst<T>(rows: seq<T>, where: T -> bool): (r: Option<nat>)
    ensures r.Some? ==> r.value < |rows| && where(rows[r.value])
    ensures r.Some? ==> forall j :: 0 <= j < r.value ==> !where(rows[j])
    ensures r.None? ==> forall j :: 0 <= j < |rows| ==> !where(rows[j])
  {
    if rows == [] then None
    else if where(rows[0]) then Some(0)
    else match FindFirst(rows[1..], where)
      case None => None
      case Some(k) => Some(k + 1)
  }

  /** `findMany({where})`: the rows that satisfy `where`, each as often as it occurs. */
  function FindMany<T(==,!new)>(rows: seq<T>, where: T -> bool): (r: seq<T>)
    ensures forall x :: x in r <==> x in rows && where(x)
    ensures forall x :: multiset(r)[x] == if where(x) then multiset(rows)[x] else 0
  {
    if rows == [] then []
    else
      var n := |rows| - 1;
      assert rows == rows[..n] + [rows[n]];
      var init := FindMany(rows[..n], where);
      if where(rows[n]) then init + [rows[n]] else init
  }

  /** The positions of the rows that satisfy `where`. */
  ghost function Matching<T>(rows: seq<T>, where: T -> bool): set<nat> {
    set i: nat | i < |rows| && where(rows[i])
  }

  /** A `findMany` result has one element per matching row. */
  lemma {:induction false} FindManySize<T(!new)>(rows: seq<T>, where: T -> bool)
    ensures |FindMany(rows, where)| == |Matching(rows, where)|
  {
    if rows != [] {
      var n := |rows| - 1;
      FindManySize(rows[..n], where);
      MatchingSnoc(rows, where);
      var init := FindMany(rows[..n], where);
      assert FindMany(rows, where) == if where(rows[n]) then init + [rows[n]] else init;
    }
  }

  /** Matching positions of a table grow by the last row's position when it matches. */
  lemma MatchingSnoc<T>(rows: seq<T>, where: T -> bool)
    requires rows != []
    ensures var n := |rows| - 1;
      |Matching(rows, where)| == |Matching(rows[..n], where)| + if where(rows[n]) then 1 else 0
  {
    var n := |rows| - 1;
    var before := Matching(rows[..n], where);
    var after := if where(rows[n]) then before + {n} else before;
    assert n !in before;
    forall i: nat
      ensures i in Matching(rows, where) <==> i in after
    {
      if i < n {
        assert rows[..n][i] == rows[i];
      }
    }
    assert Matching(rows, where) == after;
  }

  /** Listing the same rows in another order changes only the order of a `findMany` result. */
  lemma FindManyPermutation<T(!new)>(rows: seq<T>, others: seq<T>, where: T -> bool)
    requires multiset(rows) == multiset(others)
    ensures multiset(FindMany(rows, where)) == multiset(FindMany(others, where))
  {
  }
}
