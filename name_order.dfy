/** `ORDER BY name`: the list handlers return the rows of a table sorted by
    name, ascending. Names are compared lexicographically by character code,
    which stands in for the database's collation. Since names are unique in
    each table, the sorted listing of a table is one and only one sequence.
 */
module NameOrder {
  import opened Schema

  /** `a` sorts no later than `b`: a prefix comes first, otherwise the first
      differing character decides. */
  predicate Le(a: string, b: string)
    decreases |a|
  {
    |a| == 0 || (|b| > 0 && (a[0] < b[0] || (a[0] == b[0] && Le(a[1..], b[1..]))))
  }

  /** `a` sorts strictly before `b`. */
  predicate Lt(a: string, b: string) {
    Le(a, b) && a != b
  }

  lemma {:induction false} LeReflexive(a: string)
    ensures Le(a, a)
    decreases |a|
  {
    if |a| > 0 {
      LeReflexive(a[1..]);
    }
  }

  lemma {:induction false} LeTotal(a: string, b: string)
    ensures Le(a, b) || Le(b, a)
    decreases |a|
  {
    if |a| > 0 && |b| > 0 && a[0] == b[0] {
      LeTotal(a[1..], b[1..]);
    }
  }

  lemma {:induction false} LeAntisymmetric(a: string, b: string)
    requires Le(a, b) && Le(b, a)
    ensures a == b
    decreases |a|
  {
    if |a| > 0 {
      LeAntisymmetric(a[1..], b[1..]);
      assert a == [a[0]] + a[1..];
      assert b == [b[0]] + b[1..];
    }
  }

  lemma {:induction false} LeTransitive(a: string, b: string, c: string)
    requires Le(a, b) && Le(b, c)
    ensures Le(a, c)
    decreases |a|
  {
    if |a| > 0 && a[0] == b[0] && b[0] == c[0] {
      LeTransitive(a[1..], b[1..], c[1..]);
    }
  }

  /** Every row of `t` is stored under its own id and no two rows share a name. */
  ghost predicate Keyed<R>(t: map<Id, R>, idOf: R -> Id, nameOf: R -> string) {
    && (forall k :: k in t ==> idOf(t[k]) == k)
    && (forall j, k :: j in t && k in t && nameOf(t[j]) == nameOf(t[k]) ==> j == k)
  }

  /** `rows` is exactly the set of rows of `t`, each once, sorted by name
      ascending. */
  ghost predicate IsSortedListing<R>(rows: seq<R>, t: map<Id, R>, idOf: R -> Id, nameOf: R -> string) {
    && |rows| == |t|
    && (forall i :: 0 <= i < |rows| ==> idOf(rows[i]) in t && t[idOf(rows[i])] == rows[i])
    && (forall k :: k in t ==> t[k] in rows)
    && (forall i, j :: 0 <= i < j < |rows| ==> Lt(nameOf(rows[i]), nameOf(rows[j])))
  }

  /** `k` holds the smallest name of `t`. */
  predicate IsFirst<R>(t: map<Id, R>, nameOf: R -> string, k: Id) {
    k in t && forall j :: j in t ==> Le(nameOf(t[k]), nameOf(t[j]))
  }

  lemma {:induction false} FirstExists<R>(t: map<Id, R>, nameOf: R -> string)
    requires |t| > 0
    ensures exists k :: IsFirst(t, nameOf, k)
    decreases |t|
  {
    var j :| j in t;
    var rest := t - {j};
    assert rest.Keys == t.Keys - {j};
    if |rest| == 0 {
      assert t.Keys <= {j};
      LeReflexive(nameOf(t[j]));
      assert IsFirst(t, nameOf, j);
    } else {
      FirstExists(rest, nameOf);
      var k :| IsFirst(rest, nameOf, k);
      LeTotal(nameOf(t[j]), nameOf(t[k]));
      if Le(nameOf(t[j]), nameOf(t[k])) {
        forall i | i in t
          ensures Le(nameOf(t[j]), nameOf(t[i]))
        {
          if i == j {
            LeReflexive(nameOf(t[j]));
          } else {
            assert i in rest;
            LeTransitive(nameOf(t[j]), nameOf(t[k]), nameOf(t[i]));
          }
        }
        assert IsFirst(t, nameOf, j);
      } else {
        forall i | i in t
          ensures Le(nameOf(t[k]), nameOf(t[i]))
        {
          if i != j {
            assert i in rest;
          }
        }
        assert IsFirst(t, nameOf, k);
      }
    }
  }

  /** With unique names, only one key holds the smallest name. */
  lemma FirstUnique<R>(t: map<Id, R>, nameOf: R -> string)
    requires forall j, k :: j in t && k in t && nameOf(t[j]) == nameOf(t[k]) ==> j == k
    ensures forall j, k :: IsFirst(t, nameOf, j) && IsFirst(t, nameOf, k) ==> j == k
  {
    forall j, k | IsFirst(t, nameOf, j) && IsFirst(t, nameOf, k)
      ensures j == k
    {
      LeAntisymmetric(nameOf(t[j]), nameOf(t[k]));
    }
  }

  /** The rows of `t` sorted by name: what `SELECT * ... ORDER BY name` returns. */
  function SortedRows<R>(t: map<Id, R>, idOf: R -> Id, nameOf: R -> string): (rows: seq<R>)
    requires Keyed(t, idOf, nameOf)
    ensures IsSortedListing(rows, t, idOf, nameOf)
    decreases |t|
  {
    if |t| == 0 then []
    else
      FirstExists(t, nameOf);
      FirstUnique(t, nameOf);
      var k :| IsFirst(t, nameOf, k);
      var rest := t - {k};
      assert rest.Keys == t.Keys - {k};
      var tail := SortedRows(rest, idOf, nameOf);
      SortedRowsPrepend(t, idOf, nameOf, k, tail);
      [t[k]] + tail
  }

  /** Putting the row with the smallest name in front of a sorted listing of
      the other rows gives a sorted listing of the whole table. */
  lemma SortedRowsPrepend<R>(t: map<Id, R>, idOf: R -> Id, nameOf: R -> string, k: Id, tail: seq<R>)
    requires Keyed(t, idOf, nameOf)
    requires IsFirst(t, nameOf, k)
    requires IsSortedListing(tail, t - {k}, idOf, nameOf)
    ensures IsSortedListing([t[k]] + tail, t, idOf, nameOf)
  {
    var rest := t - {k};
    assert rest.Keys == t.Keys - {k};
    PrependRowsInTable(t, idOf, nameOf, k, tail);
    PrependCovers(t, idOf, nameOf, k, tail);
    PrependSorted(t, idOf, nameOf, k, tail);
  }

  lemma PrependRowsInTable<R>(t: map<Id, R>, idOf: R -> Id, nameOf: R -> string, k: Id, tail: seq<R>)
    requires k in t && idOf(t[k]) == k
    requires forall i :: 0 <= i < |tail| ==> idOf(tail[i]) in t - {k} && (t - {k})[idOf(tail[i])] == tail[i]
    ensures forall i :: 0 <= i < |[t[k]] + tail| ==> idOf(([t[k]] + tail)[i]) in t && t[idOf(([t[k]] + tail)[i])] == ([t[k]] + tail)[i]
  {
  }

  lemma PrependCovers<R>(t: map<Id, R>, idOf: R -> Id, nameOf: R -> string, k: Id, tail: seq<R>)
    requires k in t
    requires forall j :: j in t - {k} ==> (t - {k})[j] in tail
    ensures forall j :: j in t ==> t[j] in [t[k]] + tail
  {
    forall j | j in t
      ensures t[j] in [t[k]] + tail
    {
      if j != k {
        assert j in t - {k};
      }
    }
  }

  lemma PrependSorted<R>(t: map<Id, R>, idOf: R -> Id, nameOf: R -> string, k: Id, tail: seq<R>)
    requires Keyed(t, idOf, nameOf)
    requires IsFirst(t, nameOf, k)
    requires forall i :: 0 <= i < |tail| ==> idOf(tail[i]) in t - {k} && (t - {k})[idOf(tail[i])] == tail[i]
    requires forall i, j :: 0 <= i < j < |tail| ==> Lt(nameOf(tail[i]), nameOf(tail[j]))
    ensures forall i, j :: 0 <= i < j < |[t[k]] + tail| ==> Lt(nameOf(([t[k]] + tail)[i]), nameOf(([t[k]] + tail)[j]))
  {
  }

  /** A sorted listing is determined by the table alone: whatever order the
      rows were inserted in, listing the table gives the same sequence. */
  lemma {:induction false} SortedListingUnique<R>(a: seq<R>, b: seq<R>, t: map<Id, R>, idOf: R -> Id, nameOf: R -> string)
    requires Keyed(t, idOf, nameOf)
    requires IsSortedListing(a, t, idOf, nameOf)
    requires IsSortedListing(b, t, idOf, nameOf)
    ensures a == b
    decreases |t|
  {
    if |t| > 0 {
      var ka := idOf(a[0]);
      assert ka == idOf(b[0]) && a[0] == b[0] by {
        FirstOfListing(a, t, idOf, nameOf);
        FirstOfListing(b, t, idOf, nameOf);
        LeAntisymmetric(nameOf(t[ka]), nameOf(t[idOf(b[0])]));
      }
      TailIsListing(a, t, idOf, nameOf);
      TailIsListing(b, t, idOf, nameOf);
      assert |t - {ka}| < |t| by {
        assert (t - {ka}).Keys == t.Keys - {ka};
      }
      SortedListingUnique(a[1..], b[1..], t - {ka}, idOf, nameOf);
      HeadTailEqual(a, b);
    }
  }

  /** Two non-empty sequences with equal heads and equal tails are equal. */
  lemma HeadTailEqual<R>(a: seq<R>, b: seq<R>)
    requires |a| > 0 && |b| > 0 && a[0] == b[0] && a[1..] == b[1..]
    ensures a == b
  {
  }

  /** The first row of a sorted listing holds the smallest name. */
  lemma FirstOfListing<R>(a: seq<R>, t: map<Id, R>, idOf: R -> Id, nameOf: R -> string)
    requires |a| > 0
    requires IsSortedListing(a, t, idOf, nameOf)
    ensures IsFirst(t, nameOf, idOf(a[0])) && t[idOf(a[0])] == a[0]
  {
    forall j | j in t
      ensures Le(nameOf(a[0]), nameOf(t[j]))
    {
      assert t[j] in a;
      var i :| 0 <= i < |a| && a[i] == t[j];
      if i == 0 {
        LeReflexive(nameOf(a[0]));
      }
    }
  }

  /** Dropping the first row of a sorted listing lists the rest of the table. */
  lemma TailIsListing<R>(a: seq<R>, t: map<Id, R>, idOf: R -> Id, nameOf: R -> string)
    requires |a| > 0
    requires Keyed(t, idOf, nameOf)
    requires IsSortedListing(a, t, idOf, nameOf)
    ensures Keyed(t - {idOf(a[0])}, idOf, nameOf)
    ensures IsSortedListing(a[1..], t - {idOf(a[0])}, idOf, nameOf)
  {
  }
}
