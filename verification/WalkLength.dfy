/** How many pages a cursor walk takes once the table stops changing. */
module WalkLength {
  import opened PageToken
  import opened Paging
  import opened Wrappers

  /** The same view on n pages. */
  function Still<T>(v: View<T>, n: nat): seq<View<T>> {
    seq(n, _ => v)
  }

  lemma {:induction false} AscendingUnique<T(!new)>(a: seq<Row<T>>, b: seq<Row<T>>)
    requires Ascending(a) && Ascending(b) && SameRows(a, b)
    ensures a == b
    decreases |a|
  {
    if a == [] {
      assert forall i :: 0 <= i < |b| ==> b[i] in b;
    } else {
      assert a[0] in a;
      assert a[0] in b && b[0] in b;
      assert b[0] in a;
      assert a[0] == b[0];
      RestSame(a, b);
      AscendingUnique(a[1..], b[1..]);
      assert a == [a[0]] + a[1..] && b == [b[0]] + b[1..];
    }
  }

  lemma RestSame<T(!new)>(a: seq<Row<T>>, b: seq<Row<T>>)
    requires Ascending(a) && Ascending(b) && SameRows(a, b) && a != [] && b != [] && a[0] == b[0]
    ensures SameRows(a[1..], b[1..])
  {
    forall row
      ensures row in a[1..] <==> row in b[1..]
    {
      RestHas(a, row);
      RestHas(b, row);
    }
  }

  lemma RestHas<T(!new)>(a: seq<Row<T>>, row: Row<T>)
    requires Ascending(a) && a != []
    ensures row in a[1..] <==> row in a && row != a[0]
  {
    if row in a && row != a[0] {
      var k :| 0 <= k < |a| && a[k] == row;
      assert a[1..][k - 1] == row;
    }
    if row in a[1..] {
      var k :| 0 <= k < |a[1..]| && a[1..][k] == row;
      assert a[k + 1] == row && Before(a[0].key, a[k + 1].key);
    }
  }

  /** Past the last row of a page lies exactly the rest. */
  lemma RestSelected<T(!new)>(v: View<T>, cursor: Option<Key>, size: nat)
    requires UniqueIds(v.table) && size > 0
    ensures var all := Selected(v.table, v.filter, cursor);
            |all| > size ==> Selected(v.table, v.filter, Some(all[size - 1].key)) == all[size..]
  {
    var all := Selected(v.table, v.filter, cursor);
    SelectedRows(v.table, v.filter, cursor);
    if |all| > size {
      var last := Some(all[size - 1].key);
      var rest := Selected(v.table, v.filter, last);
      SelectedRows(v.table, v.filter, last);
      hide Selected, UniqueIds;
      assert all[size - 1] in all;
      assert Past(last.value, cursor);
      TailPast(all, size);
      forall row
        ensures row in rest <==> row in all[size..]
      {
        assert row in rest ==> Past(row.key, cursor);
      }
      AscendingUnique(rest, all[size..]);
    }
  }

  lemma TailPast<T(!new)>(all: seq<Row<T>>, size: nat)
    requires Ascending(all) && 0 < size < |all|
    ensures Ascending(all[size..])
    ensures forall row :: row in all[size..] <==> row in all && Before(all[size - 1].key, row.key)
  {
    forall row
      ensures row in all[size..] <==> row in all && Before(all[size - 1].key, row.key)
    {
      if row in all && Before(all[size - 1].key, row.key) {
        var k :| 0 <= k < |all| && all[k] == row;
        assert k >= size;
        assert all[size..][k - size] == row;
      }
      if row in all[size..] {
        var k :| 0 <= k < |all[size..]| && all[size..][k] == row;
        assert all[size + k] == row;
      }
    }
  }

  /** What n pages can hold. */
  function Capacity(n: nat, size: nat): nat {
    n * size
  }

  lemma PageCount(n: nat, size: nat)
    requires n > 0
    ensures Capacity(n, size) == Capacity(n - 1, size) + size
    ensures Capacity(0, size) == 0
  {}

  /** The first of n pages. */
  lemma StillStep<T(!new)>(v: View<T>, cursor: Option<Key>, size: nat, sep: char, n: nat)
    requires size > 0 && IsSeparator(sep) && UniqueIds(v.table) && InRange(v.table) && n > 0
    ensures var all := Selected(v.table, v.filter, cursor);
            && (|all| <= size ==>
                  Finished(Still(v, n), cursor, size, sep) && Walk(Still(v, n), cursor, size, sep) == all)
            && (|all| > size ==>
                  var next := Some(all[size - 1].key);
                  && (Finished(Still(v, n), cursor, size, sep) <==> Finished(Still(v, n - 1), next, size, sep))
                  && Walk(Still(v, n), cursor, size, sep) == all[..size] + Walk(Still(v, n - 1), next, size, sep))
  {
    hide Selected, UniqueIds, InRange, Resume;
    assert Still(v, n)[0] == v && Still(v, n)[1..] == Still(v, n - 1);
    if |Selected(v.table, v.filter, cursor)| > size {
      NextResumes(v, cursor, size, sep);
    }
  }

  /** On a table that does not change, n pages are enough exactly when they hold all the rows past the cursor;
      the walk then delivers these, in the query's order. */
  lemma {:induction false} StillWalk<T(!new)>(v: View<T>, cursor: Option<Key>, size: nat, sep: char, n: nat)
    requires size > 0 && IsSeparator(sep) && UniqueIds(v.table) && InRange(v.table)
    ensures var all := Selected(v.table, v.filter, cursor);
            && (Finished(Still(v, n), cursor, size, sep) <==> n > 0 && |all| <= Capacity(n, size))
            && (n > 0 && |all| <= Capacity(n, size) ==> Walk(Still(v, n), cursor, size, sep) == all)
    decreases n
  {
    hide *;
    NoPages(v, cursor, size, sep);
    if n > 0 {
      var all := Selected(v.table, v.filter, cursor);
      StillStep(v, cursor, size, sep, n);
      PageCount(n, size);
      if |all| > size {
        RestSelected(v, cursor, size);
        StillWalk(v, Some(all[size - 1].key), size, sep, n - 1);
        PageCount(1, size);
        assert all[..size] + all[size..] == all;
      }
    }
  }

  lemma NoPages<T(!new)>(v: View<T>, cursor: Option<Key>, size: nat, sep: char)
    requires size > 0
    ensures !Finished(Still(v, 0), cursor, size, sep)
  {}

  lemma {:induction false} MatchingShrinks<T>(table: seq<Row<T>>, filter: Row<T> -> bool, cursor: Option<Key>)
    ensures |Matching(table, filter, cursor)| <= |Matching(table, filter, None)|
  {
    if table != [] {
      MatchingShrinks(table[..|table| - 1], filter, cursor);
    }
  }

  lemma {:induction false} OrderedLength<T>(rows: seq<Row<T>>)
    ensures |Ordered(rows)| == |rows|
  {
    if rows != [] {
      OrderedLength(rows[1..]);
      InsertLength(rows[0], Ordered(rows[1..]));
    }
  }

  lemma {:induction false} InsertLength<T>(row: Row<T>, sorted: seq<Row<T>>)
    ensures |Insert(row, sorted)| == |sorted| + 1
  {
    if sorted != [] && !Before(row.key, sorted[0].key) {
      InsertLength(row, sorted[1..]);
    }
  }

  lemma SelectedShrinks<T>(v: View<T>, cursor: Option<Key>)
    ensures |Selected(v.table, v.filter, cursor)| <= |Selected(v.table, v.filter, None)|
  {
    hide Matching, Ordered;
    MatchingShrinks(v.table, v.filter, cursor);
    OrderedLength(Matching(v.table, v.filter, cursor));
    OrderedLength(Matching(v.table, v.filter, None));
  }

  /** However the table and the condition change on the first pages, a walk ends once they stop changing: as soon as
      the pages after could hold the whole result. */
  lemma {:induction false} WalkEnds<T(!new)>(views: seq<View<T>>, rest: View<T>, n: nat, cursor: Option<Key>, size: nat,
                                             sep: char)
    requires size > 0 && IsSeparator(sep) && Keyed(views + Still(rest, n)) && n > 0
    requires |Selected(rest.table, rest.filter, None)| <= Capacity(n, size)
    ensures Finished(views + Still(rest, n), cursor, size, sep)
    decreases |views|
  {
    hide PageOf, InRange, UniqueIds, Resume, Selected, Capacity, Still;
    var all := views + Still(rest, n);
    if views == [] {
      StillKeyed(rest, n);
      assert all == Still(rest, n);
      SelectedShrinks(rest, cursor);
      StillWalk(rest, cursor, size, sep, n);
    } else {
      var page := PageAt(all[0], cursor, size);
      if page.hasMore {
        NextResumes(all[0], cursor, size, sep);
        assert all[1..] == views[1..] + Still(rest, n);
        WalkEnds(views[1..], rest, n, page.next, size, sep);
      }
    }
  }

  lemma StillKeyed<T(!new)>(v: View<T>, n: nat)
    requires n > 0 && Keyed([] + Still(v, n))
    ensures UniqueIds(v.table) && InRange(v.table)
  {
    assert ([] + Still(v, n))[0] == v;
  }
}
