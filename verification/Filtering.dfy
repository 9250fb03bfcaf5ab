/** Selecting rows of a table in id order. */
module Filtering {
  function Filter<T>(rows: seq<T>, keep: T -> bool): seq<T> {
    if rows == [] then []
    else Filter(rows[..|rows| - 1], keep) + (if keep(rows[|rows| - 1]) then [rows[|rows| - 1]] else [])
  }

  lemma {:induction false} FilterMembers<T>(rows: seq<T>, keep: T -> bool)
    ensures forall x :: x in Filter(rows, keep) <==> x in rows && keep(x)
  {
    if rows != [] {
      FilterMembers(rows[..|rows| - 1], keep);
      assert rows == rows[..|rows| - 1] + [rows[|rows| - 1]];
    }
  }

  lemma {:induction false} FilterNone<T>(rows: seq<T>, keep: T -> bool)
    requires forall x :: x in rows ==> !keep(x)
    ensures Filter(rows, keep) == []
  {
    if rows != [] {
      assert rows[|rows| - 1] in rows;
      FilterNone(rows[..|rows| - 1], keep);
    }
  }

  lemma {:induction false} FilterAgree<T>(rows: seq<T>, p: T -> bool, q: T -> bool)
    requires forall x :: x in rows ==> p(x) == q(x)
    ensures Filter(rows, p) == Filter(rows, q)
  {
    if rows != [] {
      assert rows[|rows| - 1] in rows;
      FilterAgree(rows[..|rows| - 1], p, q);
    }
  }

  /** A filter that keeps only rows of a coarser filter can be applied after it. */
  lemma {:induction false} FilterAfter<T>(rows: seq<T>, coarse: T -> bool, fine: T -> bool)
    requires forall x :: x in rows && fine(x) ==> coarse(x)
    ensures Filter(Filter(rows, coarse), fine) == Filter(rows, fine)
  {
    if rows != [] {
      var front, last := rows[..|rows| - 1], rows[|rows| - 1];
      assert last in rows;
      FilterAfter(front, coarse, fine);
      if coarse(last) {
        var kept := Filter(front, coarse) + [last];
        assert kept[..|kept| - 1] == Filter(front, coarse);
      } else {
        assert Filter(front, coarse) + [] == Filter(front, coarse);
      }
    }
  }

  lemma {:induction false} FilterAll<T>(rows: seq<T>, keep: T -> bool)
    requires forall x :: x in rows ==> keep(x)
    ensures Filter(rows, keep) == rows
  {
    if rows != [] {
      assert rows[|rows| - 1] in rows;
      FilterAll(rows[..|rows| - 1], keep);
    }
  }

  /** `kept` are the rows at some ascending places, and no other row is to be kept. */
  ghost predicate KeptAt<T>(rows: seq<T>, keep: T -> bool, kept: seq<T>, places: seq<nat>) {
    && |places| == |kept|
    && (forall i, j :: 0 <= i < j < |places| ==> places[i] < places[j])
    && (forall i :: 0 <= i < |places| ==> places[i] < |rows| && rows[places[i]] == kept[i])
    && (forall k :: 0 <= k < |rows| && keep(rows[k]) ==> exists i :: 0 <= i < |places| && places[i] == k)
  }

  lemma {:induction false} FilterPlaces<T>(rows: seq<T>, keep: T -> bool) returns (places: seq<nat>)
    ensures KeptAt(rows, keep, Filter(rows, keep), places)
  {
    if rows == [] {
      places := [];
    } else {
      hide KeptAt;
      var n := |rows| - 1;
      var front := FilterPlaces(rows[..n], keep);
      if keep(rows[n]) {
        OneMoreKept(rows, keep, Filter(rows[..n], keep), front);
        places := front + [n];
      } else {
        OneLessKept(rows, keep, Filter(rows[..n], keep), front);
        places := front;
      }
    }
  }

  lemma OneMoreKept<T>(rows: seq<T>, keep: T -> bool, kept: seq<T>, front: seq<nat>)
    requires rows != [] && KeptAt(rows[..|rows| - 1], keep, kept, front)
    ensures KeptAt(rows, keep, kept + [rows[|rows| - 1]], front + [|rows| - 1])
  {
    var n := |rows| - 1;
    var places := front + [n];
    forall k | 0 <= k < |rows| && keep(rows[k])
      ensures exists i :: 0 <= i < |places| && places[i] == k
    {
      if k < n {
        assert rows[..n][k] == rows[k];
        var i :| 0 <= i < |front| && front[i] == k;
        assert places[i] == k;
      } else {
        assert places[|front|] == k;
      }
    }
  }

  lemma OneLessKept<T>(rows: seq<T>, keep: T -> bool, kept: seq<T>, front: seq<nat>)
    requires rows != [] && KeptAt(rows[..|rows| - 1], keep, kept, front) && !keep(rows[|rows| - 1])
    ensures KeptAt(rows, keep, kept, front)
  {
    var n := |rows| - 1;
    assert forall k :: 0 <= k < n ==> rows[..n][k] == rows[k];
  }
}
