/** The name score of sanctions screening in terms of edits (fuzzyNameMatch in compliance_engine.go). */
module NameMatching {
  import opened Sets
  import opened EditDistance

  /** Two name parts are near exactly if at most two edits turn one into the other. */
  lemma NearMeans(x: string, y: string)
    ensures Near(x, y) <==> exists script :: |script| <= 2 && Rewrites(script, x, y)
  {
    LevIsLeast(x, y);
    LevIsMetric(x, y, y);
    var script := ScriptOfLength(x, |x|, y, |y|);
    assert x[..|x|] == x && y[..|y|] == y;
    if Near(x, y) {
      assert |script| <= 2;
    }
  }

  /** The places of the query parts that are near some candidate part. */
  ghost function NearPlaces(xs: seq<string>, ys: seq<string>, n: nat): set<nat>
    requires n <= |xs|
  {
    set i: nat | i < n && exists j :: 0 <= j < |ys| && Near(xs[i], ys[j])
  }

  lemma HasNearMeans(x: string, ys: seq<string>)
    ensures HasNear(x, ys) <==> exists j :: 0 <= j < |ys| && Near(x, ys[j])
  {
    hide Near;
    if HasNear(x, ys) {
      var y :| y in ys && Near(x, y);
      var j :| 0 <= j < |ys| && ys[j] == y;
    }
  }

  /** The count behind the score is the number of query parts with a near candidate part. */
  lemma {:induction false} NearCountMeans(xs: seq<string>, ys: seq<string>)
    ensures NearCount(xs, ys) == |NearPlaces(xs, ys, |xs|)|
  {
    hide Near, HasNear;
    if xs == [] {
      assert NearPlaces(xs, ys, 0) == {};
    } else {
      var n: nat := |xs| - 1;
      NearCountMeans(xs[..n], ys);
      HasNearMeans(xs[n], ys);
      assert NearPlaces(xs[..n], ys, n) == NearPlaces(xs, ys, n) by { SamePlaces(xs, ys, n); }
      assert NearPlaces(xs, ys, n + 1) == if HasNear(xs[n], ys) then NearPlaces(xs, ys, n) + {n} else NearPlaces(xs, ys, n);
    }
  }

  lemma SamePlaces(xs: seq<string>, ys: seq<string>, n: nat)
    requires n <= |xs|
    ensures NearPlaces(xs[..n], ys, n) == NearPlaces(xs, ys, n)
  {
    hide Near;
    assert forall i :: 0 <= i < n ==> xs[..n][i] == xs[i];
  }
}
