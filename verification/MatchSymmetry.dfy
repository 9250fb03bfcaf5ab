/** How much the greedy score of matchFingerprints (biometric_engine.go) depends on the direction of the
    comparison and on the order in which the minutiae are listed. */
module MatchSymmetry {
  import opened Sets
  import opened FingerprintMatch

  // ---------------------------------------------------------------------------------------
  // The cost is symmetric.
  // ---------------------------------------------------------------------------------------

  lemma CostIsSymmetric(sqrt: real -> real, m: Minutia, n: Minutia)
    ensures Cost(sqrt, m, n) == Cost(sqrt, n, m)
    ensures Near(sqrt, m, n) == Near(sqrt, n, m)
    ensures Compatible(sqrt, m, n) == Compatible(sqrt, n, m)
  {
    SquareOfOpposite((m.x - n.x) as real);
    SquareOfOpposite((m.y - n.y) as real);
    hide Square;
    assert (n.x - m.x) as real == -((m.x - n.x) as real);
    assert (n.y - m.y) as real == -((m.y - n.y) as real);
    assert Distance(sqrt, m, n) == Distance(sqrt, n, m);
    assert AngleGap(m, n) == AngleGap(n, m);
  }

  lemma SquareOfOpposite(x: real)
    ensures Square(-x) == Square(x)
  {
    assert (-x) * (-x) == x * x;
  }

  // ---------------------------------------------------------------------------------------
  // Matchings as lists of pairs.
  // ---------------------------------------------------------------------------------------

  ghost predicate Distinct(s: seq<int>) { forall i, j :: 0 <= i < j < |s| ==> s[i] != s[j] }

  /** The pairs (rows[k], cols[k]) are a matching. */
  ghost predicate ArePairs(sqrt: real -> real, a: seq<Minutia>, b: seq<Minutia>, rows: seq<int>, cols: seq<int>) {
    && |rows| == |cols| && Distinct(rows) && Distinct(cols)
    && forall k :: 0 <= k < |rows| ==> 0 <= rows[k] < |a| && 0 <= cols[k] < |b| && Compatible(sqrt, a[rows[k]], b[cols[k]])
  }

  /** The pairs of the first `n` picks. */
  lemma {:induction false} PairsOf(sqrt: real -> real, a: seq<Minutia>, b: seq<Minutia>, pick: seq<int>, n: nat)
    returns (rows: seq<int>, cols: seq<int>)
    requires IsMatching(sqrt, a, b, pick) && n <= |pick|
    ensures ArePairs(sqrt, a, b, rows, cols)
    ensures forall k :: 0 <= k < |rows| ==> rows[k] < n && cols[k] == pick[rows[k]]
    ensures |rows| == |MatchedRows(pick[..n])|
  {
    hide Compatible;
    if n == 0 {
      rows, cols := [], [];
    } else {
      rows, cols := PairsOf(sqrt, a, b, pick, n - 1);
      var front, last := MatchedRows(pick[..n - 1]), n - 1;
      assert forall k :: 0 <= k < last ==> pick[..n][k] == pick[..n - 1][k];
      if pick[last] >= 0 {
        rows, cols := rows + [last], cols + [pick[last]];
        assert MatchedRows(pick[..n]) == front + {last};
      } else {
        assert MatchedRows(pick[..n]) == front;
      }
    }
  }

  lemma {:induction false} MatchingOf(sqrt: real -> real, a: seq<Minutia>, b: seq<Minutia>, rows: seq<int>, cols: seq<int>)
    returns (q: seq<int>)
    requires ArePairs(sqrt, a, b, rows, cols)
    ensures IsMatching(sqrt, a, b, q) && |MatchedRows(q)| == |rows|
    ensures forall i :: 0 <= i < |q| && i !in rows ==> q[i] == -1
    ensures forall i :: 0 <= i < |q| && q[i] >= 0 ==> q[i] in cols
  {
    hide Compatible, IsMatching, Distinct;
    if rows == [] {
      q := seq(|a|, _ => -1);
      NoPairs(sqrt, a, b, q);
    } else {
      var n := |rows| - 1;
      FewerPairs(sqrt, a, b, rows, cols);
      var front := MatchingOf(sqrt, a, b, rows[..n], cols[..n]);
      MatchingLength(sqrt, a, b, front);
      q := front[rows[n] := cols[n]];
      OneMorePair(sqrt, a, b, front, rows[n], cols[n]);
      assert rows == rows[..n] + [rows[n]] && cols == cols[..n] + [cols[n]];
    }
  }

  lemma NoPairs(sqrt: real -> real, a: seq<Minutia>, b: seq<Minutia>, q: seq<int>)
    requires q == seq(|a|, _ => -1)
    ensures IsMatching(sqrt, a, b, q) && MatchedRows(q) == {}
  {
  }

  lemma MatchingLength(sqrt: real -> real, a: seq<Minutia>, b: seq<Minutia>, q: seq<int>)
    requires IsMatching(sqrt, a, b, q)
    ensures |q| == |a|
  {
  }

  lemma FewerPairs(sqrt: real -> real, a: seq<Minutia>, b: seq<Minutia>, rows: seq<int>, cols: seq<int>)
    requires ArePairs(sqrt, a, b, rows, cols) && rows != []
    ensures var n := |rows| - 1;
      ArePairs(sqrt, a, b, rows[..n], cols[..n]) && rows[n] !in rows[..n] && cols[n] !in cols[..n]
      && 0 <= rows[n] < |a| && 0 <= cols[n] < |b| && Compatible(sqrt, a[rows[n]], b[cols[n]])
  {
    hide Compatible;
  }

  lemma OneMorePair(sqrt: real -> real, a: seq<Minutia>, b: seq<Minutia>, front: seq<int>, r: int, c: int)
    requires IsMatching(sqrt, a, b, front) && 0 <= r < |a| && 0 <= c < |b| && Compatible(sqrt, a[r], b[c])
    requires front[r] == -1 && forall i :: 0 <= i < |front| ==> front[i] != c
    ensures IsMatching(sqrt, a, b, front[r := c]) && |MatchedRows(front[r := c])| == |MatchedRows(front)| + 1
  {
    hide Compatible;
    assert MatchedRows(front[r := c]) == MatchedRows(front) + {r};
  }

  /** The pairs of a matching, listed the other way round, are a matching of the same size. */
  lemma Reversed(sqrt: real -> real, a: seq<Minutia>, b: seq<Minutia>, q: seq<int>) returns (r: seq<int>)
    requires IsMatching(sqrt, a, b, q)
    ensures IsMatching(sqrt, b, a, r) && |MatchedRows(r)| == |MatchedRows(q)|
  {
    var rows, cols := PairsOf(sqrt, a, b, q, |q|);
    assert q[..|q|] == q;
    forall k | 0 <= k < |rows|
      ensures Compatible(sqrt, b[cols[k]], a[rows[k]])
    {
      CostIsSymmetric(sqrt, a[rows[k]], b[cols[k]]);
    }
    r := MatchingOf(sqrt, b, a, cols, rows);
  }

  lemma GreedyIsMatching(sqrt: real -> real, a: seq<Minutia>, b: seq<Minutia>, pick: seq<int>)
    requires IsGreedy(sqrt, a, b, pick) && |pick| == |a|
    ensures IsMatching(sqrt, a, b, pick) && |MatchedRows(pick)| == |Used(pick)|
  {
    PicksAreInjective(sqrt, a, b, pick);
    MatchedCount(sqrt, a, b, pick);
    forall i | 0 <= i < |pick| && pick[i] >= 0
      ensures Compatible(sqrt, a[i], b[pick[i]])
    {
      assert IsBest(sqrt, a[i], b, Used(pick[..i]), pick[i]);
    }
  }

  /** The two directions never differ by more than a factor of two. */
  lemma DirectionsWithinFactorTwo(sqrt: real -> real, a: seq<Minutia>, b: seq<Minutia>, p: seq<int>, q: seq<int>)
    requires IsGreedy(sqrt, a, b, p) && |p| == |a|
    requires IsGreedy(sqrt, b, a, q) && |q| == |b|
    ensures |Used(p)| <= 2 * |Used(q)| && |Used(q)| <= 2 * |Used(p)|
  {
    hide IsGreedy, IsMatching;
    GreedyIsMatching(sqrt, a, b, p);
    GreedyIsMatching(sqrt, b, a, q);
    var forth := Reversed(sqrt, a, b, p);
    var back := Reversed(sqrt, b, a, q);
    GreedyIsHalfOptimal(sqrt, b, a, q, forth);
    GreedyIsHalfOptimal(sqrt, a, b, p, back);
  }

  // ---------------------------------------------------------------------------------------
  // When greedy is optimal.
  // ---------------------------------------------------------------------------------------

  /** A minutia `m` with two compatible partners `n` and `o`, of which another minutia `l` can use only
      `n`, is closer to `o`. */
  ghost predicate Orderly(sqrt: real -> real, a: seq<Minutia>, b: seq<Minutia>) {
    forall m, l, n, o :: m in a && l in a && n in b && o in b && Contested(sqrt, m, l, n, o) ==> Cost(sqrt, m, o) < Cost(sqrt, m, n)
  }

  ghost predicate Contested(sqrt: real -> real, m: Minutia, l: Minutia, n: Minutia, o: Minutia) {
    Compatible(sqrt, m, n) && Compatible(sqrt, m, o) && Compatible(sqrt, l, n) && !Compatible(sqrt, l, o)
  }

  /** Row `i` is matched although a partner of its own stays free. */
  ghost predicate Wasteful(sqrt: real -> real, a: seq<Minutia>, b: seq<Minutia>, pick: seq<int>, i: int) {
    && 0 <= i < |pick| <= |a| && pick[i] >= 0
    && exists j :: 0 <= j < |b| && j !in Used(pick) && Compatible(sqrt, a[i], b[j])
  }

  /** Whoever could use the partner of a wasteful row is wasteful too. */
  lemma WasteSpreads(sqrt: real -> real, a: seq<Minutia>, b: seq<Minutia>, pick: seq<int>, i: int, l: int)
    requires Orderly(sqrt, a, b) && IsGreedy(sqrt, a, b, pick) && |pick| == |a|
    requires Wasteful(sqrt, a, b, pick, i) && 0 <= l < |a| && pick[i] < |b| && Compatible(sqrt, a[l], b[pick[i]])
    ensures Wasteful(sqrt, a, b, pick, l)
  {
    hide Compatible, Cost, Orderly;
    var j :| 0 <= j < |b| && j !in Used(pick) && Compatible(sqrt, a[i], b[j]);
    CompatibleIsNear(sqrt, a[i], b[j]);
    assert IsBest(sqrt, a[i], b, Used(pick[..i]), pick[i]);
    assert j !in Used(pick[..i]) by { UsedOfPrefix(pick, i); }
    if !Compatible(sqrt, a[l], b[j]) {
      OrderlyAt(sqrt, a, b, a[i], a[l], b[pick[i]], b[j]);
    }
    GreedyIsMaximal(sqrt, a, b, pick, l, j);
  }

  lemma OrderlyAt(sqrt: real -> real, a: seq<Minutia>, b: seq<Minutia>, m: Minutia, l: Minutia, n: Minutia, o: Minutia)
    requires Orderly(sqrt, a, b) && m in a && l in a && n in b && o in b
    requires Compatible(sqrt, m, n) && Compatible(sqrt, m, o) && Compatible(sqrt, l, n) && !Compatible(sqrt, l, o)
    ensures Cost(sqrt, m, o) < Cost(sqrt, m, n)
  {
    hide Compatible, Cost;
    assert Contested(sqrt, m, l, n, o);
  }

  lemma CompatibleIsNear(sqrt: real -> real, m: Minutia, n: Minutia)
    requires Compatible(sqrt, m, n)
    ensures Near(sqrt, m, n)
  {
  }

  lemma UsedOfPrefix(pick: seq<int>, i: nat)
    requires i <= |pick|
    ensures Used(pick[..i]) <= Used(pick)
  {
    forall x | x in Used(pick[..i])
      ensures x in Used(pick)
    {
      var k :| 0 <= k < i && pick[..i][k] == x;
      assert pick[k] == x;
    }
  }

  /** The row that holds partner `j`. */
  lemma OwnerOf(pick: seq<int>, j: int) returns (i: int)
    requires j in Used(pick)
    ensures 0 <= i < |pick| && pick[i] == j
  {
    i :| 0 <= i < |pick| && pick[i] >= 0 && pick[i] == j;
  }

  /** Row `i` of a matching `q` is charged to a greedily matched row: to itself if that is wasteful, and
      otherwise to the row that holds its partner. */
  ghost predicate Charged(sqrt: real -> real, a: seq<Minutia>, b: seq<Minutia>, pick: seq<int>, q: seq<int>, i: int, to: int)
    requires 0 <= i < |q|
  {
    && to in MatchedRows(pick)
    && if Wasteful(sqrt, a, b, pick, i) then to == i else !Wasteful(sqrt, a, b, pick, to) && pick[to] == q[i]
  }

  lemma ChargeOf(sqrt: real -> real, a: seq<Minutia>, b: seq<Minutia>, pick: seq<int>, q: seq<int>, i: int) returns (to: int)
    requires Orderly(sqrt, a, b) && IsGreedy(sqrt, a, b, pick) && |pick| == |a| && IsMatching(sqrt, a, b, q)
    requires i in MatchedRows(q)
    ensures Charged(sqrt, a, b, pick, q, i, to)
  {
    hide Compatible, Cost, Orderly;
    if Wasteful(sqrt, a, b, pick, i) {
      to := i;
    } else {
      GreedyIsMaximal(sqrt, a, b, pick, i, q[i]);
      assert q[i] in Used(pick);
      to := OwnerOf(pick, q[i]);
      if Wasteful(sqrt, a, b, pick, to) {
        WasteSpreads(sqrt, a, b, pick, to, i);
      }
    }
  }

  lemma {:induction false} Charges(sqrt: real -> real, a: seq<Minutia>, b: seq<Minutia>, pick: seq<int>, q: seq<int>, n: nat) returns (f: seq<int>)
    requires Orderly(sqrt, a, b) && IsGreedy(sqrt, a, b, pick) && |pick| == |a| && IsMatching(sqrt, a, b, q) && n <= |q|
    ensures |f| == n && forall i :: 0 <= i < n && q[i] >= 0 ==> Charged(sqrt, a, b, pick, q, i, f[i])
  {
    hide Compatible, Cost, Orderly, IsGreedy, IsMatching, Charged;
    if n == 0 {
      f := [];
    } else {
      f := Charges(sqrt, a, b, pick, q, n - 1);
      var to := -1;
      if q[n - 1] >= 0 {
        to := ChargeOf(sqrt, a, b, pick, q, n - 1);
      }
      f := f + [to];
    }
  }

  /** On orderly templates no pairing of compatible minutiae is larger than the greedy one. */
  lemma OrderlyIsMaximum(sqrt: real -> real, a: seq<Minutia>, b: seq<Minutia>, pick: seq<int>, q: seq<int>)
    requires Orderly(sqrt, a, b) && IsGreedy(sqrt, a, b, pick) && |pick| == |a| && IsMatching(sqrt, a, b, q)
    ensures |MatchedRows(q)| <= |Used(pick)|
  {
    hide Compatible, Cost, Orderly, IsBest;
    var f := Charges(sqrt, a, b, pick, q, |q|);
    forall i, j | i in MatchedRows(q) && j in MatchedRows(q) && i != j
      ensures f[i] != f[j]
    {
      assert Charged(sqrt, a, b, pick, q, i, f[i]) && Charged(sqrt, a, b, pick, q, j, f[j]);
    }
    ImageSize(f, MatchedRows(q));
    assert Image(f, MatchedRows(q)) <= MatchedRows(pick);
    SubsetSize(Image(f, MatchedRows(q)), MatchedRows(pick));
    MatchedCount(sqrt, a, b, pick);
  }

  /** A selection of minutiae of a template, in any order. */
  ghost predicate Chosen(part: seq<Minutia>, whole: seq<Minutia>) { forall m :: m in part ==> m in whole }

  /** Greedy is optimal for every selection of the two templates' minutiae, in every order. */
  ghost predicate AlwaysMaximum(sqrt: real -> real, a: seq<Minutia>, b: seq<Minutia>) {
    forall s, t, p, q :: Chosen(s, a) && Chosen(t, b) && IsGreedy(sqrt, s, t, p) && |p| == |s| && IsMatching(sqrt, s, t, q) ==>
      |MatchedRows(q)| <= |Used(p)|
  }

  lemma OrderlyChoice(sqrt: real -> real, a: seq<Minutia>, b: seq<Minutia>, s: seq<Minutia>, t: seq<Minutia>)
    requires Orderly(sqrt, a, b) && Chosen(s, a) && Chosen(t, b)
    ensures Orderly(sqrt, s, t)
  {
    hide Contested, Cost;
  }

  /** A contested partner that is not dearer is taken by the wrong minutia: one pair instead of two. */
  lemma ContestLosesPair(sqrt: real -> real, m: Minutia, l: Minutia, n: Minutia, o: Minutia) returns (p: seq<int>, q: seq<int>)
    requires Contested(sqrt, m, l, n, o) && Cost(sqrt, m, n) <= Cost(sqrt, m, o)
    ensures IsGreedy(sqrt, [m, l], [n, o], p) && |p| == 2 && |Used(p)| == 1
    ensures IsMatching(sqrt, [m, l], [n, o], q) && |MatchedRows(q)| == 2
  {
    hide Distance, AngleGap;
    p := TwoPicks(sqrt, [m, l], [n, o], 0, -1);
    q := [1, 0];
    assert MatchedRows(q) == {0, 1};
  }

  /** Greedy is optimal for every selection and order exactly when the templates are orderly. */
  lemma AlwaysMaximumIffOrderly(sqrt: real -> real, a: seq<Minutia>, b: seq<Minutia>)
    ensures AlwaysMaximum(sqrt, a, b) <==> Orderly(sqrt, a, b)
  {
    hide Contested, Cost, IsGreedy, IsMatching;
    if Orderly(sqrt, a, b) {
      forall s, t, p, q | Chosen(s, a) && Chosen(t, b) && IsGreedy(sqrt, s, t, p) && |p| == |s| && IsMatching(sqrt, s, t, q)
        ensures |MatchedRows(q)| <= |Used(p)|
      {
        OrderlyChoice(sqrt, a, b, s, t);
        OrderlyIsMaximum(sqrt, s, t, p, q);
      }
    } else {
      var m, l, n, o :| m in a && l in a && n in b && o in b && Contested(sqrt, m, l, n, o) && !(Cost(sqrt, m, o) < Cost(sqrt, m, n));
      var p, q := ContestLosesPair(sqrt, m, l, n, o);
      assert Chosen([m, l], a) && Chosen([n, o], b);
    }
  }

  // ---------------------------------------------------------------------------------------
  // When direction and order do not matter.
  // ---------------------------------------------------------------------------------------

  /** Positions in `t` that list the elements of `s`. */
  lemma {:induction false} Permutation(s: seq<Minutia>, t: seq<Minutia>) returns (f: seq<int>)
    requires multiset(s) == multiset(t)
    ensures |s| == |t|
    ensures |f| == |s| && Distinct(f) && forall i :: 0 <= i < |s| ==> 0 <= f[i] < |t| && t[f[i]] == s[i]
  {
    assert |s| == |multiset(s)| == |t|;
    if s == [] {
      f := [];
    } else {
      var n := |s| - 1;
      assert s == s[..n] + [s[n]];
      assert s[n] in multiset(t);
      var k :| 0 <= k < |t| && t[k] == s[n];
      var rest := t[..k] + t[k + 1..];
      RemovedAt(t, k);
      assert multiset(s[..n]) == multiset(s) - multiset{s[n]};
      var g := Permutation(s[..n], rest);
      f := Inserted(s, t, k, g);
    }
  }

  lemma Inserted(s: seq<Minutia>, t: seq<Minutia>, k: nat, g: seq<int>) returns (f: seq<int>)
    requires s != [] && k < |t| && t[k] == s[|s| - 1] && |g| == |s| - 1 && Distinct(g)
    requires forall i :: 0 <= i < |g| ==> 0 <= g[i] < |t| - 1 && (t[..k] + t[k + 1..])[g[i]] == s[i]
    ensures |f| == |s| && Distinct(f) && forall i :: 0 <= i < |s| ==> 0 <= f[i] < |t| && t[f[i]] == s[i]
  {
    var shifted := seq(|g|, i requires 0 <= i < |g| => if g[i] < k then g[i] else g[i] + 1);
    assert forall i :: 0 <= i < |g| ==> shifted[i] != k && 0 <= shifted[i] < |t| && t[shifted[i]] == s[i];
    assert Distinct(shifted);
    f := shifted + [k];
  }

  lemma RemovedAt(t: seq<Minutia>, k: nat)
    requires k < |t|
    ensures multiset(t[..k] + t[k + 1..]) == multiset(t) - multiset{t[k]}
  {
    assert t == t[..k] + [t[k]] + t[k + 1..];
  }

  /** A matching of reordered templates. */
  lemma Reordered(sqrt: real -> real, a: seq<Minutia>, b: seq<Minutia>, c: seq<Minutia>, d: seq<Minutia>, q: seq<int>) returns (r: seq<int>)
    requires IsMatching(sqrt, a, b, q) && multiset(a) == multiset(c) && multiset(b) == multiset(d)
    ensures IsMatching(sqrt, c, d, r) && |MatchedRows(r)| == |MatchedRows(q)|
  {
    hide Compatible;
    var rows, cols := PairsOf(sqrt, a, b, q, |q|);
    assert q[..|q|] == q;
    var f := Permutation(a, c);
    var g := Permutation(b, d);
    var newRows := seq(|rows|, k requires 0 <= k < |rows| => f[rows[k]]);
    var newCols := seq(|cols|, k requires 0 <= k < |cols| => g[cols[k]]);
    r := MatchingOf(sqrt, c, d, newRows, newCols);
  }

  /** For every selection of minutiae, listed in any order, both directions find equally many pairs. */
  ghost predicate OrderAndDirectionFree(sqrt: real -> real, a: seq<Minutia>, b: seq<Minutia>) {
    forall s, t, u, v, p, q ::
      Chosen(s, a) && Chosen(t, b) && multiset(s) == multiset(u) && multiset(t) == multiset(v)
      && IsGreedy(sqrt, s, t, p) && |p| == |s| && IsGreedy(sqrt, v, u, q) && |q| == |v| ==>
        |Used(p)| == |Used(q)|
  }

  lemma OrderlyIsFree(sqrt: real -> real, s: seq<Minutia>, t: seq<Minutia>, u: seq<Minutia>, v: seq<Minutia>, p: seq<int>, q: seq<int>)
    requires Orderly(sqrt, s, t) && Orderly(sqrt, v, u) && multiset(s) == multiset(u) && multiset(t) == multiset(v)
    requires IsGreedy(sqrt, s, t, p) && |p| == |s| && IsGreedy(sqrt, v, u, q) && |q| == |v|
    ensures |Used(p)| == |Used(q)|
  {
    hide Orderly, IsGreedy, IsMatching;
    GreedyIsMatching(sqrt, s, t, p);
    GreedyIsMatching(sqrt, v, u, q);
    var p1 := Reversed(sqrt, s, t, p);
    var p2 := Reordered(sqrt, t, s, v, u, p1);
    OrderlyIsMaximum(sqrt, v, u, q, p2);
    var q1 := Reversed(sqrt, v, u, q);
    var q2 := Reordered(sqrt, u, v, s, t, q1);
    OrderlyIsMaximum(sqrt, s, t, p, q2);
  }

  /** The other listing, or the other direction, finds both pairs of a contest. */
  lemma ContestWon(sqrt: real -> real, m: Minutia, l: Minutia, n: Minutia, o: Minutia) returns (p: seq<int>, q: seq<int>)
    requires Contested(sqrt, m, l, n, o)
    ensures IsGreedy(sqrt, [l, m], [n, o], p) && |p| == 2 && |Used(p)| == 2
    ensures IsGreedy(sqrt, [o, n], [m, l], q) && |q| == 2 && |Used(q)| == 2
  {
    CostIsSymmetric(sqrt, m, n);
    CostIsSymmetric(sqrt, m, o);
    CostIsSymmetric(sqrt, l, n);
    CostIsSymmetric(sqrt, l, o);
    hide Distance, AngleGap;
    p := TwoPicks(sqrt, [l, m], [n, o], 0, 1);
    q := TwoPicks(sqrt, [o, n], [m, l], 0, 1);
  }

  lemma Swapped(m: Minutia, l: Minutia)
    ensures multiset([m, l]) == multiset([l, m])
  {
  }

  lemma OrderlyImpliesFree(sqrt: real -> real, a: seq<Minutia>, b: seq<Minutia>)
    requires Orderly(sqrt, a, b) && Orderly(sqrt, b, a)
    ensures OrderAndDirectionFree(sqrt, a, b)
  {
    hide Orderly, IsGreedy, Chosen;
    forall s, t, u, v, p, q |
      Chosen(s, a) && Chosen(t, b) && multiset(s) == multiset(u) && multiset(t) == multiset(v)
      && IsGreedy(sqrt, s, t, p) && |p| == |s| && IsGreedy(sqrt, v, u, q) && |q| == |v|
      ensures |Used(p)| == |Used(q)|
    {
      ChosenReordered(s, u, a);
      ChosenReordered(t, v, b);
      OrderlyChoice(sqrt, a, b, s, t);
      OrderlyChoice(sqrt, b, a, v, u);
      OrderlyIsFree(sqrt, s, t, u, v, p, q);
    }
  }

  lemma ContestBreaksFreedom(sqrt: real -> real, a: seq<Minutia>, b: seq<Minutia>)
    requires !Orderly(sqrt, a, b)
    ensures !OrderAndDirectionFree(sqrt, a, b) && !OrderAndDirectionFree(sqrt, b, a)
  {
    hide Contested, Cost, IsGreedy;
    var m, l, n, o :| m in a && l in a && n in b && o in b && Contested(sqrt, m, l, n, o) && !(Cost(sqrt, m, o) < Cost(sqrt, m, n));
    var p, _ := ContestLosesPair(sqrt, m, l, n, o);
    var _, q := ContestWon(sqrt, m, l, n, o);
    Swapped(n, o);
    assert Chosen([m, l], a) && Chosen([n, o], b) && Chosen([o, n], b);
  }

  /** The number of pairs depends neither on the direction nor on the order of listing, for any selection
      of minutiae, exactly when both templates are orderly towards each other. */
  lemma FreeIffOrderly(sqrt: real -> real, a: seq<Minutia>, b: seq<Minutia>)
    ensures OrderAndDirectionFree(sqrt, a, b) <==> Orderly(sqrt, a, b) && Orderly(sqrt, b, a)
  {
    hide Orderly, OrderAndDirectionFree;
    if Orderly(sqrt, a, b) && Orderly(sqrt, b, a) {
      OrderlyImpliesFree(sqrt, a, b);
    } else if !Orderly(sqrt, a, b) {
      ContestBreaksFreedom(sqrt, a, b);
    } else {
      ContestBreaksFreedom(sqrt, b, a);
    }
  }

  lemma ChosenReordered(s: seq<Minutia>, t: seq<Minutia>, whole: seq<Minutia>)
    requires multiset(s) == multiset(t) && Chosen(s, whole)
    ensures Chosen(t, whole)
  {
    forall m | m in t
      ensures m in whole
    {
      assert m in multiset(t);
      assert m in s;
    }
  }

  /** In particular the two directions then give one score. */
  lemma OrderlyScoresAgree(sqrt: real -> real, a: Template, b: Template, p: seq<int>, q: seq<int>)
    requires a.minutiae != [] && b.minutiae != [] && Orderly(sqrt, a.minutiae, b.minutiae) && Orderly(sqrt, b.minutiae, a.minutiae)
    requires IsGreedy(sqrt, a.minutiae, b.minutiae, p) && |p| == |a.minutiae|
    requires IsGreedy(sqrt, b.minutiae, a.minutiae, q) && |q| == |b.minutiae|
    ensures Score(a, b, |Used(p)|) == Score(b, a, |Used(q)|)
  {
    hide Orderly, IsGreedy;
    OrderlyIsFree(sqrt, a.minutiae, b.minutiae, a.minutiae, b.minutiae, p, q);
  }

  /** Templates in which every minutia has at most one compatible partner are orderly. */
  lemma UniquePartnersAreOrderly(sqrt: real -> real, a: seq<Minutia>, b: seq<Minutia>)
    requires forall m, n, o :: m in a && n in b && o in b && Compatible(sqrt, m, n) && Compatible(sqrt, m, o) ==> n == o
    ensures Orderly(sqrt, a, b)
  {
    hide Compatible, Cost;
  }
}
