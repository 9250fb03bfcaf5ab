/** The edit distance that sanctions screening uses to compare names
    (compliance_engine.go).  A Go string is a byte sequence; a `char` stands for one byte. */
module EditDistance {

  // ---------------------------------------------------------------------------------------
  // What the distance is meant to be: the length of a shortest edit script.
  // ---------------------------------------------------------------------------------------

  datatype Edit = Insert(pos: nat, c: char) | Delete(pos: nat) | Substitute(pos: nat, c: char)

  ghost predicate Fits(e: Edit, s: string) {
    match e
    case Insert(pos, _) => pos <= |s|
    case Delete(pos) => pos < |s|
    case Substitute(pos, _) => pos < |s|
  }

  ghost function Apply(e: Edit, s: string): string
    requires Fits(e, s)
  {
    match e
    case Insert(pos, c) => s[..pos] + [c] + s[pos..]
    case Delete(pos) => s[..pos] + s[pos + 1..]
    case Substitute(pos, c) => s[..pos] + [c] + s[pos + 1..]
  }

  /** `script`, applied from the left, turns `a` into `b`. */
  ghost predicate Rewrites(script: seq<Edit>, a: string, b: string) {
    if script == [] then a == b
    else Fits(script[0], a) && Rewrites(script[1..], Apply(script[0], a), b)
  }

  ghost predicate IsLeastEditCount(a: string, b: string, n: nat) {
    && (exists script :: Rewrites(script, a, b) && |script| == n)
    && (forall script :: Rewrites(script, a, b) ==> n <= |script|)
  }

  // ---------------------------------------------------------------------------------------
  // The matrix.
  // ---------------------------------------------------------------------------------------

  function Min(x: nat, y: nat): nat { if x < y then x else y }

  function Max(x: nat, y: nat): nat { if x < y then y else x }

  /** One matrix cell from its three neighbours: above, to the left, and diagonal. */
  function Step(above: nat, left: nat, diagonal: nat, same: bool): nat {
    Min(above + 1, Min(left + 1, diagonal + (if same then 0 else 1)))
  }

  /** Matrix cell (i, j): the distance between the first `i` bytes of `a` and the first `j` of `b`. */
  ghost function Cell(a: string, i: nat, b: string, j: nat): nat
    requires i <= |a| && j <= |b|
  {
    if i == 0 then j
    else if j == 0 then i
    else Step(Cell(a, i - 1, b, j), Cell(a, i, b, j - 1), Cell(a, i - 1, b, j - 1), a[i - 1] == b[j - 1])
  }

  lemma CellStep(a: string, i: nat, b: string, j: nat)
    requires i <= |a| && j <= |b|
    ensures i == 0 || j == 0 ==> Cell(a, i, b, j) == i + j
    ensures i > 0 && j > 0 ==>
      Cell(a, i, b, j)
      == Step(Cell(a, i - 1, b, j), Cell(a, i, b, j - 1), Cell(a, i - 1, b, j - 1), a[i - 1] == b[j - 1])
  {
  }

  ghost function Lev(a: string, b: string): nat { Cell(a, |a|, b, |b|) }

  /** The matrix program.  Its result is the least edit count, early returns included. */
  method LevenshteinDistance(a: string, b: string) returns (d: nat)
    ensures d == Lev(a, b)
    ensures IsLeastEditCount(a, b, d)
  {
    LevIsLeast(a, b);
    if |a| == 0 {
      return |b|;
    }
    if |b| == 0 {
      return |a|;
    }
    d := FillMatrix(a, b);
  }

  method FillMatrix(a: string, b: string) returns (d: nat)
    requires a != [] && b != []
    ensures d == Lev(a, b)
  {
    hide Cell;
    var matrix := new nat[|a| + 1, |b| + 1];
    for i := 0 to |a| + 1
      invariant forall k :: 0 <= k < i ==> matrix[k, 0] == Cell(a, k, b, 0)
    {
      CellStep(a, i, b, 0);
      matrix[i, 0] := i;
    }
    for j := 1 to |b| + 1
      invariant forall k :: 0 <= k <= |a| ==> matrix[k, 0] == Cell(a, k, b, 0)
      invariant forall l :: 0 <= l < j ==> matrix[0, l] == Cell(a, 0, b, l)
    {
      CellStep(a, 0, b, j);
      matrix[0, j] := j;
    }
    for i := 1 to |a| + 1
      invariant forall k :: 0 <= k <= |a| ==> matrix[k, 0] == Cell(a, k, b, 0)
      invariant forall k, l :: k == i - 1 && 0 <= l <= |b| ==> matrix[k, l] == Cell(a, k, b, l)
    {
      for j := 1 to |b| + 1
        invariant forall k :: 0 <= k <= |a| ==> matrix[k, 0] == Cell(a, k, b, 0)
        invariant forall k, l :: k == i - 1 && 0 <= l <= |b| ==> matrix[k, l] == Cell(a, k, b, l)
        invariant forall l :: 0 <= l < j ==> matrix[i, l] == Cell(a, i, b, l)
      {
        CellStep(a, i, b, j);
        var cost := 1;
        if a[i - 1] == b[j - 1] {
          cost := 0;
        }
        matrix[i, j] := Min(matrix[i - 1, j] + 1, Min(matrix[i, j - 1] + 1, matrix[i - 1, j - 1] + cost));
      }
    }
    return matrix[|a|, |b|];
  }

  // ---------------------------------------------------------------------------------------
  // The distance is a metric.
  // ---------------------------------------------------------------------------------------

  lemma {:induction false} CellBounds(a: string, i: nat, b: string, j: nat)
    requires i <= |a| && j <= |b|
    ensures i <= j + Cell(a, i, b, j) && j <= i + Cell(a, i, b, j)
    ensures Cell(a, i, b, j) <= Max(i, j)
  {
    hide Cell;
    CellStep(a, i, b, j);
    if i > 0 && j > 0 {
      CellBounds(a, i - 1, b, j);
      CellBounds(a, i, b, j - 1);
      CellBounds(a, i - 1, b, j - 1);
    }
  }

  lemma {:induction false} CellSymmetric(a: string, i: nat, b: string, j: nat)
    requires i <= |a| && j <= |b|
    ensures Cell(a, i, b, j) == Cell(b, j, a, i)
  {
    hide Cell;
    CellStep(a, i, b, j);
    CellStep(b, j, a, i);
    if i > 0 && j > 0 {
      CellSymmetric(a, i - 1, b, j);
      CellSymmetric(a, i, b, j - 1);
      CellSymmetric(a, i - 1, b, j - 1);
    }
  }

  lemma {:induction false} CellZero(a: string, i: nat, b: string, j: nat)
    requires i <= |a| && j <= |b|
    ensures Cell(a, i, b, j) == 0 <==> a[..i] == b[..j]
  {
    hide Cell;
    CellStep(a, i, b, j);
    CellBounds(a, i, b, j);
    if i > 0 && j > 0 {
      CellBounds(a, i - 1, b, j);
      CellBounds(a, i, b, j - 1);
      CellZero(a, i - 1, b, j - 1);
      assert a[..i] == a[..i - 1] + [a[i - 1]] && b[..j] == b[..j - 1] + [b[j - 1]];
    }
  }

  lemma {:induction false} CellTriangle(a: string, i: nat, b: string, j: nat, c: string, k: nat)
    requires i <= |a| && j <= |b| && k <= |c|
    ensures Cell(a, i, c, k) <= Cell(a, i, b, j) + Cell(b, j, c, k)
    decreases i + j + k
  {
    hide Cell;
    CellStep(a, i, b, j);
    CellStep(b, j, c, k);
    CellStep(a, i, c, k);
    var ab, bc := Cell(a, i, b, j), Cell(b, j, c, k);
    CellBounds(a, i, b, j);
    CellBounds(b, j, c, k);
    CellBounds(a, i, c, k);
    if i > 0 && j > 0 && k > 0 {
      if ab == Cell(a, i - 1, b, j) + 1 {
        CellTriangle(a, i - 1, b, j, c, k);
      } else if bc == Cell(b, j, c, k - 1) + 1 {
        CellTriangle(a, i, b, j, c, k - 1);
      } else if ab == Cell(a, i, b, j - 1) + 1 {
        if bc == Cell(b, j - 1, c, k) + 1 {
          CellTriangle(a, i, b, j - 1, c, k);
        } else {
          CellTriangle(a, i, b, j - 1, c, k - 1);
        }
      } else if bc == Cell(b, j - 1, c, k) + 1 {
        CellTriangle(a, i - 1, b, j - 1, c, k);
      } else {
        CellTriangle(a, i - 1, b, j - 1, c, k - 1);
      }
    }
  }

  /** The distance is a metric, lies between the length difference and the longer length. */
  lemma LevIsMetric(a: string, b: string, c: string)
    ensures Lev(a, b) == 0 <==> a == b
    ensures Lev(a, b) == Lev(b, a)
    ensures Lev(a, c) <= Lev(a, b) + Lev(b, c)
    ensures |a| - |b| <= Lev(a, b) <= Max(|a|, |b|) && |b| - |a| <= Lev(a, b)
  {
    hide Cell;
    CellZero(a, |a|, b, |b|);
    assert a[..|a|] == a && b[..|b|] == b;
    CellSymmetric(a, |a|, b, |b|);
    CellTriangle(a, |a|, b, |b|, c, |c|);
    CellBounds(a, |a|, b, |b|);
  }

  // ---------------------------------------------------------------------------------------
  // The distance counts a shortest script.
  // ---------------------------------------------------------------------------------------

  /** Extending both prefixes over equal bytes never increases the distance. */
  lemma {:induction false} CellCommonSuffix(a: string, i: nat, b: string, j: nat, n: nat)
    requires i + n <= |a| && j + n <= |b|
    requires a[i..i + n] == b[j..j + n]
    ensures Cell(a, i + n, b, j + n) <= Cell(a, i, b, j)
  {
    hide Cell;
    if n > 0 {
      assert a[i..i + n - 1] == a[i..i + n][..n - 1] && b[j..j + n - 1] == b[j..j + n][..n - 1];
      assert a[i + n - 1] == a[i..i + n][n - 1] && b[j + n - 1] == b[j..j + n][n - 1];
      CellCommonSuffix(a, i, b, j, n - 1);
      CellStep(a, i + n, b, j + n);
    }
  }

  /** Neighbouring cells differ by at most one. */
  lemma CellNeighbours(a: string, i: nat, b: string, j: nat)
    requires i <= |a| && j <= |b|
    ensures i < |a| ==> Cell(a, i + 1, b, j) <= Cell(a, i, b, j) + 1
    ensures j < |b| ==> Cell(a, i, b, j + 1) <= Cell(a, i, b, j) + 1
    ensures i < |a| && j < |b| ==> Cell(a, i + 1, b, j + 1) <= Cell(a, i, b, j) + 1
  {
    hide Cell;
    CellStep(a, i, b, j);
    if i < |a| {
      CellStep(a, i + 1, b, j);
    }
    if j < |b| {
      CellStep(a, i, b, j + 1);
    }
    if i < |a| && j < |b| {
      CellStep(a, i + 1, b, j + 1);
    }
  }

  lemma OneEditCostsOne(e: Edit, s: string)
    requires Fits(e, s)
    ensures Lev(s, Apply(e, s)) <= 1
  {
    hide Cell;
    var t, p := Apply(e, s), e.pos;
    assert s[..p] == t[..p];
    CellZero(s, p, t, p);
    match e
    case Insert(_, _) =>
      assert t[p + 1..] == s[p..];
      CellNeighbours(s, p, t, p);
      CellCommonSuffix(s, p, t, p + 1, |s| - p);
    case Delete(_) =>
      assert t[p..] == s[p + 1..];
      CellNeighbours(s, p, t, p);
      CellCommonSuffix(s, p + 1, t, p, |t| - p);
    case Substitute(_, _) =>
      assert t[p + 1..] == s[p + 1..];
      CellNeighbours(s, p, t, p);
      CellCommonSuffix(s, p + 1, t, p + 1, |s| - p - 1);
  }

  lemma {:induction false} NoShorterScript(script: seq<Edit>, a: string, b: string)
    requires Rewrites(script, a, b)
    ensures Lev(a, b) <= |script|
  {
    if script == [] {
      LevIsMetric(a, b, b);
    } else {
      var mid := Apply(script[0], a);
      NoShorterScript(script[1..], mid, b);
      OneEditCostsOne(script[0], a);
      LevIsMetric(a, mid, b);
    }
  }

  lemma {:induction false} RewritesThenEdit(script: seq<Edit>, a: string, b: string, e: Edit)
    requires Rewrites(script, a, b) && Fits(e, b)
    ensures Rewrites(script + [e], a, Apply(e, b))
  {
    if script == [] {
      assert Rewrites([e][1..], Apply(e, a), Apply(e, b));
    } else {
      RewritesThenEdit(script[1..], Apply(script[0], a), b, e);
      assert (script + [e])[1..] == script[1..] + [e];
    }
  }

  /** A script also works with one more character at the end of both strings. */
  lemma {:induction false} RewritesBeforeSuffix(script: seq<Edit>, a: string, b: string, c: char)
    requires Rewrites(script, a, b)
    ensures Rewrites(script, a + [c], b + [c])
  {
    if script != [] {
      var e := script[0];
      assert Apply(e, a + [c]) == Apply(e, a) + [c];
      RewritesBeforeSuffix(script[1..], Apply(e, a), b, c);
    }
  }

  lemma DeleteThen(rest: seq<Edit>, a: string, x: char, b: string) returns (script: seq<Edit>)
    requires Rewrites(rest, a, b)
    ensures Rewrites(script, a + [x], b) && |script| == |rest| + 1
  {
    script := [Delete(|a|)] + rest;
    assert Apply(Delete(|a|), a + [x]) == a;
    assert script[1..] == rest;
  }

  lemma ThenInsert(rest: seq<Edit>, a: string, b: string, y: char) returns (script: seq<Edit>)
    requires Rewrites(rest, a, b)
    ensures Rewrites(script, a, b + [y]) && |script| == |rest| + 1
  {
    RewritesThenEdit(rest, a, b, Insert(|b|, y));
    assert Apply(Insert(|b|, y), b) == b + [y];
    script := rest + [Insert(|b|, y)];
  }

  lemma ThenSubstitute(rest: seq<Edit>, a: string, x: char, b: string, y: char) returns (script: seq<Edit>)
    requires Rewrites(rest, a, b)
    ensures Rewrites(script, a + [x], b + [y]) && |script| == |rest| + (if x == y then 0 else 1)
  {
    RewritesBeforeSuffix(rest, a, b, x);
    script := rest;
    if x != y {
      RewritesThenEdit(rest, a + [x], b + [x], Substitute(|b|, y));
      assert Apply(Substitute(|b|, y), b + [x]) == b + [y];
      script := rest + [Substitute(|b|, y)];
    }
  }

  lemma {:induction false} ScriptOfLength(a: string, i: nat, b: string, j: nat) returns (script: seq<Edit>)
    requires i <= |a| && j <= |b|
    ensures Rewrites(script, a[..i], b[..j]) && |script| == Cell(a, i, b, j)
  {
    hide Cell;
    CellStep(a, i, b, j);
    assert i > 0 ==> a[..i] == a[..i - 1] + [a[i - 1]];
    assert j > 0 ==> b[..j] == b[..j - 1] + [b[j - 1]];
    if i == 0 && j == 0 {
      script := [];
    } else if j == 0 || (i > 0 && Cell(a, i, b, j) == Cell(a, i - 1, b, j) + 1) {
      CellStep(a, i - 1, b, j);
      var rest := ScriptOfLength(a, i - 1, b, j);
      script := DeleteThen(rest, a[..i - 1], a[i - 1], b[..j]);
    } else if i == 0 || Cell(a, i, b, j) == Cell(a, i, b, j - 1) + 1 {
      CellStep(a, i, b, j - 1);
      var rest := ScriptOfLength(a, i, b, j - 1);
      script := ThenInsert(rest, a[..i], b[..j - 1], b[j - 1]);
    } else {
      var rest := ScriptOfLength(a, i - 1, b, j - 1);
      script := ThenSubstitute(rest, a[..i - 1], a[i - 1], b[..j - 1], b[j - 1]);
    }
  }

  /** The distance is the least number of edits that turns one string into the other. */
  lemma LevIsLeast(a: string, b: string)
    ensures IsLeastEditCount(a, b, Lev(a, b))
  {
    var script := ScriptOfLength(a, |a|, b, |b|);
    assert a[..|a|] == a && b[..|b|] == b;
    forall other | Rewrites(other, a, b)
      ensures Lev(a, b) <= |other|
    {
      NoShorterScript(other, a, b);
    }
  }

  // ---------------------------------------------------------------------------------------
  // The screening score built on the distance.
  // ---------------------------------------------------------------------------------------

  ghost predicate Near(x: string, y: string) { x == y || Lev(x, y) <= 2 }

  ghost predicate HasNear(x: string, ys: seq<string>) { exists y :: y in ys && Near(x, y) }

  ghost predicate AllNear(xs: seq<string>, ys: seq<string>) { forall x :: x in xs ==> HasNear(x, ys) }

  ghost function NearCount(xs: seq<string>, ys: seq<string>): nat {
    if xs == [] then 0
    else NearCount(xs[..|xs| - 1], ys) + (if HasNear(xs[|xs| - 1], ys) then 1 else 0)
  }

  lemma {:induction false} NearCountFull(xs: seq<string>, ys: seq<string>)
    ensures NearCount(xs, ys) <= |xs|
    ensures NearCount(xs, ys) == |xs| <==> AllNear(xs, ys)
  {
    hide Lev;
    if xs != [] {
      NearCountFull(xs[..|xs| - 1], ys);
      assert xs == xs[..|xs| - 1] + [xs[|xs| - 1]];
    }
  }

  method AnyNear(qp: string, candidateParts: seq<string>) returns (found: bool)
    ensures found == HasNear(qp, candidateParts)
  {
    hide Cell;
    for j := 0 to |candidateParts|
      invariant forall k :: 0 <= k < j ==> !Near(qp, candidateParts[k])
    {
      assert candidateParts[j] in candidateParts;
      var d := LevenshteinDistance(qp, candidateParts[j]);
      if qp == candidateParts[j] || d <= 2 {
        return true;
      }
    }
    return false;
  }

  /** A perfect score needs every query part to be near some candidate part and the candidate
      to have no more parts than the query. */
  method FuzzyNameMatch(queryParts: seq<string>, candidateParts: seq<string>) returns (score: real)
    ensures 0.0 <= score <= 1.0
    ensures queryParts == [] || candidateParts == [] ==> score == 0.0
    ensures score == 1.0 <==>
      queryParts != [] && candidateParts != [] && |candidateParts| <= |queryParts| && AllNear(queryParts, candidateParts)
    ensures queryParts != [] && candidateParts != [] ==>
      score * Max(|queryParts|, |candidateParts|) as real == NearCount(queryParts, candidateParts) as real
  {
    hide NearCount, AllNear;
    if |queryParts| == 0 || |candidateParts| == 0 {
      return 0.0;
    }
    var matchCount := CountNear(queryParts, candidateParts);
    NearCountFull(queryParts, candidateParts);
    var larger := Max(|queryParts|, |candidateParts|);
    score := matchCount as real / larger as real;
    ScoreOfCount(matchCount, larger);
  }

  method CountNear(queryParts: seq<string>, candidateParts: seq<string>) returns (matchCount: nat)
    ensures matchCount == NearCount(queryParts, candidateParts)
  {
    hide Cell;
    matchCount := 0;
    for i := 0 to |queryParts|
      invariant matchCount == NearCount(queryParts[..i], candidateParts)
    {
      var found := AnyNear(queryParts[i], candidateParts);
      if found {
        matchCount := matchCount + 1;
      }
      assert queryParts[..i + 1][..i] == queryParts[..i];
    }
    assert queryParts[..|queryParts|] == queryParts;
  }

  lemma ScoreOfCount(count: nat, size: nat)
    requires count <= size && size > 0
    ensures var score := count as real / size as real;
      0.0 <= score <= 1.0 && (score == 1.0 <==> count == size) && score * size as real == count as real
  {
  }
}
