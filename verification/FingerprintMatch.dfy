/** Greedy minutiae matching (matchFingerprints in biometric_engine.go).  Floats are reals and the square
    root is a parameter. */
module FingerprintMatch {
  import opened Sets

  datatype Minutia = Minutia(x: int, y: int, angle: real)

  datatype Template = Template(minutiae: seq<Minutia>, pattern: string)

  const TOLERANCE := 15.0
  const PATTERN_BONUS := 0.05

  ghost predicate IsRoot(sqrt: real -> real) {
    forall x :: x >= 0.0 ==> sqrt(x) >= 0.0 && Square(sqrt(x)) == x
  }

  function Times(x: real, y: real): real { x * y }

  function Square(x: real): real { Times(x, x) }

  function Distance(sqrt: real -> real, a: Minutia, b: Minutia): real {
    sqrt(Square((a.x - b.x) as real) + Square((a.y - b.y) as real))
  }

  function AngleGap(a: Minutia, b: Minutia): real {
    var gap := if a.angle >= b.angle then a.angle - b.angle else b.angle - a.angle;
    if gap > 180.0 then 360.0 - gap else gap
  }

  function Cost(sqrt: real -> real, a: Minutia, b: Minutia): real {
    Distance(sqrt, a, b) + AngleGap(a, b) * 0.1
  }

  /** Close enough to be looked at; a pair is made only if its cost is also below the tolerance. */
  predicate Near(sqrt: real -> real, a: Minutia, b: Minutia) {
    Distance(sqrt, a, b) < TOLERANCE * 2.0 && AngleGap(a, b) < 30.0
  }

  predicate Compatible(sqrt: real -> real, a: Minutia, b: Minutia) {
    Near(sqrt, a, b) && Cost(sqrt, a, b) < TOLERANCE
  }

  // ---------------------------------------------------------------------------------------
  // What the two loops compute.
  // ---------------------------------------------------------------------------------------

  /** The partners given to the first minutiae; -1 for none. */
  function Used(pick: seq<int>): set<int> { set k | 0 <= k < |pick| && pick[k] >= 0 :: pick[k] }

  /** `p` is the cheapest free near minutia, the first of them on a tie, or -1 if none is below the
      tolerance. */
  ghost predicate IsBest(sqrt: real -> real, m: Minutia, t: seq<Minutia>, used: set<int>, p: int) {
    if p < 0 then
      p == -1 && forall j :: 0 <= j < |t| && j !in used ==> !Compatible(sqrt, m, t[j])
    else
      && p < |t| && p !in used && Compatible(sqrt, m, t[p])
      && forall j :: 0 <= j < |t| && j !in used && Near(sqrt, m, t[j]) ==>
           Cost(sqrt, m, t[p]) < Cost(sqrt, m, t[j]) || (Cost(sqrt, m, t[p]) == Cost(sqrt, m, t[j]) && p <= j)
  }

  ghost predicate IsGreedy(sqrt: real -> real, a: seq<Minutia>, b: seq<Minutia>, pick: seq<int>) {
    |pick| <= |a| && forall i :: 0 <= i < |pick| ==> IsBest(sqrt, a[i], b, Used(pick[..i]), pick[i])
  }

  function Score(a: Template, b: Template, matched: nat): real
    requires a.minutiae != [] && b.minutiae != []
  {
    var least := if |b.minutiae| < |a.minutiae| then |b.minutiae| else |a.minutiae|;
    var raw := matched as real / least as real + (if a.pattern == b.pattern then PATTERN_BONUS else 0.0);
    if raw > 1.0 then 1.0 else raw
  }

  method MatchFingerprints(sqrt: real -> real, a: Template, b: Template) returns (score: real, ghost pick: seq<int>)
    ensures a.minutiae == [] || b.minutiae == [] ==> score == 0.0
    ensures a.minutiae != [] && b.minutiae != [] ==>
      |pick| == |a.minutiae| && IsGreedy(sqrt, a.minutiae, b.minutiae, pick) && score == Score(a, b, |Used(pick)|)
  {
    hide Distance, AngleGap;
    pick := [];
    if |a.minutiae| == 0 || |b.minutiae| == 0 {
      return 0.0, [];
    }
    var matchedCount := 0;
    var used: set<int> := {};
    for i := 0 to |a.minutiae|
      invariant |pick| == i && IsGreedy(sqrt, a.minutiae, b.minutiae, pick)
      invariant used == Used(pick) && matchedCount == |used|
    {
      var m := a.minutiae[i];
      var bestDist, bestIdx := 0.0, -1;  // a negative index stands for the largest float
      for j := 0 to |b.minutiae|
        invariant -1 <= bestIdx < j
        invariant bestIdx < 0 ==> forall k :: 0 <= k < j && k !in used ==> !Near(sqrt, m, b.minutiae[k])
        invariant bestIdx >= 0 ==>
          && bestIdx !in used && Near(sqrt, m, b.minutiae[bestIdx]) && bestDist == Cost(sqrt, m, b.minutiae[bestIdx])
          && forall k :: 0 <= k < j && k !in used && Near(sqrt, m, b.minutiae[k]) ==>
               bestDist < Cost(sqrt, m, b.minutiae[k]) || (bestDist == Cost(sqrt, m, b.minutiae[k]) && bestIdx <= k)
      {
        if j !in used {
          var cost := Cost(sqrt, m, b.minutiae[j]);
          if (bestIdx < 0 || cost < bestDist) && Near(sqrt, m, b.minutiae[j]) {
            bestDist, bestIdx := cost, j;
          }
        }
      }
      ghost var p := if bestIdx >= 0 && bestDist < TOLERANCE then bestIdx else -1;
      assert IsBest(sqrt, m, b.minutiae, used, p);
      ExtendGreedy(sqrt, a.minutiae, b.minutiae, pick, p);
      pick := pick + [p];
      if bestIdx >= 0 && bestDist < TOLERANCE {
        matchedCount := matchedCount + 1;
        used := used + {bestIdx};
      }
    }
    score := Score(a, b, matchedCount);
  }

  lemma UsedExtends(pick: seq<int>, p: int)
    ensures Used(pick + [p]) == if p >= 0 then Used(pick) + {p} else Used(pick)
  {
    var longer := pick + [p];
    forall x
      ensures x in Used(longer) <==> x in Used(pick) || (p >= 0 && x == p)
    {
      if x in Used(pick) {
        var k :| 0 <= k < |pick| && pick[k] >= 0 && pick[k] == x;
        assert longer[k] == x;
      }
      assert longer[|pick|] == p;
    }
  }

  lemma ExtendGreedy(sqrt: real -> real, a: seq<Minutia>, b: seq<Minutia>, pick: seq<int>, p: int)
    requires IsGreedy(sqrt, a, b, pick) && |pick| < |a| && IsBest(sqrt, a[|pick|], b, Used(pick), p)
    ensures IsGreedy(sqrt, a, b, pick + [p])
    ensures Used(pick + [p]) == if p >= 0 then Used(pick) + {p} else Used(pick)
  {
    hide IsBest;
    UsedExtends(pick, p);
    var longer := pick + [p];
    forall i | 0 <= i < |longer|
      ensures IsBest(sqrt, a[i], b, Used(longer[..i]), longer[i])
    {
      assert longer[..i] == pick[..i];
      if i == |pick| {
        assert pick[..i] == pick;
      }
    }
  }

  lemma GreedyPrefix(sqrt: real -> real, a: seq<Minutia>, b: seq<Minutia>, pick: seq<int>, n: nat)
    requires IsGreedy(sqrt, a, b, pick) && n <= |pick|
    ensures IsGreedy(sqrt, a, b, pick[..n])
  {
    hide IsBest;
    forall i | 0 <= i < n
      ensures IsBest(sqrt, a[i], b, Used(pick[..n][..i]), pick[..n][i])
    {
      assert pick[..n][..i] == pick[..i];
    }
  }

  /** The greedy rule leaves no choice: two matchings of the same templates are equal. */
  lemma {:induction false} GreedyIsUnique(sqrt: real -> real, a: seq<Minutia>, b: seq<Minutia>, p: seq<int>, q: seq<int>)
    requires IsGreedy(sqrt, a, b, p) && IsGreedy(sqrt, a, b, q) && |p| == |q|
    ensures p == q
  {
    hide Cost, Near;
    if p != [] {
      var n := |p| - 1;
      GreedyPrefix(sqrt, a, b, p, n);
      GreedyPrefix(sqrt, a, b, q, n);
      GreedyIsUnique(sqrt, a, b, p[..n], q[..n]);
      assert IsBest(sqrt, a[n], b, Used(p[..n]), p[n]) && IsBest(sqrt, a[n], b, Used(p[..n]), q[n]);
      assert p == p[..n] + [p[n]] && q == q[..n] + [q[n]];
    }
  }

  /** The pairing is injective: no minutia of the second template is used twice. */
  lemma PicksAreInjective(sqrt: real -> real, a: seq<Minutia>, b: seq<Minutia>, pick: seq<int>)
    requires IsGreedy(sqrt, a, b, pick)
    ensures forall i, j :: 0 <= i < j < |pick| && pick[i] >= 0 ==> pick[i] != pick[j]
    ensures forall i :: 0 <= i < |pick| ==> -1 <= pick[i] < |b|
  {
    forall i, j | 0 <= i < j < |pick| && pick[i] >= 0
      ensures pick[i] != pick[j]
    {
      assert pick[..j][i] == pick[i];
      assert pick[i] in Used(pick[..j]);
      assert IsBest(sqrt, a[j], b, Used(pick[..j]), pick[j]);
    }
  }

  function Below(n: nat): (below: set<int>)
    ensures forall k :: k in below <==> 0 <= k < n
  {
    if n == 0 then {} else Below(n - 1) + {n - 1}
  }

  lemma {:induction false} BelowSize(n: nat)
    ensures |Below(n)| == n
  {
    if n > 0 {
      BelowSize(n - 1);
    }
  }

  function Image(f: seq<int>, s: set<int>): set<int>
  {
    set k | k in s && 0 <= k < |f| :: f[k]
  }

  lemma {:induction false} ImageSize(f: seq<int>, s: set<int>)
    ensures |Image(f, s)| <= |s|
    ensures (forall i, j :: i in s && j in s && i != j && 0 <= i < |f| && 0 <= j < |f| ==> f[i] != f[j]) && (forall i :: i in s ==> 0 <= i < |f|)
      ==> |Image(f, s)| == |s|
    decreases s
  {
    if s != {} {
      var k := AnyOf(s);
      ImageSize(f, s - {k});
      if 0 <= k < |f| {
        assert Image(f, s) == Image(f, s - {k}) + {f[k]};
      } else {
        assert Image(f, s) == Image(f, s - {k});
      }
    }
  }

  function MatchedRows(pick: seq<int>): set<int> { set i | 0 <= i < |pick| && pick[i] >= 0 }

  /** As many minutiae of the first template are matched as of the second, and no more than either has. */
  lemma MatchedCount(sqrt: real -> real, a: seq<Minutia>, b: seq<Minutia>, pick: seq<int>)
    requires IsGreedy(sqrt, a, b, pick)
    ensures |Used(pick)| == |MatchedRows(pick)| && |Used(pick)| <= |a| && |Used(pick)| <= |b|
  {
    hide IsGreedy;
    PicksAreInjective(sqrt, a, b, pick);
    assert Image(pick, MatchedRows(pick)) == Used(pick);
    ImageSize(pick, MatchedRows(pick));
    BelowSize(|a|);
    BelowSize(|b|);
    assert |pick| <= |a| by { GreedyLength(sqrt, a, b, pick); }
    SubsetSize(MatchedRows(pick), Below(|a|));
    SubsetSize(Used(pick), Below(|b|));
  }

  lemma GreedyLength(sqrt: real -> real, a: seq<Minutia>, b: seq<Minutia>, pick: seq<int>)
    requires IsGreedy(sqrt, a, b, pick)
    ensures |pick| <= |a|
  {
  }

  /** Every score lies in [0, 1]. */
  lemma ScoreIsProbability(sqrt: real -> real, a: Template, b: Template, pick: seq<int>)
    requires a.minutiae != [] && b.minutiae != [] && IsGreedy(sqrt, a.minutiae, b.minutiae, pick)
    ensures 0.0 <= Score(a, b, |Used(pick)|) <= 1.0
    ensures a.pattern != b.pattern ==>
      (Score(a, b, |Used(pick)|) == 1.0 <==> |Used(pick)| == |a.minutiae| || |Used(pick)| == |b.minutiae|)
  {
    MatchedCount(sqrt, a.minutiae, b.minutiae, pick);
    var least := if |b.minutiae| < |a.minutiae| then |b.minutiae| else |a.minutiae|;
    QuotientBounds(|Used(pick)|, least);
  }

  lemma QuotientBounds(n: nat, d: nat)
    requires n <= d && d > 0
    ensures 0.0 <= n as real / d as real <= 1.0
    ensures n as real / d as real == 1.0 <==> n == d
  {
    var x, y := n as real, d as real;
    var q := x / y;
    assert q * y == x;
    if q < 0.0 {
      ProductGrows(q, 0.0, y);
    }
    if q > 1.0 {
      ProductGrows(1.0, q, y);
    }
  }

  lemma ProductGrows(a: real, b: real, y: real)
    requires a < b && y > 0.0
    ensures a * y < b * y
  {
    TimesSign(b - a, y);
    assert (b - a) * y == b * y - a * y;
  }

  // ---------------------------------------------------------------------------------------
  // A template matched against itself.
  // ---------------------------------------------------------------------------------------

  ghost predicate AnglesInRange(t: seq<Minutia>) { forall k :: 0 <= k < |t| ==> 0.0 <= t[k].angle < 360.0 }

  lemma CostIsZeroOnlyOnEqual(sqrt: real -> real, a: Minutia, b: Minutia)
    requires IsRoot(sqrt) && 0.0 <= a.angle < 360.0 && 0.0 <= b.angle < 360.0
    ensures if a == b then Cost(sqrt, a, b) == 0.0 && Compatible(sqrt, a, b) else Cost(sqrt, a, b) > 0.0
  {
    SquareSign((a.x - b.x) as real);
    SquareSign((a.y - b.y) as real);
    hide Square;
    var squares := Square((a.x - b.x) as real) + Square((a.y - b.y) as real);
    assert sqrt(squares) >= 0.0 && Square(sqrt(squares)) == squares;
    SquareSign(sqrt(squares));
  }

  lemma SquareSign(x: real)
    ensures if x == 0.0 then Square(x) == 0.0 else Square(x) > 0.0
  {
    hide Times;
    if x == 0.0 {
      assert Times(x, x) == 0.0 by { TimesZero(x, x); }
    } else {
      assert Times(x, x) > 0.0 by { TimesSign(x, x); }
    }
  }

  lemma TimesSign(x: real, y: real)
    requires (x > 0.0 && y > 0.0) || (x < 0.0 && y < 0.0)
    ensures Times(x, y) > 0.0
  {
  }

  lemma TimesZero(x: real, y: real)
    requires x == 0.0
    ensures Times(x, y) == 0.0
  {
  }

  ghost function Twins(t: seq<Minutia>, m: Minutia, n: nat): set<int>
    requires n <= |t|
  {
    set k: int | 0 <= k < n && t[k] == m
  }

  /** Of several equal minutiae at least one is still free when the turn of each comes. */
  lemma FreeTwin(t: seq<Minutia>, pick: seq<int>) returns (j: int)
    requires |pick| < |t|
    requires forall k :: 0 <= k < |pick| ==> 0 <= pick[k] < |t| && t[pick[k]] == t[k]
    ensures 0 <= j < |t| && j !in Used(pick) && t[j] == t[|pick|]
  {
    var m := t[|pick|];
    var twins, before := Twins(t, m, |t|), Twins(t, m, |pick|);
    UsedTwins(t, pick);
    ImageSize(pick, before);
    MoreTwins(t, |pick|);
    j := SomeLeft(twins, Image(pick, before));
  }

  /** The used ones among the twins of the next minutia were given to its earlier twins. */
  lemma UsedTwins(t: seq<Minutia>, pick: seq<int>)
    requires |pick| < |t|
    requires forall k :: 0 <= k < |pick| ==> 0 <= pick[k] < |t| && t[pick[k]] == t[k]
    ensures forall j :: j in Twins(t, t[|pick|], |t|) && j in Used(pick) ==> j in Image(pick, Twins(t, t[|pick|], |pick|))
  {
    forall j | j in Twins(t, t[|pick|], |t|) && j in Used(pick)
      ensures j in Image(pick, Twins(t, t[|pick|], |pick|))
    {
      var k :| 0 <= k < |pick| && pick[k] >= 0 && pick[k] == j;
      assert k in Twins(t, t[|pick|], |pick|);
    }
  }

  lemma MoreTwins(t: seq<Minutia>, n: nat)
    requires n < |t|
    ensures |Twins(t, t[n], n)| < |Twins(t, t[n], |t|)|
  {
    var before := Twins(t, t[n], n);
    SubsetSize(before + {n}, Twins(t, t[n], |t|));
  }

  lemma {:induction false} SelfPicksAreTwins(sqrt: real -> real, t: seq<Minutia>, pick: seq<int>)
    requires IsRoot(sqrt) && AnglesInRange(t) && IsGreedy(sqrt, t, t, pick)
    ensures forall k :: 0 <= k < |pick| ==> 0 <= pick[k] < |t| && t[pick[k]] == t[k]
  {
    hide IsBest, IsRoot, Used, AnglesInRange;
    if pick != [] {
      var n := |pick| - 1;
      var front := pick[..n];
      GreedyPrefix(sqrt, t, t, pick, n);
      SelfPicksAreTwins(sqrt, t, front);
      var j := FreeTwin(t, front);
      BestIsTwin(sqrt, t, n, Used(front), pick[n], j);
      forall k | 0 <= k < |pick|
        ensures 0 <= pick[k] < |t| && t[pick[k]] == t[k]
      {
        assert k < n ==> front[k] == pick[k];
      }
    }
  }

  lemma BestIsTwin(sqrt: real -> real, t: seq<Minutia>, n: nat, used: set<int>, p: int, j: nat)
    requires IsRoot(sqrt) && AnglesInRange(t) && n < |t| && j < |t| && j !in used && t[j] == t[n]
    requires IsBest(sqrt, t[n], t, used, p)
    ensures 0 <= p < |t| && t[p] == t[n]
  {
    hide Cost, Near, IsRoot;
    CostIsZeroOnlyOnEqual(sqrt, t[n], t[j]);
    if p >= 0 {
      CostIsZeroOnlyOnEqual(sqrt, t[n], t[p]);
    }
  }

  /** Any non-empty template with angles in [0, 360) scores exactly 1 against itself, also when it
      contains the same minutia several times. */
  lemma SelfMatchIsPerfect(sqrt: real -> real, t: Template, pick: seq<int>)
    requires IsRoot(sqrt) && AnglesInRange(t.minutiae) && t.minutiae != []
    requires IsGreedy(sqrt, t.minutiae, t.minutiae, pick) && |pick| == |t.minutiae|
    ensures Score(t, t, |Used(pick)|) == 1.0
  {
    SelfPicksAreTwins(sqrt, t.minutiae, pick);
    MatchedCount(sqrt, t.minutiae, t.minutiae, pick);
    assert MatchedRows(pick) == Below(|pick|);
    BelowSize(|pick|);
    QuotientBounds(|pick|, |pick|);
  }

  // ---------------------------------------------------------------------------------------
  // How good is greedy?
  // ---------------------------------------------------------------------------------------

  /** Any one-to-one pairing of compatible minutiae. */
  ghost predicate IsMatching(sqrt: real -> real, a: seq<Minutia>, b: seq<Minutia>, q: seq<int>) {
    && |q| == |a|
    && (forall i :: 0 <= i < |q| ==> q[i] < |b| && (q[i] >= 0 ==> Compatible(sqrt, a[i], b[q[i]])))
    && (forall i, j :: 0 <= i < j < |q| && q[i] >= 0 ==> q[i] != q[j])
  }

  /** Greedy matching is maximal: a minutia left alone has all its compatible partners taken. */
  lemma GreedyIsMaximal(sqrt: real -> real, a: seq<Minutia>, b: seq<Minutia>, pick: seq<int>, i: nat, j: nat)
    requires IsGreedy(sqrt, a, b, pick) && i < |pick| && j < |b| && Compatible(sqrt, a[i], b[j])
    ensures i in MatchedRows(pick) || j in Used(pick)
  {
    assert IsBest(sqrt, a[i], b, Used(pick[..i]), pick[i]);
    if pick[i] < 0 {
      assert j in Used(pick[..i]);
      var k :| 0 <= k < i && pick[..i][k] == j;
      assert pick[k] == j;
    }
  }

  /** No pairing of compatible minutiae is more than twice as large as the greedy one. */
  lemma GreedyIsHalfOptimal(sqrt: real -> real, a: seq<Minutia>, b: seq<Minutia>, pick: seq<int>, q: seq<int>)
    requires IsGreedy(sqrt, a, b, pick) && |pick| == |a| && IsMatching(sqrt, a, b, q)
    ensures |MatchedRows(q)| <= 2 * |Used(pick)|
  {
    hide IsGreedy, IsBest, Compatible;
    MatchedCount(sqrt, a, b, pick);
    var alone := MatchedRows(q) - MatchedRows(pick);
    forall i | i in alone
      ensures q[i] in Used(pick)
    {
      GreedyIsMaximal(sqrt, a, b, pick, i, q[i]);
    }
    ImageSize(q, alone);
    SubsetSize(Image(q, alone), Used(pick));
    SubsetSize(MatchedRows(q) * MatchedRows(pick), MatchedRows(pick));
    assert MatchedRows(q) == alone + MatchedRows(q) * MatchedRows(pick);
  }

  /** The score depends on which template comes first: greedy can lose a pair in one direction. */
  lemma ScoreIsNotSymmetric(sqrt: real -> real)
    returns (a: Template, b: Template, p: seq<int>, q: seq<int>)
    requires IsRoot(sqrt)
    ensures |p| == |a.minutiae| && IsGreedy(sqrt, a.minutiae, b.minutiae, p)
    ensures |q| == |b.minutiae| && IsGreedy(sqrt, b.minutiae, a.minutiae, q)
    ensures a.minutiae != [] && b.minutiae != []
    ensures Score(a, b, |Used(p)|) == 0.5 && Score(b, a, |Used(q)|) == 1.0
  {
    hide IsBest, IsRoot, IsGreedy, Used;
    var s, t := [Minutia(0, 0, 20.0), Minutia(0, 0, 40.0)], [Minutia(0, 0, 35.0), Minutia(0, 0, 0.0)];
    a, b := Template(s, "LOOP"), Template(t, "ARCH");
    WitnessCosts(sqrt, s, t);
    p := TwoPicks(sqrt, s, t, 0, -1);
    q := TwoPicks(sqrt, t, s, 1, 0);
  }

  lemma WitnessCosts(sqrt: real -> real, s: seq<Minutia>, t: seq<Minutia>)
    requires IsRoot(sqrt)
    requires s == [Minutia(0, 0, 20.0), Minutia(0, 0, 40.0)] && t == [Minutia(0, 0, 35.0), Minutia(0, 0, 0.0)]
    ensures IsBest(sqrt, s[0], t, {}, 0) && IsBest(sqrt, s[1], t, {0}, -1)
    ensures IsBest(sqrt, t[0], s, {}, 1) && IsBest(sqrt, t[1], s, {1}, 0)
  {
    hide IsRoot, Distance;
    SamePlace(sqrt, s[0], t[0]);
    SamePlace(sqrt, s[0], t[1]);
    SamePlace(sqrt, s[1], t[0]);
    SamePlace(sqrt, s[1], t[1]);
    SamePlace(sqrt, t[0], s[0]);
    SamePlace(sqrt, t[0], s[1]);
    SamePlace(sqrt, t[1], s[0]);
    SamePlace(sqrt, t[1], s[1]);
  }

  /** Two templates of two minutiae each: both picks of a greedy matching. */
  lemma TwoPicks(sqrt: real -> real, s: seq<Minutia>, t: seq<Minutia>, p: int, q: int) returns (pick: seq<int>)
    requires |s| == |t| == 2 && p >= 0
    requires IsBest(sqrt, s[0], t, {}, p) && IsBest(sqrt, s[1], t, {p}, q)
    ensures pick == [p, q] && IsGreedy(sqrt, s, t, pick)
    ensures |Used(pick)| == if q >= 0 then 2 else 1
  {
    hide IsBest;
    var none: seq<int> := [];
    assert IsGreedy(sqrt, s, t, none) && Used(none) == {};
    ExtendGreedy(sqrt, s, t, none, p);
    assert none + [p] == [p] && {} + {p} == {p};
    ExtendGreedy(sqrt, s, t, [p], q);
    assert [p] + [q] == [p, q];
    pick := [p, q];
    assert Used(pick) == if q >= 0 then {p} + {q} else {p};
    PicksAreInjective(sqrt, s, t, pick);
    assert pick[0] != pick[1];
  }

  lemma SamePlace(sqrt: real -> real, m: Minutia, n: Minutia)
    requires IsRoot(sqrt) && m.x == n.x && m.y == n.y
    ensures Distance(sqrt, m, n) == 0.0
  {
    hide Square;
    SquareSign(0.0);
    assert Square(sqrt(0.0)) == 0.0;
    SquareSign(sqrt(0.0));
  }
}
