/** The geometry behind the minutiae cost (matchFingerprints in biometric_engine.go): angles lie on a
    circle, and only relative position and rotation count. */
module FingerprintGeometry {
  import opened FingerprintMatch
  import opened MatchSymmetry

  // ---------------------------------------------------------------------------------------
  // The angle gap is the distance on the circle.
  // ---------------------------------------------------------------------------------------

  function Magnitude(x: real): real { if x >= 0.0 then x else -x }

  predicate OnCircle(angle: real) { 0.0 <= angle < 360.0 }

  /** The difference of two angles after `k` whole turns. */
  function TurnedBy(x: real, y: real, k: int): real { Magnitude(x - y + 360.0 * k as real) }

  /** The gap of two angles is the least of their differences over all whole turns. */
  lemma GapIsCircular(m: Minutia, n: Minutia) returns (k: int)
    requires OnCircle(m.angle) && OnCircle(n.angle)
    ensures AngleGap(m, n) == TurnedBy(m.angle, n.angle, k)
    ensures forall j :: AngleGap(m, n) <= TurnedBy(m.angle, n.angle, j)
    ensures 0.0 <= AngleGap(m, n) <= 180.0 && AngleGap(m, n) == AngleGap(n, m)
  {
    var x, y := m.angle, n.angle;
    k := if x - y > 180.0 then -1 else if x - y < -180.0 then 1 else 0;
    forall j
      ensures AngleGap(m, n) <= TurnedBy(x, y, j)
    {
      var turns := 360.0 * j as real;
      if j >= 1 {
        assert turns >= 360.0;
      } else if j <= -1 {
        assert turns <= -360.0;
      }
    }
  }

  /** Rotation by an angle of the circle. */
  function Rotated(angle: real, turn: real): real { if angle + turn >= 360.0 then angle + turn - 360.0 else angle + turn }

  function Moved(m: Minutia, dx: int, dy: int, turn: real): Minutia {
    Minutia(m.x + dx, m.y + dy, Rotated(m.angle, turn))
  }

  lemma RotationKeepsGap(m: Minutia, n: Minutia, dx: int, dy: int, turn: real)
    requires OnCircle(m.angle) && OnCircle(n.angle) && OnCircle(turn)
    ensures OnCircle(Rotated(m.angle, turn))
    ensures AngleGap(Moved(m, dx, dy, turn), Moved(n, dx, dy, turn)) == AngleGap(m, n)
  {
  }

  lemma MovedPair(sqrt: real -> real, m: Minutia, n: Minutia, dx: int, dy: int, turn: real)
    requires OnCircle(m.angle) && OnCircle(n.angle) && OnCircle(turn)
    ensures var p, q := Moved(m, dx, dy, turn), Moved(n, dx, dy, turn);
      Cost(sqrt, p, q) == Cost(sqrt, m, n) && (Near(sqrt, p, q) <==> Near(sqrt, m, n)) && (Compatible(sqrt, p, q) <==> Compatible(sqrt, m, n))
  {
    RotationKeepsGap(m, n, dx, dy, turn);
    var p, q := Moved(m, dx, dy, turn), Moved(n, dx, dy, turn);
    assert p.x - q.x == m.x - n.x && p.y - q.y == m.y - n.y;
    hide AngleGap;
    assert Distance(sqrt, p, q) == Distance(sqrt, m, n);
  }

  function AllMoved(t: seq<Minutia>, dx: int, dy: int, turn: real): (moved: seq<Minutia>)
    ensures |moved| == |t| && forall i :: 0 <= i < |t| ==> moved[i] == Moved(t[i], dx, dy, turn)
  {
    seq(|t|, i requires 0 <= i < |t| => Moved(t[i], dx, dy, turn))
  }

  ghost predicate OnCircles(t: seq<Minutia>) { forall i :: 0 <= i < |t| ==> OnCircle(t[i].angle) }

  lemma MovedBest(sqrt: real -> real, m: Minutia, t: seq<Minutia>, used: set<int>, p: int, dx: int, dy: int, turn: real)
    requires OnCircle(m.angle) && OnCircles(t) && OnCircle(turn)
    ensures IsBest(sqrt, Moved(m, dx, dy, turn), AllMoved(t, dx, dy, turn), used, p) <==> IsBest(sqrt, m, t, used, p)
  {
    hide Cost, Near, Compatible, Moved;
    var moved := AllMoved(t, dx, dy, turn);
    forall j | 0 <= j < |t|
      ensures Cost(sqrt, Moved(m, dx, dy, turn), moved[j]) == Cost(sqrt, m, t[j])
      ensures Near(sqrt, Moved(m, dx, dy, turn), moved[j]) == Near(sqrt, m, t[j])
      ensures Compatible(sqrt, Moved(m, dx, dy, turn), moved[j]) == Compatible(sqrt, m, t[j])
    {
      MovedPair(sqrt, m, t[j], dx, dy, turn);
    }
  }

  /** Shifting both templates by the same way and turning them by the same angle leaves every pick as it
      was, and so the score. */
  lemma MotionKeepsMatching(sqrt: real -> real, a: seq<Minutia>, b: seq<Minutia>, pick: seq<int>, dx: int, dy: int, turn: real)
    requires OnCircles(a) && OnCircles(b) && OnCircle(turn)
    ensures IsGreedy(sqrt, AllMoved(a, dx, dy, turn), AllMoved(b, dx, dy, turn), pick) <==> IsGreedy(sqrt, a, b, pick)
  {
    hide IsBest;
    forall i | 0 <= i < |a| && i < |pick|
      ensures IsBest(sqrt, AllMoved(a, dx, dy, turn)[i], AllMoved(b, dx, dy, turn), Used(pick[..i]), pick[i])
        <==> IsBest(sqrt, a[i], b, Used(pick[..i]), pick[i])
    {
      MovedBest(sqrt, a[i], b, Used(pick[..i]), pick[i], dx, dy, turn);
    }
  }

  lemma MotionKeepsScore(sqrt: real -> real, a: Template, b: Template, p: seq<int>, q: seq<int>, dx: int, dy: int, turn: real)
    requires OnCircles(a.minutiae) && OnCircles(b.minutiae) && OnCircle(turn) && a.minutiae != [] && b.minutiae != []
    requires IsGreedy(sqrt, a.minutiae, b.minutiae, p) && |p| == |a.minutiae|
    requires IsGreedy(sqrt, AllMoved(a.minutiae, dx, dy, turn), AllMoved(b.minutiae, dx, dy, turn), q) && |q| == |a.minutiae|
    ensures p == q
    ensures Score(a.(minutiae := AllMoved(a.minutiae, dx, dy, turn)), b.(minutiae := AllMoved(b.minutiae, dx, dy, turn)), |Used(q)|)
         == Score(a, b, |Used(p)|)
  {
    hide IsGreedy, Used;
    MotionKeepsMatching(sqrt, a.minutiae, b.minutiae, q, dx, dy, turn);
    GreedyIsUnique(sqrt, a.minutiae, b.minutiae, p, q);
  }

  // ---------------------------------------------------------------------------------------
  // The figures.
  // ---------------------------------------------------------------------------------------

  /** Two minutiae can be paired exactly if their distance, plus a tenth of their angle gap, is below 15 and
      the gap is below 30 degrees. */
  lemma CompatibleMeans(sqrt: real -> real, m: Minutia, n: Minutia, dist: real, gap: real)
    requires OnCircle(m.angle) && OnCircle(n.angle)
    requires IsRoot(sqrt) && dist >= 0.0 && IsLength(dist, m.x - n.x, m.y - n.y)
    requires (exists k :: gap == TurnedBy(m.angle, n.angle, k)) && forall k :: gap <= TurnedBy(m.angle, n.angle, k)
    ensures Cost(sqrt, m, n) == dist + gap / 10.0
    ensures Compatible(sqrt, m, n) <==> dist + gap / 10.0 < 15.0 && gap < 30.0
  {
    var k := GapIsCircular(m, n);
    var j :| gap == TurnedBy(m.angle, n.angle, j);
    assert gap == AngleGap(m, n);
    DistanceMeans(sqrt, m, n, dist);
    hide AngleGap, Distance;
    assert gap * 0.1 == gap / 10.0;
  }

  /** `dist` is the length of the vector (dx, dy). */
  predicate IsLength(dist: real, dx: int, dy: int) { dist * dist == (dx * dx + dy * dy) as real }

  lemma DistanceMeans(sqrt: real -> real, m: Minutia, n: Minutia, dist: real)
    requires IsRoot(sqrt) && dist >= 0.0 && IsLength(dist, m.x - n.x, m.y - n.y)
    ensures Distance(sqrt, m, n) == dist
  {
    var dx, dy := m.x - n.x, m.y - n.y;
    IntSquare(dx);
    IntSquare(dy);
    var squares := Square(dx as real) + Square(dy as real);
    assert squares == Square(dist);
    SquareSign(dx as real);
    SquareSign(dy as real);
    hide Square;
    assert sqrt(squares) >= 0.0 && Square(sqrt(squares)) == squares;
    OneRoot(dist, sqrt(squares));
  }

  lemma IntSquare(x: int)
    ensures Square(x as real) == (x * x) as real
  {
    assert (x as real) * (x as real) == (x * x) as real;
  }

  lemma OneRoot(x: real, y: real)
    requires x >= 0.0 && y >= 0.0 && Square(x) == Square(y)
    ensures x == y
  {
    if x < y {
      SmallerSquare(x, y);
    } else if y < x {
      SmallerSquare(y, x);
    }
  }

  lemma SmallerSquare(x: real, y: real)
    requires 0.0 <= x < y
    ensures Square(x) < Square(y)
  {
    TimesSign(y - x, x + y);
    Expands(x, y);
  }

  lemma Expands(x: real, y: real)
    ensures Times(y - x, x + y) == Square(y) - Square(x)
  {
    assert (y - x) * (x + y) == y * y - x * x;
  }

  /** The score is the matched share of the smaller template, raised by 0.05 if both have one pattern and
      never above 1. */
  lemma ScoreMeans(a: Template, b: Template, matched: nat)
    requires a.minutiae != [] && b.minutiae != []
    ensures
      var smaller := if |a.minutiae| <= |b.minutiae| then |a.minutiae| else |b.minutiae|;
      var share := matched as real / smaller as real;
      && (a.pattern != b.pattern ==> Score(a, b, matched) == if share <= 1.0 then share else 1.0)
      && (a.pattern == b.pattern ==> Score(a, b, matched) == if share <= 0.95 then share + 0.05 else 1.0)
  {
  }

  /** Two minutiae at one place, on both sides of the zero direction, are paired. */
  lemma AcrossZeroIsPaired(sqrt: real -> real) returns (pick: seq<int>)
    requires IsRoot(sqrt)
    ensures IsGreedy(sqrt, [Minutia(0, 0, 359.0)], [Minutia(0, 0, 1.0)], pick) && pick == [0]
    ensures Cost(sqrt, Minutia(0, 0, 359.0), Minutia(0, 0, 1.0)) == 0.2
  {
    var m, n := Minutia(0, 0, 359.0), Minutia(0, 0, 1.0);
    SamePlace(sqrt, m, n);
    hide Distance;
    pick := [0];
    assert Used(pick[..0]) == {};
    assert IsBest(sqrt, m, [n], {}, 0);
  }
}
