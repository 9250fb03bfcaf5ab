/** What the columns of a stored rollup hold (persistCollationRollup and collateLevel in domain_inec.go). */
module RollupFigures {
  import opened Options
  import opened Results
  import opened Filtering
  import opened Sets
  import opened Collation
  import opened Rollup

  // ---------------------------------------------------------------------------------------
  // Sums.
  // ---------------------------------------------------------------------------------------

  /** The columns over two lists of results add up. */
  lemma {:induction false} SumsAdd(a: seq<Result>, b: seq<Result>, column: Result -> int)
    ensures Sum(a + b, column) == Sum(a, column) + Sum(b, column) && SumVotes(a + b) == SumVotes(a) + SumVotes(b)
  {
    if b == [] {
      assert a + b == a;
    } else {
      var n := |b| - 1;
      SumsAdd(a, b[..n], column);
      assert (a + b)[..|a + b| - 1] == a + b[..n];
    }
  }

  function VotesIn(scores: seq<Score>): int {
    if scores == [] then 0 else scores[0].votes + VotesIn(scores[1..])
  }

  lemma {:induction false} SumScoresMeans(scores: seq<Score>)
    ensures SumScores(scores) == VotesIn(scores)
  {
    if scores != [] {
      var n := |scores| - 1;
      SumScoresMeans(scores[..n]);
      VotesLast(scores);
    }
  }

  lemma {:induction false} VotesLast(scores: seq<Score>)
    requires scores != []
    ensures VotesIn(scores) == VotesIn(scores[..|scores| - 1]) + scores[|scores| - 1].votes
  {
    if |scores| > 1 {
      VotesLast(scores[1..]);
      assert scores[1..][..|scores| - 2] == scores[..|scores| - 1][1..];
    }
  }

  /** An area with one canonical result shows that result's figures, each in its column. */
  lemma OneResultRow(s: Snapshot, e: int, area: Area, r: Result)
    requires CanonicalIn(s, e, area) == [r]
    ensures var row := Fresh(s, e, area);
      && row.accredited == r.accredited && row.rejected == r.rejected && row.cast == r.cast
      && row.totalVotes == VotesIn(r.scores) && row.partyTotals == CanonicalPartyTotals(s, e, area)
  {
    hide CanonicalIn, CanonicalPartyTotals;
    var one := [r];
    assert one[..0] == [];
    SumScoresMeans(r.scores);
    OneSum(r, (q: Result) => q.accredited);
    OneSum(r, (q: Result) => q.rejected);
    OneSum(r, (q: Result) => q.cast);
    assert SumVotes(one) == SumVotes(one[..0]) + SumScores(r.scores);
    assert Fresh(s, e, area) == Summary(one, OwnResults(s, e, area), AreaUnits(s.geo, area), Registered(s.geo, s.geo.units, area));
    assert CanonicalPartyTotals(s, e, area) == PartyTotals(one) by { TotalsAreOf(s, e, area); }
  }

  lemma TotalsAreOf(s: Snapshot, e: int, area: Area)
    ensures CanonicalPartyTotals(s, e, area) == PartyTotals(CanonicalIn(s, e, area))
  {
  }

  lemma OneSum(r: Result, column: Result -> int)
    ensures Sum([r], column) == column(r)
  {
    var one := [r];
    assert one[..0] == [];
  }

  /** The figures of an area are the sums over any division of its canonical results. */
  lemma RowsAdd(a: seq<Result>, b: seq<Result>, own: seq<Result>, units: set<string>, registered: nat)
    ensures var whole, left, right :=
        Summary(a + b, own, units, registered), Summary(a, own, units, registered), Summary(b, own, units, registered);
      && whole.accredited == left.accredited + right.accredited && whole.rejected == left.rejected + right.rejected
      && whole.cast == left.cast + right.cast && whole.totalVotes == left.totalVotes + right.totalVotes
  {
    SumsAdd(a, b, (r: Result) => r.accredited);
    SumsAdd(a, b, (r: Result) => r.rejected);
    SumsAdd(a, b, (r: Result) => r.cast);
  }

  // ---------------------------------------------------------------------------------------
  // Status.
  // ---------------------------------------------------------------------------------------

  /** The unit has a result of the election, not superseded, with this status. */
  ghost predicate Shows(s: Snapshot, e: int, unit: string, status: ResultStatus) {
    exists r :: r in s.results && r.election == e && r.unit == unit && r.status == status
  }

  /** No unit of the area shows two statuses. */
  ghost predicate OneStatusEach(s: Snapshot, e: int, area: Area) {
    forall u, a, b :: InArea(s.geo, u, area) && a != Superseded && b != Superseded && Shows(s, e, u, a) && Shows(s, e, u, b) ==> a == b
  }

  lemma OwnMeans(s: Snapshot, e: int, area: Area, status: ResultStatus)
    requires status != Superseded
    ensures forall u :: u in UnitsWith(OwnResults(s, e, area), status) <==> InArea(s.geo, u, area) && Shows(s, e, u, status)
  {
    hide InArea;
    FilterMembers(s.results, (r: Result) => r.election == e && r.status != Superseded && InArea(s.geo, r.unit, area));
  }

  lemma AreaUnitsMean(geo: Geography, area: Area)
    ensures forall u :: u in AreaUnits(geo, area) <==> InArea(geo, u, area)
  {
  }

  /** An area is disputed exactly if a unit of it shows a disputed result. */
  lemma DisputedMeans(s: Snapshot, e: int, area: Area)
    ensures Fresh(s, e, area).status == AreaDisputed <==> exists u :: InArea(s.geo, u, area) && Shows(s, e, u, Disputed)
  {
    hide InArea, Shows, OwnResults, CanonicalIn, UnitsTotal;
    OwnMeans(s, e, area, Disputed);
    var units := UnitsWith(OwnResults(s, e, area), Disputed);
    if u :| InArea(s.geo, u, area) && Shows(s, e, u, Disputed) {
      assert u in units;
      assert |units| > 0 by { SubsetSize({u}, units); }
    }
    if |units| > 0 {
      var u := AnyOf(units);
    }
  }

  /** Where no unit shows two statuses, the units total is the number of units of the area, and the area is
      completed exactly if it has units, none is disputed, and each is finalized or voided. */
  lemma CompletedMeans(s: Snapshot, e: int, area: Area)
    requires OneStatusEach(s, e, area)
    ensures Fresh(s, e, area).unitsTotal == |AreaUnits(s.geo, area)|
    ensures Fresh(s, e, area).status == Completed <==>
      && (exists u :: InArea(s.geo, u, area))
      && (forall u :: InArea(s.geo, u, area) ==> !Shows(s, e, u, Disputed) && (Shows(s, e, u, Finalized) || Shows(s, e, u, Voided)))
  {
    hide InArea, Shows, OwnResults, CanonicalIn, UnitsWith, AreaUnits, OneStatusEach;
    var own, units := OwnResults(s, e, area), AreaUnits(s.geo, area);
    AreaUnitsMean(s.geo, area);
    PartitionByStatus(s, e, area);
    OwnMeans(s, e, area, Disputed);
    OwnMeans(s, e, area, Finalized);
    OwnMeans(s, e, area, Voided);
    var f, v, d := UnitsWith(own, Finalized), UnitsWith(own, Voided), UnitsWith(own, Disputed);
    Covering(f, v, units);
    NotEmpty(units);
    NotEmpty(d);
  }

  lemma NotEmpty(units: set<string>)
    ensures |units| > 0 <==> exists u :: u in units
  {
    if |units| > 0 {
      var u := AnyOf(units);
    }
    if u :| u in units {
      SubsetSize({u}, units);
    }
  }

  lemma Covering(f: set<string>, v: set<string>, units: set<string>)
    requires f <= units && v <= units && f !! v
    ensures |f| >= |units| - |v| <==> forall u :: u in units ==> u in f || u in v
  {
    UnionSize(f, v);
    assert f * v == {};
    DifferenceSize(f + v, units);
  }

  lemma PartitionByStatus(s: Snapshot, e: int, area: Area)
    requires OneStatusEach(s, e, area)
    ensures var own, units := OwnResults(s, e, area), AreaUnits(s.geo, area);
      && UnitsTotal(units, own) == |units|
      && UnitsWith(own, Finalized) <= units && UnitsWith(own, Voided) <= units && UnitsWith(own, Finalized) !! UnitsWith(own, Voided)
  {
    hide InArea, Shows, OwnResults, UnitsWith, AreaUnits, OneStatusEach;
    var own, units := OwnResults(s, e, area), AreaUnits(s.geo, area);
    var p, w, f, d, v := UnitsWith(own, Pending), UnitsWith(own, Validated), UnitsWith(own, Finalized), UnitsWith(own, Disputed), UnitsWith(own, Voided);
    Apart(s, e, area, Pending, Validated);
    Apart(s, e, area, Pending, Finalized);
    Apart(s, e, area, Pending, Disputed);
    Apart(s, e, area, Pending, Voided);
    Apart(s, e, area, Validated, Finalized);
    Apart(s, e, area, Validated, Disputed);
    Apart(s, e, area, Validated, Voided);
    Apart(s, e, area, Finalized, Disputed);
    Apart(s, e, area, Finalized, Voided);
    Apart(s, e, area, Disputed, Voided);
    ReportedMeans(s, e, area);
    DisjointSizes(p, w, f, d, v);
    DifferenceSize(p + w + f + d + v, units);
  }

  lemma Apart(s: Snapshot, e: int, area: Area, a: ResultStatus, b: ResultStatus)
    requires OneStatusEach(s, e, area) && a != b && a != Superseded && b != Superseded
    ensures var own := OwnResults(s, e, area);
      UnitsWith(own, a) !! UnitsWith(own, b) && UnitsWith(own, a) <= AreaUnits(s.geo, area) && UnitsWith(own, b) <= AreaUnits(s.geo, area)
  {
    hide InArea, Shows, OwnResults, UnitsWith, AreaUnits;
    OwnMeans(s, e, area, a);
    OwnMeans(s, e, area, b);
    AreaUnitsMean(s.geo, area);
  }

  lemma ReportedMeans(s: Snapshot, e: int, area: Area)
    ensures var own := OwnResults(s, e, area);
      Reported(own) == UnitsWith(own, Pending) + UnitsWith(own, Validated) + UnitsWith(own, Finalized) + UnitsWith(own, Disputed) + UnitsWith(own, Voided)
  {
    hide InArea;
    FilterMembers(s.results, (r: Result) => r.election == e && r.status != Superseded && InArea(s.geo, r.unit, area));
    var own := OwnResults(s, e, area);
    assert forall r :: r in own ==> r.status != Superseded;
    hide OwnResults;
    forall r | r in own
      ensures r.status in {Pending, Validated, Finalized, Disputed, Voided}
    {
      assert r.status.Pending? || r.status.Validated? || r.status.Finalized? || r.status.Disputed? || r.status.Voided? || r.status.Superseded?;
    }
  }

  lemma DisjointSizes(p: set<string>, w: set<string>, f: set<string>, d: set<string>, v: set<string>)
    requires p !! w && p !! f && p !! d && p !! v && w !! f && w !! d && w !! v && f !! d && f !! v && d !! v
    ensures |p + w + f + d + v| == |p| + |w| + |f| + |d| + |v|
  {
  }

  /** The whole chain of a ward on record is the ward, its LGA, its state and the nation, in this order. */
  lemma ChainMeans(geo: Geography, ward: string)
    requires geo.Valid() && ward in geo.wardLga
    ensures FullChain(geo, ward) == [Ward(ward), Lga(geo.wardLga[ward]), State(geo.lgaState[geo.wardLga[ward]]), National]
    ensures Chain(geo, ward, Lookups(true, false)) == [Ward(ward), Lga(geo.wardLga[ward]), National]
    ensures forall state :: Chain(geo, ward, Lookups(false, state)) == [Ward(ward), National]
  {
  }
}
