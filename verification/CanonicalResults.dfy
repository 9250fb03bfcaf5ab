/** Which results count, in terms of the columns of the tables (canonicalResultsCTE in domain_inec.go). */
module CanonicalResults {
  import opened Options
  import opened Results
  import opened Filtering
  import opened Collation

  // ---------------------------------------------------------------------------------------
  // Membership.
  // ---------------------------------------------------------------------------------------

  /** A rerun, supplementary or by-election of `e` that is not cancelled. */
  ghost predicate ActiveChild(s: Snapshot, e: int, c: int) {
    && c in s.elections && s.elections[c].parent == Some(e) && !s.elections[c].cancelled
    && s.elections[c].kind in {Rerun, Supplementary, ByElection}
  }

  /** A scope row of the election names the unit, its ward or its LGA. */
  ghost predicate InItsScope(s: Snapshot, c: int, unit: string) {
    exists scope :: scope in s.scopes && scope.election == c && unit in s.geo.unitWard
      && var ward := s.geo.unitWard[unit];
         (scope.scopeType == UnitScope && scope.area == unit)
         || (scope.scopeType == WardScope && scope.area == ward)
         || (scope.scopeType == LgaScope && ward in s.geo.wardLga && scope.area == s.geo.wardLga[ward])
  }

  /** A finalized result of such a child in its scope. */
  ghost predicate ChildCounts(s: Snapshot, e: int, r: Result) {
    r.status == Finalized && ActiveChild(s, e, r.election) && InItsScope(s, r.election, r.unit)
  }

  lemma ChildCountsIff(s: Snapshot, e: int, r: Result)
    ensures ChildResult(s, e, r) <==> ChildCounts(s, e, r)
  {
    assert LiveChild(s, e, r.election) <==> ActiveChild(s, e, r.election);
    if InScope(s, r.election, r.unit) {
      var scope :| scope in s.scopes && scope.election == r.election && Covers(s.geo, scope, r.unit);
    }
    if InItsScope(s, r.election, r.unit) {
      var scope :| scope in s.scopes && scope.election == r.election && r.unit in s.geo.unitWard
        && var ward := s.geo.unitWard[r.unit];
           (scope.scopeType == UnitScope && scope.area == r.unit)
           || (scope.scopeType == WardScope && scope.area == ward)
           || (scope.scopeType == LgaScope && ward in s.geo.wardLga && scope.area == s.geo.wardLga[ward]);
      assert Covers(s.geo, scope, r.unit);
    }
  }

  /** The unit is in the area, by its ward, LGA or state. */
  ghost predicate Lies(geo: Geography, unit: string, area: Area) {
    && unit in geo.unitWard && geo.unitWard[unit] in geo.wardLga && geo.wardLga[geo.unitWard[unit]] in geo.lgaState
    && (area.Ward? ==> geo.unitWard[unit] == area.code)
    && (area.Lga? ==> geo.wardLga[geo.unitWard[unit]] == area.code)
    && (area.State? ==> geo.lgaState[geo.wardLga[geo.unitWard[unit]]] == area.code)
  }

  /** The canonical results of an area are its finalized results: those of active children in their scope,
      and the election's own where no such child has one. */
  lemma CanonicalMeans(s: Snapshot, e: int, area: Area, r: Result)
    ensures r in CanonicalIn(s, e, area) <==>
      && r in s.results && r.status == Finalized && Lies(s.geo, r.unit, area)
      && (ChildCounts(s, e, r) || (r.election == e && forall q :: q in s.results && ChildCounts(s, e, q) ==> q.unit != r.unit))
  {
    CanonicalMembers(s, e, area);
    hide ChildResult, ChildCounts;
    assert InArea(s.geo, r.unit, area) <==> Lies(s.geo, r.unit, area);
    ChildCountsIff(s, e, r);
    forall q
      ensures ChildResult(s, e, q) <==> ChildCounts(s, e, q)
    {
      ChildCountsIff(s, e, q);
    }
    CountingIsFinalized(s, e, r);
  }

  lemma CountingIsFinalized(s: Snapshot, e: int, r: Result)
    ensures ChildCounts(s, e, r) ==> r.status == Finalized
  {
  }

  /** Each canonical result is counted once, in the order of the table. */
  lemma CanonicalInOrder(s: Snapshot, e: int, area: Area) returns (places: seq<nat>)
    ensures |places| == |CanonicalIn(s, e, area)|
    ensures forall i, j :: 0 <= i < j < |places| ==> places[i] < places[j]
    ensures forall i :: 0 <= i < |places| ==> places[i] < |s.results| && s.results[places[i]] == CanonicalIn(s, e, area)[i]
    ensures forall k :: 0 <= k < |s.results| && s.results[k] in CanonicalIn(s, e, area) ==> exists i :: 0 <= i < |places| && places[i] == k
  {
    var keep := (r: Result) => Canonical(s, e, r) && InArea(s.geo, r.unit, area);
    places := FilterPlaces(s.results, keep);
    FilterMembers(s.results, keep);
  }

  /** Nothing about a result that is not finalized matters, as long as it does not become finalized. */
  lemma UnfinalizedMovesNothing(s: Snapshot, i: nat, q: Result, e: int, area: Area)
    requires i < |s.results| && s.results[i].status != Finalized && q.status != Finalized
    ensures
      var t := s.(results := s.results[i := q]);
      CanonicalIn(t, e, area) == CanonicalIn(s, e, area) && CanonicalPartyTotals(t, e, area) == CanonicalPartyTotals(s, e, area)
  {
    var t := s.(results := s.results[i := q]);
    var keepS := (r: Result) => Canonical(s, e, r) && InArea(s.geo, r.unit, area);
    var keepT := (r: Result) => Canonical(t, e, r) && InArea(t.geo, r.unit, area);
    forall r: Result
      ensures r.status == Finalized ==> (r in s.results <==> r in t.results)
      ensures ChildResult(s, e, r) <==> ChildResult(t, e, r)
    {
      if r in s.results && r.status == Finalized {
        var k :| 0 <= k < |s.results| && s.results[k] == r;
        assert t.results[k] == r;
      }
      if r in t.results && r.status == Finalized {
        var k :| 0 <= k < |t.results| && t.results[k] == r;
        assert s.results[k] == r;
      }
      SameChild(s, t, e, r);
    }
    hide InArea;
    forall r: Result
      ensures keepS(r) == keepT(r)
      ensures r.status != Finalized ==> !keepS(r)
    {
      assert Replaced(s, e, r.unit) <==> Replaced(t, e, r.unit);
    }
    FilterReplaced(s.results, i, q, keepS);
    FilterAgree(t.results, keepT, keepS);
  }

  lemma SameChild(s: Snapshot, t: Snapshot, e: int, r: Result)
    requires t == s.(results := t.results)
    ensures ChildResult(s, e, r) <==> ChildResult(t, e, r)
  {
  }

  lemma {:induction false} FilterReplaced<T>(rows: seq<T>, i: nat, q: T, keep: T -> bool)
    requires i < |rows| && !keep(rows[i]) && !keep(q)
    ensures Filter(rows[i := q], keep) == Filter(rows, keep)
  {
    var n := |rows| - 1;
    if i < n {
      FilterReplaced(rows[..n], i, q, keep);
      assert rows[i := q][..n] == rows[..n][i := q];
    } else {
      assert rows[i := q][..n] == rows[..n];
    }
  }

  // ---------------------------------------------------------------------------------------
  // Totals.
  // ---------------------------------------------------------------------------------------

  /** A result with one score per party counts each party's votes, and nothing for other parties. */
  lemma OneResultCounts(r: Result, party: string)
    requires forall i, j :: 0 <= i < j < |r.scores| ==> r.scores[i].party != r.scores[j].party
    ensures forall i :: 0 <= i < |r.scores| && r.scores[i].party == party ==> PartyTotal([r], party) == r.scores[i].votes
    ensures (forall i :: 0 <= i < |r.scores| ==> r.scores[i].party != party) ==> PartyTotal([r], party) == 0
  {
    var one := [r];
    assert one[..0] == [];
    assert PartyTotal(one, party) == PartyTotal(one[..0], party) + ScoreOf(r.scores, party);
    ScoreMeans(r.scores, party);
  }

  lemma {:induction false} ScoreMeans(scores: seq<Score>, party: string)
    requires forall i, j :: 0 <= i < j < |scores| ==> scores[i].party != scores[j].party
    ensures forall i :: 0 <= i < |scores| && scores[i].party == party ==> ScoreOf(scores, party) == scores[i].votes
    ensures (forall i :: 0 <= i < |scores| ==> scores[i].party != party) ==> ScoreOf(scores, party) == 0
  {
    if scores != [] {
      var n := |scores| - 1;
      ScoreMeans(scores[..n], party);
    }
  }

  /** Totals of several results add up. */
  lemma {:induction false} TotalsAdd(a: seq<Result>, b: seq<Result>, party: string)
    ensures PartyTotal(a + b, party) == PartyTotal(a, party) + PartyTotal(b, party)
  {
    if b == [] {
      assert a + b == a;
    } else {
      var n := |b| - 1;
      TotalsAdd(a, b[..n], party);
      assert (a + b)[..|a + b| - 1] == a + b[..n];
    }
  }

  /** A party is listed in the totals exactly if some canonical result has a score of it. */
  lemma ListedParties(s: Snapshot, e: int, area: Area, party: string)
    ensures party in CanonicalPartyTotals(s, e, area) <==>
      exists r, i :: r in CanonicalIn(s, e, area) && 0 <= i < |r.scores| && r.scores[i].party == party
    ensures party in CanonicalPartyTotals(s, e, area) ==>
      CanonicalPartyTotals(s, e, area)[party] == PartyTotal(CanonicalIn(s, e, area), party)
  {
    hide CanonicalIn, PartyTotal;
    var rows := CanonicalIn(s, e, area);
    if party in Parties(rows) {
      var r :| r in rows && party in PartiesOf(r.scores);
      var x :| x in r.scores && x.party == party;
      var i :| 0 <= i < |r.scores| && r.scores[i] == x;
    }
    if r, i :| r in rows && 0 <= i < |r.scores| && r.scores[i].party == party {
      assert r.scores[i] in r.scores;
      assert party in PartiesOf(r.scores);
    }
  }

  /** Without any finalized result there are no totals. */
  lemma UnfinalizedCountsNothing(s: Snapshot, e: int, area: Area)
    requires forall r :: r in s.results ==> r.status != Finalized
    ensures CanonicalPartyTotals(s, e, area) == map[]
  {
    var rows := CanonicalIn(s, e, area);
    SomeMember(rows);
    forall r
      ensures r !in rows
    {
      CanonicalMeans(s, e, area, r);
    }
  }

  lemma SomeMember(rows: seq<Result>)
    ensures rows == [] || exists r :: r in rows
  {
    assert rows == [] || rows[0] in rows;
  }
}
