/** Persisted collation rollups and their incremental refresh (domain_inec.go). */
module Rollup {
  import opened Options
  import opened Results
  import opened Filtering
  import opened Collation

  // ---------------------------------------------------------------------------------------
  // One rollup.
  // ---------------------------------------------------------------------------------------

  datatype RollupStatus = InProgress | Completed | AreaDisputed

  /** A collation_results row with its party scores. */
  datatype RollupRow = RollupRow(partyTotals: map<string, int>, totalVotes: int, registered: nat, accredited: int, rejected: int,
                                 cast: int, unitsTotal: nat, status: RollupStatus)

  function SumVotes(rows: seq<Result>): int {
    if rows == [] then 0 else SumVotes(rows[..|rows| - 1]) + SumScores(rows[|rows| - 1].scores)
  }

  function SumScores(scores: seq<Score>): int {
    if scores == [] then 0 else SumScores(scores[..|scores| - 1]) + scores[|scores| - 1].votes
  }

  function Sum(rows: seq<Result>, column: Result -> int): int {
    if rows == [] then 0 else Sum(rows[..|rows| - 1], column) + column(rows[|rows| - 1])
  }

  /** The election's own results of an area that are not superseded (resultStatusCounts). */
  function OwnResults(s: Snapshot, e: int, area: Area): seq<Result> {
    Filter(s.results, (r: Result) => r.election == e && r.status != Superseded && InArea(s.geo, r.unit, area))
  }

  function UnitsWith(rows: seq<Result>, status: ResultStatus): set<string> {
    set r | r in rows && r.status == status :: r.unit
  }

  function Reported(rows: seq<Result>): set<string> { set r | r in rows :: r.unit }

  function AreaUnits(geo: Geography, area: Area): set<string> { set u | u in geo.unitWard && InArea(geo, u, area) }

  /** The sum of the per-status counts, units without a result included. */
  function UnitsTotal(units: set<string>, own: seq<Result>): nat {
    |UnitsWith(own, Pending)| + |UnitsWith(own, Validated)| + |UnitsWith(own, Finalized)| + |UnitsWith(own, Disputed)|
    + |UnitsWith(own, Voided)| + |units - Reported(own)|
  }

  function StatusOf(units: set<string>, own: seq<Result>): RollupStatus {
    var total := UnitsTotal(units, own);
    if |UnitsWith(own, Disputed)| > 0 then AreaDisputed
    else if total > 0 && |UnitsWith(own, Finalized)| >= total - |UnitsWith(own, Voided)| then Completed
    else InProgress
  }

  /** The registered voters of all polling units of the area, reported or not. */
  function Registered(geo: Geography, units: seq<PollingUnit>, area: Area): nat {
    if units == [] then 0
    else
      var n := |units| - 1;
      Registered(geo, units[..n], area) + if InArea(geo, units[n].code, area) then units[n].registered else 0
  }

  function Summary(canonical: seq<Result>, own: seq<Result>, units: set<string>, registered: nat): RollupRow {
    RollupRow(PartyTotals(canonical), SumVotes(canonical), registered,
              Sum(canonical, (r: Result) => r.accredited), Sum(canonical, (r: Result) => r.rejected),
              Sum(canonical, (r: Result) => r.cast), UnitsTotal(units, own), StatusOf(units, own))
  }

  /** What a full computation gives for the area. */
  function Fresh(s: Snapshot, e: int, area: Area): RollupRow {
    Summary(CanonicalIn(s, e, area), OwnResults(s, e, area), AreaUnits(s.geo, area), Registered(s.geo, s.geo.units, area))
  }

  // ---------------------------------------------------------------------------------------
  // The table and the refresh.
  // ---------------------------------------------------------------------------------------

  datatype Key = Key(election: int, area: Area)

  /** Which of its two look-ups a refresh could make; a look-up that fails counts as nothing on record. */
  datatype Lookups = Lookups(lga: bool, state: bool)

  /** The areas that a refresh writes: the ward with whatever of its LGA and state it finds, and the
      nation. */
  function Chain(geo: Geography, ward: string, found: Lookups): seq<Area> {
    [Ward(ward)]
    + (if found.lga && ward in geo.wardLga then
         [Lga(geo.wardLga[ward])]
         + (if found.state && geo.wardLga[ward] in geo.lgaState then [State(geo.lgaState[geo.wardLga[ward]])] else [])
       else [])
    + [National]
  }

  function FullChain(geo: Geography, ward: string): seq<Area> { Chain(geo, ward, Lookups(true, true)) }

  function Refreshed(table: map<Key, RollupRow>, s: Snapshot, e: int, areas: seq<Area>): map<Key, RollupRow> {
    if areas == [] then table
    else
      var n := |areas| - 1;
      Refreshed(table, s, e, areas[..n])[Key(e, areas[n]) := Fresh(s, e, areas[n])]
  }

  class RollupTable {
    var rows: map<Key, RollupRow>

    constructor ()
      ensures rows == map[]
    {
      rows := map[];
    }

    method PersistCollationRollup(s: Snapshot, e: int, area: Area, databaseFails: bool) returns (ok: bool)
      modifies this
      ensures ok <==> !databaseFails
      ensures rows == if ok then old(rows)[Key(e, area) := Fresh(s, e, area)] else old(rows)
    {
      if databaseFails {
        return false;
      }
      var canonical := CanonicalIn(s, e, area);
      var own := OwnResults(s, e, area);
      rows := rows[Key(e, area) := Summary(canonical, own, AreaUnits(s.geo, area), Registered(s.geo, s.geo.units, area))];
      return true;
    }

    method ChainAreas(geo: Geography, ward: string, found: Lookups) returns (areas: seq<Area>)
      ensures areas == Chain(geo, ward, found)
    {
      areas := [Ward(ward)];
      if found.lga && ward in geo.wardLga {
        var lga := geo.wardLga[ward];
        areas := areas + [Lga(lga)];
        if found.state && lga in geo.lgaState {
          areas := areas + [State(geo.lgaState[lga])];
        }
      }
      areas := areas + [National];
    }

    /** The refresh for one ward; it stops at the first area that cannot be written, `failsAt`. */
    method RollupCollationHierarchy(s: Snapshot, e: int, ward: string, found: Lookups, failsAt: Option<nat>) returns (ok: bool)
      modifies this
      ensures ok <==> failsAt.None? || failsAt.value >= |Chain(s.geo, ward, found)|
      ensures rows == Refreshed(old(rows), s, e, if ok then Chain(s.geo, ward, found) else Chain(s.geo, ward, found)[..failsAt.value])
    {
      hide Fresh, Chain;
      var areas := ChainAreas(s.geo, ward, found);
      var i := 0;
      while i < |areas|
        invariant i <= |areas| && rows == Refreshed(old(rows), s, e, areas[..i])
        invariant failsAt.Some? ==> i <= failsAt.value
      {
        var persisted := PersistCollationRollup(s, e, areas[i], failsAt == Some(i));
        if !persisted {
          return false;
        }
        assert areas[..i + 1][..i] == areas[..i];
        i := i + 1;
      }
      assert areas[..|areas|] == areas;
      return true;
    }
  }

  // ---------------------------------------------------------------------------------------
  // Incremental refresh.
  // ---------------------------------------------------------------------------------------

  predicate InWard(geo: Geography, unit: string, ward: string) { unit in geo.unitWard && geo.unitWard[unit] == ward }

  predicate AtWard(geo: Geography, ward: string, r: Result) { InWard(geo, r.unit, ward) }

  /** From `s` to `t` only results at polling units of `ward` changed. */
  ghost predicate OnlyWardChanged(s: Snapshot, t: Snapshot, ward: string) {
    && t.geo == s.geo && t.elections == s.elections && t.scopes == s.scopes
    && Filter(s.results, (r: Result) => !AtWard(s.geo, ward, r)) == Filter(t.results, (r: Result) => !AtWard(s.geo, ward, r))
  }

  /** Every stored rollup of the election is what a full computation gives. */
  ghost predicate AllMatch(table: map<Key, RollupRow>, s: Snapshot, e: int) {
    forall area :: Key(e, area) in table ==> table[Key(e, area)] == Fresh(s, e, area)
  }

  /** Which result is canonical at a polling unit depends on the results of that unit alone. */
  lemma CanonicalIsLocal(s: Snapshot, t: Snapshot, e: int, ward: string, r: Result)
    requires OnlyWardChanged(s, t, ward) && !AtWard(s.geo, ward, r)
    ensures Canonical(s, e, r) <==> Canonical(t, e, r)
  {
    hide InScope;
    var away := (q: Result) => !AtWard(s.geo, ward, q);
    FilterMembers(s.results, away);
    FilterMembers(t.results, away);
    forall q: Result | !AtWard(s.geo, ward, q)
      ensures q in s.results <==> q in t.results
    {
      assert q in Filter(s.results, away) <==> q in s.results;
      assert q in Filter(t.results, away) <==> q in t.results;
    }
    forall q: Result
      ensures ChildResult(s, e, q) <==> ChildResult(t, e, q)
    {
      assert InScope(s, q.election, q.unit) <==> InScope(t, q.election, q.unit) by { SameScopes(s, t, q.election, q.unit); }
    }
    assert Replaced(s, e, r.unit) <==> Replaced(t, e, r.unit);
  }

  lemma SameScopes(s: Snapshot, t: Snapshot, c: int, unit: string)
    requires s.geo == t.geo && s.scopes == t.scopes
    ensures InScope(s, c, unit) <==> InScope(t, c, unit)
  {
  }

  /** An area without any unit of the ward keeps its canonical and its own results. */
  lemma OtherAreasKeepResults(s: Snapshot, t: Snapshot, e: int, ward: string, area: Area)
    requires OnlyWardChanged(s, t, ward)
    requires forall u :: InArea(s.geo, u, area) ==> !InWard(s.geo, u, ward)
    ensures CanonicalIn(s, e, area) == CanonicalIn(t, e, area)
    ensures OwnResults(s, e, area) == OwnResults(t, e, area)
  {
    hide Canonical, InArea;
    var away := (r: Result) => !AtWard(s.geo, ward, r);
    var canonS := (r: Result) => Canonical(s, e, r) && InArea(s.geo, r.unit, area);
    var canonT := (r: Result) => Canonical(t, e, r) && InArea(t.geo, r.unit, area);
    forall r: Result
      ensures InArea(s.geo, r.unit, area) ==> away(r)
      ensures canonS(r) == canonT(r)
    {
      if away(r) {
        CanonicalIsLocal(s, t, e, ward, r);
      }
    }
    FilterAfter(s.results, away, canonS);
    FilterAfter(t.results, away, canonT);
    FilterAgree(Filter(s.results, away), canonS, canonT);
    var ownS := (r: Result) => r.election == e && r.status != Superseded && InArea(s.geo, r.unit, area);
    var ownT := (r: Result) => r.election == e && r.status != Superseded && InArea(t.geo, r.unit, area);
    FilterAfter(s.results, away, ownS);
    FilterAfter(t.results, away, ownT);
    FilterAgree(Filter(s.results, away), ownS, ownT);
  }

  lemma ChainCoversWard(geo: Geography, ward: string, area: Area, u: string)
    requires InArea(geo, u, area) && InWard(geo, u, ward)
    ensures area in FullChain(geo, ward)
  {
  }

  lemma {:induction false} RefreshedRows(table: map<Key, RollupRow>, s: Snapshot, e: int, areas: seq<Area>, key: Key)
    ensures key in Refreshed(table, s, e, areas) <==> key in table || (key.election == e && key.area in areas)
    ensures key.election == e && key.area in areas ==> Refreshed(table, s, e, areas)[key] == Fresh(s, e, key.area)
    ensures key in table && !(key.election == e && key.area in areas) ==> Refreshed(table, s, e, areas)[key] == table[key]
  {
    hide Fresh;
    if areas != [] {
      RefreshedRows(table, s, e, areas[..|areas| - 1], key);
      assert areas == areas[..|areas| - 1] + [areas[|areas| - 1]];
    }
  }

  /** If every stored rollup was right and then only results of one ward changed, a refresh of some areas
      makes every stored rollup right again exactly if each area of the ward's chain that it leaves out, and
      that is stored, has not moved. */
  lemma RefreshRestoresIff(table: map<Key, RollupRow>, s: Snapshot, t: Snapshot, e: int, ward: string, areas: seq<Area>)
    requires AllMatch(table, s, e) && OnlyWardChanged(s, t, ward)
    ensures AllMatch(Refreshed(table, t, e, areas), t, e) <==>
      forall area :: area in FullChain(t.geo, ward) && area !in areas && Key(e, area) in table ==> table[Key(e, area)] == Fresh(t, e, area)
  {
    hide Fresh, Summary, InArea, FullChain, OnlyWardChanged;
    var after := Refreshed(table, t, e, areas);
    forall area
      ensures Key(e, area) in after && (area in areas || area !in FullChain(t.geo, ward)) ==> after[Key(e, area)] == Fresh(t, e, area)
      ensures area !in areas ==> (Key(e, area) in after <==> Key(e, area) in table)
      ensures area !in areas && Key(e, area) in table ==> after[Key(e, area)] == table[Key(e, area)]
    {
      RefreshedRows(table, t, e, areas, Key(e, area));
      if area !in FullChain(t.geo, ward) {
        OutsideChainIsFresh(s, t, e, ward, area);
      }
    }
  }

  lemma OutsideChainIsFresh(s: Snapshot, t: Snapshot, e: int, ward: string, area: Area)
    requires OnlyWardChanged(s, t, ward) && area !in FullChain(t.geo, ward)
    ensures Fresh(s, e, area) == Fresh(t, e, area)
  {
    hide Summary, InArea, FullChain;
    forall u | InArea(s.geo, u, area)
      ensures !InWard(s.geo, u, ward)
    {
      if InWard(s.geo, u, ward) {
        ChainCoversWard(s.geo, ward, area, u);
      }
    }
    OtherAreasKeepResults(s, t, e, ward, area);
  }

  /** Incremental refresh equals full recomputation: if every stored rollup was right and then only
      results of one ward changed, refreshing that ward's whole chain makes every stored rollup right again
      and touches no other election. */
  lemma RefreshRestoresAll(table: map<Key, RollupRow>, s: Snapshot, t: Snapshot, e: int, ward: string)
    requires AllMatch(table, s, e) && OnlyWardChanged(s, t, ward)
    ensures AllMatch(Refreshed(table, t, e, FullChain(t.geo, ward)), t, e)
    ensures forall key :: key in table && key.election != e ==>
      key in Refreshed(table, t, e, FullChain(t.geo, ward)) && Refreshed(table, t, e, FullChain(t.geo, ward))[key] == table[key]
  {
    hide Fresh, FullChain, OnlyWardChanged;
    RefreshRestoresIff(table, s, t, e, ward, FullChain(t.geo, ward));
    forall key | key in table && key.election != e
      ensures key in Refreshed(table, t, e, FullChain(t.geo, ward)) && Refreshed(table, t, e, FullChain(t.geo, ward))[key] == table[key]
    {
      RefreshedRows(table, t, e, FullChain(t.geo, ward), key);
    }
  }

  /** When the look-up of the LGA fails, its error is dropped: the refresh reports success and leaves the
      LGA's rollup behind. */
  lemma FailedLookupLeavesStaleRow() returns (table: map<Key, RollupRow>, s: Snapshot, t: Snapshot)
    ensures AllMatch(table, s, 1) && OnlyWardChanged(s, t, "W")
    ensures !AllMatch(Refreshed(table, t, 1, Chain(t.geo, "W", Lookups(false, true))), t, 1)
  {
    hide Fresh, OnlyWardChanged;
    var geo := Geography([PollingUnit("U", 100)], map["U" := "W"], map["W" := "L"], map["L" := "S"], {"S"});
    var elections := map[1 := Election(Options.None, General, false)];
    var r := Result(1, 1, "U", Finalized, 10, 10, 0, [Score("P", 10)]);
    s, t := Snapshot(geo, elections, [], []), Snapshot(geo, elections, [], [r]);
    table := map[Key(1, Lga("L")) := Fresh(s, 1, Lga("L"))];
    OneResultFresh(s, t, r);
    OneResultChanges(s, t, r);
    assert Lga("L") in FullChain(t.geo, "W") && Lga("L") !in Chain(t.geo, "W", Lookups(false, true));
    assert Key(1, Lga("L")) in table;
    hide Chain, FullChain;
    RefreshRestoresIff(table, s, t, 1, "W", Chain(t.geo, "W", Lookups(false, true)));
  }

  lemma OneResultChanges(s: Snapshot, t: Snapshot, r: Result)
    requires t == s.(results := [r]) && s.results == [] && AtWard(s.geo, "W", r)
    ensures OnlyWardChanged(s, t, "W")
  {
    assert [r][..0] == [];
  }

  lemma OneResultFresh(s: Snapshot, t: Snapshot, r: Result)
    requires t == s.(results := [r]) && s.results == [] && r.election == 1 && r.status == Finalized && r.scores == [Score("P", 10)]
    requires InArea(s.geo, r.unit, Lga("L")) && s.elections == map[1 := Election(Options.None, General, false)]
    ensures Fresh(s, 1, Lga("L")) != Fresh(t, 1, Lga("L"))
  {
    var before, after := CanonicalIn(s, 1, Lga("L")), CanonicalIn(t, 1, Lga("L"));
    assert Canonical(t, 1, r);
    hide Canonical, InArea;
    CanonicalMembers(s, 1, Lga("L"));
    CanonicalMembers(t, 1, Lga("L"));
    assert r.scores[0].party == "P" && r in after;
    assert "P" in PartiesOf(r.scores);
    assert "P" in Parties(after) && "P" !in Parties(before);
    assert "P" in PartyTotals(after) && "P" !in PartyTotals(before);
  }

  lemma GeoKept(s: Snapshot, t: Snapshot, ward: string)
    requires OnlyWardChanged(s, t, ward)
    ensures t.geo == s.geo
  {
  }
}
