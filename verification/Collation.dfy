/** Canonical collation (domain_inec.go): finalized results only, results of scoped rerun children in
    place of the parent's, totals per area, and the persisted rollups.  A query is modelled by the
    relation it computes on a snapshot of the tables. */
module Collation {
  import opened Options
  import opened Results
  import opened Filtering

  // ---------------------------------------------------------------------------------------
  // The snapshot.
  // ---------------------------------------------------------------------------------------

  datatype ElectionKind = General | Rerun | Supplementary | ByElection

  datatype Election = Election(parent: Option<int>, kind: ElectionKind, cancelled: bool)

  datatype ScopeType = UnitScope | WardScope | LgaScope

  datatype Scope = Scope(election: int, scopeType: ScopeType, area: string)

  datatype Score = Score(party: string, votes: int)

  datatype Result = Result(id: int, election: int, unit: string, status: ResultStatus,
                           accredited: int, cast: int, rejected: int, scores: seq<Score>)

  datatype PollingUnit = PollingUnit(code: string, registered: nat)

  /** The polling units in table order, the foreign keys of polling units, wards and LGAs, and the states. */
  datatype Geography = Geography(units: seq<PollingUnit>, unitWard: map<string, string>, wardLga: map<string, string>,
                                 lgaState: map<string, string>, states: set<string>)
  {
    predicate Valid() {
      && (forall p :: p in units ==> p.code in unitWard)
      && (forall u :: u in unitWard ==> exists p :: p in units && p.code == u)
      && (forall i, j :: 0 <= i < j < |units| ==> units[i].code != units[j].code)
      && (forall l :: l in lgaState ==> lgaState[l] in states)
      && (forall u :: u in unitWard ==> unitWard[u] in wardLga)
      && (forall w :: w in wardLga ==> wardLga[w] in lgaState)
    }
  }

  /** `results` in id order. */
  datatype Snapshot = Snapshot(geo: Geography, elections: map<int, Election>, scopes: seq<Scope>, results: seq<Result>)
  {
    predicate Valid() {
      geo.Valid() && forall r :: r in results ==> r.unit in geo.unitWard
    }
  }

  datatype Area = Ward(code: string) | Lga(code: string) | State(code: string) | National

  /** collationGeoFilter, after the joins. */
  predicate InArea(geo: Geography, unit: string, area: Area) {
    unit in geo.unitWard
    && var ward := geo.unitWard[unit];
       ward in geo.wardLga && geo.wardLga[ward] in geo.lgaState
       && match area
          case Ward(code) => ward == code
          case Lga(code) => geo.wardLga[ward] == code
          case State(code) => geo.lgaState[geo.wardLga[ward]] == code
          case National => true
  }

  // ---------------------------------------------------------------------------------------
  // The canonical result set.
  // ---------------------------------------------------------------------------------------

  predicate LiveChild(s: Snapshot, e: int, c: int) {
    c in s.elections && s.elections[c].parent == Some(e) && s.elections[c].kind != General && !s.elections[c].cancelled
  }

  predicate Covers(geo: Geography, scope: Scope, unit: string) {
    unit in geo.unitWard
    && var ward := geo.unitWard[unit];
       match scope.scopeType
       case UnitScope => scope.area == unit
       case WardScope => scope.area == ward
       case LgaScope => ward in geo.wardLga && scope.area == geo.wardLga[ward]
  }

  predicate InScope(s: Snapshot, c: int, unit: string) {
    exists scope :: scope in s.scopes && scope.election == c && Covers(s.geo, scope, unit)
  }

  /** A finalized result of a live child for a polling unit in that child's scope. */
  predicate ChildResult(s: Snapshot, e: int, r: Result) {
    r.status == Finalized && LiveChild(s, e, r.election) && InScope(s, r.election, r.unit)
  }

  predicate Replaced(s: Snapshot, e: int, unit: string) {
    exists r :: r in s.results && ChildResult(s, e, r) && r.unit == unit
  }

  predicate ParentResult(s: Snapshot, e: int, r: Result) {
    r.status == Finalized && r.election == e && !Replaced(s, e, r.unit)
  }

  predicate Canonical(s: Snapshot, e: int, r: Result) {
    ParentResult(s, e, r) || ChildResult(s, e, r)
  }

  /** The canonical results of an area, in id order. */
  function CanonicalIn(s: Snapshot, e: int, area: Area): seq<Result> {
    Filter(s.results, (r: Result) => Canonical(s, e, r) && InArea(s.geo, r.unit, area))
  }

  lemma CanonicalMembers(s: Snapshot, e: int, area: Area)
    ensures forall r :: r in CanonicalIn(s, e, area) <==> r in s.results && Canonical(s, e, r) && InArea(s.geo, r.unit, area)
  {
    FilterMembers(s.results, (r: Result) => Canonical(s, e, r) && InArea(s.geo, r.unit, area));
  }

  /** results_canonical_pu_unique */
  ghost predicate UniqueIndex(s: Snapshot) {
    forall i, j :: 0 <= i < j < |s.results| && Live(s.results[i].status) && Live(s.results[j].status) ==>
      s.results[i].election != s.results[j].election || s.results[i].unit != s.results[j].unit
  }

  ghost predicate OneCanonicalPerUnit(s: Snapshot, e: int) {
    forall i, j :: 0 <= i < j < |s.results| && Canonical(s, e, s.results[i]) && Canonical(s, e, s.results[j]) ==>
      s.results[i].unit != s.results[j].unit
  }

  /** No polling unit has finalized results of two live children whose scopes cover it. */
  ghost predicate OneChildPerUnit(s: Snapshot, e: int) {
    forall q, r :: q in s.results && r in s.results && ChildResult(s, e, q) && ChildResult(s, e, r) && q.unit == r.unit ==>
      q.election == r.election
  }

  /** The canonical set holds at most one result per polling unit exactly when no unit is reported by
      two children; two children's results for one unit are both counted. */
  lemma OneCanonicalIffOneChild(s: Snapshot, e: int)
    requires UniqueIndex(s)
    ensures OneCanonicalPerUnit(s, e) <==> OneChildPerUnit(s, e)
  {
    hide LiveChild, InScope;
    if !OneChildPerUnit(s, e) {
      var q, r :| q in s.results && r in s.results && ChildResult(s, e, q) && ChildResult(s, e, r)
                  && q.unit == r.unit && q.election != r.election;
      var i, j :| 0 <= i < |s.results| && 0 <= j < |s.results| && s.results[i] == q && s.results[j] == r;
      assert Canonical(s, e, s.results[i]) && Canonical(s, e, s.results[j]) && i != j;
    }
    if OneChildPerUnit(s, e) {
      forall i, j | 0 <= i < j < |s.results| && Canonical(s, e, s.results[i]) && Canonical(s, e, s.results[j])
        ensures s.results[i].unit != s.results[j].unit
      {
        var q, r := s.results[i], s.results[j];
        assert q in s.results && r in s.results;
        if ChildResult(s, e, q) && ChildResult(s, e, r) {
          assert q.unit == r.unit ==> q.election == r.election;
        } else if ChildResult(s, e, q) || ChildResult(s, e, r) {
          assert Replaced(s, e, if ChildResult(s, e, q) then q.unit else r.unit);
        }
      }
    }
  }

  // ---------------------------------------------------------------------------------------
  // Party totals.
  // ---------------------------------------------------------------------------------------

  function ScoreOf(scores: seq<Score>, party: string): int {
    if scores == [] then 0
    else ScoreOf(scores[..|scores| - 1], party) + (var x := scores[|scores| - 1]; if x.party == party then x.votes else 0)
  }

  function PartyTotal(rows: seq<Result>, party: string): int {
    if rows == [] then 0 else PartyTotal(rows[..|rows| - 1], party) + ScoreOf(rows[|rows| - 1].scores, party)
  }

  function PartiesOf(scores: seq<Score>): set<string> { set x | x in scores :: x.party }

  function Parties(rows: seq<Result>): set<string> {
    set r, p | r in rows && p in PartiesOf(r.scores) :: p
  }

  /** GROUP BY party_code */
  function PartyTotals(rows: seq<Result>): map<string, int> {
    map p | p in Parties(rows) :: PartyTotal(rows, p)
  }

  function CanonicalPartyTotals(s: Snapshot, e: int, area: Area): map<string, int> {
    PartyTotals(CanonicalIn(s, e, area))
  }

  ghost predicate Totals(totals: map<string, int>, rows: seq<Result>, scores: seq<Score>) {
    && totals.Keys == Parties(rows) + PartiesOf(scores)
    && forall p :: p in totals ==> totals[p] == PartyTotal(rows, p) + ScoreOf(scores, p)
  }

  lemma {:induction false} NoScore(scores: seq<Score>, party: string)
    requires party !in PartiesOf(scores)
    ensures ScoreOf(scores, party) == 0
  {
    if scores != [] {
      assert scores[|scores| - 1] in scores;
      assert scores == scores[..|scores| - 1] + [scores[|scores| - 1]];
      NoScore(scores[..|scores| - 1], party);
    }
  }

  lemma {:induction false} NoTotal(rows: seq<Result>, party: string)
    requires party !in Parties(rows)
    ensures PartyTotal(rows, party) == 0
  {
    if rows != [] {
      assert rows[|rows| - 1] in rows;
      NoScore(rows[|rows| - 1].scores, party);
      assert forall r :: r in rows[..|rows| - 1] ==> r in rows;
      NoTotal(rows[..|rows| - 1], party);
    }
  }

  lemma TotalsAddScore(totals: map<string, int>, rows: seq<Result>, scores: seq<Score>, x: Score)
    requires Totals(totals, rows, scores)
    ensures
      var current := if x.party in totals then totals[x.party] else 0;
      Totals(totals[x.party := current + x.votes], rows, scores + [x])
  {
    assert (scores + [x])[..|scores|] == scores;
    assert PartiesOf(scores + [x]) == PartiesOf(scores) + {x.party};
    if x.party !in totals {
      NoScore(scores, x.party);
      NoTotal(rows, x.party);
    }
  }

  lemma TotalsNextRow(totals: map<string, int>, rows: seq<Result>, r: Result)
    requires Totals(totals, rows, r.scores)
    ensures Totals(totals, rows + [r], [])
  {
    assert (rows + [r])[..|rows|] == rows;
    assert PartiesOf([]) == {};
    assert forall q :: q in rows + [r] <==> q in rows || q == r;
    assert Parties(rows + [r]) == Parties(rows) + PartiesOf(r.scores);
  }

  /** The bundle builder's own summing loop (evidence_integrity.go) gives the canonical totals. */
  method CollectPartyTotals(s: Snapshot, e: int, area: Area) returns (children: seq<int>, partyTotals: map<string, int>)
    ensures partyTotals == CanonicalPartyTotals(s, e, area)
    ensures |children| == |CanonicalIn(s, e, area)|
    ensures forall i :: 0 <= i < |children| ==> children[i] == CanonicalIn(s, e, area)[i].id
  {
    hide Totals, CanonicalIn;
    var rows := CanonicalIn(s, e, area);
    children, partyTotals := [], map[];
    assert Totals(partyTotals, rows[..0], []) by { TotalsOfNothing(); }
    for i := 0 to |rows|
      invariant |children| == i && forall k :: 0 <= k < i ==> children[k] == rows[k].id
      invariant Totals(partyTotals, rows[..i], [])
    {
      var scores := rows[i].scores;
      assert scores[..0] == [];
      for j := 0 to |scores|
        invariant Totals(partyTotals, rows[..i], scores[..j])
      {
        var current := if scores[j].party in partyTotals then partyTotals[scores[j].party] else 0;
        TotalsAddScore(partyTotals, rows[..i], scores[..j], scores[j]);
        partyTotals := partyTotals[scores[j].party := current + scores[j].votes];
        assert scores[..j + 1] == scores[..j] + [scores[j]];
      }
      assert scores[..|scores|] == scores;
      TotalsNextRow(partyTotals, rows[..i], rows[i]);
      assert rows[..i + 1] == rows[..i] + [rows[i]];
      children := children + [rows[i].id];
    }
    assert rows[..|rows|] == rows;
    TotalsAreTheTotals(partyTotals, rows);
  }

  lemma TotalsOfNothing()
    ensures Totals(map[], [], [])
  {
  }

  lemma TotalsAreTheTotals(totals: map<string, int>, rows: seq<Result>)
    requires Totals(totals, rows, [])
    ensures totals == PartyTotals(rows)
  {
  }

  /** Such a snapshot exists: two reruns cover one polling unit, both report it, and both are counted. */
  lemma TwoChildrenCountTwice() returns (s: Snapshot)
    ensures s.Valid() && UniqueIndex(s) && !OneCanonicalPerUnit(s, 1)
    ensures |s.results| == 2 && s.results[0].unit == s.results[1].unit
    ensures PartyTotal(CanonicalIn(s, 1, National), "P") == ScoreOf(s.results[0].scores, "P") + ScoreOf(s.results[1].scores, "P") == 30
  {
    var unit := PollingUnit("U", 100);
    var geo := Geography([unit], map["U" := "W"], map["W" := "L"], map["L" := "S"], {"S"});
    assert geo.units[0] == unit;
    var first := Result(1, 2, "U", Finalized, 10, 10, 0, [Score("P", 10)]);
    var second := Result(2, 3, "U", Finalized, 20, 20, 0, [Score("P", 20)]);
    var elections := map[1 := Election(None, General, false), 2 := Election(Some(1), Rerun, false), 3 := Election(Some(1), Rerun, false)];
    s := Snapshot(geo, elections, [Scope(2, UnitScope, "U"), Scope(3, UnitScope, "U")], [first, second]);
    assert s.scopes[0].election == 2 && s.scopes[1].election == 3;
    assert ChildResult(s, 1, first) && ChildResult(s, 1, second);
    assert Canonical(s, 1, s.results[0]) && Canonical(s, 1, s.results[1]);
    hide Canonical;
    OneRowTotals(first, second);
    FilterBoth(first, second, (r: Result) => Canonical(s, 1, r) && InArea(s.geo, r.unit, National));
  }

  lemma FilterBoth(a: Result, b: Result, keep: Result -> bool)
    requires keep(a) && keep(b)
    ensures Filter([a, b], keep) == [a, b]
  {
    assert [a, b][..1] == [a] && [a][..0] == [];
    assert Filter([a], keep) == [a];
  }

  lemma OneRowTotals(a: Result, b: Result)
    ensures PartyTotal([a, b], "P") == ScoreOf(a.scores, "P") + ScoreOf(b.scores, "P")
    ensures |a.scores| == 1 && a.scores[0].party == "P" ==> ScoreOf(a.scores, "P") == a.scores[0].votes
    ensures |b.scores| == 1 && b.scores[0].party == "P" ==> ScoreOf(b.scores, "P") == b.scores[0].votes
  {
    var two, one := [a, b], [a];
    assert two[..|two| - 1] == one && one[..|one| - 1] == [];
    assert PartyTotal(one, "P") == ScoreOf(a.scores, "P");
  }

  // ---------------------------------------------------------------------------------------
  // Conservation over tiers.
  // ---------------------------------------------------------------------------------------

  /** Every polling unit of `whole` lies in exactly one of the `parts`, and no other unit in any. */
  ghost predicate Partition(geo: Geography, whole: Area, parts: seq<Area>) {
    && (forall u :: InArea(geo, u, whole) <==> exists i :: 0 <= i < |parts| && InArea(geo, u, parts[i]))
    && (forall u, i, j :: 0 <= i < j < |parts| && InArea(geo, u, parts[i]) ==> !InArea(geo, u, parts[j]))
  }

  function SumOfTotals(s: Snapshot, e: int, parts: seq<Area>, party: string): int {
    if parts == [] then 0
    else SumOfTotals(s, e, parts[..|parts| - 1], party) + PartyTotal(CanonicalIn(s, e, parts[|parts| - 1]), party)
  }

  lemma {:induction false} TotalOfUnion(rows: seq<Result>, p: Result -> bool, q: Result -> bool, either: Result -> bool, party: string)
    requires forall r :: r in rows ==> !(p(r) && q(r)) && (either(r) <==> p(r) || q(r))
    ensures PartyTotal(Filter(rows, either), party) == PartyTotal(Filter(rows, p), party) + PartyTotal(Filter(rows, q), party)
  {
    if rows != [] {
      var front, last := rows[..|rows| - 1], rows[|rows| - 1];
      assert last in rows;
      TotalOfUnion(front, p, q, either, party);
      TotalOfAppend(Filter(front, either), last, party);
      TotalOfAppend(Filter(front, p), last, party);
      TotalOfAppend(Filter(front, q), last, party);
    }
  }

  lemma TotalOfAppend(rows: seq<Result>, r: Result, party: string)
    ensures PartyTotal(rows + [r], party) == PartyTotal(rows, party) + ScoreOf(r.scores, party)
    ensures PartyTotal(rows + [], party) == PartyTotal(rows, party)
  {
    assert (rows + [r])[..|rows|] == rows && rows + [] == rows;
  }

  ghost predicate InSome(geo: Geography, unit: string, parts: seq<Area>) {
    exists i :: 0 <= i < |parts| && InArea(geo, unit, parts[i])
  }

  lemma {:induction false} SumOfDisjointParts(s: Snapshot, e: int, parts: seq<Area>, party: string)
    requires forall u, i, j :: 0 <= i < j < |parts| && InArea(s.geo, u, parts[i]) ==> !InArea(s.geo, u, parts[j])
    ensures SumOfTotals(s, e, parts, party)
            == PartyTotal(Filter(s.results, (r: Result) => Canonical(s, e, r) && InSome(s.geo, r.unit, parts)), party)
  {
    hide Canonical, InArea;
    var inAny := (r: Result) => Canonical(s, e, r) && InSome(s.geo, r.unit, parts);
    if parts == [] {
      FilterNone(s.results, inAny);
    } else {
      var n := |parts| - 1;
      SumOfDisjointParts(s, e, parts[..n], party);
      var inFront := (r: Result) => Canonical(s, e, r) && InSome(s.geo, r.unit, parts[..n]);
      var inLast := (r: Result) => Canonical(s, e, r) && InArea(s.geo, r.unit, parts[n]);
      forall r: Result
        ensures !(inFront(r) && inLast(r)) && (inAny(r) <==> inFront(r) || inLast(r))
      {
        SomeOfParts(s.geo, r.unit, parts);
      }
      TotalOfUnion(s.results, inFront, inLast, inAny, party);
    }
  }

  lemma SomeOfParts(geo: Geography, unit: string, parts: seq<Area>)
    requires parts != []
    ensures InSome(geo, unit, parts) <==> InSome(geo, unit, parts[..|parts| - 1]) || InArea(geo, unit, parts[|parts| - 1])
  {
    hide InArea;
    var n := |parts| - 1;
    if InSome(geo, unit, parts) {
      var i :| 0 <= i < |parts| && InArea(geo, unit, parts[i]);
      assert i < n ==> InArea(geo, unit, parts[..n][i]);
    }
    if InSome(geo, unit, parts[..n]) {
      var i :| 0 <= i < n && InArea(geo, unit, parts[..n][i]);
      assert InArea(geo, unit, parts[i]);
    }
  }

  /** Each party's total over an area equals the sum over any division of it. */
  lemma Conservation(s: Snapshot, e: int, whole: Area, parts: seq<Area>, party: string)
    requires Partition(s.geo, whole, parts)
    ensures PartyTotal(CanonicalIn(s, e, whole), party) == SumOfTotals(s, e, parts, party)
  {
    hide Canonical, InArea;
    SumOfDisjointParts(s, e, parts, party);
    FilterAgree(s.results, (r: Result) => Canonical(s, e, r) && InArea(s.geo, r.unit, whole),
                (r: Result) => Canonical(s, e, r) && InSome(s.geo, r.unit, parts));
  }

  ghost predicate Enumerates(codes: seq<string>, all: set<string>) {
    (forall c :: c in codes <==> c in all) && forall i, j :: 0 <= i < j < |codes| ==> codes[i] != codes[j]
  }

  /** Wards, LGAs and states each divide the country; the wards of an LGA divide it, and so do the LGAs
      of a state. */
  lemma TiersArePartitions(geo: Geography, wards: seq<string>, lgas: seq<string>, states: seq<string>)
    requires geo.Valid()
    ensures Enumerates(wards, geo.wardLga.Keys) ==> Partition(geo, National, seq(|wards|, i requires 0 <= i < |wards| => Ward(wards[i])))
    ensures Enumerates(lgas, geo.lgaState.Keys) ==> Partition(geo, National, seq(|lgas|, i requires 0 <= i < |lgas| => Lga(lgas[i])))
    ensures Enumerates(states, geo.states) ==>
      Partition(geo, National, seq(|states|, i requires 0 <= i < |states| => State(states[i])))
    ensures forall l :: Enumerates(wards, set w | w in geo.wardLga && geo.wardLga[w] == l) ==>
      Partition(geo, Lga(l), seq(|wards|, i requires 0 <= i < |wards| => Ward(wards[i])))
    ensures forall st :: Enumerates(lgas, set l | l in geo.lgaState && geo.lgaState[l] == st) ==>
      Partition(geo, State(st), seq(|lgas|, i requires 0 <= i < |lgas| => Lga(lgas[i])))
  {
    if Enumerates(wards, geo.wardLga.Keys) {
      WardsPartition(geo, National, wards, geo.wardLga.Keys);
    }
    if Enumerates(lgas, geo.lgaState.Keys) {
      LgasPartition(geo, National, lgas, geo.lgaState.Keys);
    }
    if Enumerates(states, geo.states) {
      StatesPartition(geo, states);
    }
    forall l | Enumerates(wards, set w | w in geo.wardLga && geo.wardLga[w] == l)
      ensures Partition(geo, Lga(l), seq(|wards|, i requires 0 <= i < |wards| => Ward(wards[i])))
    {
      WardsPartition(geo, Lga(l), wards, set w | w in geo.wardLga && geo.wardLga[w] == l);
    }
    forall st | Enumerates(lgas, set l | l in geo.lgaState && geo.lgaState[l] == st)
      ensures Partition(geo, State(st), seq(|lgas|, i requires 0 <= i < |lgas| => Lga(lgas[i])))
    {
      LgasPartition(geo, State(st), lgas, set l | l in geo.lgaState && geo.lgaState[l] == st);
    }
  }

  /** In any snapshot each party's national total is the sum over the states, over the LGAs and over the
      wards. */
  lemma TiersAgree(s: Snapshot, e: int, party: string, wards: seq<string>, lgas: seq<string>, states: seq<string>)
    requires s.geo.Valid()
    requires Enumerates(wards, s.geo.wardLga.Keys) && Enumerates(lgas, s.geo.lgaState.Keys) && Enumerates(states, s.geo.states)
    ensures var national := PartyTotal(CanonicalIn(s, e, National), party);
      && national == SumOfTotals(s, e, seq(|wards|, i requires 0 <= i < |wards| => Ward(wards[i])), party)
      && national == SumOfTotals(s, e, seq(|lgas|, i requires 0 <= i < |lgas| => Lga(lgas[i])), party)
      && national == SumOfTotals(s, e, seq(|states|, i requires 0 <= i < |states| => State(states[i])), party)
  {
    hide InArea, Partition;
    TiersArePartitions(s.geo, wards, lgas, states);
    Conservation(s, e, National, seq(|wards|, i requires 0 <= i < |wards| => Ward(wards[i])), party);
    Conservation(s, e, National, seq(|lgas|, i requires 0 <= i < |lgas| => Lga(lgas[i])), party);
    Conservation(s, e, National, seq(|states|, i requires 0 <= i < |states| => State(states[i])), party);
  }

  lemma WardsPartition(geo: Geography, whole: Area, wards: seq<string>, all: set<string>)
    requires geo.Valid() && Enumerates(wards, all)
    requires forall u :: u in geo.unitWard ==> (InArea(geo, u, whole) <==> geo.unitWard[u] in all)
    ensures Partition(geo, whole, seq(|wards|, i requires 0 <= i < |wards| => Ward(wards[i])))
  {
    var parts := seq(|wards|, i requires 0 <= i < |wards| => Ward(wards[i]));
    forall u | InArea(geo, u, whole)
      ensures exists i :: 0 <= i < |parts| && InArea(geo, u, parts[i])
    {
      var i :| 0 <= i < |wards| && wards[i] == geo.unitWard[u];
      assert InArea(geo, u, parts[i]);
    }
  }

  lemma LgasPartition(geo: Geography, whole: Area, lgas: seq<string>, all: set<string>)
    requires geo.Valid() && Enumerates(lgas, all)
    requires forall u :: u in geo.unitWard ==> (InArea(geo, u, whole) <==> geo.wardLga[geo.unitWard[u]] in all)
    ensures Partition(geo, whole, seq(|lgas|, i requires 0 <= i < |lgas| => Lga(lgas[i])))
  {
    var parts := seq(|lgas|, i requires 0 <= i < |lgas| => Lga(lgas[i]));
    forall u | InArea(geo, u, whole)
      ensures exists i :: 0 <= i < |parts| && InArea(geo, u, parts[i])
    {
      var i :| 0 <= i < |lgas| && lgas[i] == geo.wardLga[geo.unitWard[u]];
      assert InArea(geo, u, parts[i]);
    }
  }

  lemma StatesPartition(geo: Geography, states: seq<string>)
    requires geo.Valid() && Enumerates(states, geo.states)
    ensures Partition(geo, National, seq(|states|, i requires 0 <= i < |states| => State(states[i])))
  {
    var parts := seq(|states|, i requires 0 <= i < |states| => State(states[i]));
    forall u | InArea(geo, u, National)
      ensures exists i :: 0 <= i < |parts| && InArea(geo, u, parts[i])
    {
      var state := geo.lgaState[geo.wardLga[geo.unitWard[u]]];
      assert state in geo.states;
      var i :| 0 <= i < |states| && states[i] == state;
      assert InArea(geo, u, parts[i]);
    }
  }
}
