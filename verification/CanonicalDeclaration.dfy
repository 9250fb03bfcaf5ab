/** The declaration rules on top of the canonical collation: what assessDeclaration (election_lifecycle.go)
    reads is a snapshot's own canonical totals, so the declared winner is the winner of the collation. */
module CanonicalDeclaration {
  import opened Options
  import opened Results
  import opened Filtering
  import opened Sets
  import C = Collation
  import D = Declaration
  import R = Rollup

  // ---------------------------------------------------------------------------------------
  // The queries.
  // ---------------------------------------------------------------------------------------

  function StateResults(s: C.Snapshot, e: int, state: string): seq<C.Result> { C.CanonicalIn(s, e, C.State(state)) }

  /** The election itself, and its live children. */
  predicate InContest(s: C.Snapshot, e: int, c: int) { c == e || C.LiveChild(s, e, c) }

  /** The elections whose rows the assessment looks at; when the query for the children fails, its error is
      dropped and only the election itself is left. */
  predicate Listed(s: C.Snapshot, e: int, childrenRead: bool, c: int) { c == e || (childrenRead && C.LiveChild(s, e, c)) }

  /** The results of the listed elections that are not superseded. */
  function ContestRows(s: C.Snapshot, e: int, childrenRead: bool, n: nat): seq<D.ResultRow>
    requires n <= |s.results|
  {
    if n == 0 then []
    else
      var r := s.results[n - 1];
      ContestRows(s, e, childrenRead, n - 1)
      + if Listed(s, e, childrenRead, r.election) && r.status != Superseded then [D.ResultRow(r.unit, r.status)] else []
  }

  /** How many of the open disputes, given by their elections, are counted. */
  function OpenIn(s: C.Snapshot, e: int, childrenRead: bool, disputes: seq<int>): nat {
    if disputes == [] then 0
    else
      var n := |disputes| - 1;
      OpenIn(s, e, childrenRead, disputes[..n]) + if Listed(s, e, childrenRead, disputes[n]) then 1 else 0
  }

  /** No open dispute is counted exactly if none belongs to the election or, the children being read, to one
      of its reruns, supplementary or by-elections that is not cancelled. */
  lemma {:induction false} NoOpenDispute(s: C.Snapshot, e: int, childrenRead: bool, disputes: seq<int>)
    ensures OpenIn(s, e, childrenRead, disputes) == 0 <==> forall i :: 0 <= i < |disputes| ==>
      var c := disputes[i];
      c != e && !(childrenRead && c in s.elections && s.elections[c].parent == Some(e) && !s.elections[c].cancelled
                  && s.elections[c].kind in {C.Rerun, C.Supplementary, C.ByElection})
  {
    if disputes != [] {
      var n := |disputes| - 1;
      NoOpenDispute(s, e, childrenRead, disputes[..n]);
      assert forall i :: 0 <= i < n ==> disputes[..n][i] == disputes[i];
    }
  }

  /** The answer to the by-state query, in some order: one row for each state and party with a score. */
  ghost predicate IsStateQuery(s: C.Snapshot, e: int, rows: seq<D.StateScore>) {
    && OncePerParty(rows)
    && (forall r :: r in rows ==>
          r.party in C.Parties(StateResults(s, e, r.state)) && r.votes == C.PartyTotal(StateResults(s, e, r.state), r.party))
    && (forall state, party :: party in C.Parties(StateResults(s, e, state)) ==>
          exists r :: r in rows && r.state == state && r.party == party)
  }

  ghost predicate OncePerParty(rows: seq<D.StateScore>) {
    forall i, j :: 0 <= i < j < |rows| ==> rows[i].state != rows[j].state || rows[i].party != rows[j].party
  }

  /** Every polling unit with its registered voters. */
  ghost predicate IsRegister(geo: C.Geography, registered: map<string, nat>) {
    registered.Keys == geo.unitWard.Keys && forall p :: p in geo.units && p.code in registered ==> registered[p.code] == p.registered
  }

  /** What the assessment of election `e` reads from the tables. */
  ghost predicate Reads(s: C.Snapshot, e: int, disputes: seq<int>, childrenRead: bool, d: D.Snapshot): (ok: bool)
    ensures ok ==> d.Valid()
  {
    ContestUnits(s, e, childrenRead, |s.results|);
    && s.Valid()
    && IsRegister(s.geo, d.registered)
    && d.results == ContestRows(s, e, childrenRead, |s.results|)
    && d.openDisputes == OpenIn(s, e, childrenRead, disputes)
    && d.totals == C.CanonicalPartyTotals(s, e, C.National)
    && d.stateCount == |s.geo.states|
    && IsStateQuery(s, e, d.stateScores)
  }

  lemma {:induction false} ContestUnits(s: C.Snapshot, e: int, childrenRead: bool, n: nat)
    requires n <= |s.results|
    ensures forall r :: r in ContestRows(s, e, childrenRead, n) ==> exists q :: q in s.results && q.unit == r.pollingUnit
  {
    if n > 0 {
      ContestUnits(s, e, childrenRead, n - 1);
      assert s.results[n - 1] in s.results;
    }
  }

  // ---------------------------------------------------------------------------------------
  // The by-state figures are the canonical totals of the states.
  // ---------------------------------------------------------------------------------------

  lemma {:induction false} OneRowDecides(rows: seq<D.StateScore>, state: string, party: string)
    requires OncePerParty(rows)
    ensures forall r :: r in rows && r.state == state && r.party == party ==> D.VotesFor(rows, state, party) == r.votes
    ensures (forall r :: r in rows ==> r.state != state || r.party != party) ==> D.VotesFor(rows, state, party) == 0
  {
    if rows != [] {
      var n := |rows| - 1;
      OneRowDecides(rows[..n], state, party);
      assert rows == rows[..n] + [rows[n]];
    }
  }

  lemma StateVotesFor(s: C.Snapshot, e: int, rows: seq<D.StateScore>, state: string, party: string)
    requires IsStateQuery(s, e, rows)
    ensures D.VotesFor(rows, state, party) == C.PartyTotal(StateResults(s, e, state), party)
  {
    hide StateResults, OncePerParty;
    OneRowDecides(rows, state, party);
    if party !in C.Parties(StateResults(s, e, state)) {
      C.NoTotal(StateResults(s, e, state), party);
    }
  }

  // A state's votes: summing over its parties and summing over its results give the same.

  ghost predicate Unrepeated(parties: seq<string>) { forall i, j :: 0 <= i < j < |parties| ==> parties[i] != parties[j] }

  function SumOfScores(parties: seq<string>, scores: seq<C.Score>): int {
    if parties == [] then 0
    else SumOfScores(parties[..|parties| - 1], scores) + C.ScoreOf(scores, parties[|parties| - 1])
  }

  function SumOfTotals(parties: seq<string>, rows: seq<C.Result>): int {
    if parties == [] then 0
    else SumOfTotals(parties[..|parties| - 1], rows) + C.PartyTotal(rows, parties[|parties| - 1])
  }

  lemma {:induction false} OneScoreMore(parties: seq<string>, front: seq<C.Score>, x: C.Score)
    requires Unrepeated(parties)
    ensures SumOfScores(parties, front + [x]) == SumOfScores(parties, front) + if x.party in parties then x.votes else 0
  {
    if parties != [] {
      var n := |parties| - 1;
      OneScoreMore(parties[..n], front, x);
      assert parties == parties[..n] + [parties[n]];
      assert (front + [x])[..|front|] == front;
    }
  }

  lemma {:induction false} ScoresByParty(parties: seq<string>, scores: seq<C.Score>)
    requires Unrepeated(parties) && forall x :: x in scores ==> x.party in parties
    ensures SumOfScores(parties, scores) == R.SumScores(scores)
  {
    if scores == [] {
      NoScores(parties);
    } else {
      var n := |scores| - 1;
      assert scores == scores[..n] + [scores[n]];
      ScoresByParty(parties, scores[..n]);
      OneScoreMore(parties, scores[..n], scores[n]);
      assert scores[n] in scores;
    }
  }

  lemma {:induction false} NoScores(parties: seq<string>)
    ensures SumOfScores(parties, []) == 0 && SumOfTotals(parties, []) == 0
  {
    if parties != [] {
      NoScores(parties[..|parties| - 1]);
    }
  }

  lemma {:induction false} OneResultMore(parties: seq<string>, front: seq<C.Result>, r: C.Result)
    ensures SumOfTotals(parties, front + [r]) == SumOfTotals(parties, front) + SumOfScores(parties, r.scores)
  {
    if parties != [] {
      OneResultMore(parties[..|parties| - 1], front, r);
      assert (front + [r])[..|front|] == front;
    }
  }

  lemma {:induction false} TotalsByParty(parties: seq<string>, rows: seq<C.Result>)
    requires Unrepeated(parties) && forall p :: p in C.Parties(rows) ==> p in parties
    ensures SumOfTotals(parties, rows) == R.SumVotes(rows)
  {
    if rows == [] {
      NoScores(parties);
    } else {
      var n := |rows| - 1;
      var r := rows[n];
      assert rows == rows[..n] + [r];
      assert r in rows;
      assert forall q :: q in rows[..n] ==> q in rows;
      forall x | x in r.scores
        ensures x.party in parties
      {
        assert x.party in C.PartiesOf(r.scores);
        assert x.party in C.Parties(rows);
      }
      TotalsByParty(parties, rows[..n]);
      OneResultMore(parties, rows[..n], r);
      ScoresByParty(parties, r.scores);
    }
  }

  /** The parties of a state, in the order of the rows. */
  function PartiesIn(rows: seq<D.StateScore>, state: string): seq<string> {
    if rows == [] then []
    else
      var r := rows[|rows| - 1];
      PartiesIn(rows[..|rows| - 1], state) + if r.state == state then [r.party] else []
  }

  lemma {:induction false} PartiesInState(rows: seq<D.StateScore>, state: string)
    requires OncePerParty(rows)
    ensures Unrepeated(PartiesIn(rows, state))
    ensures forall p :: p in PartiesIn(rows, state) <==> exists r :: r in rows && r.state == state && r.party == p
  {
    if rows != [] {
      var n := |rows| - 1;
      var front, last := rows[..n], rows[n];
      assert rows == front + [last];
      PartiesInState(front, state);
      var before := PartiesIn(front, state);
      if last.state == state {
        assert PartiesIn(rows, state) == before + [last.party];
        assert last.party !in before;
      }
    }
  }

  lemma {:induction false} VotesByParty(rows: seq<D.StateScore>, state: string, results: seq<C.Result>)
    requires forall r :: r in rows && r.state == state ==> r.votes == C.PartyTotal(results, r.party)
    ensures SumOfTotals(PartiesIn(rows, state), results) == D.Votes(rows, state)
  {
    hide C.PartyTotal;
    if rows != [] {
      var n := |rows| - 1;
      var front, last := rows[..n], rows[n];
      assert rows == front + [last];
      VotesByParty(front, state, results);
      var before := PartiesIn(front, state);
      assert last in rows;
      if last.state == state {
        assert PartiesIn(rows, state) == before + [last.party];
        assert (before + [last.party])[..|before|] == before;
      } else {
        assert PartiesIn(rows, state) == before;
      }
    }
  }

  /** The votes of a state, summed by the spread rule, are all the votes of its canonical results. */
  lemma StateVotes(s: C.Snapshot, e: int, rows: seq<D.StateScore>, state: string)
    requires IsStateQuery(s, e, rows)
    ensures D.Votes(rows, state) == R.SumVotes(StateResults(s, e, state))
  {
    hide StateResults, OncePerParty;
    var results := StateResults(s, e, state);
    PartiesInState(rows, state);
    VotesByParty(rows, state, results);
    TotalsByParty(PartiesIn(rows, state), results);
  }

  function VotesOverStates(rows: seq<D.StateScore>, states: seq<string>, party: string): int {
    if states == [] then 0
    else VotesOverStates(rows, states[..|states| - 1], party) + D.VotesFor(rows, states[|states| - 1], party)
  }

  /** Each party's national total, on which the winner is found, is the sum of its by-state figures, on
      which the spread is judged. */
  lemma NationalIsSumOverStates(s: C.Snapshot, e: int, disputes: seq<int>, childrenRead: bool, d: D.Snapshot, states: seq<string>, party: string)
    requires Reads(s, e, disputes, childrenRead, d) && C.Enumerates(states, s.geo.states)
    ensures D.VotesOf(d.totals, party) == VotesOverStates(d.stateScores, states, party)
  {
    hide IsStateQuery;
    var parts := seq(|states|, i requires 0 <= i < |states| => C.State(states[i]));
    C.StatesPartition(s.geo, states);
    C.Conservation(s, e, C.National, parts, party);
    SumOverStates(s, e, d.stateScores, states, party);
    var national := C.CanonicalIn(s, e, C.National);
    if party !in C.Parties(national) {
      C.NoTotal(national, party);
    }
  }

  lemma {:induction false} SumOverStates(s: C.Snapshot, e: int, rows: seq<D.StateScore>, states: seq<string>, party: string)
    requires IsStateQuery(s, e, rows)
    ensures C.SumOfTotals(s, e, seq(|states|, i requires 0 <= i < |states| => C.State(states[i])), party)
            == VotesOverStates(rows, states, party)
  {
    hide IsStateQuery;
    if states != [] {
      var n := |states| - 1;
      SumOverStates(s, e, rows, states[..n], party);
      var parts := seq(|states|, i requires 0 <= i < |states| => C.State(states[i]));
      assert parts[..n] == seq(n, i requires 0 <= i < n => C.State(states[..n][i]));
      StateVotesFor(s, e, rows, states[n], party);
    }
  }

  // ---------------------------------------------------------------------------------------
  // The declared winner and the canonical collation.
  // ---------------------------------------------------------------------------------------

  /** A declared winner has more votes in the canonical collation than every other party. */
  lemma DeclaredWinnerLeads(s: C.Snapshot, e: int, disputes: seq<int>, childrenRead: bool, d: D.Snapshot, a: D.Assessment, declareInconclusive: bool)
    requires Reads(s, e, disputes, childrenRead, d) && D.Assessed(d, a)
    requires D.Decide(a, declareInconclusive) == D.WinnerDeclared
    ensures var national := C.CanonicalIn(s, e, C.National);
      && a.winnerParty in C.Parties(national) && a.winnerVotes == C.PartyTotal(national, a.winnerParty)
      && forall p :: p in C.Parties(national) && p != a.winnerParty ==> C.PartyTotal(national, p) < C.PartyTotal(national, a.winnerParty)
  {
    hide IsStateQuery, D.Assessed;
    D.WinnerIsAhead(d, a, declareInconclusive);
    var national := C.CanonicalIn(s, e, C.National);
    assert d.totals == C.PartyTotals(national) && d.totals.Keys == C.Parties(national);
    forall p | p in C.Parties(national) && p != a.winnerParty
      ensures C.PartyTotal(national, p) < C.PartyTotal(national, a.winnerParty)
    {
      assert d.totals[p] < d.totals[a.winnerParty];
    }
  }

  /** The states that count for the spread are exactly those in which the party has a quarter of all
      canonical votes, and some votes were cast. */
  lemma SpreadIsCanonical(s: C.Snapshot, e: int, rows: seq<D.StateScore>, state: string, party: string)
    requires IsStateQuery(s, e, rows)
    ensures state in D.QualifiedStates(rows, party) <==>
      var results := StateResults(s, e, state);
      R.SumVotes(results) > 0 && C.PartyTotal(results, party) * 4 >= R.SumVotes(results)
  {
    hide StateResults, OncePerParty;
    StateVotes(s, e, rows, state);
    StateVotesFor(s, e, rows, state, party);
    if R.SumVotes(StateResults(s, e, state)) > 0 {
      SomeRowOf(rows, state);
    }
  }

  /** The states in which the party has a quarter of the canonical votes, some being cast. */
  ghost function CarriedStates(s: C.Snapshot, e: int, party: string): set<string> {
    set state | state in s.geo.states && R.SumVotes(StateResults(s, e, state)) > 0
                && C.PartyTotal(StateResults(s, e, state), party) * 4 >= R.SumVotes(StateResults(s, e, state))
  }

  /** If the states were counted, a declared president carries two thirds of them, rounded up, the FCT among
      them or else one state more. */
  lemma DeclaredPresidentCarriesStates(s: C.Snapshot, e: int, disputes: seq<int>, childrenRead: bool, d: D.Snapshot, a: D.Assessment, declareInconclusive: bool)
    requires Reads(s, e, disputes, childrenRead, d) && D.Assessed(d, a) && d.presidential && d.statesRead
    requires D.Decide(a, declareInconclusive) == D.WinnerDeclared
    ensures var carried := CarriedStates(s, e, a.winnerParty);
      3 * |carried| >= 2 * |s.geo.states| && ("FCT" in carried || 3 * (|carried| - 1) >= 2 * |s.geo.states|)
  {
    D.DeclaredPresidentHasSpread(d, a, declareInconclusive);
    QualifiedAreCarried(s, e, d.stateScores, a.winnerParty);
  }

  lemma QualifiedAreCarried(s: C.Snapshot, e: int, rows: seq<D.StateScore>, party: string)
    requires s.Valid() && IsStateQuery(s, e, rows)
    ensures D.QualifiedStates(rows, party) == CarriedStates(s, e, party)
  {
    hide StateResults, OncePerParty, D.QualifiedStates;
    forall state
      ensures state in D.QualifiedStates(rows, party) <==> state in CarriedStates(s, e, party)
    {
      SpreadIsCanonical(s, e, rows, state, party);
      if R.SumVotes(StateResults(s, e, state)) > 0 {
        StateVotes(s, e, rows, state);
        SomeRowOf(rows, state);
        var r :| r in rows && r.state == state;
        OnlyKnownStates(s, e, state, r.party);
      }
    }
  }

  lemma {:induction false} SomeRowOf(rows: seq<D.StateScore>, state: string)
    requires D.Votes(rows, state) != 0
    ensures exists r :: r in rows && r.state == state
  {
    if rows != [] && rows[|rows| - 1].state != state {
      SomeRowOf(rows[..|rows| - 1], state);
      var r :| r in rows[..|rows| - 1] && r.state == state;
      assert r in rows;
    } else if rows != [] {
      assert rows[|rows| - 1] in rows;
    }
  }

  // ---------------------------------------------------------------------------------------
  // Every snapshot has an answer to the by-state query.
  // ---------------------------------------------------------------------------------------

  datatype StateParty = StateParty(state: string, party: string)

  lemma {:induction false} ListPairs(s: C.Snapshot, e: int, pairs: set<StateParty>) returns (rows: seq<D.StateScore>)
    requires forall x :: x in pairs ==> x.party in C.Parties(StateResults(s, e, x.state))
    ensures OncePerParty(rows)
    ensures forall r :: r in rows ==>
      StateParty(r.state, r.party) in pairs && r.votes == C.PartyTotal(StateResults(s, e, r.state), r.party)
    ensures forall x :: x in pairs ==> exists r :: r in rows && r.state == x.state && r.party == x.party
    decreases pairs
  {
    hide StateResults;
    if pairs == {} {
      rows := [];
    } else {
      var x := AnyOf(pairs);
      var front := ListPairs(s, e, pairs - {x});
      var last := D.StateScore(x.state, x.party, C.PartyTotal(StateResults(s, e, x.state), x.party));
      rows := front + [last];
      assert last in rows;
      assert forall r :: r in front ==> r in rows;
    }
  }

  lemma StateQueryExists(s: C.Snapshot, e: int) returns (rows: seq<D.StateScore>)
    requires s.Valid()
    ensures IsStateQuery(s, e, rows)
  {
    var pairs := set state, party | state in s.geo.states && party in C.Parties(StateResults(s, e, state)) ::
      StateParty(state, party);
    rows := ListPairs(s, e, pairs);
    forall state, party | party in C.Parties(StateResults(s, e, state))
      ensures StateParty(state, party) in pairs
    {
      OnlyKnownStates(s, e, state, party);
    }
  }

  lemma OnlyKnownStates(s: C.Snapshot, e: int, state: string, party: string)
    requires s.Valid() && party in C.Parties(StateResults(s, e, state))
    ensures state in s.geo.states
  {
    C.CanonicalMembers(s, e, C.State(state));
    var r :| r in StateResults(s, e, state) && party in C.PartiesOf(r.scores);
    assert C.InArea(s.geo, r.unit, C.State(state));
  }

  // ---------------------------------------------------------------------------------------
  // Margin of lead over the whole contest.
  // ---------------------------------------------------------------------------------------

  ghost predicate AtRisk(s: C.Snapshot, e: int, r: C.Result) {
    InContest(s, e, r.election) && (r.status == Voided || r.status == Disputed)
  }

  /** The polling units with a voided or disputed result, among the first `n`, of the election or of a live
      child. */
  ghost function UnitsAtRisk(s: C.Snapshot, e: int, n: nat): set<string>
    requires n <= |s.results|
  {
    set k | 0 <= k < n && AtRisk(s, e, s.results[k]) :: s.results[k].unit
  }

  function RegisteredIn(units: seq<C.PollingUnit>, codes: set<string>): nat {
    if units == [] then 0
    else
      var n := |units| - 1;
      RegisteredIn(units[..n], codes) + if units[n].code in codes then units[n].registered else 0
  }

  /** Their registered voters. */
  ghost function VotersAtRisk(s: C.Snapshot, e: int): nat { RegisteredIn(s.geo.units, UnitsAtRisk(s, e, |s.results|)) }

  /** The registered voters in a stored rollup are those of the units of its area. */
  lemma {:induction false} RegisteredOfArea(geo: C.Geography, units: seq<C.PollingUnit>, area: C.Area)
    requires forall p :: p in units ==> p.code in geo.unitWard
    ensures R.Registered(geo, units, area) == RegisteredIn(units, R.AreaUnits(geo, area))
  {
    if units != [] {
      var n := |units| - 1;
      assert units[n] in units;
      RegisteredOfArea(geo, units[..n], area);
    }
  }

  ghost predicate DistinctCodes(units: seq<C.PollingUnit>) { forall i, j :: 0 <= i < j < |units| ==> units[i].code != units[j].code }

  lemma {:induction false} OneUnitMore(units: seq<C.PollingUnit>, codes: set<string>, p: C.PollingUnit)
    requires DistinctCodes(units) && p.code !in codes
    ensures p in units ==> RegisteredIn(units, codes + {p.code}) == RegisteredIn(units, codes) + p.registered
    ensures (forall q :: q in units ==> q.code != p.code) ==> RegisteredIn(units, codes + {p.code}) == RegisteredIn(units, codes)
  {
    if units != [] {
      var n := |units| - 1;
      OneUnitMore(units[..n], codes, p);
      assert units == units[..n] + [units[n]];
      assert forall q :: q in units[..n] ==> q in units;
      if p in units && units[n] != p {
        assert p in units[..n];
      }
    }
  }

  lemma {:induction false} NoUnits(units: seq<C.PollingUnit>)
    ensures RegisteredIn(units, {}) == 0
  {
    if units != [] {
      NoUnits(units[..|units| - 1]);
    }
  }

  ghost function FirstAtRisk(d: D.Snapshot, n: nat): set<string>
    requires n <= |d.results|
  {
    set k | 0 <= k < n && D.AtRisk(d.results[k]) :: d.results[k].pollingUnit
  }

  /** Counting each unit at its first result is summing over the units. */
  lemma {:induction false} VotersOfUnits(geo: C.Geography, d: D.Snapshot, n: nat)
    requires geo.Valid() && IsRegister(geo, d.registered) && d.Valid() && n <= |d.results|
    ensures D.VotersAtRisk(d, n) == RegisteredIn(geo.units, FirstAtRisk(d, n))
  {
    hide D.SeenBefore, FirstAtRisk, RegisteredIn, IsRegister;
    if n == 0 {
      NothingAtRisk(d);
      NoUnits(geo.units);
    } else {
      VotersOfUnits(geo, d, n - 1);
      var r := d.results[n - 1];
      assert r in d.results;
      FirstAtRiskStep(d, n);
      if D.AtRisk(r) {
        UnitAdded(geo, d.registered, FirstAtRisk(d, n - 1), r.pollingUnit);
      }
    }
  }

  lemma NothingAtRisk(d: D.Snapshot)
    ensures FirstAtRisk(d, 0) == {}
  {
  }

  lemma FirstAtRiskStep(d: D.Snapshot, n: nat)
    requires 0 < n <= |d.results|
    ensures FirstAtRisk(d, n)
      == if D.AtRisk(d.results[n - 1]) then FirstAtRisk(d, n - 1) + {d.results[n - 1].pollingUnit} else FirstAtRisk(d, n - 1)
    ensures D.SeenBefore(d, n - 1) <==> d.results[n - 1].pollingUnit in FirstAtRisk(d, n - 1)
  {
  }

  lemma UnitAdded(geo: C.Geography, registered: map<string, nat>, before: set<string>, unit: string)
    requires geo.Valid() && IsRegister(geo, registered) && unit in registered
    ensures RegisteredIn(geo.units, before + {unit})
         == RegisteredIn(geo.units, before) + if unit in before then 0 else registered[unit]
  {
    if unit in before {
      assert before + {unit} == before;
    } else {
      var p :| p in geo.units && p.code == unit;
      OneUnitMore(geo.units, before, p);
    }
  }

  /** The listed rows put the same units at risk as the contest, if the children were read. */
  lemma {:induction false} ListedUnits(s: C.Snapshot, e: int, n: nat)
    requires n <= |s.results|
    ensures RiskUnits(ContestRows(s, e, true, n)) == UnitsAtRisk(s, e, n)
  {
    hide C.LiveChild;
    if n > 0 {
      ListedUnits(s, e, n - 1);
      var front, last := ContestRows(s, e, true, n - 1), s.results[n - 1];
      assert UnitsAtRisk(s, e, n) == UnitsAtRisk(s, e, n - 1) + if AtRisk(s, e, last) then {last.unit} else {};
      if Listed(s, e, true, last.election) && last.status != Superseded {
        RiskUnitsMore(front, D.ResultRow(last.unit, last.status));
      } else {
        assert ContestRows(s, e, true, n) == front;
      }
    }
  }

  ghost function RiskUnits(rows: seq<D.ResultRow>): set<string> { set r | r in rows && D.AtRisk(r) :: r.pollingUnit }

  lemma RiskUnitsMore(rows: seq<D.ResultRow>, r: D.ResultRow)
    ensures RiskUnits(rows + [r]) == RiskUnits(rows) + if D.AtRisk(r) then {r.pollingUnit} else {}
  {
  }

  lemma SameVotersAtRisk(s: C.Snapshot, e: int, disputes: seq<int>, d: D.Snapshot)
    requires Reads(s, e, disputes, true, d)
    ensures D.VotersAtRisk(d, |d.results|) == VotersAtRisk(s, e)
  {
    hide IsStateQuery;
    VotersOfUnits(s.geo, d, |d.results|);
    ListedUnits(s, e, |s.results|);
    assert FirstAtRisk(d, |d.results|) == RiskUnits(d.results);
  }

  /** With at least two scored parties, and both the children and the affected voters read, no scored party
      can overtake a declared winner by the registered voters of the voided and disputed polling units of
      the whole contest, and no dispute of it is open.  In every case that holds exactly if those voters
      are within the margin. */
  lemma ContestWinnerIsSafe(s: C.Snapshot, e: int, disputes: seq<int>, childrenRead: bool, d: D.Snapshot, a: D.Assessment, declareInconclusive: bool)
    requires Reads(s, e, disputes, childrenRead, d) && D.Assessed(d, a) && |d.totals| > 1
    requires D.Decide(a, declareInconclusive) == D.WinnerDeclared
    ensures childrenRead && d.affectedRead ==> D.NoScoredPartyOvertakes(d.totals, a.winnerParty, VotersAtRisk(s, e))
    ensures childrenRead ==> OpenIn(s, e, true, disputes) == 0
    ensures D.NoScoredPartyOvertakes(d.totals, a.winnerParty, VotersAtRisk(s, e)) <==> VotersAtRisk(s, e) <= a.margin
  {
    D.DeclaredWinnerIsSafe(d, a, declareInconclusive);
    D.SafeIffWithinMargin(d, a, VotersAtRisk(s, e));
    if childrenRead {
      SameVotersAtRisk(s, e, disputes, d);
    }
  }

  /** Whatever is declared is safe. */
  ghost predicate DeclaresOnlySafe(childrenRead: bool, affectedRead: bool) {
    forall s: C.Snapshot, e: int, disputes: seq<int>, d: D.Snapshot, a: D.Assessment ::
      Reads(s, e, disputes, childrenRead, d) && d.affectedRead == affectedRead && D.Assessed(d, a) && |d.totals| > 1
      && D.Decide(a, false) == D.WinnerDeclared ==>
        D.NoScoredPartyOvertakes(d.totals, a.winnerParty, VotersAtRisk(s, e))
  }

  /** Declarations can be relied on exactly when both queries succeed. */
  lemma DeclaresOnlySafeIff(childrenRead: bool, affectedRead: bool)
    ensures DeclaresOnlySafe(childrenRead, affectedRead) <==> childrenRead && affectedRead
  {
    hide Reads, D.Assessed, D.NoScoredPartyOvertakes, VotersAtRisk;
    if childrenRead && affectedRead {
      forall s: C.Snapshot, e: int, disputes: seq<int>, d: D.Snapshot, a: D.Assessment |
        Reads(s, e, disputes, childrenRead, d) && d.affectedRead == affectedRead && D.Assessed(d, a) && |d.totals| > 1
        && D.Decide(a, false) == D.WinnerDeclared
        ensures D.NoScoredPartyOvertakes(d.totals, a.winnerParty, VotersAtRisk(s, e))
      {
        ContestWinnerIsSafe(s, e, disputes, childrenRead, d, a, false);
      }
    } else {
      var s, disputes, d, a := UnsafeWinner(childrenRead, affectedRead);
    }
  }

  /** An election of one polling unit, which a rerun covers and voids: with the children or the affected
      voters unread a winner is declared who could be overtaken, and with the children unread the open
      dispute of the rerun is missed as well. */
  lemma UnsafeWinner(childrenRead: bool, affectedRead: bool) returns (s: C.Snapshot, disputes: seq<int>, d: D.Snapshot, a: D.Assessment)
    requires !(childrenRead && affectedRead)
    ensures Reads(s, 1, disputes, childrenRead, d) && d.affectedRead == affectedRead && D.Assessed(d, a) && |d.totals| == 2
    ensures D.Decide(a, false) == D.WinnerDeclared
    ensures !D.NoScoredPartyOvertakes(d.totals, a.winnerParty, VotersAtRisk(s, 1))
    ensures !childrenRead ==> OpenIn(s, 1, true, disputes) == 1
  {
    s := VoidedRerun();
    var rows := StateQueryExists(s, 1);
    disputes := if childrenRead then [] else [2];
    var totals := C.CanonicalPartyTotals(s, 1, C.National);
    d := D.Snapshot(map["U" := 100], ContestRows(s, 1, childrenRead, 2), 0, totals, affectedRead, false, true, 1, rows);
    a := D.Assessment(true, 0, "P", 10, "Q", 5, 5, false, 0, false, true);
    RerunRows(s, childrenRead);
    RerunTotals(s);
    RerunDisputes(s, childrenRead);
    assert Reads(s, 1, disputes, childrenRead, d) by { RerunReads(s, disputes, childrenRead, d); }
    RerunAssessed(d, a);
    hide Reads, D.Assessed;
    RerunVoters(s);
    D.SafeIffWithinMargin(d, a, VotersAtRisk(s, 1));
  }

  lemma VoidedRerun() returns (s: C.Snapshot)
    ensures IsVoidedRerun(s) && s.Valid()
  {
    var unit := C.PollingUnit("U", 100);
    var geo := C.Geography([unit], map["U" := "W"], map["W" := "L"], map["L" := "S"], {"S"});
    assert geo.units[0] == unit;
    var own := C.Result(1, 1, "U", Finalized, 15, 15, 0, [C.Score("P", 10), C.Score("Q", 5)]);
    var rerun := C.Result(2, 2, "U", Voided, 0, 0, 0, []);
    var elections := map[1 := C.Election(None, C.General, false), 2 := C.Election(Some(1), C.Rerun, false)];
    s := C.Snapshot(geo, elections, [C.Scope(2, C.UnitScope, "U")], [own, rerun]);
  }

  ghost predicate IsVoidedRerun(s: C.Snapshot) {
    && s.geo == C.Geography([C.PollingUnit("U", 100)], map["U" := "W"], map["W" := "L"], map["L" := "S"], {"S"})
    && s.elections == map[1 := C.Election(None, C.General, false), 2 := C.Election(Some(1), C.Rerun, false)]
    && s.results == [C.Result(1, 1, "U", Finalized, 15, 15, 0, [C.Score("P", 10), C.Score("Q", 5)]),
                     C.Result(2, 2, "U", Voided, 0, 0, 0, [])]
  }

  lemma RerunRows(s: C.Snapshot, childrenRead: bool)
    requires IsVoidedRerun(s)
    ensures ContestRows(s, 1, childrenRead, 2)
      == [D.ResultRow("U", Finalized)] + if childrenRead then [D.ResultRow("U", Voided)] else []
  {
    assert ContestRows(s, 1, childrenRead, 0) == [];
    assert ContestRows(s, 1, childrenRead, 1) == [D.ResultRow("U", Finalized)];
  }

  lemma RerunTotals(s: C.Snapshot)
    requires IsVoidedRerun(s)
    ensures C.CanonicalPartyTotals(s, 1, C.National) == map["P" := 10, "Q" := 5]
  {
    var own, rerun := s.results[0], s.results[1];
    var keep := (r: C.Result) => C.Canonical(s, 1, r) && C.InArea(s.geo, r.unit, C.National);
    assert C.Canonical(s, 1, own) && !C.Canonical(s, 1, rerun);
    assert C.InArea(s.geo, "U", C.National);
    hide C.Canonical, C.InArea;
    FilterFirst(own, rerun, keep);
    OwnTotals(own);
  }

  lemma FilterFirst(x: C.Result, y: C.Result, keep: C.Result -> bool)
    requires keep(x) && !keep(y)
    ensures Filter([x, y], keep) == [x]
  {
    assert [x, y][..1] == [x] && [x][..0] == [];
    assert Filter([x], keep) == [x];
  }

  lemma OwnTotals(own: C.Result)
    requires own.scores == [C.Score("P", 10), C.Score("Q", 5)]
    ensures C.PartyTotals([own]) == map["P" := 10, "Q" := 5]
  {
    var one, scores := [own], own.scores;
    assert one[..0] == [] && scores[..1] == [C.Score("P", 10)] && scores[..1][..0] == [];
    assert C.ScoreOf(scores[..1], "P") == 10 && C.ScoreOf(scores[..1], "Q") == 0;
    assert C.PartyTotal(one, "P") == 10 && C.PartyTotal(one, "Q") == 5;
    assert scores[0].party == "P" && scores[1].party == "Q";
    assert C.PartiesOf(scores) == {"P", "Q"};
    assert one[0] == own;
    assert C.Parties(one) == {"P", "Q"};
  }

  lemma RerunDisputes(s: C.Snapshot, childrenRead: bool)
    requires IsVoidedRerun(s)
    ensures OpenIn(s, 1, false, [2]) == 0 && OpenIn(s, 1, true, [2]) == 1 && OpenIn(s, 1, childrenRead, []) == 0
  {
    var two := [2];
    assert two[..0] == [];
  }

  lemma RerunReads(s: C.Snapshot, disputes: seq<int>, childrenRead: bool, d: D.Snapshot)
    requires IsVoidedRerun(s) && s.Valid() && d.registered == map["U" := 100] && d.results == ContestRows(s, 1, childrenRead, 2)
    requires d.openDisputes == OpenIn(s, 1, childrenRead, disputes) && d.stateCount == 1
    requires d.totals == C.CanonicalPartyTotals(s, 1, C.National) && IsStateQuery(s, 1, d.stateScores)
    ensures Reads(s, 1, disputes, childrenRead, d)
  {
    hide IsStateQuery, ContestRows, OpenIn, C.CanonicalPartyTotals;
  }

  lemma RerunAssessed(d: D.Snapshot, a: D.Assessment)
    requires d.registered == map["U" := 100] && d.openDisputes == 0 && d.totals == map["P" := 10, "Q" := 5] && !d.presidential
    requires d.results == [D.ResultRow("U", Finalized)] || (!d.affectedRead && d.results == [D.ResultRow("U", Finalized), D.ResultRow("U", Voided)])
    requires a == D.Assessment(true, 0, "P", 10, "Q", 5, 5, false, 0, false, true)
    ensures d.Valid() && D.Assessed(d, a) && |d.totals| == 2
  {
    D.TwoRanked(d.totals);
    assert d.totals.Keys == {"P", "Q"};
    assert d.results[0] == D.ResultRow("U", Finalized);
    assert "U" in D.UnitsWith(d.results, Finalized);
    assert D.UnitsWith(d.results, Finalized) == {"U"};
    assert D.Figures([D.Ranked("P", 10), D.Ranked("Q", 5)], a);
    if d.affectedRead {
      assert D.AffectedSum(d, 1) == 0;
    }
  }

  lemma RerunVoters(s: C.Snapshot)
    requires IsVoidedRerun(s)
    ensures VotersAtRisk(s, 1) == 100
  {
    assert AtRisk(s, 1, s.results[1]);
    assert UnitsAtRisk(s, 1, 2) == {"U"};
    OneUnit(s.geo.units);
  }

  lemma OneUnit(units: seq<C.PollingUnit>)
    requires units == [C.PollingUnit("U", 100)]
    ensures RegisteredIn(units, {"U"}) == 100
  {
    assert RegisteredIn(units[..0], {"U"}) == 0;
  }
}
