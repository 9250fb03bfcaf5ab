/** The declaration rules engine and the declare endpoint's decision (election_lifecycle.go). */
module Declaration {
  import opened Results
  import opened Sets

  // ---------------------------------------------------------------------------------------
  // The snapshot that the engine queries.
  // ---------------------------------------------------------------------------------------

  /** A result of the election or of one of its live children. */
  datatype ResultRow = ResultRow(pollingUnit: string, status: ResultStatus)

  /** One row of the by-state query over the canonical results. */
  datatype StateScore = StateScore(state: string, party: string, votes: int)

  /** What the queries of the engine find.  `results` are those of the election and of the children that
      were listed, and refer to existing polling units (a foreign key).  `affectedRead` and `statesRead`
      are false when the query for the affected voters or the count of the states fails: the error is
      dropped and the number stays 0. */
  datatype Snapshot = Snapshot(
    registered: map<string, nat>,
    results: seq<ResultRow>,
    openDisputes: nat,
    totals: map<string, int>,
    affectedRead: bool,
    presidential: bool,
    statesRead: bool,
    stateCount: nat,
    stateScores: seq<StateScore>)
  {
    ghost predicate Valid() {
      forall r :: r in results ==> r.pollingUnit in registered
    }

    function CountedStates(): nat { if statesRead then stateCount else 0 }
  }

  datatype Ranked = Ranked(party: string, votes: int)

  datatype Assessment = Assessment(
    complete: bool, openDisputes: nat,
    winnerParty: string, winnerVotes: int, runnerUpParty: string, runnerUpVotes: int,
    margin: int, tie: bool, affectedVoters: int, inconclusive: bool, spreadMet: bool)

  // ---------------------------------------------------------------------------------------
  // Completeness.
  // ---------------------------------------------------------------------------------------

  function UnitsWith(results: seq<ResultRow>, status: ResultStatus): set<string> {
    set r | r in results && r.status == status :: r.pollingUnit
  }

  function AccountedUnits(results: seq<ResultRow>): set<string> {
    UnitsWith(results, Finalized) + UnitsWith(results, Disputed) + UnitsWith(results, Voided)
  }

  /** The engine adds the three per-status distinct counts. */
  function AccountedCount(results: seq<ResultRow>): nat {
    |UnitsWith(results, Finalized)| + |UnitsWith(results, Disputed)| + |UnitsWith(results, Voided)|
  }

  /** How often the sum counts a polling unit that it has counted before. */
  function DoubleCounted(results: seq<ResultRow>): int {
    AccountedCount(results) - |AccountedUnits(results)|
  }

  ghost predicate GateComplete(s: Snapshot) { AccountedCount(s.results) >= |s.registered| }

  ghost function MissingUnits(s: Snapshot): set<string> { s.registered.Keys - AccountedUnits(s.results) }

  /** The gate passes exactly when no more polling units are missing than were counted twice: it
      never blocks a complete election, and it is exact when no unit stands under two statuses. */
  lemma CompletenessGate(s: Snapshot)
    requires s.Valid()
    ensures GateComplete(s) <==> |MissingUnits(s)| <= DoubleCounted(s.results)
    ensures MissingUnits(s) == {} ==> GateComplete(s)
    ensures UnitsWith(s.results, Finalized) !! UnitsWith(s.results, Disputed) !! UnitsWith(s.results, Voided) ==>
      (GateComplete(s) <==> MissingUnits(s) == {})
  {
    var f, d, v := UnitsWith(s.results, Finalized), UnitsWith(s.results, Disputed), UnitsWith(s.results, Voided);
    UnionSize(f, d);
    UnionSize(f + d, v);
    var accounted := AccountedUnits(s.results);
    assert accounted <= s.registered.Keys;
    assert |s.registered.Keys - accounted| == |s.registered| - |accounted|;
    if f !! d !! v {
      assert f * d == {} && (f + d) * v == {};
    }
    if MissingUnits(s) != {} {
      assert |MissingUnits(s)| > 0;
    }
  }

  /** A unit with a voided and a re-captured finalized result hides a unit without any result. */
  lemma GateCanPassWithMissingUnit() returns (s: Snapshot)
    ensures s.Valid() && GateComplete(s) && MissingUnits(s) != {}
  {
    var voided, recaptured := ResultRow("A", Voided), ResultRow("A", Finalized);
    s := Snapshot(map["A" := 1, "B" := 1], [voided, recaptured], 0, map[], true, false, true, 0, []);
    assert s.results[0] == voided && s.results[1] == recaptured;
    assert UnitsWith(s.results, Finalized) == {"A"} && UnitsWith(s.results, Voided) == {"A"};
    assert UnitsWith(s.results, Disputed) == {};
    assert "B" in MissingUnits(s);
    assert s.registered.Keys == {"A", "B"};
  }

  // ---------------------------------------------------------------------------------------
  // Ranking.
  // ---------------------------------------------------------------------------------------

  ghost predicate SameEntries(a: seq<Ranked>, b: seq<Ranked>) { multiset(a) == multiset(b) }

  lemma SwapKeepsEntries(a: seq<Ranked>, i: nat, j: nat, b: seq<Ranked>)
    requires i < j < |a| && SameEntries(a, b)
    ensures SameEntries(a[i := a[j]][j := a[i]], b)
  {
  }

  /** The exchange sort of the engine. */
  method ExchangeSort(ranked: array<Ranked>)
    modifies ranked
    ensures forall k, l :: 0 <= k < l < ranked.Length ==> ranked[k].votes >= ranked[l].votes
    ensures SameEntries(ranked[..], old(ranked[..]))
  {
    hide SameEntries;
    assert SameEntries(ranked[..], old(ranked[..])) by {
      SameEntriesReflexive(ranked[..]);
    }
    for i := 0 to ranked.Length
      invariant forall k, l :: 0 <= k < i && k < l < ranked.Length ==> ranked[k].votes >= ranked[l].votes
      invariant SameEntries(ranked[..], old(ranked[..]))
    {
      for j := i + 1 to ranked.Length
        invariant forall k, l :: 0 <= k < i && k < l < ranked.Length ==> ranked[k].votes >= ranked[l].votes
        invariant forall l :: i < l < j ==> ranked[i].votes >= ranked[l].votes
        invariant SameEntries(ranked[..], old(ranked[..]))
      {
        if ranked[j].votes > ranked[i].votes {
          SwapKeepsEntries(ranked[..], i, j, old(ranked[..]));
          ghost var swapped := ranked[..][i := ranked[j]][j := ranked[i]];
          ranked[i], ranked[j] := ranked[j], ranked[i];
          assert ranked[..] == swapped;
        }
      }
    }
  }

  lemma SameEntriesReflexive(a: seq<Ranked>)
    ensures SameEntries(a, a)
  {
  }

  function Entries(totals: map<string, int>, parties: set<string>): set<Ranked>
    requires parties <= totals.Keys
  {
    set p | p in parties :: Ranked(p, totals[p])
  }

  ghost predicate Ranking(totals: map<string, int>, order: seq<Ranked>) {
    && multiset(order) == multiset(Entries(totals, totals.Keys))
    && forall k, l :: 0 <= k < l < |order| ==> order[k].votes >= order[l].votes
  }

  /** Collects the totals in some order (map iteration has none) and sorts them. */
  method RankParties(totals: map<string, int>) returns (order: seq<Ranked>)
    ensures Ranking(totals, order)
  {
    var found: seq<Ranked> := [];
    var left := totals.Keys;
    while left != {}
      invariant left <= totals.Keys
      invariant multiset(found) == multiset(Entries(totals, totals.Keys - left))
      decreases left
    {
      var p :| p in left;
      EntriesAdd(totals, totals.Keys - left, p);
      found := found + [Ranked(p, totals[p])];
      assert totals.Keys - (left - {p}) == totals.Keys - left + {p};
      left := left - {p};
    }
    assert totals.Keys - {} == totals.Keys;
    var ranked := new Ranked[|found|](i requires 0 <= i < |found| => found[i]);
    assert ranked[..] == found;
    ExchangeSort(ranked);
    order := ranked[..];
  }

  lemma EntriesAdd(totals: map<string, int>, parties: set<string>, p: string)
    requires parties <= totals.Keys && p in totals && p !in parties
    ensures multiset(Entries(totals, parties + {p})) == multiset(Entries(totals, parties)) + multiset{Ranked(p, totals[p])}
  {
    assert Entries(totals, parties + {p}) == Entries(totals, parties) + {Ranked(p, totals[p])};
    assert Ranked(p, totals[p]) !in Entries(totals, parties);
  }

  /** The first two of a ranking are the true top two, whatever order the map was read in. */
  lemma TopTwo(totals: map<string, int>, order: seq<Ranked>)
    requires Ranking(totals, order)
    ensures |order| == |totals|
    ensures |order| > 0 ==>
      order[0].party in totals && order[0].votes == totals[order[0].party]
      && forall p :: p in totals ==> totals[p] <= order[0].votes
    ensures |order| > 1 ==>
      order[1].party in totals && order[1].votes == totals[order[1].party] && order[1].party != order[0].party
      && forall p :: p in totals && p != order[0].party ==> totals[p] <= order[1].votes
  {
    var entries := Entries(totals, totals.Keys);
    assert |order| == |multiset(order)| == |multiset(entries)| == |entries|;
    EntriesSize(totals, totals.Keys);
    forall k | 0 <= k < |order|
      ensures order[k].party in totals && order[k].votes == totals[order[k].party]
    {
      assert order[k] in multiset(order);
      assert order[k] in entries;
    }
    forall p | p in totals
      ensures exists k :: 0 <= k < |order| && order[k] == Ranked(p, totals[p])
    {
      assert Ranked(p, totals[p]) in multiset(entries);
      assert Ranked(p, totals[p]) in order;
    }
    TwiceInMultiset(order);
    assert |order| > 0 ==> multiset(entries)[order[0]] <= 1;
  }

  lemma TwiceInMultiset(order: seq<Ranked>)
    ensures |order| > 1 && order[0] == order[1] ==> multiset(order)[order[0]] >= 2
  {
    if |order| > 1 {
      assert order == [order[0], order[1]] + order[2..];
    }
  }

  lemma {:induction false} EntriesSize(totals: map<string, int>, parties: set<string>)
    requires parties <= totals.Keys
    ensures |Entries(totals, parties)| == |parties|
  {
    if parties != {} {
      var p :| p in parties;
      EntriesSize(totals, parties - {p});
      assert Entries(totals, parties) == Entries(totals, parties - {p}) + {Ranked(p, totals[p])};
      assert Ranked(p, totals[p]) !in Entries(totals, parties - {p});
    }
  }

  // ---------------------------------------------------------------------------------------
  // Voters that could still change the outcome.
  // ---------------------------------------------------------------------------------------

  predicate AtRisk(r: ResultRow) { r.status == Voided || r.status == Disputed }

  /** The engine's query: one summand per voided or disputed result. */
  function AffectedSum(s: Snapshot, n: nat): nat
    requires s.Valid() && n <= |s.results|
  {
    if n == 0 then 0
    else
      var r := s.results[n - 1];
      assert r in s.results;
      AffectedSum(s, n - 1) + if AtRisk(r) then s.registered[r.pollingUnit] else 0
  }

  ghost predicate SeenBefore(s: Snapshot, n: nat)
    requires n < |s.results|
  {
    exists k :: 0 <= k < n && AtRisk(s.results[k]) && s.results[k].pollingUnit == s.results[n].pollingUnit
  }

  /** The registered voters of the voided and disputed polling units, each unit once. */
  ghost function VotersAtRisk(s: Snapshot, n: nat): nat
    requires s.Valid() && n <= |s.results|
  {
    if n == 0 then 0
    else
      var r := s.results[n - 1];
      assert r in s.results;
      VotersAtRisk(s, n - 1) + if AtRisk(r) && !SeenBefore(s, n - 1) then s.registered[r.pollingUnit] else 0
  }

  lemma {:induction false} AffectedCoversVotersAtRisk(s: Snapshot, n: nat)
    requires s.Valid() && n <= |s.results|
    ensures VotersAtRisk(s, n) <= AffectedSum(s, n)
  {
    if n > 0 {
      AffectedCoversVotersAtRisk(s, n - 1);
    }
  }

  // ---------------------------------------------------------------------------------------
  // Constitutional spread.
  // ---------------------------------------------------------------------------------------

  function Votes(rows: seq<StateScore>, state: string): int {
    if rows == [] then 0
    else Votes(rows[..|rows| - 1], state) + (var r := rows[|rows| - 1]; if r.state == state then r.votes else 0)
  }

  function VotesFor(rows: seq<StateScore>, state: string, party: string): int {
    if rows == [] then 0
    else VotesFor(rows[..|rows| - 1], state, party)
         + (var r := rows[|rows| - 1]; if r.state == state && r.party == party then r.votes else 0)
  }

  ghost predicate Qualifies(rows: seq<StateScore>, state: string, party: string) {
    Votes(rows, state) > 0 && VotesFor(rows, state, party) * 4 >= Votes(rows, state)
  }

  ghost function QualifiedStates(rows: seq<StateScore>, party: string): set<string> {
    set r | r in rows && Qualifies(rows, r.state, party) :: r.state
  }

  function SpreadThreshold(stateCount: nat): nat { (2 * stateCount + 2) / 3 }

  ghost predicate SpreadRule(rows: seq<StateScore>, party: string, stateCount: nat) {
    var q := QualifiedStates(rows, party);
    |q| >= SpreadThreshold(stateCount) && ("FCT" in q || |q| > SpreadThreshold(stateCount))
  }

  ghost predicate Tallied(rows: seq<StateScore>, party: string, totals: map<string, int>, byState: map<string, int>) {
    && totals.Keys == byState.Keys
    && (forall s :: s in totals <==> exists r :: r in rows && r.state == s)
    && forall s :: s in totals ==> totals[s] == Votes(rows, s) && byState[s] == VotesFor(rows, s, party)
  }

  lemma TallyStep(rows: seq<StateScore>, r: StateScore, party: string, totals: map<string, int>, byState: map<string, int>)
    requires Tallied(rows, party, totals, byState)
    ensures
      var t := if r.state in totals then totals[r.state] else 0;
      var w := if r.state in byState then byState[r.state] else 0;
      Tallied(rows + [r], party, totals[r.state := t + r.votes],
              byState[r.state := if r.party == party then w + r.votes else w])
  {
    hide Votes, VotesFor;
    if r.state !in totals {
      UnseenState(rows, r.state, party);
    }
    assert forall q :: q in rows + [r] <==> q in rows || q == r;
    forall s
      ensures Votes(rows + [r], s) == Votes(rows, s) + (if r.state == s then r.votes else 0)
      ensures VotesFor(rows + [r], s, party) == VotesFor(rows, s, party) + (if r.state == s && r.party == party then r.votes else 0)
    {
      VotesAppend(rows, r, s, party);
    }
  }

  lemma VotesAppend(rows: seq<StateScore>, r: StateScore, s: string, party: string)
    ensures Votes(rows + [r], s) == Votes(rows, s) + (if r.state == s then r.votes else 0)
    ensures VotesFor(rows + [r], s, party) == VotesFor(rows, s, party) + (if r.state == s && r.party == party then r.votes else 0)
  {
    assert (rows + [r])[..|rows|] == rows;
  }

  method TallyStates(rows: seq<StateScore>, party: string) returns (stateTotals: map<string, int>, winnerByState: map<string, int>)
    ensures Tallied(rows, party, stateTotals, winnerByState)
  {
    hide Tallied;
    stateTotals, winnerByState := map[], map[];
    assert Tallied(rows[..0], party, stateTotals, winnerByState) by {
      NothingTallied(party);
    }
    for i := 0 to |rows|
      invariant Tallied(rows[..i], party, stateTotals, winnerByState)
    {
      var r := rows[i];
      TallyStep(rows[..i], r, party, stateTotals, winnerByState);
      assert rows[..i + 1] == rows[..i] + [r];
      var t := if r.state in stateTotals then stateTotals[r.state] else 0;
      var w := if r.state in winnerByState then winnerByState[r.state] else 0;
      stateTotals := stateTotals[r.state := t + r.votes];
      winnerByState := winnerByState[r.state := if r.party == party then w + r.votes else w];
    }
    assert rows[..|rows|] == rows;
  }

  lemma NothingTallied(party: string)
    ensures Tallied([], party, map[], map[])
  {
  }

  lemma {:induction false} UnseenState(rows: seq<StateScore>, state: string, party: string)
    requires forall r :: r in rows ==> r.state != state
    ensures Votes(rows, state) == 0 && VotesFor(rows, state, party) == 0
  {
    if rows != [] {
      assert rows[|rows| - 1] in rows;
      UnseenState(rows[..|rows| - 1], state, party);
    }
  }

  method CheckSpread(rows: seq<StateScore>, party: string, stateCount: nat) returns (met: bool)
    ensures met <==> SpreadRule(rows, party, stateCount)
  {
    var stateTotals, winnerByState := TallyStates(rows, party);
    var qualified := 0;
    var fctQualified := false;
    var left := stateTotals.Keys;
    ghost var counted: set<string> := {};
    while left != {}
      invariant left !! counted
      invariant forall s :: s in stateTotals ==> s in left || (s in counted <==> Qualifies(rows, s, party))
      invariant left <= stateTotals.Keys && counted <= stateTotals.Keys
      invariant qualified == |counted| && (fctQualified <==> "FCT" in counted)
      decreases left
    {
      var s :| s in left;
      left := left - {s};
      if stateTotals[s] > 0 && winnerByState[s] * 4 >= stateTotals[s] {
        qualified := qualified + 1;
        counted := counted + {s};
        if s == "FCT" {
          fctQualified := true;
        }
      }
    }
    assert counted == QualifiedStates(rows, party);
    var threshold := SpreadThreshold(stateCount);
    met := qualified >= threshold && (fctQualified || qualified > threshold);
  }

  // ---------------------------------------------------------------------------------------
  // The assessment and the declare decision.
  // ---------------------------------------------------------------------------------------

  /** How the figures follow from the ranking. */
  ghost predicate Figures(order: seq<Ranked>, a: Assessment) {
    && a.winnerParty == (if |order| > 0 then order[0].party else "")
    && a.winnerVotes == (if |order| > 0 then order[0].votes else 0)
    && a.runnerUpParty == (if |order| > 1 then order[1].party else "")
    && a.runnerUpVotes == (if |order| > 1 then order[1].votes else 0)
    && a.margin == (if |order| > 1 then a.winnerVotes - a.runnerUpVotes else 0)
    && (a.tie <==> |order| > 1 && a.margin == 0)
    && (a.inconclusive <==> (|order| > 1 && a.affectedVoters > a.margin) || a.tie || !a.spreadMet)
  }

  ghost predicate Assessed(s: Snapshot, a: Assessment)
    requires s.Valid()
  {
    && (a.complete <==> GateComplete(s))
    && a.openDisputes == s.openDisputes
    && (exists order :: Ranking(s.totals, order) && Figures(order, a))
    && a.affectedVoters == (if s.affectedRead then AffectedSum(s, |s.results|) else 0)
    && (a.spreadMet <==> (s.presidential && a.winnerParty != "" ==> SpreadRule(s.stateScores, a.winnerParty, s.CountedStates())))
  }

  method AssessDeclaration(s: Snapshot) returns (a: Assessment)
    requires s.Valid()
    ensures Assessed(s, a)
  {
    var totalPus := |s.registered|;
    var accounted := AccountedCount(s.results);
    if accounted > totalPus {
      accounted := totalPus;
    }
    var complete := totalPus - accounted == 0;
    var winnerParty, winnerVotes, runnerUpParty, runnerUpVotes, margin, tie := "", 0, "", 0, 0, false;
    var order := RankParties(s.totals);
    if |order| > 0 {
      winnerParty, winnerVotes := order[0].party, order[0].votes;
    }
    if |order| > 1 {
      runnerUpParty, runnerUpVotes := order[1].party, order[1].votes;
      margin := winnerVotes - runnerUpVotes;
      tie := margin == 0;
    }
    var affected := if s.affectedRead then AffectedSum(s, |s.results|) else 0;
    var inconclusive := false;
    if |order| > 1 && affected > margin {
      inconclusive := true;
    }
    if tie {
      inconclusive := true;
    }
    var spreadMet := true;
    if s.presidential && winnerParty != "" {
      spreadMet := CheckSpread(s.stateScores, winnerParty, s.CountedStates());
      if !spreadMet {
        inconclusive := true;
      }
    }
    a := Assessment(complete, s.openDisputes, winnerParty, winnerVotes, runnerUpParty, runnerUpVotes,
                    margin, tie, affected, inconclusive, spreadMet);
  }

  datatype Outcome = NotAccounted | DisputesOpen | RefusedInconclusive | NothingToDeclare | WinnerDeclared | DeclaredInconclusive

  function Decide(a: Assessment, declareInconclusive: bool): Outcome {
    if !a.complete then NotAccounted
    else if a.openDisputes > 0 then DisputesOpen
    else if a.inconclusive && !declareInconclusive then RefusedInconclusive
    else if a.winnerParty == "" && !declareInconclusive then NothingToDeclare
    else if declareInconclusive || a.inconclusive then DeclaredInconclusive
    else WinnerDeclared
  }

  // ---------------------------------------------------------------------------------------
  // What a declared winner can rely on.
  // ---------------------------------------------------------------------------------------

  function VotesOf(m: map<string, int>, p: string): int { if p in m then m[p] else 0 }

  ghost function SumOf(added: map<string, nat>, parties: set<string>): nat
    requires parties <= added.Keys
  {
    if parties == {} then 0
    else var p :| p in parties; added[p] + SumOf(added, parties - {p})
  }

  lemma {:induction false} PartOfSum(added: map<string, nat>, parties: set<string>, q: string)
    requires parties <= added.Keys && q in parties
    ensures added[q] <= SumOf(added, parties)
  {
    var p :| p in parties && SumOf(added, parties) == added[p] + SumOf(added, parties - {p});
    assert SumOf(added, parties - {p}) >= 0 && added[p] >= 0;
    if p != q {
      PartOfSum(added, parties - {p}, q);
    }
  }

  /** No way of adding `extra` votes or fewer puts any party strictly above `winner`. */
  ghost predicate CannotBeOvertaken(totals: map<string, int>, winner: string, extra: nat) {
    forall added: map<string, nat>, p: string ::
      SumOf(added, added.Keys) <= extra ==> VotesOf(totals, p) + VotesOf(added, p) <= VotesOf(totals, winner) + VotesOf(added, winner)
  }

  /** The lead over the strongest rival, a party without any score included. */
  function Lead(a: Assessment, parties: nat): int {
    a.winnerVotes - (if parties > 1 && a.runnerUpVotes > 0 then a.runnerUpVotes else 0)
  }

  /** The winner is safe from `extra` votes exactly when they do not exceed the lead. */
  lemma SafeIffWithinLead(s: Snapshot, a: Assessment, extra: nat)
    requires s.Valid() && Assessed(s, a) && s.totals != map[]
    ensures CannotBeOvertaken(s.totals, a.winnerParty, extra) <==> extra <= Lead(a, |s.totals|)
  {
    hide Ranking, GateComplete, AffectedSum, SpreadRule;
    var order :| Ranking(s.totals, order) && Figures(order, a);
    TopTwo(s.totals, order);
    assert |s.totals.Keys| > 0;
    if extra <= Lead(a, |s.totals|) {
      forall added: map<string, nat>, p: string | SumOf(added, added.Keys) <= extra
        ensures VotesOf(s.totals, p) + VotesOf(added, p) <= VotesOf(s.totals, a.winnerParty) + VotesOf(added, a.winnerParty)
      {
        if p in added {
          PartOfSum(added, added.Keys, p);
        }
        if p in s.totals && p != a.winnerParty {
          assert |{p, a.winnerParty}| <= |s.totals.Keys| by {
            SubsetSize({p, a.winnerParty}, s.totals.Keys);
          }
        }
      }
    } else {
      var rival := if |order| > 1 && a.runnerUpVotes > 0 then a.runnerUpParty else OutsideParty(s.totals);
      var added: map<string, nat> := map[rival := extra];
      assert added.Keys == {rival};
      assert SumOf(added, {rival}) == added[rival] + SumOf(added, {rival} - {rival});
      assert SumOf(added, added.Keys) <= extra;
      assert VotesOf(s.totals, rival) + VotesOf(added, rival) > VotesOf(s.totals, a.winnerParty) + VotesOf(added, a.winnerParty);
    }
  }

  /** A party code that has no total. */
  ghost function OutsideParty(totals: map<string, int>): (p: string)
    ensures p !in totals
  {
    LongerThanAll(totals.Keys);
    var p :| p !in totals.Keys;
    p
  }

  lemma {:induction false} LongerThanAll(parties: set<string>)
    ensures exists p :: p !in parties
  {
    var n := BoundLength(parties);
    var p := seq(n, _ => 'x');
    assert |p| == n;
    assert p !in parties;
  }

  lemma {:induction false} BoundLength(parties: set<string>) returns (n: nat)
    ensures forall p :: p in parties ==> |p| < n
  {
    if parties == {} {
      n := 0;
    } else {
      var p :| p in parties;
      var m := BoundLength(parties - {p});
      n := if |p| < m then m else |p| + 1;
      assert forall q :: q in parties ==> q == p || q in parties - {p};
    }
  }

  /** The same against parties that have scores. */
  ghost predicate NoScoredPartyOvertakes(totals: map<string, int>, winner: string, extra: nat) {
    forall added: map<string, nat>, p: string :: p in totals && SumOf(added, added.Keys) <= extra ==>
      totals[p] + VotesOf(added, p) <= VotesOf(totals, winner) + VotesOf(added, winner)
  }

  /** Against the scored parties the margin is the exact bound. */
  lemma SafeIffWithinMargin(s: Snapshot, a: Assessment, extra: nat)
    requires s.Valid() && Assessed(s, a) && |s.totals| > 1
    ensures NoScoredPartyOvertakes(s.totals, a.winnerParty, extra) <==> extra <= a.margin
  {
    hide Ranking, GateComplete, AffectedSum, SpreadRule;
    var order :| Ranking(s.totals, order) && Figures(order, a);
    TopTwo(s.totals, order);
    if extra <= a.margin {
      forall added: map<string, nat>, p: string | p in s.totals && SumOf(added, added.Keys) <= extra
        ensures s.totals[p] + VotesOf(added, p) <= VotesOf(s.totals, a.winnerParty) + VotesOf(added, a.winnerParty)
      {
        if p in added {
          PartOfSum(added, added.Keys, p);
        }
      }
    } else {
      var rival := a.runnerUpParty;
      var added: map<string, nat> := map[rival := extra];
      assert added.Keys == {rival};
      assert SumOf(added, {rival}) == added[rival] + SumOf(added, {rival} - {rival});
      assert SumOf(added, added.Keys) <= extra;
      assert s.totals[rival] + VotesOf(added, rival) > VotesOf(s.totals, a.winnerParty) + VotesOf(added, a.winnerParty);
    }
  }

  /** Margin of lead: with at least two scored parties, no scored party can overtake a declared winner by
      the registered voters of the voided and disputed polling units, nor can any other party if no total
      is negative.  If the query for those voters failed, safety holds exactly within the margin. */
  lemma DeclaredWinnerIsSafe(s: Snapshot, a: Assessment, declareInconclusive: bool)
    requires s.Valid() && Assessed(s, a) && |s.totals| > 1
    requires Decide(a, declareInconclusive) == WinnerDeclared
    ensures s.affectedRead ==> NoScoredPartyOvertakes(s.totals, a.winnerParty, VotersAtRisk(s, |s.results|))
    ensures s.affectedRead && a.runnerUpVotes >= 0 ==> CannotBeOvertaken(s.totals, a.winnerParty, VotersAtRisk(s, |s.results|))
    ensures NoScoredPartyOvertakes(s.totals, a.winnerParty, VotersAtRisk(s, |s.results|)) <==> VotersAtRisk(s, |s.results|) <= a.margin
  {
    hide Ranking, GateComplete, AffectedSum, SpreadRule;
    var order :| Ranking(s.totals, order) && Figures(order, a);
    TopTwo(s.totals, order);
    AffectedCoversVotersAtRisk(s, |s.results|);
    SafeIffWithinLead(s, a, VotersAtRisk(s, |s.results|));
    SafeIffWithinMargin(s, a, VotersAtRisk(s, |s.results|));
  }

  /** When that query fails, a winner is declared who could be overtaken. */
  lemma UnreadVotersHideRisk() returns (s: Snapshot, a: Assessment)
    ensures s.Valid() && Assessed(s, a) && Decide(a, false) == WinnerDeclared && |s.totals| == 2
    ensures !NoScoredPartyOvertakes(s.totals, a.winnerParty, VotersAtRisk(s, |s.results|))
  {
    var row := ResultRow("A", Voided);
    s := Snapshot(map["A" := 50], [row], 0, map["P" := 10, "Q" := 5], false, false, true, 0, []);
    a := Assessment(true, 0, "P", 10, "Q", 5, 5, false, 0, false, true);
    AllVoided(s, row);
    TwoRanked(s.totals);
    assert Figures([Ranked("P", 10), Ranked("Q", 5)], a);
    hide Ranking, Entries, GateComplete, AffectedSum, VotersAtRisk, Figures;
    assert |s.totals| == 2 by { assert s.totals.Keys == {"P", "Q"}; }
    SafeIffWithinMargin(s, a, 50);
  }

  lemma TwoRanked(totals: map<string, int>)
    requires totals == map["P" := 10, "Q" := 5]
    ensures Ranking(totals, [Ranked("P", 10), Ranked("Q", 5)])
  {
    assert totals.Keys == {"P", "Q"};
    EntriesAdd(totals, {}, "P");
    assert {} + {"P"} == {"P"};
    EntriesAdd(totals, {"P"}, "Q");
    assert {"P"} + {"Q"} == {"P", "Q"};
    assert Entries(totals, {}) == {};
  }

  lemma AllVoided(s: Snapshot, row: ResultRow)
    requires s.results == [row] && row == ResultRow("A", Voided) && s.registered == map["A" := 50]
    ensures s.Valid() && GateComplete(s) && AffectedSum(s, 1) == 50 && VotersAtRisk(s, 1) == 50
  {
    assert s.results[0] == row;
    assert UnitsWith(s.results, Voided) == {"A"};
  }

  /** A declared winner has strictly more votes than every other party. */
  lemma WinnerIsAhead(s: Snapshot, a: Assessment, declareInconclusive: bool)
    requires s.Valid() && Assessed(s, a) && Decide(a, declareInconclusive) == WinnerDeclared
    ensures a.winnerParty in s.totals && a.winnerVotes == s.totals[a.winnerParty]
    ensures forall p :: p in s.totals && p != a.winnerParty ==> s.totals[p] < s.totals[a.winnerParty]
  {
    hide Ranking, GateComplete, AffectedSum, SpreadRule;
    var order :| Ranking(s.totals, order) && Figures(order, a);
    TopTwo(s.totals, order);
    forall p | p in s.totals && p != a.winnerParty
      ensures s.totals[p] < s.totals[a.winnerParty]
    {
      SubsetSize({p, a.winnerParty}, s.totals.Keys);
      assert |{p, a.winnerParty}| == 2;
    }
  }

  /** A single scored party is declared however many voters are at risk. */
  lemma SinglePartySkipsMargin() returns (s: Snapshot, a: Assessment)
    ensures s.Valid() && Assessed(s, a) && Decide(a, false) == WinnerDeclared
    ensures !CannotBeOvertaken(s.totals, a.winnerParty, VotersAtRisk(s, |s.results|))
  {
    var row := ResultRow("A", Voided);
    s := Snapshot(map["A" := 50], [row], 0, map["P" := 10], true, false, true, 0, []);
    a := Assessment(true, 0, "P", 10, "", 0, 0, false, 50, false, true);
    AllVoided(s, row);
    assert Entries(s.totals, s.totals.Keys) == {Ranked("P", 10)};
    assert Ranking(s.totals, [Ranked("P", 10)]) && Figures([Ranked("P", 10)], a);
    assert |s.totals| == 1;
    SafeIffWithinLead(s, a, 50);
  }

  /** If the states were counted, a declared presidential winner has a quarter of the votes in two thirds of
      them, rounded up, the FCT among them or else in one state more.  Otherwise a single state is enough. */
  lemma DeclaredPresidentHasSpread(s: Snapshot, a: Assessment, declareInconclusive: bool)
    requires s.Valid() && Assessed(s, a) && s.presidential
    requires Decide(a, declareInconclusive) == WinnerDeclared
    ensures a.winnerParty != ""
    ensures var q := QualifiedStates(s.stateScores, a.winnerParty);
      if s.statesRead then 3 * |q| >= 2 * s.stateCount && ("FCT" in q || 3 * (|q| - 1) >= 2 * s.stateCount) else q != {}
    ensures forall st :: st in QualifiedStates(s.stateScores, a.winnerParty) ==> Qualifies(s.stateScores, st, a.winnerParty)
  {
  }

  /** When the count fails the spread is taken as met exactly if some state qualifies. */
  lemma UnreadSpreadIff(s: Snapshot, a: Assessment)
    requires s.Valid() && Assessed(s, a) && s.presidential && a.winnerParty != "" && !s.statesRead
    ensures a.spreadMet <==> QualifiedStates(s.stateScores, a.winnerParty) != {}
  {
    var q := QualifiedStates(s.stateScores, a.winnerParty);
    assert |q| > 0 <==> q != {};
  }

  /** So a president can be declared who qualifies in one state of four. */
  lemma UnreadStatesHideSpread() returns (s: Snapshot, a: Assessment)
    ensures s.Valid() && Assessed(s, a) && s.presidential && Decide(a, false) == WinnerDeclared
    ensures s.stateCount == 4 && !SpreadRule(s.stateScores, a.winnerParty, s.stateCount)
  {
    var row, score := ResultRow("A", Finalized), StateScore("Kano", "P", 10);
    s := Snapshot(map["A" := 50], [row], 0, map["P" := 10], true, true, false, 4, [score]);
    a := Assessment(true, 0, "P", 10, "", 0, 0, false, 0, false, true);
    AllFinalized(s, row);
    assert Entries(s.totals, s.totals.Keys) == {Ranked("P", 10)};
    assert Ranking(s.totals, [Ranked("P", 10)]) && Figures([Ranked("P", 10)], a);
    OneStateQualifies(s.stateScores, score);
  }

  lemma AllFinalized(s: Snapshot, row: ResultRow)
    requires s.results == [row] && row == ResultRow("A", Finalized) && s.registered == map["A" := 50]
    ensures s.Valid() && GateComplete(s) && AffectedSum(s, 1) == 0
  {
    assert s.results[0] == row;
    assert UnitsWith(s.results, Finalized) == {"A"};
  }

  lemma OneStateQualifies(rows: seq<StateScore>, score: StateScore)
    requires rows == [score] && score.votes > 0
    ensures QualifiedStates(rows, score.party) == {score.state}
  {
    assert rows[..0] == [] && rows[0] == score;
    assert Votes(rows, score.state) == score.votes && VotesFor(rows, score.state, score.party) == score.votes;
    assert Qualifies(rows, score.state, score.party);
  }

  // ---------------------------------------------------------------------------------------
  // The guards of the state machine (election_fsm.go).
  // ---------------------------------------------------------------------------------------

  /** Which of its three counts guardFinalize could read; a count that fails stays 0. */
  datatype Counts = Counts(units: bool, accounted: bool, disputes: bool)

  /** guardFinalize: one distinct count over the three statuses.  `results` and `openDisputes` are those
      of the election and of all its children, cancelled ones included. */
  predicate GuardFinalize(registered: map<string, nat>, results: seq<ResultRow>, openDisputes: nat, read: Counts) {
    var totalPUs := if read.units then |registered| else 0;
    var accountedPUs := if read.accounted then |AccountedUnits(results)| else 0;
    (if read.disputes then openDisputes else 0) == 0 && !(totalPUs > 0 && accountedPUs < totalPUs)
  }

  /** What the closing guard tests, whichever counts fail; it is exact when all three succeed. */
  lemma GuardFinalizeIsExact(s: Snapshot, openDisputes: nat, read: Counts)
    requires s.Valid()
    ensures GuardFinalize(s.registered, s.results, openDisputes, read) <==>
      (read.disputes ==> openDisputes == 0)
      && (read.units ==> if read.accounted then MissingUnits(s) == {} else s.registered == map[])
    ensures read == Counts(true, true, true) ==>
      (GuardFinalize(s.registered, s.results, openDisputes, read) <==> openDisputes == 0 && MissingUnits(s) == {})
  {
    assert AccountedUnits(s.results) <= s.registered.Keys;
    hide AccountedUnits;
    DifferenceSize(AccountedUnits(s.results), s.registered.Keys);
    assert |s.registered| == 0 <==> s.registered == map[];
  }

  /** Passing the guard means that no dispute is open and no polling unit is missing. */
  ghost predicate GuardIsSound(read: Counts) {
    forall s: Snapshot, openDisputes: nat :: s.Valid() && GuardFinalize(s.registered, s.results, openDisputes, read) ==>
      openDisputes == 0 && MissingUnits(s) == {}
  }

  /** The guard can be relied on exactly when its unit count and its dispute count succeed. */
  lemma GuardFinalizeIsSoundIff(read: Counts)
    ensures GuardIsSound(read) <==> read.units && read.disputes
  {
    hide GuardFinalize;
    if read.units && read.disputes {
      forall s: Snapshot, openDisputes: nat | s.Valid() && GuardFinalize(s.registered, s.results, openDisputes, read)
        ensures openDisputes == 0 && MissingUnits(s) == {}
      {
        GuardFinalizeIsExact(s, openDisputes, read);
        assert s.registered == map[] ==> MissingUnits(s) == {};
      }
    } else {
      var s, openDisputes := GuardIsFooled(read);
    }
  }

  /** With the unit count failed an election without any result is closed, with the dispute count failed
      one with an open dispute. */
  lemma GuardIsFooled(read: Counts) returns (s: Snapshot, openDisputes: nat)
    requires !(read.units && read.disputes)
    ensures s.Valid() && GuardFinalize(s.registered, s.results, openDisputes, read)
    ensures if !read.units then MissingUnits(s) != {} else openDisputes > 0
  {
    if !read.units {
      s := Snapshot(map["A" := 50], [], 0, map[], true, false, true, 0, []);
      openDisputes := 0;
      assert "A" in MissingUnits(s);
    } else {
      s := Snapshot(map[], [], 0, map[], true, false, true, 0, []);
      openDisputes := 1;
    }
  }

  /** guardDeclare */
  predicate GuardDeclare(a: Assessment) { a.complete && a.openDisputes == 0 && !a.inconclusive }

  /** The state machine's guard and the endpoint agree, but for an election in which no party has a score:
      the endpoint refuses it, the guard lets it be declared. */
  lemma GuardDeclareIff(a: Assessment)
    ensures Decide(a, false) == WinnerDeclared <==> GuardDeclare(a) && a.winnerParty != ""
    ensures Decide(a, false) == NothingToDeclare <==> GuardDeclare(a) && a.winnerParty == ""
  {
  }

  /** Such an election exists: every result was voided. */
  lemma FsmCanDeclareWithoutWinner() returns (s: Snapshot, a: Assessment)
    ensures s.Valid() && Assessed(s, a) && GuardDeclare(a) && Decide(a, false) == NothingToDeclare
  {
    var row := ResultRow("A", Voided);
    s := Snapshot(map["A" := 50], [row], 0, map[], true, true, true, 0, []);
    a := Assessment(true, 0, "", 0, "", 0, 0, false, 50, false, true);
    AllVoided(s, row);
    assert Entries(s.totals, s.totals.Keys) == {};
    assert Ranking(s.totals, []) && Figures([], a);
  }
}
