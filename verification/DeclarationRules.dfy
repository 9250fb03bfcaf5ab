/** The declaration rules (election_lifecycle.go) in terms of results, totals and states. */
module DeclarationRules {
  import opened Results
  import opened Sets
  import opened Declaration

  // ---------------------------------------------------------------------------------------
  // Completeness.
  // ---------------------------------------------------------------------------------------

  predicate Counting(status: ResultStatus) { status in {Finalized, Disputed, Voided} }

  /** Some result of the unit is finalized, disputed or voided. */
  ghost predicate AccountedFor(s: Snapshot, unit: string) {
    exists r :: r in s.results && r.pollingUnit == unit && r.status in {Finalized, Disputed, Voided}
  }

  lemma MissingMeans(s: Snapshot, unit: string)
    ensures unit in MissingUnits(s) <==> unit in s.registered && !AccountedFor(s, unit)
  {
  }

  /** No unit has results of two of the counting statuses. */
  ghost predicate OneStatusEach(s: Snapshot) {
    forall q, r :: q in s.results && r in s.results && q.pollingUnit == r.pollingUnit && Counting(q.status) && Counting(r.status) ==>
      q.status == r.status
  }

  /** The gate lets every accounted election pass, and, where no unit stands under two of the statuses, no
      other one. */
  lemma GateMeans(s: Snapshot)
    requires s.Valid()
    ensures (forall u :: u in s.registered ==> AccountedFor(s, u)) ==> GateComplete(s)
    ensures GateComplete(s) && OneStatusEach(s) ==> forall u :: u in s.registered ==> AccountedFor(s, u)
  {
    CompletenessGate(s);
    hide AccountedFor, GateComplete, OneStatusEach;
    forall u
      ensures u in MissingUnits(s) <==> u in s.registered && !AccountedFor(s, u)
    {
      MissingMeans(s, u);
    }
    if OneStatusEach(s) {
      StatusesApart(s);
    }
    if forall u :: u in s.registered ==> AccountedFor(s, u) {
      assert MissingUnits(s) == {};
    }
  }

  lemma StatusesApart(s: Snapshot)
    requires OneStatusEach(s)
    ensures UnitsWith(s.results, Finalized) !! UnitsWith(s.results, Disputed) !! UnitsWith(s.results, Voided)
  {
  }

  // ---------------------------------------------------------------------------------------
  // Affected voters.
  // ---------------------------------------------------------------------------------------

  /** A result more adds the registered voters of its unit if it is voided or disputed, and nothing else. */
  lemma OneResultMore(s: Snapshot, r: ResultRow)
    requires s.Valid() && r.pollingUnit in s.registered
    ensures
      var t := s.(results := s.results + [r]);
      t.Valid() && AffectedSum(t, |t.results|)
        == AffectedSum(s, |s.results|) + if r.status in {Voided, Disputed} then s.registered[r.pollingUnit] else 0
  {
    var t := s.(results := s.results + [r]);
    SamePrefix(s, t, |s.results|);
    assert t.results[|s.results|] == r;
  }

  lemma {:induction false} SamePrefix(s: Snapshot, t: Snapshot, n: nat)
    requires s.Valid() && t.Valid() && t.registered == s.registered && n <= |s.results| <= |t.results|
    requires forall k :: 0 <= k < n ==> t.results[k] == s.results[k]
    ensures AffectedSum(t, n) == AffectedSum(s, n)
  {
    if n > 0 {
      SamePrefix(s, t, n - 1);
    }
  }

  /** The sum is exact when no unit has two voided or disputed results. */
  lemma {:induction false} AffectedIsExact(s: Snapshot, n: nat)
    requires s.Valid() && n <= |s.results|
    requires forall i, j :: 0 <= i < j < |s.results| && s.results[i].status in {Voided, Disputed} && s.results[j].status in {Voided, Disputed} ==>
      s.results[i].pollingUnit != s.results[j].pollingUnit
    ensures AffectedSum(s, n) == VotersAtRisk(s, n)
  {
    if n > 0 {
      AffectedIsExact(s, n - 1);
      assert AtRisk(s.results[n - 1]) ==> !SeenBefore(s, n - 1);
    }
  }

  // ---------------------------------------------------------------------------------------
  // Spread.
  // ---------------------------------------------------------------------------------------

  /** The rule asks for two thirds of the states, rounded up, the FCT among them or else one state more. */
  lemma SpreadMeans(rows: seq<StateScore>, party: string, stateCount: nat)
    ensures var q := QualifiedStates(rows, party);
      SpreadRule(rows, party, stateCount) <==> 3 * |q| >= 2 * stateCount && ("FCT" in q || 3 * (|q| - 1) >= 2 * stateCount)
  {
  }

  // ---------------------------------------------------------------------------------------
  // Who is declared.
  // ---------------------------------------------------------------------------------------

  /** The affected voters as the engine sees them. */
  function Affected(s: Snapshot): nat
    requires s.Valid()
  {
    if s.affectedRead then AffectedSum(s, |s.results|) else 0
  }

  /** `w` is strictly ahead of every other party, by no less than the affected voters. */
  ghost predicate LeadsSafely(s: Snapshot, w: string)
    requires s.Valid()
  {
    w in s.totals && forall p :: p in s.totals && p != w ==> s.totals[p] < s.totals[w] && s.totals[p] + Affected(s) <= s.totals[w]
  }

  /** A winner is declared exactly if the gate is passed, no dispute is open, some party leads safely, and a
      presidential one meets the spread; it is that party. */
  lemma DeclaredIff(s: Snapshot, a: Assessment)
    requires s.Valid() && Assessed(s, a)
    ensures Decide(a, false) == WinnerDeclared <==>
      && GateComplete(s) && s.openDisputes == 0
      && exists w :: w != "" && LeadsSafely(s, w) && (s.presidential ==> SpreadRule(s.stateScores, w, s.CountedStates()))
    ensures Decide(a, false) == WinnerDeclared ==> LeadsSafely(s, a.winnerParty)
  {
    hide Ranking, GateComplete, AffectedSum, SpreadRule;
    var order :| Ranking(s.totals, order) && Figures(order, a);
    TopTwo(s.totals, order);
    if Decide(a, false) == WinnerDeclared {
      WinnerLeads(s, a, order);
    }
    if w :| w != "" && LeadsSafely(s, w) && (s.presidential ==> SpreadRule(s.stateScores, w, s.CountedStates())) {
      LeaderIsFirst(s, a, order, w);
    }
  }

  lemma WinnerLeads(s: Snapshot, a: Assessment, order: seq<Ranked>)
    requires s.Valid() && Assessed(s, a) && Ranking(s.totals, order) && Figures(order, a) && Decide(a, false) == WinnerDeclared
    ensures LeadsSafely(s, a.winnerParty)
  {
    hide Ranking, GateComplete, AffectedSum, SpreadRule;
    TopTwo(s.totals, order);
    forall p | p in s.totals && p != a.winnerParty
      ensures s.totals[p] < s.totals[a.winnerParty] && s.totals[p] + Affected(s) <= s.totals[a.winnerParty]
    {
      SubsetSize({p, a.winnerParty}, s.totals.Keys);
      assert |{p, a.winnerParty}| == 2;
    }
  }

  lemma LeaderIsFirst(s: Snapshot, a: Assessment, order: seq<Ranked>, w: string)
    requires s.Valid() && Assessed(s, a) && Ranking(s.totals, order) && Figures(order, a) && LeadsSafely(s, w)
    ensures a.winnerParty == w && !a.tie && (|order| > 1 ==> a.affectedVoters <= a.margin)
  {
    hide Ranking, GateComplete, AffectedSum, SpreadRule;
    TopTwo(s.totals, order);
    assert |s.totals.Keys| > 0;
  }

  /** The other outcomes: what is refused, whatever the officer asks for, and what the officer may declare
      inconclusive. */
  lemma OutcomesMean(a: Assessment, declareInconclusive: bool)
    ensures Decide(a, declareInconclusive) == NotAccounted <==> !a.complete
    ensures Decide(a, declareInconclusive) == DisputesOpen <==> a.complete && a.openDisputes > 0
    ensures Decide(a, declareInconclusive) == DeclaredInconclusive <==> a.complete && a.openDisputes == 0 && declareInconclusive
    ensures Decide(a, declareInconclusive) == RefusedInconclusive <==>
      a.complete && a.openDisputes == 0 && !declareInconclusive && a.inconclusive
    ensures Decide(a, declareInconclusive) == NothingToDeclare <==>
      a.complete && a.openDisputes == 0 && !declareInconclusive && !a.inconclusive && a.winnerParty == ""
  {
  }
}
