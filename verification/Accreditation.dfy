/** Single-use biometric verifications (handleBVASAccreditation in bvas.go).  A request reads the
    verification, then looks for an earlier accreditation, then runs one transaction; the three steps of
    concurrent requests interleave freely. */
module Accreditation {
  import opened Options

  /** A biometric_verifications row; election 0 and the empty unit stand for "not recorded" too. */
  datatype Verification = Verification(isMatch: bool, election: Option<int>, unit: Option<string>, consumed: bool)

  /** A bvas_accreditations row.  `backing` is the verification it was committed with, which the program does
      not store. */
  datatype Row = Row(pvc: string, election: int, unit: string, backing: int)

  datatype Claim = Claim(verification: int, pvc: string, election: int, unit: string)

  /** A request after its read of the verification, and after its search for a duplicate. */
  datatype Request = Checked(claim: Claim) | Cleared(claim: Claim)

  datatype State = State(verifications: map<int, Verification>, rows: seq<Row>, requests: map<int, Request>)

  datatype Action =
    | Verify(id: int, verification: Verification)
    | Check(req: int, claim: Claim, preconditionsHold: bool)
    | LookForDuplicate(req: int, readFails: bool)
    | Commit(req: int, databaseFails: bool)
    | Crash(req: int)

  predicate Fits(v: Verification, c: Claim) {
    && v.isMatch
    && (v.election.Some? && v.election.value != 0 ==> v.election.value == c.election)
    && (v.unit.Some? && v.unit.value != "" ==> v.unit.value == c.unit)
  }

  predicate Accredited(rows: seq<Row>, pvc: string, election: int) {
    exists i :: 0 <= i < |rows| && rows[i].pvc == pvc && rows[i].election == election
  }

  function RowOf(c: Claim): Row { Row(c.pvc, c.election, c.unit, c.verification) }

  /** What the transaction needs from the database. */
  predicate CanCommit(s: State, c: Claim) {
    && c.verification in s.verifications && !s.verifications[c.verification].consumed
    && !Accredited(s.rows, c.pvc, c.election)
  }

  function Consumed(s: State, id: int): map<int, Verification>
    requires id in s.verifications
  {
    s.verifications[id := s.verifications[id].(consumed := true)]
  }

  function Next(s: State, a: Action): State {
    match a
    case Verify(id, v) =>
      if id in s.verifications then s else s.(verifications := s.verifications[id := v.(consumed := false)])
    case Check(req, c, preconditionsHold) =>
      if req in s.requests || c.verification !in s.verifications || c.verification == 0 then s
      else
        var v := s.verifications[c.verification];
        if !Fits(v, c) || v.consumed || !preconditionsHold then s else s.(requests := s.requests[req := Checked(c)])
    case LookForDuplicate(req, readFails) =>
      if req !in s.requests || !s.requests[req].Checked? then s
      else
        var c := s.requests[req].claim;
        if !readFails && Accredited(s.rows, c.pvc, c.election) then s.(requests := s.requests - {req})
        else s.(requests := s.requests[req := Cleared(c)])
    case Commit(req, databaseFails) =>
      if req !in s.requests || !s.requests[req].Cleared? then s
      else
        var c := s.requests[req].claim;
        if databaseFails || !CanCommit(s, c) then s.(requests := s.requests - {req})
        else State(Consumed(s, c.verification), s.rows + [RowOf(c)], s.requests - {req})
    case Crash(req) => s.(requests := s.requests - {req})
  }

  // ---------------------------------------------------------------------------------------
  // The handler over its tables.
  // ---------------------------------------------------------------------------------------

  /** bvas_accreditations_voter_election_unique. */
  datatype Voter = Voter(pvc: string, election: int)

  class AccreditationDesk {
    var verifications: map<int, Verification>
    var rows: seq<Row>
    var voters: set<Voter>
    var requests: map<int, Request>

    ghost function Value(): State
      reads this
    {
      State(verifications, rows, requests)
    }

    ghost predicate Valid()
      reads this
    {
      forall pvc, election :: Voter(pvc, election) in voters <==> Accredited(rows, pvc, election)
    }

    constructor ()
      ensures Valid() && Value() == State(map[], [], map[])
    {
      verifications, rows, voters, requests := map[], [], {}, map[];
    }

    method CheckVerification(req: int, c: Claim, preconditionsHold: bool) returns (ok: bool)
      requires Valid() && req !in requests
      modifies this`requests
      ensures Valid() && Value() == Next(old(Value()), Check(req, c, preconditionsHold))
      ensures ok <==> req in requests
      ensures ok <==>
        c.verification != 0 && c.verification in verifications && preconditionsHold &&
        var v := verifications[c.verification];
        && v.isMatch && !v.consumed
        && (v.election == None || v.election == Some(0) || v.election == Some(c.election))
        && (v.unit == None || v.unit == Some("") || v.unit == Some(c.unit))
    {
      if c.verification == 0 || c.verification !in verifications {
        return false;
      }
      var v := verifications[c.verification];
      if !v.isMatch || v.consumed {
        return false;
      }
      if v.election.Some? && v.election.value != 0 && v.election.value != c.election {
        return false;
      }
      if v.unit.Some? && v.unit.value != "" && v.unit.value != c.unit {
        return false;
      }
      if !preconditionsHold {
        return false;
      }
      requests := requests[req := Checked(c)];
      return true;
    }

    /** A failing query counts no duplicate. */
    method CheckDuplicate(req: int, readFails: bool) returns (ok: bool)
      requires Valid() && req in requests && requests[req].Checked?
      modifies this`requests
      ensures Valid() && Value() == Next(old(Value()), LookForDuplicate(req, readFails))
      ensures ok <==> req in requests
      ensures ok <==> readFails || forall r :: r in rows ==> r.pvc != old(requests)[req].claim.pvc || r.election != old(requests)[req].claim.election
    {
      var c := requests[req].claim;
      if !readFails && Voter(c.pvc, c.election) in voters {
        requests := requests - {req};
        return false;
      }
      requests := requests[req := Cleared(c)];
      return true;
    }

    /** The transaction: consume the verification, insert the row; a refused insert rolls back. */
    method ConsumeAndAccredit(req: int, databaseFails: bool) returns (ok: bool)
      requires Valid() && req in requests && requests[req].Cleared?
      modifies this
      ensures Valid() && Value() == Next(old(Value()), Commit(req, databaseFails))
      ensures ok <==> rows != old(rows)
      ensures !ok ==> verifications == old(verifications) && rows == old(rows)
    {
      var c := requests[req].claim;
      requests := requests - {req};
      if c.verification !in verifications || verifications[c.verification].consumed {
        return false;
      }
      var before := verifications;
      verifications := verifications[c.verification := verifications[c.verification].(consumed := true)];
      if databaseFails || Voter(c.pvc, c.election) in voters {
        verifications := before;
        return false;
      }
      rows := rows + [RowOf(c)];
      voters := voters + {Voter(c.pvc, c.election)};
      AccreditedExtends(old(rows), RowOf(c));
      return true;
    }
  }

  lemma AccreditedExtends(rows: seq<Row>, row: Row)
    ensures forall pvc, election :: Accredited(rows + [row], pvc, election) <==>
      Accredited(rows, pvc, election) || (pvc == row.pvc && election == row.election)
  {
    forall pvc, election
      ensures Accredited(rows + [row], pvc, election) <==>
        Accredited(rows, pvc, election) || (pvc == row.pvc && election == row.election)
    {
      var longer := rows + [row];
      assert longer[|rows|] == row;
      if Accredited(rows, pvc, election) {
        var i :| 0 <= i < |rows| && rows[i].pvc == pvc && rows[i].election == election;
        assert longer[i] == rows[i];
      }
    }
  }

  // ---------------------------------------------------------------------------------------
  // Every interleaving.
  // ---------------------------------------------------------------------------------------

  ghost predicate BackedBy(rows: seq<Row>, id: int) { exists i :: 0 <= i < |rows| && rows[i].backing == id }

  /** A verification is consumed exactly when an accreditation was committed with it, it backs one only,
      and it was a match that fits the accreditation. */
  ghost predicate Backing(s: State) {
    && (forall id :: id in s.verifications ==> (s.verifications[id].consumed <==> BackedBy(s.rows, id)))
    && (forall i, j :: 0 <= i < j < |s.rows| ==> s.rows[i].backing != s.rows[j].backing)
    && (forall i :: 0 <= i < |s.rows| ==>
          var r := s.rows[i];
          r.backing in s.verifications && Fits(s.verifications[r.backing], Claim(r.backing, r.pvc, r.election, r.unit)))
  }

  ghost predicate OnePerVoter(s: State) {
    forall i, j :: 0 <= i < j < |s.rows| ==> s.rows[i].pvc != s.rows[j].pvc || s.rows[i].election != s.rows[j].election
  }

  ghost predicate RequestsFit(s: State) {
    forall req :: req in s.requests ==>
      var c := s.requests[req].claim; c.verification in s.verifications && Fits(s.verifications[c.verification], c)
  }

  ghost predicate Inv(s: State) { Backing(s) && OnePerVoter(s) && RequestsFit(s) }

  lemma StepKeepsInv(s: State, a: Action)
    requires Inv(s)
    ensures Inv(Next(s, a))
  {
    if a.Commit? && a.req in s.requests && s.requests[a.req].Cleared? && !a.databaseFails
       && CanCommit(s, s.requests[a.req].claim) {
      CommitKeepsInv(s, a);
    }
  }

  lemma CommitKeepsInv(s: State, a: Action)
    requires Inv(s) && a.Commit? && a.req in s.requests && s.requests[a.req].Cleared? && !a.databaseFails
    requires CanCommit(s, s.requests[a.req].claim)
    ensures Inv(Next(s, a))
  {
    var c := s.requests[a.req].claim;
    var t := Next(s, a);
    var n := |s.rows|;
    assert t.rows[n] == RowOf(c) && t.rows[..n] == s.rows;
    forall id | id in t.verifications
      ensures t.verifications[id].consumed <==> BackedBy(t.rows, id)
    {
      if BackedBy(s.rows, id) {
        var i :| 0 <= i < n && s.rows[i].backing == id;
        assert t.rows[i].backing == id;
      }
      if BackedBy(t.rows, id) && id != c.verification {
        var i :| 0 <= i <= n && t.rows[i].backing == id;
        assert s.rows[i].backing == id;
      }
    }
  }

  function Run(s: State, actions: seq<Action>): State {
    if actions == [] then s else Next(Run(s, actions[..|actions| - 1]), actions[|actions| - 1])
  }

  /** In every interleaving of requests, crashes and new verifications: a verification is consumed if and
      only if an accreditation was committed with it, no verification backs two, and no voter has two
      accreditations in one election. */
  lemma {:induction false} RunsKeepInv(actions: seq<Action>)
    ensures Inv(Run(State(map[], [], map[]), actions))
  {
    hide Next, Inv;
    if actions == [] {
      EmptyIsGood();
    } else {
      RunsKeepInv(actions[..|actions| - 1]);
      StepKeepsInv(Run(State(map[], [], map[]), actions[..|actions| - 1]), actions[|actions| - 1]);
    }
  }

  /** In every interleaving each accreditation rests on a verification that was a match, is consumed, backs
      no other accreditation, and names the same election and polling unit where it names any. */
  lemma AccreditationsRestOnMatches(actions: seq<Action>, i: nat)
    requires i < |Run(State(map[], [], map[]), actions).rows|
    ensures
      var s := Run(State(map[], [], map[]), actions);
      var r := s.rows[i];
      r.backing in s.verifications &&
      var v := s.verifications[r.backing];
      && v.isMatch && v.consumed
      && (v.election == None || v.election == Some(0) || v.election == Some(r.election))
      && (v.unit == None || v.unit == Some("") || v.unit == Some(r.unit))
      && (forall j :: 0 <= j < |s.rows| && j != i ==>
            s.rows[j].backing != r.backing && (s.rows[j].pvc != r.pvc || s.rows[j].election != r.election))
  {
    hide Run;
    RunsKeepInv(actions);
    var s := Run(State(map[], [], map[]), actions);
    assert BackedBy(s.rows, s.rows[i].backing);
  }

  /** And a verification is consumed only by an accreditation. */
  lemma ConsumedMeansUsed(actions: seq<Action>, id: int)
    requires var s := Run(State(map[], [], map[]), actions); id in s.verifications && s.verifications[id].consumed
    ensures exists r :: r in Run(State(map[], [], map[]), actions).rows && r.backing == id
  {
    hide Run;
    RunsKeepInv(actions);
    var rows := Run(State(map[], [], map[]), actions).rows;
    var i :| 0 <= i < |rows| && rows[i].backing == id;
    assert rows[i] in rows;
  }

  lemma EmptyIsGood()
    ensures Inv(State(map[], [], map[]))
  {
  }

  /** A consumed verification stays consumed and committed accreditations are never changed or lost. */
  lemma {:induction false} CommitsAreFinal(s: State, actions: seq<Action>)
    ensures |s.rows| <= |Run(s, actions).rows| && Run(s, actions).rows[..|s.rows|] == s.rows
    ensures forall id :: id in s.verifications && s.verifications[id].consumed ==>
      id in Run(s, actions).verifications && Run(s, actions).verifications[id] == s.verifications[id]
  {
    if actions != [] {
      CommitsAreFinal(s, actions[..|actions| - 1]);
    }
  }

  /** When the transaction does not commit, every verification and every row is as before. */
  lemma LosingCommitChangesNothing(s: State, req: int, databaseFails: bool)
    ensures
      var t := Next(s, Commit(req, databaseFails));
      if req in s.requests && s.requests[req].Cleared? && !databaseFails && CanCommit(s, s.requests[req].claim)
      then |t.rows| == |s.rows| + 1 && t.verifications[s.requests[req].claim.verification].consumed
      else t.verifications == s.verifications && t.rows == s.rows
  {
  }

  /** Two requests that both passed the checks: whichever commits first, the other one loses, and if they
      brought different verifications the loser's is still good for another voter. */
  lemma RaceHasOneWinner(s: State, first: int, second: int)
    requires Inv(s) && first != second && first in s.requests && second in s.requests
    requires s.requests[first].Cleared? && s.requests[second].Cleared? && CanCommit(s, s.requests[first].claim)
    ensures
      var c, d := s.requests[first].claim, s.requests[second].claim;
      var t := Next(Next(s, Commit(first, false)), Commit(second, false));
      (c.verification == d.verification || (c.pvc == d.pvc && c.election == d.election)) ==>
        t.rows == s.rows + [RowOf(c)]
        && (c.verification != d.verification ==> t.verifications[d.verification] == s.verifications[d.verification])
  {
    var c := s.requests[first].claim;
    var mid := Next(s, Commit(first, false));
    assert mid.rows[|s.rows|] == RowOf(c);
    AccreditedExtends(s.rows, RowOf(c));
  }

  /** A request that runs alone and meets no fault. */
  function SendAlone(s: State, req: int, c: Claim, preconditionsHold: bool): State {
    Next(Next(Next(s, Check(req, c, preconditionsHold)), LookForDuplicate(req, false)), Commit(req, false))
  }

  /** A request that runs alone succeeds exactly when its verification is an unused match bound to this
      election and unit, the other checks hold, and the voter has no accreditation in the election. */
  lemma AloneSucceedsIff(s: State, req: int, c: Claim, preconditionsHold: bool)
    requires req !in s.requests
    ensures
      var t := SendAlone(s, req, c, preconditionsHold);
      (t.rows == s.rows + [Row(c.pvc, c.election, c.unit, c.verification)] <==>
         c.verification != 0 && c.verification in s.verifications && preconditionsHold
         && (forall r :: r in s.rows ==> r.pvc != c.pvc || r.election != c.election)
         && var v := s.verifications[c.verification];
            && v.isMatch && !v.consumed
            && (v.election == None || v.election == Some(0) || v.election == Some(c.election))
            && (v.unit == None || v.unit == Some("") || v.unit == Some(c.unit)))
      && (t.rows == s.rows + [Row(c.pvc, c.election, c.unit, c.verification)] || (t.rows == s.rows && t.verifications == s.verifications))
  {
    var u := Next(s, Check(req, c, preconditionsHold));
    if u != s {
      assert u.requests[req] == Checked(c);
    }
    assert |s.rows + [RowOf(c)]| == |s.rows| + 1;
    assert Accredited(s.rows, c.pvc, c.election) <==> exists r :: r in s.rows && r.pvc == c.pvc && r.election == c.election;
  }

  /** A voter whose insert fails can try again with the same verification: the retry succeeds if the
      verification was unused and the voter is not accredited. */
  lemma LostVerificationStaysUsable(s: State, req: int, retry: int)
    requires Inv(s) && req in s.requests && s.requests[req].Cleared? && s.requests[req].claim.verification != 0
    requires retry !in s.requests
    ensures
      var c := s.requests[req].claim;
      var lost := Next(s, Commit(req, true));
      SendAlone(lost, retry, c, true).rows == s.rows + [RowOf(c)] <==> CanCommit(s, c)
  {
    var c := s.requests[req].claim;
    var lost := Next(s, Commit(req, true));
    LosingCommitChangesNothing(s, req, true);
    AloneSucceedsIff(lost, retry, c, true);
  }
}
