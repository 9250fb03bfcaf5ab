/** What a result can become and by which step (security.go, election_lifecycle.go, dispute_resolution.go). */
module ResultCourse {
  import opened Options
  import opened Results
  import opened ResultHistory

  /** The result is out of the count for good. */
  predicate Gone(status: ResultStatus) { status in {Superseded, Voided} }

  /** In every run, of two results of one election and polling unit one is superseded or voided. */
  lemma AtMostOneCurrent(actions: seq<Action>, i: nat, j: nat)
    requires var rows := Run(EMPTY, actions).results;
      i < j < |rows| && rows[i].election == rows[j].election && rows[i].unit == rows[j].unit
    ensures var rows := Run(EMPTY, actions).results; Gone(rows[i].status) || Gone(rows[j].status)
  {
    hide Run;
    RunsKeepInv(actions);
  }

  // ---------------------------------------------------------------------------------------
  // Capture.
  // ---------------------------------------------------------------------------------------

  /** An accepted capture of a unit whose results, if any, are all gone adds a result, pending, or disputed
      when an override was given; otherwise nothing changes. */
  lemma CaptureMeans(t: Tables, election: int, unit: string, figures: string, override: bool, accepted: bool)
    ensures var next := Next(t, Ingest(election, unit, figures, override, accepted));
      next == if accepted && forall r :: r in t.results && r.election == election && r.unit == unit ==> Gone(r.status)
              then t.(results := t.results + [Row(election, unit, figures, if override then Disputed else Pending, false, None)]) else t
  {
    LiveRows(t.results, election, unit);
  }

  lemma LiveRows(rows: seq<Row>, election: int, unit: string)
    ensures HasLive(rows, election, unit) <==> exists r :: r in rows && r.election == election && r.unit == unit && !Gone(r.status)
  {
    if HasLive(rows, election, unit) {
      var i :| 0 <= i < |rows| && rows[i].election == election && rows[i].unit == unit && Live(rows[i].status);
      assert rows[i] in rows;
    }
    if r :| r in rows && r.election == election && r.unit == unit && !Gone(r.status) {
      var i :| 0 <= i < |rows| && rows[i] == r;
    }
  }

  /** A form is looked up against all results of the unit, gone or not, and inserted pending against those
      that are not gone. */
  lemma FormMeans(t: Tables, req: int, election: int, unit: string, figures: string, accepted: bool)
    requires req !in t.forms
    ensures var looked := Next(t, LookEC8A(req, election, unit, figures));
      looked == if forall r :: r in t.results ==> r.election != election || r.unit != unit
                then t.(forms := t.forms[req := Form(election, unit, figures)]) else t
    ensures
      var ready := t.(forms := t.forms[req := Form(election, unit, figures)]);
      Next(ready, SubmitEC8A(req, accepted))
      == if accepted && forall r :: r in t.results && r.election == election && r.unit == unit ==> Gone(r.status)
         then t.(results := t.results + [Row(election, unit, figures, Pending, false, None)]) else t
  {
    LiveRows(t.results, election, unit);
    assert HasAny(t.results, election, unit) <==> exists r :: r in t.results && r.election == election && r.unit == unit;
    assert t.forms[req := Form(election, unit, figures)] - {req} == t.forms;
  }

  // ---------------------------------------------------------------------------------------
  // Validation and finalization.
  // ---------------------------------------------------------------------------------------

  /** A pending result can be validated or disputed, a validated one finalized or disputed, a disputed one
      put back to pending or validated; nothing else is possible. */
  lemma MoveMeans(rows: seq<Row>, id: nat, to: ResultStatus, accepted: bool)
    requires id < |rows|
    ensures Moved(rows, id, to, accepted)
      == if accepted && (rows[id].status, to) in {(Pending, Validated), (Pending, Disputed), (Validated, Finalized),
                                                  (Validated, Disputed), (Disputed, Pending), (Disputed, Validated)}
         then rows[id := rows[id].(status := to, validatedAt := rows[id].validatedAt || to == Validated)] else rows
  {
  }

  /** The dispute has result `i` and is open, and the step resolves it with an annulment or a rerun. */
  ghost predicate Annuls(t: Tables, a: Action, i: nat) {
    && a.HandleDispute? && a.dispute < |t.disputes| && t.disputes[a.dispute].result == Some(i)
    && t.disputes[a.dispute].status in {Filed, UnderReview, Escalated}
    && a.act == Resolve && a.hasResolution && a.outcome in {Some(ResultAnnulled), Some(RerunOrdered)}
  }

  /** A result becomes final only out of validated, by being finalized, and a final result changes only by
      an accepted correction or by a dispute that annuls it. */
  lemma FinalResults(t: Tables, a: Action, i: nat)
    requires i < |t.results|
    ensures i < |Next(t, a).results|
    ensures Next(t, a).results[i].status == Finalized ==>
      t.results[i].status == Finalized || (t.results[i].status == Validated && a == Action.Finalize(i, true))
    ensures t.results[i].status == Finalized ==>
      || Next(t, a).results[i] == t.results[i]
      || (Next(t, a).results[i] == t.results[i].(status := Superseded) && a.Correct? && a.id == i && a.accepted)
      || (Next(t, a).results[i] == t.results[i].(status := Voided) && Annuls(t, a, i))
  {
    if a.HandleDispute? && a.dispute < |t.disputes| {
      FinalUnderDispute(t, a, i);
    }
  }

  lemma FinalUnderDispute(t: Tables, a: Action, i: nat)
    requires i < |t.results| && a.HandleDispute? && a.dispute < |t.disputes|
    ensures t.results[i].status == Finalized ==>
      || Next(t, a).results[i] == t.results[i]
      || (Next(t, a).results[i] == t.results[i].(status := Voided) && Annuls(t, a, i))
  {
    var d := t.disputes[a.dispute];
    var effective := EffectiveOutcome(a.act, a.outcome);
    if d.result == Some(i) && a.act in {Resolve, Dismiss} {
      assert a.outcome.Some? ==> a.outcome == Some(effective);
      assert d.status.Filed? || d.status.UnderReview? || d.status.Escalated? || d.status.Resolved? || d.status.Dismissed?;
    } else {
      assert d.result.Some? ==> d.result == Some(d.result.value);
    }
  }

  /** No result is final when it is inserted. */
  lemma NewResultsAreNotFinal(t: Tables, a: Action, i: nat)
    requires |t.results| <= i < |Next(t, a).results|
    ensures Next(t, a).results[i].status in {Pending, Disputed} && i == |t.results|
  {
  }

  // ---------------------------------------------------------------------------------------
  // Corrections.
  // ---------------------------------------------------------------------------------------

  /** In every reachable state an accepted correction of a result that is not gone supersedes it and adds
      its successor, pending and with the new figures; of one that is gone it does nothing. */
  lemma CorrectionMeans(actions: seq<Action>, id: nat, figures: string)
    requires id < |Run(EMPTY, actions).results|
    ensures
      var t := Run(EMPTY, actions);
      var wrong := t.results[id];
      Next(t, Correct(id, figures, true))
      == if Gone(wrong.status) then t
         else t.(results := t.results[id := wrong.(status := Superseded)] + [Row(wrong.election, wrong.unit, figures, Pending, false, Some(id))])
  {
    hide Run;
    RunsKeepInv(actions);
    var t := Run(EMPTY, actions);
    if !Gone(t.results[id].status) {
      CorrectionGoesThrough(t.results, id, figures);
    }
  }

  // ---------------------------------------------------------------------------------------
  // Disputes.
  // ---------------------------------------------------------------------------------------

  /** Review takes a filed dispute, escalation one that is filed or under review. */
  lemma ReviewAndEscalation(t: Tables, d: nat, outcome: Option<Outcome>, hasResolution: bool)
    requires d < |t.disputes|
    ensures Next(t, HandleDispute(d, Review, outcome, hasResolution))
      == if t.disputes[d].status == Filed then t.(disputes := t.disputes[d := t.disputes[d].(status := UnderReview)]) else t
    ensures Next(t, HandleDispute(d, Escalate, outcome, hasResolution))
      == if t.disputes[d].status in {Filed, UnderReview} then t.(disputes := t.disputes[d := t.disputes[d].(status := Escalated)]) else t
  {
  }

  /** What resolving an open dispute does to its result: upheld, also by default, and a correction order
      leave it alone, an annulment or rerun order voids it unless it is gone already, and a dismissal puts a
      disputed result back to validated or pending. */
  lemma ResolutionMeans(t: Tables, d: nat, id: nat, outcome: Option<Outcome>)
    requires d < |t.disputes| && t.disputes[d].result == Some(id) && id < |t.results|
    requires t.disputes[d].status in {Filed, UnderReview, Escalated} && outcome != Some(InvalidOutcome)
    ensures
      var next := Next(t, HandleDispute(d, Resolve, outcome, true));
      var row := t.results[id];
      && next.disputes == t.disputes[d := t.disputes[d].(status := if outcome == Some(DisputeDismissed) then Dismissed else Resolved)]
      && next.forms == t.forms
      && (outcome in {None, Some(Upheld), Some(CorrectionOrdered)} ==> next.results == t.results)
      && (outcome in {Some(ResultAnnulled), Some(RerunOrdered)} ==>
            next.results == if Gone(row.status) then t.results else t.results[id := row.(status := Voided)])
      && (outcome == Some(DisputeDismissed) ==>
            next.results == if row.status != Disputed then t.results
                            else t.results[id := row.(status := if row.validatedAt then Validated else Pending)])
  {
  }

  /** Dismissing needs no outcome and takes none but dismissed; without a resolution text, or with an
      outcome that is not known, nothing happens. */
  lemma DismissalMeans(t: Tables, d: nat, act: DisputeAction, outcome: Option<Outcome>, hasResolution: bool)
    requires d < |t.disputes| && act in {Resolve, Dismiss}
    ensures (!hasResolution || outcome == Some(InvalidOutcome) || t.disputes[d].status in {Resolved, Dismissed}
             || (act == Dismiss && outcome !in {None, Some(DisputeDismissed)})) ==>
      Next(t, HandleDispute(d, act, outcome, hasResolution)) == t
    ensures hasResolution && act == Dismiss && outcome in {None, Some(DisputeDismissed)} ==>
      Next(t, HandleDispute(d, Dismiss, outcome, true)) == Next(t, HandleDispute(d, Resolve, Some(DisputeDismissed), true))
  {
  }

  /** In every reachable state an annulment frees the polling unit: the next accepted capture is applied. */
  lemma AnnulmentFreesUnit(actions: seq<Action>, d: nat, id: nat, outcome: Outcome, figures: string, override: bool)
    requires
      var t := Run(EMPTY, actions);
      && d < |t.disputes| && t.disputes[d].result == Some(id) && id < |t.results| && !Gone(t.results[id].status)
      && t.disputes[d].status in {Filed, UnderReview, Escalated} && outcome in {ResultAnnulled, RerunOrdered}
    ensures
      var t := Run(EMPTY, actions);
      var row := t.results[id];
      var freed := Next(t, HandleDispute(d, Resolve, Some(outcome), true));
      Next(freed, Ingest(row.election, row.unit, figures, override, true)).results
      == t.results[id := row.(status := Voided)] + [Row(row.election, row.unit, figures, if override then Disputed else Pending, false, None)]
  {
    hide Run;
    RunsKeepInv(actions);
    var t := Run(EMPTY, actions);
    var row := t.results[id];
    ResolutionMeans(t, d, id, Some(outcome));
    var freed := Next(t, HandleDispute(d, Resolve, Some(outcome), true));
    forall r | r in freed.results && r.election == row.election && r.unit == row.unit
      ensures Gone(r.status)
    {
      var k :| 0 <= k < |freed.results| && freed.results[k] == r;
      assert k != id ==> t.results[k] == r;
    }
    CaptureMeans(freed, row.election, row.unit, figures, override, true);
  }
}
