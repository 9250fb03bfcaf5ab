/** Submission, correction and dispute of results: the results and disputes tables and their writers
    (ingestion.go, domain_inec.go, handlers.go, election_lifecycle.go, dispute_resolution.go).  Every
    writer locks the row it changes, so each call is one atomic step. */
module ResultHistory {
  import opened Options
  import opened Results

  // ---------------------------------------------------------------------------------------
  // Tables.
  // ---------------------------------------------------------------------------------------

  /** A results row; its id is its position in the table.  `figures` is the hash of the captured form. */
  datatype Row = Row(election: int, unit: string, figures: string, status: ResultStatus, validatedAt: bool, supersedes: Option<nat>)

  datatype DisputeStatus = Filed | UnderReview | Escalated | Resolved | Dismissed

  datatype Dispute = Dispute(result: Option<nat>, status: DisputeStatus)

  /** An EC8A form whose transaction has found no earlier result. */
  datatype Form = Form(election: int, unit: string, figures: string)

  datatype Tables = Tables(results: seq<Row>, disputes: seq<Dispute>, forms: map<int, Form>)

  const EMPTY := Tables([], [], map[])

  predicate SameKey(a: Row, b: Row) { a.election == b.election && a.unit == b.unit }

  ghost predicate HasLive(results: seq<Row>, election: int, unit: string) {
    exists i :: 0 <= i < |results| && results[i].election == election && results[i].unit == unit && Live(results[i].status)
  }

  predicate LiveAt(r: Row, election: int, unit: string) { r.election == election && r.unit == unit && Live(r.status) }

  /** Any result of the unit, history included. */
  ghost predicate HasAny(results: seq<Row>, election: int, unit: string) {
    exists i :: 0 <= i < |results| && results[i].election == election && results[i].unit == unit
  }

  // ---------------------------------------------------------------------------------------
  // What each writer does.
  // ---------------------------------------------------------------------------------------

  datatype DisputeAction = Review | Escalate | Resolve | Dismiss

  datatype Outcome = Upheld | DisputeDismissed | CorrectionOrdered | ResultAnnulled | RerunOrdered | InvalidOutcome

  /** `accepted` stands for validation, permissions and the other inserts of the transaction.  An EC8A form
      is submitted in two steps, a look for any earlier result and the insert. */
  datatype Action =
    | Ingest(election: int, unit: string, figures: string, override: bool, accepted: bool)
    | LookEC8A(req: int, election: int, unit: string, figures: string)
    | SubmitEC8A(req: int, accepted: bool)
    | Validate(id: nat, accepted: bool)
    | Finalize(id: nat, accepted: bool)
    | DisputeResult(id: nat, accepted: bool)
    | Correct(id: nat, figures: string, accepted: bool)
    | FileDispute(result: Option<nat>, accepted: bool)
    | HandleDispute(dispute: nat, act: DisputeAction, outcome: Option<Outcome>, hasResolution: bool)

  /** validTransitions */
  predicate CanTransition(from: ResultStatus, to: ResultStatus) {
    || (from == Pending && to in {Validated, Disputed})
    || (from == Validated && to in {Finalized, Disputed})
    || (from == Disputed && to in {Pending, Validated})
  }

  ghost function Inserted(results: seq<Row>, row: Row): seq<Row> {
    if HasLive(results, row.election, row.unit) then results else results + [row]
  }

  function WithStatus(results: seq<Row>, id: nat, status: ResultStatus): seq<Row>
    requires id < |results|
  {
    results[id := results[id].(status := status, validatedAt := results[id].validatedAt || status == Validated)]
  }

  function Moved(results: seq<Row>, id: nat, to: ResultStatus, accepted: bool): seq<Row> {
    if accepted && id < |results| && CanTransition(results[id].status, to) then WithStatus(results, id, to) else results
  }

  ghost function Corrected(results: seq<Row>, id: nat, figures: string, accepted: bool): seq<Row> {
    if !accepted || id >= |results| || !Live(results[id].status) then results
    else
      var wrong := results[id];
      var superseded := WithStatus(results, id, Superseded);
      if HasLive(superseded, wrong.election, wrong.unit) then results
      else superseded + [Row(wrong.election, wrong.unit, figures, Pending, false, Some(id))]
  }

  function EffectiveOutcome(act: DisputeAction, outcome: Option<Outcome>): Outcome {
    if outcome.Some? then outcome.value else if act == Dismiss then DisputeDismissed else Upheld
  }

  function Remediated(results: seq<Row>, id: nat, outcome: Outcome): seq<Row> {
    if id >= |results| then results
    else if outcome == DisputeDismissed && results[id].status == Disputed then
      WithStatus(results, id, if results[id].validatedAt then Validated else Pending)
    else if outcome in {ResultAnnulled, RerunOrdered} && Live(results[id].status) then
      WithStatus(results, id, Voided)
    else results
  }

  function DisputeHandled(t: Tables, d: nat, act: DisputeAction, outcome: Option<Outcome>, hasResolution: bool): Tables {
    if d >= |t.disputes| then t
    else
      var dispute := t.disputes[d];
      match act
      case Review =>
        if dispute.status == Filed then t.(disputes := t.disputes[d := dispute.(status := UnderReview)]) else t
      case Escalate =>
        if dispute.status in {Filed, UnderReview} then t.(disputes := t.disputes[d := dispute.(status := Escalated)]) else t
      case _ =>
        var effective := EffectiveOutcome(act, outcome);
        if dispute.status in {Resolved, Dismissed} || !hasResolution || effective == InvalidOutcome
           || (act == Dismiss && effective != DisputeDismissed) then t
        else
          t.(results := if dispute.result.Some? then Remediated(t.results, dispute.result.value, effective) else t.results,
             disputes := t.disputes[d := dispute.(status := if effective == DisputeDismissed then Dismissed else Resolved)])
  }

  ghost function Next(t: Tables, a: Action): Tables {
    match a
    case Ingest(election, unit, figures, override, accepted) =>
      if !accepted then t
      else t.(results := Inserted(t.results, Row(election, unit, figures, if override then Disputed else Pending, false, None)))
    case LookEC8A(req, election, unit, figures) =>
      if req in t.forms || HasAny(t.results, election, unit) then t
      else t.(forms := t.forms[req := Form(election, unit, figures)])
    case SubmitEC8A(req, accepted) =>
      if req !in t.forms then t
      else
        var f := t.forms[req];
        t.(forms := t.forms - {req},
           results := if accepted then Inserted(t.results, Row(f.election, f.unit, f.figures, Pending, false, None)) else t.results)
    case Validate(id, accepted) => t.(results := Moved(t.results, id, Validated, accepted))
    case Finalize(id, accepted) => t.(results := Moved(t.results, id, Finalized, accepted))
    case DisputeResult(id, accepted) => t.(results := Moved(t.results, id, Disputed, accepted))
    case Correct(id, figures, accepted) => t.(results := Corrected(t.results, id, figures, accepted))
    case FileDispute(result, accepted) => if accepted then t.(disputes := t.disputes + [Dispute(result, Filed)]) else t
    case HandleDispute(d, act, outcome, hasResolution) => DisputeHandled(t, d, act, outcome, hasResolution)
  }

  datatype Applied = Refused | Applied | Duplicate | Conflict

  class ResultStore {
    var results: seq<Row>
    var disputes: seq<Dispute>
    var forms: map<int, Form>

    ghost function State(): Tables
      reads this
    {
      Tables(results, disputes, forms)
    }

    constructor ()
      ensures State() == EMPTY
    {
      results, disputes, forms := [], [], map[];
    }

    method FindLive(election: int, unit: string) returns (found: Option<nat>)
      ensures found.None? <==> !HasLive(results, election, unit)
      ensures found.Some? ==>
        found.value < |results| && results[found.value].election == election
        && results[found.value].unit == unit && Live(results[found.value].status)
    {
      for i := 0 to |results|
        invariant forall k :: 0 <= k < i ==>
          !(results[k].election == election && results[k].unit == unit && Live(results[k].status))
      {
        if results[i].election == election && results[i].unit == unit && Live(results[i].status) {
          return Some(i);
        }
      }
      return None;
    }

    /** The first writer wins: a live result is never overwritten, and the answer says whether the
        figures agree with it. */
    method ApplyResult(election: int, unit: string, figures: string, override: bool, accepted: bool) returns (outcome: Applied)
      modifies this`results
      ensures State() == Next(old(State()), Ingest(election, unit, figures, override, accepted))
      ensures outcome == Refused <==> !accepted
      ensures outcome == Applied <==> accepted && !old(HasLive(results, election, unit))
      ensures outcome in {Duplicate, Conflict} ==> results == old(results) && exists i ::
        0 <= i < |results| && LiveAt(results[i], election, unit) && (outcome == Duplicate <==> results[i].figures == figures)
    {
      if !accepted {
        return Refused;
      }
      var initialStatus := if override then Disputed else Pending;
      var existing := FindLive(election, unit);
      if existing.Some? {
        assert LiveAt(results[existing.value], election, unit);
        return if results[existing.value].figures == figures then Duplicate else Conflict;
      }
      results := results + [Row(election, unit, figures, initialStatus, false, None)];
      return Applied;
    }

    /** The look of the EC8A form: any result of the unit, superseded and voided ones included, stops it. */
    method LookUpForm(req: int, election: int, unit: string, figures: string) returns (ok: bool)
      requires req !in forms
      modifies this`forms
      ensures State() == Next(old(State()), LookEC8A(req, election, unit, figures))
      ensures ok <==> !HasAny(results, election, unit)
    {
      for i := 0 to |results|
        invariant forall k :: 0 <= k < i ==> !(results[k].election == election && results[k].unit == unit)
      {
        if results[i].election == election && results[i].unit == unit {
          return false;
        }
      }
      forms := forms[req := Form(election, unit, figures)];
      return true;
    }

    method SubmitForm(req: int, accepted: bool) returns (ok: bool)
      requires req in forms
      modifies this`results, this`forms
      ensures State() == Next(old(State()), SubmitEC8A(req, accepted))
      ensures ok <==> accepted && !old(HasLive(results, forms[req].election, forms[req].unit))
    {
      var f := forms[req];
      forms := forms - {req};
      if !accepted {
        return false;
      }
      var existing := FindLive(f.election, f.unit);
      if existing.Some? {
        return false;
      }
      results := results + [Row(f.election, f.unit, f.figures, Pending, false, None)];
      return true;
    }

    method MoveResult(id: nat, to: ResultStatus, accepted: bool) returns (ok: bool)
      modifies this`results
      ensures results == Moved(old(results), id, to, accepted)
      ensures ok <==> id < |results| && CanTransition(old(results)[id].status, to) && accepted
    {
      if id >= |results| || !CanTransition(results[id].status, to) || !accepted {
        return false;
      }
      results := WithStatus(results, id, to);
      return true;
    }

    method CorrectResult(id: nat, figures: string, accepted: bool) returns (ok: bool)
      modifies this`results
      ensures State() == Next(old(State()), Correct(id, figures, accepted))
      ensures ok <==> results != old(results)
    {
      if id >= |results| || results[id].status == Superseded || results[id].status == Voided || !accepted {
        return false;
      }
      var before := results;
      results := WithStatus(results, id, Superseded);
      var clash := FindLive(before[id].election, before[id].unit);
      if clash.Some? {
        results := before;
        return false;
      }
      results := results + [Row(before[id].election, before[id].unit, figures, Pending, false, Some(id))];
      return true;
    }

    method ResolveDispute(d: nat, act: DisputeAction, outcome: Option<Outcome>, hasResolution: bool) returns (ok: bool)
      modifies this
      ensures State() == Next(old(State()), HandleDispute(d, act, outcome, hasResolution))
      ensures ok <==> disputes != old(disputes)
    {
      if d >= |disputes| {
        return false;
      }
      var dispute := disputes[d];
      if act == Review {
        if dispute.status != Filed {
          return false;
        }
        disputes := disputes[d := dispute.(status := UnderReview)];
      } else if act == Escalate {
        if dispute.status != UnderReview && dispute.status != Filed {
          return false;
        }
        disputes := disputes[d := dispute.(status := Escalated)];
      } else {
        if dispute.status == Resolved || dispute.status == Dismissed || !hasResolution {
          return false;
        }
        var effective := EffectiveOutcome(act, outcome);
        if effective == InvalidOutcome || (act == Dismiss && effective != DisputeDismissed) {
          return false;
        }
        if dispute.result.Some? && dispute.result.value < |results| {
          var id := dispute.result.value;
          var status := results[id].status;
          if effective == DisputeDismissed {
            if status == Disputed {
              results := WithStatus(results, id, if results[id].validatedAt then Validated else Pending);
            }
          } else if effective == ResultAnnulled || effective == RerunOrdered {
            if status != Superseded && status != Voided {
              results := WithStatus(results, id, Voided);
            }
          }
        }
        disputes := disputes[d := dispute.(status := if effective == DisputeDismissed then Dismissed else Resolved)];
      }
      return true;
    }
  }

  // ---------------------------------------------------------------------------------------
  // The invariant of the results table.
  // ---------------------------------------------------------------------------------------

  ghost predicate OneLivePerUnit(results: seq<Row>) {
    forall i, j :: 0 <= i < j < |results| && Live(results[i].status) && Live(results[j].status) ==> !SameKey(results[i], results[j])
  }

  ghost predicate LinksToHistory(results: seq<Row>) {
    forall i :: 0 <= i < |results| && results[i].supersedes.Some? ==>
      var p := results[i].supersedes.value;
      p < i && SameKey(results[p], results[i]) && results[p].status == Superseded
  }

  ghost predicate Succeeds(results: seq<Row>, j: int, i: int) {
    0 <= j < |results| && results[j].supersedes.Some? && results[j].supersedes.value == i
  }

  ghost predicate LinksAreInjective(results: seq<Row>) {
    forall i, j, p :: Succeeds(results, i, p) && Succeeds(results, j, p) ==> i == j
  }

  ghost predicate EverySupersededHasSuccessor(results: seq<Row>) {
    forall i :: 0 <= i < |results| && results[i].status == Superseded ==> exists j :: Succeeds(results, j, i)
  }

  ghost predicate ValidationStamped(results: seq<Row>) {
    forall i :: 0 <= i < |results| ==>
      (results[i].status == Pending ==> !results[i].validatedAt)
      && (results[i].status in {Validated, Finalized} ==> results[i].validatedAt)
  }

  ghost predicate Inv(results: seq<Row>) {
    && OneLivePerUnit(results) && LinksToHistory(results) && LinksAreInjective(results)
    && EverySupersededHasSuccessor(results) && ValidationStamped(results)
  }

  lemma SameLinks(a: seq<Row>, b: seq<Row>)
    requires |a| <= |b| && forall i :: 0 <= i < |a| ==> a[i].supersedes == b[i].supersedes
    requires forall i :: |a| <= i < |b| ==> b[i].supersedes.None?
    ensures forall i, p :: Succeeds(a, i, p) <==> Succeeds(b, i, p)
  {
  }

  lemma InsertKeepsInv(results: seq<Row>, row: Row)
    requires Inv(results) && row.supersedes.None? && !row.validatedAt && row.status in {Pending, Disputed}
    ensures Inv(Inserted(results, row))
  {
    var after := Inserted(results, row);
    SameLinks(results, after);
    hide Succeeds;
  }

  /** Changing one live row to any status but `superseded` keeps the invariant. */
  lemma StatusKeepsInv(results: seq<Row>, id: nat, status: ResultStatus)
    requires Inv(results) && id < |results| && Live(results[id].status)
    requires status != Superseded
    requires status == Pending ==> !results[id].validatedAt
    requires status == Finalized ==> results[id].validatedAt
    ensures Inv(WithStatus(results, id, status))
  {
    hide Succeeds, Inv;
    var after := WithStatus(results, id, status);
    InvParts(results);
    SameLinks(results, after);
    assert OneLivePerUnit(after);
    assert LinksToHistory(after);
    assert LinksAreInjective(after);
    assert EverySupersededHasSuccessor(after);
    assert ValidationStamped(after);
    InvFromParts(after);
  }

  lemma InvFromParts(results: seq<Row>)
    requires OneLivePerUnit(results) && LinksToHistory(results) && LinksAreInjective(results)
    requires EverySupersededHasSuccessor(results) && ValidationStamped(results)
    ensures Inv(results)
  {
  }

  /** The table after a correction that goes through. */
  ghost function CorrectedRows(results: seq<Row>, id: nat, figures: string): seq<Row>
    requires id < |results|
  {
    var wrong := results[id];
    results[id := wrong.(status := Superseded)] + [Row(wrong.election, wrong.unit, figures, Pending, false, Some(id))]
  }

  lemma CorrectionGoesThrough(results: seq<Row>, id: nat, figures: string)
    requires OneLivePerUnit(results) && id < |results| && Live(results[id].status)
    ensures Corrected(results, id, figures, true) == CorrectedRows(results, id, figures)
  {
  }

  lemma CorrectionKeepsOneLive(results: seq<Row>, id: nat, figures: string)
    requires OneLivePerUnit(results) && ValidationStamped(results) && id < |results| && Live(results[id].status)
    ensures OneLivePerUnit(CorrectedRows(results, id, figures)) && ValidationStamped(CorrectedRows(results, id, figures))
  {
  }

  lemma CorrectionKeepsLinks(results: seq<Row>, id: nat, figures: string)
    requires LinksToHistory(results) && LinksAreInjective(results) && id < |results| && Live(results[id].status)
    ensures LinksToHistory(CorrectedRows(results, id, figures)) && LinksAreInjective(CorrectedRows(results, id, figures))
  {
    var after := CorrectedRows(results, id, figures);
    forall i, p | Succeeds(after, i, p)
      ensures if i == |results| then p == id else Succeeds(results, i, p) && p != id
    {
      assert i < |results| ==> after[i].supersedes == results[i].supersedes;
    }
  }

  lemma CorrectionKeepsSuccessors(results: seq<Row>, id: nat, figures: string)
    requires EverySupersededHasSuccessor(results) && id < |results|
    ensures EverySupersededHasSuccessor(CorrectedRows(results, id, figures))
  {
    var after := CorrectedRows(results, id, figures);
    forall i | 0 <= i < |after| && after[i].status == Superseded
      ensures exists j :: Succeeds(after, j, i)
    {
      if i == id {
        assert Succeeds(after, |results|, i);
      } else {
        var j :| Succeeds(results, j, i);
        assert Succeeds(after, j, i);
      }
    }
  }

  lemma CorrectionKeepsInv(results: seq<Row>, id: nat, figures: string, accepted: bool)
    requires Inv(results)
    ensures Inv(Corrected(results, id, figures, accepted))
  {
    hide OneLivePerUnit, LinksToHistory, LinksAreInjective, EverySupersededHasSuccessor, ValidationStamped, HasLive;
    if accepted && id < |results| && Live(results[id].status) {
      CorrectionGoesThrough(results, id, figures);
      CorrectionKeepsOneLive(results, id, figures);
      CorrectionKeepsLinks(results, id, figures);
      CorrectionKeepsSuccessors(results, id, figures);
    }
  }

  lemma StepKeepsInv(t: Tables, a: Action)
    requires Inv(t.results)
    ensures Inv(Next(t, a).results)
  {
    hide Inv, WithStatus, Inserted, Corrected;
    match a
    case Ingest(election, unit, figures, override, _) =>
      InsertKeepsInv(t.results, Row(election, unit, figures, if override then Disputed else Pending, false, None));
    case LookEC8A(_, _, _, _) =>
    case SubmitEC8A(req, _) =>
      if req in t.forms {
        InsertKeepsInv(t.results, Row(t.forms[req].election, t.forms[req].unit, t.forms[req].figures, Pending, false, None));
      }
    case Validate(id, accepted) =>
      MoveKeepsInv(t.results, id, Validated, accepted);
    case Finalize(id, accepted) =>
      MoveKeepsInv(t.results, id, Finalized, accepted);
    case DisputeResult(id, accepted) =>
      MoveKeepsInv(t.results, id, Disputed, accepted);
    case Correct(id, figures, accepted) =>
      CorrectionKeepsInv(t.results, id, figures, accepted);
    case FileDispute(_, _) =>
    case HandleDispute(d, act, outcome, _) =>
      if d < |t.disputes| && t.disputes[d].result.Some? {
        RemedyKeepsInv(t.results, t.disputes[d].result.value, EffectiveOutcome(act, outcome));
      }
  }

  lemma MoveKeepsInv(results: seq<Row>, id: nat, to: ResultStatus, accepted: bool)
    requires Inv(results) && to in {Validated, Finalized, Disputed}
    ensures Inv(Moved(results, id, to, accepted))
  {
    hide Inv, WithStatus;
    if accepted && id < |results| && CanTransition(results[id].status, to) {
      assert ValidationStamped(results) by { InvParts(results); }
      StatusKeepsInv(results, id, to);
    }
  }

  lemma RemedyKeepsInv(results: seq<Row>, id: nat, outcome: Outcome)
    requires Inv(results)
    ensures Inv(Remediated(results, id, outcome))
  {
    hide Inv, WithStatus;
    if id < |results| && Live(results[id].status) {
      StatusKeepsInv(results, id, if results[id].validatedAt then Validated else Pending);
      StatusKeepsInv(results, id, Voided);
    }
  }

  lemma InvParts(results: seq<Row>)
    requires Inv(results)
    ensures OneLivePerUnit(results) && LinksToHistory(results) && LinksAreInjective(results)
    ensures EverySupersededHasSuccessor(results) && ValidationStamped(results)
  {
  }

  // ---------------------------------------------------------------------------------------
  // Every run.
  // ---------------------------------------------------------------------------------------

  ghost function Run(t: Tables, actions: seq<Action>): Tables {
    if actions == [] then t else Next(Run(t, actions[..|actions| - 1]), actions[|actions| - 1])
  }

  lemma {:induction false} RunsKeepInv(actions: seq<Action>)
    ensures Inv(Run(EMPTY, actions).results)
  {
    hide Next;
    if actions != [] {
      RunsKeepInv(actions[..|actions| - 1]);
      StepKeepsInv(Run(EMPTY, actions[..|actions| - 1]), actions[|actions| - 1]);
    }
  }

  /** Superseded and voided rows never change, no captured figures are ever overwritten, and no row is
      removed. */
  ghost predicate HistoryKept(before: seq<Row>, after: seq<Row>) {
    |before| <= |after|
    && forall i :: 0 <= i < |before| ==>
         SameKey(before[i], after[i]) && before[i].figures == after[i].figures && before[i].supersedes == after[i].supersedes
         && (!Live(before[i].status) ==> after[i] == before[i])
  }

  lemma StepKeepsHistory(t: Tables, a: Action)
    ensures HistoryKept(t.results, Next(t, a).results)
  {
  }

  lemma {:induction false} RunsKeepHistory(t: Tables, actions: seq<Action>)
    ensures HistoryKept(t.results, Run(t, actions).results)
  {
    hide Next;
    if actions != [] {
      RunsKeepHistory(t, actions[..|actions| - 1]);
      StepKeepsHistory(Run(t, actions[..|actions| - 1]), actions[|actions| - 1]);
    }
  }

  /** A superseded result has exactly one successor, of the same election and polling unit. */
  lemma SuccessorIsUnique(actions: seq<Action>, i: nat)
    requires var results := Run(EMPTY, actions).results; i < |results| && results[i].status == Superseded
    ensures
      var results := Run(EMPTY, actions).results;
      exists j :: Succeeds(results, j, i) && SameKey(results[i], results[j]) && forall k :: Succeeds(results, k, i) ==> k == j
  {
    hide Run;
    var results := Run(EMPTY, actions).results;
    RunsKeepInv(actions);
    var j :| Succeeds(results, j, i);
    assert SameKey(results[i], results[j]);
  }

  /** The ids met when following supersedes links from `id`. */
  ghost function Lineage(results: seq<Row>, id: nat): seq<nat>
    requires LinksToHistory(results) && id < |results|
    decreases id
  {
    [id] + if results[id].supersedes.Some? then Lineage(results, results[id].supersedes.value) else []
  }

  /** Following the links ends, stays in one (election, polling unit), meets only superseded results
      below the head, never meets a result twice and stops at a result that corrected nothing. */
  lemma {:induction false} LineageIsHistory(results: seq<Row>, id: nat)
    requires LinksToHistory(results) && id < |results|
    ensures
      var path := Lineage(results, id);
      && (forall k :: 0 <= k < |path| ==> path[k] < |results| && SameKey(results[path[k]], results[id]))
      && (forall k :: 0 < k < |path| ==> results[path[k]].status == Superseded && path[k] < path[k - 1])
      && results[path[|path| - 1]].supersedes.None?
  {
    if results[id].supersedes.Some? {
      var p := results[id].supersedes.value;
      LineageIsHistory(results, p);
      var path, rest := Lineage(results, id), Lineage(results, p);
      assert forall k :: 0 < k < |path| ==> path[k] == rest[k - 1];
    }
  }

  /** Two heads never share history: each row lies on the lineage of one unsuperseded head only. */
  lemma {:induction false} LineagesAreDisjoint(results: seq<Row>, a: nat, b: nat, k: nat, l: nat)
    requires Inv(results) && a < |results| && b < |results| && a != b
    requires results[a].status != Superseded && results[b].status != Superseded
    requires k < |Lineage(results, a)| && l < |Lineage(results, b)|
    ensures Lineage(results, a)[k] != Lineage(results, b)[l]
    decreases k + l
  {
    assert Lineage(results, a)[0] == a && Lineage(results, b)[0] == b;
    hide Lineage, OneLivePerUnit, LinksToHistory, EverySupersededHasSuccessor, ValidationStamped;
    LineageIsHistory(results, a);
    LineageIsHistory(results, b);
    if k > 0 && l > 0 {
      hide Succeeds;
      LineageStep(results, a, k);
      LineageStep(results, b, l);
      LineagesAreDisjoint(results, a, b, k - 1, l - 1);
    }
  }

  lemma {:induction false} LineageStep(results: seq<Row>, id: nat, k: nat)
    requires LinksToHistory(results) && id < |results| && 0 < k < |Lineage(results, id)|
    ensures Succeeds(results, Lineage(results, id)[k - 1], Lineage(results, id)[k])
  {
    if k > 1 {
      LineageStep(results, results[id].supersedes.value, k - 1);
    }
  }

  /** Dismissing a dispute undoes it: the result is back in the status it was disputed from. */
  lemma DismissUndoesDispute(actions: seq<Action>, id: nat, d: nat)
    requires
      var t := Run(EMPTY, actions);
      id < |t.results| && CanTransition(t.results[id].status, Disputed)
      && d < |t.disputes| && t.disputes[d].result == Some(id) && t.disputes[d].status !in {Resolved, Dismissed}
    ensures
      var t := Run(EMPTY, actions);
      var disputed := Next(t, DisputeResult(id, true));
      disputed != t && Next(disputed, HandleDispute(d, Dismiss, None, true)).results == t.results
  {
    hide Run;
    RunsKeepInv(actions);
    var t := Run(EMPTY, actions);
    assert ValidationStamped(t.results);
  }

  /** A closed dispute stays closed, so it changes its result at most once. */
  lemma {:induction false} ClosedDisputesStayClosed(t: Tables, actions: seq<Action>, d: nat)
    requires d < |t.disputes| && t.disputes[d].status in {Resolved, Dismissed}
    ensures d < |Run(t, actions).disputes| && Run(t, actions).disputes[d] == t.disputes[d]
    ensures forall act, outcome, r :: Next(Run(t, actions), HandleDispute(d, act, outcome, r)) == Run(t, actions)
  {
    if actions != [] {
      ClosedDisputesStayClosed(t, actions[..|actions| - 1], d);
      var before, a := Run(t, actions[..|actions| - 1]), actions[|actions| - 1];
      assert d < |Next(before, a).disputes| && Next(before, a).disputes[d] == before.disputes[d];
    }
  }
}
