/** What the device gateway answers and keeps, in terms of the fields of the committed envelopes. */
module GatewayAnswers {
  import opened Options
  import opened DeviceGateway

  // ---------------------------------------------------------------------------------------
  // First captures and first accreditations.
  // ---------------------------------------------------------------------------------------

  /** Entry `i` captures a result of the polling unit, and none before it does. */
  ghost predicate FirstCapture(log: seq<Envelope>, election: int, unit: string, i: int) {
    && 0 <= i < |log| && log[i].event.ResultCapture? && log[i].election == election && log[i].unit == unit
    && forall j :: 0 <= j < i ==> !(log[j].event.ResultCapture? && log[j].election == election && log[j].unit == unit)
  }

  /** Entry `i` accredits the voter in the election, and none before it does. */
  ghost predicate FirstAccreditation(log: seq<Envelope>, pvc: string, election: int, i: int) {
    && 0 <= i < |log| && log[i].event.Accreditation? && log[i].event.pvc == pvc && log[i].election == election
    && forall j :: 0 <= j < i ==> !(log[j].event.Accreditation? && log[j].event.pvc == pvc && log[j].election == election)
  }

  lemma {:induction false} CapturedAtMeans(log: seq<Envelope>, election: int, unit: string)
    ensures var held := CapturedAt(log, Place(election, unit));
      if held.None? then forall j :: 0 <= j < |log| ==> !(log[j].event.ResultCapture? && log[j].election == election && log[j].unit == unit)
      else exists i :: FirstCapture(log, election, unit, i) && log[i].event.figures == held.value
  {
    if log != [] {
      var n := |log| - 1;
      CapturedAtMeans(log[..n], election, unit);
      var earlier := CapturedAt(log[..n], Place(election, unit));
      if earlier.Some? {
        var i :| FirstCapture(log[..n], election, unit, i) && log[..n][i].event.figures == earlier.value;
        assert FirstCapture(log, election, unit, i);
      } else if log[n].event.ResultCapture? && log[n].election == election && log[n].unit == unit {
        assert FirstCapture(log, election, unit, n);
      }
    }
  }

  lemma {:induction false} AccreditedAtMeans(log: seq<Envelope>, pvc: string, election: int)
    ensures var held := AccreditedAt(log, Voter(pvc, election));
      if held.None? then forall j :: 0 <= j < |log| ==> !(log[j].event.Accreditation? && log[j].event.pvc == pvc && log[j].election == election)
      else exists i :: FirstAccreditation(log, pvc, election, i) && log[i].unit == held.value
  {
    if log != [] {
      var n := |log| - 1;
      AccreditedAtMeans(log[..n], pvc, election);
      var earlier := AccreditedAt(log[..n], Voter(pvc, election));
      if earlier.Some? {
        var i :| FirstAccreditation(log[..n], pvc, election, i) && log[..n][i].unit == earlier.value;
        assert FirstAccreditation(log, pvc, election, i);
      } else if log[n].event.Accreditation? && log[n].event.pvc == pvc && log[n].election == election {
        assert FirstAccreditation(log, pvc, election, n);
      }
    }
  }

  lemma OneFirstCapture(log: seq<Envelope>, election: int, unit: string, i: int, j: int)
    requires FirstCapture(log, election, unit, i) && FirstCapture(log, election, unit, j)
    ensures i == j
  {
  }

  // ---------------------------------------------------------------------------------------
  // Outcomes.
  // ---------------------------------------------------------------------------------------

  /** A capture is applied if its polling unit has none yet, a duplicate if the first one has the same
      figures, and a conflict if it has different ones. */
  lemma CaptureOutcome(log: seq<Envelope>, e: Envelope)
    requires e.event.ResultCapture?
    ensures OutcomeOf(log, e) == Applied <==>
      forall j :: 0 <= j < |log| ==> !(log[j].event.ResultCapture? && log[j].election == e.election && log[j].unit == e.unit)
    ensures OutcomeOf(log, e) == Duplicate <==>
      exists i :: FirstCapture(log, e.election, e.unit, i) && log[i].event.figures == e.event.figures
    ensures OutcomeOf(log, e) == Conflict <==>
      exists i :: FirstCapture(log, e.election, e.unit, i) && log[i].event.figures != e.event.figures
  {
    CapturedAtMeans(log, e.election, e.unit);
    var held := CapturedAt(log, Place(e.election, e.unit));
    if held.Some? {
      var i :| FirstCapture(log, e.election, e.unit, i) && log[i].event.figures == held.value;
      forall j | FirstCapture(log, e.election, e.unit, j)
        ensures j == i
      {
        OneFirstCapture(log, e.election, e.unit, i, j);
      }
    }
  }

  /** An accreditation is applied if the voter has none in the election yet, and else a duplicate. */
  lemma AccreditationOutcome(log: seq<Envelope>, e: Envelope)
    requires e.event.Accreditation?
    ensures OutcomeOf(log, e) == Applied <==>
      forall j :: 0 <= j < |log| ==> !(log[j].event.Accreditation? && log[j].event.pvc == e.event.pvc && log[j].election == e.election)
    ensures OutcomeOf(log, e) == Duplicate <==> exists i :: FirstAccreditation(log, e.event.pvc, e.election, i)
    ensures OutcomeOf(log, e) in {Applied, Duplicate}
  {
    AccreditedAtMeans(log, e.event.pvc, e.election);
  }

  lemma OtherOutcome(log: seq<Envelope>, e: Envelope)
    requires e.event.OtherEvent?
    ensures OutcomeOf(log, e) == NoOutcome
  {
  }

  // ---------------------------------------------------------------------------------------
  // Refusals and answers.
  // ---------------------------------------------------------------------------------------

  /** An envelope of the same device with its sequence number or nonce is committed, or any one with its
      hash. */
  ghost predicate Repeated(log: seq<Envelope>, e: Envelope) {
    exists i :: 0 <= i < |log|
      && ((log[i].device == e.device && (log[i].sequenceNo == e.sequenceNo || log[i].nonce == e.nonce)) || log[i].hash == e.hash)
  }

  /** The voter was first accredited at another polling unit of the election. */
  ghost predicate Elsewhere(log: seq<Envelope>, e: Envelope) {
    e.event.Accreditation? && exists i :: FirstAccreditation(log, e.event.pvc, e.election, i) && log[i].unit != e.unit
  }

  lemma OneFirstAccreditation(log: seq<Envelope>, pvc: string, election: int, i: int, j: int)
    requires FirstAccreditation(log, pvc, election, i) && FirstAccreditation(log, pvc, election, j)
    ensures i == j
  {
  }

  lemma RefusedMeans(log: seq<Envelope>, e: Envelope)
    ensures Refused(log, e) <==> Repeated(log, e) || Elsewhere(log, e)
  {
    assert (exists f :: f in log && Repeats(e, f)) <==> Repeated(log, e) by {
      RepeatedMeans(log, e);
    }
    if e.event.Accreditation? {
      hide Repeats, Repeated;
      AccreditedAtMeans(log, e.event.pvc, e.election);
      var held := AccreditedAt(log, Voter(e.event.pvc, e.election));
      if held.Some? {
        var i :| FirstAccreditation(log, e.event.pvc, e.election, i) && log[i].unit == held.value;
        forall j | FirstAccreditation(log, e.event.pvc, e.election, j)
          ensures j == i
        {
          OneFirstAccreditation(log, e.event.pvc, e.election, i, j);
        }
      }
    }
  }

  lemma RepeatedMeans(log: seq<Envelope>, e: Envelope)
    ensures (exists f :: f in log && Repeats(e, f)) <==> Repeated(log, e)
  {
    if f :| f in log && Repeats(e, f) {
      var i :| 0 <= i < |log| && log[i] == f;
    }
    if Repeated(log, e) {
      var i :| 0 <= i < |log|
        && ((log[i].device == e.device && (log[i].sequenceNo == e.sequenceNo || log[i].nonce == e.nonce)) || log[i].hash == e.hash);
      assert log[i] in log && Repeats(e, log[i]);
    }
  }

  /** An accepted answer says what the capture or accreditation came to; and a verified send in the lenient
      mode that meets no fault in the database is accepted, unless it repeats an envelope or its voter is
      accredited elsewhere. */
  lemma AnswerMeans(s: State, e: Envelope, getFails: bool, verified: bool, failsAt: Option<nat>)
    ensures var answer := ResponseTo(s, e, getFails, verified, failsAt);
      && (answer == Accepted(Duplicate) && e.event.ResultCapture? ==>
            exists i :: FirstCapture(s.log, e.election, e.unit, i) && s.log[i].event.figures == e.event.figures)
      && (answer == Accepted(Conflict) ==>
            e.event.ResultCapture? && exists i :: FirstCapture(s.log, e.election, e.unit, i) && s.log[i].event.figures != e.event.figures)
      && (answer == Accepted(Applied) && e.event.ResultCapture? ==>
            forall j :: 0 <= j < |s.log| ==> !(s.log[j].event.ResultCapture? && s.log[j].election == e.election && s.log[j].unit == e.unit))
      && (answer == Accepted(Applied) && e.event.Accreditation? ==>
            forall j :: 0 <= j < |s.log| ==>
              !(s.log[j].event.Accreditation? && s.log[j].event.pvc == e.event.pvc && s.log[j].election == e.election))
      && (answer == Accepted(Duplicate) && e.event.Accreditation? ==> exists i :: FirstAccreditation(s.log, e.event.pvc, e.election, i))
      && (answer.Accepted? ==> (answer == Accepted(NoOutcome) <==> e.event.OtherEvent?))
    ensures !s.strict && (getFails || NonceKey(e.device, e.nonce) !in s.nonces) && verified && failsAt == None ==>
      var answer := ResponseTo(s, e, getFails, verified, failsAt);
      if Repeated(s.log, e) || Elsewhere(s.log, e) then answer == Replay else answer.Accepted?
  {
    hide Refused, OutcomeOf, Repeated, Elsewhere, FirstCapture, FirstAccreditation;
    RefusedMeans(s.log, e);
    match e.event
    case ResultCapture(_) => CaptureOutcome(s.log, e); OutcomesOfCaptures(s.log, e);
    case Accreditation(_) => AccreditationOutcome(s.log, e); AccreditedAtMeans(s.log, e.event.pvc, e.election);
    case OtherEvent => OtherOutcome(s.log, e);
  }

  lemma OutcomesOfCaptures(log: seq<Envelope>, e: Envelope)
    requires e.event.ResultCapture?
    ensures OutcomeOf(log, e) in {Applied, Duplicate, Conflict}
  {
  }

  /** A send that runs alone, whichever of its Redis calls fail: it commits in the lenient mode exactly if
      its nonce is not in Redis or could not be looked up, and the database takes it; the nonce is kept
      unless it could not be recorded. */
  lemma SendUnderOutage(s: State, req: int, e: Envelope, getFails: bool, setFails: bool)
    requires req !in s.requests && !s.strict
    ensures
      var key := NonceKey(e.device, e.nonce);
      var t := Next(Next(Next(Next(Next(s, Receive(req, e)), GetNonce(req, getFails)), SetNonce(req, setFails)), Verify(req, true)), Persist(req, false));
      if getFails || key !in s.nonces then
        && t.log == (if Repeated(s.log, e) || Elsewhere(s.log, e) then s.log else s.log + [e])
        && t.nonces == if setFails then s.nonces else s.nonces + {key}
      else t.log == s.log && t.nonces == s.nonces
  {
    hide Refused, Repeated, Elsewhere;
    RefusedMeans(s.log, e);
    var a := Next(s, Receive(req, e));
    assert a.requests[req] == Looking(e);
    var b := Next(a, GetNonce(req, getFails));
    if getFails || NonceKey(e.device, e.nonce) !in s.nonces {
      assert b.requests[req] == Recording(e);
      var c := Next(b, SetNonce(req, setFails));
      assert c.requests[req] == Verifying(e);
      var d := Next(c, Verify(req, true));
      assert d.requests[req] == Persisting(e);
    } else {
      assert req !in b.requests;
    }
  }

  /** In every interleaving: sequence numbers and nonces of a device and hashes are never committed twice,
      and a voter's accreditations in one election are all at one polling unit. */
  lemma CommittedOnce(strict: bool, actions: seq<Action>, i: int, j: int)
    requires var log := Run(State(strict, [], {}, map[]), actions).log; 0 <= i < j < |log|
    ensures
      var log := Run(State(strict, [], {}, map[]), actions).log;
      var e, f := log[i], log[j];
      && (e.device == f.device ==> e.sequenceNo != f.sequenceNo && e.nonce != f.nonce)
      && e.hash != f.hash
      && (e.event.Accreditation? && f.event.Accreditation? && e.event.pvc == f.event.pvc && e.election == f.election ==> e.unit == f.unit)
  {
    hide Run;
    GatewayNeverCommitsReplays(strict, actions);
    OnceInLog(Run(State(strict, [], {}, map[]), actions).log, i, j);
  }

  lemma OnceInLog(log: seq<Envelope>, i: int, j: int)
    requires NoReplays(log) && 0 <= i < j < |log|
    ensures
      var e, f := log[i], log[j];
      && (e.device == f.device ==> e.sequenceNo != f.sequenceNo && e.nonce != f.nonce)
      && e.hash != f.hash
      && (e.event.Accreditation? && f.event.Accreditation? && e.event.pvc == f.event.pvc && e.election == f.election ==> e.unit == f.unit)
  {
    var e, f := log[i], log[j];
    assert !Repeats(e, f);
    if e.event.Accreditation? {
      var voter := Voter(e.event.pvc, e.election);
      assert Accredits(e, voter);
      assert AccreditedAt(log, voter) == Some(e.unit);
      assert Accredits(f, voter) ==> AccreditedAt(log, voter) == Some(f.unit);
    }
  }
}
