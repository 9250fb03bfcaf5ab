/** The device gateway (device_gateway.go).  A request looks its nonce up in Redis, records it there, has
    the envelope verified and persists it in one transaction; after a hard failure it releases the nonce.
    These steps of concurrent sends and retries interleave freely, requests may crash and Redis may lose
    keys.  The machine below keeps only the log of committed envelopes: every table is a function of it. */
module DeviceGateway {
  import opened Options

  /** `figures` is the hash of the captured form; other event types are only recorded. */
  datatype Event = Accreditation(pvc: string) | ResultCapture(figures: string) | OtherEvent

  datatype Envelope = Envelope(device: string, election: int, unit: string, sequenceNo: int, nonce: string, hash: string, event: Event)

  datatype Place = Place(election: int, unit: string)

  datatype Voter = Voter(pvc: string, election: int)

  datatype NonceKey = NonceKey(device: string, nonce: string)

  datatype SequenceKey = SequenceKey(device: string, sequenceNo: int)

  datatype Outcome = NoOutcome | Applied | Duplicate | Conflict

  /** A request, by the step it does next. */
  datatype Request =
    | Looking(envelope: Envelope)
    | Recording(envelope: Envelope)
    | Verifying(envelope: Envelope)
    | Persisting(envelope: Envelope)
    | Releasing(envelope: Envelope)

  /** `strict` says that Redis is required, as it is in production. */
  datatype State = State(strict: bool, log: seq<Envelope>, nonces: set<NonceKey>, requests: map<int, Request>)

  datatype Action =
    | Receive(req: int, envelope: Envelope)
    | GetNonce(req: int, redisFails: bool)
    | SetNonce(req: int, redisFails: bool)
    | Verify(req: int, verified: bool)
    | Persist(req: int, fails: bool)
    | Release(req: int, redisFails: bool)
    | Crash(req: int)
    | LoseKey(key: NonceKey)

  function KeyOf(e: Envelope): NonceKey { NonceKey(e.device, e.nonce) }

  function SequenceOf(e: Envelope): SequenceKey { SequenceKey(e.device, e.sequenceNo) }

  function PlaceOf(e: Envelope): Place { Place(e.election, e.unit) }

  predicate CapturesAt(e: Envelope, place: Place) { e.event.ResultCapture? && PlaceOf(e) == place }

  predicate Accredits(e: Envelope, voter: Voter) { e.event.Accreditation? && Voter(e.event.pvc, e.election) == voter }

  // ---------------------------------------------------------------------------------------
  // What a log of committed envelopes means.
  // ---------------------------------------------------------------------------------------

  /** The canonical result of a polling unit: the figures of the first capture. */
  function CapturedAt(log: seq<Envelope>, place: Place): Option<string> {
    if log == [] then None
    else
      var earlier, e := CapturedAt(log[..|log| - 1], place), log[|log| - 1];
      if earlier.Some? then earlier else if CapturesAt(e, place) then Some(e.event.figures) else None
  }

  /** Where the voter was first accredited. */
  function AccreditedAt(log: seq<Envelope>, voter: Voter): Option<string> {
    if log == [] then None
    else
      var earlier, e := AccreditedAt(log[..|log| - 1], voter), log[|log| - 1];
      if earlier.Some? then earlier else if Accredits(e, voter) then Some(e.unit) else None
  }

  function OutcomeOf(log: seq<Envelope>, e: Envelope): Outcome {
    match e.event
    case OtherEvent => NoOutcome
    case Accreditation(pvc) => if AccreditedAt(log, Voter(pvc, e.election)).None? then Applied else Duplicate
    case ResultCapture(figures) =>
      var held := CapturedAt(log, PlaceOf(e));
      if held.None? then Applied else if held.value == figures then Duplicate else Conflict
  }

  predicate Repeats(e: Envelope, f: Envelope) { SequenceOf(e) == SequenceOf(f) || KeyOf(e) == KeyOf(f) || e.hash == f.hash }

  /** The voter was accredited in this election, but elsewhere. */
  predicate AccreditedElsewhere(log: seq<Envelope>, e: Envelope) {
    e.event.Accreditation? && AccreditedAt(log, Voter(e.event.pvc, e.election)) !in {None, Some(e.unit)}
  }

  /** The database refuses the envelope with a unique violation. */
  ghost predicate Refused(log: seq<Envelope>, e: Envelope) {
    (exists f :: f in log && Repeats(e, f)) || AccreditedElsewhere(log, e)
  }

  /** Whether a fault at stage `failsAt` of the transaction makes it fail hard: the unique indexes of the
      inbox are checked after stage 0, the voter's index after stage 1. */
  ghost predicate FailsHard(log: seq<Envelope>, e: Envelope, failsAt: Option<nat>) {
    || failsAt == Some(0)
    || (failsAt == Some(1) && !exists f :: f in log && Repeats(e, f))
    || (failsAt in {Some(2), Some(3)} && !Refused(log, e))
  }

  /** The Redis clients report a missing key as an error, and strict mode takes every error of the look-up
      for a failure: only the lenient mode lets a fresh nonce pass. */
  predicate PassesLookUp(s: State, e: Envelope, redisFails: bool) {
    (redisFails || KeyOf(e) !in s.nonces) && !s.strict
  }

  ghost function Next(s: State, a: Action): State {
    match a
    case Receive(req, e) => if req in s.requests then s else s.(requests := s.requests[req := Looking(e)])
    case GetNonce(req, redisFails) =>
      if req !in s.requests || !s.requests[req].Looking? then s
      else
        var e := s.requests[req].envelope;
        if !PassesLookUp(s, e, redisFails) then s.(requests := s.requests - {req})
        else s.(requests := s.requests[req := Recording(e)])
    case SetNonce(req, redisFails) =>
      if req !in s.requests || !s.requests[req].Recording? then s
      else
        var e := s.requests[req].envelope;
        if redisFails then s.(requests := if s.strict then s.requests - {req} else s.requests[req := Verifying(e)])
        else s.(nonces := s.nonces + {KeyOf(e)}, requests := s.requests[req := Verifying(e)])
    case Verify(req, verified) =>
      if req !in s.requests || !s.requests[req].Verifying? then s
      else s.(requests := if verified then s.requests[req := Persisting(s.requests[req].envelope)] else s.requests - {req})
    case Persist(req, fails) =>
      if req !in s.requests || !s.requests[req].Persisting? then s
      else
        var e := s.requests[req].envelope;
        if fails then s.(requests := s.requests[req := Releasing(e)])
        else if Refused(s.log, e) then s.(requests := s.requests - {req})
        else s.(log := s.log + [e], requests := s.requests - {req})
    case Release(req, redisFails) =>
      if req !in s.requests || !s.requests[req].Releasing? then s
      else
        s.(nonces := if redisFails then s.nonces else s.nonces - {KeyOf(s.requests[req].envelope)}, requests := s.requests - {req})
    case Crash(req) => s.(requests := s.requests - {req})
    case LoseKey(key) => s.(nonces := s.nonces - {key})
  }

  ghost function Run(s: State, actions: seq<Action>): State {
    if actions == [] then s else Next(Run(s, actions[..|actions| - 1]), actions[|actions| - 1])
  }

  // ---------------------------------------------------------------------------------------
  // The gateway over its tables.
  // ---------------------------------------------------------------------------------------

  datatype InboxRow = InboxRow(envelope: Envelope, outcome: Outcome)

  datatype OutboxRow = OutboxRow(inboxId: nat, device: string)

  /** The tables a transaction writes; inbox ids are positions. */
  datatype Tables = Tables(inbox: seq<InboxRow>, sequenceIndex: set<SequenceKey>, nonceIndex: set<NonceKey>, hashIndex: set<string>,
                           results: map<Place, string>, accreditations: map<Voter, string>, outbox: seq<OutboxRow>)

  datatype PersistStatus = Committed(inboxId: nat, outcome: Outcome) | Replayed | HardFailure

  datatype Response = NonceRejected | VerifierRejected | Replay | Failed | Accepted(outcome: Outcome)

  /** How the transaction ends, from the committed envelopes alone. */
  ghost function StatusOf(log: seq<Envelope>, e: Envelope, failsAt: Option<nat>): PersistStatus {
    if FailsHard(log, e, failsAt) then HardFailure
    else if Refused(log, e) then Replayed
    else Committed(|log|, OutcomeOf(log, e))
  }

  /** How a request ends. */
  ghost function ResponseTo(s: State, e: Envelope, getFails: bool, verified: bool, failsAt: Option<nat>): Response {
    if !PassesLookUp(s, e, getFails) then NonceRejected
    else if !verified then VerifierRejected
    else
      match StatusOf(s.log, e, failsAt)
      case HardFailure => Failed
      case Replayed => Replay
      case Committed(_, outcome) => Accepted(outcome)
  }

  /** The steps of a request in order, if it takes them all ... */
  ghost function AllSteps(s: State, req: int, e: Envelope, getFails: bool, setFails: bool, verified: bool, failsAt: Option<nat>,
                          releaseFails: bool): (steps: seq<Action>)
    ensures |steps| == 6
  {
    [Receive(req, e), GetNonce(req, getFails), SetNonce(req, setFails), Verify(req, verified),
     Persist(req, FailsHard(s.log, e, failsAt)), Release(req, releaseFails)]
  }

  /** ... and how many of them it takes. */
  ghost function StepCount(s: State, e: Envelope, getFails: bool, verified: bool, failsAt: Option<nat>): (n: nat)
    ensures n <= 6
  {
    if !PassesLookUp(s, e, getFails) then 2
    else if !verified then 4
    else if !FailsHard(s.log, e, failsAt) then 5
    else 6
  }

  function LogOf(inbox: seq<InboxRow>): (log: seq<Envelope>)
    ensures |log| == |inbox|
  {
    seq(|inbox|, i requires 0 <= i < |inbox| => inbox[i].envelope)
  }

  ghost predicate IndexesMatch(db: Tables) {
    var log := LogOf(db.inbox);
    && (forall k :: k in db.sequenceIndex <==> exists e :: e in log && SequenceOf(e) == k)
    && (forall k :: k in db.nonceIndex <==> exists e :: e in log && KeyOf(e) == k)
    && (forall k :: k in db.hashIndex <==> exists e :: e in log && e.hash == k)
  }

  /** Results and accreditations hold the first writer's values. */
  ghost predicate FirstWriters(log: seq<Envelope>, results: map<Place, string>, accreditations: map<Voter, string>) {
    && (forall place :: CapturedAt(log, place) == if place in results then Some(results[place]) else None)
    && (forall voter :: AccreditedAt(log, voter) == if voter in accreditations then Some(accreditations[voter]) else None)
  }

  /** One outbox row and one outcome for each inbox row. */
  ghost predicate OnePerEnvelope(inbox: seq<InboxRow>, outbox: seq<OutboxRow>) {
    && |outbox| == |inbox|
    && forall i :: 0 <= i < |inbox| ==>
         outbox[i] == OutboxRow(i, inbox[i].envelope.device) && inbox[i].outcome == OutcomeOf(LogOf(inbox)[..i], inbox[i].envelope)
  }

  ghost predicate Consistent(db: Tables) {
    IndexesMatch(db) && FirstWriters(LogOf(db.inbox), db.results, db.accreditations) && OnePerEnvelope(db.inbox, db.outbox)
  }

  lemma LogAppend(inbox: seq<InboxRow>, row: InboxRow)
    ensures LogOf(inbox + [row]) == LogOf(inbox) + [row.envelope]
  {
  }

  lemma LastOf(log: seq<Envelope>, e: Envelope, place: Place, voter: Voter)
    ensures CapturedAt(log + [e], place)
      == if CapturedAt(log, place).Some? then CapturedAt(log, place) else if CapturesAt(e, place) then Some(e.event.figures) else None
    ensures AccreditedAt(log + [e], voter)
      == if AccreditedAt(log, voter).Some? then AccreditedAt(log, voter) else if Accredits(e, voter) then Some(e.unit) else None
  {
    assert (log + [e])[..|log|] == log;
  }

  lemma LastOfAll(log: seq<Envelope>, e: Envelope)
    ensures forall place ::
      CapturedAt(log + [e], place) ==
      (if CapturedAt(log, place).Some? then CapturedAt(log, place) else if CapturesAt(e, place) then Some(e.event.figures) else None)
    ensures forall voter ::
      AccreditedAt(log + [e], voter) ==
      (if AccreditedAt(log, voter).Some? then AccreditedAt(log, voter) else if Accredits(e, voter) then Some(e.unit) else None)
  {
    hide CapturedAt, AccreditedAt;
    forall place
      ensures CapturedAt(log + [e], place)
        == if CapturedAt(log, place).Some? then CapturedAt(log, place) else if CapturesAt(e, place) then Some(e.event.figures) else None
    {
      LastOf(log, e, place, Voter("", 0));
    }
    forall voter
      ensures AccreditedAt(log + [e], voter)
        == if AccreditedAt(log, voter).Some? then AccreditedAt(log, voter) else if Accredits(e, voter) then Some(e.unit) else None
    {
      LastOf(log, e, Place(0, ""), voter);
    }
  }

  lemma IndexesExtend(db: Tables, row: InboxRow)
    requires IndexesMatch(db)
    ensures var e := row.envelope;
      IndexesMatch(db.(inbox := db.inbox + [row], sequenceIndex := db.sequenceIndex + {SequenceOf(e)},
                       nonceIndex := db.nonceIndex + {KeyOf(e)}, hashIndex := db.hashIndex + {e.hash}))
  {
    var e := row.envelope;
    var log, longer := LogOf(db.inbox), LogOf(db.inbox + [row]);
    LogAppend(db.inbox, row);
    assert e in longer;
    assert forall f :: f in longer <==> f in log || f == e;
  }

  lemma RefusedIff(db: Tables, e: Envelope)
    requires Consistent(db)
    ensures (exists f :: f in LogOf(db.inbox) && Repeats(e, f)) <==>
      SequenceOf(e) in db.sequenceIndex || KeyOf(e) in db.nonceIndex || e.hash in db.hashIndex
    ensures Refused(LogOf(db.inbox), e) <==>
      (exists f :: f in LogOf(db.inbox) && Repeats(e, f)) || AccreditedElsewhere(LogOf(db.inbox), e)
  {
    hide OnePerEnvelope, FirstWriters, AccreditedElsewhere, LogOf;
  }

  lemma OnePerExtends(db: Tables, row: InboxRow)
    requires OnePerEnvelope(db.inbox, db.outbox) && row.outcome == OutcomeOf(LogOf(db.inbox), row.envelope)
    ensures OnePerEnvelope(db.inbox + [row], db.outbox + [OutboxRow(|db.inbox|, row.envelope.device)])
  {
    hide OutcomeOf;
    var longer := db.inbox + [row];
    LogAppend(db.inbox, row);
    forall i | 0 <= i < |longer|
      ensures longer[i].outcome == OutcomeOf(LogOf(longer)[..i], longer[i].envelope)
    {
      assert LogOf(longer)[..i] == LogOf(db.inbox)[..i];
      if i == |db.inbox| {
        assert LogOf(db.inbox)[..i] == LogOf(db.inbox);
      }
    }
  }

  /** applyDeviceGatewayAccreditation: the insert does nothing on a conflict at the same polling unit;
      a conflict at another one is refused by the voter's index. */
  method ApplyAccreditation(db: Tables, e: Envelope) returns (tx: Tables, outcome: Outcome, refused: bool)
    requires Consistent(db) && e.event.Accreditation?
    ensures refused <==> AccreditedElsewhere(LogOf(db.inbox), e)
    ensures !refused ==> outcome == OutcomeOf(LogOf(db.inbox), e)
    ensures !refused ==> FirstWriters(LogOf(db.inbox) + [e], tx.results, tx.accreditations)
    ensures tx == db.(accreditations := tx.accreditations)
  {
    hide IndexesMatch, OnePerEnvelope, CapturedAt, AccreditedAt, LogOf;
    tx := db;
    LastOfAll(LogOf(db.inbox), e);
    var voter := Voter(e.event.pvc, e.election);
    if voter in db.accreditations {
      return tx, Duplicate, db.accreditations[voter] != e.unit;
    }
    tx := tx.(accreditations := tx.accreditations[voter := e.unit]);
    return tx, Applied, false;
  }

  /** applyDeviceGatewayResultCapture: the first capture is inserted, a later one changes nothing. */
  method ApplyResultCapture(db: Tables, e: Envelope) returns (tx: Tables, outcome: Outcome)
    requires Consistent(db) && e.event.ResultCapture?
    ensures outcome == OutcomeOf(LogOf(db.inbox), e)
    ensures FirstWriters(LogOf(db.inbox) + [e], tx.results, tx.accreditations)
    ensures tx == db.(results := tx.results)
  {
    hide IndexesMatch, OnePerEnvelope, CapturedAt, AccreditedAt, LogOf;
    tx := db;
    LastOfAll(LogOf(db.inbox), e);
    var place := PlaceOf(e);
    if place in db.results {
      return tx, if db.results[place] == e.event.figures then Duplicate else Conflict;
    }
    tx := tx.(results := tx.results[place := e.event.figures]);
    return tx, Applied;
  }

  class Gateway {
    const strict: bool
    var redis: set<NonceKey>
    var requests: map<int, Request>
    var db: Tables

    ghost function Value(): State
      reads this
    {
      State(strict, LogOf(db.inbox), redis, requests)
    }

    ghost predicate Valid()
      reads this
    {
      Consistent(db)
    }

    constructor (strict: bool)
      ensures Valid() && Value() == State(strict, [], {}, map[])
    {
      this.strict := strict;
      redis, requests, db := {}, map[], Tables([], {}, {}, {}, map[], map[], []);
    }

    /** The first half of acquireDeviceGatewayNonce. */
    method LookUpNonce(req: int, redisFails: bool) returns (ok: bool)
      requires Valid() && req in requests && requests[req].Looking?
      modifies this`requests
      ensures Valid() && Value() == Next(old(Value()), GetNonce(req, redisFails))
      ensures ok <==> (redisFails || KeyOf(old(requests)[req].envelope) !in redis) && !strict
      ensures requests == if ok then old(requests)[req := Recording(old(requests)[req].envelope)] else old(requests) - {req}
    {
      var e := requests[req].envelope;
      var error := redisFails || KeyOf(e) !in redis;
      ok := true;
      if !error {
        ok := false;
      } else if strict {
        ok := false;
      }
      requests := if ok then requests[req := Recording(e)] else requests - {req};
    }

    /** The second half of acquireDeviceGatewayNonce. */
    method RecordNonce(req: int, redisFails: bool) returns (ok: bool)
      requires Valid() && req in requests && requests[req].Recording?
      modifies this`requests, this`redis
      ensures Valid() && Value() == Next(old(Value()), SetNonce(req, redisFails))
      ensures ok <==> !(redisFails && strict)
      ensures requests == if ok then old(requests)[req := Verifying(old(requests)[req].envelope)] else old(requests) - {req}
      ensures !redisFails ==> KeyOf(old(requests)[req].envelope) in redis
    {
      var e := requests[req].envelope;
      ok := true;
      if !redisFails {
        redis := redis + {KeyOf(e)};
      } else if strict {
        ok := false;
      }
      requests := if ok then requests[req := Verifying(e)] else requests - {req};
    }

    method ReleaseNonce(req: int, redisFails: bool)
      requires Valid() && req in requests && requests[req].Releasing?
      modifies this`requests, this`redis
      ensures Valid() && Value() == Next(old(Value()), Release(req, redisFails))
      ensures requests == old(requests) - {req} && (!redisFails ==> KeyOf(old(requests)[req].envelope) !in redis)
    {
      if !redisFails {
        redis := redis - {KeyOf(requests[req].envelope)};
      }
      requests := requests - {req};
    }

    /** The transaction of persistDeviceGatewayEnvelope.  `failsAt` says at which of its four stages
        something other than a unique violation goes wrong, if anything does.  The transaction works on
        `tx`; only a commit makes it the database. */
    method PersistEnvelope(req: int, failsAt: Option<nat>) returns (status: PersistStatus)
      requires Valid() && req in requests && requests[req].Persisting?
      modifies this`requests, this`db
      ensures Valid() && Value() == Next(old(Value()), Persist(req, FailsHard(LogOf(old(db).inbox), old(requests)[req].envelope, failsAt)))
      ensures !status.Committed? ==> db == old(db)
      ensures status.Committed? ==>
        db.inbox == old(db).inbox + [InboxRow(old(requests)[req].envelope, status.outcome)] && status.inboxId == |old(db).inbox|
      ensures status == StatusOf(LogOf(old(db).inbox), old(requests)[req].envelope, failsAt)
      ensures requests == if status == HardFailure then old(requests)[req := Releasing(old(requests)[req].envelope)]
                          else old(requests) - {req}
    {
      hide FirstWriters, IndexesMatch, OnePerEnvelope, OutcomeOf, Refused, LogOf, AccreditedAt;
      var e := requests[req].envelope;
      ghost var log := LogOf(db.inbox);
      RefusedIff(db, e);
      if failsAt == Some(0) {
        requests := requests[req := Releasing(e)];
        return HardFailure;
      }
      if SequenceOf(e) in db.sequenceIndex || KeyOf(e) in db.nonceIndex || e.hash in db.hashIndex {
        requests := requests - {req};
        return Replayed;
      }
      if failsAt == Some(1) {
        requests := requests[req := Releasing(e)];
        return HardFailure;
      }
      var tx, outcome, refused := db, NoOutcome, false;
      if e.event.Accreditation? {
        tx, outcome, refused := ApplyAccreditation(db, e);
      } else if e.event.ResultCapture? {
        tx, outcome := ApplyResultCapture(db, e);
      } else {
        OtherEventsWriteNothing(db, e);
      }
      if refused {
        ElsewhereIsRefused(log, e);
        requests := requests - {req};
        return Replayed;
      }
      if failsAt == Some(2) {
        requests := requests[req := Releasing(e)];
        return HardFailure;
      }
      var id, row := |tx.inbox|, InboxRow(e, outcome);
      LogAppend(db.inbox, row);
      IndexesExtend(db, row);
      OnePerExtends(db, row);
      IdIsFresh(db);
      tx := tx.(inbox := tx.inbox + [row], sequenceIndex := tx.sequenceIndex + {SequenceOf(e)},
                nonceIndex := tx.nonceIndex + {KeyOf(e)}, hashIndex := tx.hashIndex + {e.hash},
                outbox := if OutboxRow(id, e.device) in tx.outbox then tx.outbox else tx.outbox + [OutboxRow(id, e.device)]);
      if failsAt == Some(3) {
        requests := requests[req := Releasing(e)];
        return HardFailure;
      }
      SameIndexes(db, tx, row);
      db := tx;
      requests := requests - {req};
      return Committed(id, outcome);
    }

    /** handleDeviceGatewayEvent from the nonce on: which steps a request takes, and in which order. */
    method HandleEvent(req: int, e: Envelope, getFails: bool, setFails: bool, verified: bool, failsAt: Option<nat>, releaseFails: bool)
      returns (response: Response, ghost trace: seq<Action>)
      requires Valid() && req !in requests
      modifies this
      ensures Valid() && Value() == Run(old(Value()), trace) && req !in requests
      ensures response == ResponseTo(old(Value()), e, getFails, verified, failsAt)
      ensures trace == AllSteps(old(Value()), req, e, getFails, setFails, verified, failsAt, releaseFails)
                       [..StepCount(old(Value()), e, getFails, verified, failsAt)]
      ensures response.Accepted? <==> LogOf(db.inbox) != LogOf(old(db).inbox)
      ensures response.Failed? && !releaseFails ==> KeyOf(e) !in redis
      ensures response == VerifierRejected && !setFails ==> KeyOf(e) in redis
    {
      hide Run, Next, Consistent, LogOf, FailsHard, Refused, OutcomeOf;
      ghost var start := Value();
      ghost var steps := AllSteps(start, req, e, getFails, setFails, verified, failsAt, releaseFails);
      RunSteps(start, steps);
      requests := requests[req := Looking(e)];
      assert Value() == Run(start, steps[..1]) by { NextReceive(start, req, e); }
      var found := LookUpNonce(req, getFails);
      if !found {
        return NonceRejected, steps[..2];
      }
      var recorded := RecordNonce(req, setFails);
      if !recorded {
        return NonceRejected, steps;
      }
      ghost var before := Value();
      requests := if verified then requests[req := Persisting(e)] else requests - {req};
      assert Value() == Next(before, Verify(req, verified)) by { NextVerify(before, req, verified); }
      if !verified {
        return VerifierRejected, steps[..4];
      }
      var status := PersistEnvelope(req, failsAt);
      if status == Replayed {
        return Replay, steps[..5];
      }
      if status == HardFailure {
        ReleaseNonce(req, releaseFails);
        return Failed, steps[..6];
      }
      LogAppend(old(db).inbox, db.inbox[status.inboxId]);
      return Accepted(status.outcome), steps[..5];
    }
  }

  lemma RunSteps(s: State, steps: seq<Action>)
    requires |steps| == 6
    ensures Run(s, steps[..1]) == Next(s, steps[0])
    ensures Run(s, steps[..2]) == Next(Run(s, steps[..1]), steps[1])
    ensures Run(s, steps[..3]) == Next(Run(s, steps[..2]), steps[2])
    ensures Run(s, steps[..4]) == Next(Run(s, steps[..3]), steps[3])
    ensures Run(s, steps[..5]) == Next(Run(s, steps[..4]), steps[4])
    ensures Run(s, steps[..6]) == Next(Run(s, steps[..5]), steps[5])
  {
    hide Next;
    assert Run(s, steps[..0]) == s;
    RunPrefix(s, steps, 0);
    RunPrefix(s, steps, 1);
    RunPrefix(s, steps, 2);
    RunPrefix(s, steps, 3);
    RunPrefix(s, steps, 4);
    RunPrefix(s, steps, 5);
  }

  lemma RunPrefix(s: State, steps: seq<Action>, k: nat)
    requires k < |steps|
    ensures Run(s, steps[..k + 1]) == Next(Run(s, steps[..k]), steps[k])
  {
    hide Next;
    assert steps[..k + 1] == steps[..k] + [steps[k]];
    RunOne(s, steps[..k], steps[k]);
  }

  lemma RunOne(s: State, actions: seq<Action>, a: Action)
    ensures Run(s, actions + [a]) == Next(Run(s, actions), a)
  {
    assert (actions + [a])[..|actions|] == actions;
  }

  lemma NextReceive(s: State, req: int, e: Envelope)
    requires req !in s.requests
    ensures Next(s, Receive(req, e)) == s.(requests := s.requests[req := Looking(e)])
  {
  }

  lemma NextVerify(s: State, req: int, verified: bool)
    requires req in s.requests && s.requests[req].Verifying?
    ensures Next(s, Verify(req, verified))
      == s.(requests := if verified then s.requests[req := Persisting(s.requests[req].envelope)] else s.requests - {req})
  {
  }

  lemma IdIsFresh(db: Tables)
    requires OnePerEnvelope(db.inbox, db.outbox)
    ensures forall r :: r in db.outbox ==> r.inboxId != |db.inbox|
  {
    hide OutcomeOf, LogOf;
  }

  lemma OtherEventsWriteNothing(db: Tables, e: Envelope)
    requires Consistent(db) && e.event.OtherEvent?
    ensures OutcomeOf(LogOf(db.inbox), e) == NoOutcome && FirstWriters(LogOf(db.inbox) + [e], db.results, db.accreditations)
  {
    hide IndexesMatch, OnePerEnvelope, CapturedAt, AccreditedAt, LogOf;
    LastOfAll(LogOf(db.inbox), e);
  }

  lemma ElsewhereIsRefused(log: seq<Envelope>, e: Envelope)
    requires AccreditedElsewhere(log, e)
    ensures Refused(log, e)
  {
  }

  lemma SameIndexes(db: Tables, tx: Tables, row: InboxRow)
    requires IndexesMatch(db.(inbox := tx.inbox, sequenceIndex := tx.sequenceIndex, nonceIndex := tx.nonceIndex, hashIndex := tx.hashIndex))
    ensures IndexesMatch(tx)
  {
  }

  // ---------------------------------------------------------------------------------------
  // Safety: first writer wins, in every interleaving.
  // ---------------------------------------------------------------------------------------

  /** The canonical figures are those of the capture that no other capture precedes. */
  lemma {:induction false} CapturedAtIsFirst(log: seq<Envelope>, place: Place, figures: string)
    ensures CapturedAt(log, place) == Some(figures) <==>
      exists i :: 0 <= i < |log| && CapturesAt(log[i], place) && log[i].event.figures == figures
                  && forall j :: 0 <= j < i ==> !CapturesAt(log[j], place)
    ensures CapturedAt(log, place).None? <==> forall i :: 0 <= i < |log| ==> !CapturesAt(log[i], place)
  {
    hide CapturesAt;
    if log != [] {
      var n := |log| - 1;
      var front := log[..n];
      CapturedAtIsFirst(front, place, figures);
      assert forall i :: 0 <= i < n ==> front[i] == log[i];
      if CapturedAt(front, place).None? {
        assert forall i :: 0 <= i < n ==> !CapturesAt(log[i], place);
      }
    }
  }

  /** Replays never commit twice, whatever Redis loses: sequence numbers and nonces of a device and
      envelope hashes are unique in the log, and no voter is accredited at two polling units. */
  ghost predicate NoReplays(log: seq<Envelope>) {
    && (forall i, j :: 0 <= i < j < |log| ==> !Repeats(log[i], log[j]))
    && (forall i, voter :: 0 <= i < |log| && Accredits(log[i], voter) ==> AccreditedAt(log, voter) == Some(log[i].unit))
  }

  lemma CommitKeepsNoReplays(log: seq<Envelope>, e: Envelope)
    requires NoReplays(log) && !Refused(log, e)
    ensures NoReplays(log + [e])
  {
    hide AccreditedAt;
    var longer := log + [e];
    forall i, voter | 0 <= i < |longer| && Accredits(longer[i], voter)
      ensures AccreditedAt(longer, voter) == Some(longer[i].unit)
    {
      LastOf(log, e, Place(0, ""), voter);
    }
    forall i, j | 0 <= i < j < |longer|
      ensures !Repeats(longer[i], longer[j])
    {
      assert longer[i] in log;
    }
  }

  lemma StepOfLog(s: State, a: Action)
    ensures Next(s, a).log == s.log || (a.Persist? && !a.fails && a.req in s.requests && s.requests[a.req].Persisting?
              && !Refused(s.log, s.requests[a.req].envelope) && Next(s, a).log == s.log + [s.requests[a.req].envelope])
    ensures Next(s, a).strict == s.strict
  {
    hide Refused;
  }

  lemma {:induction false} RunsKeepNoReplays(s: State, actions: seq<Action>)
    requires NoReplays(s.log)
    ensures NoReplays(Run(s, actions).log)
  {
    hide Next, NoReplays, Refused;
    if actions != [] {
      var n := |actions| - 1;
      RunsKeepNoReplays(s, actions[..n]);
      var mid := Run(s, actions[..n]);
      StepOfLog(mid, actions[n]);
      if Next(mid, actions[n]).log != mid.log {
        CommitKeepsNoReplays(mid.log, mid.requests[actions[n].req].envelope);
      }
    }
  }

  lemma GatewayNeverCommitsReplays(strict: bool, actions: seq<Action>)
    ensures NoReplays(Run(State(strict, [], {}, map[]), actions).log)
  {
    hide Run;
    RunsKeepNoReplays(State(strict, [], {}, map[]), actions);
  }

  /** The log only grows, and a canonical result once there is never overwritten. */
  lemma {:induction false} FirstCaptureIsFinal(s: State, actions: seq<Action>, place: Place)
    ensures |s.log| <= |Run(s, actions).log| && Run(s, actions).log[..|s.log|] == s.log
    ensures CapturedAt(s.log, place).Some? ==> CapturedAt(Run(s, actions).log, place) == CapturedAt(s.log, place)
  {
    hide Next, Refused;
    if actions != [] {
      var n := |actions| - 1;
      FirstCaptureIsFinal(s, actions[..n], place);
      var mid := Run(s, actions[..n]);
      StepOfLog(mid, actions[n]);
      if Next(mid, actions[n]).log != mid.log {
        LastOf(mid.log, mid.requests[actions[n].req].envelope, place, Voter("", 0));
      }
    }
  }

  // ---------------------------------------------------------------------------------------
  // Nonces and retries.
  // ---------------------------------------------------------------------------------------

  /** A send that runs alone, with every service up. */
  ghost function SendAlone(s: State, req: int, e: Envelope): State {
    Next(Next(Next(Next(Next(s, Receive(req, e)), GetNonce(req, false)), SetNonce(req, false)), Verify(req, true)), Persist(req, false))
  }

  /** Such a send commits exactly in the lenient mode, when its nonce is not in Redis and the database does
      not refuse it. */
  lemma CommitsAloneIff(s: State, req: int, e: Envelope)
    requires req !in s.requests
    ensures SendAlone(s, req, e).log == s.log + [e] <==> !s.strict && KeyOf(e) !in s.nonces && !Refused(s.log, e)
    ensures SendAlone(s, req, e).log in {s.log, s.log + [e]}
  {
    hide Refused;
    assert |s.log + [e]| == |s.log| + 1;
    var a := Next(s, Receive(req, e));
    assert a.requests[req] == Looking(e);
    var b := Next(a, GetNonce(req, false));
    if !s.strict && KeyOf(e) !in s.nonces {
      assert b.requests[req] == Recording(e);
    }
  }

  /** No request is past the look-up. */
  ghost predicate AllLooking(s: State) { forall req :: req in s.requests ==> s.requests[req].Looking? }

  lemma StrictStep(s: State, a: Action)
    requires s.strict && AllLooking(s)
    ensures Next(s, a).strict && AllLooking(Next(s, a)) && Next(s, a).log == s.log
  {
    hide Refused;
  }

  /** In strict mode nothing is ever committed: no interleaving of any sends gets one past the look-up, and
      every request is answered as rejected. */
  lemma {:induction false} StrictNeverCommits(s: State, actions: seq<Action>)
    requires s.strict && AllLooking(s)
    ensures var t := Run(s, actions); t.strict && AllLooking(t) && t.log == s.log
    ensures forall e, getFails, verified, failsAt :: ResponseTo(s, e, getFails, verified, failsAt) == NonceRejected
  {
    hide Next, AllLooking;
    if actions != [] {
      var n := |actions| - 1;
      StrictNeverCommits(s, actions[..n]);
      StrictStep(Run(s, actions[..n]), actions[n]);
    }
  }

  /** A voter who is accredited and turns up at a second polling unit: the envelope repeats nothing, and it
      is answered as a replay, with its nonce kept. */
  lemma SecondUnitIsReplayed() returns (first: Envelope, second: Envelope, s: State)
    ensures s == SendAlone(State(false, [], {}, map[]), 1, first) && s.log == [first]
    ensures first.event == second.event == Accreditation("V") && first.election == second.election && first.unit != second.unit
    ensures !Repeats(second, first) && ResponseTo(s, second, false, true, None) == Replay
    ensures SendAlone(s, 2, second).log == s.log && KeyOf(second) in SendAlone(s, 2, second).nonces
  {
    first := Envelope("D", 1, "A", 1, "n", "h", Accreditation("V"));
    second := Envelope("E", 1, "B", 1, "m", "g", Accreditation("V"));
    var start := State(false, [], {}, map[]);
    s := SendAlone(start, 1, first);
    assert AccreditedAt([first], Voter("V", 1)) == Some("A") by { LastOf([], first, Place(0, ""), Voter("V", 1)); }
    SendState(start, 1, first);
    assert [] + [first] == [first];
    SendState(s, 2, second);
    assert AccreditedElsewhere(s.log, second);
  }

  lemma SendState(s: State, req: int, e: Envelope)
    requires !s.strict && req !in s.requests && KeyOf(e) !in s.nonces
    ensures SendAlone(s, req, e)
      == State(false, if Refused(s.log, e) then s.log else s.log + [e], s.nonces + {KeyOf(e)}, s.requests)
  {
    hide Refused;
    var a := Next(s, Receive(req, e));
    var b := Next(a, GetNonce(req, false));
    var c := Next(b, SetNonce(req, false));
    var d := Next(c, Verify(req, true));
    assert d.requests == s.requests[req := Persisting(e)];
    assert s.requests[req := Persisting(e)] - {req} == s.requests;
  }

  /** After a hard failure of the transaction the database is as before, and the release frees the nonce:
      a retry commits exactly when the mode is lenient and the database does not refuse the envelope. */
  lemma HardFailureCanBeRetried(s: State, req: int, retry: int)
    requires req in s.requests && s.requests[req].Persisting? && retry !in s.requests
    ensures
      var e := s.requests[req].envelope;
      var t := Next(Next(s, Persist(req, true)), Release(req, false));
      t.log == s.log && KeyOf(e) !in t.nonces
      && (SendAlone(t, retry, e).log == s.log + [e] <==> !s.strict && !Refused(s.log, e))
  {
    hide Refused;
    var e := s.requests[req].envelope;
    var t := Next(Next(s, Persist(req, true)), Release(req, false));
    CommitsAloneIff(t, retry, e);
  }

  /** No request with this nonce is past the look-up, and the nonce is in Redis. */
  ghost predicate Locked(s: State, key: NonceKey) {
    && key in s.nonces
    && forall req :: req in s.requests && KeyOf(s.requests[req].envelope) == key ==> s.requests[req].Looking?
  }

  /** The key stays in Redis and every look-up of it can be trusted. */
  predicate KeepsKey(s: State, a: Action, key: NonceKey) {
    (a.LoseKey? ==> a.key != key) && (a.GetNonce? && a.redisFails ==> s.strict)
  }

  lemma LockedStep(s: State, a: Action, key: NonceKey)
    requires Locked(s, key) && KeepsKey(s, a, key)
    ensures Locked(Next(s, a), key)
    ensures forall e :: KeyOf(e) == key ==> (e in Next(s, a).log <==> e in s.log)
  {
    hide Refused;
    StepOfLog(s, a);
  }

  /** A failed verification does not release the nonce: if no other request with it is under way, no
      retry with that nonce is ever committed while Redis keeps the key. */
  lemma {:induction false} FailedVerificationLocksNonce(s: State, req: int, actions: seq<Action>, key: NonceKey)
    requires req in s.requests && s.requests[req].Verifying? && KeyOf(s.requests[req].envelope) == key && key in s.nonces
    requires forall r :: r in s.requests && r != req && KeyOf(s.requests[r].envelope) == key ==> s.requests[r].Looking?
    requires forall a :: a in actions ==> KeepsKey(s, a, key)
    ensures var t := Run(Next(s, Verify(req, false)), actions);
      Locked(t, key) && t.strict == s.strict && forall e :: KeyOf(e) == key ==> (e in t.log <==> e in s.log)
  {
    hide Refused;
    if actions != [] {
      var n := |actions| - 1;
      FailedVerificationLocksNonce(s, req, actions[..n], key);
      var mid := Run(Next(s, Verify(req, false)), actions[..n]);
      assert actions[n] in actions;
      hide Next, Locked;
      LockedStep(mid, actions[n], key);
      StepOfLog(mid, actions[n]);
    }
  }

  /** So a lone send whose verification fails cannot be repeated, although nothing was stored. */
  lemma FailedVerificationBlocksRetry(e: Envelope)
    ensures
      var start := State(false, [], {}, map[]);
      var t := Next(Next(Next(Next(start, Receive(1, e)), GetNonce(1, false)), SetNonce(1, false)), Verify(1, false));
      t.log == [] && SendAlone(t, 2, e).log == [] && SendAlone(start, 1, e).log == [e]
  {
    hide Refused;
    var start := State(false, [], {}, map[]);
    var t := Next(Next(Next(Next(start, Receive(1, e)), GetNonce(1, false)), SetNonce(1, false)), Verify(1, false));
    assert t == State(false, [], {KeyOf(e)}, map[]);
    CommitsAloneIff(t, 2, e);
    assert !Refused(start.log, e) by { NothingRefused(e); }
    SendState(start, 1, e);
  }

  lemma NothingRefused(e: Envelope)
    ensures !Refused([], e)
  {
  }

  /** Two sends of one envelope that both passed the look-up: one commits, the other fails hard, and its
      release frees the nonce of a committed event.  The database still refuses the replay. */
  lemma ReleaseCanFreeCommittedNonce(s: State, first: int, second: int, again: int, e: Envelope)
    requires first != second && first in s.requests && second in s.requests && again !in s.requests
    requires s.requests[first] == Persisting(e) && s.requests[second] == Persisting(e) && !Refused(s.log, e)
    ensures
      var t := Next(Next(Next(s, Persist(first, false)), Persist(second, true)), Release(second, false));
      t.log == s.log + [e] && KeyOf(e) !in t.nonces && SendAlone(t, again, e).log == t.log
  {
    hide Refused;
    var t := Next(Next(Next(s, Persist(first, false)), Persist(second, true)), Release(second, false));
    assert t.log == s.log + [e];
    CommitsAloneIff(t, again, e);
    CommittedIsRefused(t.log, e);
  }

  lemma CommittedIsRefused(log: seq<Envelope>, e: Envelope)
    requires e in log
    ensures Refused(log, e)
  {
    assert Repeats(e, e);
  }
}
