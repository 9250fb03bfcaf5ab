/** The Fabric anchor queue (fabric_anchor.go).  Submitters race on one request without a lock: each
    reads it, talks to the gateway, and then records the outcome in a transaction that is guarded only
    by the unique (request, attempt number) index.  The read and the transaction are separate steps
    that interleave freely. */
module FabricAnchor {
  import opened Options

  datatype Status = Pending | Unavailable | Failed | Committed

  /** `receipt` is the anchor id named by the stored receipt. */
  datatype Request = Request(status: Status, attemptCount: nat, anchorId: string, receipt: Option<string>)

  datatype AttemptKey = AttemptKey(request: int, attemptNo: nat)

  /** A submitter between its read of a request and the recording of the outcome. */
  datatype Submission = Submission(request: int, seen: Request)

  datatype Queue = Queue(requests: map<int, Request>, attempts: map<AttemptKey, Status>, submissions: map<int, Submission>)

  /** What the gateway answers; a receipt names an anchor id. */
  datatype Reply = NoClient | SubmitFailed | Receipt(anchorId: string)

  datatype Action =
    | Enqueue(id: int, anchorId: string, configured: bool)
    | Load(submitter: int, id: int)
    | Record(submitter: int, reply: Reply, databaseFails: bool)
    | Crash(submitter: int)

  function OutcomeStatus(seen: Request, reply: Reply): Status {
    match reply
    case NoClient => Unavailable
    case SubmitFailed => Failed
    case Receipt(anchorId) => if anchorId == seen.anchorId then Committed else Failed
  }

  function AfterAttempt(current: Request, seen: Request, reply: Reply): Request {
    var status := OutcomeStatus(seen, reply);
    if current.status == Committed then current
    else if status == Committed then Request(Committed, seen.attemptCount + 1, current.anchorId, Some(reply.anchorId))
    else current.(status := status, attemptCount := seen.attemptCount + 1)
  }

  ghost predicate Anchored(requests: map<int, Request>, anchorId: string) {
    exists r :: r in requests && requests[r].anchorId == anchorId
  }

  ghost function Next(q: Queue, a: Action): Queue {
    match a
    case Enqueue(id, anchorId, configured) =>
      if id in q.requests || Anchored(q.requests, anchorId) then q
      else q.(requests := q.requests[id := Request(if configured then Pending else Unavailable, 0, anchorId, None)])
    case Load(submitter, id) =>
      if submitter in q.submissions || id !in q.requests || q.requests[id].status == Committed then q
      else q.(submissions := q.submissions[submitter := Submission(id, q.requests[id])])
    case Record(submitter, reply, databaseFails) =>
      if submitter !in q.submissions then q
      else
        var sub := q.submissions[submitter];
        var done := q.submissions - {submitter};
        var key := AttemptKey(sub.request, sub.seen.attemptCount + 1);
        if databaseFails || sub.request !in q.requests || key in q.attempts then q.(submissions := done)
        else
          Queue(q.requests[sub.request := AfterAttempt(q.requests[sub.request], sub.seen, reply)],
                q.attempts[key := OutcomeStatus(sub.seen, reply)], done)
    case Crash(submitter) => q.(submissions := q.submissions - {submitter})
  }

  class AnchorQueue {
    var requests: map<int, Request>
    var attempts: map<AttemptKey, Status>
    var submissions: map<int, Submission>
    var anchorIds: set<string>  // the unique index on anchor_id

    ghost function State(): Queue
      reads this
    {
      Queue(requests, attempts, submissions)
    }

    ghost predicate Valid()
      reads this
    {
      forall x :: x in anchorIds <==> Anchored(requests, x)
    }

    constructor ()
      ensures Valid() && State() == Queue(map[], map[], map[])
    {
      requests, attempts, submissions, anchorIds := map[], map[], map[], {};
    }

    method QueueAnchor(id: int, anchorId: string, configured: bool)
      requires Valid()
      modifies this
      ensures Valid() && State() == Next(old(State()), Enqueue(id, anchorId, configured))
    {
      if id in requests || anchorId in anchorIds {
        return;
      }
      ghost var before := requests;
      requests := requests[id := Request(if configured then Pending else Unavailable, 0, anchorId, None)];
      anchorIds := anchorIds + {anchorId};
      assert requests[id].anchorId == anchorId;
      assert forall r :: r in before ==> r in requests && requests[r] == before[r];
    }

    method LoadRequest(submitter: int, id: int) returns (loaded: bool)
      requires Valid()
      modifies this`submissions
      ensures Valid() && State() == Next(old(State()), Load(submitter, id))
      ensures loaded <==> submissions != old(submissions)
    {
      if submitter in submissions || id !in requests || requests[id].status == Committed {
        return false;
      }
      var sub := Submission(id, requests[id]);
      submissions := submissions[submitter := sub];
      assert State() == old(State()).(submissions := old(submissions)[submitter := sub]);
      return true;
    }

    /** The transaction of `recordFabricAnchorOutcome`: update, then insert the attempt; a refused
        insert rolls the update back. */
    method RecordOutcome(submitter: int, reply: Reply, databaseFails: bool) returns (ok: bool)
      requires Valid() && submitter in submissions
      modifies this`requests, this`attempts, this`submissions
      ensures Valid() && State() == Next(old(State()), Record(submitter, reply, databaseFails))
      ensures ok <==> attempts != old(attempts)
    {
      ghost var queued := requests;
      var sub := submissions[submitter];
      submissions := submissions - {submitter};
      var attemptNo := sub.seen.attemptCount + 1;
      var status := OutcomeStatus(sub.seen, reply);
      if databaseFails || sub.request !in requests {
        return false;
      }
      var before := requests;
      var current := requests[sub.request];
      if current.status != Committed {
        if status == Committed {
          requests := requests[sub.request := Request(status, attemptNo, current.anchorId, Some(reply.anchorId))];
        } else {
          requests := requests[sub.request := current.(status := status, attemptCount := attemptNo)];
        }
      }
      var key := AttemptKey(sub.request, attemptNo);
      if key in attempts {
        requests := before;
        return false;
      }
      attempts := attempts[key := status];
      assert before[sub.request := current] == before;
      SameAnchorIds(queued, requests);
      return true;
    }
  }

  /** Requests that keep their anchor ids occupy the same entries of the unique index. */
  lemma SameAnchorIds(before: map<int, Request>, after: map<int, Request>)
    requires before.Keys == after.Keys && forall r :: r in before ==> before[r].anchorId == after[r].anchorId
    ensures forall x :: Anchored(before, x) <==> Anchored(after, x)
  {
    forall x
      ensures Anchored(before, x) <==> Anchored(after, x)
    {
      if r :| r in before && before[r].anchorId == x {
        assert r in after && after[r].anchorId == x;
      }
      if r :| r in after && after[r].anchorId == x {
        assert r in before && before[r].anchorId == x;
      }
    }
  }

  // ---------------------------------------------------------------------------------------
  // The invariant.
  // ---------------------------------------------------------------------------------------

  /** The attempt rows of a request are numbered exactly 1 .. attempt_count. */
  ghost predicate AttemptsNumbered(q: Queue) {
    forall id: int, n: nat {:trigger AttemptKey(id, n)} ::
      AttemptKey(id, n) in q.attempts <==> id in q.requests && 1 <= n <= q.requests[id].attemptCount
  }

  ghost predicate ReceiptsMatch(q: Queue) {
    forall id :: id in q.requests ==>
      var r := q.requests[id];
      if r.status == Committed then r.receipt == Some(r.anchorId) else r.receipt == None
  }

  /** What a submitter saw is old at worst: same anchor id, and either the row has not moved since or
      its attempt number is taken. */
  ghost predicate SeenIsPast(q: Queue) {
    forall w :: w in q.submissions ==>
      var s := q.submissions[w];
      s.request in q.requests && s.seen.status != Committed && s.seen.anchorId == q.requests[s.request].anchorId
      && (s.seen == q.requests[s.request] || s.seen.attemptCount < q.requests[s.request].attemptCount)
  }

  ghost predicate AnchorIdsUnique(q: Queue) {
    forall a, b :: a in q.requests && b in q.requests && q.requests[a].anchorId == q.requests[b].anchorId ==> a == b
  }

  ghost predicate Inv(q: Queue) {
    AttemptsNumbered(q) && ReceiptsMatch(q) && SeenIsPast(q) && AnchorIdsUnique(q)
  }

  lemma StepKeepsInv(q: Queue, a: Action)
    requires Inv(q)
    ensures Inv(Next(q, a))
  {
    match a
    case Record(submitter, reply, databaseFails) =>
      RecordKeepsInv(q, submitter, reply, databaseFails);
    case Enqueue(id, _, _) =>
      assert forall n: nat :: n >= 1 ==> AttemptKey(id, n) !in q.attempts || id in q.requests;
    case Load(_, _) =>
    case Crash(_) =>
  }

  lemma RecordKeepsInv(q: Queue, submitter: int, reply: Reply, databaseFails: bool)
    requires Inv(q)
    ensures Inv(Next(q, Record(submitter, reply, databaseFails)))
  {
    if submitter in q.submissions && !databaseFails {
      StaleWritersCollide(q, submitter, reply);
    }
  }

  /** A recording goes through exactly when the request is still as the submitter saw it; otherwise
      its attempt number is taken and nothing but the submitter's own end remains of it. */
  lemma StaleWritersCollide(q: Queue, submitter: int, reply: Reply)
    requires AttemptsNumbered(q) && SeenIsPast(q) && submitter in q.submissions
    ensures
      var s := q.submissions[submitter];
      var next := Next(q, Record(submitter, reply, false));
      if s.seen == q.requests[s.request] then
        next.attempts == q.attempts[AttemptKey(s.request, s.seen.attemptCount + 1) := OutcomeStatus(s.seen, reply)]
        && next.requests[s.request].attemptCount == s.seen.attemptCount + 1
        && next.requests[s.request].status == OutcomeStatus(s.seen, reply)
      else
        next == q.(submissions := q.submissions - {submitter})
  {
    var s := q.submissions[submitter];
    var key := AttemptKey(s.request, s.seen.attemptCount + 1);
    assert key in q.attempts <==> s.seen.attemptCount + 1 <= q.requests[s.request].attemptCount;
  }

  // ---------------------------------------------------------------------------------------
  // Every interleaving.
  // ---------------------------------------------------------------------------------------

  ghost function Run(q: Queue, actions: seq<Action>): Queue {
    if actions == [] then q else Next(Run(q, actions[..|actions| - 1]), actions[|actions| - 1])
  }

  lemma {:induction false} RunsKeepInv(q: Queue, actions: seq<Action>)
    requires Inv(q)
    ensures Inv(Run(q, actions))
  {
    hide Next, Inv;
    if actions != [] {
      RunsKeepInv(q, actions[..|actions| - 1]);
      StepKeepsInv(Run(q, actions[..|actions| - 1]), actions[|actions| - 1]);
    }
  }

  /** In every interleaving the attempts are 1 .. attempt_count and a committed receipt names the
      anchor that was queued. */
  lemma AttemptsAreExact(actions: seq<Action>, id: int)
    requires id in Run(Queue(map[], map[], map[]), actions).requests
    ensures
      var q := Run(Queue(map[], map[], map[]), actions);
      && (forall n: nat :: AttemptKey(id, n) in q.attempts <==> 1 <= n <= q.requests[id].attemptCount)
      && (q.requests[id].status == Committed ==> q.requests[id].receipt == Some(q.requests[id].anchorId))
  {
    hide Run;
    var start := Queue(map[], map[], map[]);
    assert Inv(start);
    RunsKeepInv(start, actions);
  }

  /** A committed request, its attempts and every queued anchor id never change again. */
  lemma StepKeepsCommitted(q: Queue, a: Action, id: int)
    requires Inv(q) && id in q.requests
    ensures id in Next(q, a).requests && Next(q, a).requests[id].anchorId == q.requests[id].anchorId
    ensures q.requests[id].status == Committed ==>
      Next(q, a).requests[id] == q.requests[id]
      && forall n: nat :: AttemptKey(id, n) in Next(q, a).attempts <==> AttemptKey(id, n) in q.attempts
    ensures forall k :: k in q.attempts ==> k in Next(q, a).attempts && Next(q, a).attempts[k] == q.attempts[k]
  {
    if a.Record? && a.submitter in q.submissions && !a.databaseFails {
      StaleWritersCollide(q, a.submitter, a.reply);
    }
  }

  lemma {:induction false} CommittedIsFinal(q: Queue, actions: seq<Action>, id: int)
    requires Inv(q) && id in q.requests && q.requests[id].status == Committed
    ensures id in Run(q, actions).requests && Run(q, actions).requests[id] == q.requests[id]
    ensures forall n: nat :: AttemptKey(id, n) in Run(q, actions).attempts <==> AttemptKey(id, n) in q.attempts
  {
    hide Next, Inv;
    if actions != [] {
      CommittedIsFinal(q, actions[..|actions| - 1], id);
      RunsKeepInv(q, actions[..|actions| - 1]);
      StepKeepsCommitted(Run(q, actions[..|actions| - 1]), actions[|actions| - 1], id);
    }
  }
}
