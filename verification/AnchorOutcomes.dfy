/** What becomes of a queued anchor (fabric_anchor.go), in terms of the gateway's answers. */
module AnchorOutcomes {
  import opened Options
  import opened FabricAnchor

  /** A new anchor is queued, pending, or unavailable when no gateway is configured; a repeated one is not
      queued again. */
  lemma QueueingMeans(q: Queue, id: int, anchorId: string, configured: bool)
    ensures Next(q, Enqueue(id, anchorId, configured))
      == if id in q.requests || exists r :: r in q.requests && q.requests[r].anchorId == anchorId then q
         else q.(requests := q.requests[id := Request(if configured then Pending else Unavailable, 0, anchorId, None)])
  {
    assert Anchored(q.requests, anchorId) <==> exists r :: r in q.requests && q.requests[r].anchorId == anchorId;
  }

  /** A submitter takes up any request on record that is not committed, whatever became of it before. */
  lemma LoadingMeans(q: Queue, w: int, id: int)
    requires w !in q.submissions && id in q.requests
    ensures Next(q, Load(w, id))
      == if q.requests[id].status in {Pending, Unavailable, Failed}
         then q.(submissions := q.submissions[w := Submission(id, q.requests[id])]) else q
  {
    var status := q.requests[id].status;
    assert status.Pending? || status.Unavailable? || status.Failed? || status.Committed?;
  }

  /** A recording by a submitter who saw the request as it is: a receipt that names the queued anchor commits
      it, any other receipt and a refusal leave it failed, and a missing client unavailable; each counts one
      attempt and files it under the next number. */
  lemma RecordingMeans(q: Queue, w: int, reply: Reply)
    requires Inv(q) && w in q.submissions && q.submissions[w].seen == q.requests[q.submissions[w].request]
    ensures
      var id := q.submissions[w].request;
      var seen, next := q.requests[id], Next(q, Record(w, reply, false));
      var n := seen.attemptCount + 1;
      var status := match reply case NoClient => Unavailable case SubmitFailed => Failed
                    case Receipt(anchorId) => if anchorId == seen.anchorId then Committed else Failed;
      && next.requests == q.requests[id := Request(status, n, seen.anchorId, if status == Committed then Some(seen.anchorId) else seen.receipt)]
      && next.attempts == q.attempts[AttemptKey(id, n) := status]
      && next.submissions == q.submissions - {w}
  {
    StaleWritersCollide(q, w, reply);
  }

  /** In every reachable state an uncommitted request can still be committed: a submitter that loads it and
      gets the right receipt does so. */
  lemma UncommittedCanCommit(actions: seq<Action>, w: int, id: int)
    requires var q := Run(Queue(map[], map[], map[]), actions);
      w !in q.submissions && id in q.requests && q.requests[id].status != Committed
    ensures
      var q := Run(Queue(map[], map[], map[]), actions);
      var done := Next(Next(q, Load(w, id)), Record(w, Receipt(q.requests[id].anchorId), false));
      id in done.requests && done.requests[id].status == Committed && done.requests[id].receipt == Some(q.requests[id].anchorId)
  {
    hide Run;
    var start := Queue(map[], map[], map[]);
    assert Inv(start);
    RunsKeepInv(start, actions);
    var q := Run(start, actions);
    var loaded := Next(q, Load(w, id));
    StepKeepsInv(q, Load(w, id));
    assert loaded.submissions[w] == Submission(id, q.requests[id]);
    hide Inv;
    RecordingMeans(loaded, w, Receipt(q.requests[id].anchorId));
  }
}
