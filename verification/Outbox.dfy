/** The transactional outbox (external_integration_delivery.go).  Any number of workers claim rows by
    compare-and-set, deliver them to every required sink and finalize them.  Every database statement
    is one step; the steps of different workers, crashes and manual retries interleave freely. */
module Outbox {
  import opened Options
  import opened Text
  import opened Arithmetic
  import opened Sets

  // ---------------------------------------------------------------------------------------
  // Required sinks.
  // ---------------------------------------------------------------------------------------

  function TrimLeft(s: string): string { if s != "" && IsSpace(s[0]) then TrimLeft(s[1..]) else s }

  function TrimRight(s: string): string { if s != "" && IsSpace(s[|s| - 1]) then TrimRight(s[..|s| - 1]) else s }

  function Normalized(s: string): string {
    var t := TrimRight(TrimLeft(s));
    seq(|t|, i requires 0 <= i < |t| => Lower(t[i]))
  }

  /** The distinct non-empty normalized names, in order of first appearance. */
  function Distinct(raw: seq<string>): (out: seq<string>)
    ensures forall i, j :: 0 <= i < j < |out| ==> out[i] != out[j]
    ensures forall s :: s in out <==> s != "" && exists r :: r in raw && Normalized(r) == s
  {
    if raw == [] then []
    else
      var n := |raw| - 1;
      var rest, last := Distinct(raw[..n]), Normalized(raw[n]);
      assert raw == raw[..n] + [raw[n]];
      if last == "" || last in rest then rest else rest + [last]
  }

  /** `None` stands for a column that is no JSON list of strings. */
  function RequiredSinks(raw: Option<seq<string>>): seq<string> {
    if raw.None? then [] else Distinct(raw.value)
  }

  method ParseRequiredSinks(raw: Option<seq<string>>) returns (out: seq<string>)
    ensures out == RequiredSinks(raw)
  {
    out := [];
    if raw.None? {
      return;
    }
    var seen: set<string> := {};
    for i := 0 to |raw.value|
      invariant out == Distinct(raw.value[..i])
      invariant forall s :: s in seen <==> s in out
    {
      assert raw.value[..i + 1][..i] == raw.value[..i];
      var sink := Normalized(raw.value[i]);
      if sink != "" && sink !in seen {
        seen := seen + {sink};
        out := out + [sink];
      }
    }
    assert raw.value[..|raw.value|] == raw.value;
  }

  // ---------------------------------------------------------------------------------------
  // Retry delay.
  // ---------------------------------------------------------------------------------------

  /** Seconds until the next attempt. */
  function BackoffForAttempt(attempt: int): nat {
    var positive := if attempt < 1 then 1 else attempt;
    var shift := if positive - 1 > 8 then 8 else positive - 1;
    Pow2(shift)
  }

  lemma {:induction false} Pow2Grows(m: nat, n: nat)
    requires m <= n
    ensures 1 <= Pow2(m) <= Pow2(n)
  {
    if n > 0 {
      if m < n {
        Pow2Grows(m, n - 1);
      } else {
        Pow2Grows(m - 1, n - 1);
      }
    }
  }

  /** The delay never shrinks from one attempt to the next and stays between 1 and 256 seconds. */
  lemma BackoffIsMonotone(a: int, b: int)
    requires a <= b
    ensures 1 <= BackoffForAttempt(a) <= BackoffForAttempt(b) <= 256
  {
    var p, q := if a < 1 then 1 else a, if b < 1 then 1 else b;
    var x, y := if p - 1 > 8 then 8 else p - 1, if q - 1 > 8 then 8 else q - 1;
    Pow2Grows(x, y);
    Pow2Grows(y, 8);
    assert Pow2(8) == 256;
  }

  // ---------------------------------------------------------------------------------------
  // State.
  // ---------------------------------------------------------------------------------------

  datatype RowStatus = Pending | Delivering | Delivered | Failed | Quarantined

  datatype Row = Row(status: RowStatus, attemptCount: nat, nextAttempt: int, payloadReadable: bool, sinks: Option<seq<string>>)

  datatype AttemptKey = AttemptKey(row: int, sink: string, attemptNo: nat)

  /** A worker after its read, and after its successful compare-and-set.  `attemptNo` is the number it
      keeps in memory, `serial` the attempt count that its claim left in the row. */
  datatype Worker =
    | Selected(row: int, seenAttempts: nat, sinks: seq<string>)
    | Holding(row: int, attemptNo: nat, serial: nat, sinks: seq<string>, next: nat, allDelivered: bool)

  /** `acks` records which sinks really accepted in which claim; the program does not store it. */
  datatype Acceptance = Acceptance(row: int, serial: nat, sink: string)

  datatype State = State(rows: map<int, Row>, attempts: map<AttemptKey, bool>, workers: map<int, Worker>, acks: set<Acceptance>)

  datatype Action =
    | Enqueue(id: int, payloadReadable: bool, sinks: Option<seq<string>>, now: int)
    | Select(w: int, id: int, now: int)
    | Claim(w: int)
    | Deliver(w: int, accepted: bool, recordWritten: bool)
    | Finalize(w: int, now: int, databaseFails: bool)
    | Crash(w: int)
    | Retry(id: int, now: int)

  predicate Claimable(row: Row) { row.status == Pending || row.status == Failed }

  predicate Eligible(row: Row, now: int) { Claimable(row) && row.nextAttempt <= now }

  /** The row that the query returns: eligible, with the least id. */
  predicate IsFirst(rows: map<int, Row>, id: int, now: int) {
    id in rows && Eligible(rows[id], now) && forall k :: k in rows && Eligible(rows[k], now) ==> id <= k
  }

  predicate Poison(row: Row) { !row.payloadReadable || RequiredSinks(row.sinks) == [] }

  function AfterDelivery(h: Worker, accepted: bool): Worker
    requires h.Holding?
  {
    h.(next := h.next + 1, allDelivered := h.allDelivered && accepted)
  }

  ghost function Next(s: State, a: Action): State {
    match a
    case Enqueue(id, payloadReadable, sinks, now) =>
      if id in s.rows then s else s.(rows := s.rows[id := Row(Pending, 0, now, payloadReadable, sinks)])
    case Select(w, id, now) =>
      if w in s.workers || !IsFirst(s.rows, id, now) || Poison(s.rows[id]) then s
      else s.(workers := s.workers[w := Selected(id, s.rows[id].attemptCount, RequiredSinks(s.rows[id].sinks))])
    case Claim(w) =>
      if w !in s.workers || !s.workers[w].Selected? then s
      else
        var sel := s.workers[w];
        if sel.row !in s.rows || !Claimable(s.rows[sel.row]) then s.(workers := s.workers - {w})
        else
          var row := s.rows[sel.row];
          s.(rows := s.rows[sel.row := row.(status := Delivering, attemptCount := row.attemptCount + 1)],
             workers := s.workers[w := Holding(sel.row, sel.seenAttempts + 1, row.attemptCount + 1, sel.sinks, 0, true)])
    case Deliver(w, accepted, recordWritten) =>
      if w !in s.workers || !s.workers[w].Holding? || s.workers[w].next >= |s.workers[w].sinks| then s
      else
        var h := s.workers[w];
        var sink := h.sinks[h.next];
        var key := AttemptKey(h.row, sink, h.attemptNo);
        State(s.rows,
              if recordWritten && key !in s.attempts then s.attempts[key := accepted] else s.attempts,
              s.workers[w := AfterDelivery(h, accepted)],
              if accepted then s.acks + {Acceptance(h.row, h.serial, sink)} else s.acks)
    case Finalize(w, now, databaseFails) =>
      if w !in s.workers || !s.workers[w].Holding? || s.workers[w].next < |s.workers[w].sinks| then s
      else
        var h := s.workers[w];
        if databaseFails || h.row !in s.rows then s.(workers := s.workers - {w})
        else
          var row := s.rows[h.row];
          s.(rows := s.rows[h.row := if h.allDelivered then row.(status := Delivered)
                                     else row.(status := Failed, nextAttempt := now + BackoffForAttempt(h.attemptNo))],
             workers := s.workers - {w})
    case Crash(w) => s.(workers := s.workers - {w})
    case Retry(id, now) =>
      if id in s.rows && s.rows[id].status in {Failed, Quarantined}
      then s.(rows := s.rows[id := s.rows[id].(status := Pending, nextAttempt := now)]) else s
  }

  ghost function Run(s: State, actions: seq<Action>): State {
    if actions == [] then s else Next(Run(s, actions[..|actions| - 1]), actions[|actions| - 1])
  }

  lemma RunNothing(s: State)
    ensures Run(s, []) == s
  {
  }

  lemma RunOne(s: State, actions: seq<Action>, a: Action)
    ensures Run(s, actions + [a]) == Next(Run(s, actions), a)
  {
    assert (actions + [a])[..|actions|] == actions;
  }

  // ---------------------------------------------------------------------------------------
  // The worker program.
  // ---------------------------------------------------------------------------------------

  /** What the outside world does to one delivery, and to one round of a pass. */
  datatype Answer = Answer(accepted: bool, recordWritten: bool)

  datatype Round = Round(claimFails: bool, answers: nat -> Answer, finalizeFails: bool)

  datatype PassEnd = LimitReached | NothingDue | ClaimError | FinalizeError

  ghost function Deliveries(w: int, answers: nat -> Answer, n: nat): seq<Action> {
    if n == 0 then []
    else Deliveries(w, answers, n - 1) + [Deliver(w, answers(n - 1).accepted, answers(n - 1).recordWritten)]
  }

  /** One full round on row `k`. */
  ghost function RoundTrace(rows: map<int, Row>, w: int, now: int, round: Round, k: int): seq<Action>
    requires k in rows
  {
    [Select(w, k, now), Claim(w)] + Deliveries(w, round.answers, |RequiredSinks(rows[k].sinks)|)
    + [Finalize(w, now, round.finalizeFails)]
  }

  /** Full rounds on the picked rows, one after the other. */
  ghost function PassTrace(rows: map<int, Row>, w: int, now: int, world: nat -> Round, picked: seq<int>): seq<Action>
    requires forall k :: k in picked ==> k in rows
  {
    if picked == [] then []
    else
      var n := |picked| - 1;
      PassTrace(rows, w, now, world, picked[..n]) + RoundTrace(rows, w, now, world(n), picked[n])
  }

  predicate Picks(rows: map<int, Row>, now: int, round: Round, k: int) {
    IsFirst(rows, k, now) && !Poison(rows[k]) && !round.claimFails
  }

  /** Each round of a pass from `s` is on the first row that is due then, and that row is good. */
  ghost predicate PicksFirst(s: State, w: int, now: int, world: nat -> Round, picked: seq<int>)
    requires forall k :: k in picked ==> k in s.rows
  {
    forall i :: 0 <= i < |picked| ==>
      Picks(Run(s, PassTrace(s.rows, w, now, world, picked[..i])).rows, now, world(i), picked[i])
  }

  class OutboxWorker {
    const id: int
    var rows: map<int, Row>
    var attempts: map<AttemptKey, bool>
    ghost var others: map<int, Worker>
    ghost var acks: set<Acceptance>

    ghost predicate Idle()
      reads this
    {
      id !in others
    }

    /** The machine state while this worker is in phase `me`. */
    ghost function StateAs(me: Option<Worker>): State
      reads this
    {
      State(rows, attempts, if me.None? then others else others[id := me.value], acks)
    }

    constructor (id: int)
      ensures Idle() && StateAs(None) == START
    {
      this.id := id;
      rows, attempts, others, acks := map[], map[], map[], {};
    }

    /** claimExternalOutboxEvent: the read and the compare-and-set. */
    method ClaimEvent(now: int, databaseFails: bool) returns (held: Option<Worker>, failed: bool, ghost trace: seq<Action>)
      requires Idle()
      modifies this`rows
      ensures StateAs(held) == Run(old(StateAs(None)), trace)
      ensures failed <==> databaseFails || exists k :: IsFirst(old(rows), k, now) && Poison(old(rows)[k])
      ensures held.Some? <==> !databaseFails && exists k :: IsFirst(old(rows), k, now) && !Poison(old(rows)[k])
      ensures failed ==> held.None?
      ensures held.None? ==> trace == [] && rows == old(rows)
      ensures !databaseFails && held.None? && !failed ==>
        forall j :: j in rows ==> rows[j].status !in {Pending, Failed} || rows[j].nextAttempt > now
      ensures held.Some? ==>
        var k := held.value.row;
        && IsFirst(old(rows), k, now) && old(rows)[k].status in {Pending, Failed} && old(rows)[k].nextAttempt <= now
        && old(rows)[k].payloadReadable && RequiredSinks(old(rows)[k].sinks) != []
        && (forall j :: j in old(rows) && old(rows)[j].status in {Pending, Failed} && old(rows)[j].nextAttempt <= now ==> k <= j)
        && held.value == Holding(k, old(rows)[k].attemptCount + 1, old(rows)[k].attemptCount + 1,
                                 RequiredSinks(old(rows)[k].sinks), 0, true)
        && trace == [Select(id, k, now), Claim(id)]
    {
      hide RequiredSinks, Distinct;
      held, failed, trace := None, databaseFails, [];
      RunNothing(StateAs(None));
      if databaseFails {
        return;
      }
      if forall k :: !IsFirst(rows, k, now) {
        NoFirstNoneEligible(rows, now);
      }
      if k: int :| k in rows && IsFirst(rows, k, now) {
        if !rows[k].payloadReadable {
          failed := true;
          return;
        }
        var sinks := ParseRequiredSinks(rows[k].sinks);
        if |sinks| == 0 {
          failed := true;
          return;
        }
        ghost var before := StateAs(None);
        RunOne(before, [], Select(id, k, now));
        RunOne(before, [Select(id, k, now)], Claim(id));
        assert [] + [Select(id, k, now)] == [Select(id, k, now)];
        assert [Select(id, k, now)] + [Claim(id)] == [Select(id, k, now), Claim(id)];
        trace := [Select(id, k, now), Claim(id)];
        held := Some(Holding(k, rows[k].attemptCount + 1, rows[k].attemptCount + 1, sinks, 0, true));
        rows := rows[k := rows[k].(status := Delivering, attemptCount := rows[k].attemptCount + 1)];
      }
    }

    /** The sink loop: each sink's answer and the fate of its attempt record are up to the outside. */
    method DeliverToSinks(held: Worker, answers: nat -> Answer) returns (done: Worker, ghost trace: seq<Action>)
      requires Idle() && held.Holding? && held.next == 0 && held.allDelivered
      modifies this`attempts, this`acks
      ensures done.Holding? && done == held.(next := |held.sinks|, allDelivered := done.allDelivered)
      ensures done.allDelivered <==> forall k: nat :: k < |held.sinks| ==> answers(k).accepted
      ensures trace == Deliveries(id, answers, |held.sinks|)
      ensures StateAs(Some(done)) == Run(old(StateAs(Some(held))), trace)
    {
      hide Run;
      RunNothing(StateAs(Some(held)));
      done, trace := held, [];
      while done.next < |done.sinks|
        invariant done.Holding? && done == held.(next := done.next, allDelivered := done.allDelivered) && done.next <= |held.sinks|
        invariant done.allDelivered <==> forall k: nat :: k < done.next ==> answers(k).accepted
        invariant trace == Deliveries(id, answers, done.next)
        invariant StateAs(Some(done)) == Run(old(StateAs(Some(held))), trace)
        decreases |done.sinks| - done.next
      {
        var accepted, recordWritten := answers(done.next).accepted, answers(done.next).recordWritten;
        ghost var before := StateAs(Some(done));
        var key := AttemptKey(done.row, done.sinks[done.next], done.attemptNo);
        if recordWritten && key !in attempts {
          attempts := attempts[key := accepted];
        }
        if accepted {
          acks := acks + {Acceptance(done.row, done.serial, done.sinks[done.next])};
        }
        assert before.workers[id := AfterDelivery(done, accepted)] == others[id := AfterDelivery(done, accepted)];
        done := AfterDelivery(done, accepted);
        assert StateAs(Some(done)) == Next(before, Deliver(id, accepted, recordWritten));
        RunOne(old(StateAs(Some(held))), trace, Deliver(id, accepted, recordWritten));
        trace := trace + [Deliver(id, accepted, recordWritten)];
      }
    }

    method FinalizeEvent(done: Worker, now: int, databaseFails: bool) returns (ghost trace: seq<Action>)
      requires Idle() && done.Holding? && done.next >= |done.sinks|
      modifies this`rows
      ensures StateAs(None) == Run(old(StateAs(Some(done))), trace)
      ensures trace == [Finalize(id, now, databaseFails)]
    {
      trace := [Finalize(id, now, databaseFails)];
      RunOne(StateAs(Some(done)), [], Finalize(id, now, databaseFails));
      assert [] + trace == trace;
      assert others[id := done] - {id} == others;
      if databaseFails || done.row !in rows {
        return;
      }
      var row := rows[done.row];
      if done.allDelivered {
        rows := rows[done.row := row.(status := Delivered)];
      } else {
        rows := rows[done.row := row.(status := Failed, nextAttempt := now + BackoffForAttempt(done.attemptNo))];
      }
    }

    /** deliverExternalIntegrationOutbox: a pass is full rounds on the rows `picked`, each the first row due
        at that time.  It ends only at the limit, when no row is due, or at the first failure. */
    method DeliverOutbox(limit: nat, now: int, world: nat -> Round) returns (count: nat, end: PassEnd, ghost picked: seq<int>)
      requires Idle()
      modifies this`rows, this`attempts, this`acks
      ensures forall k :: k in picked ==> k in old(rows)
      ensures StateAs(None) == Run(old(StateAs(None)), PassTrace(old(rows), id, now, world, picked))
      ensures PicksFirst(old(StateAs(None)), id, now, world, picked)
      ensures count <= limit && |picked| == if end == FinalizeError then count + 1 else count
      ensures forall i: nat :: i < count ==> !world(i).finalizeFails
      ensures end == LimitReached <==> count == limit
      ensures end == NothingDue ==> !world(count).claimFails
      ensures end == NothingDue ==> forall k :: k in rows ==> rows[k].status !in {Pending, Failed} || rows[k].nextAttempt > now
      ensures end == ClaimError ==> world(count).claimFails || exists k :: IsFirst(rows, k, now) && Poison(rows[k])
      ensures end == FinalizeError ==> world(count).finalizeFails
    {
      hide Run, RequiredSinks, IsFirst, Deliveries, PicksFirst, Poison;
      ghost var start := StateAs(None);
      picked := [];
      RunNothing(start);
      NoPicks(start, id, now, world);
      count := 0;
      while count < limit
        invariant count <= limit && |picked| == count
        invariant forall k :: k in picked ==> k in start.rows
        invariant StateAs(None) == Run(start, PassTrace(start.rows, id, now, world, picked))
        invariant PicksFirst(start, id, now, world, picked)
        invariant forall i: nat :: i < count ==> !world(i).finalizeFails
      {
        var round := world(count);
        ghost var before := StateAs(None);
        var held, failed, claiming := ClaimEvent(now, round.claimFails);
        if failed {
          return count, ClaimError, picked;
        }
        if held.None? {
          NoFirstNoneEligible(rows, now);
          return count, NothingDue, picked;
        }
        var done, delivering := DeliverToSinks(held.value, round.answers);
        RunAppend(before, claiming, delivering);
        var finalizing := FinalizeEvent(done, now, round.finalizeFails);
        RunAppend(before, claiming + delivering, finalizing);
        RoundTaken(start, before, id, now, world, picked, held.value.row);
        assert RoundTrace(start.rows, id, now, round, held.value.row) == claiming + delivering + finalizing;
        picked := picked + [held.value.row];
        if round.finalizeFails {
          return count, FinalizeError, picked;
        }
        count := count + 1;
      }
      end := LimitReached;
    }
  }

  lemma NoPicks(s: State, w: int, now: int, world: nat -> Round)
    ensures PassTrace(s.rows, w, now, world, []) == [] && PicksFirst(s, w, now, world, [])
  {
  }

  /** Rows stay, and keep their sinks. */
  lemma StepKeepsSinks(s: State, a: Action, k: int)
    ensures k in s.rows ==> k in Next(s, a).rows && Next(s, a).rows[k].sinks == s.rows[k].sinks
    ensures k in Next(s, a).rows && k !in s.rows ==> a.Enqueue?
  {
    hide RequiredSinks, BackoffForAttempt;
  }

  lemma {:induction false} RunKeepsSinks(s: State, actions: seq<Action>, k: int)
    requires forall a :: a in actions ==> !a.Enqueue?
    ensures k in Run(s, actions).rows <==> k in s.rows
    ensures k in s.rows ==> Run(s, actions).rows[k].sinks == s.rows[k].sinks
  {
    hide Next;
    if actions != [] {
      var n := |actions| - 1;
      RunKeepsSinks(s, actions[..n], k);
      assert actions[n] in actions;
      StepKeepsSinks(Run(s, actions[..n]), actions[n], k);
    }
  }

  lemma {:induction false} PassEnqueuesNothing(rows: map<int, Row>, w: int, now: int, world: nat -> Round, picked: seq<int>)
    requires forall k :: k in picked ==> k in rows
    ensures forall a :: a in PassTrace(rows, w, now, world, picked) ==> !a.Enqueue?
  {
    if picked != [] {
      var n := |picked| - 1;
      var k := picked[n];
      assert k in picked;
      assert k in rows;
      PassEnqueuesNothing(rows, w, now, world, picked[..n]);
      DeliveriesEnqueueNothing(w, world(n).answers, |RequiredSinks(rows[k].sinks)|);
    }
  }

  lemma {:induction false} DeliveriesEnqueueNothing(w: int, answers: nat -> Answer, n: nat)
    ensures forall a :: a in Deliveries(w, answers, n) ==> !a.Enqueue?
  {
    if n > 0 {
      DeliveriesEnqueueNothing(w, answers, n - 1);
    }
  }

  /** One round more. */
  lemma RoundTaken(start: State, before: State, w: int, now: int, world: nat -> Round, picked: seq<int>, k: int)
    requires forall j :: j in picked ==> j in start.rows
    requires before == Run(start, PassTrace(start.rows, w, now, world, picked)) && PicksFirst(start, w, now, world, picked)
    requires Picks(before.rows, now, world(|picked|), k)
    ensures k in start.rows && k in before.rows && before.rows[k].sinks == start.rows[k].sinks
    ensures forall j :: j in picked + [k] ==> j in start.rows
    ensures PicksFirst(start, w, now, world, picked + [k])
    ensures Run(start, PassTrace(start.rows, w, now, world, picked + [k]))
         == Run(before, RoundTrace(start.rows, w, now, world(|picked|), k))
  {
    hide Run, RequiredSinks, Poison, RoundTrace, PicksFirst, PassTrace;
    assert k in before.rows;
    PassEnqueuesNothing(start.rows, w, now, world, picked);
    RunKeepsSinks(start, PassTrace(start.rows, w, now, world, picked), k);
    PassTraceMore(start.rows, w, now, world, picked, k);
    RunAppend(start, PassTrace(start.rows, w, now, world, picked), RoundTrace(start.rows, w, now, world(|picked|), k));
    PicksMore(start, w, now, world, picked, k);
  }

  lemma PassTraceMore(rows: map<int, Row>, w: int, now: int, world: nat -> Round, picked: seq<int>, k: int)
    requires k in rows && forall j :: j in picked ==> j in rows
    ensures PassTrace(rows, w, now, world, picked + [k])
         == PassTrace(rows, w, now, world, picked) + RoundTrace(rows, w, now, world(|picked|), k)
  {
    hide RoundTrace;
    assert (picked + [k])[..|picked|] == picked;
  }

  lemma PicksMore(start: State, w: int, now: int, world: nat -> Round, picked: seq<int>, k: int)
    requires k in start.rows && forall j :: j in picked ==> j in start.rows
    requires PicksFirst(start, w, now, world, picked)
    requires Picks(Run(start, PassTrace(start.rows, w, now, world, picked)).rows, now, world(|picked|), k)
    ensures PicksFirst(start, w, now, world, picked + [k])
  {
    hide Run, PassTrace, Picks;
    var longer := picked + [k];
    assert longer[..|picked|] == picked;
    forall i | 0 <= i < |longer|
      ensures Picks(Run(start, PassTrace(start.rows, w, now, world, longer[..i])).rows, now, world(i), longer[i])
    {
      assert i < |picked| ==> longer[..i] == picked[..i];
    }
  }

  lemma {:induction false} RunAppend(s: State, a: seq<Action>, b: seq<Action>)
    ensures Run(s, a + b) == Run(Run(s, a), b)
  {
    hide Next;
    if b == [] {
      assert a + b == a;
    } else {
      var n := |b| - 1;
      RunAppend(s, a, b[..n]);
      assert (a + b)[..|a + b| - 1] == a + b[..n];
    }
  }

  function EligibleBelow(rows: map<int, Row>, k: int, now: int): set<int> {
    set j | j in rows && Eligible(rows[j], now) && j < k
  }

  /** If any row is due, one of them has the least id. */
  lemma FirstExists(rows: map<int, Row>, k: int, now: int)
    requires k in rows && Eligible(rows[k], now)
    ensures exists j :: IsFirst(rows, j, now)
    decreases EligibleBelow(rows, k, now)
  {
    if EligibleBelow(rows, k, now) == {} {
      assert forall j :: j in rows && Eligible(rows[j], now) && j < k ==> j in EligibleBelow(rows, k, now);
      assert IsFirst(rows, k, now);
    } else {
      var j := AnyOf(EligibleBelow(rows, k, now));
      FirstExists(rows, j, now);
    }
  }

  lemma NoFirstNoneEligible(rows: map<int, Row>, now: int)
    requires forall k :: !IsFirst(rows, k, now)
    ensures forall k :: k in rows ==> !Eligible(rows[k], now)
  {
    forall k | k in rows
      ensures !Eligible(rows[k], now)
    {
      if Eligible(rows[k], now) {
        FirstExists(rows, k, now);
      }
    }
  }

  // ---------------------------------------------------------------------------------------
  // Safety for any number of workers.
  // ---------------------------------------------------------------------------------------

  ghost predicate HolderOk(s: State, w: int)
    requires w in s.workers && s.workers[w].Holding?
  {
    var h := s.workers[w];
    && h.row in s.rows && s.rows[h.row].status == Delivering
    && h.serial == s.rows[h.row].attemptCount && h.attemptNo <= h.serial
    && h.sinks == RequiredSinks(s.rows[h.row].sinks) && h.next <= |h.sinks|
    && (h.allDelivered ==> forall k :: 0 <= k < h.next ==> Acceptance(h.row, h.serial, h.sinks[k]) in s.acks)
  }

  ghost predicate SelectionOk(s: State, w: int)
    requires w in s.workers && s.workers[w].Selected?
  {
    var sel := s.workers[w];
    sel.row in s.rows && sel.seenAttempts <= s.rows[sel.row].attemptCount && sel.sinks == RequiredSinks(s.rows[sel.row].sinks)
  }

  /** A row has at most one holder between claim and finalize. */
  ghost predicate OneHolder(s: State) {
    forall v, w :: v in s.workers && w in s.workers && v != w && s.workers[v].Holding? && s.workers[w].Holding? ==>
      s.workers[v].row != s.workers[w].row
  }

  ghost predicate AcceptedByAll(s: State, id: int)
    requires id in s.rows
  {
    forall sink :: sink in RequiredSinks(s.rows[id].sinks) ==> Acceptance(id, s.rows[id].attemptCount, sink) in s.acks
  }

  ghost predicate WorkersOk(s: State) {
    forall w :: w in s.workers ==> if s.workers[w].Holding? then HolderOk(s, w) else SelectionOk(s, w)
  }

  ghost predicate Inv(s: State) {
    && OneHolder(s)
    && WorkersOk(s)
    && (forall id :: id in s.rows && s.rows[id].status == Delivered ==> AcceptedByAll(s, id))
  }

  lemma StepKeepsInv(s: State, a: Action)
    requires Inv(s)
    ensures Inv(Next(s, a))
  {
    hide RequiredSinks, BackoffForAttempt, Inv;
    match a
    case Finalize(_, _, _) => FinalizeKeepsInv(s, a);
    case Claim(_) => ClaimKeepsInv(s, a);
    case Deliver(_, _, _) => DeliverKeepsInv(s, a);
    case _ => OthersKeepInv(s, a);
  }

  lemma FinalizeKeepsInv(s: State, a: Action)
    requires Inv(s) && a.Finalize?
    ensures Inv(Next(s, a))
  {
    hide RequiredSinks, BackoffForAttempt, WorkersOk;
    FinalizeKeepsWorkers(s, a);
    if Next(s, a).rows != s.rows {
      HeldIsOk(s, a.w);
    }
  }

  lemma HeldIsOk(s: State, w: int)
    requires WorkersOk(s) && w in s.workers && s.workers[w].Holding?
    ensures HolderOk(s, w)
  {
  }

  lemma FinalizeKeepsWorkers(s: State, a: Action)
    requires OneHolder(s) && WorkersOk(s) && a.Finalize?
    ensures OneHolder(Next(s, a)) && WorkersOk(Next(s, a))
  {
    hide RequiredSinks, BackoffForAttempt;
    var t := Next(s, a);
    if t != s && a.w in s.workers {
      assert HolderOk(s, a.w);
      assert forall w :: w in t.workers ==> t.workers[w] == s.workers[w] && w != a.w;
    }
  }

  lemma ClaimKeepsInv(s: State, a: Action)
    requires Inv(s) && a.Claim?
    ensures Inv(Next(s, a))
  {
    hide RequiredSinks, BackoffForAttempt;
    var t := Next(s, a);
    if t.rows != s.rows {
      assert SelectionOk(s, a.w);
      assert forall w :: w in t.workers && w != a.w ==> t.workers[w] == s.workers[w];
    }
  }

  lemma DeliverKeepsInv(s: State, a: Action)
    requires Inv(s) && a.Deliver?
    ensures Inv(Next(s, a))
  {
    hide RequiredSinks, BackoffForAttempt;
    var t := Next(s, a);
    if t != s {
      assert HolderOk(s, a.w);
      assert forall w :: w in t.workers && w != a.w ==> t.workers[w] == s.workers[w];
    }
  }

  lemma OthersKeepInv(s: State, a: Action)
    requires Inv(s) && !a.Finalize? && !a.Claim? && !a.Deliver?
    ensures Inv(Next(s, a))
  {
    hide RequiredSinks, BackoffForAttempt;
  }

  lemma {:induction false} RunsKeepInv(s: State, actions: seq<Action>)
    requires Inv(s)
    ensures Inv(Run(s, actions))
  {
    hide Next, Inv;
    if actions != [] {
      RunsKeepInv(s, actions[..|actions| - 1]);
      StepKeepsInv(Run(s, actions[..|actions| - 1]), actions[|actions| - 1]);
    }
  }

  /** In every interleaving a delivered row was accepted by every distinct required sink within one
      single claim, and no row is held twice. */
  lemma DeliveredMeansAccepted(actions: seq<Action>)
    ensures
      var s := Run(START, actions);
      OneHolder(s) && forall id :: id in s.rows && s.rows[id].status == Delivered ==> AcceptedByAll(s, id)
  {
    hide Run;
    RunsKeepInv(START, actions);
  }

  lemma DeliveredStep(s: State, a: Action, id: int)
    requires Inv(s) && id in s.rows && s.rows[id].status == Delivered
    ensures id in Next(s, a).rows && Next(s, a).rows[id] == s.rows[id]
  {
    hide RequiredSinks, BackoffForAttempt;
    if a.Finalize? && a.w in s.workers && s.workers[a.w].Holding? {
      assert HolderOk(s, a.w);
    }
  }

  /** `delivered` is final. */
  lemma {:induction false} DeliveredIsFinal(s: State, actions: seq<Action>, id: int)
    requires Inv(s) && id in s.rows && s.rows[id].status == Delivered
    ensures id in Run(s, actions).rows && Run(s, actions).rows[id] == s.rows[id]
  {
    hide Next, Inv;
    if actions != [] {
      DeliveredIsFinal(s, actions[..|actions| - 1], id);
      RunsKeepInv(s, actions[..|actions| - 1]);
      DeliveredStep(Run(s, actions[..|actions| - 1]), actions[|actions| - 1], id);
    }
  }

  /** A row that is being delivered but has no holder: its worker crashed, or its finalize failed. */
  ghost predicate Orphaned(s: State, id: int) {
    && id in s.rows && s.rows[id].status == Delivering
    && forall w :: w in s.workers && s.workers[w].Holding? ==> s.workers[w].row != id
  }

  lemma OrphanStep(s: State, a: Action, id: int)
    requires Orphaned(s, id)
    ensures Orphaned(Next(s, a), id) && Next(s, a).rows[id] == s.rows[id]
  {
    hide RequiredSinks, BackoffForAttempt;
  }

  /** An orphaned row is never delivered or retried again. */
  lemma {:induction false} OrphansAreStranded(s: State, actions: seq<Action>, id: int)
    requires Orphaned(s, id)
    ensures Orphaned(Run(s, actions), id) && Run(s, actions).rows[id] == s.rows[id]
  {
    hide Next, Orphaned;
    if actions != [] {
      OrphansAreStranded(s, actions[..|actions| - 1], id);
      OrphanStep(Run(s, actions[..|actions| - 1]), actions[|actions| - 1], id);
    }
  }

  /** A claimable row that cannot be read or names no sink, with no worker beyond it. */
  ghost predicate Blocking(s: State, id: int, row: Row) {
    && id in s.rows && s.rows[id] == row && Claimable(row) && Poison(row)
    && forall w :: w in s.workers ==> s.workers[w].row < id
  }

  lemma BlockingStep(s: State, a: Action, id: int, row: Row)
    requires Blocking(s, id, row)
    requires (a.Select? ==> row.nextAttempt <= a.now) && (a.Retry? ==> a.id != id)
    ensures Blocking(Next(s, a), id, row)
    ensures forall k :: k in s.rows && k > id ==> k in Next(s, a).rows && Next(s, a).rows[k].attemptCount == s.rows[k].attemptCount
  {
    hide RequiredSinks, BackoffForAttempt;
  }

  /** While such a row is due it stops the queue: no row behind it is ever claimed. */
  lemma {:induction false} PoisonBlocksQueue(s: State, actions: seq<Action>, id: int, row: Row)
    requires Blocking(s, id, row)
    requires forall a :: a in actions ==> (a.Select? ==> row.nextAttempt <= a.now) && (a.Retry? ==> a.id != id)
    ensures Blocking(Run(s, actions), id, row)
    ensures forall k :: k in s.rows && k > id ==>
      k in Run(s, actions).rows && Run(s, actions).rows[k].attemptCount == s.rows[k].attemptCount
  {
    hide Next, Blocking;
    if actions != [] {
      var n := |actions| - 1;
      PoisonBlocksQueue(s, actions[..n], id, row);
      assert actions[n] in actions;
      BlockingStep(Run(s, actions[..n]), actions[n], id, row);
    }
  }

  // ---------------------------------------------------------------------------------------
  // When the attempt records are complete.
  // ---------------------------------------------------------------------------------------

  const START := State(map[], map[], map[], {})

  /** Attempt `n` of the row is over. */
  predicate Finished(row: Row, n: nat) {
    1 <= n && (n < row.attemptCount || (n == row.attemptCount && row.status != Delivering))
  }

  /** Each required sink has its record for each finished attempt, no other sink has one, and there are
      no records beyond the attempt count. */
  ghost predicate RecordsComplete(s: State, id: int)
    requires id in s.rows
  {
    && (forall sink, n: nat :: Finished(s.rows[id], n) ==>
          (AttemptKey(id, sink, n) in s.attempts <==> sink in RequiredSinks(s.rows[id].sinks)))
    && (forall sink, n: nat :: AttemptKey(id, sink, n) in s.attempts ==> 1 <= n <= s.rows[id].attemptCount)
  }

  /** The attempt number with which the step claims the row, if it does. */
  function ClaimNumber(s: State, a: Action, id: int): Option<nat> {
    if a.Claim? && a.w in s.workers && s.workers[a.w].Selected? && s.workers[a.w].row == id
       && id in s.rows && Claimable(s.rows[id])
    then Some(s.workers[a.w].seenAttempts + 1) else None
  }

  /** The attempt numbers of the claims of a row, in the order of the claims. */
  ghost function Numbers(actions: seq<Action>, id: int): seq<nat> {
    if actions == [] then []
    else
      var n := |actions| - 1;
      var number := ClaimNumber(Run(START, actions[..n]), actions[n], id);
      Numbers(actions[..n], id) + if number.Some? then [number.value] else []
  }

  /** Every claim found the attempt count that its worker had read. */
  ghost predicate Fresh(numbers: seq<nat>) { forall k :: 0 <= k < |numbers| ==> numbers[k] == k + 1 }

  predicate Recorded(a: Action) { a.Deliver? ==> a.recordWritten }

  /** How the records and workers of a row relate to the numbers of its claims. */
  ghost predicate NumbersInv(s: State, numbers: seq<nat>, id: int) {
    && (forall k :: 0 <= k < |numbers| ==> 1 <= numbers[k] <= k + 1)
    && (id in s.rows ==> |numbers| == s.rows[id].attemptCount)
    && (id !in s.rows ==> numbers == [])
    && (forall sink, n: nat :: AttemptKey(id, sink, n) in s.attempts ==>
          n in numbers && id in s.rows && sink in RequiredSinks(s.rows[id].sinks))
    && (id in s.rows && s.rows[id].attemptCount > 0 ==> RequiredSinks(s.rows[id].sinks) != [])
    && (forall w :: w in s.workers && s.workers[w].row == id ==>
          s.workers[w].sinks != []
          && (s.workers[w].Holding? ==> |numbers| > 0 && s.workers[w].attemptNo == numbers[|numbers| - 1]))
  }

  function After(numbers: seq<nat>, number: Option<nat>): seq<nat> { numbers + if number.Some? then [number.value] else [] }

  lemma NumbersStep(s: State, a: Action, numbers: seq<nat>, id: int)
    requires Inv(s) && NumbersInv(s, numbers, id)
    ensures NumbersInv(Next(s, a), After(numbers, ClaimNumber(s, a, id)), id)
  {
    hide RequiredSinks, BackoffForAttempt, Inv, NumbersInv, After;
    match a
    case Claim(_) => NumbersClaim(s, a, numbers, id);
    case Deliver(_, _, _) => NumbersDeliver(s, a, numbers, id);
    case _ => NumbersOther(s, a, numbers, id);
  }

  lemma NumbersClaim(s: State, a: Action, numbers: seq<nat>, id: int)
    requires a.Claim? && Inv(s) && NumbersInv(s, numbers, id)
    ensures NumbersInv(Next(s, a), After(numbers, ClaimNumber(s, a, id)), id)
  {
    hide RequiredSinks, BackoffForAttempt;
    if ClaimNumber(s, a, id).Some? {
      NumbersOwnClaim(s, a, numbers, id);
    } else {
      assert After(numbers, ClaimNumber(s, a, id)) == numbers;
    }
  }

  lemma NumbersOwnClaim(s: State, a: Action, numbers: seq<nat>, id: int)
    requires Inv(s) && NumbersInv(s, numbers, id) && ClaimNumber(s, a, id).Some?
    ensures NumbersInv(Next(s, a), numbers + [ClaimNumber(s, a, id).value], id)
  {
    hide RequiredSinks, BackoffForAttempt;
    var t, after := Next(s, a), numbers + [ClaimNumber(s, a, id).value];
    assert SelectionOk(s, a.w);
    assert forall n :: n in numbers ==> n in after;
    assert |numbers| == s.rows[id].attemptCount && t.attempts == s.attempts;
    assert t.workers[a.w] == Holding(id, after[|numbers|], |numbers| + 1, s.workers[a.w].sinks, 0, true);
    hide Claimable;
    forall w | w in t.workers && t.workers[w].row == id
      ensures t.workers[w].sinks != [] && (t.workers[w].Holding? ==> t.workers[w].attemptNo == after[|after| - 1])
    {
      if w != a.w {
        NoOtherHolder(s, a, id, w);
      }
    }
  }

  /** A row that can be claimed has no holder. */
  lemma NoOtherHolder(s: State, a: Action, id: int, w: int)
    requires Inv(s) && ClaimNumber(s, a, id).Some? && w != a.w && w in s.workers && s.workers[w].row == id
    ensures s.workers[w].Selected? && Next(s, a).workers[w] == s.workers[w]
  {
    hide RequiredSinks, BackoffForAttempt;
    assert s.workers[w].Holding? ==> HolderOk(s, w);
  }

  lemma NumbersDeliver(s: State, a: Action, numbers: seq<nat>, id: int)
    requires a.Deliver? && Inv(s) && NumbersInv(s, numbers, id)
    ensures NumbersInv(Next(s, a), After(numbers, ClaimNumber(s, a, id)), id)
  {
    hide RequiredSinks, BackoffForAttempt;
    assert After(numbers, ClaimNumber(s, a, id)) == numbers;
    if Next(s, a) != s {
      assert HolderOk(s, a.w);
    }
  }

  lemma NumbersOther(s: State, a: Action, numbers: seq<nat>, id: int)
    requires !a.Claim? && !a.Deliver? && Inv(s) && NumbersInv(s, numbers, id)
    ensures NumbersInv(Next(s, a), After(numbers, ClaimNumber(s, a, id)), id)
  {
    hide RequiredSinks, BackoffForAttempt;
    assert After(numbers, ClaimNumber(s, a, id)) == numbers;
    if a.Finalize? && a.w in s.workers && s.workers[a.w].Holding? {
      assert HolderOk(s, a.w);
    }
  }

  /** Under fresh claims: the records of the finished attempts are complete, and a holder has recorded
      the sinks it is done with. */
  ghost predicate FreshInv(s: State, id: int) {
    && (id in s.rows ==> RecordsComplete(s, id))
    && (id !in s.rows ==> forall sink, n: nat :: AttemptKey(id, sink, n) !in s.attempts)
    && (forall w :: w in s.workers && s.workers[w].Holding? && s.workers[w].row == id ==>
          var h := s.workers[w];
          h.attemptNo == h.serial && 1 <= h.serial && h.next <= |h.sinks|
          && forall sink :: AttemptKey(id, sink, h.serial) in s.attempts <==> sink in h.sinks[..h.next])
  }

  lemma FreshStep(s: State, a: Action, id: int)
    requires Inv(s) && FreshInv(s, id) && Recorded(a)
    requires ClaimNumber(s, a, id).Some? ==> ClaimNumber(s, a, id).value == s.rows[id].attemptCount + 1
    ensures FreshInv(Next(s, a), id)
  {
    hide RequiredSinks, BackoffForAttempt, Inv, FreshInv;
    match a
    case Claim(_) => FreshClaim(s, a, id);
    case Deliver(_, _, _) => FreshDeliver(s, a, id);
    case Finalize(_, _, _) => FreshFinalize(s, a, id);
    case _ => FreshOther(s, a, id);
  }

  lemma FreshOther(s: State, a: Action, id: int)
    requires Inv(s) && FreshInv(s, id) && !a.Claim? && !a.Deliver? && !a.Finalize?
    ensures FreshInv(Next(s, a), id)
  {
    hide RequiredSinks, BackoffForAttempt;
    var t := Next(s, a);
    if id in s.rows {
      assert t.rows[id].attemptCount == s.rows[id].attemptCount && t.rows[id].sinks == s.rows[id].sinks;
      assert forall n: nat :: Finished(t.rows[id], n) ==> Finished(s.rows[id], n);
    }
  }

  lemma FreshClaim(s: State, a: Action, id: int)
    requires Inv(s) && FreshInv(s, id) && a.Claim?
    requires ClaimNumber(s, a, id).Some? ==> ClaimNumber(s, a, id).value == s.rows[id].attemptCount + 1
    ensures FreshInv(Next(s, a), id)
  {
    hide RequiredSinks, BackoffForAttempt;
    var t := Next(s, a);
    if id in s.rows {
      assert forall n: nat :: Finished(t.rows[id], n) ==> Finished(s.rows[id], n);
    }
    forall w | w in t.workers && t.workers[w].Holding? && t.workers[w].row == id && w != a.w
      ensures t.workers[w] == s.workers[w]
    {
    }
  }

  lemma FreshDeliver(s: State, a: Action, id: int)
    requires Inv(s) && FreshInv(s, id) && a.Deliver? && a.recordWritten
    ensures FreshInv(Next(s, a), id)
  {
    hide RequiredSinks, BackoffForAttempt;
    var t := Next(s, a);
    if t != s && s.workers[a.w].row == id {
      var h := s.workers[a.w];
      assert HolderOk(s, a.w);
      assert h.sinks[..h.next + 1] == h.sinks[..h.next] + [h.sinks[h.next]];
      assert forall w :: w in s.workers && s.workers[w].Holding? && s.workers[w].row == id ==> w == a.w;
      assert forall sink, n: nat :: AttemptKey(id, sink, n) in t.attempts <==>
        AttemptKey(id, sink, n) in s.attempts || (sink == h.sinks[h.next] && n == h.serial);
      assert forall sink :: AttemptKey(id, sink, h.serial) in t.attempts <==> sink in h.sinks[..h.next + 1];
      assert RecordsComplete(t, id);
    }
  }

  lemma FreshFinalize(s: State, a: Action, id: int)
    requires Inv(s) && FreshInv(s, id) && a.Finalize?
    ensures FreshInv(Next(s, a), id)
  {
    hide RequiredSinks, BackoffForAttempt;
    var t := Next(s, a);
    if t.rows != s.rows && s.workers[a.w].row == id {
      var h := s.workers[a.w];
      assert HolderOk(s, a.w);
      assert h.sinks[..h.next] == h.sinks;
    }
  }

  lemma EmptyIsComplete(id: int)
    ensures Inv(START) && NumbersInv(START, [], id) && FreshInv(START, id)
  {
  }

  lemma {:induction false} RunsKeepNumbers(actions: seq<Action>, id: int)
    ensures NumbersInv(Run(START, actions), Numbers(actions, id), id)
  {
    hide Next, Inv, NumbersInv, ClaimNumber;
    EmptyIsComplete(id);
    if actions != [] {
      var n := |actions| - 1;
      RunsKeepNumbers(actions[..n], id);
      RunsKeepInv(START, actions[..n]);
      NumbersStep(Run(START, actions[..n]), actions[n], Numbers(actions[..n], id), id);
    }
  }

  lemma {:induction false} FreshRunsAreComplete(actions: seq<Action>, id: int)
    requires forall a :: a in actions ==> Recorded(a)
    requires Fresh(Numbers(actions, id))
    ensures FreshInv(Run(START, actions), id)
  {
    hide Next, Inv, NumbersInv, FreshInv, ClaimNumber;
    EmptyIsComplete(id);
    if actions != [] {
      var n := |actions| - 1;
      var before, numbers := Run(START, actions[..n]), Numbers(actions[..n], id);
      var number := ClaimNumber(before, actions[n], id);
      assert Numbers(actions, id) == After(numbers, number);
      assert forall k :: 0 <= k < |numbers| ==> After(numbers, number)[k] == numbers[k];
      FreshRunsAreComplete(actions[..n], id);
      RunsKeepInv(START, actions[..n]);
      RunsKeepNumbers(actions[..n], id);
      if number.Some? {
        assert After(numbers, number)[|numbers|] == number.value;
        NumbersCount(before, actions[n], numbers, id);
      }
      assert actions[n] in actions;
      FreshStep(before, actions[n], id);
    }
  }

  lemma NumbersCount(s: State, a: Action, numbers: seq<nat>, id: int)
    requires NumbersInv(s, numbers, id) && ClaimNumber(s, a, id).Some?
    ensures id in s.rows && |numbers| == s.rows[id].attemptCount
  {
  }

  /** Numbers that stay below their position and cover 1 .. N are exactly 1 .. N in order. */
  lemma {:induction false} CoveringIsFresh(numbers: seq<nat>)
    requires forall k :: 0 <= k < |numbers| ==> numbers[k] <= k + 1
    requires forall n: nat :: 1 <= n <= |numbers| ==> n in numbers
    ensures Fresh(numbers)
  {
    if numbers != [] {
      var last := |numbers| - 1;
      assert last + 1 in numbers;
      assert numbers[last] == last + 1;
      forall n: nat | 1 <= n <= last
        ensures n in numbers[..last]
      {
        assert n in numbers;
        var k :| 0 <= k < |numbers| && numbers[k] == n;
        assert numbers[..last][k] == n;
      }
      CoveringIsFresh(numbers[..last]);
      assert forall k :: 0 <= k < last ==> numbers[k] == numbers[..last][k];
    }
  }

  /** For any number of workers: while attempt records are written, fresh claims keep a row's records
      complete; and once the row is not being delivered, its records are complete only if every one of
      its claims was fresh. */
  lemma CompleteIffFresh(actions: seq<Action>, id: int)
    requires id in Run(START, actions).rows
    ensures (forall a :: a in actions ==> Recorded(a)) && Fresh(Numbers(actions, id)) ==> RecordsComplete(Run(START, actions), id)
    ensures Run(START, actions).rows[id].status != Delivering && RecordsComplete(Run(START, actions), id) ==>
      Fresh(Numbers(actions, id))
  {
    hide Run, Numbers, RequiredSinks;
    var s, numbers := Run(START, actions), Numbers(actions, id);
    if (forall a :: a in actions ==> Recorded(a)) && Fresh(numbers) {
      FreshRunsAreComplete(actions, id);
    }
    RunsKeepNumbers(actions, id);
    if s.rows[id].status != Delivering && RecordsComplete(s, id) {
      forall n: nat | 1 <= n <= |numbers|
        ensures n in numbers
      {
        assert Finished(s.rows[id], n);
        assert AttemptKey(id, RequiredSinks(s.rows[id].sinks)[0], n) in s.attempts;
      }
      CoveringIsFresh(numbers);
    }
  }

  /** What the single worker does. */
  predicate ByTheWorker(a: Action) {
    match a
    case Select(w, _, _) => w == 0
    case Claim(w) => w == 0
    case Deliver(w, _, recordWritten) => w == 0 && recordWritten
    case Finalize(w, _, _) => w == 0
    case Crash(w) => w == 0
    case _ => true
  }

  ghost predicate OneWorker(s: State) {
    && s.workers.Keys <= {0}
    && (0 in s.workers && s.workers[0].Selected? ==>
          s.workers[0].row in s.rows && s.workers[0].seenAttempts == s.rows[s.workers[0].row].attemptCount)
  }

  lemma OneWorkerStep(s: State, a: Action)
    requires OneWorker(s) && ByTheWorker(a)
    ensures OneWorker(Next(s, a))
  {
    hide RequiredSinks, BackoffForAttempt;
  }

  lemma {:induction false} OneWorkerIsFresh(actions: seq<Action>, id: int)
    requires forall a :: a in actions ==> ByTheWorker(a)
    ensures OneWorker(Run(START, actions)) && Fresh(Numbers(actions, id))
  {
    hide Next, NumbersInv;
    if actions != [] {
      var n := |actions| - 1;
      var before, numbers := Run(START, actions[..n]), Numbers(actions[..n], id);
      OneWorkerIsFresh(actions[..n], id);
      assert actions[n] in actions;
      OneWorkerStep(before, actions[n]);
      RunsKeepNumbers(actions[..n], id);
      if ClaimNumber(before, actions[n], id).Some? {
        NumbersCount(before, actions[n], numbers, id);
      }
    }
  }

  /** With the single worker that is started every claim is fresh: whatever crashes and retries happen,
      every required sink has exactly one record for each finished attempt and no other sink has any. */
  lemma AttemptRecordsComplete(actions: seq<Action>)
    requires forall a :: a in actions ==> ByTheWorker(a)
    ensures forall id :: id in Run(START, actions).rows ==> RecordsComplete(Run(START, actions), id)
  {
    hide Run, Numbers, RecordsComplete;
    forall id | id in Run(START, actions).rows
      ensures RecordsComplete(Run(START, actions), id)
    {
      OneWorkerIsFresh(actions, id);
      CompleteIffFresh(actions, id);
    }
  }

  /** With two workers the number kept in memory can be stale: here the row's second attempt finishes
      without any record, because it was filed under the number of the first. */
  lemma StaleAttemptNumber()
    returns (actions: seq<Action>, s: State)
    ensures s == Run(START, actions)
    ensures 0 in s.rows && s.rows[0].attemptCount == 2 && s.rows[0].status == Delivered && Finished(s.rows[0], 2)
    ensures "a" in RequiredSinks(s.rows[0].sinks) && AttemptKey(0, "a", 2) !in s.attempts
    ensures AttemptKey(0, "a", 1) in s.attempts && !s.attempts[AttemptKey(0, "a", 1)]
  {
    hide RequiredSinks, BackoffForAttempt, Next;
    actions, s := TwoSelect();
    actions, s := OneAttempt(actions, s, 1, false);
    actions, s := OneAttempt(actions, s, 0, true);
  }

  /** Two workers read the same row before either claims it. */
  lemma TwoSelect()
    returns (actions: seq<Action>, s: State)
    ensures s == Run(START, actions)
    ensures s == State(map[0 := Row(Pending, 0, 0, true, Some(["a"]))], map[],
                       map[0 := Selected(0, 0, ["a"]), 1 := Selected(0, 0, ["a"])], {})
    ensures RequiredSinks(Some(["a"])) == ["a"]
  {
    hide RequiredSinks, BackoffForAttempt;
    OneSink();
    actions := [];
    s := START;
    RunNothing(s);
    actions, s := Then(actions, s, Enqueue(0, true, Some(["a"]), 0));
    actions, s := Then(actions, s, Select(0, 0, 0));
    actions, s := Then(actions, s, Select(1, 0, 0));
    assert s.workers == map[0 := Selected(0, 0, ["a"]), 1 := Selected(0, 0, ["a"])];
  }

  /** A worker that selected the row claims it, delivers it to its one sink and finalizes it. */
  lemma OneAttempt(actions: seq<Action>, s: State, w: int, accepted: bool)
    returns (longer: seq<Action>, t: State)
    requires s == Run(START, actions)
    requires 0 in s.rows && Claimable(s.rows[0]) && w in s.workers && s.workers[w] == Selected(0, 0, ["a"])
    ensures t == Run(START, longer)
    ensures t.rows.Keys == s.rows.Keys && t.rows[0].attemptCount == s.rows[0].attemptCount + 1
      && t.rows[0].status == (if accepted then Delivered else Failed) && t.rows[0].sinks == s.rows[0].sinks
    ensures t.workers == s.workers - {w}
    ensures t.attempts == if AttemptKey(0, "a", 1) in s.attempts then s.attempts else s.attempts[AttemptKey(0, "a", 1) := accepted]
  {
    hide RequiredSinks, BackoffForAttempt;
    longer, t := Then(actions, s, Claim(w));
    assert t.workers[w] == Holding(0, 1, s.rows[0].attemptCount + 1, ["a"], 0, true);
    longer, t := Then(longer, t, Deliver(w, accepted, true));
    assert t.workers[w].next == 1 && t.workers[w].allDelivered == accepted;
    longer, t := Then(longer, t, Finalize(w, 0, false));
    assert t.workers == s.workers - {w};
  }

  /** A worker that dies after its claim leaves an orphan. */
  lemma CrashOrphansRow()
    returns (actions: seq<Action>, s: State)
    ensures s == Run(START, actions) && Orphaned(s, 0)
  {
    hide RequiredSinks, BackoffForAttempt;
    actions, s := TwoSelect();
    actions, s := Then(actions, s, Claim(1));
    actions, s := Then(actions, s, Crash(1));
  }

  /** So does a finalize that fails, although every sink accepted. */
  lemma FailedFinalizeOrphansRow()
    returns (actions: seq<Action>, s: State)
    ensures s == Run(START, actions) && Orphaned(s, 0) && AcceptedByAll(s, 0)
  {
    hide RequiredSinks, BackoffForAttempt;
    actions, s := TwoSelect();
    actions, s := Then(actions, s, Claim(1));
    actions, s := Then(actions, s, Deliver(1, true, true));
    assert s.acks == {Acceptance(0, 1, "a")};
    actions, s := Then(actions, s, Finalize(1, 0, true));
  }

  /** An unreadable row at the head of the queue blocks a good one behind it. */
  lemma UnreadableRowBlocks()
    returns (actions: seq<Action>, s: State)
    ensures s == Run(START, actions) && 0 in s.rows && Blocking(s, 0, s.rows[0])
    ensures 1 in s.rows && Eligible(s.rows[1], 0) && !Poison(s.rows[1])
  {
    hide RequiredSinks, BackoffForAttempt;
    OneSink();
    actions := [];
    s := START;
    RunNothing(s);
    actions, s := Then(actions, s, Enqueue(0, false, Some(["a"]), 0));
    actions, s := Then(actions, s, Enqueue(1, true, Some(["a"]), 0));
  }

  lemma Then(actions: seq<Action>, s: State, a: Action)
    returns (longer: seq<Action>, t: State)
    requires s == Run(START, actions)
    ensures longer == actions + [a] && t == Next(s, a)
    ensures t == Run(START, longer)
  {
    longer, t := actions + [a], Next(s, a);
    RunOne(START, actions, a);
  }

  lemma OneSink()
    ensures RequiredSinks(Some(["a"])) == ["a"]
  {
    assert TrimLeft("a") == "a" && TrimRight("a") == "a";
    assert Normalized("a") == "a";
    assert Distinct(["a"][..0]) == [];
  }
}
