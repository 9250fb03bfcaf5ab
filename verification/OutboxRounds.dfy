/** What the outbox does to a row, in terms of the statuses, times and sink names themselves. */
module OutboxRounds {
  import opened Options
  import opened Text
  import opened Arithmetic
  import opened Outbox

  // ---------------------------------------------------------------------------------------
  // Sink names.
  // ---------------------------------------------------------------------------------------

  const WHITE: set<char> := {' ', '\t', '\n', 11 as char, 12 as char, '\r'}

  lemma SpacesAreWhite(c: char)
    ensures IsSpace(c) <==> c in WHITE
  {
  }

  /** A name is stripped of white space at both ends, and no further, and its letters A to Z become small. */
  lemma NormalizedMeans(s: string) returns (before: string, core: string, after: string)
    ensures s == before + core + after
    ensures (forall c :: c in before || c in after ==> c in WHITE)
    ensures core != "" ==> core[0] !in WHITE && core[|core| - 1] !in WHITE
    ensures |Normalized(s)| == |core|
    ensures forall i :: 0 <= i < |core| ==>
      Normalized(s)[i] as int == core[i] as int + if 'A' <= core[i] <= 'Z' then 'a' as int - 'A' as int else 0
  {
    var rest;
    before, rest := LeftTrimmed(s);
    core, after := RightTrimmed(rest);
    if core != "" {
      assert core[0] == rest[0];
    }
  }

  lemma {:induction false} LeftTrimmed(s: string) returns (before: string, rest: string)
    ensures rest == TrimLeft(s) && s == before + rest && forall c :: c in before ==> c in WHITE
    ensures rest != "" ==> rest[0] !in WHITE
  {
    if s != "" && IsSpace(s[0]) {
      SpacesAreWhite(s[0]);
      before, rest := LeftTrimmed(s[1..]);
      before := [s[0]] + before;
    } else {
      before, rest := "", s;
      if s != "" {
        SpacesAreWhite(s[0]);
      }
    }
  }

  lemma {:induction false} RightTrimmed(s: string) returns (core: string, after: string)
    ensures core == TrimRight(s) && s == core + after && forall c :: c in after ==> c in WHITE
    ensures core != "" ==> core[|core| - 1] !in WHITE
  {
    if s != "" && IsSpace(s[|s| - 1]) {
      SpacesAreWhite(s[|s| - 1]);
      core, after := RightTrimmed(s[..|s| - 1]);
      after := after + [s[|s| - 1]];
    } else {
      core, after := s, "";
      if s != "" {
        SpacesAreWhite(s[|s| - 1]);
      }
    }
  }

  /** `first` lists where the names appear first, in ascending order. */
  ghost predicate FirstPlaces(raw: seq<string>, names: seq<string>, first: seq<nat>) {
    && |first| == |names|
    && (forall i, j :: 0 <= i < j < |first| ==> first[i] < first[j])
    && (forall i :: 0 <= i < |first| ==> first[i] < |raw| && Normalized(raw[first[i]]) == names[i])
    && (forall i, r :: 0 <= i < |first| && 0 <= r < first[i] ==> Normalized(raw[r]) != names[i])
  }

  /** The required sinks stand in the order in which their names appear first in the column. */
  lemma {:induction false} SinksInOrder(raw: seq<string>) returns (first: seq<nat>)
    ensures FirstPlaces(raw, RequiredSinks(Some(raw)), first)
  {
    hide Normalized, FirstPlaces;
    if raw == [] {
      first := [];
      NoPlaces();
    } else {
      var n := |raw| - 1;
      var front := SinksInOrder(raw[..n]);
      var rest, last := Distinct(raw[..n]), Normalized(raw[n]);
      LongerColumn(raw, rest, front);
      if last == "" || last in rest {
        first := front;
      } else {
        forall r | 0 <= r < n
          ensures Normalized(raw[r]) != last
        {
          assert raw[..n][r] in raw[..n];
        }
        first := front + [n];
        OnePlaceMore(raw, rest, front);
      }
    }
  }

  lemma NoPlaces()
    ensures FirstPlaces([], [], [])
  {
  }

  lemma LongerColumn(raw: seq<string>, names: seq<string>, first: seq<nat>)
    requires raw != [] && FirstPlaces(raw[..|raw| - 1], names, first)
    ensures FirstPlaces(raw, names, first) && forall i :: 0 <= i < |first| ==> first[i] < |raw| - 1
  {
    hide Normalized;
    var front := raw[..|raw| - 1];
    assert forall r :: 0 <= r < |front| ==> front[r] == raw[r];
  }

  lemma OnePlaceMore(raw: seq<string>, names: seq<string>, first: seq<nat>)
    requires raw != [] && FirstPlaces(raw, names, first) && forall i :: 0 <= i < |first| ==> first[i] < |raw| - 1
    requires forall r :: 0 <= r < |raw| - 1 ==> Normalized(raw[r]) != Normalized(raw[|raw| - 1])
    ensures FirstPlaces(raw, names + [Normalized(raw[|raw| - 1])], first + [|raw| - 1])
  {
    hide Normalized;
  }

  // ---------------------------------------------------------------------------------------
  // Retry delay.
  // ---------------------------------------------------------------------------------------

  /** One second after the first attempt, doubled by each further one, 256 seconds from the ninth on. */
  lemma BackoffDoubles(attempt: int)
    ensures attempt <= 1 ==> BackoffForAttempt(attempt) == 1
    ensures 1 <= attempt < 9 ==> BackoffForAttempt(attempt + 1) == 2 * BackoffForAttempt(attempt)
    ensures attempt >= 9 ==> BackoffForAttempt(attempt) == 256
  {
    assert Pow2(0) == 1 && Pow2(8) == 256;
  }

  // ---------------------------------------------------------------------------------------
  // One round.
  // ---------------------------------------------------------------------------------------

  predicate Waits(row: Row, now: int) { row.status in {Pending, Failed} && row.nextAttempt <= now }

  /** The row that is taken next: due, with the least id, readable and with sinks. */
  predicate NextUp(rows: map<int, Row>, k: int, now: int) {
    && k in rows && rows[k].status in {Pending, Failed} && rows[k].nextAttempt <= now
    && (forall j :: j in rows && rows[j].status in {Pending, Failed} && rows[j].nextAttempt <= now ==> k <= j)
    && rows[k].payloadReadable && RequiredSinks(rows[k].sinks) != []
  }

  function Taken(row: Row): Row { row.(status := Delivering, attemptCount := row.attemptCount + 1) }

  lemma TakeNext(s: State, w: int, now: int, k: int)
    requires w !in s.workers && NextUp(s.rows, k, now)
    ensures Run(s, [Select(w, k, now), Claim(w)])
      == s.(rows := s.rows[k := Taken(s.rows[k])],
            workers := s.workers[w := Holding(k, s.rows[k].attemptCount + 1, s.rows[k].attemptCount + 1, RequiredSinks(s.rows[k].sinks), 0, true)])
  {
    hide RequiredSinks;
    RunNothing(s);
    RunOne(s, [], Select(w, k, now));
    RunOne(s, [Select(w, k, now)], Claim(w));
    assert [] + [Select(w, k, now)] == [Select(w, k, now)];
    assert [Select(w, k, now)] + [Claim(w)] == [Select(w, k, now), Claim(w)];
    var t := Next(s, Select(w, k, now));
    assert t.workers[w] == Selected(k, s.rows[k].attemptCount, RequiredSinks(s.rows[k].sinks));
  }

  ghost predicate AllAccept(answers: nat -> Answer, n: nat) { forall i: nat :: i < n ==> answers(i).accepted }

  /** After `n` deliveries of a claim. */
  ghost predicate Delivered(s: State, t: State, w: int, h: Worker, answers: nat -> Answer, n: nat)
    requires h.Holding? && n <= |h.sinks|
  {
    && t.rows == s.rows
    && t.workers == s.workers[w := h.(next := n, allDelivered := AllAccept(answers, n))]
    && Noted(s.attempts, t.attempts, h, answers, n)
  }

  /** The records are as before, with each recorded answer that has no record yet. */
  ghost predicate Noted(before: map<AttemptKey, bool>, after: map<AttemptKey, bool>, h: Worker, answers: nat -> Answer, n: nat)
    requires h.Holding? && n <= |h.sinks|
  {
    && (forall key :: key in before ==> key in after && after[key] == before[key])
    && (forall i: nat :: i < n && answers(i).recordWritten && AttemptKey(h.row, h.sinks[i], h.attemptNo) !in before ==>
          AttemptKey(h.row, h.sinks[i], h.attemptNo) in after
          && after[AttemptKey(h.row, h.sinks[i], h.attemptNo)] == answers(i).accepted)
    && (forall key :: key in after && key !in before ==>
          key.row == h.row && key.attemptNo == h.attemptNo && exists i: nat :: i < n && h.sinks[i] == key.sink && answers(i).recordWritten)
  }

  lemma {:induction false} DeliveriesOf(s: State, w: int, h: Worker, answers: nat -> Answer, n: nat)
    requires w in s.workers && s.workers[w] == h && h.Holding? && h.next == 0 && h.allDelivered && n <= |h.sinks|
    requires forall i, j :: 0 <= i < j < |h.sinks| ==> h.sinks[i] != h.sinks[j]
    ensures Delivered(s, Run(s, Deliveries(w, answers, n)), w, h, answers, n)
  {
    if n == 0 {
      RunNothing(s);
      assert s.workers[w := h.(next := 0, allDelivered := true)] == s.workers;
    } else {
      DeliveriesOf(s, w, h, answers, n - 1);
      var mid := Run(s, Deliveries(w, answers, n - 1));
      var a := Deliver(w, answers(n - 1).accepted, answers(n - 1).recordWritten);
      hide Run, Deliveries;
      assert Run(s, Deliveries(w, answers, n)) == Next(mid, a) by { DeliverLast(s, w, answers, n); }
      DeliverStep(s, mid, w, h, answers, n);
    }
  }

  lemma DeliverLast(s: State, w: int, answers: nat -> Answer, n: nat)
    requires n > 0
    ensures Run(s, Deliveries(w, answers, n))
      == Next(Run(s, Deliveries(w, answers, n - 1)), Deliver(w, answers(n - 1).accepted, answers(n - 1).recordWritten))
  {
    RunOne(s, Deliveries(w, answers, n - 1), Deliver(w, answers(n - 1).accepted, answers(n - 1).recordWritten));
  }

  lemma DeliverStep(s: State, mid: State, w: int, h: Worker, answers: nat -> Answer, n: nat)
    requires w in s.workers && h.Holding? && 0 < n <= |h.sinks| && Delivered(s, mid, w, h, answers, n - 1)
    requires forall i, j :: 0 <= i < j < |h.sinks| ==> h.sinks[i] != h.sinks[j]
    ensures Delivered(s, Next(mid, Deliver(w, answers(n - 1).accepted, answers(n - 1).recordWritten)), w, h, answers, n)
  {
    hide Noted;
    var answer := answers(n - 1);
    var key := AttemptKey(h.row, h.sinks[n - 1], h.attemptNo);
    assert AllAccept(answers, n) <==> AllAccept(answers, n - 1) && answer.accepted;
    NoteStep(s.attempts, mid.attempts, h, answers, n);
  }

  lemma NoteStep(before: map<AttemptKey, bool>, mid: map<AttemptKey, bool>, h: Worker, answers: nat -> Answer, n: nat)
    requires h.Holding? && 0 < n <= |h.sinks| && Noted(before, mid, h, answers, n - 1)
    requires forall i, j :: 0 <= i < j < |h.sinks| ==> h.sinks[i] != h.sinks[j]
    ensures
      var key := AttemptKey(h.row, h.sinks[n - 1], h.attemptNo);
      Noted(before, if answers(n - 1).recordWritten && key !in mid then mid[key := answers(n - 1).accepted] else mid, h, answers, n)
  {
    var key := AttemptKey(h.row, h.sinks[n - 1], h.attemptNo);
    assert key in mid ==> key in before;
    var last: nat := n - 1;
    assert h.sinks[last] == key.sink;
  }

  /** A whole round on the row that is next up: it counts one attempt more, and ends delivered if every
      sink accepted, or else failed until the retry delay is over.  Each answer is recorded as it was, and
      every other row and record is as before. */
  lemma RoundOutcome(s: State, w: int, now: int, round: Round, k: int)
    requires w !in s.workers && NextUp(s.rows, k, now) && !round.finalizeFails
    ensures
      var row, sinks := s.rows[k], RequiredSinks(s.rows[k].sinks);
      var t := Run(s, RoundTrace(s.rows, w, now, round, k));
      && t.rows == s.rows[k := if AllAccept(round.answers, |sinks|) then row.(status := RowStatus.Delivered, attemptCount := row.attemptCount + 1)
                               else row.(status := Failed, attemptCount := row.attemptCount + 1,
                                         nextAttempt := now + BackoffForAttempt(row.attemptCount + 1))]
      && t.workers == s.workers
      && (forall key :: key in s.attempts ==> key in t.attempts && t.attempts[key] == s.attempts[key])
      && (forall i: nat :: i < |sinks| && round.answers(i).recordWritten && AttemptKey(k, sinks[i], row.attemptCount + 1) !in s.attempts ==>
            AttemptKey(k, sinks[i], row.attemptCount + 1) in t.attempts
            && t.attempts[AttemptKey(k, sinks[i], row.attemptCount + 1)] == round.answers(i).accepted)
  {
    hide Run, RequiredSinks, BackoffForAttempt, Deliveries;
    var row, sinks := s.rows[k], RequiredSinks(s.rows[k].sinks);
    var take, deliver, finalize := [Select(w, k, now), Claim(w)], Deliveries(w, round.answers, |sinks|), [Finalize(w, now, false)];
    TakeNext(s, w, now, k);
    var held := Run(s, take);
    var h := held.workers[w];
    SinksDiffer(row.sinks);
    DeliveriesOf(held, w, h, round.answers, |sinks|);
    RunAppend(s, take, deliver);
    var done := Run(held, deliver);
    RunAppend(s, take + deliver, finalize);
    RunNothing(done);
    RunOne(done, [], Finalize(w, now, false));
    assert [] + finalize == finalize;
    assert RoundTrace(s.rows, w, now, round, k) == take + deliver + finalize;
    FinalizeOutcome(s, held, done, w, now, round.answers, k, h);
  }

  lemma SinksDiffer(raw: Option<seq<string>>)
    ensures forall i, j :: 0 <= i < j < |RequiredSinks(raw)| ==> RequiredSinks(raw)[i] != RequiredSinks(raw)[j]
  {
  }

  lemma FinalizeOutcome(s: State, held: State, done: State, w: int, now: int, answers: nat -> Answer, k: int, h: Worker)
    requires k in s.rows && w !in s.workers && held.rows == s.rows[k := Taken(s.rows[k])] && held.workers == s.workers[w := h]
    requires h == Holding(k, s.rows[k].attemptCount + 1, s.rows[k].attemptCount + 1, RequiredSinks(s.rows[k].sinks), 0, true)
    requires held.attempts == s.attempts && Delivered(held, done, w, h, answers, |h.sinks|)
    ensures
      var row, t := s.rows[k], Next(done, Finalize(w, now, false));
      && t.rows == s.rows[k := if AllAccept(answers, |h.sinks|) then row.(status := RowStatus.Delivered, attemptCount := row.attemptCount + 1)
                               else row.(status := Failed, attemptCount := row.attemptCount + 1,
                                         nextAttempt := now + BackoffForAttempt(row.attemptCount + 1))]
      && t.workers == s.workers && t.attempts == done.attempts
  {
    hide RequiredSinks, BackoffForAttempt, AllAccept;
    var t := Next(done, Finalize(w, now, false));
    assert done.workers[w].next == |h.sinks|;
    assert t.workers == s.workers;
  }

  /** A row that failed at `now` is taken again once its delay is over and no row with a lesser id is due. */
  lemma FailedRowIsTakenAgain(s: State, w: int, now: int, round: Round, k: int, later: int)
    requires w !in s.workers && NextUp(s.rows, k, now) && !round.finalizeFails
    requires !AllAccept(round.answers, |RequiredSinks(s.rows[k].sinks)|)
    requires later >= now + BackoffForAttempt(s.rows[k].attemptCount + 1)
    requires forall j :: j in s.rows && j < k ==> s.rows[j].status !in {Pending, Failed} || s.rows[j].nextAttempt > later
    ensures
      var t := Run(s, RoundTrace(s.rows, w, now, round, k));
      && k in t.rows && t.rows[k].status == Failed && NextUp(t.rows, k, later)
      && Run(t, [Select(w, k, later), Claim(w)]).workers
         == t.workers[w := Holding(k, s.rows[k].attemptCount + 2, s.rows[k].attemptCount + 2, RequiredSinks(s.rows[k].sinks), 0, true)]
  {
    hide Run, RequiredSinks, BackoffForAttempt, AllAccept, RoundTrace;
    RoundOutcome(s, w, now, round, k);
    var t := Run(s, RoundTrace(s.rows, w, now, round, k));
    TakeNext(t, w, later, k);
  }

  /** A row that is being delivered, delivered or quarantined is neither selected nor claimed. */
  lemma OtherRowsAreLeft(s: State, w: int, k: int, now: int)
    requires k in s.rows && s.rows[k].status in {Delivering, RowStatus.Delivered, Quarantined}
    ensures Next(s, Select(w, k, now)) == s
    ensures w in s.workers && s.workers[w].row == k && s.workers[w].Selected? ==> Next(s, Claim(w)) == s.(workers := s.workers - {w})
  {
    hide RequiredSinks;
  }

  /** A manual retry makes a failed or quarantined row due at once, and touches no other row. */
  lemma RetryMakesDue(s: State, k: int, now: int)
    requires k in s.rows
    ensures Next(s, Retry(k, now))
      == if s.rows[k].status in {Failed, Quarantined}
         then s.(rows := s.rows[k := s.rows[k].(status := Pending, nextAttempt := now)]) else s
    ensures s.rows[k].status in {Failed, Quarantined} ==> Waits(Next(s, Retry(k, now)).rows[k], now)
  {
  }

  /** A new row is pending, without attempts, and due at once; an id is never used twice. */
  lemma EnqueueMeans(s: State, k: int, payloadReadable: bool, sinks: Option<seq<string>>, now: int)
    ensures Next(s, Enqueue(k, payloadReadable, sinks, now))
      == if k in s.rows then s else s.(rows := s.rows[k := Row(Pending, 0, now, payloadReadable, sinks)])
    ensures k !in s.rows ==> Waits(Next(s, Enqueue(k, payloadReadable, sinks, now)).rows[k], now)
  {
  }
}
