/** Where each event of the election state machine leads (election_fsm.go), and the course of an election. */
module ElectionCourse {
  import opened Options
  import opened ElectionLifecycle

  /** Where an event leads from a status, if it is possible there. */
  function Target(from: Status, event: Event): Option<Status> {
    match event
    case Schedule => if from == Draft then Some(Scheduled) else None
    case Activate => if from == Scheduled then Some(Active) else None
    case OpenVoting => if from == Active then Some(Voting) else None
    case CloseVoting => if from == Voting then Some(Collating) else None
    case Finalize => if from == Collating then Some(Closed) else None
    case Cancel => if from in {Draft, Scheduled} then Some(Cancelled) else None
    case Dispute => if from == Closed then Some(Disputed) else None
    case ResolveDispute => if from == Disputed then Some(Closed) else None
    case Postpone => if from == Scheduled then Some(Postponed) else None
    case Reschedule => if from == Postponed then Some(Scheduled) else None
    case Suspend => if from in {Active, Voting, Collating} then Some(Suspended) else None
    case ResumeActive => if from == Suspended then Some(Active) else None
    case ResumeVoting => if from == Suspended then Some(Voting) else None
    case ResumeCollating => if from == Suspended then Some(Collating) else None
    case Declare => if from in {Collating, Closed} then Some(Declared) else None
    case Unknown(_) => None
  }

  /** Cancelling, suspending, resuming, postponing and resolving a dispute are free; all else is guarded. */
  predicate Guarded(event: Event) {
    event in {Schedule, Activate, OpenVoting, CloseVoting, Finalize, Dispute, Reschedule, Declare}
  }

  lemma EntryMeans(k: nat)
    requires k < |ELECTION_FSM|
    ensures Target(ELECTION_FSM[k].from, ELECTION_FSM[k].event) == Some(ELECTION_FSM[k].to)
    ensures ELECTION_FSM[k].guarded <==> Guarded(ELECTION_FSM[k].event)
  {
  }

  lemma {:induction false} NoEntryBefore(status: Status, event: Event, i: nat, k: nat)
    requires i <= k < |ELECTION_FSM| && ELECTION_FSM[k].from == status && ELECTION_FSM[k].event == event
    ensures Lookup(status, event, i) <= k
    decreases k - i
  {
    hide ELECTION_FSM;
    if i < k {
      NoEntryBefore(status, event, i + 1, k);
    }
  }

  lemma TargetHasEntry(status: Status, event: Event) returns (k: nat)
    requires Target(status, event).Some?
    ensures k < |ELECTION_FSM| && ELECTION_FSM[k].from == status && ELECTION_FSM[k].event == event
  {
    match event
    case Schedule => k := 0;
    case Activate => k := 1;
    case OpenVoting => k := 2;
    case CloseVoting => k := 3;
    case Finalize => k := 4;
    case Cancel => k := if status == Scheduled then 5 else 6;
    case Dispute => k := 7;
    case ResolveDispute => k := 8;
    case Postpone => k := 9;
    case Reschedule => k := 10;
    case Suspend => k := if status == Active then 11 else if status == Voting then 12 else 13;
    case ResumeActive => k := 14;
    case ResumeVoting => k := 15;
    case ResumeCollating => k := 16;
    case Declare => k := if status == Collating then 17 else 18;
  }

  /** A step of the state machine moves the election where the event leads and logs it, unless the event is
      not possible or its guard fails. */
  lemma StepMeans(row: Row, event: Event, guardPasses: bool)
    ensures var to := Target(row.status, event);
      Next(row, Fsm(event, guardPasses))
      == if to.None? || (Guarded(event) && !guardPasses) then row
         else row.(status := to.value, log := row.log + [LogEntry(row.status, to.value, event)])
  {
    hide ELECTION_FSM, Lookup, Target;
    LookupMatches(row.status, event, 0);
    var r := Lookup(row.status, event, 0);
    if r < |ELECTION_FSM| {
      EntryMeans(r);
    } else if Target(row.status, event).Some? {
      var k := TargetHasEntry(row.status, event);
      NoEntryBefore(row.status, event, 0, k);
    }
  }

  /** The declare endpoint moves to declared from collating, closed or disputed, once, if the rules pass. */
  lemma EndpointMeans(row: Row, rulesPass: bool)
    ensures Next(row, DeclareEndpoint(rulesPass))
      == if rulesPass && !row.declaredAt && row.status in {Collating, Closed, Disputed}
         then Row(Declared, true, row.log + [LogEntry(row.status, Declared, Declare)]) else row
  {
  }

  /** While no guard passes an election is only cancelled, postponed, suspended, resumed, or its dispute
      resolved. */
  lemma GuardsHoldBack(row: Row, event: Event)
    ensures var to := Next(row, Fsm(event, false)).status;
      || to == row.status
      || (to == Cancelled && row.status in {Draft, Scheduled})
      || (to == Postponed && row.status == Scheduled)
      || (to == Suspended && row.status in {Active, Voting, Collating})
      || (to in {Active, Voting, Collating} && row.status == Suspended)
      || (to == Closed && row.status == Disputed)
  {
    StepMeans(row, event, false);
  }

  function Passing(events: seq<Event>): seq<Action> {
    if events == [] then [] else Passing(events[..|events| - 1]) + [Fsm(events[|events| - 1], true)]
  }

  /** One event more, with its guard passing. */
  lemma Then(start: Row, events: seq<Event>, row: Row, event: Event) returns (longer: seq<Event>, next: Row)
    requires Run(start, Passing(events)) == row && Target(row.status, event).Some?
    ensures longer == events + [event] && Run(start, Passing(longer)) == next
    ensures var to := Target(row.status, event).value; next == row.(status := to, log := row.log + [LogEntry(row.status, to, event)])
  {
    hide Next;
    longer, next := events + [event], Next(row, Fsm(event, true));
    assert longer[..|events|] == events;
    RunOne(start, Passing(events), Fsm(event, true));
    StepMeans(row, event, true);
  }

  /** The ordinary course of an election, with its log. */
  lemma OrdinaryCourse() returns (row: Row)
    ensures row == Run(Row(Draft, false, []), Passing([Schedule, Activate, OpenVoting, CloseVoting, Finalize, Declare]))
    ensures row == Row(Declared, false, [LogEntry(Draft, Scheduled, Schedule), LogEntry(Scheduled, Active, Activate),
                                         LogEntry(Active, Voting, OpenVoting), LogEntry(Voting, Collating, CloseVoting),
                                         LogEntry(Collating, Closed, Finalize), LogEntry(Closed, Declared, Declare)])
  {
    hide Run, Passing, Next;
    var start := Row(Draft, false, []);
    NothingRun(start);
    var events: seq<Event>;
    events, row := Then(start, [], start, Schedule);
    events, row := Then(start, events, row, Activate);
    events, row := Then(start, events, row, OpenVoting);
    events, row := Then(start, events, row, CloseVoting);
    events, row := Then(start, events, row, Finalize);
    events, row := Then(start, events, row, Declare);
    assert events == [Schedule, Activate, OpenVoting, CloseVoting, Finalize, Declare];
  }

  lemma NothingRun(row: Row)
    ensures Run(row, Passing([])) == row
  {
  }
}
