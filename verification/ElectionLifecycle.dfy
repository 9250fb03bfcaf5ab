/** The election state machine and its two writers: `TransitionElection` (election_fsm.go) and the
    declare endpoint (election_lifecycle.go).  Both hold the election's row lock, so each call is
    one atomic step. */
module ElectionLifecycle {

  datatype Status =
    | Draft | Scheduled | Active | Voting | Collating | Closed
    | Cancelled | Disputed | Suspended | Postponed | Declared

  /** The event names of the table; a request may carry any other text. */
  datatype Event =
    | Schedule | Activate | OpenVoting | CloseVoting | Finalize | Cancel | Dispute | ResolveDispute
    | Postpone | Reschedule | Suspend | ResumeActive | ResumeVoting | ResumeCollating | Declare
    | Unknown(text: string)

  datatype Transition = Transition(from: Status, to: Status, event: Event, guarded: bool)

  const ELECTION_FSM: seq<Transition> := [
    Transition(Draft, Scheduled, Schedule, true),
    Transition(Scheduled, Active, Activate, true),
    Transition(Active, Voting, OpenVoting, true),
    Transition(Voting, Collating, CloseVoting, true),
    Transition(Collating, Closed, Finalize, true),
    Transition(Scheduled, Cancelled, Cancel, false),
    Transition(Draft, Cancelled, Cancel, false),
    Transition(Closed, Disputed, Dispute, true),
    Transition(Disputed, Closed, ResolveDispute, false),
    Transition(Scheduled, Postponed, Postpone, false),
    Transition(Postponed, Scheduled, Reschedule, true),
    Transition(Active, Suspended, Suspend, false),
    Transition(Voting, Suspended, Suspend, false),
    Transition(Collating, Suspended, Suspend, false),
    Transition(Suspended, Active, ResumeActive, false),
    Transition(Suspended, Voting, ResumeVoting, false),
    Transition(Suspended, Collating, ResumeCollating, false),
    Transition(Collating, Declared, Declare, true),
    Transition(Closed, Declared, Declare, true)
  ]

  datatype LogEntry = LogEntry(from: Status, to: Status, event: Event)

  /** The elections row with the state-log rows that belong to it. */
  datatype Row = Row(status: Status, declaredAt: bool, log: seq<LogEntry>)

  /** `guardPasses` and `rulesPass` stand for the queries of the guard and of the assessment. */
  datatype Action = Fsm(event: Event, guardPasses: bool) | DeclareEndpoint(rulesPass: bool)

  /** The first table entry, from position `k` on, that matches. */
  function Lookup(status: Status, event: Event, k: nat): (r: nat)
    requires k <= |ELECTION_FSM|
    ensures k <= r <= |ELECTION_FSM|
    decreases |ELECTION_FSM| - k
  {
    if k == |ELECTION_FSM| || (ELECTION_FSM[k].from == status && ELECTION_FSM[k].event == event) then k
    else Lookup(status, event, k + 1)
  }

  ghost function Next(row: Row, action: Action): Row {
    match action
    case Fsm(event, guardPasses) =>
      var k := Lookup(row.status, event, 0);
      if k == |ELECTION_FSM| || (ELECTION_FSM[k].guarded && !guardPasses) then row
      else row.(status := ELECTION_FSM[k].to, log := row.log + [LogEntry(row.status, ELECTION_FSM[k].to, event)])
    case DeclareEndpoint(rulesPass) =>
      if row.declaredAt || row.status !in {Collating, Closed, Disputed} || !rulesPass then row
      else Row(Declared, true, row.log + [LogEntry(row.status, Declared, Declare)])
  }

  class Election {
    var status: Status
    var declaredAt: bool
    var log: seq<LogEntry>

    ghost function State(): Row
      reads this
    {
      Row(status, declaredAt, log)
    }

    constructor (initial: Status)
      ensures State() == Row(initial, false, [])
    {
      status, declaredAt, log := initial, false, [];
    }

    method TransitionElection(event: Event, guardPasses: bool) returns (ok: bool)
      modifies this
      ensures State() == Next(old(State()), Fsm(event, guardPasses))
      ensures ok <==> log != old(log)
    {
      hide ELECTION_FSM;
      var current := status;
      var i := 0;
      while i < |ELECTION_FSM|
        invariant i <= |ELECTION_FSM| && Lookup(current, event, 0) == Lookup(current, event, i)
      {
        var t := ELECTION_FSM[i];
        if t.from == current && t.event == event {
          if t.guarded && !guardPasses {
            return false;
          }
          status := t.to;
          log := log + [LogEntry(t.from, t.to, event)];
          return true;
        }
        i := i + 1;
      }
      return false;
    }

    method HandleDeclareResult(rulesPass: bool) returns (ok: bool)
      modifies this
      ensures State() == Next(old(State()), DeclareEndpoint(rulesPass))
      ensures ok <==> log != old(log)
    {
      if declaredAt {
        return false;
      }
      if status != Collating && status != Closed && status != Disputed {
        return false;
      }
      if !rulesPass {
        return false;
      }
      log := log + [LogEntry(status, Declared, Declare)];
      status, declaredAt := Declared, true;
      return true;
    }
  }

  // ---------------------------------------------------------------------------------------
  // One step.
  // ---------------------------------------------------------------------------------------

  ghost predicate Terminal(s: Status) { s == Declared || s == Cancelled }

  /** The states from which an election can no longer be withdrawn. */
  ghost predicate Opened(s: Status) {
    s in {Active, Voting, Collating, Closed, Disputed, Suspended, Declared}
  }

  /** The states that only a collated election can be in. */
  ghost predicate Counted(s: Status) { s in {Collating, Closed, Disputed, Declared} }

  ghost predicate Edge(from: Status, to: Status, event: Event) {
    || (event == Declare && from in {Collating, Closed, Disputed} && to == Declared)
    || exists k :: 0 <= k < |ELECTION_FSM| && ELECTION_FSM[k].from == from && ELECTION_FSM[k].to == to
                   && ELECTION_FSM[k].event == event
  }

  ghost predicate GoodEdge(from: Status, to: Status, event: Event) {
    && !Terminal(from)
    && (Opened(from) ==> Opened(to))
    && (Opened(to) && !Opened(from) ==> to == Active)
    && (Counted(to) && !Counted(from) ==> to == Collating)
    && (to == Collating && !Counted(from) ==> from == Voting || event == ResumeCollating)
    && (to == Declared ==> Counted(from))
  }

  lemma TableIsGood(k: nat)
    requires k < |ELECTION_FSM|
    ensures GoodEdge(ELECTION_FSM[k].from, ELECTION_FSM[k].to, ELECTION_FSM[k].event)
  {
  }

  /** What the whole transition graph allows. */
  lemma EdgeShape(from: Status, to: Status, event: Event)
    requires Edge(from, to, event)
    ensures GoodEdge(from, to, event)
  {
    hide ELECTION_FSM;
    if k: nat :| k < |ELECTION_FSM| && ELECTION_FSM[k].from == from && ELECTION_FSM[k].to == to && ELECTION_FSM[k].event == event {
      TableIsGood(k);
    }
  }

  lemma LookupMatches(status: Status, event: Event, k: nat)
    requires k <= |ELECTION_FSM|
    ensures
      var r := Lookup(status, event, k);
      r < |ELECTION_FSM| ==> ELECTION_FSM[r].from == status && ELECTION_FSM[r].event == event
    decreases |ELECTION_FSM| - k
  {
  }

  lemma StepIsEdge(row: Row, action: Action)
    ensures
      var next := Next(row, action);
      next == row
      || (exists event :: Edge(row.status, next.status, event)
                          && next.log == row.log + [LogEntry(row.status, next.status, event)])
  {
    hide Lookup, ELECTION_FSM;
    var next := Next(row, action);
    if next != row {
      match action
      case Fsm(event, _) =>
        LookupMatches(row.status, event, 0);
        assert Edge(row.status, next.status, event);
      case DeclareEndpoint(_) =>
        assert Edge(row.status, next.status, Declare);
    }
  }

  // ---------------------------------------------------------------------------------------
  // Every run.
  // ---------------------------------------------------------------------------------------

  ghost function Run(row: Row, actions: seq<Action>): Row {
    if actions == [] then row
    else Next(Run(row, actions[..|actions| - 1]), actions[|actions| - 1])
  }

  /** The log is a connected path of allowed edges from `start` to `end`. */
  ghost predicate Path(start: Status, log: seq<LogEntry>, end: Status) {
    if log == [] then start == end
    else
      var last := log[|log| - 1];
      last.to == end && Edge(last.from, last.to, last.event) && Path(start, log[..|log| - 1], last.from)
  }

  lemma {:induction false} LogIsPath(start: Status, actions: seq<Action>)
    ensures var row := Run(Row(start, false, []), actions); Path(start, row.log, row.status)
  {
    hide Next, Edge;
    if actions != [] {
      var before := Run(Row(start, false, []), actions[..|actions| - 1]);
      LogIsPath(start, actions[..|actions| - 1]);
      StepIsEdge(before, actions[|actions| - 1]);
      var row := Run(Row(start, false, []), actions);
      if row != before {
        assert row.log[..|row.log| - 1] == before.log;
      }
    }
  }

  lemma {:induction false} TerminalIsAbsorbing(row: Row, actions: seq<Action>)
    requires Terminal(row.status)
    ensures Run(row, actions) == row
  {
    hide Next, Edge;
    if actions != [] {
      TerminalIsAbsorbing(row, actions[..|actions| - 1]);
      StepIsEdge(row, actions[|actions| - 1]);
      forall to, event | Edge(row.status, to, event)
        ensures false
      {
        EdgeShape(row.status, to, event);
      }
    }
  }

  lemma {:induction false} OpenedStaysOpened(row: Row, actions: seq<Action>)
    requires Opened(row.status)
    ensures Opened(Run(row, actions).status)
    ensures Run(row, actions).status !in {Draft, Scheduled, Postponed, Cancelled}
  {
    hide Next, Edge;
    if actions != [] {
      var before := Run(row, actions[..|actions| - 1]);
      OpenedStaysOpened(row, actions[..|actions| - 1]);
      StepIsEdge(before, actions[|actions| - 1]);
      var next := Run(row, actions);
      if next != before {
        var event :| Edge(before.status, next.status, event);
        EdgeShape(before.status, next.status, event);
      }
    }
  }

  /** A path passes through no terminal state before its end: at most one declaration. */
  lemma {:induction false} OneDeclaration(start: Status, log: seq<LogEntry>, end: Status, i: nat)
    requires Path(start, log, end) && i < |log| && Terminal(log[i].to)
    ensures i == |log| - 1
  {
    hide Edge;
    var n := |log| - 1;
    if i < n {
      OneDeclaration(start, log[..n], log[n].from, i);
      EdgeShape(log[n].from, log[n].to, log[n].event);
      assert false;
    }
  }

  ghost predicate Enters(log: seq<LogEntry>, i: int, s: Status) { 0 <= i < |log| && log[i].to == s }

  ghost predicate ActiveThenCollating(log: seq<LogEntry>) {
    exists i, j :: i < j && Enters(log, i, Active) && Enters(log, j, Collating)
  }

  lemma EntersLonger(log: seq<LogEntry>, n: nat, s: Status)
    requires n <= |log|
    ensures forall i :: Enters(log[..n], i, s) ==> Enters(log, i, s)
  {
  }

  lemma {:induction false} MilestonesOfPath(start: Status, log: seq<LogEntry>, end: Status)
    requires Path(start, log, end) && !Opened(start)
    ensures Opened(end) ==> exists i :: Enters(log, i, Active)
    ensures Counted(end) ==> ActiveThenCollating(log)
  {
    hide Edge;
    if log != [] {
      var n := |log| - 1;
      var last := log[n];
      MilestonesOfPath(start, log[..n], last.from);
      EdgeShape(last.from, last.to, last.event);
      EntersLonger(log, n, Active);
      EntersLonger(log, n, Collating);
      if Opened(end) && !Opened(last.from) {
        assert Enters(log, n, Active);
      }
      if Counted(end) && !Counted(last.from) {
        assert Enters(log, n, Collating);
        if Opened(last.from) {
          var i :| Enters(log[..n], i, Active);
          assert Enters(log, i, Active) && i < n;
        }
      }
    }
  }

  /** Every election declared by either writer was first activated and then collated. */
  lemma DeclaredWasCollated(start: Status, actions: seq<Action>)
    requires start in {Draft, Scheduled, Postponed}
    ensures
      var row := Run(Row(start, false, []), actions);
      row.status == Declared ==> ActiveThenCollating(row.log)
  {
    hide Next, Edge;
    var row := Run(Row(start, false, []), actions);
    LogIsPath(start, actions);
    MilestonesOfPath(start, row.log, row.status);
  }

  /** The edges around a suspension. */
  lemma SuspensionEdges(from: Status, to: Status, event: Event)
    requires Edge(from, to, event)
    ensures to == Suspended ==> from in {Active, Voting, Collating}
    ensures event == ResumeCollating ==> from == Suspended
  {
    hide ELECTION_FSM;
    if k: nat :| k < |ELECTION_FSM| && ELECTION_FSM[k].from == from && ELECTION_FSM[k].to == to && ELECTION_FSM[k].event == event {
      SuspensionEntries(k);
    }
  }

  lemma SuspensionEntries(k: nat)
    requires k < |ELECTION_FSM|
    ensures ELECTION_FSM[k].to == Suspended ==> ELECTION_FSM[k].from in {Active, Voting, Collating}
    ensures ELECTION_FSM[k].event == ResumeCollating ==> ELECTION_FSM[k].from == Suspended
  {
  }

  /** Entry `c` resumes into collation an election that was suspended before it voted. */
  ghost predicate SkipsVoting(log: seq<LogEntry>, c: int) {
    0 < c < |log| && log[c].event == ResumeCollating && log[c - 1].from == Active
  }

  /** Voting is passed as well, unless collation was resumed out of a suspension from `active` ... */
  lemma {:induction false} CountedWasVoted(start: Status, log: seq<LogEntry>, end: Status)
    requires Path(start, log, end) && !Opened(start) && Counted(end)
    requires forall c :: !SkipsVoting(log, c)
    ensures exists i :: Enters(log, i, Voting)
    decreases |log|
  {
    hide Edge;
    var n := |log| - 1;
    var last := log[n];
    EdgeShape(last.from, last.to, last.event);
    EntersLonger(log, n, Voting);
    assert forall c :: SkipsVoting(log[..n], c) ==> SkipsVoting(log, c);
    if Counted(last.from) {
      CountedWasVoted(start, log[..n], last.from);
    } else if last.from == Voting {
      assert n > 0 && Enters(log[..n], n - 1, Voting);
    } else {
      SuspensionEdges(last.from, last.to, last.event);
      assert !SkipsVoting(log, n);
      SuspendedAfterVoting(start, log[..n]);
    }
  }

  lemma {:induction false} SuspendedAfterVoting(start: Status, log: seq<LogEntry>)
    requires Path(start, log, Suspended) && !Opened(start)
    requires log != [] && log[|log| - 1].from != Active
    requires forall c :: !SkipsVoting(log, c)
    ensures exists i :: Enters(log, i, Voting)
    decreases |log|
  {
    hide Edge;
    var n := |log| - 1;
    var last := log[n];
    SuspensionEdges(last.from, last.to, last.event);
    EntersLonger(log, n, Voting);
    assert forall c :: SkipsVoting(log[..n], c) ==> SkipsVoting(log, c);
    if last.from == Voting {
      assert n > 0 && Enters(log[..n], n - 1, Voting);
    } else {
      CountedWasVoted(start, log[..n], last.from);
    }
  }

  /** ... so a counted election that never voted was resumed that way. */
  lemma UnvotedWasResumed(start: Status, log: seq<LogEntry>, end: Status)
    requires Path(start, log, end) && !Opened(start) && Counted(end)
    requires forall i :: !Enters(log, i, Voting)
    ensures exists c :: SkipsVoting(log, c)
  {
    hide Path;
    if forall c :: !SkipsVoting(log, c) {
      CountedWasVoted(start, log, end);
    }
  }

  lemma RunOne(row: Row, actions: seq<Action>, action: Action)
    ensures Run(row, actions + [action]) == Next(Run(row, actions), action)
  {
    assert (actions + [action])[..|actions|] == actions;
  }

  /** ... which can skip voting altogether: an active election is suspended, resumed into collation
      and declared. */
  lemma VotingCanBeSkipped()
    ensures exists actions ::
      var row := Run(Row(Scheduled, false, []), actions);
      row.status == Declared && forall i :: !Enters(row.log, i, Voting)
  {
    var start := Row(Scheduled, false, []);
    var a, b, c, d := Fsm(Activate, true), Fsm(Suspend, true), Fsm(ResumeCollating, true), DeclareEndpoint(true);
    SkippingLookups();
    hide Lookup;
    RunOne(start, [], a);
    RunOne(start, [a], b);
    RunOne(start, [a] + [b], c);
    RunOne(start, [a] + [b] + [c], d);
    assert [] + [a] == [a];
    var row := Run(start, [a] + [b] + [c] + [d]);
    assert row.log == [LogEntry(Scheduled, Active, Activate), LogEntry(Active, Suspended, Suspend),
                       LogEntry(Suspended, Collating, ResumeCollating), LogEntry(Collating, Declared, Declare)];
  }

  lemma {:induction false} LookupIs(status: Status, event: Event, i: nat, k: nat)
    requires i <= k < |ELECTION_FSM| && ELECTION_FSM[k].from == status && ELECTION_FSM[k].event == event
    requires forall m :: i <= m < k ==> ELECTION_FSM[m].from != status || ELECTION_FSM[m].event != event
    ensures Lookup(status, event, i) == k
    decreases k - i
  {
    hide ELECTION_FSM;
    if i < k {
      LookupIs(status, event, i + 1, k);
    }
  }

  lemma SkippingLookups()
    ensures Lookup(Scheduled, Activate, 0) == 1
    ensures Lookup(Active, Suspend, 0) == 11
    ensures Lookup(Suspended, ResumeCollating, 0) == 16
  {
    hide Lookup;
    LookupIs(Scheduled, Activate, 0, 1);
    LookupIs(Active, Suspend, 0, 11);
    LookupIs(Suspended, ResumeCollating, 0, 16);
  }

  /** `declared_at` is written by the endpoint only: it is set exactly when the step that reached
      `declared` was the endpoint's, never when it was the state machine's own declare event. */
  ghost predicate EndpointDeclares(row: Row, action: Action) {
    action.DeclareEndpoint? && row.status != Declared && Next(row, action).status == Declared
  }

  lemma DeclaredAtStep(row: Row, action: Action)
    requires row.declaredAt ==> row.status == Declared
    ensures Next(row, action).declaredAt <==> row.declaredAt || EndpointDeclares(row, action)
    ensures Next(row, action).declaredAt ==> Next(row, action).status == Declared
  {
    hide Edge;
    StepIsEdge(row, action);
    if row.status == Declared {
      forall to, event | Edge(row.status, to, event)
        ensures false
      {
        EdgeShape(row.status, to, event);
      }
    }
  }

  ghost predicate SomeEndpointDeclared(row: Row, actions: seq<Action>) {
    actions != []
    && (var n := |actions| - 1;
        SomeEndpointDeclared(row, actions[..n]) || EndpointDeclares(Run(row, actions[..n]), actions[n]))
  }

  lemma {:induction false} DeclaredAtMeansEndpoint(start: Status, actions: seq<Action>)
    ensures
      var row := Run(Row(start, false, []), actions);
      && (row.declaredAt <==> SomeEndpointDeclared(Row(start, false, []), actions))
      && (row.declaredAt ==> row.status == Declared)
  {
    hide EndpointDeclares, Next;
    if actions != [] {
      var n := |actions| - 1;
      DeclaredAtMeansEndpoint(start, actions[..n]);
      DeclaredAtStep(Run(Row(start, false, []), actions[..n]), actions[n]);
    }
  }
}
