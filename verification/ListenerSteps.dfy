/** The scan of the listener and the step system: what the scan does at an entry is a sequence of
    listener steps. */
module ListenerSteps {
  import opened HttpTypes
  import opened StatusWord
  import opened PollArrays
  import opened SessionTable
  import opened Protocol
  import opened ProtocolInvariant
  import opened ProtocolRuns
  import Scan = Listener

  // ----- Several steps in a row -----

  // An enabled step from a state that meets the invariant.
  ghost predicate Takes(s: State, a: Step, s': State) {
    Inv(s) && Enabled(s, a) && Safe(s, a) && s' == Apply(s, a) && Inv(s')
  }

  ghost predicate Leads(s: State, steps: seq<Step>, s': State)
    decreases |steps|
  {
    if steps == [] then s' == s
    else exists s1 :: Takes(s, steps[0], s1) && Leads(s1, steps[1..], s')
  }

  lemma LeadsOne(s: State, a: Step, s': State)
    requires Takes(s, a, s')
    ensures Leads(s, [a], s')
  {
    hide Takes;
    assert Leads(s', [a][1..], s');
  }

  lemma LeadsTwo(s: State, a: Step, s1: State, b: Step, s2: State)
    requires Takes(s, a, s1) && Takes(s1, b, s2)
    ensures Leads(s, [a, b], s2)
  {
    hide Takes, Leads;
    LeadsOne(s1, b, s2);
    LeadsMore(s, a, s1, [b], s2);
    assert [a] + [b] == [a, b];
  }

  lemma LeadsMore(s: State, a: Step, s1: State, rest: seq<Step>, s2: State)
    requires Takes(s, a, s1) && Leads(s1, rest, s2)
    ensures Leads(s, [a] + rest, s2)
  {
    hide Takes;
    assert ([a] + rest)[1..] == rest;
  }

  // ----- One visit -----

  // What the protocol assumes of an entry and of what the calls made at it return: a connection is
  // accepted below capacity, and no event arrives for a session in the pipeline. The pushes that
  // the listener makes without a pop are not steps.
  ghost predicate Assumed(s: State, v: Scan.Verdict, fd: nat)
    requires Inv(s)
  {
    match v
    case Keep => true
    case Purge => fd in s.poll && fd in s.marks
    case Accept(client) => Closed(s, client) && PollHasRoom(s)
    case Serve => fd in s.poll && s.table.HasFd(fd) && PoppableByFd(s.table.Row(s.table.IndexOf(fd)).status)
    case Refuse =>
      fd in s.poll && (s.table.HasFd(fd) ==> PoppableByFd(s.table.Row(s.table.IndexOf(fd)).status))
    case Reject => false
    case Write => false
  }

  // What the verdict leaves open: what rand() gave, whether the session of the entry was gone, and else
  // what the handler read.
  datatype Choice = Choice(id: int, outcome: ReadOutcome, gone: bool)

  // The handler answers, that is, it does not return -1, if there is a session and the read does not
  // fail (handle_request_async; ReadHandler.dfy has it on the cache).
  predicate Answers(c: Choice) { !c.gone && !c.outcome.Failed? }

  predicate Fitting(v: Scan.Verdict, c: Choice) { (v.Serve? ==> Answers(c)) && (v.Refuse? ==> !Answers(c)) }

  // The steps it takes.
  function VisitSteps(v: Scan.Verdict, fd: nat, c: Choice): seq<Step> {
    match v
    case Purge => [LPurge(fd)]
    case Accept(client) => [LAccept(client, c.id), LAddPoll]
    case Serve => [LPop(fd), LRead(c.outcome)]
    case Refuse => if c.gone then [LStale(fd)] else [LPop(fd), LRead(c.outcome), LRemove]
    case _ => []
  }

  // The choices that a state leaves.
  ghost predicate Open(s: State, v: Scan.Verdict, fd: nat, c: Choice)
    requires Inv(s)
  {
    Fitting(v, c) && (v.Refuse? ==> (c.gone <==> !s.table.HasFd(fd)))
  }

  // What a log of actions does to the polled descriptors.
  function OnPoll(poll: set<int>, log: seq<Scan.Action>): set<int>
    decreases |log|
  {
    if log == [] then poll
    else OnPoll(OnPollOne(poll, log[0]), log[1..])
  }

  function OnPollOne(poll: set<int>, a: Scan.Action): set<int> {
    match a case Added(fd) => poll + {fd} case Removed(fd) => poll - {fd} case _ => poll
  }

  ghost predicate AtRest(s: State) { ListenerRuns(s) && s.listener == AtTop }

  lemma PurgeStep(s: State, fd: nat) returns (s': State)
    requires Inv(s) && AtRest(s) && fd in s.poll && fd in s.marks
    ensures Takes(s, LPurge(fd), s') && AtRest(s') && s'.poll == s.poll - {fd}
  {
    StepKeeps(s, LPurge(fd));
    s' := Apply(s, LPurge(fd));
    hide Inv;
  }

  lemma StaleStep(s: State, fd: nat) returns (s': State)
    requires Inv(s) && AtRest(s) && fd in s.poll && !s.table.HasFd(fd)
    ensures Takes(s, LStale(fd), s') && AtRest(s') && s'.poll == s.poll - {fd}
  {
    StepKeeps(s, LStale(fd));
    s' := Apply(s, LStale(fd));
    hide Table.HasFd, Table.Push;
  }

  lemma AcceptStep(s: State, client: nat, id: int) returns (s': State)
    requires Inv(s) && AtRest(s) && Closed(s, client) && PollHasRoom(s)
    ensures Takes(s, LAccept(client, id), s') && ListenerRuns(s') && s'.listener == Accepted(client)
    ensures s'.poll == s.poll
  {
    StepKeeps(s, LAccept(client, id));
    s' := Apply(s, LAccept(client, id));
    hide Table.Push;
  }

  lemma AddPollStep(s: State) returns (s': State)
    requires Inv(s) && ListenerRuns(s) && s.listener.Accepted?
    ensures Takes(s, LAddPoll, s') && AtRest(s') && s'.poll == s.poll + {s.listener.fd}
  {
    StepKeeps(s, LAddPoll);
    s' := Apply(s, LAddPoll);
  }

  lemma PopStep(s: State, fd: nat) returns (s': State)
    requires Inv(s) && AtRest(s) && Assumed(s, Scan.Serve, fd)
    ensures Takes(s, LPop(fd), s') && ListenerRuns(s') && s'.listener.Reading? && s'.listener.cell.fd == fd
    ensures s'.poll == s.poll
  {
    StepKeeps(s, LPop(fd));
    PopView(s, fd);
    s' := Apply(s, LPop(fd));
  }

  lemma ReadStep(s: State, outcome: ReadOutcome) returns (s': State)
    requires Inv(s) && ListenerRuns(s) && s.listener.Reading?
    ensures Takes(s, LRead(outcome), s') && ListenerRuns(s') && s'.poll == s.poll
    ensures s'.listener == if outcome.Failed? then Rejecting(s.listener.cell.fd) else AtTop
  {
    StepKeeps(s, LRead(outcome));
    s' := Apply(s, LRead(outcome));
  }

  lemma RemoveStep(s: State) returns (s': State)
    requires Inv(s) && ListenerRuns(s) && s.listener.Rejecting?
    ensures Takes(s, LRemove, s') && AtRest(s') && s'.poll == s.poll - {s.listener.fd}
  {
    StepKeeps(s, LRemove);
    s' := Apply(s, LRemove);
  }

  lemma TakesKeeps(s: State, a: Step, s': State)
    requires Takes(s, a, s')
    ensures Inv(s) && Inv(s')
  {
  }

  lemma AcceptSteps(s: State, client: nat, id: int) returns (s': State)
    requires Inv(s) && AtRest(s) && Closed(s, client) && PollHasRoom(s)
    ensures Leads(s, [LAccept(client, id), LAddPoll], s') && AtRest(s') && s'.poll == s.poll + {client}
  {
    hide Inv, Leads, Takes;
    var s1 := AcceptStep(s, client, id);
    TakesKeeps(s, LAccept(client, id), s1);
    s' := AddPollStep(s1);
    LeadsTwo(s, LAccept(client, id), s1, LAddPoll, s');
  }

  lemma ServeSteps(s: State, fd: nat, outcome: ReadOutcome) returns (s': State)
    requires Inv(s) && AtRest(s) && Assumed(s, Scan.Serve, fd) && !outcome.Failed?
    ensures Leads(s, [LPop(fd), LRead(outcome)], s') && AtRest(s') && s'.poll == s.poll
  {
    hide Inv, Leads, Takes, Assumed;
    var s1 := PopStep(s, fd);
    TakesKeeps(s, LPop(fd), s1);
    s' := ReadStep(s1, outcome);
    LeadsTwo(s, LPop(fd), s1, LRead(outcome), s');
  }

  lemma RefuseSteps(s: State, fd: nat) returns (s': State)
    requires Inv(s) && AtRest(s) && Assumed(s, Scan.Serve, fd)
    ensures Leads(s, [LPop(fd), LRead(Failed), LRemove], s') && AtRest(s') && s'.poll == s.poll - {fd}
  {
    hide Inv, Leads, Takes, Assumed;
    var s1 := PopStep(s, fd);
    TakesKeeps(s, LPop(fd), s1);
    var s2 := ReadStep(s1, Failed);
    TakesKeeps(s1, LRead(Failed), s2);
    s' := RemoveStep(s2);
    LeadsTwo(s1, LRead(Failed), s2, LRemove, s');
    LeadsMore(s, LPop(fd), s1, [LRead(Failed), LRemove], s');
    assert [LPop(fd)] + [LRead(Failed), LRemove] == [LPop(fd), LRead(Failed), LRemove];
  }

  // What the scan does at an entry is a sequence of enabled steps of the listener, after which it is
  // at rest again; and the polled descriptors are changed as its actions say.
  lemma VerdictIsSteps(s: State, v: Scan.Verdict, fd: nat, c: Choice) returns (s': State)
    requires Inv(s) && AtRest(s) && Assumed(s, v, fd) && Open(s, v, fd, c)
    ensures Leads(s, VisitSteps(v, fd, c), s') && AtRest(s')
    ensures s'.poll == OnPoll(s.poll, Scan.Actions(v, fd))
  {
    ActionsOnPoll(s.poll, v, fd);
    assert s.table.Valid();
    hide OnPoll, Scan.Actions, Inv, Takes, Leads;
    match v {
      case Purge =>
        s' := PurgeStep(s, fd);
        LeadsOne(s, LPurge(fd), s');
      case Accept(client) => s' := AcceptSteps(s, client, c.id);
      case Serve => s' := ServeSteps(s, fd, c.outcome);
      case Refuse =>
        if !c.gone {
          s' := RefuseSteps(s, fd);
        } else {
          s' := StaleStep(s, fd);
          LeadsOne(s, LStale(fd), s');
        }
      case _ =>
        s' := s;
        LeadsNowhere(s);
    }
  }

  lemma LeadsNowhere(s: State)
    ensures Leads(s, [], s)
  {
  }

  lemma ActionsOnPoll(poll: set<int>, v: Scan.Verdict, fd: nat)
    ensures OnPoll(poll, Scan.Actions(v, fd)) ==
            if Scan.Removes(v) then poll - {fd} else if v.Accept? then poll + {v.fd} else poll
  {
    var actions := Scan.Actions(v, fd);
    if actions != [] {
      OnPollStep(poll, actions);
      if |actions| > 1 {
        OnPollStep(OnPollOne(poll, actions[0]), actions[1..]);
        if |actions| > 2 {
          OnPollStep(OnPollOne(OnPollOne(poll, actions[0]), actions[1]), actions[1..][1..]);
        }
      }
    }
  }

  lemma OnPollStep(poll: set<int>, log: seq<Scan.Action>)
    requires log != []
    ensures OnPoll(poll, log) == OnPoll(OnPollOne(poll, log[0]), log[1..])
    ensures |log| == 1 ==> OnPoll(poll, log) == OnPollOne(poll, log[0])
    ensures |log| > 1 ==> log[1..][0] == log[1]
  {
  }
}
