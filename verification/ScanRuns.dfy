/** Runs in which the listener scans while the workers go on: whatever they do between its steps, it
    can take its next one, and what is polled afterwards is what the log of the scan says. */
module ScanRuns {
  import opened HttpTypes
  import opened StatusWord
  import opened PollArrays
  import opened SessionTable
  import opened Protocol
  import opened ProtocolInvariant
  import opened ProtocolRuns
  import opened ListenerSteps
  import Scan = Listener

  // ----- Fragments of runs -----

  // Steps of anybody, one after another.
  ghost predicate Fragment(states: seq<State>, steps: seq<Step>) {
    |states| == |steps| + 1 && forall i :: 0 <= i < |steps| ==> Takes(states[i], steps[i], states[i + 1])
  }

  // Those among them that are the listener's.
  function ListenersOf(steps: seq<Step>): seq<Step> {
    if steps == [] then []
    else
      ListenersOf(steps[..|steps| - 1]) +
      if ByListener(steps[|steps| - 1]) then [steps[|steps| - 1]] else []
  }

  lemma Shorter(states: seq<State>, steps: seq<Step>)
    requires Fragment(states, steps) && steps != []
    ensures Fragment(states[..|steps|], steps[..|steps| - 1])
    ensures Takes(states[|steps| - 1], steps[|steps| - 1], states[|steps|])
    ensures states[..|steps|][|steps| - 1] == states[|steps| - 1] && states[..|steps|][0] == states[0]
  {
    hide Takes;
  }

  // ----- What one sees of the listener -----

  datatype Stance = AtTheTop | MayAdd(fd: int) | MayRead(fd: int) | MayDrop(fd: int)

  datatype Sight = Sight(stance: Stance, poll: set<int>)

  function StanceOf(l: Listener): Stance {
    match l
    case AtTop => AtTheTop
    case Accepted(fd) => MayAdd(fd)
    case Reading(_, c) => MayRead(c.fd)
    case Rejecting(fd) => MayDrop(fd)
  }

  function SightOf(s: State): Sight { Sight(StanceOf(s.listener), s.poll) }

  // What a step does to that.
  function See(v: Sight, a: Step): Sight {
    match a
    case LAccept(fd, _) => Sight(MayAdd(fd), v.poll)
    case LAcceptTls(fd, _, _) => Sight(MayAdd(fd), v.poll)
    case LAddPoll => if v.stance.MayAdd? then Sight(AtTheTop, v.poll + {v.stance.fd}) else v
    case LPurge(fd) => Sight(AtTheTop, v.poll - {fd})
    case LStale(fd) => Sight(AtTheTop, v.poll - {fd})
    case LPop(fd) => Sight(MayRead(fd), v.poll)
    case LRead(outcome) =>
      if !v.stance.MayRead? then v
      else Sight(if outcome.Failed? then MayDrop(v.stance.fd) else AtTheTop, v.poll)
    case LRemove => if v.stance.MayDrop? then Sight(AtTheTop, v.poll - {v.stance.fd}) else v
    case _ => v
  }

  function SeeAll(v: Sight, steps: seq<Step>): Sight {
    if steps == [] then v else See(SeeAll(v, steps[..|steps| - 1]), steps[|steps| - 1])
  }

  // The steps of the workers leave the listener and its descriptors alone.
  lemma OthersLeavePoll(s: State, step: Step)
    requires Sane(s) && Enabled(s, step) && Safe(s, step) && !ByListener(step)
    ensures Apply(s, step).poll == s.poll && Apply(s, step).listener == s.listener
  {
    hide Table.Push, Table.Peek, Table.Take, Table.Valid, PushIsSafe, Worked, Recorded, Pushes, Table.Marks;
  }

  lemma PopIsSeen(s: State, fd: int)
    requires Sane(s) && Enabled(s, LPop(fd))
    ensures SightOf(Apply(s, LPop(fd))) == See(SightOf(s), LPop(fd))
  {
    PopView(s, fd);
  }

  lemma ListenerIsSeen(s: State, step: Step)
    requires Sane(s) && Enabled(s, step) && Safe(s, step) && ByListener(step)
    ensures SightOf(Apply(s, step)) == See(SightOf(s), step)
  {
    hide Table.Push, PushIsSafe, WriteSlot, Table.Valid, Table.PushAllowed, ReadCell;
    match step
    case LPop(fd) => PopIsSeen(s, fd);
    case LRead(_) =>
    case LAddPoll =>
    case LRemove =>
    case _ =>
  }

  lemma StepIsSeen(s: State, step: Step, s': State)
    requires Takes(s, step, s')
    ensures SightOf(s') == if ByListener(step) then See(SightOf(s), step) else SightOf(s)
  {
    if ByListener(step) {
      ListenerIsSeen(s, step);
    } else {
      OthersLeavePoll(s, step);
    }
    hide Inv, Enabled, Safe, Apply, See;
  }

  // Only the steps of the listener count, whatever is between them.
  lemma {:induction false} FragmentIsSeen(states: seq<State>, steps: seq<Step>)
    requires Fragment(states, steps)
    ensures SightOf(states[|steps|]) == SeeAll(SightOf(states[0]), ListenersOf(steps))
    decreases |steps|
  {
    hide Takes, See, SightOf, ByListener;
    if steps != [] {
      Shorter(states, steps);
      FragmentIsSeen(states[..|steps|], steps[..|steps| - 1]);
      StepIsSeen(states[|steps| - 1], steps[|steps| - 1], states[|steps|]);
      SeeOneMore(SightOf(states[0]), ListenersOf(steps[..|steps| - 1]), steps[|steps| - 1]);
    }
  }

  lemma SeeOneMore(v: Sight, steps: seq<Step>, step: Step)
    ensures SeeAll(v, steps + [step]) == See(SeeAll(v, steps), step) && steps + [] == steps
  {
    hide See;
    assert (steps + [step])[..|steps|] == steps;
  }

  lemma {:induction false} SeeAppend(v: Sight, a: seq<Step>, b: seq<Step>)
    ensures SeeAll(v, a + b) == SeeAll(SeeAll(v, a), b)
    decreases |b|
  {
    hide See;
    if b == [] {
      assert a + b == a;
    } else {
      var b', last := b[..|b| - 1], b[|b| - 1];
      assert a + b == (a + b') + [last] && b == b' + [last];
      SeeOneMore(v, a + b', last);
      SeeAppend(v, a, b');
      SeeOneMore(SeeAll(v, a), b', last);
    }
  }

  // ----- One visit -----

  // A verdict whose actions are steps.
  predicate Modelled(v: Scan.Verdict) { !v.Reject? && !v.Write? }

  lemma VisitIsSeen(poll: set<int>, v: Scan.Verdict, fd: nat, c: Choice)
    requires Modelled(v) && Fitting(v, c)
    ensures SeeAll(Sight(AtTheTop, poll), VisitSteps(v, fd, c)) ==
            Sight(AtTheTop, OnPoll(poll, Scan.Actions(v, fd)))
  {
    ActionsOnPoll(poll, v, fd);
    hide OnPoll, Scan.Actions;
    var start, steps := Sight(AtTheTop, poll), VisitSteps(v, fd, c);
    if |steps| == 1 {
      SeeOne(start, steps[0]);
      assert steps == [steps[0]];
    } else if |steps| == 2 {
      SeeTwo(start, steps[0], steps[1]);
      assert steps == [steps[0], steps[1]];
    } else if |steps| == 3 {
      SeeTwo(start, steps[0], steps[1]);
      SeeOneMore(start, [steps[0], steps[1]], steps[2]);
      assert steps == [steps[0], steps[1]] + [steps[2]];
    }
  }

  lemma SeeOne(v: Sight, a: Step)
    ensures SeeAll(v, [a]) == See(v, a)
  {
    hide See;
    assert [] + [a] == [a];
    SeeOneMore(v, [], a);
  }

  lemma SeeTwo(v: Sight, a: Step, b: Step)
    ensures SeeAll(v, [a, b]) == See(See(v, a), b)
  {
    hide See;
    SeeOne(v, a);
    assert [a] + [b] == [a, b];
    SeeOneMore(v, [a], b);
  }

  // ----- Nobody else can undo what a visit relies on -----

  // A session out of the pipeline that nobody holds is left alone by the workers.
  lemma WorkerLeavesIdle(s: State, step: Step, k: nat)
    requires Inv(s) && Enabled(s, step) && Safe(s, step) && !ByListener(step) && Apply(s, step).table.Valid()
    requires k in s.table.Sessions() && !PhaseOf(s.table.Sessions()[k].status).Queued?
    ensures k in Apply(s, step).table.Sessions() && Apply(s, step).table.Sessions()[k] == s.table.Sessions()[k]
  {
    match step
    case WCheck(t) => CheckLeavesIdle(s, t, k);
    case WPush(t, work) => PushLeavesIdle(s, t, work, k);
    case _ =>
  }

  lemma CheckLeavesIdle(s: State, t: nat, k: nat)
    requires Inv(s) && Enabled(s, WCheck(t)) && Apply(s, WCheck(t)).table.Valid()
    requires k in s.table.Sessions() && !PhaseOf(s.table.Sessions()[k].status).Queued?
    ensures var s' := Apply(s, WCheck(t));
            k in s'.table.Sessions() && s'.table.Sessions()[k] == s.table.Sessions()[k]
  {
    CheckLeavesOthers(s, t, k);
    hide Apply, Enabled, PhaseOf, Table.Sessions;
  }

  lemma CheckLeavesOthers(s: State, t: nat, k: nat)
    requires s.table.Valid() && |s.journals| == s.table.Max() && Enabled(s, WCheck(t))
    requires k in s.table.Sessions() && !PhaseOf(s.table.Sessions()[k].status).Queued?
    ensures var s' := Apply(s, WCheck(t));
            s'.table.Valid() && k in s'.table.Sessions() && s'.table.Sessions()[k] == s.table.Sessions()[k]
  {
    hide PhaseOf, Table.Sessions;
    if s.table.Peek(s.workers[t].stage, s.table.count) >= 0 {
      CheckTakesView(s, t);
      hide Apply;
    }
  }

  lemma PushLeavesIdle(s: State, t: nat, work: Work, k: nat)
    requires Inv(s) && Enabled(s, WPush(t, work)) && Safe(s, WPush(t, work)) && Apply(s, WPush(t, work)).table.Valid()
    requires k in s.table.Sessions() && !PhaseOf(s.table.Sessions()[k].status).Queued?
    ensures var s' := Apply(s, WPush(t, work));
            k in s'.table.Sessions() && s'.table.Sessions()[k] == s.table.Sessions()[k]
  {
    HolderOwns(ViewOf(s), t);
    hide Inv;
    PushChangesOne(s, t, work);
  }

  // And no worker gives a descriptor a session.
  lemma WorkerAddsNoFd(s: State, step: Step, fd: int)
    requires Inv(s) && Enabled(s, step) && Safe(s, step) && !ByListener(step) && Apply(s, step).table.Valid()
    requires fd !in Fds(s.table.Sessions())
    ensures fd !in Fds(Apply(s, step).table.Sessions())
  {
    match step
    case WCheck(t) =>
      if s.table.Peek(s.workers[t].stage, s.table.count) >= 0 {
        CheckTakesView(s, t);
        var i := s.table.Peek(s.workers[t].stage, s.table.count);
        FdsPut(s.table.Sessions(), s.table.rows[i], s.table.Row(i).(status := PopWord(s.table.Row(i).status)));
        hide Inv;
      }
    case WPush(t, work) => PushAddsNoFd(s, t, work, fd);
    case _ =>
  }

  lemma PushAddsNoFd(s: State, t: nat, work: Work, fd: int)
    requires Inv(s) && Enabled(s, WPush(t, work)) && Safe(s, WPush(t, work)) && Apply(s, WPush(t, work)).table.Valid()
    requires fd !in Fds(s.table.Sessions())
    ensures fd !in Fds(Apply(s, WPush(t, work)).table.Sessions())
  {
    HolderOwns(ViewOf(s), t);
    PushView(s, t, work);
    var (k, c) := (s.workers[t].pc.slot, s.workers[t].pc.cell);
    WorkedFrame(c, work);
    var c' := Table.Pushed(Worked(c, work), Pushes(c, work));
    PushedFd(Worked(c, work), Pushes(c, work));
    SessionsDiffer(s.table);
    FdsPut(s.table.Sessions(), k, c');
    FdsDrop(s.table.Sessions(), k);
    hide Inv, Table.Pushed, Apply, Fds;
  }

  // What a visit assumes of an entry stays so while others take their steps, and so does whether its
  // session is gone.
  lemma OthersKeepAssumed(s: State, step: Step, s': State, v: Scan.Verdict, fd: nat)
    requires Takes(s, step, s') && !ByListener(step) && s.listener == AtTop && Assumed(s, v, fd)
    ensures Assumed(s', v, fd) && s'.listener == AtTop
    ensures v.Refuse? ==> (s'.table.HasFd(fd) <==> s.table.HasFd(fd))
  {
    OthersLeavePoll(s, step);
    OthersKeepMarks(s, step);
    assert s'.table.Max() == s.table.Max();
    if v.Serve? || v.Refuse? {
      OthersKeepSession(s, step, fd);
    }
    hide Apply, Safe, Enabled;
  }

  lemma OthersKeepMarks(s: State, step: Step)
    requires Sane(s) && Enabled(s, step) && Safe(s, step) && !ByListener(step)
    ensures s.marks <= Apply(s, step).marks && Apply(s, step).listenFd == s.listenFd
    ensures |Apply(s, step).journals| == |s.journals|
  {
    hide Table.Push, Table.Peek, Table.Take, Table.Valid, PushIsSafe, Worked, Recorded, Pushes, Table.Marks;
  }

  lemma OthersKeepSession(s: State, step: Step, fd: nat)
    requires Inv(s) && Enabled(s, step) && Safe(s, step) && !ByListener(step) && s.listener == AtTop
    requires Apply(s, step).table.Valid()
    requires s.table.HasFd(fd) ==> PoppableByFd(s.table.Row(s.table.IndexOf(fd)).status)
    ensures var t, t' := s.table, Apply(s, step).table;
            && (t'.HasFd(fd) <==> t.HasFd(fd))
            && (t.HasFd(fd) ==> t'.Row(t'.IndexOf(fd)) == t.Row(t.IndexOf(fd)))
  {
    var t, t' := s.table, Apply(s, step).table;
    FdLookup(t, fd);
    FdLookup(t', fd);
    if t.HasFd(fd) {
      var k := t.rows[t.IndexOf(fd)];
      IdleIsNotQueued(s, k);
      WorkerLeavesIdle(s, step, k);
      hide Inv, Apply, Enabled, Safe, PoppableByFd;
      SameSessionOfFd(t', k, fd);
    } else {
      WorkerAddsNoFd(s, step, fd);
    }
  }

  lemma IdleIsNotQueued(s: State, k: nat)
    requires Inv(s) && k in s.table.Sessions() && PoppableByFd(s.table.Sessions()[k].status)
    ensures !PhaseOf(s.table.Sessions()[k].status).Queued?
  {
    assert WellFormed(s.table.Sessions()[k].status);
    hide Inv;
    PoppableIsIdleOrParked(s.table.Sessions()[k].status);
  }

  lemma SameSessionOfFd(t: Table, k: nat, fd: int)
    requires t.Valid() && k in t.Sessions() && t.Sessions()[k].fd == fd
    ensures t.HasFd(fd) && t.Row(t.IndexOf(fd)) == t.Sessions()[k]
  {
    assert fd in Fds(t.Sessions());
    FdLookup(t, fd);
    SessionsDiffer(t);
  }

  lemma {:induction false} AssumedIsKept(states: seq<State>, steps: seq<Step>, v: Scan.Verdict, fd: nat)
    requires Fragment(states, steps) && ListenersOf(steps) == [] && Inv(states[0])
    requires states[0].listener == AtTop && Assumed(states[0], v, fd)
    ensures Inv(states[|steps|]) && states[|steps|].listener == AtTop && Assumed(states[|steps|], v, fd)
    ensures v.Refuse? ==> (states[|steps|].table.HasFd(fd) <==> states[0].table.HasFd(fd))
    decreases |steps|
  {
    if steps != [] {
      Shorter(states, steps);
      hide Inv, Assumed, ByListener;
      AssumedIsKept(states[..|steps|], steps[..|steps| - 1], v, fd);
      TakesKeeps(states[|steps| - 1], steps[|steps| - 1], states[|steps|]);
      OthersKeepAssumed(states[|steps| - 1], steps[|steps| - 1], states[|steps|], v, fd);
    }
  }

  // However far a visit has got, and whatever others did before, between and after its steps: while
  // the listener runs and the mutex is free, its next step is enabled.
  lemma NextStepIsEnabled(
    states: seq<State>, steps: seq<Step>, v: Scan.Verdict, fd: nat, c: Choice, m: nat)
    requires Fragment(states, steps) && Inv(states[0]) && Inv(states[|steps|])
    requires states[0].listener == AtTop && Assumed(states[0], v, fd) && Open(states[0], v, fd, c)
    requires m < |VisitSteps(v, fd, c)| && ListenersOf(steps) == VisitSteps(v, fd, c)[..m]
    requires ListenerRuns(states[|steps|])
    ensures Enabled(states[|steps|], VisitSteps(v, fd, c)[m])
  {
    if m == 0 {
      AssumedIsKept(states, steps, v, fd);
      FirstIsEnabled(states[|steps|], v, fd, c);
    } else {
      FragmentIsSeen(states, steps);
      LaterStance(states[0].poll, v, fd, c, m);
      hide SeeAll, Fragment, ListenersOf, Inv;
    }
  }

  lemma FirstIsEnabled(s: State, v: Scan.Verdict, fd: nat, c: Choice)
    requires Inv(s) && AtRest(s) && Assumed(s, v, fd) && Open(s, v, fd, c) && VisitSteps(v, fd, c) != []
    ensures Enabled(s, VisitSteps(v, fd, c)[0])
  {
  }

  // Where the listener stands in the middle of a visit.
  lemma LaterStance(poll: set<int>, v: Scan.Verdict, fd: nat, c: Choice, m: nat)
    requires 0 < m < |VisitSteps(v, fd, c)| && Fitting(v, c)
    ensures var stance := SeeAll(Sight(AtTheTop, poll), VisitSteps(v, fd, c)[..m]).stance;
            match VisitSteps(v, fd, c)[m]
            case LAddPoll => stance.MayAdd?
            case LRead(_) => stance.MayRead?
            case LRemove => stance.MayDrop?
            case _ => false
  {
    var start, steps := Sight(AtTheTop, poll), VisitSteps(v, fd, c);
    if m == 1 {
      assert steps[..1] == [steps[0]];
      SeeOne(start, steps[0]);
    } else {
      assert steps[..2] == [steps[0], steps[1]];
      SeeTwo(start, steps[0], steps[1]);
    }
  }

  // ----- A whole scan -----

  // The steps of the first n visits.
  function ScanSteps(es: seq<PollFd>, listenFd: nat, world: nat -> Scan.Seen, choices: nat -> Choice, n: nat): seq<Step>
    requires n <= |es|
  {
    if n == 0 then []
    else
      ScanSteps(es, listenFd, world, choices, n - 1) +
      VisitSteps(Scan.VerdictAt(es, listenFd, world, n - 1), es[n - 1].fd, choices(n - 1))
  }

  // The scan is told that a client was answered exactly when its session was there and was read.
  ghost predicate AllModelled(es: seq<PollFd>, listenFd: nat, world: nat -> Scan.Seen, choices: nat -> Choice) {
    forall k :: 0 <= k < |es| ==>
      Modelled(Scan.VerdictAt(es, listenFd, world, k)) && (world(k).answered <==> Answers(choices(k)))
  }

  lemma {:induction false} OnPollAppend(poll: set<int>, a: seq<Scan.Action>, b: seq<Scan.Action>)
    ensures OnPoll(poll, a + b) == OnPoll(OnPoll(poll, a), b)
    decreases |a|
  {
    if a == [] {
      assert a + b == b;
    } else {
      assert (a + b)[1..] == a[1..] + b;
      OnPollAppend(OnPollOne(poll, a[0]), a[1..], b);
    }
  }

  lemma {:induction false} ScanIsSeen(
    poll: set<int>, es: seq<PollFd>, listenFd: nat, world: nat -> Scan.Seen, choices: nat -> Choice, n: nat)
    requires n <= |es| && AllModelled(es, listenFd, world, choices)
    ensures SeeAll(Sight(AtTheTop, poll), ScanSteps(es, listenFd, world, choices, n)) ==
            Sight(AtTheTop, OnPoll(poll, Scan.Log(es, listenFd, world, n)))
  {
    hide See, OnPoll, Scan.Actions, Scan.Decide, VisitSteps;
    if n > 0 {
      var v, fd := Scan.VerdictAt(es, listenFd, world, n - 1), es[n - 1].fd;
      ScanIsSeen(poll, es, listenFd, world, choices, n - 1);
      var before, visit := ScanSteps(es, listenFd, world, choices, n - 1), VisitSteps(v, fd, choices(n - 1));
      SeeAppend(Sight(AtTheTop, poll), before, visit);
      Scan.DecidedBy(es[n - 1], listenFd, world(n - 1));
      VisitIsSeen(OnPoll(poll, Scan.Log(es, listenFd, world, n - 1)), v, fd, choices(n - 1));
      OnPollAppend(poll, Scan.Log(es, listenFd, world, n - 1), Scan.Actions(v, fd));
    } else {
      NothingOnPoll(poll);
    }
  }

  lemma NothingOnPoll(poll: set<int>)
    ensures OnPoll(poll, []) == poll
  {
  }

  // In any fragment of a run in which the listener takes the steps of the first n visits of a scan,
  // whatever others do before, between and after them, what is polled in the end is what the log
  // of these visits says.
  lemma ScanFollowsLog(
    states: seq<State>, steps: seq<Step>,
    es: seq<PollFd>, listenFd: nat, world: nat -> Scan.Seen, choices: nat -> Choice, n: nat)
    requires Fragment(states, steps) && states[0].listener == AtTop
    requires n <= |es| && AllModelled(es, listenFd, world, choices)
    requires ListenersOf(steps) == ScanSteps(es, listenFd, world, choices, n)
    ensures states[|steps|].listener == AtTop
    ensures states[|steps|].poll == OnPoll(states[0].poll, Scan.Log(es, listenFd, world, n))
  {
    FragmentIsSeen(states, steps);
    ScanIsSeen(states[0].poll, es, listenFd, world, choices, n);
    hide SeeAll, Fragment, ListenersOf, ScanSteps, OnPoll, Scan.Log;
  }

  // ----- The array and the protocol after a scan -----

  function Polled(es: seq<PollFd>): set<int> { set k | 0 <= k < |es| :: es[k].fd }

  ghost predicate DistinctFds(es: seq<PollFd>) { forall i, j :: 0 <= i < j < |es| ==> es[i].fd != es[j].fd }

  lemma PolledAppend(a: seq<PollFd>, b: seq<PollFd>)
    ensures Polled(a + b) == Polled(a) + Polled(b)
  {
    var c := a + b;
    forall k | 0 <= k < |a| ensures a[k].fd in Polled(c) {
      assert c[k] == a[k];
    }
    forall k | 0 <= k < |b| ensures b[k].fd in Polled(c) {
      assert c[|a| + k] == b[k];
    }
  }

  lemma PolledOne(e: PollFd)
    ensures Polled([e]) == {e.fd}
  {
    assert [e][0] == e;
  }

  // Nothing is left of the first n entries that is among the later ones.
  lemma {:induction false} KeptIsEarlier(es: seq<PollFd>, listenFd: nat, world: nat -> Scan.Seen, n: nat)
    requires n <= |es|
    ensures Polled(Scan.Kept(es, listenFd, world, n)) <= Polled(es[..n])
  {
    hide Scan.Decide, Scan.Removes;
    if n > 0 {
      KeptIsEarlier(es, listenFd, world, n - 1);
      assert es[..n] == es[..n - 1] + [es[n - 1]];
      PolledAppend(es[..n - 1], [es[n - 1]]);
      PolledAppend(Scan.Kept(es, listenFd, world, n - 1), [es[n - 1]]);
      var kept := Scan.Kept(es, listenFd, world, n - 1);
      assert kept + [] == kept;
    }
  }

  // From the second visit on, what the log leaves polled are the entries left and those to come.
  lemma {:induction false} LogOnPoll(es: seq<PollFd>, listenFd: nat, world: nat -> Scan.Seen, poll: set<int>, n: nat)
    requires 1 <= n <= |es| && DistinctFds(es) && es[0].fd == listenFd
    requires OnPoll(poll, Scan.Log(es, listenFd, world, 1)) == Polled(es[1..])
    requires forall k :: 1 <= k < |es| ==> !Scan.VerdictAt(es, listenFd, world, k).Accept?
    requires !Scan.Removes(Scan.VerdictAt(es, listenFd, world, 0))
    ensures OnPoll(poll, Scan.Log(es, listenFd, world, n)) ==
            Polled(Scan.Kept(es, listenFd, world, n)) - {listenFd} + Polled(es[n..])
  {
    hide Scan.Decide, Scan.Removes, Scan.Actions, OnPoll;
    if n == 1 {
      assert Scan.Kept(es, listenFd, world, 0) == [];
      assert Scan.Kept(es, listenFd, world, 1) == [es[0]];
      PolledOne(es[0]);
    } else {
      var e, v := es[n - 1], Scan.VerdictAt(es, listenFd, world, n - 1);
      LogOnPoll(es, listenFd, world, poll, n - 1);
      OnPollAppend(poll, Scan.Log(es, listenFd, world, n - 1), Scan.Actions(v, e.fd));
      ActionsOnPoll(OnPoll(poll, Scan.Log(es, listenFd, world, n - 1)), v, e.fd);
      KeptIsEarlier(es, listenFd, world, n - 1);
      var kept := Scan.Kept(es, listenFd, world, n - 1);
      PolledAppend(kept, [e]);
      PolledOne(e);
      assert es[n - 1..] == [e] + es[n..];
      PolledAppend([e], es[n..]);
      assert kept + [] == kept;
      NotAgain(es, n - 1);
    }
  }

  lemma NotAgain(es: seq<PollFd>, n: nat)
    requires n < |es| && DistinctFds(es)
    ensures es[n].fd !in Polled(es[..n]) && es[n].fd !in Polled(es[n + 1..])
    ensures n > 0 ==> es[n].fd != es[0].fd
  {
  }

  // If the protocol polls the clients of the array when a scan begins, it polls those left in the
  // array when the scan has ended.
  lemma ArrayFollowsProtocol(
    states: seq<State>, steps: seq<Step>,
    start: seq<PollFd>, listenFd: nat, world: nat -> Scan.Seen, choices: nat -> Choice)
    requires start != [] && start[0].fd == listenFd
    requires var es := Scan.Entries(start, listenFd, world);
             && AllModelled(es, listenFd, world, choices) && DistinctFds(es)
             && !Scan.Removes(Scan.VerdictAt(es, listenFd, world, 0))
             && ListenersOf(steps) == ScanSteps(es, listenFd, world, choices, |es|)
    requires Fragment(states, steps) && states[0].listener == AtTop && states[0].poll == Polled(start[1..])
    ensures var es := Scan.Entries(start, listenFd, world);
            states[|steps|].poll == Polled(Scan.Kept(es, listenFd, world, |es|)) - {listenFd}
  {
    var es := Scan.Entries(start, listenFd, world);
    ScanFollowsLog(states, steps, es, listenFd, world, choices, |es|);
    hide AllModelled, Fragment, ListenersOf, ScanSteps;
    FirstOnPoll(start, listenFd, world);
    OnlyListenerAccepts(start, listenFd, world);
    LogOnPoll(es, listenFd, world, Polled(start[1..]), |es|);
    assert Polled(es[|es|..]) == {};
  }

  lemma OnlyListenerAccepts(start: seq<PollFd>, listenFd: nat, world: nat -> Scan.Seen)
    requires start != [] && start[0].fd == listenFd && DistinctFds(Scan.Entries(start, listenFd, world))
    ensures var es := Scan.Entries(start, listenFd, world);
            forall k :: 1 <= k < |es| ==> !Scan.VerdictAt(es, listenFd, world, k).Accept?
  {
    var es := Scan.Entries(start, listenFd, world);
    forall k | 1 <= k < |es| ensures !Scan.VerdictAt(es, listenFd, world, k).Accept? {
      assert es[0] == start[0] && es[k].fd != es[0].fd;
    }
  }

  lemma FirstOnPoll(start: seq<PollFd>, listenFd: nat, world: nat -> Scan.Seen)
    requires start != [] && start[0].fd == listenFd
    requires !Scan.Removes(Scan.VerdictAt(Scan.Entries(start, listenFd, world), listenFd, world, 0))
    ensures var es := Scan.Entries(start, listenFd, world);
            OnPoll(Polled(start[1..]), Scan.Log(es, listenFd, world, 1)) == Polled(es[1..])
  {
    var es := Scan.Entries(start, listenFd, world);
    var v := Scan.Decide(start[0], listenFd, world(0));
    assert es[0] == start[0];
    ActionsOnPoll(Polled(start[1..]), v, listenFd);
    assert Scan.Log(es, listenFd, world, 0) == [];
    assert Scan.Log(es, listenFd, world, 1) == Scan.Actions(v, listenFd);
    hide Scan.Decide, Scan.Actions, OnPoll, Scan.Removes;
    if v.Accept? {
      assert es[1..] == start[1..] + [Fresh(v.fd)];
      PolledAppend(start[1..], [Fresh(v.fd)]);
      PolledOne(Fresh(v.fd));
    } else {
      assert es == start;
    }
  }
}
