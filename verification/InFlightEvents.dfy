/** A run of the server that ends in a state in which one event more fails an assertion. */
module InFlightEvents {
  import opened HttpTypes
  import opened StatusWord
  import opened SessionTable
  import opened Protocol
  import opened ProtocolInvariant
  import opened ProtocolRuns
  import opened ListenerSteps
  import opened ScanRuns

  // A cache of two rows, one worker for each handler, and the listening socket at 3.
  const START :=
    State(Empty(2), {}, {}, 3, AtTop, InitWorkers(1), None, Running, map[], [NO_JOURNAL, NO_JOURNAL], [])

  lemma StartIsInit()
    ensures Init(START) && Inv(START) && START.table.Sessions() == map[] && START.table.rows[0] == 0
  {
    assert START.journals == seq(2, _ => NO_JOURNAL);
    assert START.workers == InitWorkers(1);
    InitInv(START);
  }

  // The client with descriptor 5 connects, ...
  lemma Connects() returns (s: State)
    ensures Takes(START, LAccept(5, 1), s) && ListenerRuns(s) && s.listener == Accepted(5) && s.poll == {}
    ensures s.table.Valid() && s.table.Sessions() == map[0 := NewCell(5, 1)] && s.listenFd == 3
  {
    StartIsInit();
    AcceptIsNew(START, 5);
    PushInitialSessions(START.table, 5, 1, true);
    hide Inv;
    s := AcceptStep(START, 5, 1);
    hide Table.Push, Table.Valid;
    assert s == Apply(START, LAccept(5, 1));
  }

  // ... its descriptor is polled, ...
  lemma IsPolled(s: State) returns (s': State)
    requires Inv(s) && ListenerRuns(s) && s.listener == Accepted(5) && s.poll == {}
    ensures Takes(s, LAddPoll, s') && AtRest(s') && s'.poll == {5} && s'.table == s.table
  {
    s' := AddPollStep(s);
  }

  // The session when it is new, taken, and read for.
  const IDLE := NewCell(5, 1)
  const TAKEN := NewCell(5, 1).(status := 0x80)

  function QueuedWith(data: string): Cell { NewCell(5, 1).(status := 0x02, buffer := data) }

  lemma Words()
    ensures PoppableByFd(0) && PopWord(0) == 0x80 && Held(0x80) && PushWord(0x80, RequestRead) == 0x02
    ensures !PoppableByFd(0x02) && !Held(0x02) && Eligible(0x02, Parse)
  {
  }

  // ... the listener takes its session, ...
  lemma IsTaken(s: State) returns (s': State)
    requires Inv(s) && AtRest(s) && s.poll == {5} && s.table.Sessions() == map[0 := IDLE]
    ensures Takes(s, LPop(5), s') && ListenerRuns(s') && s'.poll == {5} && s'.table.Valid()
    ensures s'.listener == Reading(0, TAKEN) && s'.table.Sessions() == map[0 := TAKEN]
  {
    Words();
    OnlySession(s.table, IDLE);
    hide PoppableByFd, PopWord, Table.Sessions, Table.IndexOf, Table.Row, Table.HasFd;
    s' := PopStep(s, 5);
    TakesIsApply(s, LPop(5), s');
    hide Inv, Takes;
    TakenView(s);
  }

  lemma TakesIsApply(s: State, step: Step, s': State)
    requires Takes(s, step, s')
    ensures Sane(s) && Enabled(s, step) && Safe(s, step) && s' == Apply(s, step)
  {
    hide Enabled, Safe, Apply;
  }

  lemma TakenView(s: State)
    requires Sane(s) && Enabled(s, LPop(5)) && s.table.Sessions() == map[0 := IDLE]
    requires s.table.HasFd(5) && s.table.rows[s.table.IndexOf(5)] == 0 && s.table.Row(s.table.IndexOf(5)) == IDLE
    ensures var s' := Apply(s, LPop(5));
            s'.table.Valid() && s'.listener == Reading(0, TAKEN) && s'.table.Sessions() == map[0 := TAKEN]
  {
    Words();
    PopView(s, 5);
    hide Apply, PopWord, Table.Sessions, Table.IndexOf, Table.Row, Table.Valid, Enabled;
    var v := ViewOf(Apply(s, LPop(5)));
    assert v.sess == map[0 := IDLE][0 := TAKEN];
    assert map[0 := IDLE][0 := TAKEN] == map[0 := TAKEN];
  }

  lemma OnlySession(t: Table, c: Cell)
    requires t.Valid() && t.Sessions() == map[0 := c]
    ensures t.HasFd(c.fd) && t.rows[t.IndexOf(c.fd)] == 0 && t.Row(t.IndexOf(c.fd)) == c
  {
    SameSessionOfFd(t, 0, c.fd);
    FdLookup(t, c.fd);
  }

  // ... and reads a request.
  lemma IsRead(s: State, data: string) returns (s': State)
    requires Inv(s) && ListenerRuns(s) && s.poll == {5} && s.listener == Reading(0, TAKEN)
    requires s.table.Sessions() == map[0 := TAKEN]
    ensures Takes(s, LRead(Complete(data)), s') && AtRest(s') && s'.poll == {5} && s'.table.Valid()
    ensures s'.table.Sessions() == map[0 := QueuedWith(data)]
  {
    hide Table.Sessions;
    s' := ReadStep(s, Complete(data));
    TakesIsApply(s, LRead(Complete(data)), s');
    hide Inv, Takes;
    QueuedView(s, data);
  }

  lemma QueuedView(s: State, data: string)
    requires Sane(s) && Enabled(s, LRead(Complete(data))) && Safe(s, LRead(Complete(data)))
    requires s.listener == Reading(0, TAKEN) && s.table.Sessions() == map[0 := TAKEN]
    ensures var s' := Apply(s, LRead(Complete(data)));
            s'.table.Valid() && s'.table.Sessions() == map[0 := QueuedWith(data)]
  {
    Words();
    PushedIsQueued(data);
    hide Apply, Table.Pushed, Table.Sessions, Table.Valid, Enabled, Safe, Held;
    ReadView(s, Complete(data));
    var v := ViewOf(Apply(s, LRead(Complete(data))));
    assert v.sess == map[0 := TAKEN][0 := QueuedWith(data)];
    assert map[0 := TAKEN][0 := QueuedWith(data)] == map[0 := QueuedWith(data)];
  }

  lemma PushedIsQueued(data: string)
    ensures Table.Pushed(ReadCell(TAKEN, Complete(data)), RequestRead) == QueuedWith(data)
  {
    Words();
    assert "" + data == data;
  }

  // In the state that this run ends in, input for that descriptor is not safe: the session waits to be
  // parsed, so the listener may not take it, and the assertion of push_request fails.
  lemma EventOnQueuedSessionFailsTheAssertion(data: string) returns (states: seq<State>, steps: seq<Step>)
    ensures IsRun(states, steps) && steps == [LAccept(5, 1), LAddPoll, LPop(5), LRead(Complete(data))]
    ensures var s := states[4];
            && Inv(s) && ListenerRuns(s) && s.listener == AtTop && 5 in s.poll && s.table.HasFd(5)
            && Eligible(s.table.Row(s.table.IndexOf(5)).status, Parse)
            && !s.table.PushAllowed(5) && !EventIsSafe(s, 5)
  {
    StartIsInit();
    hide Inv, Takes;
    var s1 := Connects();
    TakesKeeps(START, LAccept(5, 1), s1);
    var s2 := IsPolled(s1);
    TakesKeeps(s1, LAddPoll, s2);
    var s3 := IsTaken(s2);
    TakesKeeps(s2, LPop(5), s3);
    var s4 := IsRead(s3, data);
    TakesKeeps(s3, LRead(Complete(data)), s4);
    states, steps := [START, s1, s2, s3, s4], [LAccept(5, 1), LAddPoll, LPop(5), LRead(Complete(data))];
    FourSteps(s1, s2, s3, s4, data);
    QueuedEvent(s4, QueuedWith(data));
  }

  lemma FourSteps(s1: State, s2: State, s3: State, s4: State, data: string)
    requires Takes(START, LAccept(5, 1), s1) && Takes(s1, LAddPoll, s2)
    requires Takes(s2, LPop(5), s3) && Takes(s3, LRead(Complete(data)), s4)
    ensures IsRun([START, s1, s2, s3, s4], [LAccept(5, 1), LAddPoll, LPop(5), LRead(Complete(data))])
  {
    hide Takes, Moves, Init, Inv;
    StartIsInit();
    TakesMoves(START, LAccept(5, 1), s1);
    TakesMoves(s1, LAddPoll, s2);
    TakesMoves(s2, LPop(5), s3);
    TakesMoves(s3, LRead(Complete(data)), s4);
  }

  lemma TakesMoves(s: State, step: Step, s': State)
    requires Takes(s, step, s')
    ensures Moves(s, step, s')
  {
    hide Inv, Enabled, Safe, Apply;
  }

  lemma QueuedEvent(s: State, c: Cell)
    requires Inv(s) && AtRest(s) && s.poll == {5} && s.table.Sessions() == map[0 := c] && c.fd == 5 && c.status == 0x02
    ensures s.table.HasFd(5) && Eligible(s.table.Row(s.table.IndexOf(5)).status, Parse)
    ensures !s.table.PushAllowed(5) && !EventIsSafe(s, 5)
  {
    OnlySession(s.table, c);
    Words();
    InFlightEventBreaksOwnership(s, 5);
    hide Inv, EventIsSafe;
  }
}
