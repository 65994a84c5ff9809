/** What holds of every run of the server, whatever the interleaving: the results that the
    invariant was for. */
module ProtocolRuns {
  import opened HttpTypes
  import opened StatusWord
  import opened SessionTable
  import opened Protocol
  import opened ProtocolInvariant
  import Buffers
  import Sender

  // ----- Runs -----

  ghost predicate Sane(s: State) { s.table.Valid() && |s.journals| == s.table.Max() }

  // One step of the system. From a state or by a step that is not safe, anything may follow.
  ghost predicate Moves(s: State, step: Step, s': State) {
    Sane(s) ==> Enabled(s, step) && (Safe(s, step) ==> s' == Apply(s, step))
  }

  ghost predicate IsRun(states: seq<State>, steps: seq<Step>) {
    && |states| == |steps| + 1 && Init(states[0])
    && forall i :: 0 <= i < |steps| ==> Moves(states[i], steps[i], states[i + 1])
  }

  // No run ever fails an assertion of push_request or writes through a stale pointer, and
  // the invariant holds all along.
  lemma {:induction false} EveryRunIsSafe(states: seq<State>, steps: seq<Step>, i: nat)
    requires IsRun(states, steps) && i < |states|
    ensures Inv(states[i])
    ensures i < |steps| ==>
              && Enabled(states[i], steps[i]) && Safe(states[i], steps[i])
              && states[i + 1] == Apply(states[i], steps[i])
  {
    if i == 0 {
      InitInv(states[0]);
    } else {
      EveryRunIsSafe(states, steps, i - 1);
      StepKeeps(states[i - 1], steps[i - 1]);
    }
    if i < |steps| {
      assert Moves(states[i], steps[i], states[i + 1]);
      StepKeeps(states[i], steps[i]);
    }
  }

  // ----- Who holds what -----

  // PROCESSING is set exactly on the sessions that an agent holds, and no two hold one.
  lemma HeldByExactlyOne(states: seq<State>, steps: seq<Step>, i: nat, k: nat)
    requires IsRun(states, steps) && i < |states| && states[i].table.Valid() && k in states[i].table.Sessions()
    ensures var s := states[i];
            Held(s.table.Sessions()[k].status) <==>
            exists a: int :: HoldOf(s.listener, s.workers, a).Some? && HoldOf(s.listener, s.workers, a).value.slot == k
    ensures forall a: int, b: int ::
              var s := states[i];
              && HoldOf(s.listener, s.workers, a).Some? && HoldOf(s.listener, s.workers, a).value.slot == k
              && HoldOf(s.listener, s.workers, b).Some? && HoldOf(s.listener, s.workers, b).value.slot == k
              ==> a == b
  {
    EveryRunIsSafe(states, steps, i);
    var s := states[i];
    if Held(s.table.Sessions()[k].status) {
      assert HoldOf(s.listener, s.workers, s.owner[k]) == Some(Hold(k, s.table.Sessions()[k]));
    }
  }

  // Is this the step by which agent `a` gives back what it holds?
  predicate GivesBack(step: Step, a: int) {
    (a == LISTENER && step.LRead?) || (step.WPush? && step.t == a)
  }

  // Until it gives the session back, an agent keeps it, through whatever the others do.
  lemma HolderKeeps(s: State, step: Step, a: int)
    requires Sane(s) && Enabled(s, step) && Safe(s, step) && HoldOf(s.listener, s.workers, a).Some?
    requires !GivesBack(step, a)
    ensures HoldOf(Apply(s, step).listener, Apply(s, step).workers, a) == HoldOf(s.listener, s.workers, a)
  {
  }

  lemma {:induction false} HolderKeepsOn(states: seq<State>, steps: seq<Step>, i: nat, j: nat, a: int)
    requires IsRun(states, steps) && i <= j < |states|
    requires HoldOf(states[i].listener, states[i].workers, a).Some?
    requires forall n :: i <= n < j ==> !GivesBack(steps[n], a)
    ensures HoldOf(states[j].listener, states[j].workers, a) == HoldOf(states[i].listener, states[i].workers, a)
  {
    if i < j {
      HolderKeepsOn(states, steps, i, j - 1, a);
      EveryRunIsSafe(states, steps, j - 1);
      HolderKeeps(states[j - 1], steps[j - 1], a);
    }
  }

  lemma HeldIsThere(s: State, a: int)
    requires Inv(s) && HoldOf(s.listener, s.workers, a).Some?
    ensures var h := HoldOf(s.listener, s.workers, a).value;
            h.slot in s.table.Sessions() && s.table.Sessions()[h.slot] == h.cell
  {
    HolderOwns(ViewOf(s), a);
  }

  // The pointers a pop hands out keep denoting the same session until its holder pushes: over
  // any stretch of a run, however many rows others add, delete and shift meanwhile, the slot
  // stays live and its descriptor, buffer, request and response are as they were.
  lemma HandedPointersStayGood(states: seq<State>, steps: seq<Step>, i: nat, j: nat, a: int)
    requires IsRun(states, steps) && i <= j < |states|
    requires HoldOf(states[i].listener, states[i].workers, a).Some?
    requires forall n :: i <= n < j ==> !GivesBack(steps[n], a)
    ensures states[i].table.Valid() && states[j].table.Valid()
    ensures var h := HoldOf(states[i].listener, states[i].workers, a).value;
            && h.slot in states[i].table.Sessions() && states[i].table.Sessions()[h.slot] == h.cell
            && h.slot in states[j].table.Sessions() && states[j].table.Sessions()[h.slot] == h.cell
  {
    HolderKeepsOn(states, steps, i, j, a);
    EveryRunIsSafe(states, steps, i);
    EveryRunIsSafe(states, steps, j);
    HeldIsThere(states[i], a);
    HeldIsThere(states[j], a);
  }

  // ----- The life of a descriptor -----

  // Between two steps of the listener the client descriptors in the poll array are exactly
  // those of the live sessions and the marked ones, and those are disjoint; so a descriptor
  // that accept may return has neither a session nor a mark.
  lemma PollIsSessionsAndMarks(states: seq<State>, steps: seq<Step>, i: nat)
    requires IsRun(states, steps) && i < |states| && states[i].listener == AtTop
    ensures var s := states[i];
            && s.table.Valid()
            && s.poll == Fds(s.table.Sessions()) + s.marks && Fds(s.table.Sessions()) !! s.marks
            && s.table.count + |s.marks| == |s.poll| && 1 + |s.poll| <= s.table.Max()
            && forall fd :: Closed(s, fd) ==> !s.table.HasFd(fd) && fd !in s.marks
  {
    EveryRunIsSafe(states, steps, i);
    var s := states[i];
    assert s.poll + Pending(s.listener) == s.poll;
    CountIsFds(s.table);
    forall fd | Closed(s, fd) ensures !s.table.HasFd(fd) {
      FdLookup(s.table, fd);
    }
  }

  // So an accepted connection always gets a row of its own, and evicts nobody.
  lemma AcceptNeverEvicts(states: seq<State>, steps: seq<Step>, i: nat, fd: int, id: int)
    requires IsRun(states, steps) && i < |steps| && steps[i] == LAccept(fd, id)
    ensures states[i].table.Valid() && states[i + 1].table.Valid() && states[i].table.count < states[i].table.Max()
    ensures var k := states[i].table.rows[states[i].table.count];
            && k !in states[i].table.Sessions()
            && states[i + 1].table.Sessions() == states[i].table.Sessions()[k := NewCell(fd, id)]
            && IsNew(states[i + 1].table.Sessions()[k], fd, id, false)
  {
    EveryRunIsSafe(states, steps, i);
    AcceptIsNew(states[i], fd);
    PushInitialSessions(states[i].table, fd, id, true);
  }

  // Nor does a TLS connection: after a handshake it has a row of its own, and without one it is marked
  // and nothing else has changed.
  lemma AcceptTlsNeverEvicts(states: seq<State>, steps: seq<Step>, i: nat, fd: int, id: int, handshake: bool)
    requires IsRun(states, steps) && i < |steps| && steps[i] == LAcceptTls(fd, id, handshake)
    ensures states[i].table.Valid() && states[i + 1].table.Valid() && states[i].table.count < states[i].table.Max()
    ensures var k := states[i].table.rows[states[i].table.count];
            if handshake then
              && k !in states[i].table.Sessions() && states[i + 1].marks == states[i].marks
              && states[i + 1].table.Sessions() ==
                 states[i].table.Sessions()[k := NewCell(fd, id).(request := ZERO_REQUEST.(isSsl := true))]
              && IsNew(states[i + 1].table.Sessions()[k], fd, id, true)
            else states[i + 1].table == states[i].table && states[i + 1].marks == states[i].marks + {fd}
  {
    EveryRunIsSafe(states, steps, i);
    AcceptIsNew(states[i], fd);
    hide IsRun, Inv, Moves;
    PushInitialSslSessions(states[i].table, fd, id, handshake);
  }

  // ----- The pipeline -----

  predicate ByListener(step: Step) {
    step.LAccept? || step.LAcceptTls? || step.LAddPoll? || step.LPurge? || step.LStale? || step.LPop? || step.LRead?
        || step.LRemove?
  }

  // A session in the pipeline, as one sees it from outside.
  ghost predicate InPipeline(s: State, k: nat)
    requires s.table.Valid()
  {
    k in s.table.Sessions() && PhaseOf(s.table.Sessions()[k].status).Queued?
  }

  ghost predicate SameSession(s: State, s': State, k: nat)
    requires s.table.Valid() && s'.table.Valid()
  {
    && k in s.table.Sessions() && k in s'.table.Sessions() && s'.table.Sessions()[k] == s.table.Sessions()[k]
    && k < |s.journals| && k < |s'.journals| && s'.journals[k] == s.journals[k]
  }

  lemma PopLeavesPipeline(s: State, fd: int, k: nat)
    requires Inv(s) && Enabled(s, LPop(fd)) && InPipeline(s, k)
    ensures Apply(s, LPop(fd)).table.Valid() && SameSession(s, Apply(s, LPop(fd)), k)
  {
    PopView(s, fd);
    PoppableIsIdleOrParked(s.table.Row(s.table.IndexOf(fd)).status);
  }

  lemma NotTheListeners(s: State, k: nat)
    requires Inv(s) && s.listener.Reading? && InPipeline(s, k)
    ensures k != s.listener.slot && k < |s.journals|
    ensures HeldSlot(s.table.Sessions(), s.listener.slot, s.listener.cell)
  {
    HolderOwns(ViewOf(s), LISTENER);
  }

  lemma ReadLeavesOthers(s: State, outcome: ReadOutcome, k: nat)
    requires Sane(s) && Enabled(s, LRead(outcome))
    requires HeldSlot(s.table.Sessions(), s.listener.slot, s.listener.cell)
    requires k in s.table.Sessions() && k != s.listener.slot && k < |s.journals|
    ensures Safe(s, LRead(outcome)) && Apply(s, LRead(outcome)).table.Valid()
    ensures SameSession(s, Apply(s, LRead(outcome)), k)
  {
    ReadView(s, outcome);
  }

  lemma ReadLeavesPipeline(s: State, outcome: ReadOutcome, k: nat)
    requires Inv(s) && Enabled(s, LRead(outcome)) && InPipeline(s, k)
    ensures Safe(s, LRead(outcome)) && Apply(s, LRead(outcome)).table.Valid()
    ensures SameSession(s, Apply(s, LRead(outcome)), k)
  {
    NotTheListeners(s, k);
    ReadLeavesOthers(s, outcome, k);
  }

  lemma AcceptPlainLeaves(s: State, fd: int, id: int, k: nat)
    requires Inv(s) && Enabled(s, LAccept(fd, id)) && k in s.table.Sessions()
    ensures Safe(s, LAccept(fd, id)) && Apply(s, LAccept(fd, id)).table.Valid()
    ensures SameSession(s, Apply(s, LAccept(fd, id)), k)
  {
    AcceptIsNew(s, fd);
    SlotIsInPool(s, k);
    hide Inv, Table.Push, Table.Add, PhaseOf;
    PushInitialSessions(s.table, fd, id, true);
  }

  lemma AcceptTlsLeaves(s: State, fd: int, id: int, handshake: bool, k: nat)
    requires Inv(s) && Enabled(s, LAcceptTls(fd, id, handshake)) && k in s.table.Sessions()
    ensures Safe(s, LAcceptTls(fd, id, handshake)) && Apply(s, LAcceptTls(fd, id, handshake)).table.Valid()
    ensures SameSession(s, Apply(s, LAcceptTls(fd, id, handshake)), k)
  {
    AcceptIsNew(s, fd);
    SlotIsInPool(s, k);
    TlsLeavesSlot(s.table, fd, id, handshake, k);
    hide Inv, Table.Push, Table.Sessions, Table.PushAllowed;
  }

  lemma TlsLeavesSlot(t: Table, fd: int, id: int, handshake: bool, k: nat)
    requires t.Valid() && t.PushAllowed(fd) && !t.HasFd(fd) && t.count < t.Max() && k in t.Sessions()
    ensures var t' := t.Push(fd, InitialSsl, id, handshake);
            t'.Valid() && k in t'.Sessions() && t'.Sessions()[k] == t.Sessions()[k]
  {
    PushInitialSslSessions(t, fd, id, handshake);
  }

  lemma StaleLeavesPipeline(s: State, fd: int, k: nat)
    requires Inv(s) && Enabled(s, LStale(fd)) && InPipeline(s, k)
    ensures Safe(s, LStale(fd)) && Apply(s, LStale(fd)).table.Valid() && SameSession(s, Apply(s, LStale(fd)), k)
  {
    StaleIsNothing(s, fd);
    SlotIsInPool(s, k);
  }

  lemma SlotIsInPool(s: State, k: nat)
    requires Inv(s) && k in s.table.Sessions()
    ensures k < |s.journals|
  {
  }

  // Between the push of REQUEST_READ and that of SENT the listener leaves a session alone: its
  // buffer, request, response, status and history are untouched by every listener step.
  lemma ListenerLeavesPipelineAlone(s: State, step: Step, k: nat)
    requires Inv(s) && Enabled(s, step) && ByListener(step) && InPipeline(s, k)
    ensures Safe(s, step) && Apply(s, step).table.Valid() && SameSession(s, Apply(s, step), k)
  {
    match step
    case LAccept(fd, id) => AcceptPlainLeaves(s, fd, id, k);
    case LAcceptTls(fd, id, handshake) => AcceptTlsLeaves(s, fd, id, handshake, k);
    case LStale(fd) => StaleLeavesPipeline(s, fd, k);
    case LPop(fd) => PopLeavesPipeline(s, fd, k);
    case LRead(outcome) => ReadLeavesPipeline(s, outcome, k);
    case _ =>
  }

  // A push of SENT, and a REJECTED that is not a transport failure, come only when the last byte
  // is on the wire, and then the request is recorded as delivered.
  lemma SentIsDelivered(s: State, t: nat, work: Work)
    requires Inv(s) && Enabled(s, WPush(t, work)) && Safe(s, WPush(t, work))
    requires var w := Pushes(s.workers[t].pc.cell, work); w == Sent || (w == Rejected && work.outcome.ret > 0)
    ensures var j := Recorded(s.journals[s.workers[t].pc.slot], s.workers[t].pc.cell, work);
            && Apply(s, WPush(t, work)).delivered == s.delivered + [j]
            && DeliveredOnce(j)
  {
    HolderOwns(ViewOf(s), t);
    var c := s.workers[t].pc.cell;
    WorkFitsNext(c, s.journals[s.workers[t].pc.slot], work, s.workers[t].stage);
    Sender.StatusMeansFinished(c.request.isSsl, work.outcome, c.buffer, c.request.connection);
  }

  // In every run, every response that was sent in full was made by one parse, one load, one
  // build and then sends, in that order, and the bytes on the wire are the response built.
  lemma EveryDeliveryIsExactlyOnce(states: seq<State>, steps: seq<Step>, i: nat, n: nat)
    requires IsRun(states, steps) && i < |states| && n < |states[i].delivered|
    ensures var j := states[i].delivered[n];
            && 3 < |j.actions| && j.actions[..3] == [Parse, Load, Build]
            && (forall m :: 3 <= m < |j.actions| ==> j.actions[m] == Send)
            && j.wire == j.built
  {
    EveryRunIsSafe(states, steps, i);
  }

  // At every moment of every run, for a session that waits to be sent or is being sent, what
  // is on the wire followed by what is in the buffer is the response that was built.
  lemma WireAndBufferMakeTheResponse(states: seq<State>, steps: seq<Step>, i: nat, k: nat)
    requires IsRun(states, steps) && i < |states| && states[i].table.Valid() && k in states[i].table.Sessions()
    requires PhaseOf(states[i].table.Sessions()[k].status) == Queued(Send)
    ensures k < |states[i].journals|
    ensures states[i].journals[k].wire + states[i].table.Sessions()[k].buffer == states[i].journals[k].built
  {
    EveryRunIsSafe(states, steps, i);
    assert ViewOf(states[i]).sess == states[i].table.Sessions();
  }

  // ----- What reaches a session -----

  // In every run nothing is left of an earlier request in a session that waits for input: its buffer
  // is empty, and its request is zeroed but for the TLS flag.
  lemma IdleIsBlank(states: seq<State>, steps: seq<Step>, i: nat, k: nat)
    requires IsRun(states, steps) && i < |states| && states[i].table.Valid() && k in states[i].table.Sessions()
    requires PhaseOf(states[i].table.Sessions()[k].status).Idle?
    ensures var c := states[i].table.Sessions()[k]; c.buffer == "" && c.request.(isSsl := false) == ZERO_REQUEST
  {
    EveryRunIsSafe(states, steps, i);
    assert ViewOf(states[i]).sess == states[i].table.Sessions();
  }

  // What a read that did not fail leaves of the session c. After a complete one exactly the data read
  // waits for the parser, unless the session is parked and stays so; one that is to be retried changes
  // no more than the word.
  ghost predicate ReadInto(c: Cell, c': Cell, outcome: ReadOutcome) {
    && c'.(status := c.status, buffer := c.buffer) == c && !Held(c'.status)
    && (outcome.Retry? ==> c'.buffer == c.buffer && PhaseOf(c'.status) == PhaseOf(c.status))
    && (outcome.Complete? && PhaseOf(c.status).Idle? ==>
          c'.buffer == outcome.data && Eligible(c'.status, Parse))
    && (outcome.Complete? && !PhaseOf(c.status).Idle? ==>
          c'.buffer == c.buffer + outcome.data && PhaseOf(c'.status).Parked?)
  }

  lemma ReadCellIs(c: Cell, outcome: ReadOutcome)
    requires WellFormed(c.status) && Held(c.status) && !PhaseOf(c.status).Queued? && !outcome.Failed?
    requires PhaseOf(c.status).Idle? ==> Blank(c)
    ensures ReadInto(c, Table.Pushed(ReadCell(c, outcome), ReadStatus(outcome)), outcome)
  {
    PushRefines(c.status, ReadStatus(outcome));
    hide WellFormed, Held, PhaseOf, PushWord;
    assert outcome.Complete? ==> "" + outcome.data == outcome.data;
  }

  lemma HeldIsNotMarked(v: View, a: int)
    requires Kept(v) && HoldOf(v.listener, v.workers, a).Some?
    ensures HoldOf(v.listener, v.workers, a).value.cell.fd !in v.marks
  {
    HolderOwns(v, a);
    assert HoldOf(v.listener, v.workers, a).value.cell.fd in Fds(v.sess);
  }

  // What the listener's read does to the session it holds: one that failed ends the session and marks
  // its descriptor, and no other read does.
  lemma ReadQueuesTheData(states: seq<State>, steps: seq<Step>, i: nat, outcome: ReadOutcome)
    requires IsRun(states, steps) && i < |steps| && steps[i] == LRead(outcome)
    ensures states[i].listener.Reading? && states[i].table.Valid() && states[i + 1].table.Valid()
    ensures var (k, c) := (states[i].listener.slot, states[i].listener.cell);
            var before, after := states[i].table.Sessions(), states[i + 1].table.Sessions();
            && k in before && before[k] == c
            && (k !in after <==> outcome.Failed?) && (c.fd in states[i + 1].marks <==> outcome.Failed?)
            && (k in after ==> ReadInto(c, after[k], outcome))
  {
    EveryRunIsSafe(states, steps, i);
    ReadDoes(states[i], outcome);
    hide *;
  }

  lemma ReadDoes(s: State, outcome: ReadOutcome)
    requires Inv(s) && Enabled(s, LRead(outcome)) && Safe(s, LRead(outcome))
    ensures var s' := Apply(s, LRead(outcome));
            var (k, c) := (s.listener.slot, s.listener.cell);
            && s.table.Valid() && s'.table.Valid()
            && k in s.table.Sessions() && s.table.Sessions()[k] == c
            && (k !in s'.table.Sessions() <==> outcome.Failed?) && (c.fd in s'.marks <==> outcome.Failed?)
            && (k in s'.table.Sessions() ==> ReadInto(c, s'.table.Sessions()[k], outcome))
  {
    HolderOwns(ViewOf(s), LISTENER);
    HeldIsNotMarked(ViewOf(s), LISTENER);
    hide Apply, Inv, WellFormed, PhaseOf, Safe, Table.Sessions, Table.Valid, Held, Table.Pushed, ReadInto, Blank;
    ReadView(s, outcome);
    if !outcome.Failed? {
      ReadCellIs(s.listener.cell, outcome);
    }
  }

  // What a handler before the sender leaves of the session c: the parser's request and response, the
  // loader's page, the builder's message are in it, and it waits for the next pool.
  ghost predicate WorkInto(c: Cell, c': Cell, work: Work)
    requires !work.Sending?
  {
    && c'.fd == c.fd && c'.id == c.id && c'.bioFd == c.bioFd && c'.response == work.response
    && c'.request == (if work.Parsing? then work.request else c.request)
    && c'.buffer == (if work.Parsing? then c.buffer else if work.Loading? then work.body else work.message)
    && Eligible(c'.status, if work.Parsing? then Load else if work.Loading? then Build else Send)
  }

  // What the sender leaves of it: after a refusal the whole response, parked or queued once more; after
  // a partial send the rest of it; and after all of it went a session without anything of the request.
  ghost predicate SendInto(c: Cell, c': Cell, o: Sender.Outcome) {
    var tls := c.request.isSsl;
    && c'.fd == c.fd && c'.id == c.id && c'.bioFd == c.bioFd && c'.response == c.response && !Held(c'.status)
    && (Sender.MustWait(tls, o) ==> c'.(status := c.status) == c && PhaseOf(c'.status).Parked?)
    && (Sender.MayGoOn(tls, o) ==> c'.(status := c.status) == c && Eligible(c'.status, Send))
    && (0 < o.ret < |c.buffer| ==>
          c'.(status := c.status) == c.(buffer := c.buffer[o.ret..]) && Eligible(c'.status, Send))
    && (o.ret == |c.buffer| && 0 < o.ret ==> PhaseOf(c'.status).Idle? && Blank(c'))
  }

  lemma WorkCellIs(c: Cell, work: Work, stage: Stage)
    requires WellFormed(c.status) && Held(c.status) && PhaseOf(c.status) == Queued(stage)
    requires WorkFits(stage, c, work) && !work.Sending?
    ensures WorkInto(c, Table.Pushed(Worked(c, work), Pushes(c, work)), work)
  {
    hide WellFormed, Held, PhaseOf, PushWord, Sender.NextStatus, Sender.Plausible;
    match stage {
      case Parse => PushRefines(c.status, Parsed);
      case Load => PushRefines(c.status, DataFetched);
      case Build => PushRefines(c.status, ReadyToSend);
      case Send => assert false;
    }
  }

  lemma SendCellIs(c: Cell, o: Sender.Outcome)
    requires WellFormed(c.status) && Held(c.status) && PhaseOf(c.status) == Queued(Send)
    requires WorkFits(Send, c, Sending(o)) && 0 < |c.buffer| && Pushes(c, Sending(o)) != Rejected
    ensures SendInto(c, Table.Pushed(Worked(c, Sending(o)), Pushes(c, Sending(o))), o)
  {
    Sender.StatusMeansFinished(c.request.isSsl, o, c.buffer, c.request.connection);
    PushRefines(c.status, Pushes(c, Sending(o)));
    hide WellFormed, Held, PhaseOf, PushWord, Sender.NextStatus;
  }

  lemma WorkReachesTheSession(states: seq<State>, steps: seq<Step>, i: nat, t: nat, work: Work)
    requires IsRun(states, steps) && i < |steps| && steps[i] == WPush(t, work) && !work.Sending?
    ensures t < |states[i].workers| && states[i].workers[t].pc.Holding?
    ensures states[i].table.Valid() && states[i + 1].table.Valid()
    ensures var (k, c) := (states[i].workers[t].pc.slot, states[i].workers[t].pc.cell);
            var before, after := states[i].table.Sessions(), states[i + 1].table.Sessions();
            k in before && before[k] == c && k in after && WorkInto(c, after[k], work)
  {
    EveryRunIsSafe(states, steps, i);
    WorkDoes(states[i], t, work);
    hide *;
  }

  lemma WorkDoes(s: State, t: nat, work: Work)
    requires Inv(s) && Enabled(s, WPush(t, work)) && Safe(s, WPush(t, work)) && !work.Sending?
    ensures var s' := Apply(s, WPush(t, work));
            var (k, c) := (s.workers[t].pc.slot, s.workers[t].pc.cell);
            && s.table.Valid() && s'.table.Valid()
            && k in s.table.Sessions() && s.table.Sessions()[k] == c
            && k in s'.table.Sessions() && WorkInto(c, s'.table.Sessions()[k], work)
  {
    HolderOwns(ViewOf(s), t);
    hide Apply, Inv, WellFormed, PhaseOf, Safe, Table.Sessions, Table.Valid, Held, Table.Pushed, WorkInto;
    PushChangesOne(s, t, work);
    WorkCellIs(s.workers[t].pc.cell, work, s.workers[t].stage);
  }

  // The session the sender holds ends exactly when the whole response went out and the connection is to
  // be closed, or when the transport failed, and then its descriptor is marked. So a send that is
  // refused for now never ends it.
  lemma RefusedSendKeepsTheSession(states: seq<State>, steps: seq<Step>, i: nat, t: nat, o: Sender.Outcome)
    requires IsRun(states, steps) && i < |steps| && steps[i] == WPush(t, Sending(o))
    ensures t < |states[i].workers| && states[i].workers[t].pc.Holding?
    ensures states[i].table.Valid() && states[i + 1].table.Valid()
    ensures var (k, c) := (states[i].workers[t].pc.slot, states[i].workers[t].pc.cell);
            var before, after := states[i].table.Sessions(), states[i + 1].table.Sessions();
            && k in before && before[k] == c && c.buffer != ""
            && (k !in after <==>
                  (o.ret == |c.buffer| && c.request.connection.Close?) || Sender.HasFailed(c.request.isSsl, o))
            && (c.fd in states[i + 1].marks <==> k !in after)
            && (k in after ==> SendInto(c, after[k], o))
  {
    EveryRunIsSafe(states, steps, i);
    SendDoes(states[i], t, o);
    hide *;
  }

  lemma SendDoes(s: State, t: nat, o: Sender.Outcome)
    requires Inv(s) && Enabled(s, WPush(t, Sending(o))) && Safe(s, WPush(t, Sending(o)))
    ensures var s' := Apply(s, WPush(t, Sending(o)));
            var (k, c) := (s.workers[t].pc.slot, s.workers[t].pc.cell);
            && s.table.Valid() && s'.table.Valid()
            && k in s.table.Sessions() && s.table.Sessions()[k] == c && c.buffer != ""
            && (k !in s'.table.Sessions() <==>
                  (o.ret == |c.buffer| && c.request.connection.Close?) || Sender.HasFailed(c.request.isSsl, o))
            && (c.fd in s'.marks <==> k !in s'.table.Sessions())
            && (k in s'.table.Sessions() ==> SendInto(c, s'.table.Sessions()[k], o))
  {
    var c := s.workers[t].pc.cell;
    HolderFits(ViewOf(s), t);
    HolderOwns(ViewOf(s), t);
    HeldIsNotMarked(ViewOf(s), t);
    hide Apply, Inv, WellFormed, PhaseOf, Safe, Table.Sessions, Table.Valid, Held, Table.Pushed, SendInto;
    PushView(s, t, Sending(o));
    Sender.StatusMeansFinished(c.request.isSsl, o, c.buffer, c.request.connection);
    if Pushes(c, Sending(o)) != Rejected {
      SendCellIs(c, o);
    }
  }

  // The stages a session has still to go through, and the bytes still to be sent.
  function StagesLeft(p: Phase): nat {
    match p
    case Queued(Parse) => 4
    case Queued(Load) => 3
    case Queued(Build) => 2
    case Queued(Send) => 1
    case _ => 0
  }

  function BytesLeft(c: Cell): nat { if PhaseOf(c.status) == Queued(Send) then |c.buffer| else 0 }

  ghost predicate Progress(c: Cell, c': Cell) {
    || StagesLeft(PhaseOf(c'.status)) < StagesLeft(PhaseOf(c.status))
    || (StagesLeft(PhaseOf(c'.status)) == StagesLeft(PhaseOf(c.status)) && BytesLeft(c') < BytesLeft(c))
  }

  lemma WorkProgress(c: Cell, j: Journal, work: Work, stage: Stage)
    requires WellFormed(c.status) && Held(c.status) && PhaseOf(c.status) == Queued(stage)
    requires JournalFits(j, stage, c.buffer) && WorkFits(stage, c, work) && (work.Sending? ==> work.outcome.ret > 0)
    requires Pushes(c, work) != Rejected
    ensures Progress(c, Table.Pushed(Worked(c, work), Pushes(c, work)))
  {
    WorkFitsNext(c, j, work, stage);
    WorkedFrame(c, work);
    PushedWord(Worked(c, work), Pushes(c, work));
    hide WellFormed, Held, PhaseOf, Table.Pushed, JournalFits;
    if work.Sending? {
      Sender.PartialSendShrinks(c.request.isSsl, work.outcome, c.buffer, c.request.connection);
    }
  }

  // Every push by a worker, when the transport takes at least a byte, brings its session nearer
  // to the end of the pipeline: the pair (stages left, bytes left) goes down, or the session
  // is gone. The other sessions stay as they are.
  lemma PushMakesProgress(s: State, t: nat, work: Work)
    requires Inv(s) && Enabled(s, WPush(t, work)) && (work.Sending? ==> work.outcome.ret > 0)
    ensures Safe(s, WPush(t, work)) && Apply(s, WPush(t, work)).table.Valid()
    ensures var k := s.workers[t].pc.slot;
            var after := Apply(s, WPush(t, work)).table.Sessions();
            && k in s.table.Sessions()
            && (k in after ==> Progress(s.table.Sessions()[k], after[k]))
            && forall k' :: k' in s.table.Sessions() && k' != k ==> k' in after && after[k'] == s.table.Sessions()[k']
  {
    HolderOwns(ViewOf(s), t);
    var (k, c) := (s.workers[t].pc.slot, s.workers[t].pc.cell);
    if Pushes(c, work) != Rejected {
      WorkProgress(c, s.journals[k], work, s.workers[t].stage);
    }
    PushChangesOne(s, t, work);
  }

  lemma PushChangesOne(s: State, t: nat, work: Work)
    requires Sane(s) && Enabled(s, WPush(t, work))
    requires HeldSlot(s.table.Sessions(), s.workers[t].pc.slot, s.workers[t].pc.cell)
    requires s.workers[t].pc.slot < |s.journals|
    ensures Safe(s, WPush(t, work)) && Apply(s, WPush(t, work)).table.Valid()
    ensures var (k, c) := (s.workers[t].pc.slot, s.workers[t].pc.cell);
            var before, after := s.table.Sessions(), Apply(s, WPush(t, work)).table.Sessions();
            && (k in after <==> Pushes(c, work) != Rejected)
            && (k in after ==> after[k] == Table.Pushed(Worked(c, work), Pushes(c, work)))
            && forall k' :: k' in before && k' != k ==> k' in after && after[k'] == before[k']
  {
    PushView(s, t, work);
  }

  // ----- Wakeups -----

  // In every run, while the mutex is free nobody sleeps on work: no worker that is asleep, not
  // signalled, belongs to a pool for which some session is eligible.
  lemma NoLostWakeup(states: seq<State>, steps: seq<Step>, i: nat, t: nat, k: nat)
    requires IsRun(states, steps) && i < |states| && t < |states[i].workers| && states[i].workers[t].pc == Asleep
    requires states[i].table.Valid() && k in states[i].table.Sessions()
    ensures !Eligible(states[i].table.Sessions()[k].status, states[i].workers[t].stage)
  {
    EveryRunIsSafe(states, steps, i);
    assert NoneEligible(ViewOf(states[i]).sess, states[i].workers[t].stage);
  }

  predicate ByWorker(step: Step, t: nat) {
    (step.WStart? || step.WLock? || step.WCheck? || step.WSleep? || step.WSpurious? || step.WPush?) && step.t == t
  }

  // So while a session waits for a pool and the mutex is free, every worker of the pool that has
  // not left can take its next step, and none of them waits to be woken.
  lemma PoolOfWaitingSessionCanStep(states: seq<State>, steps: seq<Step>, i: nat, t: nat, k: nat)
    requires IsRun(states, steps) && i < |states| && t < |states[i].workers| && states[i].mutex == None
    requires states[i].table.Valid() && k in states[i].table.Sessions()
    requires Eligible(states[i].table.Sessions()[k].status, states[i].workers[t].stage)
    requires states[i].workers[t].pc != Exited
    ensures states[i].workers[t].pc != Asleep
    ensures exists step :: Enabled(states[i], step) && ByWorker(step, t)
  {
    EveryRunIsSafe(states, steps, i);
    if states[i].workers[t].pc == Asleep {
      NoLostWakeup(states, steps, i, t, k);
    } else {
      FreeWorkerCanStep(states[i], t);
    }
  }

  lemma FreeWorkerCanStep(s: State, t: nat)
    requires Inv(s) && s.mutex == None && t < |s.workers| && s.workers[t].pc != Asleep && s.workers[t].pc != Exited
    ensures exists step :: Enabled(s, step) && ByWorker(step, t)
  {
    match s.workers[t].pc
    case Looping => assert Enabled(s, WStart(t)) && ByWorker(WStart(t), t);
    case Ready => assert Enabled(s, WLock(t)) && ByWorker(WLock(t), t);
    case Signalled => assert Enabled(s, WLock(t)) && ByWorker(WLock(t), t);
    case Holding(k, c) =>
      HolderOwns(ViewOf(s), t);
      var push := WPush(t, SomeWork(s.workers[t].stage, c));
      assert Enabled(s, push) && ByWorker(push, t);
    case _ =>
  }

  // ----- Shutdown -----

  predicate AllExited(workers: seq<Worker>) { forall t :: 0 <= t < |workers| ==> workers[t].pc == Exited }

  // The steps a worker still has to take, at most, once the pools were told to stop.
  function StepsLeft(pc: Pc): nat {
    match pc
    case Exited => 0
    case Looping => 1
    case Holding(_, _) => 2
    case Checking => 3
    case _ => 4
  }

  function TotalLeft(workers: seq<Worker>): nat {
    if workers == [] then 0 else StepsLeft(workers[0].pc) + TotalLeft(workers[1..])
  }

  lemma {:induction false} TotalLeftUpdate(workers: seq<Worker>, t: nat, w: Worker)
    requires t < |workers|
    ensures TotalLeft(workers[t := w]) == TotalLeft(workers) - StepsLeft(workers[t].pc) + StepsLeft(w.pc)
  {
    if t == 0 {
      assert workers[0 := w][1..] == workers[1..];
    } else {
      assert workers[t := w][1..] == workers[1..][t - 1 := w];
      TotalLeftUpdate(workers[1..], t - 1, w);
    }
  }

  lemma {:induction false} TotalLeftBound(workers: seq<Worker>)
    ensures TotalLeft(workers) <= 4 * |workers|
  {
    if workers != [] {
      TotalLeftBound(workers[1..]);
    }
  }

  // The worker that a step moves, and where to.
  function Moved(s: State, step: Step): (r: (nat, Pc))
    requires s.table.IsPermutation() && s.table.count <= s.table.Max()
    requires !ByListener(step) && step != Stop && step != BroadcastAll && step.t < |s.workers|
  {
    match step
    case WStart(t) => (t, if s.mode == Running then Ready else Exited)
    case WLock(t) => (t, Checking)
    case WCheck(t) =>
      var i := s.table.Peek(s.workers[t].stage, s.table.count);
      (t, if i >= 0 then Holding(s.table.Take(i).rows[i], s.table.Take(i).Row(i)) else if s.mode != Running
          then Looping else Deciding)
    case WSleep(t) => (t, Asleep)
    case WSpurious(t) => (t, Signalled)
    case WPush(t, _) => (t, Looping)
  }

  // Once the pools were told to stop, only workers move, and each step brings one nearer to
  // its exit.
  lemma ShutdownStep(s: State, step: Step)
    requires Sane(s) && Enabled(s, step) && Safe(s, step) && s.mode == Broadcast
    requires forall t :: 0 <= t < |s.workers| ==> !Sleepy(s.workers[t].pc)
    ensures Apply(s, step).mode == Broadcast && TotalLeft(Apply(s, step).workers) < TotalLeft(s.workers)
  {
    var t := step.t;
    var w' := s.workers[t].(pc := Moved(s, step).1);
    TotalLeftUpdate(s.workers, t, w');
    if step.WPush? {
      assert Woken(s.workers[t := w'], Wakes(Pushes(s.workers[t].pc.cell, step.work))) == s.workers[t := w'];
    }
    assert Apply(s, step).workers == s.workers[t := w'];
  }

  // The work that the holder of a cell can always finish with.
  function SomeWork(stage: Stage, c: Cell): Work {
    match stage
    case Parse => Parsing(c.request, c.response)
    case Load => Loading("", c.response)
    case Build => Building("x", c.response)
    case Send => Sending(Sender.Outcome(0, false, false, true))
  }

  // Nothing is stuck on the way: until all have exited some worker can take a step.
  lemma ShutdownNeverBlocks(s: State)
    requires Inv(s) && s.mode == Broadcast && !AllExited(s.workers)
    ensures exists step :: Enabled(s, step)
  {
    if s.mutex.Some? {
      assert Enabled(s, WCheck(s.mutex.value));
    } else {
      var t :| 0 <= t < |s.workers| && s.workers[t].pc != Exited;
      FreeWorkerCanStep(s, t);
    }
  }

  lemma ShutdownState(s: State)
    requires Inv(s) && s.mode == Broadcast
    ensures forall t :: 0 <= t < |s.workers| ==> !Sleepy(s.workers[t].pc)
    ensures (forall step :: !Enabled(s, step)) <==> AllExited(s.workers)
  {
    if !AllExited(s.workers) {
      ShutdownNeverBlocks(s);
    }
  }

  lemma {:induction false} ShutdownRun(states: seq<State>, steps: seq<Step>, i: nat, j: nat)
    requires IsRun(states, steps) && i <= j < |states| && states[i].mode == Broadcast
    ensures states[j].mode == Broadcast
    ensures j - i + TotalLeft(states[j].workers) <= TotalLeft(states[i].workers)
  {
    if i < j {
      ShutdownRun(states, steps, i, j - 1);
      ShutdownStepOf(states, steps, j - 1);
    }
  }

  lemma ShutdownStepOf(states: seq<State>, steps: seq<Step>, i: nat)
    requires IsRun(states, steps) && i < |steps| && states[i].mode == Broadcast
    ensures states[i + 1].mode == Broadcast && TotalLeft(states[i + 1].workers) < TotalLeft(states[i].workers)
  {
    EveryRunIsSafe(states, steps, i);
    ShutdownState(states[i]);
    hide IsRun, Moves, Apply;
    ShutdownStep(states[i], steps[i]);
  }

  // After stop and the broadcast, no worker is or ever becomes asleep; a run goes on for at most
  // four steps a worker, and where it cannot go on every worker has exited: each join returns.
  lemma EveryJoinReturns(states: seq<State>, steps: seq<Step>, i: nat, j: nat)
    requires IsRun(states, steps) && i <= j < |states| && states[i].mode == Broadcast
    ensures states[j].mode == Broadcast && states[j].table.Valid()
    ensures j - i <= 4 * |states[i].workers|
    ensures forall t :: 0 <= t < |states[j].workers| ==> states[j].workers[t].pc != Asleep
    ensures (forall step :: !Enabled(states[j], step)) <==> AllExited(states[j].workers)
  {
    ShutdownRun(states, steps, i, j);
    TotalLeftBound(states[i].workers);
    EveryRunIsSafe(states, steps, j);
    ShutdownState(states[j]);
  }

  // ----- Events for a session in the pipeline -----

  // What the listener does on input for a descriptor that has a session: it takes the session,
  // or else rejects it on the spot. Safe is what passes the assertion of push_request and
  // leaves no agent with a session that is gone.
  ghost predicate EventIsSafe(s: State, fd: int)
    requires s.table.Valid() && |s.journals| == s.table.Max() && s.table.HasFd(fd)
    requires ListenerRuns(s) && s.listener == AtTop && fd in s.poll
  {
    if PoppableByFd(s.table.Row(s.table.IndexOf(fd)).status) then Inv(Apply(s, LPop(fd))) else RejectIsSafe(s, fd)
  }

  ghost predicate RejectIsSafe(s: State, fd: int)
    requires s.table.Valid()
  {
    && s.table.PushAllowed(fd)
    && var t := s.table.Push(fd, Rejected, 0, true);
       t.Valid() && exists owner :: Ownership(t.Sessions(), owner, s.listener, s.workers)
  }

  // An event on a session is safe exactly when the session is out of the pipeline, which is why
  // the other events are no steps: on a queued session the assertion fails, and on one that a
  // worker holds the row disappears under the worker.
  lemma InFlightEventBreaksOwnership(s: State, fd: int)
    requires Inv(s) && ListenerRuns(s) && s.listener == AtTop && fd in s.poll && s.table.HasFd(fd)
    ensures EventIsSafe(s, fd) <==> PoppableByFd(s.table.Row(s.table.IndexOf(fd)).status)
  {
    var i := s.table.IndexOf(fd);
    if PoppableByFd(s.table.Row(i).status) {
      PopKeeps(s, fd);
    } else if Held(s.table.Row(i).status) {
      var k := s.table.rows[i];
      SlotOf(s.table, i);
      PushRejectedFound(s.table, fd, 0, true);
      assert k in s.owner;
      var after := s.table.Push(fd, Rejected, 0, true).Sessions();
      assert HoldOf(s.listener, s.workers, s.owner[k]) == Some(Hold(k, s.table.Row(i)));
      forall owner ensures !Ownership(after, owner, s.listener, s.workers) {
        assert k !in after;
      }
    }
  }
}
