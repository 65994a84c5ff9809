/** The server as a step system: one listener thread and the worker pools over the session
    table. Each critical section under the session mutex is one step, and the steps of the
    threads interleave freely.

    Socket events are those the listener asks for (it polls for input only). An event on a
    connection that is in the pipeline is not a step here; `InFlightEventBreaksOwnership`
    in ProtocolRuns says what it would do. */
module Protocol {
  import opened HttpTypes
  import opened StatusWord
  import opened SessionTable
  import Buffers
  import Sender

  // Where a worker is. `Holding` carries what pop_request handed out: the slot the pointers
  // point at, and what was there.
  datatype Pc =
    | Looping                           // about to read the stop flag
    | Ready                             // saw it clear, not yet in pop_request's critical section
    | Checking                          // holds the mutex, about to call peek_next
    | Deciding                          // holds the mutex, found nothing and saw the flag clear
    | Asleep                            // in pthread_cond_wait, not signalled
    | Signalled                         // woken, waiting for the mutex
    | Holding(slot: nat, cell: Cell)    // owns a session, outside the mutex
    | Exited

  datatype Worker = Worker(stage: Stage, pc: Pc)

  datatype Listener =
    | AtTop
    | Accepted(fd: int)                 // between push_request and add_poll_fd_sync
    | Reading(slot: nat, cell: Cell)    // owns a session
    | Rejecting(fd: int)                // between push_request(REJECTED) and the removal

  // Shutdown: the stop flag is set, then close_workers broadcasts.
  datatype Mode = Running | Stopped | Broadcast

  // History of the request in a slot: what the workers did to it, in order, the response
  // that was built, and the bytes of it that the transport took.
  datatype Journal = Journal(actions: seq<Stage>, built: string, wire: string)

  const NO_JOURNAL := Journal([], "", "")

  datatype State = State(
    table: Table,
    poll: set<int>,                     // the client descriptors in the poll array
    marks: set<int>,
    listenFd: int,
    listener: Listener,
    workers: seq<Worker>,
    mutex: Option<nat>,                 // the worker that holds it across steps
    mode: Mode,
    owner: map<nat, int>,               // history: the agent each held slot was handed to
    journals: seq<Journal>,             // history, by slot
    delivered: seq<Journal>)            // history: the requests whose response was sent in full

  // Agents: the listener is -1, worker t is t.
  const LISTENER: int := -1

  datatype Hold = Hold(slot: nat, cell: Cell)

  function HoldOf(listener: Listener, workers: seq<Worker>, a: int): Option<Hold> {
    if a == LISTENER then
      if listener.Reading? then Some(Hold(listener.slot, listener.cell)) else None
    else if 0 <= a < |workers| && workers[a].pc.Holding? then
      Some(Hold(workers[a].pc.slot, workers[a].pc.cell))
    else None
  }

  // ----- Initial states -----

  // init_workers: n threads for each of the four handlers, handler by handler.
  function Handler(t: nat, n: nat): Stage {
    if t < n then Parse else if t < 2 * n then Load else if t < 3 * n then Build else Send
  }

  function InitWorkers(n: nat): (w: seq<Worker>)
    ensures |w| == 4 * n && forall t :: 0 <= t < 4 * n ==> w[t] == Worker(Handler(t, n), Looping)
  {
    seq(4 * n, t requires 0 <= t < 4 * n => Worker(Handler(t, n), Looping))
  }

  ghost predicate Init(s: State) {
    && s.table.Max() > 0 && s.table == Empty(s.table.Max())
    && s.poll == {} && s.marks == {} && 0 < s.listenFd < 16384
    && s.listener == AtTop && s.mutex == None && s.mode == Running
    && (exists n: nat :: n > 0 && s.workers == InitWorkers(n))
    && s.owner == map[] && s.delivered == []
    && s.journals == seq(s.table.Max(), _ => NO_JOURNAL)
  }

  // ----- Steps -----

  datatype ReadOutcome = Complete(data: string) | Retry | Failed

  // What a handler writes into the session it holds.
  datatype Work =
    | Parsing(request: HttpRequest, response: HttpResponse)
    | Loading(body: string, response: HttpResponse)
    | Building(message: string, response: HttpResponse)
    | Sending(outcome: Sender.Outcome)

  datatype Step =
    | LAccept(fd: int, id: int)
    | LAcceptTls(fd: int, id: int, handshake: bool)
    | LAddPoll
    | LPurge(fd: int)                   // a marked descriptor is closed, unmarked and dropped
    | LStale(fd: int)                   // an event whose session is already gone
    | LPop(fd: int)
    | LRead(outcome: ReadOutcome)
    | LRemove
    | WStart(t: nat)
    | WLock(t: nat)
    | WCheck(t: nat)
    | WSleep(t: nat)
    | WSpurious(t: nat)
    | WPush(t: nat, work: Work)
    | Stop
    | BroadcastAll

  // The cell after a handler's writes, and the status it pushes.
  function Worked(c: Cell, work: Work): Cell
    requires work.Sending? ==> Sender.Plausible(work.outcome, c.buffer) && |c.buffer| < Buffers.WORD - 1
  {
    match work
    case Parsing(q, p) => c.(request := q, response := p)
    case Loading(b, p) => c.(buffer := b, response := p)
    case Building(m, p) => c.(buffer := m, response := p)
    case Sending(o) => c.(buffer := Sender.Left(c.request.isSsl, o, c.buffer))
  }

  function Pushes(c: Cell, work: Work): WorkStatus {
    match work
    case Parsing(_, _) => Parsed
    case Loading(_, _) => DataFetched
    case Building(_, _) => ReadyToSend
    case Sending(o) => Sender.NextStatus(c.request.isSsl, o, c.buffer, c.request.connection)
  }

  // Which handler does which work. The builder's message is never empty.
  predicate WorkFits(stage: Stage, c: Cell, work: Work) {
    match stage
    case Parse => work.Parsing?
    case Load => work.Loading?
    case Build => work.Building? && 0 < |work.message| < Buffers.WORD - 1
    case Send => work.Sending? && Sender.Plausible(work.outcome, c.buffer) && |c.buffer| < Buffers.WORD - 1
  }

  function Recorded(j: Journal, c: Cell, work: Work): Journal
    requires work.Sending? ==> Sender.Plausible(work.outcome, c.buffer)
  {
    match work
    case Parsing(_, _) => j.(actions := j.actions + [Parse])
    case Loading(_, _) => j.(actions := j.actions + [Load])
    case Building(m, _) => j.(actions := j.actions + [Build], built := m, wire := "")
    case Sending(o) => j.(actions := j.actions + [Send], wire := j.wire + Sender.Taken(o, c.buffer))
  }

  function WriteSlot(t: Table, slot: nat, c: Cell): Table
    requires slot < |t.cells|
  {
    t.(cells := t.cells[slot := c])
  }

  // A broadcast on the condition variables of these pools.
  function Woken(workers: seq<Worker>, pools: set<Stage>): (w: seq<Worker>)
    ensures |w| == |workers|
    ensures forall t :: 0 <= t < |w| ==>
              w[t] == if workers[t].pc == Asleep && workers[t].stage in pools then workers[t].(pc := Signalled)
                  else workers[t]
  {
    seq(|workers|, t requires 0 <= t < |workers| =>
      if workers[t].pc == Asleep && workers[t].stage in pools then workers[t].(pc := Signalled) else workers[t])
  }

  const EVERY_POOL: set<Stage> := {Parse, Load, Build, Send}

  function WithPc(s: State, t: nat, pc: Pc): State
    requires t < |s.workers|
  {
    s.(workers := s.workers[t := s.workers[t].(pc := pc)])
  }

  ghost predicate AtPc(s: State, t: nat, pc: Pc) {
    t < |s.workers| && s.workers[t].pc == pc
  }

  // A descriptor that accept may return: one that is not open.
  ghost predicate Closed(s: State, fd: int) {
    0 < fd < 16384 && fd != s.listenFd && fd !in s.poll
  }

  // The poll array, whose first entry is the listening socket, has a free slot.
  ghost predicate PollHasRoom(s: State) { 1 + |s.poll| < s.table.Max() }

  ghost predicate ListenerRuns(s: State) { s.mode == Running && s.mutex == None }

  // What each step waits for.
  ghost predicate Enabled(s: State, step: Step)
    requires s.table.Valid()
  {
    match step
    case LAccept(fd, _) => ListenerRuns(s) && s.listener == AtTop && Closed(s, fd) && PollHasRoom(s)
    case LAcceptTls(fd, _, _) => ListenerRuns(s) && s.listener == AtTop && Closed(s, fd) && PollHasRoom(s)
    case LAddPoll => s.mode == Running && s.listener.Accepted?
    case LPurge(fd) => s.mode == Running && s.listener == AtTop && fd in s.poll && fd in s.marks
    case LStale(fd) => ListenerRuns(s) && s.listener == AtTop && fd in s.poll && !s.table.HasFd(fd)
    case LPop(fd) =>
      && ListenerRuns(s) && s.listener == AtTop && fd in s.poll && s.table.HasFd(fd)
      && PoppableByFd(s.table.Row(s.table.IndexOf(fd)).status)
    case LRead(_) => ListenerRuns(s) && s.listener.Reading?
    case LRemove => s.mode == Running && s.listener.Rejecting?
    case WStart(t) => AtPc(s, t, Looping)
    case WLock(t) => s.mutex == None && (AtPc(s, t, Ready) || AtPc(s, t, Signalled))
    case WCheck(t) => AtPc(s, t, Checking)
    case WSleep(t) => AtPc(s, t, Deciding)
    case WSpurious(t) => AtPc(s, t, Asleep)
    case WPush(t, work) =>
      && s.mutex == None && t < |s.workers| && s.workers[t].pc.Holding?
      && WorkFits(s.workers[t].stage, s.workers[t].pc.cell, work)
    case Stop => s.mode == Running
    case BroadcastAll => s.mode == Stopped && s.mutex == None
  }

  // What the step relies on: the pointer it holds points into the pool, writing through it
  // leaves the table in order, and the assertions of push_request hold.
  ghost predicate PushIsSafe(t: Table, slot: nat, c: Cell) {
    && slot < |t.cells|
    && WriteSlot(t, slot, c).Valid()
    && WriteSlot(t, slot, c).PushAllowed(c.fd)
  }

  ghost predicate Safe(s: State, step: Step)
    requires s.table.Valid() && Enabled(s, step)
  {
    match step
    case LAccept(fd, _) => s.table.PushAllowed(fd)
    case LAcceptTls(fd, _, _) => s.table.PushAllowed(fd)
    case LStale(fd) => s.table.PushAllowed(fd)
    case LRead(outcome) => PushIsSafe(s.table, s.listener.slot, ReadCell(s.listener.cell, outcome))
    case WPush(t, work) =>
      PushIsSafe(s.table, s.workers[t].pc.slot, Worked(s.workers[t].pc.cell, work))
          && s.workers[t].pc.slot < |s.journals|
    case _ => true
  }

  function ReadCell(c: Cell, outcome: ReadOutcome): Cell {
    if outcome.Complete? then c.(buffer := c.buffer + outcome.data) else c
  }

  function ReadStatus(outcome: ReadOutcome): WorkStatus {
    match outcome case Complete(_) => RequestRead case Retry => Initial case Failed => Rejected
  }

  ghost function Apply(s: State, step: Step): State
    requires s.table.Valid() && |s.journals| == s.table.Max() && Enabled(s, step) && Safe(s, step)
  {
    match step
    case LAccept(fd, id) =>
      s.(table := s.table.Push(fd, Initial, id, true), listener := Accepted(fd))
    case LAcceptTls(fd, id, handshake) =>
      s.(table := s.table.Push(fd, InitialSsl, id, handshake), listener := Accepted(fd),
         marks := if s.table.Marks(fd, InitialSsl, handshake) then s.marks + {fd} else s.marks)
    case LAddPoll => s.(poll := s.poll + {s.listener.fd}, listener := AtTop)
    case LPurge(fd) => s.(poll := s.poll - {fd}, marks := s.marks - {fd})
    case LStale(fd) =>
      s.(table := s.table.Push(fd, Rejected, 0, true), poll := s.poll - {fd}, marks := s.marks - {fd})
    case LPop(fd) =>
      var i := s.table.IndexOf(fd);
      var t' := s.table.Take(i);
      s.(table := t', listener := Reading(t'.rows[i], t'.Row(i)), owner := s.owner[t'.rows[i] := LISTENER])
    case LRead(outcome) =>
      var (slot, c) := (s.listener.slot, s.listener.cell);
      var w := ReadStatus(outcome);
      var t1 := WriteSlot(s.table, slot, ReadCell(c, outcome));
      s.(table := t1.Push(c.fd, w, 0, true),
         marks := if t1.Marks(c.fd, w, true) then s.marks + {c.fd} else s.marks,
         listener := if outcome.Failed? then Rejecting(c.fd) else AtTop,
         workers := Woken(s.workers, Wakes(w)),
         owner := s.owner - {slot},
         journals := if outcome.Complete? then s.journals[slot := NO_JOURNAL] else s.journals)
    case LRemove => s.(poll := s.poll - {s.listener.fd}, marks := s.marks - {s.listener.fd}, listener := AtTop)
    case WStart(t) => WithPc(s, t, if s.mode == Running then Ready else Exited)
    case WLock(t) => WithPc(s, t, Checking).(mutex := Some(t))
    case WCheck(t) =>
      var i := s.table.Peek(s.workers[t].stage, s.table.count);
      if i >= 0 then
        var t' := s.table.Take(i);
        WithPc(s, t, Holding(t'.rows[i], t'.Row(i))).(table := t', mutex := None, owner := s.owner[t'.rows[i] := t])
      else if s.mode != Running then WithPc(s, t, Looping).(mutex := None)
      else WithPc(s, t, Deciding)
    case WSleep(t) => WithPc(s, t, Asleep).(mutex := None)
    case WSpurious(t) => WithPc(s, t, Signalled)
    case WPush(t, work) =>
      var (slot, c) := (s.workers[t].pc.slot, s.workers[t].pc.cell);
      var w := Pushes(c, work);
      var t1 := WriteSlot(s.table, slot, Worked(c, work));
      var j := Recorded(s.journals[slot], c, work);
      s.(table := t1.Push(c.fd, w, 0, true),
         marks := if t1.Marks(c.fd, w, true) then s.marks + {c.fd} else s.marks,
         workers := Woken(s.workers[t := s.workers[t].(pc := Looping)], Wakes(w)),
         owner := s.owner - {slot},
         journals := s.journals[slot := j],
         delivered := if work.Sending? && Sender.Finishes(work.outcome, c.buffer) then s.delivered + [j]
             else s.delivered)
    case Stop => s.(mode := Stopped)
    case BroadcastAll => s.(mode := Broadcast, workers := Woken(s.workers, EVERY_POOL))
  }
}
