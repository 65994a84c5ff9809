/** Sessions whose send was told to wait. Nothing in the source takes SEND_FAILED back. */
module ParkedSessions {
  import opened HttpTypes
  import opened StatusWord
  import opened SessionTable
  import opened Protocol
  import opened ProtocolInvariant
  import opened ProtocolRuns
  import opened ScanRuns

  // What becomes of a parked session: it is parked still, and what was left of its response is still in
  // front in its buffer.
  ghost predicate StillParked(c: Cell, c': Cell) {
    && PhaseOf(c.status).Parked? && PhaseOf(c'.status).Parked?
    && c'.fd == c.fd && |c.buffer| <= |c'.buffer| && c'.buffer[..|c.buffer|] == c.buffer
  }

  ghost predicate HasSession(s: State, k: nat) { s.table.Valid() && k in s.table.Sessions() }

  ghost function SessionIn(s: State, k: nat): Cell
    requires HasSession(s, k)
  {
    s.table.Sessions()[k]
  }

  ghost predicate IsParked(s: State, k: nat) {
    HasSession(s, k) && PhaseOf(SessionIn(s, k).status).Parked?
  }

  // It is gone, or parked still.
  ghost predicate ParksOn(s: State, s': State, k: nat) {
    HasSession(s, k) && HasSession(s', k) ==> StillParked(SessionIn(s, k), SessionIn(s', k))
  }

  lemma ParkedIsParked(c: Cell)
    requires PhaseOf(c.status).Parked?
    ensures StillParked(c, c)
  {
    hide PhaseOf;
    assert c.buffer[..|c.buffer|] == c.buffer;
  }

  lemma StillAndStill(c1: Cell, c2: Cell, c3: Cell)
    requires StillParked(c1, c2) && StillParked(c2, c3)
    ensures StillParked(c1, c3)
  {
    hide PhaseOf;
    assert c3.buffer[..|c1.buffer|] == c3.buffer[..|c2.buffer|][..|c1.buffer|];
  }

  lemma UnchangedParks(s: State, s': State, k: nat)
    requires IsParked(s, k) && (HasSession(s', k) ==> SessionIn(s', k) == SessionIn(s, k))
    ensures ParksOn(s, s', k)
  {
    hide PhaseOf, HasSession, SessionIn;
    ParkedIsParked(SessionIn(s, k));
  }

  lemma SameParks(s: State, s': State, k: nat)
    requires IsParked(s, k) && s'.table.Valid() && SameSession(s, s', k)
    ensures ParksOn(s, s', k)
  {
    hide PhaseOf;
    UnchangedParks(s, s', k);
  }

  // Taking it does not change its phase.
  lemma PopParks(s: State, fd: int, k: nat)
    requires Inv(s) && Enabled(s, LPop(fd)) && IsParked(s, k)
    ensures ParksOn(s, Apply(s, LPop(fd)), k)
  {
    ParkedIsWellFormed(s, k);
    PopView(s, fd);
    var c := SessionIn(s, k);
    PopRefines(c.status);
    hide Inv, PhaseOf, PopWord, Apply, Enabled, WellFormed, Held;
    ParkedIsParked(c);
  }

  lemma ParkedIsWellFormed(s: State, k: nat)
    requires Inv(s) && IsParked(s, k)
    ensures WellFormed(SessionIn(s, k).status)
  {
    assert SessionFits(s.table.Sessions()[k], s.journals[k]);
  }

  lemma ReadIntoParks(c: Cell, c': Cell, outcome: ReadOutcome)
    requires PhaseOf(c.status).Parked? && ReadInto(c, c', outcome) && !outcome.Failed?
    ensures StillParked(c, c')
  {
    hide PhaseOf, Held;
    assert c'.buffer[..|c.buffer|] == c.buffer;
  }

  lemma ReadElsewhere(s: State, outcome: ReadOutcome, k: nat)
    requires Inv(s) && Enabled(s, LRead(outcome)) && Safe(s, LRead(outcome)) && IsParked(s, k) && k != s.listener.slot
    ensures ParksOn(s, Apply(s, LRead(outcome)), k)
  {
    SlotIsInPool(s, k);
    HolderOwns(ViewOf(s), LISTENER);
    assert Sane(s);
    hide Inv, Apply, Safe, PhaseOf;
    ReadLeavesOthers(s, outcome, k);
    SameParks(s, Apply(s, LRead(outcome)), k);
  }

  lemma ReadHere(s: State, outcome: ReadOutcome)
    requires Inv(s) && Enabled(s, LRead(outcome)) && Safe(s, LRead(outcome)) && IsParked(s, s.listener.slot)
    ensures ParksOn(s, Apply(s, LRead(outcome)), s.listener.slot)
  {
    ReadDoes(s, outcome);
    assert Sane(s);
    hide Inv, Apply, Safe, PhaseOf, ReadInto, StillParked;
    if !outcome.Failed? {
      ReadIntoParks(SessionIn(s, s.listener.slot), SessionIn(Apply(s, LRead(outcome)), s.listener.slot), outcome);
    }
  }

  lemma ListenerParks(s: State, step: Step, k: nat)
    requires Inv(s) && Enabled(s, step) && Safe(s, step) && ByListener(step) && IsParked(s, k)
    ensures ParksOn(s, Apply(s, step), k)
  {
    assert Sane(s);
    hide Inv, PhaseOf, StillParked, Table.Push, ParksOn, SameSession;
    match step
    case LPop(fd) => PopParks(s, fd, k);
    case LRead(outcome) =>
      if k == s.listener.slot {
        ReadHere(s, outcome);
      } else {
        ReadElsewhere(s, outcome, k);
      }
    case LAccept(fd, id) =>
      AcceptPlainLeaves(s, fd, id, k);
      SameParks(s, Apply(s, step), k);
    case LAcceptTls(fd, id, handshake) =>
      AcceptTlsLeaves(s, fd, id, handshake, k);
      SameParks(s, Apply(s, step), k);
    case LStale(fd) =>
      StaleIsNothing(s, fd);
      UnchangedParks(s, Apply(s, step), k);
    case LAddPoll => UnchangedParks(s, Apply(s, step), k);
    case LPurge(_) => UnchangedParks(s, Apply(s, step), k);
    case LRemove => UnchangedParks(s, Apply(s, step), k);
    case _ =>
  }

  lemma WorkerParks(s: State, step: Step, k: nat)
    requires Inv(s) && Enabled(s, step) && Safe(s, step) && !ByListener(step) && IsParked(s, k)
    ensures ParksOn(s, Apply(s, step), k)
  {
    StepKeeps(s, step);
    assert Apply(s, step).table.Valid();
    hide Inv, Apply, Enabled, Safe, PhaseOf;
    WorkerLeavesIdle(s, step, k);
    UnchangedParks(s, Apply(s, step), k);
  }

  // In every run a parked session is parked for as long as it is there: no pool ever gets it again, so
  // what was left of its response is never sent, and what its client sends next is put behind it.
  lemma {:induction false} ParkedForever(states: seq<State>, steps: seq<Step>, i: nat, j: nat, k: nat)
    requires IsRun(states, steps) && i <= j < |states| && IsParked(states[i], k)
    requires forall n :: i <= n <= j ==> HasSession(states[n], k)
    ensures StillParked(SessionIn(states[i], k), SessionIn(states[j], k))
    ensures forall stage :: !Eligible(SessionIn(states[j], k).status, stage)
  {
    assert |states| == |steps| + 1;
    hide IsRun, HasSession, SessionIn, StillParked, PhaseOf;
    var c := SessionIn(states[i], k);
    if i == j {
      ParkedIsParked(c);
    } else {
      ParkedForever(states, steps, i, j - 1, k);
      ParkedNow(states[j - 1], k, c);
      StepParks(states, steps, j - 1, k);
      StillAndStill(c, SessionIn(states[j - 1], k), SessionIn(states[j], k));
    }
    ParkedNow(states[j], k, c);
  }

  lemma ParkedNow(s: State, k: nat, c: Cell)
    requires HasSession(s, k) && StillParked(c, SessionIn(s, k))
    ensures IsParked(s, k) && forall stage :: !Eligible(SessionIn(s, k).status, stage)
  {
    hide HasSession, SessionIn;
  }

  lemma StepParks(states: seq<State>, steps: seq<Step>, i: nat, k: nat)
    requires IsRun(states, steps) && i < |steps| && IsParked(states[i], k)
    ensures ParksOn(states[i], states[i + 1], k)
  {
    EveryRunIsSafe(states, steps, i);
    hide IsRun, Inv, PhaseOf, ParksOn, HasSession, SessionIn;
    if ByListener(steps[i]) {
      ListenerParks(states[i], steps[i], k);
    } else {
      WorkerParks(states[i], steps[i], k);
    }
  }
}
