/** What every step of the server keeps. The invariant has five parts, each about a few
    components of the state, and each is shown to survive the few ways in which a step can
    change the live sessions: adding one, taking one, giving one back, dropping one. */
module ProtocolInvariant {
  import opened HttpTypes
  import opened StatusWord
  import opened SessionTable
  import opened Protocol
  import Buffers
  import Sender

  type Sessions = map<nat, Cell>

  function Fds(sess: Sessions): set<int> { set k | k in sess :: sess[k].fd }

  // ----- The five parts -----

  // PROCESSING is set exactly on the sessions somebody holds, each is held by one agent, and
  // what that agent was handed is still what the slot contains.
  ghost predicate Ownership(sess: Sessions, owner: map<nat, int>, listener: Listener, workers: seq<Worker>) {
    && (forall k :: k in owner <==> k in sess && Held(sess[k].status))
    && (forall k :: k in owner ==> HoldOf(listener, workers, owner[k]) == Some(Hold(k, sess[k])))
    && (forall a: int :: HoldOf(listener, workers, a).Some? ==>
          HoldOf(listener, workers, a).value.slot in owner && owner[HoldOf(listener, workers, a).value.slot] == a)
  }

  // The handlers that have run when a session waits for, or is with, the pool of a stage.
  predicate SentInOrder(actions: seq<Stage>) {
    3 <= |actions| && actions[..3] == [Parse, Load, Build] && forall i :: 3 <= i < |actions| ==> actions[i] == Send
  }

  predicate JournalFits(j: Journal, stage: Stage, buffer: string) {
    match stage
    case Parse => j.actions == []
    case Load => j.actions == [Parse]
    case Build => j.actions == [Parse, Load]
    case Send => SentInOrder(j.actions) && j.wire + buffer == j.built && 0 < |buffer| < Buffers.WORD - 1
  }

  predicate OwnerFits(phase: Phase, a: int, workers: seq<Worker>) {
    if a == LISTENER then !phase.Queued?
    else 0 <= a < |workers| && phase == Queued(workers[a].stage)
  }

  // Nothing is left of an earlier request.
  predicate Blank(c: Cell) { c.buffer == "" && c.request.(isSsl := false) == ZERO_REQUEST }

  ghost predicate SessionFits(c: Cell, j: Journal) {
    && WellFormed(c.status)
    && (PhaseOf(c.status).Idle? ==> Blank(c))
    && (PhaseOf(c.status).Queued? ==> JournalFits(j, PhaseOf(c.status).stage, c.buffer))
  }

  ghost predicate Stages(sess: Sessions, owner: map<nat, int>, workers: seq<Worker>, journals: seq<Journal>) {
    && (forall k :: k in sess ==> k < |journals| && SessionFits(sess[k], journals[k]))
    && (forall k :: k in owner && k in sess ==> OwnerFits(PhaseOf(sess[k].status), owner[k], workers))
  }

  // A request whose response was sent in full: parsed, loaded and built once each, in that
  // order, then only sent, and what went out is what was built.
  predicate DeliveredOnce(j: Journal) {
    SentInOrder(j.actions) && |j.actions| > 3 && j.wire == j.built && j.built != ""
  }

  // Every client descriptor in the poll array has a session or a mark and not both, and
  // nothing else has; the one that was just accepted is not in the array yet.
  function Pending(listener: Listener): set<int> {
    if listener.Accepted? then {listener.fd} else {}
  }

  ghost predicate Descriptors(
    fds: set<int>, poll: set<int>, marks: set<int>, listener: Listener, listenFd: int, max: nat) {
    && poll !! Pending(listener)
    && poll + Pending(listener) == fds + marks
    && fds !! marks
    && (forall fd :: fd in poll + Pending(listener) ==> 0 < fd < 16384 && fd != listenFd)
    && (listener.Rejecting? ==> listener.fd in marks && listener.fd in poll)
    && 1 + |poll + Pending(listener)| <= max
  }

  // Nobody sleeps on work: a worker that sleeps, or has decided to, finds no eligible session.
  predicate Sleepy(pc: Pc) { pc == Asleep || pc == Deciding }

  ghost predicate NoneEligible(sess: Sessions, stage: Stage) {
    forall k :: k in sess ==> !Eligible(sess[k].status, stage)
  }

  ghost predicate Wakeups(sess: Sessions, workers: seq<Worker>) {
    forall t :: 0 <= t < |workers| && Sleepy(workers[t].pc) ==> NoneEligible(sess, workers[t].stage)
  }

  predicate Critical(pc: Pc) { pc == Checking || pc == Deciding }

  ghost predicate Mutex(workers: seq<Worker>, mutex: Option<nat>, mode: Mode) {
    && (forall t :: 0 <= t < |workers| ==> (Critical(workers[t].pc) <==> mutex == Some(t)))
    && (mutex.Some? ==> mutex.value < |workers|)
    && (mode == Broadcast ==> forall t :: 0 <= t < |workers| ==> !Sleepy(workers[t].pc))
  }

  // The state without the table: what the invariant sees of it are the live sessions.
  datatype View = View(
    sess: Sessions, poll: set<int>, marks: set<int>, listenFd: int, listener: Listener, workers: seq<Worker>,
    mutex: Option<nat>, mode: Mode, owner: map<nat, int>, journals: seq<Journal>, delivered: seq<Journal>)

  ghost predicate Kept(v: View) {
    && Ownership(v.sess, v.owner, v.listener, v.workers)
    && Stages(v.sess, v.owner, v.workers, v.journals)
    && (forall i :: 0 <= i < |v.delivered| ==> DeliveredOnce(v.delivered[i]))
    && Descriptors(Fds(v.sess), v.poll, v.marks, v.listener, v.listenFd, |v.journals|)
    && Wakeups(v.sess, v.workers)
    && Mutex(v.workers, v.mutex, v.mode)
  }

  ghost function ViewOf(s: State): View
    requires s.table.Valid()
  {
    View(s.table.Sessions(), s.poll, s.marks, s.listenFd, s.listener, s.workers, s.mutex, s.mode, s.owner, s.journals,
        s.delivered)
  }

  ghost predicate Inv(s: State) {
    s.table.Valid() && |s.journals| == s.table.Max() && Kept(ViewOf(s))
  }

  // ----- Ownership -----

  ghost predicate HoldsDifferOnlyAt(l: Listener, w: seq<Worker>, l': Listener, w': seq<Worker>, a: int) {
    forall b: int :: b != a ==> HoldOf(l', w', b) == HoldOf(l, w, b)
  }

  lemma OwnershipTake(
    sess: Sessions, owner: map<nat, int>, l: Listener, w: seq<Worker>, k: nat, c: Cell, a: int, l': Listener,
    w': seq<Worker>)
    requires Ownership(sess, owner, l, w) && k in sess && !Held(sess[k].status) && Held(c.status)
    requires HoldOf(l, w, a) == None && HoldOf(l', w', a) == Some(Hold(k, c)) && HoldsDifferOnlyAt(l, w, l', w', a)
    ensures Ownership(sess[k := c], owner[k := a], l', w')
  {
  }

  lemma OwnershipGiveBack(
    sess: Sessions, owner: map<nat, int>, l: Listener, w: seq<Worker>, k: nat, sess': Sessions, a: int, l': Listener,
    w': seq<Worker>)
    requires Ownership(sess, owner, l, w) && HoldOf(l, w, a).Some? && HoldOf(l, w, a).value.slot == k
    requires HoldOf(l', w', a) == None && HoldsDifferOnlyAt(l, w, l', w', a)
    requires sess' == sess - {k} || (k in sess' && !Held(sess'[k].status) && sess' == sess[k := sess'[k]])
    ensures Ownership(sess', owner - {k}, l', w')
  {
  }

  lemma OwnershipAdd(
    sess: Sessions, owner: map<nat, int>, l: Listener, w: seq<Worker>, k: nat, c: Cell, l': Listener, w': seq<Worker>)
    requires Ownership(sess, owner, l, w) && k !in sess && !Held(c.status)
    requires forall b: int :: HoldOf(l', w', b) == HoldOf(l, w, b)
    ensures Ownership(sess[k := c], owner, l', w')
  {
  }

  lemma OwnershipSame(sess: Sessions, owner: map<nat, int>, l: Listener, w: seq<Worker>, l': Listener, w': seq<Worker>)
    requires Ownership(sess, owner, l, w)
    requires forall b: int :: HoldOf(l', w', b) == HoldOf(l, w, b)
    ensures Ownership(sess, owner, l', w')
  {
  }

  // ----- The table, by slot -----

  lemma SlotWrite(t: Table, slot: nat, c: Cell)
    requires t.Valid() && slot in t.Sessions() && c.fd == t.Sessions()[slot].fd
    ensures slot < |t.cells| && WriteSlot(t, slot, c).Valid()
    ensures var t1 := WriteSlot(t, slot, c);
            && t1.Sessions() == t.Sessions()[slot := c] && t1.Max() == t.Max()
            && t1.HasFd(c.fd) && t1.rows[t1.IndexOf(c.fd)] == slot && t1.Row(t1.IndexOf(c.fd)) == c
  {
    var i :| 0 <= i < t.count && t.rows[i] == slot;
    WriteSessions(t, i, c);
    assert WriteSlot(t, slot, c) == t.Write(i, c) && t.Write(i, c).Row(i) == c;
    RowIsIndex(t.Write(i, c), i);
  }

  // Writing through a pointer that was handed out, and then pushing the descriptor found
  // there, is safe and changes that slot alone.
  lemma SlotPush(t: Table, slot: nat, c: Cell, w: WorkStatus)
    requires t.Valid() && slot in t.Sessions() && c.fd == t.Sessions()[slot].fd && 0 < c.fd < 16384 && Held(c.status)
    ensures PushIsSafe(t, slot, c)
    ensures var t1 := WriteSlot(t, slot, c);
            var t' := t1.Push(c.fd, w, 0, true);
            && t'.Valid() && t'.Max() == t.Max()
            && t'.Sessions() == (if w == Rejected then t.Sessions() - {slot}
                else t.Sessions()[slot := Table.Pushed(c, w)])
            && (t1.Marks(c.fd, w, true) <==> w == Rejected)
  {
    SlotWrite(t, slot, c);
    FoundPush(WriteSlot(t, slot, c), slot, c, w);
    PutTwice(t.Sessions(), slot, c, Table.Pushed(c, w));
  }

  lemma PutTwice(sess: Sessions, k: nat, c: Cell, d: Cell)
    ensures sess[k := c][k := d] == sess[k := d] && sess[k := c] - {k} == sess - {k}
  {
  }

  lemma FoundPush(t: Table, slot: nat, c: Cell, w: WorkStatus)
    requires t.Valid() && t.PushAllowed(c.fd) && t.HasFd(c.fd)
    requires t.rows[t.IndexOf(c.fd)] == slot && t.Row(t.IndexOf(c.fd)) == c
    ensures var t' := t.Push(c.fd, w, 0, true);
            && t'.Valid() && t'.Max() == t.Max()
            && t'.Sessions() == (if w == Rejected then t.Sessions() - {slot}
                else t.Sessions()[slot := Table.Pushed(c, w)])
            && (t.Marks(c.fd, w, true) <==> w == Rejected)
  {
    PushKeepsValid(t, c.fd, w, 0, true);
    if w == Rejected {
      PushRejectedFound(t, c.fd, 0, true);
    } else {
      PushFoundSessions(t, c.fd, w, 0, true);
    }
  }

  lemma RowIsIndex(t: Table, i: nat)
    requires t.Valid() && i < t.count
    ensures t.IndexOf(t.Row(i).fd) == i && t.HasFd(t.Row(i).fd)
  {
    assert t.Row(t.IndexOf(t.Row(i).fd)).fd == t.Row(i).fd;
  }

  lemma FdLookup(t: Table, fd: int)
    requires t.Valid()
    ensures t.HasFd(fd) <==> fd in Fds(t.Sessions())
    ensures t.HasFd(fd) ==>
              && t.rows[t.IndexOf(fd)] in t.Sessions()
              && t.Sessions()[t.rows[t.IndexOf(fd)]] == t.Row(t.IndexOf(fd))
  {
    if t.HasFd(fd) {
      SlotOf(t, t.IndexOf(fd));
    }
    if fd in Fds(t.Sessions()) {
      var k :| k in t.Sessions() && t.Sessions()[k].fd == fd;
      var i :| 0 <= i < t.count && t.rows[i] == k;
      assert t.Row(i).fd == fd;
    }
  }

  function FdsUpTo(t: Table, n: nat): set<int>
    requires t.IsPermutation() && n <= t.count <= t.Max()
  {
    set i | 0 <= i < n :: t.Row(i).fd
  }

  lemma {:induction false} CountUpTo(t: Table, n: nat)
    requires t.Valid() && n <= t.count
    ensures |FdsUpTo(t, n)| == n
  {
    if n > 0 {
      CountUpTo(t, n - 1);
      OneMoreFd(t, n);
      hide Table.Valid, FdsUpTo;
    }
  }

  lemma OneMoreFd(t: Table, n: nat)
    requires t.Valid() && 0 < n <= t.count
    ensures t.Row(n - 1).fd !in FdsUpTo(t, n - 1) && FdsUpTo(t, n) == FdsUpTo(t, n - 1) + {t.Row(n - 1).fd}
  {
    assert forall i :: 0 <= i < n - 1 ==> t.Row(i).fd != t.Row(n - 1).fd;
  }

  lemma CountIsFds(t: Table)
    requires t.Valid()
    ensures |Fds(t.Sessions())| == t.count
  {
    CountUpTo(t, t.count);
    forall fd ensures fd in FdsUpTo(t, t.count) <==> fd in Fds(t.Sessions()) {
      FdLookup(t, fd);
    }
    assert FdsUpTo(t, t.count) == Fds(t.Sessions());
  }

  ghost predicate FdsDiffer(sess: Sessions) {
    forall j, k :: j in sess && k in sess && sess[j].fd == sess[k].fd ==> j == k
  }

  lemma SessionsDiffer(t: Table)
    requires t.Valid()
    ensures FdsDiffer(t.Sessions())
  {
    forall j, k | j in t.Sessions() && k in t.Sessions() && t.Sessions()[j].fd == t.Sessions()[k].fd ensures j == k {
      var i :| 0 <= i < t.count && t.rows[i] == j;
      FdNamesOneSlot(t, i, k);
    }
  }

  // ----- Descriptors -----

  lemma FdsPut(sess: Sessions, k: nat, c: Cell)
    requires k in sess && c.fd == sess[k].fd
    ensures Fds(sess[k := c]) == Fds(sess)
  {
    var sess' := sess[k := c];
    forall fd ensures fd in Fds(sess') <==> fd in Fds(sess) {
      if fd in Fds(sess) {
        var j :| j in sess && sess[j].fd == fd;
        assert sess'[j].fd == fd;
      }
    }
  }

  lemma FdsAdd(sess: Sessions, k: nat, c: Cell)
    requires k !in sess
    ensures Fds(sess[k := c]) == Fds(sess) + {c.fd}
  {
    var sess' := sess[k := c];
    assert sess'[k] == c;
    forall fd | fd in Fds(sess) ensures fd in Fds(sess') {
      var j :| j in sess && sess[j].fd == fd;
      assert sess'[j].fd == fd;
    }
  }

  lemma FdsDrop(sess: Sessions, k: nat)
    requires k in sess && FdsDiffer(sess)
    ensures Fds(sess - {k}) == Fds(sess) - {sess[k].fd}
  {
    var sess' := sess - {k};
    forall fd | fd in Fds(sess) && fd != sess[k].fd ensures fd in Fds(sess') {
      var j :| j in sess && sess[j].fd == fd;
      assert sess'[j].fd == fd;
    }
  }

  // ----- Stages and wakeups -----

  ghost predicate SameStages(w: seq<Worker>, w': seq<Worker>) {
    |w'| == |w| && forall t :: 0 <= t < |w| ==> w'[t].stage == w[t].stage
  }

  lemma StagesPut(
    sess: Sessions, owner: map<nat, int>, w: seq<Worker>, js: seq<Journal>,
    k: nat, c: Cell, owner': map<nat, int>, w': seq<Worker>, js': seq<Journal>)
    requires Stages(sess, owner, w, js) && SameStages(w, w') && |js'| == |js| && k < |js|
    requires SessionFits(c, js'[k]) && (k in owner' ==> OwnerFits(PhaseOf(c.status), owner'[k], w'))
    requires forall j :: j != k && 0 <= j < |js| ==> js'[j] == js[j]
    requires forall j :: j != k && j in owner' ==> j in owner && owner'[j] == owner[j]
    ensures Stages(sess[k := c], owner', w', js')
  {
  }

  lemma StagesDrop(
    sess: Sessions, owner: map<nat, int>, w: seq<Worker>, js: seq<Journal>,
    k: nat, w': seq<Worker>, js': seq<Journal>)
    requires Stages(sess, owner, w, js) && SameStages(w, w') && |js'| == |js|
    requires forall j :: j != k && 0 <= j < |js| ==> js'[j] == js[j]
    ensures Stages(sess - {k}, owner - {k}, w', js')
  {
  }

  lemma WakeupsPut(sess: Sessions, w: seq<Worker>, k: nat, c: Cell, w': seq<Worker>)
    requires Wakeups(sess, w) && |w'| == |w|
    requires forall t :: 0 <= t < |w| && Sleepy(w'[t].pc) ==>
               w'[t].stage == w[t].stage && !Eligible(c.status, w[t].stage)
                   && (Sleepy(w[t].pc) || NoneEligible(sess, w[t].stage))
    ensures Wakeups(sess[k := c], w')
  {
    forall t | 0 <= t < |w| && Sleepy(w'[t].pc) ensures NoneEligible(sess[k := c], w'[t].stage) {
      assert NoneEligible(sess, w[t].stage);
    }
  }

  lemma WakeupsDrop(sess: Sessions, w: seq<Worker>, k: nat, w': seq<Worker>)
    requires Wakeups(sess, w) && |w'| == |w|
    requires forall t :: 0 <= t < |w| && Sleepy(w'[t].pc) ==> w'[t].stage == w[t].stage && Sleepy(w[t].pc)
    ensures Wakeups(sess - {k}, w')
  {
    forall t | 0 <= t < |w| && Sleepy(w'[t].pc) ensures NoneEligible(sess - {k}, w'[t].stage) {
      assert NoneEligible(sess, w[t].stage);
    }
  }

  // Only a push for a stage makes a session eligible for it, and that push wakes its pool.
  lemma PushWakes(b: bv8, w: WorkStatus, stage: Stage)
    requires WellFormed(b) && Held(b) && Legal(PhaseOf(b), w) && w != Rejected
    ensures Eligible(PushWord(b, w), stage) ==> stage in Wakes(w)
  {
    PushRefines(b, w);
  }

  // ----- The listener's steps -----

  lemma AcceptIsNew(s: State, fd: int)
    requires Inv(s) && s.listener == AtTop && Closed(s, fd) && PollHasRoom(s)
    ensures !s.table.HasFd(fd) && fd !in Fds(s.table.Sessions()) && fd !in s.marks && s.table.PushAllowed(fd)
    ensures s.table.count < s.table.Max()
  {
    FdLookup(s.table, fd);
    CountIsFds(s.table);
    assert Fds(s.table.Sessions()) <= s.poll;
    SubsetSize(Fds(s.table.Sessions()), s.poll);
  }

  lemma SubsetSize(a: set<int>, b: set<int>)
    requires a <= b
    ensures |a| <= |b|
  {
    assert b == a + (b - a);
    assert |a + (b - a)| == |a| + |b - a|;
  }

  // The word of a row that was just reset.
  lemma ZeroWord()
    ensures WellFormed(0) && PhaseOf(0) == Phase.Idle && !Held(0)
  {
  }

  lemma DescriptorsAccept(fds: set<int>, poll: set<int>, marks: set<int>, listenFd: int, max: nat, fd: int)
    requires Descriptors(fds, poll, marks, AtTop, listenFd, max) && 0 < fd < 16384 && fd != listenFd
    requires fd !in poll && 1 + |poll| < max
    ensures Descriptors(fds + {fd}, poll, marks, Accepted(fd), listenFd, max)
    ensures Descriptors(fds, poll, marks + {fd}, Accepted(fd), listenFd, max)
  {
    assert poll + Pending(AtTop) == poll;
    assert |poll + Pending(Accepted(fd))| == |poll| + 1;
  }

  // A connection that was accepted and given a session.
  lemma NewSessionKept(v: View, fd: int, k: nat, c: Cell)
    requires Kept(v) && v.listener == AtTop && 0 < fd < 16384 && fd != v.listenFd
    requires fd !in v.poll && 1 + |v.poll| < |v.journals|
    requires c.fd == fd && k !in v.sess && k < |v.journals|
    requires WellFormed(c.status) && PhaseOf(c.status) == Phase.Idle && !Held(c.status) && Blank(c)
    ensures Kept(v.(sess := v.sess[k := c], listener := Accepted(fd)))
  {
    OwnershipAdd(v.sess, v.owner, v.listener, v.workers, k, c, Accepted(fd), v.workers);
    StagesPut(v.sess, v.owner, v.workers, v.journals, k, c, v.owner, v.workers, v.journals);
    FdsAdd(v.sess, k, c);
    DescriptorsAccept(Fds(v.sess), v.poll, v.marks, v.listenFd, |v.journals|, fd);
    WakeupsPut(v.sess, v.workers, k, c, v.workers);
  }

  lemma HandshakeFailedKept(v: View, fd: int)
    requires Kept(v) && v.listener == AtTop && 0 < fd < 16384 && fd != v.listenFd
    requires fd !in v.poll && 1 + |v.poll| < |v.journals|
    ensures Kept(v.(marks := v.marks + {fd}, listener := Accepted(fd)))
  {
    OwnershipSame(v.sess, v.owner, v.listener, v.workers, Accepted(fd), v.workers);
    DescriptorsAccept(Fds(v.sess), v.poll, v.marks, v.listenFd, |v.journals|, fd);
  }

  lemma AcceptKeeps(s: State, fd: int, id: int)
    requires Inv(s) && Enabled(s, LAccept(fd, id))
    ensures Safe(s, LAccept(fd, id)) && Inv(Apply(s, LAccept(fd, id)))
  {
    AcceptIsNew(s, fd);
    PushInitialSessions(s.table, fd, id, true);
    PushKeepsValid(s.table, fd, Initial, id, true);
    ZeroWord();
    NewSessionKept(ViewOf(s), fd, s.table.rows[s.table.count], NewCell(fd, id));
  }

  // A TLS connection whose handshake fails is marked at once and never gets a session.
  lemma AcceptTlsKeeps(s: State, fd: int, id: int, handshake: bool)
    requires Inv(s) && Enabled(s, LAcceptTls(fd, id, handshake))
    ensures Safe(s, LAcceptTls(fd, id, handshake)) && Inv(Apply(s, LAcceptTls(fd, id, handshake)))
  {
    AcceptIsNew(s, fd);
    PushInitialSslSessions(s.table, fd, id, handshake);
    PushKeepsValid(s.table, fd, InitialSsl, id, handshake);
    if handshake {
      ZeroWord();
      NewSessionKept(ViewOf(s), fd, s.table.rows[s.table.count],
          NewCell(fd, id).(request := ZERO_REQUEST.(isSsl := true)));
    } else {
      HandshakeFailedKept(ViewOf(s), fd);
    }
  }

  lemma AddPollKeeps(s: State)
    requires Inv(s) && Enabled(s, LAddPoll)
    ensures Inv(Apply(s, LAddPoll))
  {
    OwnershipSame(s.table.Sessions(), s.owner, s.listener, s.workers, AtTop, s.workers);
    assert s.poll + {s.listener.fd} + {} == s.poll + Pending(s.listener);
  }

  lemma DescriptorsClose(
    fds: set<int>, poll: set<int>, marks: set<int>, listener: Listener, listenFd: int, max: nat, fd: int)
    requires Descriptors(fds, poll, marks, listener, listenFd, max) && !listener.Accepted? && fd in poll && fd in marks
    ensures Descriptors(fds, poll - {fd}, marks - {fd}, AtTop, listenFd, max)
  {
    assert poll - {fd} + Pending(AtTop) == poll - {fd} && poll + Pending(listener) == poll;
    SubsetSize(poll - {fd}, poll);
  }

  // Closing a marked descriptor: it had no session.
  lemma ClosedKept(v: View, fd: int)
    requires Kept(v) && fd in v.poll && fd in v.marks && (v.listener == AtTop || v.listener.Rejecting?)
    ensures Kept(v.(poll := v.poll - {fd}, marks := v.marks - {fd}, listener := AtTop))
  {
    OwnershipSame(v.sess, v.owner, v.listener, v.workers, AtTop, v.workers);
    DescriptorsClose(Fds(v.sess), v.poll, v.marks, v.listener, v.listenFd, |v.journals|, fd);
  }

  lemma PurgeKeeps(s: State, fd: int)
    requires Inv(s) && Enabled(s, LPurge(fd))
    ensures Inv(Apply(s, LPurge(fd)))
  {
    ClosedKept(ViewOf(s), fd);
  }

  lemma StaleIsNothing(s: State, fd: int)
    requires Inv(s) && s.listener == AtTop && fd in s.poll && !s.table.HasFd(fd)
    ensures s.table.PushAllowed(fd) && s.table.Push(fd, Rejected, 0, true) == s.table && fd in s.marks
  {
    FdLookup(s.table, fd);
    assert fd in s.poll + Pending(s.listener);
  }

  // A descriptor without a session is marked, even when the listener had looked too early.
  lemma StaleKeeps(s: State, fd: int)
    requires Inv(s) && Enabled(s, LStale(fd))
    ensures Safe(s, LStale(fd)) && Inv(Apply(s, LStale(fd)))
  {
    StaleIsNothing(s, fd);
    ClosedKept(ViewOf(s), fd);
  }

  lemma RemoveKeeps(s: State)
    requires Inv(s) && Enabled(s, LRemove)
    ensures Inv(Apply(s, LRemove))
  {
    ClosedKept(ViewOf(s), s.listener.fd);
  }

  // ----- Taking a session and giving it back -----

  // Neither the worker that takes it nor the pool it came from is asleep on it afterwards.
  lemma TakenKept(v: View, k: nat, a: int, c: Cell, l': Listener, w': seq<Worker>)
    requires Kept(v) && k in v.sess && !Held(v.sess[k].status) && c == v.sess[k].(status := PopWord(v.sess[k].status))
    requires HoldOf(v.listener, v.workers, a) == None && HoldOf(l', w', a) == Some(Hold(k, c))
    requires HoldsDifferOnlyAt(v.listener, v.workers, l', w', a) && SameStages(v.workers, w')
    requires OwnerFits(PhaseOf(v.sess[k].status), a, v.workers)
    requires Pending(l') == Pending(v.listener) && (l' == v.listener || !l'.Rejecting?)
    requires forall t :: 0 <= t < |w'| && Sleepy(w'[t].pc) ==> Sleepy(v.workers[t].pc)
    ensures Ownership(v.sess[k := c], v.owner[k := a], l', w')
    ensures Stages(v.sess[k := c], v.owner[k := a], w', v.journals)
    ensures Descriptors(Fds(v.sess[k := c]), v.poll, v.marks, l', v.listenFd, |v.journals|)
    ensures Wakeups(v.sess[k := c], w')
  {
    PopRefines(v.sess[k].status);
    OwnershipTake(v.sess, v.owner, v.listener, v.workers, k, c, a, l', w');
    StagesPut(v.sess, v.owner, v.workers, v.journals, k, c, v.owner[k := a], w', v.journals);
    FdsPut(v.sess, k, c);
    WakeupsPut(v.sess, v.workers, k, c, w');
  }

  // A session that is given back with this word is legal for the others to see.
  ghost predicate Returned(c: Cell, wakes: set<Stage>) {
    !Held(c.status) && forall st :: Eligible(c.status, st) ==> st in wakes
  }

  // A push that is not REJECTED, by whoever holds the session.
  lemma GivenBackKept(
    v: View, k: nat, a: int, c: Cell, wakes: set<Stage>, l': Listener, w': seq<Worker>, js': seq<Journal>)
    requires Kept(v) && k in v.sess && c.fd == v.sess[k].fd
    requires !Held(c.status) && forall st :: Eligible(c.status, st) ==> st in wakes
    requires HoldOf(v.listener, v.workers, a).Some? && HoldOf(v.listener, v.workers, a).value.slot == k
    requires HoldOf(l', w', a) == None && HoldsDifferOnlyAt(v.listener, v.workers, l', w', a)
    requires SameStages(v.workers, w')
    requires forall t :: 0 <= t < |w'| && Sleepy(w'[t].pc) ==> Sleepy(v.workers[t].pc) && w'[t].stage !in wakes
    requires |js'| == |v.journals| && k < |js'| && SessionFits(c, js'[k])
    requires forall j :: j != k && 0 <= j < |js'| ==> js'[j] == v.journals[j]
    requires Pending(l') == Pending(v.listener) && (l' == v.listener || !l'.Rejecting?)
    ensures Ownership(v.sess[k := c], v.owner - {k}, l', w')
    ensures Stages(v.sess[k := c], v.owner - {k}, w', js')
    ensures Descriptors(Fds(v.sess[k := c]), v.poll, v.marks, l', v.listenFd, |js'|)
    ensures Wakeups(v.sess[k := c], w')
  {
    OwnershipGiveBack(v.sess, v.owner, v.listener, v.workers, k, v.sess[k := c], a, l', w');
    StagesPut(v.sess, v.owner, v.workers, v.journals, k, c, v.owner - {k}, w', js');
    FdsPut(v.sess, k, c);
    WakeupsPut(v.sess, v.workers, k, c, w');
  }

  // The word that such a push leaves behind, as the others see it.
  lemma PushedWord(c: Cell, w: WorkStatus)
    requires WellFormed(c.status) && Held(c.status) && Legal(PhaseOf(c.status), w) && w != Rejected
    ensures var c' := Table.Pushed(c, w);
            && c'.fd == c.fd && WellFormed(c'.status) && Returned(c', Wakes(w))
            && PhaseOf(c'.status) == NextPhase(PhaseOf(c.status), w)
            && (w != Sent ==> c'.buffer == c.buffer && c'.request == c.request)
            && (w == Sent ==> Blank(c'))
  {
    PushRefines(c.status, w);
    forall st | Eligible(PushWord(c.status, w), st) ensures st in Wakes(w) {
      PushWakes(c.status, w, st);
    }
  }

  lemma PushedFits(c: Cell, w: WorkStatus, p: Phase, j: Journal)
    requires WellFormed(c.status) && Held(c.status) && PhaseOf(c.status) == p && Legal(p, w)
    requires w != Rejected && NextPhase(p, w).Queued? ==> JournalFits(j, NextPhase(p, w).stage, c.buffer)
    requires NextPhase(p, w).Idle? && w != Sent ==> Blank(c)
    ensures Table.Pushed(c, w).fd == c.fd
    ensures w != Rejected ==> Returned(Table.Pushed(c, w), Wakes(w)) && SessionFits(Table.Pushed(c, w), j)
  {
    if w != Rejected {
      PushedWord(c, w);
    }
  }

  // A send that finishes completes the journal.
  lemma LastSend(c: Cell, j: Journal, o: Sender.Outcome)
    requires JournalFits(j, Send, c.buffer) && Sender.Plausible(o, c.buffer) && Sender.Finishes(o, c.buffer)
    ensures DeliveredOnce(j.(actions := j.actions + [Send], wire := j.wire + Sender.Taken(o, c.buffer)))
  {
    Sender.RoundConservesBytes(c.request.isSsl, o, c.buffer);
    OneMoreSend(j.actions);
    hide SentInOrder, Sender.Taken;
  }

  // One that does not leaves it as before, with no more bytes to go.
  lemma AnotherSend(c: Cell, j: Journal, o: Sender.Outcome)
    requires JournalFits(j, Send, c.buffer) && Sender.Plausible(o, c.buffer) && !Sender.Finishes(o, c.buffer)
    ensures JournalFits(j.(actions := j.actions + [Send], wire := j.wire + Sender.Taken(o, c.buffer)), Send,
                        Sender.Left(c.request.isSsl, o, c.buffer))
  {
    Sender.RoundConservesBytes(c.request.isSsl, o, c.buffer);
    Sender.LeftIsShorter(c.request.isSsl, o, c.buffer);
    OneMoreSend(j.actions);
    hide SentInOrder, Sender.Taken, Sender.Left;
    var taken, left := Sender.Taken(o, c.buffer), Sender.Left(c.request.isSsl, o, c.buffer);
    assert j.wire + taken + left == j.wire + (taken + left);
  }

  lemma OneMoreSend(actions: seq<Stage>)
    requires SentInOrder(actions)
    ensures SentInOrder(actions + [Send])
  {
    assert (actions + [Send])[..3] == actions[..3];
  }

  // What a worker pushes is legal, and leaves the session's journal in order.
  lemma WorkFitsNext(c: Cell, j: Journal, work: Work, stage: Stage)
    requires JournalFits(j, stage, c.buffer) && WorkFits(stage, c, work)
    ensures Legal(Queued(stage), Pushes(c, work))
    ensures Pushes(c, work) != Rejected ==>
              var p := NextPhase(Queued(stage), Pushes(c, work));
              p.Queued? ==> JournalFits(Recorded(j, c, work), p.stage, Worked(c, work).buffer)
    ensures work.Sending? && Sender.Finishes(work.outcome, c.buffer) ==> DeliveredOnce(Recorded(j, c, work))
  {
    if work.Sending? {
      Sender.StatusMeansFinished(c.request.isSsl, work.outcome, c.buffer, c.request.connection);
      if Sender.Finishes(work.outcome, c.buffer) {
        LastSend(c, j, work.outcome);
      } else {
        AnotherSend(c, j, work.outcome);
      }
    }
  }

  lemma DescriptorsReject(
    fds: set<int>, poll: set<int>, marks: set<int>, l: Listener, l': Listener, listenFd: int, max: nat, fd: int)
    requires Descriptors(fds, poll, marks, l, listenFd, max) && fd in fds
    requires l' == l || (l.Reading? && l' == Rejecting(fd))
    ensures Descriptors(fds - {fd}, poll, marks + {fd}, l', listenFd, max)
  {
    assert fd in poll + Pending(l);
  }

  // REJECTED, by whoever holds the session.
  lemma RejectedKept(v: View, k: nat, a: int, l': Listener, w0: seq<Worker>, js': seq<Journal>)
    requires Kept(v) && FdsDiffer(v.sess)
    requires HoldOf(v.listener, v.workers, a).Some? && HoldOf(v.listener, v.workers, a).value.slot == k && k in v.sess
    requires HoldOf(l', w0, a) == None && HoldsDifferOnlyAt(v.listener, v.workers, l', w0, a)
    requires SameStages(v.workers, w0)
    requires forall t :: 0 <= t < |w0| && Sleepy(w0[t].pc) ==> w0[t].pc == v.workers[t].pc
    requires |js'| == |v.journals| && forall j :: j != k && 0 <= j < |js'| ==> js'[j] == v.journals[j]
    requires l' == v.listener || (v.listener.Reading? && l' == Rejecting(v.sess[k].fd))
    ensures var sess' := v.sess - {k};
            && Ownership(sess', v.owner - {k}, l', w0)
            && Stages(sess', v.owner - {k}, w0, js')
            && Descriptors(Fds(sess'), v.poll, v.marks + {v.sess[k].fd}, l', v.listenFd, |js'|)
            && Wakeups(sess', w0)
  {
    OwnershipGiveBack(v.sess, v.owner, v.listener, v.workers, k, v.sess - {k}, a, l', w0);
    StagesDrop(v.sess, v.owner, v.workers, v.journals, k, w0, js');
    FdsDrop(v.sess, k);
    DescriptorsReject(Fds(v.sess), v.poll, v.marks, v.listener, l', v.listenFd, |js'|, v.sess[k].fd);
    WakeupsDrop(v.sess, v.workers, k, w0);
  }

  // ----- The steps that take and give back -----

  // What both pops do, as the rest of the system sees it.
  lemma TakeView(t: Table, i: nat)
    requires t.Valid() && i < t.count
    ensures t.Take(i).Valid() && t.Take(i).Max() == t.Max()
    ensures t.rows[i] in t.Sessions() && t.Sessions()[t.rows[i]] == t.Row(i)
    ensures var c := t.Row(i).(status := PopWord(t.Row(i).status));
            && t.Take(i).rows[i] == t.rows[i] && t.Take(i).Row(i) == c
            && t.Take(i).Sessions() == t.Sessions()[t.rows[i] := c]
  {
    SlotOf(t, i);
    TakeSessions(t, i);
  }

  // The state after agent `a` took the session in slot k.
  function Took(v: View, k: nat, a: int, c: Cell, l': Listener, w': seq<Worker>): View {
    v.(sess := v.sess[k := c], owner := v.owner[k := a], listener := l', workers := w', mutex := None)
  }

  lemma PopView(s: State, fd: int)
    requires s.table.Valid() && |s.journals| == s.table.Max() && Enabled(s, LPop(fd))
    ensures var i := s.table.IndexOf(fd);
            var k, c := s.table.rows[i], s.table.Row(i);
            var c' := c.(status := PopWord(c.status));
            var s' := Apply(s, LPop(fd));
            && k in s.table.Sessions() && s.table.Sessions()[k] == c && c.fd == fd
            && s'.table.Valid() && |s'.journals| == s'.table.Max()
            && ViewOf(s') == Took(ViewOf(s), k, LISTENER, c', Reading(k, c'), s.workers)
  {
    TakeView(s.table, s.table.IndexOf(fd));
  }

  lemma PopKeeps(s: State, fd: int)
    requires Inv(s) && Enabled(s, LPop(fd))
    ensures Inv(Apply(s, LPop(fd)))
  {
    PopView(s, fd);
    var i := s.table.IndexOf(fd);
    var k, c := s.table.rows[i], s.table.Row(i);
    PoppableIsIdleOrParked(c.status);
    NobodyElseHolds(ViewOf(s), k);
    PopKept(ViewOf(s), k, c.(status := PopWord(c.status)));
  }

  lemma PopKept(v: View, k: nat, c: Cell)
    requires Kept(v) && v.listener == AtTop && v.mutex == None
    requires k in v.sess && !Held(v.sess[k].status) && c == v.sess[k].(status := PopWord(v.sess[k].status))
    requires !PhaseOf(v.sess[k].status).Queued?
    ensures Kept(Took(v, k, LISTENER, c, Reading(k, c), v.workers))
  {
    TakenKept(v, k, LISTENER, c, Reading(k, c), v.workers);
  }

  // A session out of the pipeline is held by nobody but the listener.
  lemma NobodyElseHolds(v: View, k: nat)
    requires Kept(v) && k in v.sess && v.listener == AtTop
    requires !PhaseOf(v.sess[k].status).Queued?
    ensures !Held(v.sess[k].status)
  {
    assert Held(v.sess[k].status) ==> k in v.owner;
  }

  lemma CheckTakesView(s: State, t: nat)
    requires s.table.Valid() && |s.journals| == s.table.Max() && Enabled(s, WCheck(t))
    requires s.table.Peek(s.workers[t].stage, s.table.count) >= 0
    ensures var i := s.table.Peek(s.workers[t].stage, s.table.count);
            var k, c := s.table.rows[i], s.table.Row(i);
            var c' := c.(status := PopWord(c.status));
            var s' := Apply(s, WCheck(t));
            && k in s.table.Sessions() && s.table.Sessions()[k] == c && Eligible(c.status, s.workers[t].stage)
            && s'.table.Valid() && |s'.journals| == s'.table.Max()
            && ViewOf(s') == Took(ViewOf(s), k, t, c', s.listener, s.workers[t := s.workers[t].(pc := Holding(k, c'))])
  {
    TakeView(s.table, s.table.Peek(s.workers[t].stage, s.table.count));
  }

  lemma CheckTakesKeeps(s: State, t: nat)
    requires Inv(s) && Enabled(s, WCheck(t)) && s.table.Peek(s.workers[t].stage, s.table.count) >= 0
    ensures Inv(Apply(s, WCheck(t)))
  {
    CheckTakesView(s, t);
    var i := s.table.Peek(s.workers[t].stage, s.table.count);
    var k, c := s.table.rows[i], s.table.Row(i);
    CheckTakesKept(ViewOf(s), t, k, c.(status := PopWord(c.status)));
  }

  lemma MutexMoved(w: seq<Worker>, mutex: Option<nat>, mode: Mode, t: nat, pc: Pc, mutex': Option<nat>)
    requires Mutex(w, mutex, mode) && t < |w| && (Critical(pc) ==> mutex == None || mutex == Some(t))
    requires Sleepy(pc) ==> mode != Broadcast
    requires mutex' == if Critical(pc) then Some(t) else if mutex == Some(t) then None else mutex
    ensures Mutex(w[t := w[t].(pc := pc)], mutex', mode)
  {
  }

  lemma HoldMoved(l: Listener, w: seq<Worker>, t: nat, pc: Pc)
    requires t < |w|
    ensures var w' := w[t := w[t].(pc := pc)];
            && HoldsDifferOnlyAt(l, w, l, w', t) && SameStages(w, w')
            && HoldOf(l, w', t) == if pc.Holding? then Some(Hold(pc.slot, pc.cell)) else None
  {
  }

  lemma CheckTakesKept(v: View, t: nat, k: nat, c: Cell)
    requires Kept(v) && t < |v.workers| && v.workers[t].pc == Checking
    requires k in v.sess && Eligible(v.sess[k].status, v.workers[t].stage)
    requires c == v.sess[k].(status := PopWord(v.sess[k].status))
    ensures Kept(Took(v, k, t, c, v.listener, v.workers[t := v.workers[t].(pc := Holding(k, c))]))
  {
    HoldMoved(v.listener, v.workers, t, Holding(k, c));
    MutexMoved(v.workers, v.mutex, v.mode, t, Holding(k, c), None);
    TakenKept(v, k, t, c, v.listener, v.workers[t := v.workers[t].(pc := Holding(k, c))]);
  }

  lemma CheckFindsNothingKeeps(s: State, t: nat)
    requires Inv(s) && Enabled(s, WCheck(t)) && s.table.Peek(s.workers[t].stage, s.table.count) < 0
    ensures Inv(Apply(s, WCheck(t)))
  {
    PeekSeesAll(s.table, s.workers[t].stage);
    if s.mode == Running {
      MovedKept(ViewOf(s), t, Deciding, s.mutex);
    } else {
      MovedKept(ViewOf(s), t, Looping, None);
    }
  }

  lemma StagesSame(sess: Sessions, owner: map<nat, int>, w: seq<Worker>, js: seq<Journal>, w': seq<Worker>)
    requires Stages(sess, owner, w, js) && SameStages(w, w')
    ensures Stages(sess, owner, w', js)
  {
  }

  lemma WakeupsMoved(sess: Sessions, w: seq<Worker>, t: nat, pc: Pc)
    requires Wakeups(sess, w) && t < |w| && (Sleepy(pc) ==> NoneEligible(sess, w[t].stage))
    ensures Wakeups(sess, w[t := w[t].(pc := pc)])
  {
  }

  // A worker that moves on without touching a session. If it decides to sleep, nothing is
  // eligible for it; if it leaves the critical section, it frees the mutex.
  lemma MovedKept(v: View, t: nat, pc: Pc, mutex: Option<nat>)
    requires Kept(v) && t < |v.workers| && !v.workers[t].pc.Holding? && !pc.Holding?
    requires Sleepy(pc) ==> v.mode != Broadcast && NoneEligible(v.sess, v.workers[t].stage)
    requires Critical(pc) ==> v.mutex == None || v.mutex == Some(t)
    requires mutex == if Critical(pc) then Some(t) else if v.mutex == Some(t) then None else v.mutex
    ensures Kept(v.(workers := v.workers[t := v.workers[t].(pc := pc)], mutex := mutex))
  {
    var w' := v.workers[t := v.workers[t].(pc := pc)];
    StagesSame(v.sess, v.owner, v.workers, v.journals, w');
    WakeupsMoved(v.sess, v.workers, t, pc);
    hide Ownership, Stages, Descriptors, Wakeups, Mutex, NoneEligible;
    HoldMoved(v.listener, v.workers, t, pc);
    MutexMoved(v.workers, v.mutex, v.mode, t, pc, mutex);
    OwnershipSame(v.sess, v.owner, v.listener, v.workers, v.listener, w');
  }

  // peek_next says -1 only when no live session is eligible.
  lemma PeekSeesAll(t: Table, stage: Stage)
    requires t.Valid()
    ensures t.Peek(stage, t.count) < 0 <==> NoneEligible(t.Sessions(), stage)
  {
    if t.Peek(stage, t.count) < 0 {
      forall k | k in t.Sessions() ensures !Eligible(t.Sessions()[k].status, stage) {
        var i :| 0 <= i < t.count && t.rows[i] == k;
        assert !Eligible(t.Row(i).status, stage);
      }
    } else {
      SlotOf(t, t.Peek(stage, t.count));
    }
  }

  // The state after the holder of slot k dropped the session, or left c there.
  function Gave(
    v: View, k: nat, c: Cell, dropped: bool, l': Listener, w': seq<Worker>, js': seq<Journal>,
        delivered': seq<Journal>): View {
    v.(sess := if dropped then v.sess - {k} else v.sess[k := c],
       marks := if dropped then v.marks + {c.fd} else v.marks,
       owner := v.owner - {k}, listener := l', workers := w', journals := js', delivered := delivered')
  }

  // A session that somebody holds.
  ghost predicate HeldSlot(sess: Sessions, k: nat, c: Cell) {
    k in sess && sess[k] == c && Held(c.status) && 0 < c.fd < 16384
  }

  lemma HolderOwns(v: View, a: int)
    requires Kept(v) && HoldOf(v.listener, v.workers, a).Some?
    ensures var h := HoldOf(v.listener, v.workers, a).value;
            && HeldSlot(v.sess, h.slot, h.cell) && h.slot < |v.journals|
            && WellFormed(h.cell.status) && SessionFits(h.cell, v.journals[h.slot])
            && OwnerFits(PhaseOf(h.cell.status), a, v.workers)
  {
    var h := HoldOf(v.listener, v.workers, a).value;
    assert h.slot in v.owner && v.owner[h.slot] == a;
    assert h.cell.fd in Fds(v.sess);
    assert h.cell.fd in v.poll + Pending(v.listener);
  }

  lemma ReadView(s: State, outcome: ReadOutcome)
    requires s.table.Valid() && |s.journals| == s.table.Max() && Enabled(s, LRead(outcome))
    requires HeldSlot(s.table.Sessions(), s.listener.slot, s.listener.cell)
    ensures Safe(s, LRead(outcome))
    ensures var (k, c) := (s.listener.slot, s.listener.cell);
            var w := ReadStatus(outcome);
            var s' := Apply(s, LRead(outcome));
            && s'.table.Valid() && |s'.journals| == s'.table.Max()
            && ViewOf(s') == Gave(ViewOf(s), k, Table.Pushed(ReadCell(c, outcome), w), w == Rejected,
                                  if outcome.Failed? then Rejecting(c.fd) else AtTop, Woken(s.workers, Wakes(w)),
                                  if outcome.Complete? then s.journals[k := NO_JOURNAL] else s.journals, s.delivered)
  {
    SlotPush(s.table, s.listener.slot, ReadCell(s.listener.cell, outcome), ReadStatus(outcome));
  }

  lemma PushView(s: State, t: nat, work: Work)
    requires s.table.Valid() && |s.journals| == s.table.Max() && Enabled(s, WPush(t, work))
    requires HeldSlot(s.table.Sessions(), s.workers[t].pc.slot, s.workers[t].pc.cell)
    requires s.workers[t].pc.slot < |s.journals|
    ensures Safe(s, WPush(t, work))
    ensures var (k, c) := (s.workers[t].pc.slot, s.workers[t].pc.cell);
            var w, j := Pushes(c, work), Recorded(s.journals[k], c, work);
            var s' := Apply(s, WPush(t, work));
            && s'.table.Valid() && |s'.journals| == s'.table.Max()
            && ViewOf(s') == Gave(ViewOf(s), k, Table.Pushed(Worked(c, work), w), w == Rejected,
                                  s.listener, Woken(s.workers[t := s.workers[t].(pc := Looping)], Wakes(w)),
                                      s.journals[k := j],
                                  if work.Sending? && Sender.Finishes(work.outcome, c.buffer) then s.delivered + [j]
                                      else s.delivered)
  {
    SlotPush(s.table, s.workers[t].pc.slot, Worked(s.workers[t].pc.cell, work), Pushes(s.workers[t].pc.cell, work));
  }

  // A broadcast moves no session and leaves no sleeper in the pools it wakes.
  lemma WokenFacts(l: Listener, w: seq<Worker>, wakes: set<Stage>, mutex: Option<nat>, mode: Mode)
    requires Mutex(w, mutex, mode) && mutex == None
    ensures var w' := Woken(w, wakes);
            && SameStages(w, w') && Mutex(w', mutex, mode)
            && (forall a: int :: HoldOf(l, w', a) == HoldOf(l, w, a))
            && (forall t :: 0 <= t < |w'| && Sleepy(w'[t].pc) ==> w'[t] == w[t] && w'[t].stage !in wakes)
  {
  }

  // Whoever gives a session back by a push that is not REJECTED keeps the invariant.
  lemma GaveKept(
    v: View, a: int, k: nat, c: Cell, wakes: set<Stage>, l': Listener, w0: seq<Worker>, js': seq<Journal>,
    delivered': seq<Journal>)
    requires Kept(v) && v.mutex == None
    requires HoldOf(v.listener, v.workers, a).Some? && HoldOf(v.listener, v.workers, a).value.slot == k
    requires k in v.sess && c.fd == v.sess[k].fd && Returned(c, wakes)
    requires HoldOf(l', w0, a) == None && HoldsDifferOnlyAt(v.listener, v.workers, l', w0, a)
    requires SameStages(v.workers, w0)
    requires Mutex(w0, None, v.mode) && forall t :: 0 <= t < |w0| && Sleepy(w0[t].pc) ==> Sleepy(v.workers[t].pc)
    requires |js'| == |v.journals| && k < |js'| && SessionFits(c, js'[k])
    requires forall j :: j != k && 0 <= j < |js'| ==> js'[j] == v.journals[j]
    requires Pending(l') == Pending(v.listener) && (l' == v.listener || !l'.Rejecting?)
    requires forall i :: 0 <= i < |delivered'| ==> DeliveredOnce(delivered'[i])
    ensures Kept(Gave(v, k, c, false, l', Woken(w0, wakes), js', delivered'))
  {
    WokenFacts(l', w0, wakes, None, v.mode);
    GivenBackKept(v, k, a, c, wakes, l', Woken(w0, wakes), js');
  }

  lemma GaveUpKept(
    v: View, a: int, k: nat, c: Cell, l': Listener, w0: seq<Worker>, js': seq<Journal>, delivered': seq<Journal>)
    requires Kept(v) && v.mutex == None && FdsDiffer(v.sess)
    requires HoldOf(v.listener, v.workers, a).Some? && HoldOf(v.listener, v.workers, a).value.slot == k
    requires k in v.sess && c.fd == v.sess[k].fd
    requires HoldOf(l', w0, a) == None && HoldsDifferOnlyAt(v.listener, v.workers, l', w0, a)
    requires SameStages(v.workers, w0)
    requires Mutex(w0, None, v.mode) && forall t :: 0 <= t < |w0| && Sleepy(w0[t].pc) ==> w0[t].pc == v.workers[t].pc
    requires |js'| == |v.journals| && forall j :: j != k && 0 <= j < |js'| ==> js'[j] == v.journals[j]
    requires l' == v.listener || (v.listener.Reading? && l' == Rejecting(c.fd))
    requires forall i :: 0 <= i < |delivered'| ==> DeliveredOnce(delivered'[i])
    ensures Kept(Gave(v, k, c, true, l', Woken(w0, {}), js', delivered'))
  {
    WokenFacts(l', w0, {}, None, v.mode);
    assert Woken(w0, {}) == w0;
    RejectedKept(v, k, a, l', w0, js');
  }

  lemma ReadKept(v: View, outcome: ReadOutcome)
    requires Kept(v) && v.mutex == None && v.listener.Reading? && FdsDiffer(v.sess) && v.listener.slot < |v.journals|
    requires HeldSlot(v.sess, v.listener.slot, v.listener.cell)
    ensures var (k, c) := (v.listener.slot, v.listener.cell);
            var w := ReadStatus(outcome);
            Kept(Gave(v, k, Table.Pushed(ReadCell(c, outcome), w), w == Rejected,
                      if outcome.Failed? then Rejecting(c.fd) else AtTop, Woken(v.workers, Wakes(w)),
                      if outcome.Complete? then v.journals[k := NO_JOURNAL] else v.journals, v.delivered))
  {
    hide Ownership, Stages, Descriptors, Wakeups, Mutex, WellFormed, PhaseOf, Held, SessionFits, Returned,
        DeliveredOnce, Table.Pushed;
    HolderOwns(v, LISTENER);
    var (k, c) := (v.listener.slot, v.listener.cell);
    PushedFd(ReadCell(c, outcome), ReadStatus(outcome));
    var w := ReadStatus(outcome);
    var c' := Table.Pushed(ReadCell(c, outcome), w);
    if outcome.Failed? {
      GaveUpKept(v, LISTENER, k, c', Rejecting(c.fd), v.workers, v.journals, v.delivered);
    } else {
      var js' := if outcome.Complete? then v.journals[k := NO_JOURNAL] else v.journals;
      ReadCellFits(c, v.journals[k], outcome);
      GaveKept(v, LISTENER, k, c', Wakes(w), AtTop, v.workers, js', v.delivered);
    }
  }

  lemma PushedFd(c: Cell, w: WorkStatus)
    ensures Table.Pushed(c, w).fd == c.fd
  {
  }

  // What the listener leaves in a session it has read for.
  lemma ReadCellFits(c: Cell, j: Journal, outcome: ReadOutcome)
    requires WellFormed(c.status) && Held(c.status) && !PhaseOf(c.status).Queued? && !outcome.Failed?
    requires PhaseOf(c.status).Idle? ==> Blank(c)
    ensures var c' := Table.Pushed(ReadCell(c, outcome), ReadStatus(outcome));
            && c'.fd == c.fd && Returned(c', Wakes(ReadStatus(outcome)))
            && SessionFits(c', if outcome.Complete? then NO_JOURNAL else j)
  {
    PushedFits(ReadCell(c, outcome), ReadStatus(outcome), PhaseOf(c.status), if outcome.Complete? then NO_JOURNAL
        else j);
  }

  lemma ReadKeeps(s: State, outcome: ReadOutcome)
    requires Inv(s) && Enabled(s, LRead(outcome))
    ensures Safe(s, LRead(outcome)) && Inv(Apply(s, LRead(outcome)))
  {
    HolderOwns(ViewOf(s), LISTENER);
    SessionsDiffer(s.table);
    ReadView(s, outcome);
    ReadKept(ViewOf(s), outcome);
  }

  // What a worker holds waits for its pool.
  lemma HolderFits(v: View, t: nat)
    requires Kept(v) && t < |v.workers| && v.workers[t].pc.Holding? && v.workers[t].pc.slot < |v.journals|
    ensures var c := v.workers[t].pc.cell;
            && WellFormed(c.status) && Held(c.status) && PhaseOf(c.status) == Queued(v.workers[t].stage)
            && JournalFits(v.journals[v.workers[t].pc.slot], v.workers[t].stage, c.buffer)
  {
    HolderOwns(v, t);
  }

  lemma PushKept(v: View, t: nat, work: Work)
    requires Kept(v) && v.mutex == None && FdsDiffer(v.sess) && t < |v.workers| && v.workers[t].pc.Holding?
    requires WorkFits(v.workers[t].stage, v.workers[t].pc.cell, work) && v.workers[t].pc.slot < |v.journals|
    requires HeldSlot(v.sess, v.workers[t].pc.slot, v.workers[t].pc.cell)
    ensures var (k, c) := (v.workers[t].pc.slot, v.workers[t].pc.cell);
            var w, j := Pushes(c, work), Recorded(v.journals[k], c, work);
            Kept(Gave(v, k, Table.Pushed(Worked(c, work), w), w == Rejected,
                      v.listener, Woken(v.workers[t := v.workers[t].(pc := Looping)], Wakes(w)), v.journals[k := j],
                      if work.Sending? && Sender.Finishes(work.outcome, c.buffer) then v.delivered + [j]
                          else v.delivered))
  {
    hide Ownership, Stages, Descriptors, Wakeups, Mutex, WellFormed, PhaseOf, Held, Table.Pushed, SessionFits;
    HolderOwns(v, t);
    HolderFits(v, t);
    var (k, c) := (v.workers[t].pc.slot, v.workers[t].pc.cell);
    var w, j := Pushes(c, work), Recorded(v.journals[k], c, work);
    HoldMoved(v.listener, v.workers, t, Looping);
    MutexMoved(v.workers, v.mutex, v.mode, t, Looping, None);
    WorkFitsNext(c, v.journals[k], work, v.workers[t].stage);
    WorkedFrame(c, work);
    PushedFits(Worked(c, work), w, Queued(v.workers[t].stage), j);
    var d := if work.Sending? && Sender.Finishes(work.outcome, c.buffer) then v.delivered + [j] else v.delivered;
    PushKeptBy(v, t, k, Table.Pushed(Worked(c, work), w), w, j, d);
  }

  lemma PushKeptBy(v: View, t: nat, k: nat, c: Cell, w: WorkStatus, j: Journal, d: seq<Journal>)
    requires Kept(v) && v.mutex == None && FdsDiffer(v.sess) && t < |v.workers| && v.workers[t].pc.Holding?
    requires k == v.workers[t].pc.slot && k < |v.journals| && k in v.sess && c.fd == v.sess[k].fd
    requires w != Rejected ==> Returned(c, Wakes(w)) && SessionFits(c, j)
    requires forall i :: 0 <= i < |d| ==> DeliveredOnce(d[i])
    ensures Kept(Gave(v, k, c, w == Rejected, v.listener,
        Woken(v.workers[t := v.workers[t].(pc := Looping)], Wakes(w)), v.journals[k := j], d))
  {
    hide Stages, Descriptors, Wakeups, Ownership, SessionFits, Returned, DeliveredOnce;
    var w0 := v.workers[t := v.workers[t].(pc := Looping)];
    HoldMoved(v.listener, v.workers, t, Looping);
    MutexMoved(v.workers, v.mutex, v.mode, t, Looping, None);
    if w == Rejected {
      GaveUpKept(v, t, k, c, v.listener, w0, v.journals[k := j], d);
    } else {
      GaveKept(v, t, k, c, Wakes(w), v.listener, w0, v.journals[k := j], d);
    }
  }

  lemma WorkedFrame(c: Cell, work: Work)
    requires work.Sending? ==> Sender.Plausible(work.outcome, c.buffer) && |c.buffer| < Buffers.WORD - 1
    ensures Worked(c, work).fd == c.fd && Worked(c, work).status == c.status
  {
  }

  lemma PushKeeps(s: State, t: nat, work: Work)
    requires Inv(s) && Enabled(s, WPush(t, work))
    ensures Safe(s, WPush(t, work)) && Inv(Apply(s, WPush(t, work)))
  {
    HolderOwns(ViewOf(s), t);
    SessionsDiffer(s.table);
    PushView(s, t, work);
    PushKept(ViewOf(s), t, work);
  }

  // ----- The other steps -----

  lemma StartKeeps(s: State, t: nat)
    requires Inv(s) && Enabled(s, WStart(t))
    ensures Inv(Apply(s, WStart(t)))
  {
    MovedKept(ViewOf(s), t, if s.mode == Running then Ready else Exited, s.mutex);
  }

  lemma LockKeeps(s: State, t: nat)
    requires Inv(s) && Enabled(s, WLock(t))
    ensures Inv(Apply(s, WLock(t)))
  {
    MovedKept(ViewOf(s), t, Checking, Some(t));
  }

  lemma SleepKeeps(s: State, t: nat)
    requires Inv(s) && Enabled(s, WSleep(t))
    ensures Inv(Apply(s, WSleep(t)))
  {
    MovedKept(ViewOf(s), t, Asleep, None);
  }

  lemma SpuriousKeeps(s: State, t: nat)
    requires Inv(s) && Enabled(s, WSpurious(t))
    ensures Inv(Apply(s, WSpurious(t)))
  {
    MovedKept(ViewOf(s), t, Signalled, s.mutex);
  }

  lemma StopKeeps(s: State)
    requires Inv(s) && Enabled(s, Stop)
    ensures Inv(Apply(s, Stop))
  {
  }

  lemma BroadcastKeeps(s: State)
    requires Inv(s) && Enabled(s, BroadcastAll)
    ensures Inv(Apply(s, BroadcastAll))
  {
    BroadcastKept(ViewOf(s));
  }

  lemma EveryPool(stage: Stage)
    ensures stage in EVERY_POOL
  {
    match stage
    case Parse =>
    case Load =>
    case Build =>
    case Send =>
  }

  lemma BroadcastKept(v: View)
    requires Kept(v) && v.mutex == None
    ensures Kept(v.(mode := Broadcast, workers := Woken(v.workers, EVERY_POOL)))
  {
    var w' := Woken(v.workers, EVERY_POOL);
    WokenFacts(v.listener, v.workers, EVERY_POOL, v.mutex, v.mode);
    OwnershipSame(v.sess, v.owner, v.listener, v.workers, v.listener, w');
    forall t | 0 <= t < |w'| ensures !Sleepy(w'[t].pc) {
      EveryPool(v.workers[t].stage);
    }
  }

  // ----- Every step keeps the invariant, and does nothing unsafe -----

  lemma InitInv(s: State)
    requires Init(s)
    ensures Inv(s)
  {
    assert s.table.Sessions() == map[];
    assert Fds(map[]) == {};
  }

  lemma ListenerKeeps(s: State, step: Step)
    requires Inv(s) && Enabled(s, step)
    requires step.LAccept? || step.LAcceptTls? || step.LAddPoll? || step.LPurge? || step.LStale? || step.LPop?
        || step.LRead? || step.LRemove?
    ensures Safe(s, step) && Inv(Apply(s, step))
  {
    match step
    case LAccept(fd, id) => AcceptKeeps(s, fd, id);
    case LAcceptTls(fd, id, handshake) => AcceptTlsKeeps(s, fd, id, handshake);
    case LAddPoll => AddPollKeeps(s);
    case LPurge(fd) => PurgeKeeps(s, fd);
    case LStale(fd) => StaleKeeps(s, fd);
    case LPop(fd) => PopKeeps(s, fd);
    case LRead(outcome) => ReadKeeps(s, outcome);
    case LRemove => RemoveKeeps(s);
  }

  lemma CheckKeeps(s: State, t: nat)
    requires Inv(s) && Enabled(s, WCheck(t))
    ensures Inv(Apply(s, WCheck(t)))
  {
    if s.table.Peek(s.workers[t].stage, s.table.count) >= 0 {
      CheckTakesKeeps(s, t);
    } else {
      CheckFindsNothingKeeps(s, t);
    }
  }

  lemma StepKeeps(s: State, step: Step)
    requires Inv(s) && Enabled(s, step)
    ensures Safe(s, step) && Inv(Apply(s, step))
  {
    match step
    case WStart(t) => StartKeeps(s, t);
    case WLock(t) => LockKeeps(s, t);
    case WCheck(t) => CheckKeeps(s, t);
    case WSleep(t) => SleepKeeps(s, t);
    case WSpurious(t) => SpuriousKeeps(s, t);
    case WPush(t, work) => PushKeeps(s, t, work);
    case Stop => StopKeeps(s);
    case BroadcastAll => BroadcastKeeps(s);
    case _ => ListenerKeeps(s, step);
  }
}
