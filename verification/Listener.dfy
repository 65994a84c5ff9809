/** One scan of the listener over the poll array. It removes entries under itself and may
    append one; each entry is seen once all the same. */
module Listener {
  import opened HttpTypes
  import opened StatusWord
  import opened PollArrays

  const POLLERR: bv16 := 0x08
  const POLLHUP: bv16 := 0x10
  const POLLNVAL: bv16 := 0x20
  const POLLRDHUP: bv16 := 0x2000

  datatype Errno = EFAULT | EINTR | EINVAL | ENOMEM | EOTHER

  datatype ErrorClass = Reset | Continue | RemoveFd

  // classify_poll_error
  function Classify(code: Errno): ErrorClass {
    match code
    case EFAULT => Reset
    case EINVAL => Reset
    case EINTR => Continue
    case _ => RemoveFd
  }

  // What the calls made at one entry return: is_marked, check_for_socket_error, errno, the
  // second check_for_socket_error, accept, and handle_request_async (true unless it is -1).
  datatype Seen = Seen(
    marked: bool, broken: bool, errno: Errno, stillBroken: bool, accepted: Option<nat>, answered: bool)

  datatype Action =
    | Pushed(fd: nat, status: WorkStatus)
    | Asked(fd: nat)
    | Added(fd: nat)
    | Removed(fd: nat)

  datatype Verdict = Keep | Purge | Reject | Write | Accept(fd: nat) | Serve | Refuse

  // What the scan does at an entry.
  function Decide(e: PollFd, listenFd: nat, o: Seen): Verdict {
    if o.marked then Purge
    else if o.broken then Reject
    else if e.revents & POLLERR != 0 && Classify(o.errno) == RemoveFd then Reject
    else if e.revents & (POLLNVAL | POLLHUP | POLLRDHUP) != 0 && o.stillBroken then Reject
    else if e.revents & POLLOUT != 0 then Write
    else if e.revents & POLLIN == 0 then Keep
    else if e.fd == listenFd then (if o.accepted == None then Keep else Accept(o.accepted.value))
    else if o.answered then Serve else Refuse
  }

  predicate Removes(v: Verdict) { v in {Purge, Reject, Refuse} }

  function Actions(v: Verdict, fd: nat): seq<Action> {
    match v
    case Keep => []
    case Purge => [Removed(fd)]
    case Reject => [Pushed(fd, Rejected), Removed(fd)]
    case Write => [Pushed(fd, ReadyToSend)]
    case Accept(newFd) => [Pushed(newFd, Initial), Added(newFd)]
    case Serve => [Asked(fd)]
    case Refuse => [Asked(fd), Pushed(fd, Rejected), Removed(fd)]
  }

  // The assertion in the scan: an error event comes with no error that calls for a reset.
  predicate Assertable(e: PollFd, o: Seen) {
    o.marked || o.broken || e.revents & POLLERR == 0 || Classify(o.errno) != Reset
  }

  // The body of the scan loop at index i, up to and including the `i++`.
  method Visit(polls: PollArray, i: nat, o: Seen) returns (next: nat, log: seq<Action>)
    requires polls.Valid() && i < polls.count && polls.fds[i].fd < polls.marks.marks.Length
    requires Removes(Decide(polls.fds[i], polls.listenFd, o)) ==> i > 0
    requires Decide(polls.fds[i], polls.listenFd, o).Accept? ==>
               0 < o.accepted.value < 16384
    requires Assertable(polls.fds[i], o)
    modifies polls, polls.fds, polls.marks.marks
    ensures polls.Valid()
    ensures var v := Decide(old(polls.fds[i]), polls.listenFd, o);
            && log == Actions(v, old(polls.fds[i].fd))
            && next == (if Removes(v) then i else i + 1)
            && polls.Value() == if Removes(v) then old(polls.Value()).Remove(i)
                                else if v.Accept? then old(polls.Value()).Add(v.fd)
                                else old(polls.Value())
  {
    var e := polls.fds[i];
    if o.marked {
      var before, _ := polls.RemoveByIndex(i);
      return before + 1, [Removed(e.fd)];
    }
    if o.broken {
      var before, _ := polls.RemoveByIndex(i);
      return before + 1, [Pushed(e.fd, Rejected), Removed(e.fd)];
    }
    if e.revents & POLLERR != 0 && Classify(o.errno) == RemoveFd {
      var before, _ := polls.RemoveByIndex(i);
      return before + 1, [Pushed(e.fd, Rejected), Removed(e.fd)];
    }
    if e.revents & (POLLNVAL | POLLHUP | POLLRDHUP) != 0 && o.stillBroken {
      var before, _ := polls.RemoveByIndex(i);
      return before + 1, [Pushed(e.fd, Rejected), Removed(e.fd)];
    }
    if e.revents & POLLOUT != 0 {
      return i + 1, [Pushed(e.fd, ReadyToSend)];
    }
    log := [];
    if e.revents & POLLIN != 0 {
      if e.fd == polls.listenFd {
        if o.accepted == None {
          return i + 1, [];
        }
        var _ := polls.AddPollFd(o.accepted.value);
        return i + 1, [Pushed(o.accepted.value, Initial), Added(o.accepted.value)];
      } else {
        log := [Asked(e.fd)];
        if !o.answered {
          var before, _ := polls.RemoveByIndex(i);
          return before + 1, log + [Pushed(e.fd, Rejected), Removed(e.fd)];
        }
      }
    }
    next := i + 1;
  }

  // ----- The scan as a whole -----

  // The entries of a scan: those present at its start and the connection accepted in it.
  function Entries(start: seq<PollFd>, listenFd: nat, world: nat -> Seen): (es: seq<PollFd>)
    requires start != []
    ensures |start| <= |es| <= |start| + 1 && es[..|start|] == start
  {
    start + match Decide(start[0], listenFd, world(0)) case Accept(fd) => [Fresh(fd)] case _ => []
  }

  // What the scan decides at its k-th visit.
  function VerdictAt(es: seq<PollFd>, listenFd: nat, world: nat -> Seen, k: nat): Verdict
    requires k < |es|
  {
    Decide(es[k], listenFd, world(k))
  }

  // The entries that are left of the first n.
  function Kept(es: seq<PollFd>, listenFd: nat, world: nat -> Seen, n: nat): (r: seq<PollFd>)
    requires n <= |es|
    ensures |r| <= n
  {
    if n == 0 then []
    else Kept(es, listenFd, world, n - 1) +
         if Removes(VerdictAt(es, listenFd, world, n - 1)) then [] else [es[n - 1]]
  }

  function Log(es: seq<PollFd>, listenFd: nat, world: nat -> Seen, n: nat): seq<Action>
    requires n <= |es|
  {
    if n == 0 then [] else
        Log(es, listenFd, world, n - 1) + Actions(VerdictAt(es, listenFd, world, n - 1), es[n - 1].fd)
  }

  // What the scan relies on: every descriptor has a mark counter, the listener is in slot 0 alone
  // and in working order, a new connection has a descriptor of its own and a free slot, and the
  // assertion holds.
  ghost predicate ScanAllowed(p: Poll, listenFd: nat, markCount: nat, world: nat -> Seen) {
    && p.Valid(listenFd)
    && (forall j :: 1 <= j < p.count ==> p.fds[j].fd != listenFd)
    && (forall j :: 0 <= j < p.count ==> p.fds[j].fd < markCount)
    && (var es := Entries(p.fds[..p.count], listenFd, world);
        forall k :: 0 <= k < |es| ==> Assertable(es[k], world(k)))
    && !Removes(Decide(p.fds[0], listenFd, world(0)))
    && (match Decide(p.fds[0], listenFd, world(0))
        case Accept(fd) => p.count < p.Max() && 0 < fd < 16384 && fd < markCount && fd != listenFd
        case _ => true)
  }

  // Where the scan is when it has visited n entries and its index is i.
  ghost predicate At(p: Poll, i: nat, listenFd: nat, es: seq<PollFd>, world: nat -> Seen, n: nat) {
    && p.Valid(listenFd) && 1 <= n <= |es| && 1 <= i
    && i == |Kept(es, listenFd, world, n)|
    && p.fds[..p.count] == Kept(es, listenFd, world, n) + es[n..]
    && forall j :: 1 <= j < |es| ==> es[j].fd != listenFd
  }

  // The first visit, to the listener, is the only one that may append.
  lemma FirstVisit(p: Poll, listenFd: nat, markCount: nat, world: nat -> Seen, q: Poll)
    requires ScanAllowed(p, listenFd, markCount, world)
    requires var v := Decide(p.fds[0], listenFd, world(0)); q == if v.Accept? then p.Add(v.fd) else p
    ensures var es := Entries(p.fds[..p.count], listenFd, world);
            && At(q, 1, listenFd, es, world, 1)
            && es[..1] == [p.fds[0]]
            && (forall k :: 0 <= k < |es| ==> es[k].fd < markCount && Assertable(es[k], world(k)))
            && Log(es, listenFd, world, 1) == Actions(Decide(p.fds[0], listenFd, world(0)), p.fds[0].fd)
  {
    var v := Decide(p.fds[0], listenFd, world(0));
    if v.Accept? {
      AddAppends(p, listenFd, v.fd);
    }
    var es := Entries(p.fds[..p.count], listenFd, world);
    assert q.fds[..q.count] == es;
    OneVisit(es, listenFd, world);
  }

  lemma OneVisit(es: seq<PollFd>, listenFd: nat, world: nat -> Seen)
    requires es != [] && !Removes(VerdictAt(es, listenFd, world, 0))
    ensures Kept(es, listenFd, world, 1) == [es[0]] == es[..1] && es == [es[0]] + es[1..]
    ensures Log(es, listenFd, world, 1) == Actions(VerdictAt(es, listenFd, world, 0), es[0].fd)
  {
    hide Decide, Actions, Removes;
    assert Kept(es, listenFd, world, 0) == [] && Log(es, listenFd, world, 0) == [];
  }

  lemma LaterVisit(p: Poll, i: nat, listenFd: nat, es: seq<PollFd>, world: nat -> Seen, n: nat, q: Poll)
    requires At(p, i, listenFd, es, world, n) && n < |es|
    requires q == if Removes(VerdictAt(es, listenFd, world, n)) then p.Remove(i) else p
    ensures At(q, if q.count < p.count then i else i + 1, listenFd, es, world, n + 1)
    ensures q.count < p.count <==> Removes(VerdictAt(es, listenFd, world, n))
  {
    var kept := Kept(es, listenFd, world, n);
    assert es[n..] == [es[n]] + es[n + 1..];
    if Removes(VerdictAt(es, listenFd, world, n)) {
      RemoveKeeps(p, listenFd, i);
      assert p.fds[..i] == p.fds[..p.count][..i] == kept;
      assert p.fds[i + 1..p.count] == p.fds[..p.count][i + 1..] == es[n + 1..];
    } else {
      assert kept + es[n..] == kept + [es[n]] + es[n + 1..];
    }
  }

  // The entry at the index of the scan is the next one, and no listener.
  lemma NextEntry(p: Poll, i: nat, listenFd: nat, es: seq<PollFd>, world: nat -> Seen, n: nat)
    requires At(p, i, listenFd, es, world, n)
    ensures i < p.count <==> n < |es|
    ensures n == |es| ==> i == p.count
    ensures i < p.count ==> p.fds[i] == es[n] && !VerdictAt(es, listenFd, world, n).Accept?
  {
    assert p.fds[..p.count] == Kept(es, listenFd, world, n) + es[n..];
    assert i < p.count ==> p.fds[i] == p.fds[..p.count][i];
  }

  // What the first n visits leave behind: the entries seen and the actions taken.
  ghost predicate Told(
    es: seq<PollFd>, listenFd: nat, world: nat -> Seen, n: nat, visited: seq<PollFd>, log: seq<Action>) {
    n <= |es| && visited == es[..n] && log == Log(es, listenFd, world, n)
  }

  // The loop body once more, from the second visit on.
  method VisitLater(
    polls: PollArray, i: nat, ghost es: seq<PollFd>, world: nat -> Seen, n: nat, seen: seq<PollFd>, before: seq<Action>)
    returns (next: nat, visited: seq<PollFd>, log: seq<Action>)
    requires polls.Valid() && At(polls.Value(), i, polls.listenFd, es, world, n) && n < |es|
    requires Told(es, polls.listenFd, world, n, seen, before)
    requires Assertable(es[n], world(n)) && es[n].fd < polls.marks.marks.Length
    modifies polls, polls.fds, polls.marks.marks
    ensures polls.Valid() && At(polls.Value(), next, polls.listenFd, es, world, n + 1)
    ensures Told(es, polls.listenFd, world, n + 1, visited, log)
  {
    ghost var p := polls.Value();
    NextEntry(p, i, polls.listenFd, es, world, n);
    visited := seen + [polls.fds[i]];
    var actions;
    next, actions := Visit(polls, i, world(n));
    log := before + actions;
    LaterVisit(p, i, polls.listenFd, es, world, n, polls.Value());
  }

  // Every entry present at the start, and the one accepted meanwhile, is visited exactly once
  // and in order; those not removed are left, in order; and the scan ends.
  method Scan(polls: PollArray, world: nat -> Seen) returns (visited: seq<PollFd>, log: seq<Action>)
    requires polls.Valid() && ScanAllowed(polls.Value(), polls.listenFd, polls.marks.marks.Length, world)
    modifies polls, polls.fds, polls.marks.marks
    ensures polls.Valid()
    ensures var es := Entries(old(polls.fds[..polls.count]), polls.listenFd, world);
            && visited == es
            && polls.fds[..polls.count] == Kept(es, polls.listenFd, world, |es|)
            && log == Log(es, polls.listenFd, world, |es|)
    ensures visited == old(polls.fds[..polls.count]) + Joined(old(polls.fds[0]), world(0))
    ensures forall fd :: DoneByEvents(visited, polls.listenFd, world, polls.fds[..polls.count], log, fd)
  {
    ghost var p := polls.Value();
    ghost var es := Entries(p.fds[..p.count], polls.listenFd, world);
    EntriesByEvents(p.fds[..p.count], polls.listenFd, world);
    visited := [polls.fds[0]];
    var i: nat, n: nat := 0, 1;
    i, log := Visit(polls, 0, world(0));
    FirstVisit(p, polls.listenFd, polls.marks.marks.Length, world, polls.Value());
    hide At, Entries, Kept, Log, Decide, Actions, Poll.Add, Poll.Valid, ScanAllowed, Assertable;
    while i < polls.count
      invariant polls.Valid() && At(polls.Value(), i, polls.listenFd, es, world, n)
      invariant forall k :: 0 <= k < |es| ==> es[k].fd < polls.marks.marks.Length && Assertable(es[k], world(k))
      invariant Told(es, polls.listenFd, world, n, visited, log)
      decreases |es| - n
    {
      NextEntry(polls.Value(), i, polls.listenFd, es, world, n);
      i, visited, log := VisitLater(polls, i, es, world, n, visited, log);
      n := n + 1;
    }
    NextEntry(polls.Value(), i, polls.listenFd, es, world, n);
    AllVisited(polls.Value(), i, polls.listenFd, es, world, visited, log);
    forall fd ensures DoneByEvents(es, polls.listenFd, world, polls.fds[..polls.count], log, fd) {
      ScanIsByEvents(es, polls.listenFd, world, fd);
    }
  }

  lemma AllVisited(
    p: Poll, i: nat, listenFd: nat, es: seq<PollFd>, world: nat -> Seen, visited: seq<PollFd>, log: seq<Action>)
    requires At(p, i, listenFd, es, world, |es|) && Told(es, listenFd, world, |es|, visited, log)
    ensures visited == es && p.fds[..p.count] == Kept(es, listenFd, world, |es|)
  {
  }

  // ----- What is left -----

  // A descriptor is left exactly when some entry with it was not removed.
  lemma {:induction false} KeptFds(es: seq<PollFd>, listenFd: nat, world: nat -> Seen, n: nat, fd: nat)
    requires n <= |es|
    ensures (exists e :: e in Kept(es, listenFd, world, n) && e.fd == fd) <==>
            exists k :: 0 <= k < n && es[k].fd == fd && !Removes(VerdictAt(es, listenFd, world, k))
  {
    if n > 0 {
      KeptFds(es, listenFd, world, n - 1, fd);
    }
  }

  lemma ActionsOf(v: Verdict, at: nat, fd: nat)
    ensures Removed(fd) in Actions(v, at) <==> at == fd && Removes(v)
    ensures Pushed(fd, Rejected) in Actions(v, at) <==> at == fd && v in {Reject, Refuse}
  {
  }

  lemma {:induction false} LogMembers(es: seq<PollFd>, listenFd: nat, world: nat -> Seen, n: nat, a: Action)
    requires n <= |es|
    ensures a in Log(es, listenFd, world, n) <==>
            exists k :: 0 <= k < n && a in Actions(VerdictAt(es, listenFd, world, k), es[k].fd)
  {
    if n > 0 {
      LogMembers(es, listenFd, world, n - 1, a);
    }
  }

  // Each removal is of an entry that was decided against, and all but those of marked ones come
  // with a push of REJECTED.
  lemma RemovedFds(es: seq<PollFd>, listenFd: nat, world: nat -> Seen, n: nat, fd: nat)
    requires n <= |es|
    ensures Removed(fd) in Log(es, listenFd, world, n) <==>
            exists k :: 0 <= k < n && es[k].fd == fd && Removes(VerdictAt(es, listenFd, world, k))
    ensures Pushed(fd, Rejected) in Log(es, listenFd, world, n) <==>
            exists k :: 0 <= k < n && es[k].fd == fd && VerdictAt(es, listenFd, world, k) in {Reject, Refuse}
  {
    LogMembers(es, listenFd, world, n, Removed(fd));
    LogMembers(es, listenFd, world, n, Pushed(fd, Rejected));
    forall k | 0 <= k < n
      ensures Removed(fd) in Actions(VerdictAt(es, listenFd, world, k), es[k].fd) <==>
              es[k].fd == fd && Removes(VerdictAt(es, listenFd, world, k))
      ensures Pushed(fd, Rejected) in Actions(VerdictAt(es, listenFd, world, k), es[k].fd) <==>
              es[k].fd == fd && VerdictAt(es, listenFd, world, k) in {Reject, Refuse}
    {
      ActionsOf(VerdictAt(es, listenFd, world, k), es[k].fd, fd);
    }
  }

  function FdsOf(es: seq<PollFd>): set<nat> { set e | e in es :: e.fd }

  function RemovedIn(log: seq<Action>): set<nat> { set a | a in log && a.Removed? :: a.fd }

  // As sets: a scan over distinct descriptors leaves those it saw without those it removed. The
  // steps of the protocol add and remove the same descriptors one at a time.
  lemma ScanAsSets(es: seq<PollFd>, listenFd: nat, world: nat -> Seen)
    requires forall i, j :: 0 <= i < j < |es| ==> es[i].fd != es[j].fd
    ensures FdsOf(Kept(es, listenFd, world, |es|)) == FdsOf(es) - RemovedIn(Log(es, listenFd, world, |es|))
  {
    var kept, log := Kept(es, listenFd, world, |es|), Log(es, listenFd, world, |es|);
    forall fd ensures fd in FdsOf(kept) <==> fd in FdsOf(es) && fd !in RemovedIn(log) {
      KeptFds(es, listenFd, world, |es|, fd);
      RemovedFds(es, listenFd, world, |es|, fd);
      hide Kept, Log, VerdictAt, Removes;
      assert fd in RemovedIn(log) <==> Removed(fd) in log;
      if k :| 0 <= k < |es| && es[k].fd == fd {
        assert es[k] in es;
      }
    }
  }

  // ----- What it was for: events, marks and answers -----

  // Something is wrong with the socket: its error is set, or poll reports an error that is more than an
  // interruption, or it reports that the socket is invalid or hung up and its error is set by then.
  predicate Faulty(e: PollFd, o: Seen) {
    || o.broken
    || (e.revents & POLLERR != 0 && (o.errno == ENOMEM || o.errno == EOTHER))
    || ((e.revents & POLLNVAL != 0 || e.revents & POLLHUP != 0 || e.revents & POLLRDHUP != 0) && o.stillBroken)
  }

  // An entry without a mark or a fault is looked at for output, and only else for input.
  predicate Writes(e: PollFd, o: Seen) { !o.marked && !Faulty(e, o) && e.revents & POLLOUT != 0 }

  predicate Reads(e: PollFd, o: Seen) {
    !o.marked && !Faulty(e, o) && e.revents & POLLOUT == 0 && e.revents & POLLIN != 0
  }

  // Why a client goes: it was marked, or there is something wrong with its socket, or it had input that
  // its handler did not answer.
  predicate ClientGoes(e: PollFd, o: Seen) { o.marked || Faulty(e, o) || (Reads(e, o) && !o.answered) }

  lemma HangUpBits(b: bv16)
    ensures b & (POLLNVAL | POLLHUP | POLLRDHUP) != 0 <==>
            b & POLLNVAL != 0 || b & POLLHUP != 0 || b & POLLRDHUP != 0
  {
  }

  // The decision at an entry, event by event.
  lemma DecidedBy(e: PollFd, listenFd: nat, o: Seen)
    ensures var v := Decide(e, listenFd, o);
            && (e.fd != listenFd ==> (Removes(v) <==> ClientGoes(e, o)))
            && (e.fd != listenFd ==> (v in {Reject, Refuse} <==> ClientGoes(e, o) && !o.marked))
            && (e.fd == listenFd ==> (Removes(v) <==> o.marked || Faulty(e, o)))
            && (v == Write <==> Writes(e, o))
            && (v in {Serve, Refuse} <==> Reads(e, o) && e.fd != listenFd)
            && (v == Serve ==> o.answered) && (v == Refuse ==> !o.answered)
            && (v.Accept? <==> Reads(e, o) && e.fd == listenFd && o.accepted.Some?)
            && (v.Accept? ==> o.accepted == Some(v.fd))
  {
    HangUpBits(e.revents);
  }

  // A descriptor is left, removed and rejected, asked for, written to or added exactly for these
  // reasons; `left` and `log` are what is in the array and in the log after the entries es were visited.
  ghost predicate DoneByEvents(
    es: seq<PollFd>, listenFd: nat, world: nat -> Seen, left: seq<PollFd>, log: seq<Action>, fd: nat)
  {
    && (fd != listenFd ==>
          && ((exists e :: e in left && e.fd == fd) <==>
              exists k :: 0 <= k < |es| && es[k].fd == fd && !ClientGoes(es[k], world(k)))
          && (Removed(fd) in log <==>
              exists k :: 0 <= k < |es| && es[k].fd == fd && ClientGoes(es[k], world(k)))
          && (Pushed(fd, Rejected) in log <==>
              exists k :: 0 <= k < |es| && es[k].fd == fd && ClientGoes(es[k], world(k)) && !world(k).marked)
          && (Asked(fd) in log <==>
              exists k :: 0 <= k < |es| && es[k].fd == fd && Reads(es[k], world(k))))
    && (Pushed(fd, ReadyToSend) in log <==>
        exists k :: 0 <= k < |es| && es[k].fd == fd && Writes(es[k], world(k)))
    && (Added(fd) in log <==> Pushed(fd, Initial) in log)
    && (Added(fd) in log <==>
        exists k :: 0 <= k < |es| && es[k].fd == listenFd && Reads(es[k], world(k)) && world(k).accepted == Some(fd))
  }

  lemma ActionsAre(v: Verdict, at: nat, fd: nat)
    ensures Asked(fd) in Actions(v, at) <==> at == fd && v in {Serve, Refuse}
    ensures Pushed(fd, ReadyToSend) in Actions(v, at) <==> at == fd && v == Write
    ensures Added(fd) in Actions(v, at) <==> v == Accept(fd)
    ensures Pushed(fd, Initial) in Actions(v, at) <==> v == Accept(fd)
  {
  }

  lemma LogAsks(es: seq<PollFd>, listenFd: nat, world: nat -> Seen, fd: nat)
    requires fd != listenFd
    ensures Asked(fd) in Log(es, listenFd, world, |es|) <==>
            exists k :: 0 <= k < |es| && es[k].fd == fd && Reads(es[k], world(k))
  {
    LogMembers(es, listenFd, world, |es|, Asked(fd));
    forall k | 0 <= k < |es|
      ensures Asked(fd) in Actions(VerdictAt(es, listenFd, world, k), es[k].fd) <==>
              es[k].fd == fd && Reads(es[k], world(k))
    {
      DecidedBy(es[k], listenFd, world(k));
      ActionsAre(VerdictAt(es, listenFd, world, k), es[k].fd, fd);
      hide Actions, Decide, Reads;
    }
  }

  lemma LogWrites(es: seq<PollFd>, listenFd: nat, world: nat -> Seen, fd: nat)
    ensures Pushed(fd, ReadyToSend) in Log(es, listenFd, world, |es|) <==>
            exists k :: 0 <= k < |es| && es[k].fd == fd && Writes(es[k], world(k))
  {
    LogMembers(es, listenFd, world, |es|, Pushed(fd, ReadyToSend));
    forall k | 0 <= k < |es|
      ensures Pushed(fd, ReadyToSend) in Actions(VerdictAt(es, listenFd, world, k), es[k].fd) <==>
              es[k].fd == fd && Writes(es[k], world(k))
    {
      DecidedBy(es[k], listenFd, world(k));
      ActionsAre(VerdictAt(es, listenFd, world, k), es[k].fd, fd);
      hide Actions, Decide, Writes;
    }
  }

  lemma LogAdds(es: seq<PollFd>, listenFd: nat, world: nat -> Seen, fd: nat)
    ensures var log := Log(es, listenFd, world, |es|); Added(fd) in log <==> Pushed(fd, Initial) in log
    ensures Added(fd) in Log(es, listenFd, world, |es|) <==>
            exists k :: 0 <= k < |es| && es[k].fd == listenFd && Reads(es[k], world(k))
                        && world(k).accepted == Some(fd)
  {
    LogMembers(es, listenFd, world, |es|, Added(fd));
    LogMembers(es, listenFd, world, |es|, Pushed(fd, Initial));
    forall k | 0 <= k < |es|
      ensures Added(fd) in Actions(VerdictAt(es, listenFd, world, k), es[k].fd) <==>
              es[k].fd == listenFd && Reads(es[k], world(k)) && world(k).accepted == Some(fd)
      ensures Pushed(fd, Initial) in Actions(VerdictAt(es, listenFd, world, k), es[k].fd) <==>
              Added(fd) in Actions(VerdictAt(es, listenFd, world, k), es[k].fd)
    {
      DecidedBy(es[k], listenFd, world(k));
      ActionsAre(VerdictAt(es, listenFd, world, k), es[k].fd, fd);
      hide Actions, Decide, Reads;
    }
  }

  lemma LogRemoves(es: seq<PollFd>, listenFd: nat, world: nat -> Seen, fd: nat)
    requires fd != listenFd
    ensures var (left, log) := (Kept(es, listenFd, world, |es|), Log(es, listenFd, world, |es|));
            && ((exists e :: e in left && e.fd == fd) <==>
                exists k :: 0 <= k < |es| && es[k].fd == fd && !ClientGoes(es[k], world(k)))
            && (Removed(fd) in log <==>
                exists k :: 0 <= k < |es| && es[k].fd == fd && ClientGoes(es[k], world(k)))
            && (Pushed(fd, Rejected) in log <==>
                exists k :: 0 <= k < |es| && es[k].fd == fd && ClientGoes(es[k], world(k)) && !world(k).marked)
  {
    KeptFds(es, listenFd, world, |es|, fd);
    RemovedFds(es, listenFd, world, |es|, fd);
    hide Kept, Log;
    forall k | 0 <= k < |es| && es[k].fd == fd
      ensures Removes(VerdictAt(es, listenFd, world, k)) <==> ClientGoes(es[k], world(k))
      ensures VerdictAt(es, listenFd, world, k) in {Reject, Refuse} <==>
              ClientGoes(es[k], world(k)) && !world(k).marked
    {
      DecidedBy(es[k], listenFd, world(k));
      hide Decide, ClientGoes, Removes;
    }
  }

  lemma ScanIsByEvents(es: seq<PollFd>, listenFd: nat, world: nat -> Seen, fd: nat)
    ensures DoneByEvents(es, listenFd, world, Kept(es, listenFd, world, |es|), Log(es, listenFd, world, |es|), fd)
  {
    hide ClientGoes, Reads, Writes, Kept, Log;
    if fd != listenFd {
      LogRemoves(es, listenFd, world, fd);
      LogAsks(es, listenFd, world, fd);
    }
    LogWrites(es, listenFd, world, fd);
    LogAdds(es, listenFd, world, fd);
  }

  // A connection accepted on the listener is visited in the same scan.
  function Joined(listener: PollFd, o: Seen): seq<PollFd> {
    if Reads(listener, o) && o.accepted.Some? then [Fresh(o.accepted.value)] else []
  }

  // The entries that are visited, by the same events: those at the start, and a connection that was
  // accepted on the listener.
  lemma EntriesByEvents(start: seq<PollFd>, listenFd: nat, world: nat -> Seen)
    requires start != [] && start[0].fd == listenFd
    ensures Entries(start, listenFd, world) == start + Joined(start[0], world(0))
  {
    DecidedBy(start[0], listenFd, world(0));
    hide Decide, Reads;
  }

  // No descriptor is taken out of the array before its session was told: each removal is of a marked
  // entry, or comes right after a push of REJECTED for the same descriptor.
  lemma {:induction false} RejectedBeforeRemoved(es: seq<PollFd>, listenFd: nat, world: nat -> Seen, n: nat, j: nat)
    requires n <= |es| && j < |Log(es, listenFd, world, n)| && Log(es, listenFd, world, n)[j].Removed?
    ensures var log, fd := Log(es, listenFd, world, n), Log(es, listenFd, world, n)[j].fd;
            || (j > 0 && log[j - 1] == Pushed(fd, Rejected))
            || exists k :: 0 <= k < n && es[k].fd == fd && world(k).marked
  {
    var before := Log(es, listenFd, world, n - 1);
    var actions := Actions(VerdictAt(es, listenFd, world, n - 1), es[n - 1].fd);
    assert Log(es, listenFd, world, n) == before + actions;
    if j < |before| {
      RejectedBeforeRemoved(es, listenFd, world, n - 1, j);
    } else {
      assert actions[j - |before|].Removed?;
    }
  }
}
