/** The array of descriptors that the listener polls, in plain mode: slot 0 is the listening
    socket, the slots below `count` are in use, and `lastInIndex` is where a full array
    overwrites next. */
module PollArrays {
  import opened MarkedDescriptors

  const POLLIN: bv16 := 0x01
  const POLLOUT: bv16 := 0x04

  datatype PollFd = PollFd(fd: nat, events: bv16, revents: bv16)

  const NO_FD := PollFd(0, 0, 0)

  // What add_poll_fd_sync writes for a descriptor.
  function Fresh(fd: nat): PollFd { PollFd(fd, POLLIN, 0) }

  // `!(fd & (POLLIN | POLLOUT))`: the two bits of the descriptor itself, not of its events.
  predicate LooksIdle(fd: nat) { fd % 2 == 0 && (fd / 4) % 2 == 0 }

  // ----- The value of the array -----

  datatype Poll = Poll(fds: seq<PollFd>, count: nat, last: nat) {

    function Max(): nat { |fds| }

    ghost predicate Valid(listenFd: nat) {
      && 2 <= Max()
      && fds[0] == PollFd(listenFd, POLLIN, fds[0].revents)
      && 1 <= last < Max()
      && last <= count <= Max()
      && forall i :: count <= i < Max() ==> fds[i] == NO_FD
    }

    // The slot that peek_next returns, and what it does to the array on the way: the swap goes
    // through a pointer into the array, so it copies slot `last` over every slot that looks idle.
    function Next(): nat { if count < Max() then count else last }

    function Overwritten(i: nat): bool
      requires i < Max()
    {
      count >= Max() && last < i && LooksIdle(fds[i].fd)
    }

    function Spread(): (s: seq<PollFd>)
      requires last < Max()
      ensures |s| == Max()
      ensures forall i :: 0 <= i < Max() ==> s[i] == if Overwritten(i) then fds[last] else fds[i]
    {
      seq(Max(), i requires 0 <= i < Max() => if Overwritten(i) then fds[last] else fds[i])
    }

    function After(l: nat): nat
      requires l < Max()
    {
      if l + 1 == Max() then 1 else l + 1
    }

    function Add(fd: nat): Poll
      requires Next() < Max() && last < Max()
    {
      Poll(Spread()[Next() := Fresh(fd)],
           if count < Max() then count + 1 else count,
           if count < Max() then last else After(last))
    }

    function Remove(i: nat): Poll
      requires 0 < i < count <= Max()
    {
      Poll(fds[..i] + fds[i + 1..count] + [NO_FD] + fds[count..], count - 1, if i < last then last - 1 else last)
    }

    // The client descriptors.
    function Clients(): (r: set<nat>)
      requires count <= Max()
    {
      set i | 1 <= i < count :: fds[i].fd
    }

    ghost predicate Distinct()
      requires count <= Max()
    {
      forall i, j :: 0 <= i < j < count ==> fds[i].fd != fds[j].fd
    }
  }

  lemma AfterWraps(l: nat, m: nat)
    requires l < m
    ensures (l + 1) % m == if l + 1 == m then 0 else l + 1
  {
  }

  // ----- What adding and removing keep -----

  lemma AddKeeps(p: Poll, listenFd: nat, fd: nat)
    requires p.Valid(listenFd)
    ensures p.Next() < p.Max() && p.Next() != 0
    ensures p.Add(fd).Valid(listenFd) && p.Add(fd).Max() == p.Max() && p.Add(fd).count > 1
    ensures p.Add(fd).fds[p.Next()] == PollFd(fd, POLLIN, 0)
  {
  }

  lemma RemoveKeeps(p: Poll, listenFd: nat, i: nat)
    requires p.Valid(listenFd) && 0 < i < p.count
    ensures p.Remove(i).Valid(listenFd) && p.Remove(i).Max() == p.Max() && p.Remove(i).count > 0
    ensures p.Remove(i).fds[..p.count - 1] == p.fds[..i] + p.fds[i + 1..p.count]
  {
  }

  datatype Op = AddOp(fd: nat) | RemoveOp(index: nat)

  // A run of operations whose removals name a slot in use, as remove_poll_fd_by_index_sync asserts.
  ghost predicate CanRun(p: Poll, listenFd: nat, ops: seq<Op>)
    requires p.Valid(listenFd)
    decreases |ops|
  {
    ops == [] ||
    match ops[0]
    case AddOp(fd) => AddKeeps(p, listenFd, fd); CanRun(p.Add(fd), listenFd, ops[1..])
    case RemoveOp(i) => 0 < i < p.count && (RemoveKeeps(p, listenFd, i); CanRun(p.Remove(i), listenFd, ops[1..]))
  }

  ghost function Run(p: Poll, listenFd: nat, ops: seq<Op>): (q: Poll)
    requires p.Valid(listenFd) && CanRun(p, listenFd, ops)
    ensures q.Valid(listenFd) && q.Max() == p.Max()
    decreases |ops|
  {
    if ops == [] then p
    else match ops[0]
      case AddOp(fd) => AddKeeps(p, listenFd, fd); Run(p.Add(fd), listenFd, ops[1..])
      case RemoveOp(i) => RemoveKeeps(p, listenFd, i); Run(p.Remove(i), listenFd, ops[1..])
  }

  function Started(max: nat, listenFd: nat): (p: Poll)
    requires max > 0
    ensures p.Max() == max && p.count == 1 && p.last == 1
    ensures forall i :: 0 <= i < max ==> p.fds[i] == if i == 0 then Fresh(listenFd) else NO_FD
  {
    Poll(seq(max, i => if i == 0 then Fresh(listenFd) else NO_FD), 1, 1)
  }

  // Over any run of operations from the start, overflow included, slot 0 stays the listener,
  // the two indices stay in range and the slots not in use stay empty; with a table of one
  // slot the first addition already has no place to go.
  lemma {:induction false} EveryRunIsInOrder(max: nat, listenFd: nat, ops: seq<Op>)
    requires max > 0
    ensures Started(max, listenFd).Valid(listenFd) <==> max >= 2
    ensures max == 1 ==> Started(max, listenFd).Next() == max
    ensures max >= 2 && CanRun(Started(max, listenFd), listenFd, ops) ==>
              var q := Run(Started(max, listenFd), listenFd, ops);
              && q.fds[0].fd == listenFd && q.fds[0].events == POLLIN
              && 1 <= q.last < max && q.last <= q.count <= max
              && forall i :: q.count <= i < max ==> q.fds[i] == NO_FD
  {
    if max >= 2 && CanRun(Started(max, listenFd), listenFd, ops) {
      assert Run(Started(max, listenFd), listenFd, ops).Valid(listenFd);
    }
  }

  // ----- Below capacity -----

  // Below capacity a descriptor is appended, and as a set the clients gain it.
  lemma AddAppends(p: Poll, listenFd: nat, fd: nat)
    requires p.Valid(listenFd) && p.count < p.Max()
    ensures p.Add(fd).fds[..p.count + 1] == p.fds[..p.count] + [Fresh(fd)]
    ensures p.Add(fd).Clients() == p.Clients() + {fd}
    ensures p.Distinct() && fd !in p.Clients() && fd != p.fds[0].fd ==> p.Add(fd).Distinct()
  {
    var q := p.Add(fd);
    forall x ensures x in q.Clients() <==> x in p.Clients() + {fd} {
      if x in p.Clients() {
        var i :| 1 <= i < p.count && p.fds[i].fd == x;
        assert q.fds[i].fd == x;
      }
      if x == fd {
        assert q.fds[p.count].fd == x;
      }
    }
  }

  lemma RemoveDrops(p: Poll, listenFd: nat, i: nat)
    requires p.Valid(listenFd) && 0 < i < p.count && p.Distinct()
    ensures p.Remove(i).Distinct() && p.Remove(i).Clients() == p.Clients() - {p.fds[i].fd}
  {
    var q := p.Remove(i);
    assert forall k :: 0 <= k < p.count - 1 ==> q.fds[k] == p.fds[if k < i then k else k + 1];
    forall x ensures x in q.Clients() <==> x in p.Clients() && x != p.fds[i].fd {
      if x in p.Clients() && x != p.fds[i].fd {
        var k :| 1 <= k < p.count && p.fds[k].fd == x;
        assert q.fds[if k < i then k else k - 1].fd == x;
      }
    }
  }

  function ClientsUpTo(p: Poll, n: nat): set<nat>
    requires n <= |p.fds|
  {
    set i | 1 <= i < n :: p.fds[i].fd
  }

  // There is a free slot exactly when the clients and the listener are fewer than the slots.
  lemma {:induction false} CountIsClients(p: Poll, n: nat)
    requires p.count <= p.Max() && p.Distinct() && 1 <= n <= p.count
    ensures |ClientsUpTo(p, n)| == n - 1
    ensures n == p.count ==> 1 + |p.Clients()| == p.count
  {
    if n > 1 {
      CountIsClients(p, n - 1);
      assert p.fds[n - 1].fd !in ClientsUpTo(p, n - 1);
      assert ClientsUpTo(p, n) == ClientsUpTo(p, n - 1) + {p.fds[n - 1].fd};
    } else {
      assert ClientsUpTo(p, n) == {};
    }
    assert n == p.count ==> ClientsUpTo(p, n) == p.Clients();
  }

  // ----- At capacity -----

  // A full array gives up the descriptor at `last` and no other exactly when no slot after it
  // looks idle.
  lemma OverflowEvictsOnlyOne(p: Poll, listenFd: nat, fd: nat)
    requires p.Valid(listenFd) && p.count == p.Max() && p.Distinct()
    ensures (forall i :: 0 <= i < p.Max() && i != p.last ==> p.Add(fd).fds[i] == p.fds[i])
            <==> (forall i :: p.last < i < p.Max() ==> !LooksIdle(p.fds[i].fd))
  {
    forall i | p.last < i < p.Max() && LooksIdle(p.fds[i].fd) ensures p.Add(fd).fds[i] != p.fds[i] {
      assert p.fds[p.last].fd != p.fds[i].fd;
    }
  }

  // The listener at 3 and clients 5, 8 and 10 in four slots: adding 11 loses 8 and 10 and leaves
  // 5, which was to go, in their places.
  lemma OverflowLosesAnother()
    ensures var p := Poll([Fresh(3), Fresh(5), Fresh(8), Fresh(10)], 4, 1);
            && p.Valid(3) && p.Distinct()
            && p.Add(11).Valid(3) && p.Add(11).fds == [Fresh(3), Fresh(11), Fresh(5), Fresh(5)]
  {
  }

  // ----- Whose turn it is -----

  // The clients from the next one to be overwritten on, around the array.
  function Turns(p: Poll): (ring: seq<PollFd>)
    requires 1 <= p.last <= p.count <= p.Max()
    ensures |ring| == p.count - 1
    ensures forall j :: 0 <= j < |ring| ==> ring[j] == p.fds[SlotAt(p, j)]
  {
    p.fds[p.last..p.count] + p.fds[1..p.last]
  }

  // The slot that comes j-th, and where slot i comes.
  function SlotAt(p: Poll, j: nat): nat
    requires p.last <= p.count
  {
    if j < p.count - p.last then p.last + j else j - (p.count - p.last) + 1
  }

  function TurnOf(p: Poll, i: nat): nat
    requires 1 <= i < p.count && p.last <= p.count
  {
    if i >= p.last then i - p.last else p.count - p.last + i - 1
  }

  // A full array in which no slot after `last` looks idle gives up the one whose turn it is, and the new
  // one comes last; so it goes round.
  lemma FullGoesRound(p: Poll, listenFd: nat, fd: nat)
    requires p.Valid(listenFd) && p.count == p.Max()
    requires forall i :: p.last < i < p.Max() ==> !LooksIdle(p.fds[i].fd)
    ensures p.Add(fd).Valid(listenFd) && Turns(p)[0] == p.fds[p.last]
    ensures Turns(p.Add(fd)) == Turns(p)[1..] + [PollFd(fd, POLLIN, 0)]
  {
    var q := p.Add(fd);
    AddKeeps(p, listenFd, fd);
    assert q.fds == p.fds[p.last := Fresh(fd)];
    hide Poll.Add;
    forall j | 0 <= j < p.count - 1
      ensures Turns(q)[j] == if j < p.count - 2 then Turns(p)[j + 1] else Fresh(fd)
    {
    }
  }

  // Below capacity the new one comes last if and only if the turn is at the first slot.
  lemma ComesLastIff(p: Poll, listenFd: nat, fd: nat)
    requires p.Valid(listenFd) && p.count < p.Max() && forall i :: 0 <= i < p.Max() ==> p.fds[i].fd != fd
    ensures p.Add(fd).Valid(listenFd)
    ensures Turns(p.Add(fd)) == Turns(p) + [PollFd(fd, POLLIN, 0)] <==> p.last == 1
  {
    var q := p.Add(fd);
    AddKeeps(p, listenFd, fd);
    assert q.fds == p.fds[p.count := Fresh(fd)] && q.last == p.last && q.count == p.count + 1;
    hide Poll.Add;
    if p.last > 1 {
      assert Turns(q)[p.count - 1] == p.fds[p.last - 1];
    }
  }

  // A removal leaves the others in turn.
  lemma RemoveKeepsTurns(p: Poll, listenFd: nat, i: nat)
    requires p.Valid(listenFd) && 0 < i < p.count
    ensures p.Remove(i).Valid(listenFd) && TurnOf(p, i) < |Turns(p)| && Turns(p)[TurnOf(p, i)] == p.fds[i]
    ensures Turns(p.Remove(i)) == Turns(p)[..TurnOf(p, i)] + Turns(p)[TurnOf(p, i) + 1..]
  {
    RemoveKeeps(p, listenFd, i);
    hide Poll.Remove, Turns;
    var q, k, ring := p.Remove(i), TurnOf(p, i), Turns(p);
    RemoveMoves(p, i);
    forall j | 0 <= j < p.count - 2 ensures Turns(q)[j] == ring[if j < k then j else j + 1] {
      SlotMoves(p, q, i, j);
      assert Turns(q)[j] == q.fds[SlotAt(q, j)];
    }
    hide Poll.Valid, TurnOf, SlotAt;
    assert |Turns(q)| == |ring| - 1;
  }

  lemma RemoveMoves(p: Poll, i: nat)
    requires 0 < i < p.count <= p.Max()
    ensures var q := p.Remove(i);
            && q.count == p.count - 1 && q.last == (if i < p.last then p.last - 1 else p.last) && q.Max() == p.Max()
            && forall m :: 0 <= m < q.count ==> q.fds[m] == p.fds[if m < i then m else m + 1]
  {
  }

  // The slot that comes j-th now, when it is counted as it was before.
  lemma SlotMoves(p: Poll, q: Poll, i: nat, j: nat)
    requires 1 <= p.last <= p.count && 1 <= i < p.count && q.count == p.count - 1 && j < q.count - 1
    requires q.last == (if i < p.last then p.last - 1 else p.last) && q.last <= q.count
    ensures var m := SlotAt(q, j);
            && m < q.count
            && (if m < i then m else m + 1) == SlotAt(p, if j < TurnOf(p, i) then j else j + 1)
  {
  }

  // ----- The array itself -----

  class PollArray {
    const fds: array<PollFd>
    var count: nat
    var lastInIndex: nat
    const marks: MarkedFds
    const listenFd: nat

    ghost function Value(): (p: Poll)
      reads this, fds
      ensures p.Max() == fds.Length
    {
      Poll(fds[..], count, lastInIndex)
    }

    ghost predicate Valid()
      reads this, fds, marks.marks
    {
      Value().Valid(listenFd) && marks.Valid()
    }

    // init_poll_array. With one slot only, the array starts out of order.
    constructor (listenFd: nat, maxCount: nat, marks: MarkedFds)
      requires 0 < listenFd < 16384 && 0 < maxCount < 16384 && marks.Valid()
      ensures fresh(fds) && this.marks == marks && this.listenFd == listenFd
      ensures Valid() <==> maxCount >= 2
      ensures Value() == Started(maxCount, listenFd)
    {
      fds := new PollFd[maxCount](_ => NO_FD);
      this.listenFd := listenFd;
      this.marks := marks;
      new;
      fds[0] := Fresh(listenFd);
      count := 1;
      lastInIndex := 1;
      assert fds[..] == Started(maxCount, listenFd).fds;
    }

    // peek_next, loop and all.
    method PeekNext() returns (next: nat)
      requires Valid()
      modifies fds
      ensures next == old(Value()).Next() && count == old(count) && lastInIndex == old(lastInIndex)
      ensures fds[..] == old(Value()).Spread()
    {
      if count < fds.Length {
        return count;
      }
      ghost var p := Value();
      for i := lastInIndex to fds.Length
        invariant count == p.count && lastInIndex == p.last
        invariant fds[p.last] == p.fds[p.last]
        invariant forall k :: 0 <= k < fds.Length ==> fds[k] == if k < i then p.Spread()[k] else p.fds[k]
      {
        if LooksIdle(fds[i].fd) {
          fds[i] := fds[lastInIndex];
          fds[lastInIndex] := fds[i];
        }
      }
      assert fds[..] == p.Spread();
      return lastInIndex;
    }

    // add_poll_fd_sync
    method AddPollFd(fd: nat) returns (next: nat)
      requires Valid() && 0 < fd < 16384
      modifies this, fds
      ensures Valid() && next == old(Value()).Next() && Value() == old(Value()).Add(fd)
      ensures fds[next] == Fresh(fd)
    {
      ghost var p := Value();
      AddKeeps(p, listenFd, fd);
      next := PeekNext();
      fds[next] := Fresh(fd);
      if count < fds.Length {
        count := count + 1;
      } else {
        AfterWraps(lastInIndex, fds.Length);
        lastInIndex := (lastInIndex + 1) % fds.Length;
        if lastInIndex == 0 {
          lastInIndex := lastInIndex + 1;
        }
      }
      assert fds[..] == p.Add(fd).fds;
    }

    // remove_poll_fd_by_index_sync: the slots after `index` move down, and the caller's index
    // goes back by one. `closed` is the descriptor that is closed.
    method RemoveByIndex(index: nat) returns (before: nat, closed: nat)
      requires Valid() && 0 < index < count && fds[index].fd < marks.marks.Length
      modifies this, fds, marks.marks
      ensures Valid() && Value() == old(Value()).Remove(index) && before == index - 1
      ensures closed == old(fds[index].fd) && marks.Marked() == old(marks.Marked()) - {closed}
    {
      ghost var p := Value();
      RemoveKeeps(p, listenFd, index);
      closed := fds[index].fd;
      ShiftDown(fds, index, count);
      if index < lastInIndex {
        lastInIndex := lastInIndex - 1;
      }
      count := count - 1;
      assert Value() == p.Remove(index);
      marks.Unmark(closed);
      before := index - 1;
    }
  }

  // The loop of remove_poll_fd_by_index_sync, and the zero it writes behind it.
  method ShiftDown(fds: array<PollFd>, index: nat, count: nat)
    requires index < count <= fds.Length
    modifies fds
    ensures fds[..] == old(fds[..index] + fds[index + 1..count] + [NO_FD] + fds[count..])
  {
    var j := index;
    while j < count - 1
      invariant index <= j <= count - 1
      invariant forall k :: 0 <= k < fds.Length ==> fds[k] == if index <= k < j then old(fds[k + 1]) else old(fds[k])
    {
      fds[j] := fds[j + 1];
      j := j + 1;
    }
    fds[count - 1] := NO_FD;
  }
}
