/** handle_request_async: what the listener does on input from a client, on the cache itself. */
module ReadHandler {
  import opened HttpTypes
  import opened StatusWord
  import opened SessionTable
  import opened SessionCache
  import opened Protocol
  import opened ProtocolInvariant

  // There is a session to read for.
  ghost predicate CanRead(t: Table, fd: int)
    requires t.Valid()
  {
    t.HasFd(fd) && PoppableByFd(t.Row(t.IndexOf(fd)).status)
  }

  // The table when it was popped, written to and given back; a failed read leaves it to the caller to
  // reject it.
  ghost function AfterRead(t: Table, fd: int, outcome: ReadOutcome): Table
    requires t.Valid() && 0 < fd < 16384
  {
    if !CanRead(t, fd) then t
    else
      var i := t.IndexOf(fd);
      ReadIsSafe(t, fd, outcome);
      if outcome.Failed? then t.Take(i)
      else WriteSlot(t.Take(i), t.rows[i], ReadCell(t.Take(i).Row(i), outcome)).Push(fd, ReadStatus(outcome), 0, true)
  }

  lemma PopHolds(b: bv8)
    ensures Held(PopWord(b))
  {
  }

  // What was popped may be written to and pushed.
  lemma ReadIsSafe(t: Table, fd: int, outcome: ReadOutcome)
    requires t.Valid() && 0 < fd < 16384 && CanRead(t, fd)
    ensures var i := t.IndexOf(fd);
            var c := ReadCell(t.Take(i).Row(i), outcome);
            && t.Take(i).Valid() && c.fd == fd && PushIsSafe(t.Take(i), t.rows[i], c)
            && WriteSlot(t.Take(i), t.rows[i], c).HasFd(fd)
            && (WriteSlot(t.Take(i), t.rows[i], c).Marks(fd, ReadStatus(outcome), true) <==> outcome.Failed?)
  {
    var i := t.IndexOf(fd);
    TakeView(t, i);
    PopHolds(t.Row(i).status);
    var c := ReadCell(t.Take(i).Row(i), outcome);
    SlotWrite(t.Take(i), t.rows[i], c);
    SlotPush(t.Take(i), t.rows[i], c, ReadStatus(outcome));
  }

  // It answers, that is, it does not return -1, exactly when there is a session to read for and the
  // read does not fail.
  method HandleRequestAsync(cache: Cache, fd: nat, outcome: ReadOutcome) returns (answered: bool, woken: set<Stage>)
    requires cache.Valid() && cache.marks.Valid() && 0 < fd < 16384
    modifies cache, cache.sessionArray, cache.statusArray, cache.bufferArray, cache.requestArray,
        cache.responseArray, cache.bioArray, cache.sslArray, cache.marks.marks
    ensures cache.Valid() && cache.marks.Valid() && cache.marks.Marked() == old(cache.marks.Marked())
    ensures cache.Value() == AfterRead(old(cache.Value()), fd, outcome)
    ensures answered <==> CanRead(old(cache.Value()), fd) && !outcome.Failed?
    ensures woken == if answered && outcome.Complete? then {Parse} else {}
  {
    ghost var t := cache.Value();
    assert t.Valid();
    hide *;
    var slot := TakeForReading(cache, fd);
    if slot == None || outcome.Failed? {
      AfterNoRead(t, fd, outcome);
      return false, {};
    }
    AfterOneRead(t, fd, outcome);
    woken := GiveBack(cache, fd, slot.value, outcome);
    answered := true;
  }

  lemma AfterNoRead(t: Table, fd: int, outcome: ReadOutcome)
    requires t.Valid() && 0 < fd < 16384 && (CanRead(t, fd) ==> outcome.Failed?)
    ensures AfterRead(t, fd, outcome) == if CanRead(t, fd) then t.Take(t.IndexOf(fd)) else t
  {
  }

  lemma AfterOneRead(t: Table, fd: int, outcome: ReadOutcome)
    requires t.Valid() && 0 < fd < 16384 && CanRead(t, fd) && !outcome.Failed?
    ensures var (t', slot) := (t.Take(t.IndexOf(fd)), t.rows[t.IndexOf(fd)]);
            && slot < |t'.cells| && t'.cells[slot] == t'.Row(t.IndexOf(fd))
            && (var c := ReadCell(t'.cells[slot], outcome);
                && PushIsSafe(t', slot, c) && c.fd == fd && WriteSlot(t', slot, c).HasFd(fd)
                && !WriteSlot(t', slot, c).Marks(fd, ReadStatus(outcome), true))
            && AfterRead(t, fd, outcome) ==
               WriteSlot(t', slot, ReadCell(t'.cells[slot], outcome)).Push(fd, ReadStatus(outcome), 0, true)
  {
    ReadIsSafe(t, fd, outcome);
    TakeView(t, t.IndexOf(fd));
  }

  // The session, if there is one to read for, by the slot that all its pointers point at.
  method TakeForReading(cache: Cache, fd: nat) returns (slot: Option<nat>)
    requires cache.Valid() && 0 < fd < 16384
    modifies cache`statusObjects
    ensures cache.Valid() && (slot.Some? <==> CanRead(old(cache.Value()), fd))
    ensures slot == None ==> cache.Value() == old(cache.Value())
    ensures slot.Some? ==>
              var t := old(cache.Value());
              slot.value == t.rows[t.IndexOf(fd)] && cache.Value() == t.Take(t.IndexOf(fd))
  {
    hide Cache.Apart, CellsOf, PoppableByFd;
    var handed := cache.PopRequestByFd(fd);
    slot := if handed == None then None else Some(handed.value.buffer);
  }

  // The two branches that push: the data goes into the session, and the session to its pool.
  method GiveBack(cache: Cache, fd: nat, slot: nat, outcome: ReadOutcome) returns (woken: set<Stage>)
    requires cache.Valid() && cache.marks.Valid() && !outcome.Failed? && slot < |cache.Value().cells|
    requires var c := ReadCell(cache.Value().cells[slot], outcome);
             && PushIsSafe(cache.Value(), slot, c) && c.fd == fd
             && WriteSlot(cache.Value(), slot, c).HasFd(fd)
             && !WriteSlot(cache.Value(), slot, c).Marks(fd, ReadStatus(outcome), true)
    modifies cache, cache.sessionArray, cache.statusArray, cache.bufferArray, cache.requestArray,
        cache.responseArray, cache.bioArray, cache.sslArray, cache.marks.marks
    ensures cache.Valid() && cache.marks.Valid() && cache.marks.Marked() == old(cache.marks.Marked())
    ensures cache.Value() ==
            WriteSlot(old(cache.Value()), slot, ReadCell(old(cache.Value()).cells[slot], outcome))
              .Push(fd, ReadStatus(outcome), 0, true)
    ensures woken == if outcome.Complete? then {Parse} else {}
  {
    ghost var t := cache.Value();
    Unwritten(t, slot);
    hide Table.Push, Table.IsPermutation, Table.Marks, Cache.Apart, CellsOf, Table.HasFd;
    if outcome.Complete? {
      cache.Receive(slot, outcome.data);
    }
    assert cache.Value() == WriteSlot(t, slot, ReadCell(t.cells[slot], outcome));
    hide Table.Valid, Table.PushAllowed, WriteSlot, ReadCell;
    woken := cache.PushRequest(fd, ReadStatus(outcome), 0, true);
  }

  lemma Unwritten(t: Table, slot: nat)
    requires slot < |t.cells|
    ensures WriteSlot(t, slot, t.cells[slot]) == t
  {
    assert t.cells[slot := t.cells[slot]] == t.cells;
  }

  // The steps LPop and LRead of the protocol do to its table what the handler does to the cache,
  // together with the listener's push of REJECTED when the handler did not answer.
  lemma HandlerIsSteps(s: State, fd: int, outcome: ReadOutcome)
    requires Inv(s) && Enabled(s, LPop(fd)) && 0 < fd < 16384
    ensures var s1 := Apply(s, LPop(fd));
            && Inv(s1) && Enabled(s1, LRead(outcome)) && Safe(s1, LRead(outcome)) && CanRead(s.table, fd)
            && var t := AfterRead(s.table, fd, outcome);
            && (outcome.Failed? ==> t.Valid() && t.PushAllowed(fd))
            && Apply(s1, LRead(outcome)).table == if outcome.Failed? then t.Push(fd, Rejected, 0, true) else t
  {
    PopKeeps(s, fd);
    var s1 := Apply(s, LPop(fd));
    ReadKeeps(s1, outcome);
    var t, i := s.table, s.table.IndexOf(fd);
    hide Inv, Table.Push, Table.IsPermutation, Table.Sessions, PoppableByFd;
    ReadIsSafe(t, fd, outcome);
    TakeView(t, i);
    Unwritten(t.Take(i), t.rows[i]);
  }
}
