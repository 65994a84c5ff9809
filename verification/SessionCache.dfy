/** session.c as it is: seven parallel arrays of pointers to preallocated objects, rotated and
    written in place.  Each method is proved to do to the arrays what the function of the same
    name in SessionTable does to their value.

    A pointer is the number of the object it points at; the objects themselves are the `..Objects`
    fields.  What a pop hands out is such numbers. */
module SessionCache {
  import opened HttpTypes
  import opened StatusWord
  import opened SessionTable
  import opened MarkedDescriptors

  datatype Session = Session(id: int, relatedFd: int, threadId: int)

  // The contents of the objects, number by number.
  ghost function CellsOf(
    s: seq<Session>, o: seq<int>, t: seq<bv8>, b: seq<string>, q: seq<HttpRequest>,
        p: seq<HttpResponse>): (r: seq<Cell>)
    requires |s| == |o| == |t| == |b| == |q| == |p|
    ensures |r| == |s|
    ensures forall k :: 0 <= k < |s| ==>
        r[k] == Cell(s[k].id, s[k].relatedFd, s[k].threadId, o[k], t[k], b[k], q[k], p[k])
  {
    seq(|s|, k requires 0 <= k < |s| => Cell(s[k].id, s[k].relatedFd, s[k].threadId, o[k], t[k], b[k], q[k], p[k]))
  }

  // What a pop hands out: the pointers of one row, or nothing.
  datatype Handed = Handed(session: nat, buffer: nat, request: nat, response: nat, bio: nat, ssl: Option<nat>)

  // All of them point at the objects of one slot, and there is one to an SSL object exactly with TLS.
  predicate AllPointTo(h: Handed, slot: nat, tls: bool) {
    && h.session == slot && h.buffer == slot && h.request == slot && h.response == slot && h.bio == slot
    && h.ssl.Some? == tls && (tls ==> h.ssl.value == slot)
  }

  // A freshly filled pointer array.
  method Identity(n: nat) returns (a: array<nat>)
    ensures fresh(a) && a.Length == n && a[..] == seq(n, i => i)
  {
    a := new nat[n](i => i);
  }

  class Cache {
    const sessionArray: array<nat>
    const statusArray: array<nat>
    const bufferArray: array<nat>
    const requestArray: array<nat>
    const responseArray: array<nat>
    const bioArray: array<nat>
    const sslArray: array<nat>  // of length zero when there is no TLS context
    const maxSize: nat
    const marks: MarkedFds
    var sessionCount: nat
    var sessionLastIndex: nat

    var sessionObjects: seq<Session>
    var statusObjects: seq<bv8>
    var bufferObjects: seq<string>
    var requestObjects: seq<HttpRequest>
    var responseObjects: seq<HttpResponse>
    var bioObjects: seq<int>  // the descriptor each BIO is set to
    var sslObjects: seq<nat>  // the BIO each SSL object is bound to

    ghost var rows: seq<nat>  // what every one of the arrays holds

    ghost predicate Apart() {
      && sessionArray != statusArray && sessionArray != bufferArray && sessionArray != requestArray
      && sessionArray != responseArray && sessionArray != bioArray && sessionArray != sslArray
      && statusArray != bufferArray && statusArray != requestArray && statusArray != responseArray
      && statusArray != bioArray && statusArray != sslArray
      && bufferArray != requestArray && bufferArray != responseArray && bufferArray != bioArray
          && bufferArray != sslArray
      && requestArray != responseArray && requestArray != bioArray && requestArray != sslArray
      && responseArray != bioArray && responseArray != sslArray && bioArray != sslArray
      && marks.marks as object !in {sessionArray, statusArray, bufferArray, requestArray, responseArray, bioArray,
          sslArray}
    }

    // All seven arrays are the same permutation of their objects.
    ghost predicate Aligned()
      reads this, sessionArray, statusArray, bufferArray, requestArray, responseArray, bioArray, sslArray
    {
      && Apart()
      && sessionArray.Length == maxSize == |rows| && sessionArray[..] == rows
      && |sessionObjects| == |statusObjects| == |bufferObjects| == |requestObjects| == maxSize
      && |responseObjects| == |bioObjects| == maxSize && |sslObjects| == sslArray.Length
      && statusArray[..] == rows && bufferArray[..] == rows
      && requestArray[..] == rows && responseArray[..] == rows
      && bioArray[..] == rows
      && (sslArray.Length == 0 || sslArray[..] == rows)
    }

    ghost function Value(): Table
      requires |sessionObjects| == |bioObjects| == |statusObjects| == |bufferObjects| == |requestObjects| ==
          |responseObjects|
      reads this
    {
      Table(rows,
            CellsOf(sessionObjects, bioObjects, statusObjects, bufferObjects, requestObjects, responseObjects),
            sessionCount, sessionLastIndex)
    }

    ghost predicate Valid()
      reads this, sessionArray, statusArray, bufferArray, requestArray, responseArray, bioArray, sslArray
    {
      Aligned() && Value().Valid()
    }

    // init_session_cache
    constructor (size: nat, tls: bool, marks: MarkedFds)
      requires size > 0
      ensures Valid() && maxSize == size && this.marks == marks && Value() == Empty(size)
      ensures fresh(sessionArray) && fresh(statusArray) && fresh(bufferArray) && fresh(requestArray)
      ensures fresh(responseArray) && fresh(bioArray) && fresh(sslArray)
    {
      var a := Identity(size);
      var b := Identity(size);
      var c := Identity(size);
      var d := Identity(size);
      var e := Identity(size);
      var f := Identity(size);
      var g := Identity(if tls then size else 0);
      sessionArray, statusArray, bufferArray, requestArray, responseArray, bioArray, sslArray := a, b, c, d, e, f, g;
      rows := Empty(size).rows;
      maxSize, this.marks := size, marks;
      sessionCount, sessionLastIndex := 0, 0;
      sessionObjects := seq(size, _ => Session(0, 0, 0));
      statusObjects := seq(size, _ => 0);
      bufferObjects := seq(size, _ => "");
      requestObjects := seq(size, _ => ZERO_REQUEST);
      responseObjects := seq(size, _ => ZERO_RESPONSE);
      bioObjects := seq(size, _ => -1);
      sslObjects := seq(if tls then size else 0, i => i);
      new;
      assert Value().cells == Empty(size).cells;
    }

    // reset_session_at_index
    method ResetRow(index: nat)
      requires Aligned() && Value().IsPermutation() && index < maxSize
      modifies this
      ensures Aligned() && Value() == old(Value()).Write(index, ZERO_CELL)
    {
      var k := sessionArray[index];
      SameSlot(index);
      CellsOfWrite(sessionObjects, bioObjects, statusObjects, bufferObjects, requestObjects, responseObjects, k,
          ZERO_CELL);
      hide CellsOf;
      sessionObjects := sessionObjects[k := Session(0, 0, 0)];
      statusObjects := statusObjects[statusArray[index] := 0];
      bufferObjects := bufferObjects[bufferArray[index] := ""];
      requestObjects := requestObjects[requestArray[index] := ZERO_REQUEST];
      responseObjects := responseObjects[responseArray[index] := ZERO_RESPONSE];
      bioObjects := bioObjects[bioArray[index] := -1];
      if sslArray.Length > 0 {
        sslObjects := sslObjects[sslArray[index] := bioArray[index]];
      }
    }

    // The identifiers that add_to_session sets on a row it has reset.
    method Identify(index: nat, relatedFd: int, id: int)
      requires Aligned() && Value().IsPermutation() && index < maxSize && Value().Row(index) == ZERO_CELL
      modifies this
      ensures Aligned() && Value() == old(Value()).Write(index, NewCell(relatedFd, id))
    {
      var k := sessionArray[index];
      assert sessionArray[..][index] == k && statusArray[..][index] == k && bioArray[..][index] == k
          && Value().Row(index).status == 0;
      sessionObjects := sessionObjects[k := Session(id, relatedFd, 0)];
      statusObjects := statusObjects[statusArray[index] := statusObjects[statusArray[index]] & Mask(Initial)];
      bioObjects := bioObjects[bioArray[index] := relatedFd];
      assert Value().cells == old(Value()).Write(index, NewCell(relatedFd, id)).cells;
    }

    // add_to_session. `id` is what rand() gave.
    method AddToSession(relatedFd: int, id: int) returns (next: nat)
      requires Valid() && relatedFd > 0 && !Value().HasFd(relatedFd)
      modifies this
      ensures Valid() && next == old(Value().NextRow()) && Value() == old(Value()).Add(relatedFd, id)
    {
      ghost var before := Value();
      AddIsValid(before, relatedFd, id);
      next := if sessionCount < maxSize then sessionCount else sessionLastIndex;
      Occupy(next, relatedFd, id);
      CountArrival();
      assert Value() == before.Add(relatedFd, id);
    }

    // Lines 336-343 of add_to_session.
    method Occupy(index: nat, relatedFd: int, id: int)
      requires Aligned() && Value().IsPermutation() && index < maxSize
      modifies this
      ensures Aligned() && Value() == old(Value()).Write(index, NewCell(relatedFd, id))
    {
      ghost var before := Value();
      ResetRow(index);
      Identify(index, relatedFd, id);
      WriteTwice(before, index, ZERO_CELL, NewCell(relatedFd, id));
    }

    // Lines 345-349 of add_to_session.
    method CountArrival()
      requires Aligned() && sessionLastIndex < maxSize
      modifies this`sessionCount, this`sessionLastIndex
      ensures Aligned()
      ensures var t := old(Value());
              Value() == if t.count < t.Max() then t.(count := t.count + 1) else t.(last := Wrap(t.last + 1, t.Max()))
    {
      if sessionCount < maxSize {
        sessionCount := sessionCount + 1;
      } else {
        sessionLastIndex := Wrap(sessionLastIndex + 1, maxSize);
      }
    }

    // One step of the rotation, on all seven arrays.
    method ShiftRow(i: nat, session: nat, status: nat, buffer: nat, request: nat, response: nat, bio: nat, ssl: nat)
      requires Aligned() && i + 1 < maxSize
      requires session == status == buffer == request == response == bio && (sslArray.Length > 0 ==> ssl == session)
      modifies this`rows, sessionArray, statusArray, bufferArray, requestArray, responseArray, bioArray, sslArray
      ensures Aligned()
      ensures rows == old(rows)[i := old(rows)[i + 1]][i + 1 := session]
    {
      assert sessionArray[i + 1] == sessionArray[..][i + 1];
      assert statusArray[i + 1] == statusArray[..][i + 1] && bufferArray[i + 1] == bufferArray[..][i + 1];
      assert requestArray[i + 1] == requestArray[..][i + 1] && responseArray[i + 1] == responseArray[..][i + 1];
      assert bioArray[i + 1] == bioArray[..][i + 1];
      ShiftLeft(sessionArray, i, session);
      ShiftLeft(statusArray, i, status);
      ShiftLeft(bufferArray, i, buffer);
      ShiftLeft(requestArray, i, request);
      ShiftLeft(responseArray, i, response);
      ShiftLeft(bioArray, i, bio);
      if sslArray.Length > 0 {
        assert sslArray[i + 1] == sslArray[..][i + 1];
        ShiftLeft(sslArray, i, ssl);
      }
      rows := rows[i := rows[i + 1]][i + 1 := session];
    }

    // The loop of del_from_session: the removed row changes places with each row after it.
    method RotateRows(
      index: nat, session: nat, status: nat, buffer: nat, request: nat, response: nat, bio: nat, ssl: nat)
      returns (i: nat)
      requires Aligned() && index < sessionCount <= maxSize
      requires rows[index] == session == status == buffer == request == response == bio
      requires sslArray.Length > 0 ==> ssl == session
      modifies this`rows, sessionArray, statusArray, bufferArray, requestArray, responseArray, bioArray, sslArray
      ensures Aligned() && i == sessionCount - 1 && rows == Moved(old(rows), index, i)
    {
      i := index;
      MovedNowhere(rows, index);
      hide Moved, Apart;
      while i < sessionCount - 1
        invariant index <= i <= sessionCount - 1
        invariant Aligned() && rows == Moved(old(rows), index, i)
      {
        MovedStep(old(rows), index, i);
        ShiftRow(i, session, status, buffer, request, response, bio, ssl);
        i := i + 1;
      }
    }

    // del_from_session
    method DelFromSession(index: nat)
      requires Aligned() && Value().IsPermutation() && index < sessionCount <= maxSize
      modifies this, sessionArray, statusArray, bufferArray, requestArray, responseArray, bioArray, sslArray
      ensures Aligned() && Value() == old(Value()).Delete(index)
    {
      var session, status, buffer := sessionArray[index], statusArray[index], bufferArray[index];
      var request, response, bio := requestArray[index], responseArray[index], bioArray[index];
      var ssl := if sslArray.Length > 0 then sslArray[index] else 0;
      ghost var before := Value();
      SameSlot(index);
      DeleteIsMoved(before, index);
      hide Moved, CellsOf, Apart, Table.Delete;
      ResetRow(index);
      var i := RotateRows(index, session, status, buffer, request, response, bio, ssl);
      CountLoss(i);
    }

    // Lines 388-392 of del_from_session.
    method CountLoss(i: nat)
      requires Aligned() && i == sessionCount - 1
      modifies this`sessionCount, this`sessionLastIndex
      ensures Aligned()
      ensures var t := old(Value());
              Value() == t.(count := t.count - 1, last := if t.count - 1 < t.last then t.last - 1 else t.last)
    {
      hide Apart, CellsOf;
      if sessionCount > 0 {
        sessionCount := sessionCount - 1;
      }
      if i < sessionLastIndex {
        sessionLastIndex := sessionLastIndex - 1;
      }
    }

    // The pointers of one row all point at the objects of one slot.
    lemma SameSlot(index: nat)
      requires Aligned() && index < maxSize
      ensures sessionArray[index] == statusArray[index] == bufferArray[index] == rows[index]
      ensures requestArray[index] == responseArray[index] == bioArray[index] == rows[index]
      ensures sslArray.Length > 0 ==> index < sslArray.Length && sslArray[index] == rows[index]
    {
      assert sessionArray[..][index] == rows[index] && statusArray[..][index] == rows[index];
      assert bufferArray[..][index] == rows[index] && requestArray[..][index] == rows[index];
      assert responseArray[..][index] == rows[index] && bioArray[..][index] == rows[index];
      assert sslArray.Length > 0 ==> sslArray[..][index] == rows[index];
    }

    // Rewriting the objects at one row.
    method SetStatus(index: nat, b: bv8)
      requires Aligned() && Value().IsPermutation() && index < maxSize
      modifies this`statusObjects
      ensures Aligned() && Value() == old(Value()).Write(index, old(Value()).Row(index).(status := b))
    {
      assert statusArray[..][index] == rows[index];
      statusObjects := statusObjects[statusArray[index] := b];
      assert Value().cells == old(Value()).Write(index, old(Value()).Row(index).(status := b)).cells;
    }

    // reset_request_at_index
    method ResetRequest(index: nat)
      requires Aligned() && Value().IsPermutation() && index < maxSize
      modifies this`bufferObjects, this`requestObjects
      ensures Aligned()
      ensures var c := old(Value()).Row(index);
              Value() == old(Value()).Write(index, c.(buffer := "", request := ZERO_REQUEST.(isSsl := c.request.isSsl)))
    {
      assert bufferArray[..][index] == rows[index] && requestArray[..][index] == rows[index];
      var isSsl := requestObjects[requestArray[index]].isSsl;
      bufferObjects := bufferObjects[bufferArray[index] := ""];
      requestObjects := requestObjects[requestArray[index] := ZERO_REQUEST.(isSsl := isSsl)];
      ghost var c := old(Value()).Row(index);
      assert Value().cells ==
             old(Value()).Write(index, c.(buffer := "", request := ZERO_REQUEST.(isSsl := c.request.isSsl))).cells;
    }

    // What push_request does at the row it finds, short of REJECTED.
    method PushAt(index: nat, w: WorkStatus)
      requires Aligned() && Value().IsPermutation() && index < maxSize
      modifies this`statusObjects, this`bufferObjects, this`requestObjects
      ensures Aligned()
      ensures Value() == old(Value()).Write(index, Table.Pushed(old(Value()).Row(index), w))
    {
      ghost var before := Value();
      ghost var c := before.Row(index);
      assert statusArray[..][index] == rows[index];
      var b := statusObjects[statusArray[index]];
      SetStatus(index, PushWord(b, w));
      if w == Sent {
        ResetRequest(index);
        WriteTwice(before, index, c.(status := PushWord(b, w)), Table.Pushed(c, w));
      }
    }

    // Lines 409-453 of push_request: what it does at the row that matches.
    method PushFound(
      index: nat, relatedFd: nat, w: WorkStatus, ghost id: int, ghost handshake: bool) returns (woken: set<Stage>)
      requires Valid() && index < sessionCount && Value().PushAllowed(relatedFd) && Value().Row(index).fd == relatedFd
      requires marks.Valid() && (w == Rejected ==> relatedFd < marks.marks.Length)
      modifies this, sessionArray, statusArray, bufferArray, requestArray, responseArray, bioArray, sslArray,
          marks.marks
      ensures Valid() && marks.Valid() && woken == Wakes(w)
      ensures Value() == old(Value()).Push(relatedFd, w, id, handshake)
      ensures forall k :: index < k < sessionCount ==> Value().Row(k).fd != relatedFd
      ensures marks.Marked() == old(marks.Marked()) + if w == Rejected then {relatedFd} else {}
    {
      ghost var before := Value();
      OnlyRow(before, relatedFd, index, w, id, handshake);
      PushAt(index, w);
      woken := Wakes(w);
      if w == Rejected {
        DelFromSession(index);
        marks.Mark(relatedFd);
      }
    }

    // Lines 406-455 of push_request: the scan, which goes on after a match and deletes under itself.
    method ScanRows(
      relatedFd: nat, w: WorkStatus, ghost id: int, ghost handshake: bool) returns (found: bool, woken: set<Stage>)
      requires Valid() && Value().PushAllowed(relatedFd)
      requires marks.Valid() && (w == Rejected && Value().HasFd(relatedFd) ==> relatedFd < marks.marks.Length)
      modifies this, sessionArray, statusArray, bufferArray, requestArray, responseArray, bioArray, sslArray,
          marks.marks
      ensures Aligned() && marks.Valid()
      ensures found <==> old(Value()).HasFd(relatedFd)
      ensures found ==> Value() == old(Value()).Push(relatedFd, w, id, handshake) && woken == Wakes(w)
      ensures !found ==> Value() == old(Value()) && woken == {}
      ensures marks.Marked() == old(marks.Marked()) + if found && w == Rejected then {relatedFd} else {}
    {
      ghost var before, marked := Value(), marks.Marked();
      ghost var after := before.Push(relatedFd, w, id, handshake);
      hide Table.Push, Table.Delete, Table.Write, Table.Add, Table.PushAllowed, Wakes, Apart, CellsOf;
      found, woken := false, {};
      var i := 0;
      while i < sessionCount
        invariant Aligned() && marks.Valid()
        invariant !found ==> Value() == before && marks.Marked() == marked && woken == {}
        invariant !found ==> NoneBefore(before, relatedFd, i)
        invariant found ==> before.HasFd(relatedFd) && Value() == after && woken == Wakes(w)
        invariant found ==> NoneFrom(after, relatedFd, i)
        invariant found ==> marks.Marked() == marked + if w == Rejected then {relatedFd} else {}
        decreases maxSize - i
      {
        assert sessionArray[..][i] == rows[i];
        if sessionObjects[sessionArray[i]].relatedFd == relatedFd {
          assert Value().Row(i).fd == relatedFd;
          assert !found;
          found := true;
          woken := PushFound(i, relatedFd, w, id, handshake);
        }
        i := i + 1;
      }
    }

    // push_request. `handshake` is the outcome of SSL_accept; `woken` are the pools whose
    // condition variable is broadcast. A descriptor that gets marked needs a counter.
    method PushRequest(relatedFd: nat, w: WorkStatus, id: int, handshake: bool) returns (woken: set<Stage>)
      requires Valid() && Value().PushAllowed(relatedFd)
      requires !Value().HasFd(relatedFd) && w == InitialSsl ==> sslArray.Length > 0
      requires marks.Valid() && (Value().Marks(relatedFd, w, handshake) ==> relatedFd < marks.marks.Length)
      modifies this, sessionArray, statusArray, bufferArray, requestArray, responseArray, bioArray, sslArray,
          marks.marks
      ensures Valid() && Value() == old(Value()).Push(relatedFd, w, id, handshake)
      ensures marks.Valid()
      ensures marks.Marked() == old(marks.Marked()) + if old(Value()).Marks(relatedFd, w, handshake) then {relatedFd}
          else {}
      ensures woken == if old(Value()).HasFd(relatedFd) then Wakes(w) else {}
      ensures w != Rejected && old(Value()).HasFd(relatedFd) ==> PushedInPlace(old(Value()), Value(), relatedFd, w)
    {
      hide Table.Push, PushedInPlace, Table.Marks, Table.PushAllowed, Apart, CellsOf, Table.HasFd, Wakes;
      ghost var t := Value();
      if w != Rejected && t.HasFd(relatedFd) {
        RowIsPushedInto(t, relatedFd, w, id, handshake);
      }
      PushKeepsValid(Value(), relatedFd, w, id, handshake);
      MarksWhen(t, relatedFd, w, handshake);
      var found;
      found, woken := ScanRows(relatedFd, w, id, handshake);
      if !found && (w == Initial || w == InitialSsl) {
        AddConnection(relatedFd, w, id, handshake);
      } else if !found {
        PushOfNothing(t, relatedFd, w, id, handshake);
      }
    }

    // Lines 458-471 of push_request: a descriptor that is in no row.
    method AddConnection(relatedFd: nat, w: WorkStatus, id: int, handshake: bool)
      requires Valid() && Value().PushAllowed(relatedFd) && !Value().HasFd(relatedFd)
      requires (w == Initial || w == InitialSsl)
      requires marks.Valid() && (w == InitialSsl && !handshake ==> relatedFd < marks.marks.Length)
      modifies this, sessionArray, statusArray, bufferArray, requestArray, responseArray, bioArray, sslArray,
          marks.marks
      ensures Valid() && Value() == old(Value()).Push(relatedFd, w, id, handshake)
      ensures marks.Valid()
      ensures marks.Marked() == old(marks.Marked()) + if w == InitialSsl && !handshake then {relatedFd} else {}
    {
      PushKeepsValid(Value(), relatedFd, w, id, handshake);
      NewPush(Value(), relatedFd, w, id, handshake);
      hide Table.Push, Table.Add, Table.Delete, Table.Write, Table.NextRow, Table.PushAllowed, Table.HasFd;
      var index := AddToSession(relatedFd, id);
      if w == InitialSsl {
        FinishTls(index, relatedFd, handshake);
      }
    }

    // Lines 459-472: the handshake has been tried.
    method FinishTls(index: nat, relatedFd: nat, handshake: bool)
      requires Valid() && index < sessionCount && marks.Valid()
      requires !handshake ==> relatedFd < marks.marks.Length
      modifies this, sessionArray, statusArray, bufferArray, requestArray, responseArray, bioArray, sslArray,
          marks.marks
      ensures Aligned() && marks.Valid()
      ensures var (t, c) := (old(Value()), old(Value()).Row(index));
              Value() ==
                if handshake then t.Write(index, c.(request := c.request.(isSsl := true))) else t.Delete(index)
      ensures marks.Marked() == old(marks.Marked()) + if handshake then {} else {relatedFd}
    {
      hide Table.Delete, Table.Write;
      if handshake {
        SetTls(index);
      } else {
        DelFromSession(index);
        marks.Mark(relatedFd);
      }
    }

    // peek_next. The two flags are how the compiler reads a plain `char` and an enumeration.
    method PeekNext(s: Stage, charIsSigned: bool, enumIsUnsigned: bool) returns (index: int)
      requires Valid()
      ensures index == Value().Peek(s, sessionCount)
    {
      index := -1;
      for i := 0 to sessionCount
        invariant index == Value().Peek(s, i)
      {
        SameSlot(i);
        var matches := RowMatches(statusObjects[statusArray[i]], s, charIsSigned, enumIsUnsigned);
        if matches {
          index := i;
        }
      }
    }

    // What one reads through these pointers is that session.
    ghost predicate Denotes(h: Handed, c: Cell)
      reads this
    {
      && h.session < |sessionObjects| && sessionObjects[h.session] == Session(c.id, c.fd, c.threadId)
      && h.buffer < |bufferObjects| && bufferObjects[h.buffer] == c.buffer
      && h.request < |requestObjects| && requestObjects[h.request] == c.request
      && h.response < |responseObjects| && responseObjects[h.response] == c.response
      && h.bio < |bioObjects| && bioObjects[h.bio] == c.bioFd
      && (h.ssl.Some? ==> h.ssl.value < |sslObjects|)
    }

    // The pointers handed out for one row, which becomes PROCESSING.
    method HandOut(index: nat) returns (h: Handed)
      requires Valid() && index < sessionCount
      modifies this`statusObjects
      ensures Valid() && Value() == old(Value()).Take(index)
      ensures AllPointTo(h, Value().rows[index], sslArray.Length > 0) && Denotes(h, Value().Row(index))
    {
      SameSlot(index);
      TakeSessions(Value(), index);
      SetStatus(index, PopWord(statusObjects[statusArray[index]]));
      h := Handed(sessionArray[index], bufferArray[index], requestArray[index], responseArray[index], bioArray[index],
                  if sslArray.Length > 0 then Some(sslArray[index]) else None);
      assert Value() == old(Value()).Take(index);
    }

    // pop_request, short of waiting: what it does once peek_next has been called.
    method PopRequest(s: Stage, charIsSigned: bool, enumIsUnsigned: bool) returns (r: Option<Handed>)
      requires Valid()
      modifies this`statusObjects
      ensures Valid()
      ensures var i := old(Value()).Peek(s, sessionCount);
              if i < 0 then r == None && Value() == old(Value())
              else
                && Value() == old(Value()).Take(i) && r.Some?
                && AllPointTo(r.value, Value().rows[i], sslArray.Length > 0) && Denotes(r.value, Value().Row(i))
    {
      var index := PeekNext(s, charIsSigned, enumIsUnsigned);
      if index < 0 {
        return None;
      }
      var h := HandOut(index);
      r := Some(h);
    }

    // pop_request_by_fd
    method PopRequestByFd(relatedFd: int) returns (r: Option<Handed>)
      requires Valid() && 0 < relatedFd < 16384
      modifies this`statusObjects
      ensures Valid()
      ensures var i := old(Value()).IndexOf(relatedFd);
              if i >= 0 && PoppableByFd(old(Value()).Row(i).status)
              then
                && Value() == old(Value()).Take(i) && r.Some?
                && AllPointTo(r.value, Value().rows[i], sslArray.Length > 0) && Denotes(r.value, Value().Row(i))
              else r == None && Value() == old(Value())
    {
      r := None;
      var i := 0;
      while i < sessionCount
        invariant 0 <= i <= sessionCount && r == None && Valid() && Value() == old(Value())
        invariant forall k :: 0 <= k < i ==> Value().Row(k).fd != relatedFd
      {
        SameSlot(i);
        if sessionObjects[sessionArray[i]].relatedFd == relatedFd {
          assert Value().Row(i).fd == relatedFd;
          FirstIsOnly(Value(), relatedFd, i);
          if PoppableByFd(statusObjects[statusArray[i]]) {
            var h := HandOut(i);
            r := Some(h);
          }
          return;
        }
        i := i + 1;
      }
      assert !Value().HasFd(relatedFd);
    }

    // What recv_bio and recv_ssl do with what they were given: it goes to the end of the buffer that
    // the pointer points at.
    method Receive(buffer: nat, data: string)
      requires Aligned() && buffer < |bufferObjects|
      modifies this`bufferObjects
      ensures Aligned()
      ensures var t := old(Value());
              Value() == t.(cells := t.cells[buffer := t.cells[buffer].(buffer := t.cells[buffer].buffer + data)])
    {
      ghost var t := Value();
      bufferObjects := bufferObjects[buffer := bufferObjects[buffer] + data];
      assert Value().cells == t.cells[buffer := t.cells[buffer].(buffer := t.cells[buffer].buffer + data)];
    }

    method SetTls(index: nat)
      requires Aligned() && Value().IsPermutation() && index < maxSize
      modifies this`requestObjects
      ensures Aligned()
      ensures var c := old(Value()).Row(index);
              Value() == old(Value()).Write(index, c.(request := c.request.(isSsl := true)))
    {
      assert requestArray[..][index] == rows[index];
      requestObjects := requestObjects[requestArray[index] := requestObjects[requestArray[index]].(isSsl := true)];
      ghost var c := old(Value()).Row(index);
      assert Value().cells == old(Value()).Write(index, c.(request := c.request.(isSsl := true))).cells;
    }
  }

  // The row that the scan stops at is the one that IndexOf names, and after what is done
  // there no later row matches, although a REJECTED row is deleted under the scan.
  lemma OnlyRow(t: Table, fd: int, i: nat, w: WorkStatus, id: int, handshake: bool)
    requires t.Valid() && t.PushAllowed(fd) && i < t.count && t.Row(i).fd == fd
    ensures t.IndexOf(fd) == i
    ensures var t1 := t.Write(i, Table.Pushed(t.Row(i), w));
            var t' := if w == Rejected then t1.Delete(i) else t1;
            && t'.Valid()
            && t.Push(fd, w, id, handshake) == t'
            && forall k :: i < k < t'.count ==> t'.Row(k).fd != fd
  {
    FirstIsOnly(t, fd, i);
    var t1 := t.Write(i, Table.Pushed(t.Row(i), w));
    WriteSessions(t, i, Table.Pushed(t.Row(i), w));
    assert t1.Row(i).fd == fd;
    if w == Rejected {
      DeleteIsValid(t1, i);
      assert !t1.Delete(i).HasFd(fd);
    }
  }

  // What was handed out is not handed out again before a push, by either pop, so that no two holders
  // share a pointer; but for a parked session, which the pop by descriptor gives out as often as it is
  // asked for.
  lemma HandedOutAgainIff(t: Table, i: nat, s: Stage, fd: int)
    requires t.Valid() && i < t.count && WellFormed(t.Row(i).status)
    ensures t.Take(i).Valid()
    ensures var t' := t.Take(i);
            && (var j := t'.Peek(s, t'.count); j >= 0 ==> t'.rows[j] != t.rows[i])
            && (var j := t'.IndexOf(fd);
                j >= 0 && PoppableByFd(t'.Row(j).status) && t'.rows[j] == t.rows[i] <==>
                fd == t.Row(i).fd && PhaseOf(t.Row(i).status).Parked?)
  {
    TakeSessions(t, i);
    PopRefines(t.Row(i).status);
    PoppableIsIdleOrParked(PopWord(t.Row(i).status));
    var t' := t.Take(i);
    assert t'.Row(i).status == PopWord(t.Row(i).status) && t'.Row(i).fd == t.Row(i).fd;
    hide WellFormed, PhaseOf, PopWord, PoppableByFd, Held;
    if t'.Row(i).fd == fd {
      FirstIsOnly(t', fd, i);
    }
  }

  // None of the rows before i, or from i on, is of that descriptor.
  ghost predicate NoneBefore(t: Table, fd: int, i: nat) {
    t.IsPermutation() && i <= t.count <= t.Max() && forall k :: 0 <= k < i ==> t.Row(k).fd != fd
  }

  ghost predicate NoneFrom(t: Table, fd: int, i: nat) {
    t.IsPermutation() && t.count <= t.Max() && forall k :: i <= k < t.count ==> t.Row(k).fd != fd
  }

  // A push for a descriptor that has no row.
  lemma NewPush(t: Table, fd: int, w: WorkStatus, id: int, handshake: bool)
    requires t.Valid() && t.PushAllowed(fd) && !t.HasFd(fd) && (w == Initial || w == InitialSsl)
    ensures var (t', r) := (t.Add(fd, id), t.NextRow());
            && t'.Valid() && r < t'.count <= t'.Max()
            && t.Push(fd, w, id, handshake) ==
               if w == Initial then t'
               else if handshake then t'.Write(r, t'.Row(r).(request := t'.Row(r).request.(isSsl := true)))
               else t'.Delete(r)
  {
    AddIsValid(t, fd, id);
  }

  // The row of fd is pushed into where it is, and all rows stay where they are.
  ghost predicate PushedInPlace(t: Table, t': Table, fd: int, w: WorkStatus) {
    && t.Valid() && t'.Valid() && t.HasFd(fd) && t'.rows == t.rows && t'.count == t.count && t'.last == t.last
    && PushedInto(t.Row(t.IndexOf(fd)), t'.Row(t.IndexOf(fd)), w)
  }

  lemma MarksWhen(t: Table, fd: int, w: WorkStatus, handshake: bool)
    requires t.Valid()
    ensures t.Marks(fd, w, handshake) <==> if t.HasFd(fd) then w == Rejected else w == InitialSsl && !handshake
  {
  }

  lemma PushOfNothing(t: Table, fd: int, w: WorkStatus, id: int, handshake: bool)
    requires t.Valid() && t.PushAllowed(fd) && !t.HasFd(fd) && w != Initial && w != InitialSsl
    ensures t.Push(fd, w, id, handshake) == t
  {
  }

  lemma RowIsPushedInto(t: Table, fd: int, w: WorkStatus, id: int, handshake: bool)
    requires t.Valid() && t.PushAllowed(fd) && w != Rejected && t.HasFd(fd)
    ensures PushedInPlace(t, t.Push(fd, w, id, handshake), fd, w)
  {
    PushFoundSessions(t, fd, w, id, handshake);
  }

  lemma FirstIsOnly(t: Table, fd: int, i: nat)
    requires t.Valid() && i < t.count && t.Row(i).fd == fd
    ensures t.IndexOf(fd) == i
  {
    assert t.Row(t.IndexOf(fd)).fd == t.Row(i).fd;
  }

  // Writing one of each kind of object is writing a cell.
  lemma CellsOfWrite(
    s: seq<Session>, o: seq<int>, t: seq<bv8>, b: seq<string>, q: seq<HttpRequest>, p: seq<HttpResponse>,
    k: nat, c: Cell)
    requires k < |s| == |o| == |t| == |b| == |q| == |p|
    ensures CellsOf(s[k := Session(c.id, c.fd, c.threadId)], o[k := c.bioFd], t[k := c.status], b[k := c.buffer],
                q[k := c.request], p[k := c.response]) ==
            CellsOf(s, o, t, b, q, p)[k := c]
  {
  }

  lemma WriteTwice(t: Table, i: nat, c: Cell, d: Cell)
    requires t.IsPermutation() && i < t.Max()
    ensures t.Write(i, c).Write(i, d) == t.Write(i, d)
  {
    assert t.cells[t.rows[i] := c][t.rows[i] := d] == t.cells[t.rows[i] := d];
  }

  // One array's share of a step of the rotation.
  method ShiftLeft(a: array<nat>, i: nat, saved: nat)
    requires i + 1 < a.Length
    modifies a
    ensures a[..] == old(a[..])[i := old(a[i + 1])][i + 1 := saved]
  {
    a[i] := a[i + 1];
    a[i + 1] := saved;
  }

  // The rows when the removed one has got from `from` to `to`.
  function Moved(r: seq<nat>, from: nat, to: nat): (m: seq<nat>)
    requires from <= to < |r|
    ensures |m| == |r|
  {
    r[..from] + r[from + 1..to + 1] + [r[from]] + r[to + 1..]
  }

  // A deletion in terms of the loop.
  lemma DeleteIsMoved(t: Table, i: nat)
    requires t.IsPermutation() && i < t.count <= t.Max()
    ensures t.Delete(i) ==
            Table(Moved(t.rows, i, t.count - 1), t.Write(i, ZERO_CELL).cells, t.count - 1,
                if t.count - 1 < t.last then t.last - 1 else t.last)
  {
  }

  lemma MovedNowhere(r: seq<nat>, from: nat)
    requires from < |r|
    ensures Moved(r, from, from) == r
  {
  }

  lemma MovedStep(r: seq<nat>, from: nat, to: nat)
    requires from <= to < |r| - 1
    ensures Moved(r, from, to + 1) == Moved(r, from, to)[to := Moved(r, from, to)[to + 1]][to + 1 := r[from]]
  {
  }
}
