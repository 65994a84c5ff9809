/** The value of the session cache: what the seven parallel arrays hold, and what each
    critical section of session.c does to it.

    Every array is a permutation of the preallocated objects, and all seven use the same
    permutation: `rows[i]` is the slot, that is the set of preallocated objects, at row i.
    `cells[s]` is the content of slot s. */
module SessionTable {
  import opened HttpTypes
  import opened StatusWord

  datatype Cell = Cell(
    id: int, fd: int, threadId: int, bioFd: int, status: bv8,
    buffer: string, request: HttpRequest, response: HttpResponse)

  const ZERO_CELL := Cell(0, 0, 0, -1, 0, "", ZERO_REQUEST, ZERO_RESPONSE)

  // A row just added: everything reset, then the identifiers set.
  function NewCell(fd: int, id: int): Cell {
    ZERO_CELL.(id := id, fd := fd, bioFd := fd)
  }

  // A connection of which nothing was read yet, on a socket that its BIO is bound to.
  predicate IsNew(c: Cell, fd: int, id: int, tls: bool) {
    && c.fd == c.bioFd == fd && c.id == id && c.status == 0 && c.buffer == ""
    && c.request.isSsl == tls && c.request.(isSsl := false) == ZERO_REQUEST && c.response == ZERO_RESPONSE
  }

  // The index `a` of a ring of m rows, wrapped at most once.
  function Wrap(a: nat, m: nat): (r: nat)
    requires 0 < m && a < 2 * m
    ensures r == (if a < m then a else a - m)
  {
    WrapOnce(a, m);
    a % m
  }

  lemma WrapOnce(a: nat, m: nat)
    requires 0 < m && a < 2 * m
    ensures a % m == (if a < m then a else a - m)
  {
    var q, r := a / m, a % m;
    assert a == q * m + r;
    assert q < 2;
    assert q == 0 || q == 1;
  }

  datatype Table = Table(rows: seq<nat>, cells: seq<Cell>, count: nat, last: nat) {
    function Max(): nat { |rows| }

    ghost predicate IsPermutation() {
      && |cells| == |rows|
      && (forall i :: 0 <= i < |rows| ==> rows[i] < |cells|)
      && (forall i, j :: 0 <= i < j < |rows| ==> rows[i] != rows[j])
    }

    ghost predicate Valid() {
      && IsPermutation()
      && count <= Max()
      && last <= count && last < Max()
      && (forall i :: 0 <= i < count ==> Row(i).fd > 0)
      && (forall i, j :: 0 <= i < j < count ==> Row(i).fd != Row(j).fd)
      && (forall i :: count <= i < Max() ==> Row(i) == ZERO_CELL)
    }

    function Row(i: nat): Cell
      requires |cells| == |rows| && i < |rows| && rows[i] < |cells|
    {
      cells[rows[i]]
    }

    ghost predicate HasFd(fd: int)
      requires IsPermutation() && count <= Max()
    {
      exists i :: 0 <= i < count && Row(i).fd == fd
    }

    // The row of `fd`, or -1.
    function Find(fd: int, from: nat): (r: int)
      requires IsPermutation() && from <= count <= Max()
      ensures -1 <= r < count
      ensures r >= 0 ==> from <= r && Row(r).fd == fd && forall i :: from <= i < r ==> Row(i).fd != fd
      ensures r < 0 ==> forall i :: from <= i < count ==> Row(i).fd != fd
      decreases count - from
    {
      if from == count then -1 else if Row(from).fd == fd then from else Find(fd, from + 1)
    }

    function IndexOf(fd: int): (r: int)
      requires IsPermutation() && count <= Max()
      ensures -1 <= r < count
      ensures r >= 0 ==> Row(r).fd == fd
      ensures r >= 0 <==> HasFd(fd)
    {
      Find(fd, 0)
    }

    function Write(i: nat, c: Cell): Table
      requires |cells| == |rows| && i < |rows| && rows[i] < |cells|
    {
      this.(cells := cells[rows[i] := c])
    }

    // ----- The critical sections -----

    // add_to_session
    function NextRow(): nat { if count < Max() then count else last }

    function Add(fd: int, id: int): Table
      requires Valid()
    {
      var t := Write(NextRow(), NewCell(fd, id));
      if count < Max() then t.(count := count + 1) else t.(last := Wrap(last + 1, Max()))
    }

    // del_from_session: reset row i, rotate it to the end of the live prefix, drop it.
    function Rotated(i: nat): seq<nat>
      requires i < count <= Max()
    {
      rows[..i] + rows[i + 1..count] + [rows[i]] + rows[count..]
    }

    function Delete(i: nat): Table
      requires IsPermutation() && i < count <= Max()
    {
      Table(Rotated(i), cells[rows[i] := ZERO_CELL], count - 1, if count - 1 < last then last - 1 else last)
    }

    // The row that push_request leaves behind for every status but REJECTED.
    // reset_request_at_index runs for SENT only and keeps the TLS flag.
    static function Pushed(c: Cell, w: WorkStatus): Cell {
      var c' := c.(status := PushWord(c.status, w));
      if w == Sent then c'.(buffer := "", request := ZERO_REQUEST.(isSsl := c.request.isSsl)) else c'
    }

    // What the assertions at the top of push_request and at the found row demand.
    ghost predicate PushAllowed(fd: int)
      requires IsPermutation() && count <= Max()
    {
      && 0 < fd < 16384
      && (IndexOf(fd) >= 0 ==> Held(Row(IndexOf(fd)).status))
    }

    // push_request. `handshake` is the outcome of SSL_accept on a new TLS connection.
    function Push(fd: int, w: WorkStatus, id: int, handshake: bool): Table
      requires Valid() && PushAllowed(fd)
    {
      var i := IndexOf(fd);
      if i >= 0 then
        if w == Rejected then Write(i, Pushed(Row(i), w)).Delete(i) else Write(i, Pushed(Row(i), w))
      else if w == Initial then Add(fd, id)
      else if w == InitialSsl then
        var t := Add(fd, id);
        AddIsValid(this, fd, id);
        var r := NextRow();
        if handshake then t.Write(r, t.Row(r).(request := t.Row(r).request.(isSsl := true))) else t.Delete(r)
      else this
    }

    // Does that push mark the descriptor for removal?
    function Marks(fd: int, w: WorkStatus, handshake: bool): bool
      requires Valid()
    {
      if IndexOf(fd) >= 0 then w == Rejected else w == InitialSsl && !handshake
    }

    // peek_next: the last row that is eligible, or -1.
    function Peek(s: Stage, n: nat): (r: int)
      requires IsPermutation() && n <= count <= Max()
      ensures -1 <= r < n
      ensures r >= 0 ==> Eligible(Row(r).status, s) && forall i :: r < i < n ==> !Eligible(Row(i).status, s)
      ensures r < 0 ==> forall i :: 0 <= i < n ==> !Eligible(Row(i).status, s)
    {
      if n == 0 then -1 else if Eligible(Row(n - 1).status, s) then n - 1 else Peek(s, n - 1)
    }

    // What both pops do to the row they hand out.
    function Take(i: nat): Table
      requires IsPermutation() && i < count <= Max()
    {
      Write(i, Row(i).(status := PopWord(Row(i).status)))
    }

    // ----- The live sessions, by slot -----

    function Slots(): (r: set<nat>)
      requires count <= Max()
    {
      set i | 0 <= i < count :: rows[i]
    }

    function Sessions(): map<nat, Cell>
      requires IsPermutation() && count <= Max()
    {
      map s | s in Slots() :: cells[s]
    }
  }

  // ----- Facts about the parts -----

  lemma SlotOf(t: Table, i: nat)
    requires t.IsPermutation() && i < t.count <= t.Max()
    ensures t.rows[i] in t.Sessions() && t.Sessions()[t.rows[i]] == t.Row(i)
  {
  }

  lemma AddIsValid(t: Table, fd: int, id: int)
    requires t.Valid() && fd > 0 && !t.HasFd(fd)
    ensures t.Add(fd, id).Valid()
    ensures t.Add(fd, id).Row(t.NextRow()) == NewCell(fd, id) && t.NextRow() < t.Add(fd, id).count
    ensures IsNew(t.Add(fd, id).Row(t.NextRow()), fd, id, false)
  {
    var t' := t.Add(fd, id);
    forall i | 0 <= i < t.Max() && i != t.NextRow() ensures t'.Row(i) == t.Row(i) {
    }
  }

  // Where the slot at row k comes from when row i is deleted.
  lemma RotatedAt(t: Table, i: nat, k: nat)
    requires i < t.count <= t.Max() && k < t.Max()
    ensures |t.Rotated(i)| == t.Max()
    ensures t.Rotated(i)[k] == t.rows[if k < i || k >= t.count then k else if k < t.count - 1 then k + 1 else i]
  {
  }

  // The live prefix after a deletion is the old one without that row, in the same order, and
  // no slot is lost.
  lemma DeletePrefix(t: Table, i: nat)
    requires t.IsPermutation() && i < t.count <= t.Max()
    ensures t.Delete(i).rows[..t.count - 1] == t.rows[..i] + t.rows[i + 1..t.count]
    ensures t.Delete(i).rows[t.count - 1] == t.rows[i]
    ensures t.Delete(i).rows[t.count..] == t.rows[t.count..]
    ensures t.Delete(i).IsPermutation()
    ensures multiset(t.Delete(i).rows) == multiset(t.rows)
  {
    DeletePermutes(t, i);
    assert t.rows == t.rows[..i] + [t.rows[i]] + t.rows[i + 1..t.count] + t.rows[t.count..];
  }

  lemma DeletePermutes(t: Table, i: nat)
    requires t.IsPermutation() && i < t.count <= t.Max()
    ensures t.Delete(i).IsPermutation()
  {
    forall k | 0 <= k < t.Max()
      ensures t.Rotated(i)[k] == t.rows[if k < i || k >= t.count then k else if k < t.count - 1 then k + 1 else i]
    {
      RotatedAt(t, i, k);
    }
    RotatedAt(t, i, i);
  }

  lemma DeleteIsValid(t: Table, i: nat)
    requires t.Valid() && i < t.count
    ensures t.Delete(i).Valid()
    ensures !t.Delete(i).HasFd(t.Row(i).fd)
  {
    DeletePrefix(t, i);
    var t' := t.Delete(i);
    forall k | 0 <= k < t.Max()
      ensures t'.rows[k] == t.rows[if k < i || k >= t.count then k else if k < t.count - 1 then k + 1 else i]
      ensures k != t.count - 1 ==> t'.Row(k) == t.Row(if k < i || k >= t.count then k else k + 1)
    {
    }
  }

  lemma DeleteSlots(t: Table, i: nat, s: nat)
    requires t.IsPermutation() && i < t.count <= t.Max()
    ensures s in t.Delete(i).Slots() <==> s in t.Slots() && s != t.rows[i]
  {
    var r := t.Rotated(i);
    assert forall k :: 0 <= k < i ==> r[k] == t.rows[k];
    assert forall k :: i <= k < t.count - 1 ==> r[k] == t.rows[k + 1];
    if s in t.Slots() && s != t.rows[i] {
      var k :| 0 <= k < t.count && t.rows[k] == s;
      assert r[if k < i then k else k - 1] == s;
    }
  }

  lemma DeleteSessions(t: Table, i: nat)
    requires t.IsPermutation() && i < t.count <= t.Max()
    ensures t.Delete(i).IsPermutation()
    ensures t.Delete(i).Sessions() == t.Sessions() - {t.rows[i]}
  {
    DeletePrefix(t, i);
    forall s ensures s in t.Delete(i).Slots() <==> s in t.Slots() - {t.rows[i]} {
      DeleteSlots(t, i, s);
    }
    assert t.Delete(i).Slots() == t.Slots() - {t.rows[i]};
    assert forall s :: s in t.Slots() - {t.rows[i]} ==> t.Delete(i).cells[s] == t.cells[s];
  }

  // Below capacity the row that is added is in no session, and nothing else changes.
  lemma AddSessions(t: Table, fd: int, id: int)
    requires t.Valid() && t.count < t.Max() && fd > 0 && !t.HasFd(fd)
    ensures t.Add(fd, id).Valid()
    ensures t.rows[t.count] !in t.Sessions()
    ensures t.Add(fd, id).Sessions() == t.Sessions()[t.rows[t.count] := NewCell(fd, id)]
  {
    AddIsValid(t, fd, id);
    var t' := t.Add(fd, id);
    forall s ensures s in t'.Slots() <==> s in t.Slots() || s == t.rows[t.count] {
      if s == t.rows[t.count] {
        assert t'.rows[t.count] == s;
      }
    }
  }

  lemma WriteIsValid(t: Table, i: nat, c: Cell)
    requires t.Valid() && i < t.count && c.fd == t.Row(i).fd
    ensures t.Write(i, c).Valid()
  {
    forall k | 0 <= k < t.Max() && k != i ensures t.Write(i, c).Row(k) == t.Row(k) {
    }
  }

  // Rewriting a live row in place, without touching its descriptor.
  lemma WriteSessions(t: Table, i: nat, c: Cell)
    requires t.Valid() && i < t.count && c.fd == t.Row(i).fd
    ensures t.Write(i, c).Valid()
    ensures t.Write(i, c).Sessions() == t.Sessions()[t.rows[i] := c]
  {
    WriteIsValid(t, i, c);
    hide Table.Valid;
    assert t.Write(i, c).Slots() == t.Slots();
  }

  // A descriptor names one session.
  lemma FdNamesOneSlot(t: Table, i: nat, s: nat)
    requires t.Valid() && i < t.count && s in t.Sessions()
    ensures t.Sessions()[s].fd == t.Row(i).fd <==> s == t.rows[i]
  {
    var k :| 0 <= k < t.count && t.rows[k] == s;
    assert t.Row(k) == t.Sessions()[s];
    assert k < i || k > i ==> t.Row(k).fd != t.Row(i).fd;
  }

  lemma PushRejectedFound(t: Table, fd: int, id: int, handshake: bool)
    requires t.Valid() && t.PushAllowed(fd) && t.HasFd(fd)
    ensures t.Push(fd, Rejected, id, handshake).Valid() && !t.Push(fd, Rejected, id, handshake).HasFd(fd)
    ensures t.Push(fd, Rejected, id, handshake).Sessions() == t.Sessions() - {t.rows[t.IndexOf(fd)]}
  {
    var i := t.IndexOf(fd);
    var c := Table.Pushed(t.Row(i), Rejected);
    WriteSessions(t, i, c);
    DeleteIsValid(t.Write(i, c), i);
    DeleteSessions(t.Write(i, c), i);
  }

  // REJECTED removes exactly the row of that descriptor: the others keep their slots
  // and their contents.
  lemma PushRejectedRemovesOnlyThatFd(t: Table, fd: int, id: int, handshake: bool)
    requires t.Valid() && t.PushAllowed(fd)
    ensures t.Push(fd, Rejected, id, handshake).Valid()
    ensures !t.Push(fd, Rejected, id, handshake).HasFd(fd)
    ensures t.Push(fd, Rejected, id, handshake).Sessions() ==
            map s | s in t.Sessions() && t.Sessions()[s].fd != fd :: t.Sessions()[s]
  {
    var before := t.Sessions();
    if t.HasFd(fd) {
      PushRejectedFound(t, fd, id, handshake);
      forall s | s in before ensures before[s].fd == fd <==> s == t.rows[t.IndexOf(fd)] {
        FdNamesOneSlot(t, t.IndexOf(fd), s);
      }
    } else {
      forall s | s in before ensures before[s].fd != fd {
        var k :| 0 <= k < t.count && t.rows[k] == s;
        assert t.Row(k).fd != fd;
      }
    }
  }

  // Every other push that finds its row rewrites it in place.
  lemma PushFoundSessions(t: Table, fd: int, w: WorkStatus, id: int, handshake: bool)
    requires t.Valid() && t.PushAllowed(fd) && w != Rejected && t.HasFd(fd)
    ensures t.Push(fd, w, id, handshake).Valid()
    ensures var i := t.IndexOf(fd);
            t.Push(fd, w, id, handshake).Sessions() == t.Sessions()[t.rows[i] := Table.Pushed(t.Row(i), w)]
  {
    WriteSessions(t, t.IndexOf(fd), Table.Pushed(t.Row(t.IndexOf(fd)), w));
  }

  // What a push of w makes of the session c, field by field: SENT empties the buffer and zeroes the
  // request but for its TLS flag; every other status leaves all but the word alone.
  predicate PushedInto(c: Cell, c': Cell, w: WorkStatus) {
    && c'.fd == c.fd && c'.id == c.id && c'.threadId == c.threadId && c'.bioFd == c.bioFd
    && c'.response == c.response && c'.status == PushWord(c.status, w) && c'.request.isSsl == c.request.isSsl
    && (w == Sent ==> c'.buffer == "" && c'.request.(isSsl := false) == ZERO_REQUEST)
    && (w != Sent ==> c'.buffer == c.buffer && c'.request == c.request)
  }

  // So does one that finds its row, and it leaves the other sessions alone.
  lemma PushFoundFields(t: Table, fd: int, w: WorkStatus, id: int, handshake: bool)
    requires t.Valid() && t.PushAllowed(fd) && w != Rejected && t.HasFd(fd)
    ensures t.Push(fd, w, id, handshake).Valid()
    ensures var (sess, sess') := (t.Sessions(), t.Push(fd, w, id, handshake).Sessions());
            var k := t.rows[t.IndexOf(fd)];
            && k in sess && sess[k].fd == fd && k in sess' && sess' == sess[k := sess'[k]]
            && PushedInto(sess[k], sess'[k], w)
  {
    SlotOf(t, t.IndexOf(fd));
    PushFoundSessions(t, fd, w, id, handshake);
  }

  // A new plain connection gets a slot that is in no session.
  lemma PushInitialSessions(t: Table, fd: int, id: int, handshake: bool)
    requires t.Valid() && t.PushAllowed(fd) && !t.HasFd(fd) && t.count < t.Max()
    ensures t.Push(fd, Initial, id, handshake).Valid()
    ensures t.rows[t.count] !in t.Sessions()
    ensures t.Push(fd, Initial, id, handshake).Sessions() == t.Sessions()[t.rows[t.count] := NewCell(fd, id)]
    ensures var c := t.Push(fd, Initial, id, handshake).Sessions()[t.rows[t.count]]; IsNew(c, fd, id, false)
  {
    AddSessions(t, fd, id);
  }

  lemma AddThenDelete(t: Table, fd: int, id: int)
    requires t.Valid() && t.count < t.Max() && fd > 0 && !t.HasFd(fd)
    ensures t.Add(fd, id).Valid() && t.Add(fd, id).Delete(t.count) == t
  {
    AddIsValid(t, fd, id);
    var t1 := t.Add(fd, id);
    assert t1.Rotated(t.count) == t.rows;
    assert t.Row(t.count) == ZERO_CELL;
    assert t1.Delete(t.count).cells == t.cells;
  }

  lemma AddThenFlag(t: Table, fd: int, id: int)
    requires t.Valid() && t.count < t.Max() && fd > 0 && !t.HasFd(fd)
    ensures t.Add(fd, id).Valid() && t.NextRow() == t.count < t.Add(fd, id).count
    ensures var t1 := t.Add(fd, id);
            var c := t1.Row(t.count).(request := t1.Row(t.count).request.(isSsl := true));
            t1.Write(t.count, c).Valid() &&
            t1.Write(t.count, c).Sessions() ==
            t.Sessions()[t.rows[t.count] := NewCell(fd, id).(request := ZERO_REQUEST.(isSsl := true))]
  {
    AddSessions(t, fd, id);
    AddIsValid(t, fd, id);
    var t1 := t.Add(fd, id);
    WriteSessions(t1, t.count, t1.Row(t.count).(request := t1.Row(t.count).request.(isSsl := true)));
    assert t1.rows == t.rows;
  }

  // So does a new TLS connection, unless its handshake fails, and then nothing is left of it.
  lemma PushInitialSslSessions(t: Table, fd: int, id: int, handshake: bool)
    requires t.Valid() && t.PushAllowed(fd) && !t.HasFd(fd) && t.count < t.Max()
    ensures t.Push(fd, InitialSsl, id, handshake).Valid()
    ensures t.rows[t.count] !in t.Sessions()
    ensures !handshake ==> t.Push(fd, InitialSsl, id, handshake) == t
    ensures handshake ==>
              t.Push(fd, InitialSsl, id, handshake).Sessions() ==
              t.Sessions()[t.rows[t.count] := NewCell(fd, id).(request := ZERO_REQUEST.(isSsl := true))]
    ensures handshake ==>
              var c := t.Push(fd, InitialSsl, id, handshake).Sessions()[t.rows[t.count]]; IsNew(c, fd, id, true)
  {
    AddSessions(t, fd, id);
    AddThenFlag(t, fd, id);
    AddThenDelete(t, fd, id);
  }

  lemma PushKeepsValid(t: Table, fd: int, w: WorkStatus, id: int, handshake: bool)
    requires t.Valid() && t.PushAllowed(fd)
    ensures t.Push(fd, w, id, handshake).Valid()
    ensures t.Push(fd, w, id, handshake).Max() == t.Max()
  {
    if t.HasFd(fd) {
      FoundKeepsValid(t, fd, w, id, handshake);
    } else if w == Initial || w == InitialSsl {
      NewKeepsValid(t, fd, w, id, handshake);
    }
    hide Table.Valid;
  }

  lemma FoundKeepsValid(t: Table, fd: int, w: WorkStatus, id: int, handshake: bool)
    requires t.Valid() && t.PushAllowed(fd) && t.HasFd(fd)
    ensures t.Push(fd, w, id, handshake).Valid()
    ensures t.Push(fd, w, id, handshake).Max() == t.Max()
  {
    var i := t.IndexOf(fd);
    var t1 := t.Write(i, Table.Pushed(t.Row(i), w));
    WriteIsValid(t, i, Table.Pushed(t.Row(i), w));
    DeleteIsValid(t1, i);
    hide Table.Valid, Table.Pushed;
    RotatedAt(t1, i, i);
  }

  lemma NewKeepsValid(t: Table, fd: int, w: WorkStatus, id: int, handshake: bool)
    requires t.Valid() && t.PushAllowed(fd) && !t.HasFd(fd) && (w == Initial || w == InitialSsl)
    ensures t.Push(fd, w, id, handshake).Valid()
    ensures t.Push(fd, w, id, handshake).Max() == t.Max()
  {
    AddIsValid(t, fd, id);
    if w == InitialSsl {
      var t1, r := t.Add(fd, id), t.NextRow();
      WriteIsValid(t1, r, t1.Row(r).(request := t1.Row(r).request.(isSsl := true)));
      DeleteIsValid(t1, r);
      hide Table.Valid;
      RotatedAt(t1, r, r);
    }
  }

  // A pop takes one eligible row and leaves every other session alone.
  lemma TakeSessions(t: Table, i: nat)
    requires t.Valid() && i < t.count
    ensures t.Take(i).Valid()
    ensures t.Take(i).Sessions() == t.Sessions()[t.rows[i] := t.Row(i).(status := PopWord(t.Row(i).status))]
  {
    WriteSessions(t, i, t.Row(i).(status := PopWord(t.Row(i).status)));
  }

  // ----- The ring -----

  function Empty(max: nat): (t: Table)
    requires max > 0
    ensures t.Valid() && t.Max() == max && t.count == 0
    ensures forall i :: 0 <= i < max ==> t.rows[i] == i && t.cells[i] == ZERO_CELL
  {
    Table(seq(max, i => i), seq(max, _ => ZERO_CELL), 0, 0)
  }

  // The row k after `last`, with wrap-around.
  function Around(t: Table, k: nat): (r: nat)
    requires t.last < t.Max() && k < t.Max()
    ensures r == if t.last + k < t.Max() then t.last + k else t.last + k - t.Max()
  {
    Wrap(t.last + k, t.Max())
  }

  // The descriptors met when reading the cache from `last`, with wrap-around.
  ghost function Arrivals(t: Table): (r: seq<int>)
    requires t.Valid()
    ensures |r| == t.count && forall k :: 0 <= k < t.count ==> r[k] == t.Row(Around(t, k)).fd
  {
    seq(t.count, k requires 0 <= k < t.count => t.Row(Around(t, k)).fd)
  }

  // A cache that is not full has not wrapped. It holds of every cache from which nothing was
  // deleted.
  predicate RingIntact(t: Table) { t.count < t.Max() ==> t.last == 0 }

  function LastOf(s: seq<int>, n: nat): seq<int> {
    if |s| <= n then s else s[|s| - n..]
  }

  // A run of pushes of new connections, none of which is in the cache at its push.
  ghost predicate FreshRun(t: Table, fds: seq<int>, ids: seq<int>)
    requires t.Valid() && |ids| == |fds|
    decreases |fds|
  {
    fds == [] ||
    (&& t.PushAllowed(fds[0]) && !t.HasFd(fds[0])
     && (AddIsValid(t, fds[0], ids[0]); FreshRun(t.Push(fds[0], Initial, ids[0], true), fds[1..], ids[1..])))
  }

  ghost function PushAll(t: Table, fds: seq<int>, ids: seq<int>): Table
    requires t.Valid() && |ids| == |fds| && FreshRun(t, fds, ids)
    decreases |fds|
  {
    if fds == [] then t
    else AddIsValid(t, fds[0], ids[0]); PushAll(t.Push(fds[0], Initial, ids[0], true), fds[1..], ids[1..])
  }

  lemma AddKeepsOthers(t: Table, fd: int, id: int, i: nat)
    requires t.Valid() && i < t.Max()
    ensures t.Add(fd, id).rows == t.rows && |t.Add(fd, id).cells| == |t.cells|
    ensures t.Add(fd, id).Row(i) == if i == t.NextRow() then NewCell(fd, id) else t.Row(i)
  {
  }

  // An arrival is appended to the others in order, and the oldest dropped when the cache is full,
  // exactly when the ring is intact; and then it stays so.
  lemma RingStep(t: Table, fd: int, id: int)
    requires t.Valid() && fd > 0 && !t.HasFd(fd)
    ensures t.Add(fd, id).Valid()
    ensures Arrivals(t.Add(fd, id)) == LastOf(Arrivals(t) + [fd], t.Max()) <==> RingIntact(t)
    ensures RingIntact(t) ==> RingIntact(t.Add(fd, id))
  {
    AddIsValid(t, fd, id);
    hide Table.Valid, Table.HasFd, IsNew, Arrivals;
    if RingIntact(t) {
      IntactRingStep(t, fd, id);
    } else {
      BrokenRingStep(t, fd, id);
    }
  }

  lemma IntactRingStep(t: Table, fd: int, id: int)
    requires t.Valid() && RingIntact(t) && fd > 0 && !t.HasFd(fd) && t.Add(fd, id).Valid()
    ensures Arrivals(t.Add(fd, id)) == LastOf(Arrivals(t) + [fd], t.Max())
  {
    var t' := t.Add(fd, id);
    assert t'.count == if t.count < t.Max() then t.count + 1 else t.count;
    assert |Arrivals(t')| == |LastOf(Arrivals(t) + [fd], t.Max())|;
    hide Table.Add, Table.HasFd;
    forall k | 0 <= k < t'.count
      ensures Arrivals(t')[k] == LastOf(Arrivals(t) + [fd], t.Max())[k]
    {
      RingStepAt(t, fd, id, k);
      hide Table.Valid;
    }
  }

  // Otherwise the arrival is not the last one read: the row read last is another one.
  lemma BrokenRingStep(t: Table, fd: int, id: int)
    requires t.Valid() && !RingIntact(t) && fd > 0 && !t.HasFd(fd) && t.Add(fd, id).Valid()
    ensures Arrivals(t.Add(fd, id)) != LastOf(Arrivals(t) + [fd], t.Max())
  {
    var t' := t.Add(fd, id);
    var r := Around(t', t.count);
    assert t'.last == t.last > 0 && t'.count == t.count + 1;
    AddKeepsOthers(t, fd, id, r);
    assert r != t.count;
    assert r < t.count ==> t.Row(r).fd != fd;
    assert Arrivals(t')[t.count] != fd;
  }

  lemma RingStepAt(t: Table, fd: int, id: int, k: nat)
    requires t.Valid() && RingIntact(t) && fd > 0 && t.Add(fd, id).Valid() && k < t.Add(fd, id).count
    ensures t.Add(fd, id).Row(Around(t.Add(fd, id), k)).fd ==
            if k == t.Add(fd, id).count - 1 then fd
            else t.Row(Around(t, if t.count < t.Max() then k else k + 1)).fd
  {
    var r := Around(t.Add(fd, id), k);
    AddKeepsOthers(t, fd, id, r);
  }

  lemma LastOfLastOf(a: seq<int>, b: seq<int>, n: nat)
    requires n > 0
    ensures LastOf(LastOf(a, n) + b, n) == LastOf(a + b, n)
  {
  }

  // What a run of arrivals leaves: the last of them, in the order in which they came.
  ghost predicate KeepsTheLast(t: Table, fds: seq<int>, t': Table)
    requires t.Valid()
  {
    && t'.Valid() && RingIntact(t') && t'.Max() == t.Max()
    && Arrivals(t') == LastOf(Arrivals(t) + fds, t.Max())
  }

  lemma NoArrivals(t: Table)
    requires t.Valid() && RingIntact(t)
    ensures KeepsTheLast(t, [], t)
  {
    assert Arrivals(t) + [] == Arrivals(t);
  }

  lemma MoreArrivals(t: Table, fd: int, t1: Table, rest: seq<int>, t2: Table)
    requires t.Valid() && KeepsTheLast(t, [fd], t1) && KeepsTheLast(t1, rest, t2)
    ensures KeepsTheLast(t, [fd] + rest, t2)
  {
    hide Arrivals, LastOf;
    LastOfLastOf(Arrivals(t) + [fd], rest, t.Max());
    assert Arrivals(t) + [fd] + rest == Arrivals(t) + ([fd] + rest);
  }

  lemma FirstOfRun(t: Table, fds: seq<int>, ids: seq<int>)
    requires t.Valid() && RingIntact(t) && |ids| == |fds| && FreshRun(t, fds, ids) && fds != []
    ensures var t1 := t.Push(fds[0], Initial, ids[0], true);
            && KeepsTheLast(t, [fds[0]], t1) && FreshRun(t1, fds[1..], ids[1..])
            && PushAll(t, fds, ids) == PushAll(t1, fds[1..], ids[1..])
  {
    RingStep(t, fds[0], ids[0]);
    assert t.Push(fds[0], Initial, ids[0], true) == t.Add(fds[0], ids[0]);
  }

  // After any run of new connections the cache holds exactly the last min(n, max_size) of them
  // and of those before, and reading from `last` with wrap-around gives them in the order in
  // which they arrived.
  lemma {:induction false} RingKeepsTheLast(t: Table, fds: seq<int>, ids: seq<int>)
    requires t.Valid() && RingIntact(t) && |ids| == |fds| && FreshRun(t, fds, ids)
    ensures KeepsTheLast(t, fds, PushAll(t, fds, ids))
    decreases |fds|
  {
    if fds == [] {
      NoArrivals(t);
    } else {
      FirstOfRun(t, fds, ids);
      var t1 := t.Push(fds[0], Initial, ids[0], true);
      RingKeepsTheLast(t1, fds[1..], ids[1..]);
      MoreArrivals(t, fds[0], t1, fds[1..], PushAll(t1, fds[1..], ids[1..]));
      assert [fds[0]] + fds[1..] == fds;
    }
  }

  lemma RingFromEmpty(max: nat, fds: seq<int>, ids: seq<int>)
    requires max > 0 && |ids| == |fds| && FreshRun(Empty(max), fds, ids)
    ensures var t := PushAll(Empty(max), fds, ids);
            && t.Valid() && t.count == (if |fds| < max then |fds| else max)
            && Arrivals(t) == LastOf(fds, max)
  {
    RingKeepsTheLast(Empty(max), fds, ids);
    assert Arrivals(Empty(max)) + fds == fds;
  }

  // ----- Deletions and the ring -----

  // del_from_session leaves `last` alone although the rows move: a deletion breaks the ring
  // exactly when it has wrapped.
  lemma DeletionBreaksWrappedRing(t: Table, i: nat)
    requires t.Valid() && RingIntact(t) && i < t.count
    ensures t.Delete(i).Valid()
    ensures RingIntact(t.Delete(i)) <==> t.last == 0
  {
    DeleteIsValid(t, i);
  }

  // A cache of two rows: 1, 2 and 3 connect, the listener takes 3 and rejects it, 4 connects.
  const ONE := Table([0, 1], [NewCell(1, 0), ZERO_CELL], 1, 0)
  const TWO := Table([0, 1], [NewCell(1, 0), NewCell(2, 0)], 2, 0)
  const WRAPPED := Table([0, 1], [NewCell(3, 0), NewCell(2, 0)], 2, 1)
  const HELD := Table([0, 1], [NewCell(3, 0).(status := 0x80), NewCell(2, 0)], 2, 1)
  const SHRUNK := Table([1, 0], [ZERO_CELL, NewCell(2, 0)], 1, 1)
  const REFILLED := Table([1, 0], [NewCell(4, 0), NewCell(2, 0)], 2, 1)

  lemma ExamplesAreValid()
    ensures ONE.Valid() && TWO.Valid() && WRAPPED.Valid() && HELD.Valid() && SHRUNK.Valid() && REFILLED.Valid()
    ensures Empty(2) == Table([0, 1], [ZERO_CELL, ZERO_CELL], 0, 0)
  {
    TwoRows(ONE);
    TwoRows(TWO);
    TwoRows(WRAPPED);
    TwoRows(HELD);
    TwoRows(SHRUNK);
    TwoRows(REFILLED);
    hide Table.Valid;
  }

  lemma TwoRows(t: Table)
    requires |t.rows| == |t.cells| == 2 && (t.rows == [0, 1] || t.rows == [1, 0])
    requires t.last <= t.count <= 2 && t.last < 2
    requires t.count > 0 ==> t.Row(0).fd > 0 && if t.count == 2 then 0 < t.Row(1).fd != t.Row(0).fd
        else t.Row(1) == ZERO_CELL
    requires t.count == 0 ==> t.Row(0) == t.Row(1) == ZERO_CELL
    ensures t.Valid()
  {
  }

  lemma FirstArrives()
    ensures !Empty(2).HasFd(1) && Empty(2).Push(1, Initial, 0, true) == ONE
  {
    ExamplesAreValid();
  }

  lemma SecondArrives()
    ensures ONE.Valid() && !ONE.HasFd(2) && ONE.Push(2, Initial, 0, true) == TWO
  {
    ExamplesAreValid();
  }

  lemma ThirdArrives()
    ensures TWO.Valid() && !TWO.HasFd(3) && TWO.Push(3, Initial, 0, true) == WRAPPED
  {
    ExamplesAreValid();
  }

  lemma OneLeaves()
    ensures WRAPPED.Valid() && WRAPPED.HasFd(3) && WRAPPED.IndexOf(3) == 0 && WRAPPED.Take(0) == HELD
    ensures HELD.Valid() && HELD.PushAllowed(3) && HELD.Push(3, Rejected, 0, true) == SHRUNK
  {
    ExamplesAreValid();
    assert WRAPPED.Row(0).fd == 3 && HELD.Row(0).fd == 3;
    assert WRAPPED.IndexOf(3) == 0 && HELD.IndexOf(3) == 0;
    assert HELD.Rotated(0) == [1, 0];
  }

  lemma AnotherArrives()
    ensures SHRUNK.Valid() && !SHRUNK.HasFd(4) && SHRUNK.Push(4, Initial, 0, true) == REFILLED
    ensures REFILLED.Valid() && REFILLED.NextRow() == 1 && REFILLED.Row(0).fd == 2 && REFILLED.Row(1).fd == 4
  {
    ExamplesAreValid();
  }

  // The ring was intact until 3 left. The next to be evicted is 4, the newest; 2, the oldest, stays.
  lemma ShrunkRingEvictsTheNewest()
    ensures FreshRun(Empty(2), [1, 2, 3], [0, 0, 0]) && PushAll(Empty(2), [1, 2, 3], [0, 0, 0]) == WRAPPED
    ensures WRAPPED.Valid() && RingIntact(WRAPPED) && WRAPPED.IndexOf(3) == 0
    ensures var held := WRAPPED.Take(0);
            held.Valid() && held.PushAllowed(3) && held.Push(3, Rejected, 0, true) == SHRUNK
    ensures SHRUNK.Valid() && !RingIntact(SHRUNK) && SHRUNK.PushAllowed(4)
    ensures var t := SHRUNK.Push(4, Initial, 0, true);
            && t.Valid() && t.count == t.Max() == 2
            && t.Row(0).fd == 2 && t.NextRow() == 1 && t.Row(t.NextRow()).fd == 4
  {
    FirstArrives();
    SecondArrives();
    ThirdArrives();
    OneLeaves();
    AnotherArrives();
    hide Table.Push, Table.Valid, Table.HasFd, Table.Take, Table.IndexOf;
    assert [1, 2, 3][1..] == [2, 3] && [2, 3][1..] == [3] && [3][1..] == [];
    assert [0, 0, 0][1..] == [0, 0] && [0, 0][1..] == [0] && [0][1..] == [];
    assert FreshRun(WRAPPED, [], []);
    assert FreshRun(TWO, [3], [0]);
    assert FreshRun(ONE, [2, 3], [0, 0]);
    assert PushAll(TWO, [3], [0]) == WRAPPED;
    assert PushAll(ONE, [2, 3], [0, 0]) == WRAPPED;
  }
}
