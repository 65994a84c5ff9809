/** Descriptors whose session is gone and which the listener still has to close. */
module MarkedDescriptors {

  class MarkedFds {
    const marks: array<int>

    ghost predicate Valid()
      reads marks
    {
      forall i :: 0 <= i < marks.Length ==> marks[i] >= 0
    }

    ghost function Marked(): set<int>
      reads marks
    {
      set fd | 0 <= fd < marks.Length && marks[fd] > 0
    }

    constructor (sessionMaxSize: nat)
      ensures Valid() && marks.Length == 2 * sessionMaxSize && fresh(marks)
      ensures Marked() == {}
    {
      marks := new int[2 * sessionMaxSize](_ => 0);
    }

    method Mark(fd: nat)
      requires Valid() && fd < marks.Length
      modifies marks
      ensures Valid() && Marked() == old(Marked()) + {fd}
    {
      marks[fd] := marks[fd] + 1;
      assert forall i :: 0 <= i < marks.Length && i != fd ==> marks[i] == old(marks[i]);
    }

    // However often the descriptor was marked.
    method Unmark(fd: nat)
      requires Valid() && fd < marks.Length
      modifies marks
      ensures Valid() && Marked() == old(Marked()) - {fd}
    {
      marks[fd] := 0;
      assert forall i :: 0 <= i < marks.Length && i != fd ==> marks[i] == old(marks[i]);
    }

    method IsMarked(fd: nat) returns (r: bool)
      requires Valid() && fd < marks.Length
      ensures r <==> fd in Marked()
    {
      r := marks[fd] > 0;
    }
  }

  // What push_request and add_poll_fd_sync assert of a descriptor, and what mark, unmark and
  // is_marked need: a counter, of which there are twice as many as rows in the cache.
  predicate Asserted(fd: nat) { 0 < fd < 16384 }

  predicate HasCounter(fd: nat, sessionMaxSize: nat) { fd < 2 * sessionMaxSize }

  // The first gives the second exactly for a cache of at least 8192 rows; nothing checks that.
  lemma CountersSufficeIff(sessionMaxSize: nat)
    ensures (forall fd :: Asserted(fd) ==> HasCounter(fd, sessionMaxSize)) <==> sessionMaxSize >= 8192
  {
    assert Asserted(16383);
  }
}
