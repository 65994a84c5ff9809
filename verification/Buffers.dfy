/** The growable byte buffer. `count` is what is in use of the `capacity` bytes at `data`. */
module Buffers {

  const DEFAULT_BUFFER_SIZE: nat := 1024
  const WORD: nat := 0x1_0000_0000_0000_0000  // one past the largest `unsigned long`

  // One round of the loop in ensure_capacity_, in 64-bit arithmetic.
  function NextCapacity(c: nat): nat {
    if c < DEFAULT_BUFFER_SIZE then DEFAULT_BUFFER_SIZE else (2 * c) % WORD
  }

  // The capacity that the loop ends with when no doubling overflows.
  function Grown(c: nat, request: nat): (g: nat)
    ensures g >= request && g >= c
    ensures g != c ==> g == DEFAULT_BUFFER_SIZE || g < 2 * request
    ensures g != c ==> g >= DEFAULT_BUFFER_SIZE && (c >= DEFAULT_BUFFER_SIZE ==> g >= 2 * c)
    decreases if c < request then request - c + (if c < DEFAULT_BUFFER_SIZE then DEFAULT_BUFFER_SIZE else 0) else 0
  {
    if c >= request then c
    else Grown(if c < DEFAULT_BUFFER_SIZE then DEFAULT_BUFFER_SIZE else 2 * c, request)
  }

  class Buffer {
    var capacity: nat
    var count: nat
    var data: array?<char>

    ghost predicate Valid()
      reads this
    {
      && count <= capacity < WORD
      && (data == null ==> capacity == 0)
      && (data != null ==> data.Length == capacity)
    }

    // The bytes in use.
    ghost function Text(): (s: string)
      reads this, data
      requires Valid()
      ensures |s| == count
    {
      if data == null then "" else data[..count]
    }

    constructor (initialCapacity: nat)
      requires initialCapacity < WORD
      ensures Valid() && count == 0 && data != null && fresh(data)
      ensures capacity == if initialCapacity < DEFAULT_BUFFER_SIZE then DEFAULT_BUFFER_SIZE else initialCapacity
      ensures forall i :: 0 <= i < data.Length ==> data[i] == '\0'
    {
      var c := if initialCapacity < DEFAULT_BUFFER_SIZE then DEFAULT_BUFFER_SIZE else initialCapacity;
      capacity := c;
      count := 0;
      data := new char[c](_ => '\0');
    }

    // Up to half the address space the loop terminates without overflow, and what was in the
    // buffer stays there. `granted` is the outcome of realloc, which leaves its argument as it
    // is but loses the pointer when it fails. The result is the capacity cut down to an `int`.
    method EnsureCapacity(request: nat, granted: bool) returns (r: int)
      requires Valid() && request <= WORD / 2
      modifies this
      ensures capacity == Grown(old(capacity), request) && count == old(count)
      ensures capacity == old(capacity) ==> data == old(data)
      ensures capacity > old(capacity) && granted ==> data != null && fresh(data)
      ensures capacity > old(capacity) && !granted ==> data == null && r == -1
      ensures capacity == old(capacity) || granted ==> Valid() && Text() == old(Text()) && r == AsInt32(capacity)
      ensures (capacity == old(capacity) || granted) && old(data) != null ==>
                data != null && data[..old(capacity)] == old(data[..])
    {
      hide Grown, AsInt32;
      var oldCapacity := capacity;
      GrownReaches(capacity, request);
      Double(request);
      if capacity > oldCapacity {
        if !granted {
          data := null;
          return -1;
        }
        Reallocate(oldCapacity);
      }
      r := AsInt32(capacity);
    }

    // The loop of ensure_capacity_.
    method Double(request: nat)
      requires capacity < WORD && request <= WORD / 2
      modifies this`capacity
      ensures capacity == Grown(old(capacity), request) && capacity < WORD
    {
      ghost var oldCapacity := capacity;
      while capacity < request
        invariant oldCapacity <= capacity < WORD
        invariant Grown(capacity, request) == Grown(oldCapacity, request)
        decreases Grown(oldCapacity, request) - capacity
      {
        capacity := NextCapacity(capacity);
      }
    }

    // realloc, when it succeeds: the bytes behind the old capacity are any bytes.
    method Reallocate(oldCapacity: nat)
      requires count <= oldCapacity <= capacity
      requires (if data == null then oldCapacity == 0 else data.Length == oldCapacity)
      modifies this`data
      ensures data != null && fresh(data) && data.Length == capacity
      ensures old(data) != null ==> data[..oldCapacity] == old(data[..])
    {
      var bigger := new char[capacity];
      if data != null {
        CopyInto(bigger, 0, data, oldCapacity);
        assert bigger[..oldCapacity] == data[..oldCapacity] == data[..];
      }
      data := bigger;
    }

    // copy_buffer: the target holds what the source holds.
    method CopyFrom(src: Buffer, granted: bool) returns (r: int)
      requires Valid() && src.Valid() && src != this && src.count <= WORD / 2
      requires data != null && src.data != null && data != src.data
      modifies this, data
      ensures src.Text() == old(src.Text()) && src.Valid()
      ensures r >= 0 ==> Valid() && Text() == old(src.Text()) && data != null && (data == old(data) || fresh(data))
      ensures capacity == Grown(old(capacity), old(src.count))
      ensures r == -1 || r == AsInt32(old(src.count))
      ensures granted && Grown(old(capacity), src.count) < 0x8000_0000 ==> r == old(src.count)
    {
      hide AsInt32, Grown;
      SmallAsInt32(Grown(capacity, src.count));
      SmallAsInt32(src.count);
      GrownReaches(capacity, src.count);
      var grown := EnsureCapacity(src.count, granted);
      if grown < 0 {
        return -1;
      }
      CopyInto(data, 0, src.data, src.count);
      count := src.count;
      r := AsInt32(count);
    }
  }

  // memmove within one array; the two ranges may overlap.
  method Memmove(a: array<char>, dst: nat, src: nat, n: nat)
    requires dst + n <= a.Length && src + n <= a.Length
    modifies a
    ensures a[..] == old(a[..dst] + a[src..src + n] + a[dst + n..])
  {
    forall i | 0 <= i < n {
      a[dst + i] := a[src + i];
    }
  }

  // memcpy between two buffers.
  method CopyInto(dst: array<char>, at: nat, src: array<char>, count: nat)
    requires dst != src && at + count <= dst.Length && count <= src.Length
    modifies dst
    ensures dst[..at + count] == old(dst[..at]) + src[..count]
  {
    forall i | 0 <= i < count {
      dst[at + i] := src[i];
    }
  }

  // snprintf at an offset: at most the room that is left, terminator included. The result is the
  // length it would have liked.
  method Snprintf(data: array<char>, offset: nat, text: string) returns (n: nat)
    requires offset <= data.Length
    modifies data
    ensures n == |text|
    ensures data[..offset] == old(data[..offset])
    ensures offset + |text| < data.Length ==> data[..offset + |text|] == old(data[..offset]) + text
    ensures offset + |text| < data.Length ==> data[offset + |text|] == '\0'
    ensures offset < data.Length <= offset + |text| ==>
              data[..] == old(data[..offset]) + text[..data.Length - offset - 1] + ['\0']
  {
    if offset < data.Length {
      var room := data.Length - offset - 1;
      var k := if |text| < room then |text| else room;
      forall i | 0 <= i < k {
        data[offset + i] := text[i];
      }
      data[offset + k] := '\0';
    }
    n := |text|;
  }

  // An `unsigned long` returned as an `int`.
  function AsInt32(c: nat): int {
    var low := c % 0x1_0000_0000;
    if low < 0x8000_0000 then low else low - 0x1_0000_0000
  }

  lemma SmallAsInt32(c: nat)
    ensures c < 0x8000_0000 ==> AsInt32(c) == c
  {
  }

  lemma GrownReaches(c: nat, request: nat)
    ensures Grown(c, request) >= request && Grown(c, request) >= c
  {
  }

  function Max(a: nat, b: nat): nat { if a < b then b else a }

  // Growing for one request and then for another is growing for the larger.
  lemma {:induction false} GrownTwice(c: nat, a: nat, b: nat)
    ensures Grown(Grown(c, a), b) == Grown(c, Max(a, b))
    decreases if c < a then a - c + (if c < DEFAULT_BUFFER_SIZE then DEFAULT_BUFFER_SIZE else 0) else 0
  {
    if c < a {
      GrownTwice(if c < DEFAULT_BUFFER_SIZE then DEFAULT_BUFFER_SIZE else 2 * c, a, b);
    }
  }

  // ----- When the loop ends -----

  // The capacities that init_buffer and the loop itself produce: none yet, or 1024 doubled.
  function Doubled(k: nat): (c: nat)
    ensures c >= DEFAULT_BUFFER_SIZE
  {
    if k == 0 then DEFAULT_BUFFER_SIZE else 2 * Doubled(k - 1)
  }

  function Rounds(c: nat, n: nat): nat {
    if n == 0 then c else NextCapacity(Rounds(c, n - 1))
  }

  lemma {:induction false} DoubledIsMonotone(k: nat, m: nat)
    requires k <= m
    ensures Doubled(k) <= Doubled(m)
  {
    if k < m {
      DoubledIsMonotone(k, m - 1);
    }
  }

  // 1024 doubled 53 times is half the address space.
  lemma HalfTheAddressSpace()
    ensures Doubled(53) == WORD / 2
  {
    assert Doubled(10) == 0x10_0000;
    assert Doubled(20) == 0x4000_0000;
    assert Doubled(30) == 0x100_0000_0000;
    assert Doubled(40) == 0x4_0000_0000_0000;
    assert Doubled(50) == 0x1000_0000_0000_0000;
  }

  ghost predicate Usual(c: nat) {
    c == 0 || exists k: nat :: k <= 53 && c == Doubled(k)
  }

  lemma NextIs(c: nat)
    requires DEFAULT_BUFFER_SIZE <= c <= WORD / 2
    ensures NextCapacity(c) == if c == WORD / 2 then 0 else 2 * c
  {
  }

  // From such a capacity every round gives such a capacity again, up to half the address
  // space; the next doubling overflows to zero and the sequence starts over.
  lemma UsualNext(c: nat)
    requires Usual(c)
    ensures Usual(NextCapacity(c)) && c <= WORD / 2
  {
    HalfTheAddressSpace();
    if c == 0 {
      assert NextCapacity(c) == Doubled(0);
    } else {
      var k: nat :| k <= 53 && c == Doubled(k);
      DoubledIsMonotone(k, 53);
      NextIs(c);
      hide NextCapacity;
      if k < 53 {
        DoubledIsMonotone(k + 1, 53);
        assert Doubled(k + 1) == 2 * c;
        assert Usual(2 * c);
      }
    }
  }

  lemma {:induction false} RoundsStayUsual(c: nat, n: nat)
    requires Usual(c)
    ensures Usual(Rounds(c, n)) && Rounds(c, n) <= WORD / 2
  {
    if n > 0 {
      RoundsStayUsual(c, n - 1);
      UsualNext(Rounds(c, n - 1));
    }
    UsualNext(Rounds(c, n));
  }

  lemma {:induction false} RoundsReach(c: nat, request: nat)
    requires request <= WORD / 2 && c < WORD
    ensures exists n: nat :: Rounds(c, n) >= request
    decreases Grown(c, request) - c
  {
    if c >= request {
      assert Rounds(c, 0) >= request;
    } else {
      RoundsReach(NextCapacity(c), request);
      var n: nat :| Rounds(NextCapacity(c), n) >= request;
      RoundsShift(c, n);
      assert Rounds(c, n + 1) >= request;
    }
  }

  lemma {:induction false} RoundsShift(c: nat, n: nat)
    ensures Rounds(c, n + 1) == Rounds(NextCapacity(c), n)
  {
    if n > 0 {
      RoundsShift(c, n - 1);
    } else {
      assert Rounds(c, 0) == c;
    }
  }

  // ensure_capacity_ terminates exactly for requests of up to half the address space.
  lemma LoopEndsUpToHalf(c: nat, request: nat)
    requires Usual(c)
    ensures (exists n: nat :: Rounds(c, n) >= request) <==> request <= WORD / 2
  {
    UsualNext(c);
    if request <= WORD / 2 {
      RoundsReach(c, request);
    } else {
      forall n: nat ensures Rounds(c, n) < request {
        RoundsStayUsual(c, n);
      }
    }
  }

  // ----- The cost of growing -----

  // The capacities allocated when a buffer of capacity c serves these requests in turn.
  function Allocations(c: nat, requests: seq<nat>): seq<nat>
    decreases |requests|
  {
    if requests == [] then []
    else
      var g := Grown(c, requests[0]);
      (if g != c then [g] else []) + Allocations(g, requests[1..])
  }

  function Sum(s: seq<nat>): nat {
    if s == [] then 0 else s[0] + Sum(s[1..])
  }

  // However many times a buffer grows, all it ever allocated is less than twice its last capacity.
  lemma {:induction false} GrowthIsAmortized(c: nat, requests: seq<nat>)
    ensures var a := Allocations(c, requests);
            a != [] ==>
              && a[0] >= DEFAULT_BUFFER_SIZE && (c >= DEFAULT_BUFFER_SIZE ==> a[0] >= 2 * c)
              && Sum(a) + a[0] <= 2 * a[|a| - 1]
    decreases |requests|
  {
    if requests != [] {
      var g := Grown(c, requests[0]);
      GrowthIsAmortized(g, requests[1..]);
      var a, rest := Allocations(c, requests), Allocations(g, requests[1..]);
      if g != c {
        assert a == [g] + rest && a[1..] == rest;
        if rest == [] {
          assert Sum(a) == g;
        } else {
          assert a[|a| - 1] == rest[|rest| - 1];
        }
      } else {
        assert a == rest;
      }
    }
  }
}
