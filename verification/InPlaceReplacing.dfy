/** str_replace in the buffer: the loop over the bytes, across reallocations, and what becomes of
    it when a search starts behind the terminator. */
module InPlaceReplacing {
  import opened HttpTypes
  import opened Buffers
  import opened Replacing

  // The buffer holds a C string: no terminator below `count`, and one there.
  ghost predicate IsCString(b: Buffer)
    reads b, b.data
  {
    b.Valid() && b.data != null && b.count < b.capacity && b.data[b.count] == '\0' && NoNul(b.Text())
  }

  // ----- Behind the terminator -----

  // The first terminator at or after an offset.
  function Terminator(memory: string, from: nat): (r: Option<nat>)
    ensures r.Some? ==> from <= r.value < |memory| && memory[r.value] == '\0' && NoNul(memory[from..r.value])
    ensures r == None ==> forall i :: from <= i < |memory| ==> memory[i] != '\0'
    decreases |memory| - from
  {
    if from >= |memory| then None
    else if memory[from] == '\0' then Some(from)
    else
      var r := Terminator(memory, from + 1);
      assert r.Some? ==> memory[from..r.value] == [memory[from]] + memory[from + 1..r.value];
      r
  }

  lemma {:induction false} TerminatorIs(memory: string, from: nat, j: nat)
    requires from <= j < |memory| && memory[j] == '\0' && forall k :: from <= k < j ==> memory[k] != '\0'
    ensures Terminator(memory, from) == Some(j)
    decreases j - from
  {
    if from < j {
      TerminatorIs(memory, from + 1, j);
    }
  }

  lemma {:induction false} TerminatorIsFirst(memory: string, from: nat, j: nat)
    requires from <= j < |memory| && memory[j] == '\0'
    ensures Terminator(memory, from).Some? && Terminator(memory, from).value <= j
    decreases j - from
  {
    if memory[from] != '\0' {
      TerminatorIsFirst(memory, from + 1, j);
    }
  }

  // strstr from an offset behind the text: it is defined and finds nothing when it starts in the
  // allocation, meets a terminator there, and no occurrence before. A hit behind the text would
  // have the length of what follows it underflow.
  predicate Quiet(memory: string, needle: string, from: nat) {
    match Terminator(memory, from)
    case None => false
    case Some(z) => Find(memory[from..z], needle, 0) == None
  }

  predicate HasNul(memory: string, from: nat, m: nat)
    requires from + m <= |memory|
  {
    exists j :: from <= j < from + m && memory[j] == '\0'
  }

  // From `count` on, no m bytes in a row are without a terminator, and the last byte is one. So it
  // is behind a text in a zeroed buffer.
  ghost predicate Clean(memory: string, count: nat, m: nat) {
    && memory != "" && memory[|memory| - 1] == '\0'
    && forall i :: count <= i && i + m <= |memory| ==> HasNul(memory, i, m)
  }

  lemma ZeroedIsClean(memory: string, count: nat, m: nat)
    requires 0 < m && count < |memory| && forall i :: count <= i < |memory| ==> memory[i] == '\0'
    ensures Clean(memory, count, m)
  {
    forall i | count <= i && i + m <= |memory| ensures HasNul(memory, i, m) {
      assert memory[i] == '\0';
    }
  }

  // In clean memory a search behind the text is quiet exactly when it starts in the allocation.
  lemma QuietIff(memory: string, needle: string, count: nat, from: nat)
    requires Clean(memory, count, |needle|) && NoNul(needle) && needle != "" && count <= from
    ensures Quiet(memory, needle, from) <==> from < |memory|
  {
    if from < |memory| {
      var z := Terminator(memory, from).value;
      if from + |needle| <= |memory| {
        assert HasNul(memory, from, |needle|);
        var j :| from <= j < from + |needle| && memory[j] == '\0';
        TerminatorIsFirst(memory, from, j);
      }
      assert |memory[from..z]| < |needle|;
      FindIsNone(memory[from..z], needle, 0);
    }
  }

  // A replacement leaves the memory clean: when the text shrinks, what is left of it behind the new
  // terminator is shorter than the word.
  lemma StaysClean(before: string, count: nat, after: string, count': nat, m: nat)
    requires Clean(before, count, m) && |after| == |before| && count < |before| && count' < |after|
    requires count <= count' + m
    requires before[count] == '\0' && after[count'] == '\0' && 0 < m
    requires forall i :: count' < i < |after| ==> after[i] == before[i]
    ensures Clean(after, count', m)
  {
    forall i | count' <= i && i + m <= |after| ensures HasNul(after, i, m) {
      if i == count' {
        assert after[i] == '\0';
      } else if i <= count {
        assert after[count] == '\0';
      } else {
        assert HasNul(before, i, m);
        var j :| i <= j < i + m && before[j] == '\0';
        assert after[j] == '\0';
      }
    }
  }

  // ----- The loop -----

  lemma SplicedHasNoNul(s: string, h: nat, m: nat, replacement: string)
    requires h + m <= |s| && NoNul(s) && NoNul(replacement)
    ensures NoNul(Spliced(s, h, m, replacement)) && |Spliced(s, h, m, replacement)| == |s| - m + |replacement|
  {
  }

  // One replacement: everything behind the hit moves by the difference in length, then the new
  // word and the terminator are written, and nothing behind it.
  method Splice(target: Buffer, hit: nat, m: nat, replacement: string)
    requires IsCString(target) && hit + m <= target.count && target.count - m + |replacement| < target.capacity
    requires NoNul(replacement)
    modifies target, target.data
    ensures IsCString(target) && target.data == old(target.data) && target.capacity == old(target.capacity)
    ensures target.Text() == Spliced(old(target.Text()), hit, m, replacement)
    ensures target.count == old(target.count) - m + |replacement|
    ensures forall i :: target.count < i < target.data.Length ==> target.data[i] == old(target.data[i])
  {
    ghost var s := target.Text();
    SplicedHasNoNul(s, hit, m, replacement);
    SpliceBytes(target.data, hit, m, target.count, replacement);
    target.count := target.count - m + |replacement|;
    assert target.Text() == Spliced(s, hit, m, replacement);
  }

  method SpliceBytes(data: array<char>, hit: nat, m: nat, count: nat, replacement: string)
    requires hit + m <= count < data.Length && count - m + |replacement| < data.Length
    modifies data
    ensures var end := count - m + |replacement|;
            && data[..end] == Spliced(old(data[..count]), hit, m, replacement)
            && data[end] == '\0'
            && forall i :: end < i < data.Length ==> data[i] == old(data[i])
  {
    var r, tail := |replacement|, count - (hit + m);
    ghost var before := data[..];
    MoveTail(data, hit + r, hit + m, tail);
    CopyString(data, hit, replacement);
    data[count - m + r] := '\0';
    assert data[..hit] == before[..hit] && data[hit..hit + r] == replacement;
    assert data[hit + r..count - m + r] == before[hit + m..count];
    hide Spliced;
    Glue(before, data[..], hit, m, count, replacement);
    assert data[..][..hit] == data[..hit];
  }

  lemma Glue(before: string, after: string, hit: nat, m: nat, count: nat, replacement: string)
    requires hit + m <= count <= |before| && count - m + |replacement| <= |after| && hit <= |after|
    requires after[..hit] == before[..hit] && after[hit..hit + |replacement|] == replacement
    requires after[hit + |replacement|..count - m + |replacement|] == before[hit + m..count]
    ensures after[..count - m + |replacement|] == Spliced(before[..count], hit, m, replacement)
  {
  }

  method MoveTail(data: array<char>, dst: nat, src: nat, n: nat)
    requires dst + n <= data.Length && src + n <= data.Length
    modifies data
    ensures forall i :: 0 <= i < dst ==> data[i] == old(data[i])
    ensures data[dst..dst + n] == old(data[src..src + n])
    ensures forall i :: dst + n <= i < data.Length ==> data[i] == old(data[i])
  {
    ghost var before := data[..];
    Memmove(data, dst, src, n);
    assert data[..] == before[..dst] + before[src..src + n] + before[dst + n..];
  }

  // memcpy of a string.
  method CopyString(data: array<char>, at: nat, text: string)
    requires at + |text| <= data.Length
    modifies data
    ensures data[at..at + |text|] == text
    ensures forall i :: 0 <= i < data.Length && !(at <= i < at + |text|) ==> data[i] == old(data[i])
  {
    forall i | 0 <= i < |text| {
      data[at + i] := text[i];
    }
  }

  // One round of the loop: room first, when the text does not shrink, and then the replacement.
  method ReplaceAt(target: Buffer, hit: nat, needle: string, replacement: string)
    requires IsCString(target) && hit + |needle| <= target.count && needle != "" && NoNul(replacement)
    requires target.capacity < 0x8000_0000 && 2 * (target.count + |replacement| + 1) <= 0x8000_0000
    modifies target, target.data
    ensures IsCString(target) && target.capacity < 0x8000_0000 && target.capacity >= old(target.capacity)
    ensures target.data == old(target.data) || fresh(target.data)
    ensures target.Text() == Spliced(old(target.Text()), hit, |needle|, replacement)
    ensures target.count == old(target.count) - |needle| + |replacement|
    ensures target.count < old(target.capacity) ==> target.capacity == old(target.capacity)
    ensures target.capacity == old(target.capacity) && Clean(old(target.data[..]), old(target.count), |needle|) ==>
              Clean(target.data[..], target.count, |needle|)
  {
    hide Spliced, NoNul;
    var diff := |replacement| - |needle|;
    if diff >= 0 {
      Reserve(target, target.count + diff + 1);
    }
    ghost var before, count := target.data[..], target.count;
    Splice(target, hit, |needle|, replacement);
    if Clean(before, count, |needle|) {
      StaysClean(before, count, target.data[..], target.count, |needle|);
    }
  }

  // ENSURE_CAPACITY with a result that is an `int` above zero.
  method Reserve(target: Buffer, request: nat)
    requires IsCString(target) && target.capacity < 0x8000_0000 && 2 * request <= 0x8000_0000
    modifies target
    ensures IsCString(target) && target.count == old(target.count) && target.Text() == old(target.Text())
    ensures request <= target.capacity < 0x8000_0000 && target.capacity >= old(target.capacity)
    ensures request <= old(target.capacity) ==> target.capacity == old(target.capacity)
    ensures if target.capacity == old(target.capacity) then target.data == old(target.data) else fresh(target.data)
  {
    var grown := target.EnsureCapacity(request, true);
    assert grown > 0;
  }

  lemma RoomForAll(count: nat, occurrences: nat, r: nat)
    requires occurrences < 10
    ensures count + occurrences * r + r == count + (occurrences + 1) * r <= count + 10 * r
  {
    assert (occurrences + 1) * r <= 10 * r;
  }

  lemma LoopGoesOn(s: string, needle: string, replacement: string, offset: nat, n: nat, h: nat)
    requires n > 0 && offset <= |s| && Find(s, needle, offset) == Some(h)
    ensures var s', offset' := Spliced(s, h, |needle|, replacement), offset + h + |replacement|;
            && InPlace(s, needle, replacement, offset, n) == InPlace(s', needle, replacement, offset', n - 1)
            && StrayAt(s, needle, replacement, offset, n) == StrayAt(s', needle, replacement, offset', n - 1)
  {
  }

  lemma LoopEnds(s: string, needle: string, replacement: string, offset: nat, n: nat)
    requires n == 0 || offset > |s| || Find(s, needle, offset) == None
    ensures InPlace(s, needle, replacement, offset, n) == s
    ensures StrayAt(s, needle, replacement, offset, n) == if n > 0 && offset > |s| then Some(offset) else None
  {
  }

  // str_replace. The word must occur at least once, as the function asserts; the sizes must leave
  // the capacity representable as an `int`, and realloc must succeed. The result says whether C
  // defines the outcome: it does unless a search that starts behind the text is not quiet.
  method StrReplace(target: Buffer, needle: string, replacement: string) returns (ok: bool)
    requires IsCString(target) && Find(target.Text(), needle, 0).Some? && needle != "" && NoNul(replacement)
    requires target.capacity < 0x8000_0000 && 2 * (target.count + 10 * |replacement| + 1) <= 0x8000_0000
    modifies target, target.data
    ensures IsCString(target) && target.capacity < 0x8000_0000
    ensures target.data == old(target.data) || fresh(target.data)
    ensures target.Text() == InPlace(old(target.Text()), needle, replacement, 0, MAX_OCCURRENCES)
    ensures ok <==>
            match StrayAt(old(target.Text()), needle, replacement, 0, MAX_OCCURRENCES)
            case None => true
            case Some(o) => Quiet(target.data[..], needle, o)
    ensures target.capacity == old(target.capacity) && Clean(old(target.data[..]), old(target.count), |needle|) ==>
              Clean(target.data[..], target.count, |needle|)
    ensures |InPlace(old(target.Text()), needle, replacement, 0, MAX_OCCURRENCES)| < old(target.capacity) ==>
              target.capacity == old(target.capacity)
  {
    hide Find, OccursAt, Spliced, NoNul, Quiet, Clean, InPlace, StrayAt;
    ghost var s, bytes := target.Text(), target.data[..];
    var offset: nat, occurrences: nat := 0, 0;
    ok := true;
    while occurrences < 10
      invariant occurrences <= 10 && IsCString(target) && target.capacity < 0x8000_0000
      invariant target.capacity >= old(target.capacity)
      invariant |InPlace(s, needle, replacement, 0, 10)| < old(target.capacity) ==>
          target.capacity == old(target.capacity)
      invariant target.data == old(target.data) || fresh(target.data)
      invariant target.count <= |s| + occurrences * |replacement|
      invariant InPlace(target.Text(), needle, replacement, offset, 10 - occurrences) ==
          InPlace(s, needle, replacement, 0, 10)
      invariant StrayAt(target.Text(), needle, replacement, offset, 10 - occurrences) ==
          StrayAt(s, needle, replacement, 0, 10)
      invariant target.capacity == old(target.capacity) && Clean(bytes, |s|, |needle|) ==>
                  Clean(target.data[..], target.count, |needle|)
    {
      if offset > target.count {
        LoopEnds(target.Text(), needle, replacement, offset, 10 - occurrences);
        ok := Quiet(target.data[..], needle, offset);
        break;
      }
      var hit := Find(target.data[..target.count], needle, offset);
      if hit == None {
        LoopEnds(target.Text(), needle, replacement, offset, 10 - occurrences);
        break;
      }
      LoopGoesOn(target.Text(), needle, replacement, offset, 10 - occurrences, hit.value);
      RoomForAll(|s|, occurrences, |replacement|);
      ReplaceAt(target, hit.value, needle, replacement);
      offset := offset + hit.value + |replacement|;
      if |needle| <= |replacement| {
        InPlaceGrows(target.Text(), needle, replacement, offset, 9 - occurrences);
      }
      occurrences := occurrences + 1;
    }
    if occurrences == 10 {
      LoopEnds(target.Text(), needle, replacement, offset, 0);
    }
  }
}
