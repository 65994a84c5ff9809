/** str_replace: replacement of a word in a text, one occurrence after another.

    The cursor of the original is `offset += hit_offset + replacement_length`, with an offset
    that is absolute already, so from the second hit on it jumps too far. Both the cursor as it
    is and the replacement it was meant to be are given here, with the exact conditions under
    which they agree and under which every search starts inside the text. */
module Replacing {
  import opened HttpTypes

  const MAX_OCCURRENCES: nat := 10

  predicate OccursAt(s: string, needle: string, i: nat) {
    i + |needle| <= |s| && s[i..i + |needle|] == needle
  }

  // strstr from an offset inside the text: the first occurrence at or after it.
  function Find(s: string, needle: string, from: nat): (r: Option<nat>)
    requires from <= |s|
    ensures r.Some? ==> from <= r.value && r.value + |needle| <= |s|
    decreases |s| - from
  {
    if OccursAt(s, needle, from) then Some(from)
    else if from == |s| then None
    else Find(s, needle, from + 1)
  }

  // It is the least one.
  lemma {:induction false} FindIsFirst(s: string, needle: string, from: nat)
    requires from <= |s|
    ensures match Find(s, needle, from)
            case Some(h) => OccursAt(s, needle, h) && forall i :: from <= i < h ==> !OccursAt(s, needle, i)
            case None => forall i :: from <= i ==> !OccursAt(s, needle, i)
    decreases |s| - from
  {
    if from < |s| && !OccursAt(s, needle, from) {
      FindIsFirst(s, needle, from + 1);
    }
  }

  // There is only one such.
  lemma FindIs(s: string, needle: string, from: nat, h: nat)
    requires from <= h && OccursAt(s, needle, h) && forall i :: from <= i < h ==> !OccursAt(s, needle, i)
    ensures Find(s, needle, from) == Some(h)
  {
    FindIsFirst(s, needle, from);
  }

  lemma FindIsNone(s: string, needle: string, from: nat)
    requires from <= |s| && forall i :: from <= i ==> !OccursAt(s, needle, i)
    ensures Find(s, needle, from) == None
  {
    FindIsFirst(s, needle, from);
  }

  // The text after one replacement.
  function Spliced(s: string, h: nat, m: nat, replacement: string): string
    requires h + m <= |s|
  {
    s[..h] + replacement + s[h + m..]
  }

  // What the loop does, with its own cursor: the text when it ends, or when a search starts behind
  // the terminator. What such a search reads is not part of the text.
  function InPlace(s: string, needle: string, replacement: string, offset: nat, n: nat): (r: string)
    ensures |r| <= |s| + n * |replacement|
    decreases n
  {
    if n == 0 || offset > |s| || Find(s, needle, offset) == None then s
    else
      var h := Find(s, needle, offset).value;
      InPlace(Spliced(s, h, |needle|, replacement), needle, replacement, offset + h + |replacement|, n - 1)
  }

  // Where the first search behind the text starts, if one does.
  function StrayAt(s: string, needle: string, replacement: string, offset: nat, n: nat): Option<nat>
    decreases n
  {
    if n == 0 then None
    else if offset > |s| then Some(offset)
    else match Find(s, needle, offset)
      case None => None
      case Some(h) =>
        StrayAt(Spliced(s, h, |needle|, replacement), needle, replacement, offset + h + |replacement|, n - 1)
  }

  // Left-to-right replacement of the first n occurrences. What was put in is never looked at again.
  function Replaced(s: string, needle: string, replacement: string, n: nat): string
    decreases n
  {
    if n == 0 || Find(s, needle, 0) == None then s
    else
      var h := Find(s, needle, 0).value;
      s[..h] + replacement + Replaced(s[h + |needle|..], needle, replacement, n - 1)
  }

  // Where the loop finds its hits, each in the text as it is by then.
  function HitsInPlace(s: string, needle: string, replacement: string, offset: nat, n: nat): seq<nat>
    decreases n
  {
    if n == 0 || offset > |s| || Find(s, needle, offset) == None then []
    else
      var h := Find(s, needle, offset).value;
      [h] + HitsInPlace(Spliced(s, h, |needle|, replacement), needle, replacement, offset + h + |replacement|, n - 1)
  }

  // Where they should be, when `done` characters stand before what is left to do.
  function Hits(rest: string, needle: string, replacement: string, done: nat, n: nat): seq<nat>
    decreases n
  {
    if n == 0 || Find(rest, needle, 0) == None then []
    else
      var h := Find(rest, needle, 0).value;
      [done + h] + Hits(rest[h + |needle|..], needle, replacement, done + h + |replacement|, n - 1)
  }

  // No occurrence begins where the cursor jumps over it.
  predicate NoneSkipped(rest: string, needle: string, replacement: string, done: nat, offset: nat, n: nat)
    decreases n
  {
    n == 0 || Find(rest, needle, 0) == None ||
    var h := Find(rest, needle, 0).value;
    && done + h >= offset
    && NoneSkipped(rest[h + |needle|..], needle, replacement, done + h + |replacement|,
        offset + done + h + |replacement|, n - 1)
  }

  // ----- Searching behind a prefix -----

  lemma OccursBehind(prefix: string, rest: string, needle: string, i: nat)
    requires i >= |prefix|
    ensures OccursAt(prefix + rest, needle, i) <==> OccursAt(rest, needle, i - |prefix|)
  {
    if i + |needle| <= |prefix| + |rest| {
      assert (prefix + rest)[i..i + |needle|] == rest[i - |prefix|..i - |prefix| + |needle|];
    }
  }

  lemma FindBehind(prefix: string, rest: string, needle: string, offset: nat)
    requires |prefix| <= offset <= |prefix| + |rest|
    ensures Find(prefix + rest, needle, offset) ==
            match Find(rest, needle, offset - |prefix|) case None => None case Some(h) => Some(|prefix| + h)
  {
    hide Find, OccursAt;
    FindIsFirst(rest, needle, offset - |prefix|);
    forall i | i >= offset ensures OccursAt(prefix + rest, needle, i) <==> OccursAt(rest, needle, i - |prefix|) {
      OccursBehind(prefix, rest, needle, i);
    }
    var there := Find(rest, needle, offset - |prefix|);
    if there.Some? {
      FindIs(prefix + rest, needle, offset, |prefix| + there.value);
    } else {
      FindIsNone(prefix + rest, needle, offset);
    }
  }

  // A cursor that does not jump over the first occurrence finds it.
  lemma FindFirst(rest: string, needle: string, skip: nat)
    requires skip <= |rest|
    ensures Find(rest, needle, 0).Some? && skip <= Find(rest, needle, 0).value ==>
        Find(rest, needle, skip) == Find(rest, needle, 0)
    ensures Find(rest, needle, 0) == None ==> Find(rest, needle, skip) == None
  {
    FindIsFirst(rest, needle, 0);
    FindIsFirst(rest, needle, skip);
  }

  lemma Parts(a: string, b: string)
    ensures (a + b)[..|a|] == a && (a + b)[|a|..] == b
  {
  }

  // ----- When the cursor does what it should -----

  // The text `s` of which the first `done` characters were dealt with, `rest` was not, and the
  // cursor is at `offset`.
  ghost predicate Midway(s: string, done: nat, rest: string, offset: nat) {
    done <= |s| && s[done..] == rest && offset >= done
  }

  lemma FindMidway(s: string, done: nat, rest: string, offset: nat, needle: string)
    requires Midway(s, done, rest, offset) && offset <= |s|
    ensures Find(s, needle, offset) ==
            match Find(rest, needle, offset - done) case None => None case Some(h) => Some(done + h)
  {
    assert s == s[..done] + rest;
    FindBehind(s[..done], rest, needle, offset);
  }

  // One hit at the right place leads from one such situation to the next.
  lemma NextHit(s: string, done: nat, rest: string, offset: nat, needle: string, h: nat)
    requires Midway(s, done, rest, offset) && Find(rest, needle, 0) == Some(h) && done + h >= offset
    ensures offset <= |s| && Find(s, needle, offset) == Some(done + h)
  {
    hide Find, OccursAt;
    FindMidway(s, done, rest, offset, needle);
    FindFirst(rest, needle, offset - done);
  }

  lemma NextText(s: string, done: nat, rest: string, offset: nat, h: nat, m: nat, replacement: string)
    requires Midway(s, done, rest, offset) && h + m <= |rest|
    ensures var s' := Spliced(s, done + h, m, replacement);
            && Midway(s', done + h + |replacement|, rest[h + m..], offset + done + h + |replacement|)
            && s'[..done + h + |replacement|] == s[..done] + rest[..h] + replacement
  {
    assert s[..done + h] == s[..done] + rest[..h];
    assert s[done + h + m..] == rest[h + m..];
    Parts(s[..done + h] + replacement, rest[h + m..]);
  }

  lemma NoMoreHits(s: string, done: nat, rest: string, offset: nat, needle: string)
    requires Midway(s, done, rest, offset) && offset <= |s| && Find(rest, needle, 0) == None
    ensures Find(s, needle, offset) == None
  {
    FindMidway(s, done, rest, offset, needle);
    FindFirst(rest, needle, offset - done);
  }

  // A cursor that jumps over the first occurrence does not hit it.
  lemma Skipping(s: string, done: nat, rest: string, offset: nat, needle: string, replacement: string, n: nat)
    requires Midway(s, done, rest, offset) && n > 0 && Find(rest, needle, 0).Some?
    requires done + Find(rest, needle, 0).value < offset
    ensures HitsInPlace(s, needle, replacement, offset, n) != Hits(rest, needle, replacement, done, n)
  {
    assert Hits(rest, needle, replacement, done, n)[0] == done + Find(rest, needle, 0).value;
    if offset <= |s| && Find(s, needle, offset).Some? {
      assert HitsInPlace(s, needle, replacement, offset, n)[0] == Find(s, needle, offset).value;
    }
  }

  lemma ConsEqual(h: nat, a: seq<nat>, b: seq<nat>)
    ensures [h] + a == [h] + b <==> a == b
  {
    assert ([h] + a)[1..] == a && ([h] + b)[1..] == b;
  }

  lemma HitsInPlaceStep(s: string, needle: string, replacement: string, offset: nat, n: nat, h: nat)
    requires n > 0 && offset <= |s| && Find(s, needle, offset) == Some(h)
    ensures HitsInPlace(s, needle, replacement, offset, n) ==
            [h] + HitsInPlace(Spliced(s, h, |needle|, replacement), needle, replacement, offset + h + |replacement|,
                n - 1)
  {
  }

  // The loop makes the hits it should exactly when the cursor skips none.
  lemma {:induction false} CursorIsRightIff(
    s: string, done: nat, rest: string, offset: nat, needle: string, replacement: string, n: nat)
    requires Midway(s, done, rest, offset)
    ensures HitsInPlace(s, needle, replacement, offset, n) == Hits(rest, needle, replacement, done, n)
            <==> NoneSkipped(rest, needle, replacement, done, offset, n)
    decreases n
  {
    hide Find, OccursAt, Midway, Spliced;
    if n == 0 {
    } else if Find(rest, needle, 0) == None {
      if offset <= |s| {
        NoMoreHits(s, done, rest, offset, needle);
      }
    } else {
      var h := Find(rest, needle, 0).value;
      if done + h >= offset {
        NextHit(s, done, rest, offset, needle, h);
        NextText(s, done, rest, offset, h, |needle|, replacement);
        var s', rest' := Spliced(s, done + h, |needle|, replacement), rest[h + |needle|..];
        var done', offset' := done + h + |replacement|, offset + done + h + |replacement|;
        CursorIsRightIff(s', done', rest', offset', needle, replacement, n - 1);
        HitsInPlaceStep(s, needle, replacement, offset, n, done + h);
        assert offset + (done + h) + |replacement| == offset';
        ConsEqual(done + h, HitsInPlace(s', needle, replacement, offset', n - 1),
            Hits(rest', needle, replacement, done', n - 1));
        assert Hits(rest, needle, replacement, done, n) == [done + h] + Hits(rest', needle, replacement, done', n - 1);
        assert NoneSkipped(rest, needle, replacement, done, offset, n) <==>
            NoneSkipped(rest', needle, replacement, done', offset', n - 1);
      } else {
        Skipping(s, done, rest, offset, needle, replacement, n);
        assert !NoneSkipped(rest, needle, replacement, done, offset, n);
      }
    }
  }

  lemma InPlaceStep(s: string, needle: string, replacement: string, offset: nat, n: nat, h: nat)
    requires n > 0 && offset <= |s| && Find(s, needle, offset) == Some(h)
    ensures InPlace(s, needle, replacement, offset, n) ==
            InPlace(Spliced(s, h, |needle|, replacement), needle, replacement, offset + h + |replacement|, n - 1)
  {
  }

  lemma ReplacedStep(rest: string, needle: string, replacement: string, n: nat, h: nat)
    requires n > 0 && Find(rest, needle, 0) == Some(h)
    ensures Replaced(rest, needle, replacement, n) ==
            rest[..h] + replacement + Replaced(rest[h + |needle|..], needle, replacement, n - 1)
  {
  }

  lemma NothingLeft(
    s: string, done: nat, rest: string, offset: nat, needle: string, replacement: string, n: nat)
    requires Midway(s, done, rest, offset) && (n == 0 || Find(rest, needle, 0) == None)
    ensures InPlace(s, needle, replacement, offset, n) == s[..done] + Replaced(rest, needle, replacement, n)
  {
    hide Find, OccursAt, Spliced;
    if n > 0 && offset <= |s| {
      NoMoreHits(s, done, rest, offset, needle);
    }
    assert s == s[..done] + rest;
  }

  // And then it leaves the text it should.
  lemma {:induction false} TextIsRight(
    s: string, done: nat, rest: string, offset: nat, needle: string, replacement: string, n: nat)
    requires Midway(s, done, rest, offset) && NoneSkipped(rest, needle, replacement, done, offset, n)
    ensures InPlace(s, needle, replacement, offset, n) == s[..done] + Replaced(rest, needle, replacement, n)
    decreases n
  {
    hide Find, OccursAt, Spliced;
    if n == 0 || Find(rest, needle, 0) == None {
      NothingLeft(s, done, rest, offset, needle, replacement, n);
    } else {
      hide Midway;
      var h := Find(rest, needle, 0).value;
      NextHit(s, done, rest, offset, needle, h);
      InPlaceStep(s, needle, replacement, offset, n, done + h);
      ReplacedStep(rest, needle, replacement, n, h);
      NextText(s, done, rest, offset, h, |needle|, replacement);
      var s', rest' := Spliced(s, done + h, |needle|, replacement), rest[h + |needle|..];
      var done', offset' := done + h + |replacement|, offset + done + h + |replacement|;
      assert NoneSkipped(rest', needle, replacement, done', offset', n - 1);
      hide InPlace, Replaced, NoneSkipped;
      TextIsRight(s', done', rest', offset', needle, replacement, n - 1);
      Regroup(s[..done], rest[..h], replacement, Replaced(rest', needle, replacement, n - 1));
      assert offset + (done + h) + |replacement| == offset';
    }
  }

  lemma Regroup(a: string, b: string, c: string, d: string)
    ensures a + b + c + d == a + (b + c + d)
  {
  }

  // For a whole text: the hits are those they should be exactly when the cursor, at 0 and then
  // behind each hit, jumps over none of them.
  lemma ReplacementIsRightIff(s: string, needle: string, replacement: string, n: nat)
    ensures HitsInPlace(s, needle, replacement, 0, n) == Hits(s, needle, replacement, 0, n)
            <==> NoneSkipped(s, needle, replacement, 0, 0, n)
    ensures NoneSkipped(s, needle, replacement, 0, 0, n) ==>
              InPlace(s, needle, replacement, 0, n) == Replaced(s, needle, replacement, n)
  {
    CursorIsRightIff(s, 0, s, 0, needle, replacement, n);
    if NoneSkipped(s, needle, replacement, 0, 0, n) {
      TextIsRight(s, 0, s, 0, needle, replacement, n);
      NoPrefix(Replaced(s, needle, replacement, n));
      assert s[..0] == "";
    }
  }

  lemma NoPrefix(s: string)
    ensures "" + s == s
  {
  }

  // How many occurrences are replaced.
  function Count(rest: string, needle: string, n: nat): nat
    decreases n
  {
    if n == 0 || Find(rest, needle, 0) == None then 0
    else 1 + Count(rest[Find(rest, needle, 0).value + |needle|..], needle, n - 1)
  }

  // The second hit is never skipped, so a word that occurs at most twice is replaced throughout.
  lemma TwiceIsFine(s: string, needle: string, replacement: string, n: nat)
    requires Count(s, needle, 3) <= 2
    ensures NoneSkipped(s, needle, replacement, 0, 0, n)
    ensures InPlace(s, needle, replacement, 0, n) == Replaced(s, needle, replacement, n)
  {
    hide Find, OccursAt;
    ReplacementIsRightIff(s, needle, replacement, n);
    if n > 0 && Find(s, needle, 0).Some? {
      var h := Find(s, needle, 0).value;
      var rest := s[h + |needle|..];
      assert Count(s, needle, 3) == 1 + Count(rest, needle, 2);
      if n > 1 && Find(rest, needle, 0).Some? {
        var h' := Find(rest, needle, 0).value;
        var last := rest[h' + |needle|..];
        assert Count(last, needle, 1) == 0;
        assert Find(last, needle, 0) == None;
        assert NoneSkipped(last, needle, replacement, h + |replacement| + h' + |replacement|,
                           h + |replacement| + h + |replacement| + h' + |replacement|, n - 2);
      }
      assert NoneSkipped(rest, needle, replacement, h + |replacement|, h + |replacement|, n - 1);
    }
  }

  // A third one may be: the cursor stands behind it after the second.
  lemma ThriceIsNot()
    ensures InPlace("ababab", "ab", "c", 0, MAX_OCCURRENCES) == "ccab"
    ensures Replaced("ababab", "ab", "c", MAX_OCCURRENCES) == "ccc"
    ensures !NoneSkipped("ababab", "ab", "c", 0, 0, MAX_OCCURRENCES)
  {
    ThriceInPlace();
    ThriceMeant();
    assert HitsInPlace("ababab", "ab", "c", 0, MAX_OCCURRENCES) == [0, 1];
    ReplacementIsRightIff("ababab", "ab", "c", MAX_OCCURRENCES);
  }

  lemma ThriceFoundInPlace()
    ensures Find("ababab", "ab", 0) == Some(0) && Find("cabab", "ab", 1) == Some(1) && Find("ccab", "ab", 3) == None
    ensures Spliced("ababab", 0, 2, "c") == "cabab" && Spliced("cabab", 1, 2, "c") == "ccab"
  {
    assert OccursAt("ababab", "ab", 0) && OccursAt("cabab", "ab", 1);
  }

  lemma ThriceInPlace()
    ensures InPlace("ababab", "ab", "c", 0, MAX_OCCURRENCES) == "ccab"
    ensures HitsInPlace("ababab", "ab", "c", 0, MAX_OCCURRENCES) == [0, 1]
  {
    hide Find, OccursAt, Spliced;
    ThriceFoundInPlace();
    assert InPlace("cabab", "ab", "c", 1, 9) == InPlace("ccab", "ab", "c", 3, 8) == "ccab";
    assert HitsInPlace("ccab", "ab", "c", 3, 8) == [];
    assert HitsInPlace("cabab", "ab", "c", 1, 9) == [1];
  }

  lemma ThriceFound()
    ensures Find("ababab", "ab", 0) == Some(0) && Find("abab", "ab", 0) == Some(0) && Find("ab", "ab", 0) == Some(0)
    ensures Find("", "ab", 0) == None
    ensures "ababab"[2..] == "abab" && "abab"[2..] == "ab" && "ab"[2..] == ""
  {
    assert OccursAt("ababab", "ab", 0) && OccursAt("abab", "ab", 0) && OccursAt("ab", "ab", 0);
  }

  lemma ThriceMeant()
    ensures Replaced("ababab", "ab", "c", MAX_OCCURRENCES) == "ccc"
    ensures |Hits("ababab", "ab", "c", 0, MAX_OCCURRENCES)| == 3
  {
    hide Find, OccursAt;
    ThriceFound();
    assert Replaced("ab", "ab", "c", 8) == "c" && |Hits("ab", "ab", "c", 2, 8)| == 1;
    assert Replaced("abab", "ab", "c", 9) == "cc" && |Hits("abab", "ab", "c", 1, 9)| == 2;
  }

  // ----- When every search starts inside the text -----

  // A search behind the text starts behind what is then the text, and nothing is done after it.
  lemma {:induction false} StrayIsBehind(s: string, needle: string, replacement: string, offset: nat, n: nat)
    ensures var o := StrayAt(s, needle, replacement, offset, n);
            o.Some? ==> |InPlace(s, needle, replacement, offset, n)| < o.value
    decreases n
  {
    if n > 0 && offset <= |s| && Find(s, needle, offset).Some? {
      var h := Find(s, needle, offset).value;
      hide Find, OccursAt;
      StrayIsBehind(Spliced(s, h, |needle|, replacement), needle, replacement, offset + h + |replacement|, n - 1);
    }
  }

  // A replacement that is no shorter than the word never makes the text shorter.
  lemma {:induction false} InPlaceGrows(s: string, needle: string, replacement: string, offset: nat, n: nat)
    requires |needle| <= |replacement|
    ensures |s| <= |InPlace(s, needle, replacement, offset, n)|
    decreases n
  {
    if n > 0 && offset <= |s| && Find(s, needle, offset).Some? {
      var h := Find(s, needle, offset).value;
      hide Find, OccursAt;
      InPlaceGrows(Spliced(s, h, |needle|, replacement), needle, replacement, offset + h + |replacement|, n - 1);
    }
  }

  // The same in terms of what was not dealt with yet: `done` characters stand before it, and the
  // cursor is `skip` characters into it.
  function StrayIn(rest: string, needle: string, replacement: string, done: nat, skip: nat, n: nat): Option<nat>
    decreases n
  {
    if n == 0 then None
    else if skip > |rest| then Some(done + skip)
    else match Find(rest, needle, skip)
      case None => None
      case Some(h) =>
        StrayIn(rest[h + |needle|..], needle, replacement, done + h + |replacement|, done + skip, n - 1)
  }

  lemma {:induction false} StrayMidway(
    s: string, done: nat, rest: string, offset: nat, needle: string, replacement: string, n: nat)
    requires Midway(s, done, rest, offset)
    ensures StrayAt(s, needle, replacement, offset, n) == StrayIn(rest, needle, replacement, done, offset - done, n)
    decreases n
  {
    hide Find, OccursAt, Spliced;
    if n > 0 && offset <= |s| {
      FindMidway(s, done, rest, offset, needle);
      if Find(rest, needle, offset - done).Some? {
        var h := Find(rest, needle, offset - done).value;
        NextText(s, done, rest, offset, h, |needle|, replacement);
        var done', offset' := done + h + |replacement|, offset + done + h + |replacement|;
        hide Midway;
        StrayMidway(Spliced(s, done + h, |needle|, replacement), done', rest[h + |needle|..], offset', needle,
            replacement, n - 1);
        assert offset + (done + h) + |replacement| == offset' && offset' - done' == offset;
      }
    }
  }

  // For a whole text.
  lemma StrayIsInOriginal(s: string, needle: string, replacement: string, n: nat)
    ensures StrayAt(s, needle, replacement, 0, n) == StrayIn(s, needle, replacement, 0, 0, n)
  {
    StrayMidway(s, 0, s, 0, needle, replacement, n);
  }

  // Where the first two occurrences are, each in the text as it was.
  ghost predicate OccursOnce(s: string, needle: string, h: nat) {
    h + |needle| <= |s| && Find(s, needle, 0) == Some(h) && Find(s[h + |needle|..], needle, 0) == None
  }

  ghost predicate OccursTwice(s: string, needle: string, h1: nat, h2: nat) {
    && h1 + |needle| <= h2 && h2 + |needle| <= |s|
    && Find(s, needle, 0) == Some(h1)
    && Find(s[h1 + |needle|..], needle, 0) == Some(h2 - h1 - |needle|)
    && Find(s[h2 + |needle|..], needle, 0) == None
  }

  lemma CountIsOnce(s: string, needle: string, n: nat)
    requires Count(s, needle, n) == 1 && n >= 2
    ensures exists h: nat :: OccursOnce(s, needle, h)
  {
    hide Find, OccursAt;
    var h := Find(s, needle, 0).value;
    assert Count(s[h + |needle|..], needle, n - 1) == 0;
    assert OccursOnce(s, needle, h);
  }

  // A word that occurs once is searched for inside the text only.
  lemma OnceIsInside(s: string, needle: string, replacement: string, h: nat, n: nat)
    requires OccursOnce(s, needle, h)
    ensures StrayAt(s, needle, replacement, 0, n) == None
  {
    hide Find, OccursAt;
    StrayIsInOriginal(s, needle, replacement, n);
    if n > 0 {
      assert StrayIn(s[h + |needle|..], needle, replacement, h + |replacement|, 0, n - 1) == None;
    }
  }

  // For a word that occurs twice there is a third search. It starts inside the text if and only if
  // the first occurrence and the replacement are together no longer than what follows the second
  // occurrence; otherwise that far behind.
  lemma TwiceIsInsideIff(s: string, needle: string, replacement: string, h1: nat, h2: nat, n: nat)
    requires OccursTwice(s, needle, h1, h2) && n >= 3
    ensures StrayAt(s, needle, replacement, 0, n) ==
            if h1 + h2 + |needle| + |replacement| <= |s| then None
            else Some(h1 + h2 - |needle| + 3 * |replacement|)
  {
    hide Find, OccursAt;
    var r := |replacement|;
    StrayIsInOriginal(s, needle, replacement, n);
    var rest1, rest2 := s[h1 + |needle|..], s[h2 + |needle|..];
    var h := h2 - h1 - |needle|;
    assert rest1[h + |needle|..] == rest2;
    assert StrayIn(s, needle, replacement, 0, 0, n) == StrayIn(rest1, needle, replacement, h1 + r, 0, n - 1);
    assert StrayIn(rest1, needle, replacement, h1 + r, 0, n - 1) ==
           StrayIn(rest2, needle, replacement, h1 + r + h + r, h1 + r, n - 2);
    if h1 + r <= |rest2| {
      FindFirst(rest2, needle, h1 + r);
    }
  }
}
