/** The pages that are filled by one str_replace after another. */
module Templates {
  import opened HttpTypes
  import opened Buffers
  import opened Replacing

  datatype Token = Lit(text: string) | Hole(name: string)

  // What placeholder names are made of.
  predicate NameChar(c: char) { 'A' <= c <= 'Z' || c == '_' }

  predicate IsName(name: string) { forall i :: 0 <= i < |name| ==> NameChar(name[i]) }

  function Needle(name: string): (s: string)
    ensures |s| == |name| + 2
  {
    "%" + name + "%"
  }

  function Shown(t: Token): string {
    match t case Lit(text) => text case Hole(name) => Needle(name)
  }

  // The page as it stands in the buffer.
  function Flat(ts: seq<Token>): string {
    if ts == [] then "" else Shown(ts[0]) + Flat(ts[1..])
  }

  predicate HasHole(ts: seq<Token>) {
    ts != [] && (ts[0].Hole? || HasHole(ts[1..]))
  }

  function HoleCount(ts: seq<Token>, name: string): nat {
    if ts == [] then 0 else (if ts[0] == Hole(name) then 1 else 0) + HoleCount(ts[1..], name)
  }

  // The text before the first placeholder.
  function Lead(ts: seq<Token>): string {
    if ts == [] || ts[0].Hole? then "" else ts[0].text + Lead(ts[1..])
  }

  predicate HasSeparator(s: string) { exists i :: 0 <= i < |s| && !NameChar(s[i]) }

  predicate HasNoPercent(s: string) { forall i :: 0 <= i < |s| ==> s[i] != '%' }

  // A page whose text has no '%', and has something between two placeholders that could not
  // stand in a name.
  predicate Good(ts: seq<Token>) {
    ts != [] ==>
      && Good(ts[1..])
      && match ts[0]
         case Lit(text) => HasNoPercent(text)
         case Hole(name) => IsName(name) && (HasHole(ts[1..]) ==> HasSeparator(Lead(ts[1..])))
  }

  // ----- One fill -----

  function Fill(ts: seq<Token>, name: string, value: string): (r: seq<Token>)
    ensures |r| == |ts|
  {
    if ts == [] then [] else [if ts[0] == Hole(name) then Lit(value) else ts[0]] + Fill(ts[1..], name, value)
  }

  lemma {:induction false} LeadIsPrefix(ts: seq<Token>)
    requires Good(ts)
    ensures |Lead(ts)| <= |Flat(ts)| && Flat(ts)[..|Lead(ts)|] == Lead(ts) && HasNoPercent(Lead(ts))
    ensures !HasHole(ts) ==> Flat(ts) == Lead(ts)
  {
    if ts != [] && ts[0].Lit? {
      LeadIsPrefix(ts[1..]);
      var text, rest := ts[0].text, Flat(ts[1..]);
      assert (text + rest)[..|text| + |Lead(ts[1..])|] == text + rest[..|Lead(ts[1..])|];
    }
  }

  // Before the text `a`, in which the word does not begin, and `b`, all is decided by `b`.
  lemma SkipPrefix(a: string, b: string, needle: string, value: string, n: nat)
    requires forall i :: 0 <= i < |a| ==> !OccursAt(a + b, needle, i)
    ensures Replaced(a + b, needle, value, n) == a + Replaced(b, needle, value, n)
    ensures Count(a + b, needle, n) == Count(b, needle, n)
  {
    hide Find, OccursAt;
    FindPastPrefix(a, b, needle);
    var found := Find(b, needle, 0);
    if n > 0 && found.Some? {
      var h := found.value;
      CutBehind(a, b, h, |needle|);
      Regroup(a, b[..h], value, Replaced(b[h + |needle|..], needle, value, n - 1));
    }
  }

  lemma CutBehind(a: string, b: string, h: nat, m: nat)
    requires h + m <= |b|
    ensures (a + b)[..|a| + h] == a + b[..h] && (a + b)[|a| + h + m..] == b[h + m..]
  {
  }

  lemma FindPastPrefix(a: string, b: string, needle: string)
    requires forall i :: 0 <= i < |a| ==> !OccursAt(a + b, needle, i)
    ensures Find(a + b, needle, 0) == match Find(b, needle, 0) case None => None case Some(h) => Some(|a| + h)
  {
    hide OccursAt, Find;
    FindBehind(a, b, needle, |a|);
    FindIsFirst(a + b, needle, |a|);
    if Find(a + b, needle, |a|).Some? {
      FindIs(a + b, needle, 0, Find(a + b, needle, |a|).value);
    } else {
      FindIsNone(a + b, needle, 0);
    }
  }

  // The name stands at p, with a '%' behind it.
  predicate NameFollows(s: string, p: nat, name: string) {
    p + |name| < |s| && s[p + |name|] == '%' && forall k :: 0 <= k < |name| ==> s[p + k] == name[k]
  }

  lemma OccursMeans(s: string, name: string, i: nat)
    ensures OccursAt(s, Needle(name), i) ==> s[i] == '%' && NameFollows(s, i + 1, name)
  {
    if OccursAt(s, Needle(name), i) {
      var here := s[i..i + |name| + 2];
      assert here[0] == s[i] && here[|name| + 1] == s[i + |name| + 1];
      forall k | 0 <= k < |name| ensures s[i + 1 + k] == name[k] {
        assert here[k + 1] == s[i + 1 + k];
      }
    }
  }

  // Another placeholder is not this one, and no '%' of it begins this one.
  lemma OtherHole(other: string, rest: seq<Token>, name: string, i: nat)
    requires Good(rest) && (HasHole(rest) ==> HasSeparator(Lead(rest)))
    requires IsName(other) && IsName(name) && other != name && i < |other| + 2
    ensures !OccursAt(Needle(other) + Flat(rest), Needle(name), i)
  {
    var s := Needle(other) + Flat(rest);
    OccursMeans(s, name, i);
    if 0 < i <= |other| {
      assert s[i] == other[i - 1] && NameChar(other[i - 1]);
    } else if i == 0 {
      HoleIsNotHole(s, other, Flat(rest), name);
    } else {
      CloserIsNotOpener(s, other, rest, name);
    }
  }

  lemma SeqsDiffer(a: string, b: string)
    requires |a| == |b| && a != b
    ensures exists k :: 0 <= k < |a| && a[k] != b[k]
  {
  }

  lemma HoleIsNotHole(s: string, other: string, rest: string, name: string)
    requires s == Needle(other) + rest && IsName(other) && IsName(name) && other != name
    ensures !NameFollows(s, 1, name)
  {
    assert forall k :: 0 <= k < |other| ==> s[1 + k] == other[k];
    assert s[1 + |other|] == '%';
    if |name| < |other| {
      assert NameChar(other[|name|]) && s[1 + |name|] == other[|name|];
    } else if |other| < |name| {
      assert NameChar(name[|other|]) && s[1 + |other|] != name[|other|];
    } else {
      SeqsDiffer(name, other);
      var k :| 0 <= k < |name| && name[k] != other[k];
      assert s[1 + k] != name[k];
    }
  }

  lemma CloserIsNotOpener(s: string, other: string, rest: seq<Token>, name: string)
    requires s == Needle(other) + Flat(rest) && Good(rest) && (HasHole(rest) ==> HasSeparator(Lead(rest)))
    requires IsName(name)
    ensures !NameFollows(s, |other| + 2, name)
  {
    var text, lead := Flat(rest), Lead(rest);
    LeadIsPrefix(rest);
    assert forall k :: 0 <= k < |text| ==> s[|other| + 2 + k] == text[k];
    assert forall k :: 0 <= k < |lead| ==> text[k] == text[..|lead|][k] == lead[k];
    if |name| < |lead| {
      assert s[|other| + 2 + |name|] == lead[|name|] != '%';
    } else if HasHole(rest) {
      var k :| 0 <= k < |lead| && !NameChar(lead[k]);
      assert NameChar(name[k]) && s[|other| + 2 + k] == lead[k] != name[k];
    }
  }

  // Here is this placeholder.
  lemma ThisHole(rest: string, name: string, value: string, n: nat)
    requires n > 0
    ensures Replaced(Needle(name) + rest, Needle(name), value, n) == value + Replaced(rest, Needle(name), value, n - 1)
    ensures Count(Needle(name) + rest, Needle(name), n) == 1 + Count(rest, Needle(name), n - 1)
  {
    var s := Needle(name) + rest;
    assert s[0..|name| + 2] == Needle(name) && s[|name| + 2..] == rest;
    FindIs(s, Needle(name), 0, 0);
    hide Find, OccursAt, Needle;
    assert s[..0] + value + Replaced(rest, Needle(name), value, n - 1) ==
        value + Replaced(rest, Needle(name), value, n - 1);
  }

  // On a good page, replacing a placeholder in the text is filling its holes in the token list.
  lemma {:induction false} FillIsReplaced(ts: seq<Token>, name: string, value: string, n: nat)
    requires Good(ts) && IsName(name) && HoleCount(ts, name) <= n
    ensures Replaced(Flat(ts), Needle(name), value, n) == Flat(Fill(ts, name, value))
    ensures Count(Flat(ts), Needle(name), n) == HoleCount(ts, name)
  {
    hide Find, OccursAt, Needle;
    if ts == [] {
      NothingInNothing(name);
    } else {
      var a, b := Shown(ts[0]), Flat(ts[1..]);
      assert Fill(ts, name, value)[1..] == Fill(ts[1..], name, value);
      if ts[0] == Hole(name) {
        ThisHole(b, name, value, n);
        FillIsReplaced(ts[1..], name, value, n - 1);
      } else {
        FillIsReplaced(ts[1..], name, value, n);
        NotHere(ts, name);
        SkipPrefix(a, b, Needle(name), value, n);
      }
    }
  }

  // A placeholder at the front of a text is found at once.
  lemma HoleFound(name: string, rest: string)
    ensures Find(Needle(name) + rest, Needle(name), 0) == Some(0)
    ensures (Needle(name) + rest)[|name| + 2..] == rest
  {
    hide Needle, Find;
    var b := Needle(name) + rest;
    assert b[0..|name| + 2] == Needle(name);
    FindIs(b, Needle(name), 0, 0);
  }

  // A placeholder behind some text is found there, and what follows it follows.
  lemma FirstHole(ts: seq<Token>, text: string, name: string, rest: seq<Token>)
    requires Good(ts) && IsName(name) && ts == [Lit(text), Hole(name)] + rest
    ensures Find(Flat(ts), Needle(name), 0) == Some(|text|)
    ensures |text| + |name| + 2 <= |Flat(ts)| && Flat(ts)[|text| + |name| + 2..] == Flat(rest)
    ensures Good(rest)
  {
    assert ts[1..] == [Hole(name)] + rest && ts[1..][1..] == rest;
    hide Find, OccursAt, Needle, IsName;
    var b := Needle(name) + Flat(rest);
    assert Flat(ts[1..]) == b && Flat(ts) == text + b;
    HoleFound(name, Flat(rest));
    NotHere(ts, name);
    hide Flat;
    FindPastPrefix(text, b, Needle(name));
    CutBehind(text, b, 0, |name| + 2);
  }

  // One that is not there is not found.
  lemma NoHole(ts: seq<Token>, name: string)
    requires Good(ts) && IsName(name) && HoleCount(ts, name) == 0
    ensures Find(Flat(ts), Needle(name), 0) == None
  {
    FillIsReplaced(ts, name, "", 1);
  }

  // One that is there once is searched for inside the page only.
  lemma OneHoleIsInside(ts: seq<Token>, name: string, value: string)
    requires Good(ts) && IsName(name) && HoleCount(ts, name) == 1
    ensures StrayAt(Flat(ts), Needle(name), value, 0, MAX_OCCURRENCES) == None
  {
    hide Find, OccursAt, StrayAt, Needle;
    FillIsReplaced(ts, name, value, 2);
    CountIsOnce(Flat(ts), Needle(name), 2);
    var h: nat :| OccursOnce(Flat(ts), Needle(name), h);
    OnceIsInside(Flat(ts), Needle(name), value, h, MAX_OCCURRENCES);
  }

  lemma CutTwice(s: string, i: nat, j: nat)
    requires i + j <= |s|
    ensures s[i..][j..] == s[i + j..]
  {
  }

  lemma TwoHolesAt(ts: seq<Token>, text1: string, text2: string, name: string, rest: seq<Token>)
    requires Good(ts) && IsName(name) && ts == [Lit(text1), Hole(name)] + ([Lit(text2), Hole(name)] + rest)
    requires HoleCount(rest, name) == 0
    ensures OccursTwice(Flat(ts), Needle(name), |text1|, |text1| + |name| + 2 + |text2|)
  {
    hide Find, OccursAt, Flat, Good, HoleCount, Needle;
    var more := [Lit(text2), Hole(name)] + rest;
    FirstHole(ts, text1, name, more);
    FirstHole(more, text2, name, rest);
    NoHole(rest, name);
    CutTwice(Flat(ts), |text1| + |name| + 2, |text2| + |name| + 2);
  }

  // One that is there twice, with these texts before and between: the third search starts inside
  // the page or that far behind it.
  lemma TwoHoles(ts: seq<Token>, text1: string, text2: string, name: string, rest: seq<Token>, value: string)
    requires Good(ts) && IsName(name) && ts == [Lit(text1), Hole(name)] + ([Lit(text2), Hole(name)] + rest)
    requires HoleCount(rest, name) == 0
    ensures var h1, h2 := |text1|, |text1| + |name| + 2 + |text2|;
            StrayAt(Flat(ts), Needle(name), value, 0, MAX_OCCURRENCES) ==
            if h1 + h2 + |name| + 2 + |value| <= |Flat(ts)| then None
            else Some(h1 + h2 - |name| - 2 + 3 * |value|)
  {
    hide Find, OccursAt, StrayAt, Flat, Good, HoleCount, OccursTwice;
    TwoHolesAt(ts, text1, text2, name, rest);
    TwiceIsInsideIff(Flat(ts), Needle(name), value, |text1|, |text1| + |name| + 2 + |text2|, MAX_OCCURRENCES);
  }

  lemma NothingInNothing(name: string)
    ensures Find("", Needle(name), 0) == None
  {
  }

  lemma NotHere(ts: seq<Token>, name: string)
    requires Good(ts) && IsName(name) && ts != [] && ts[0] != Hole(name)
    ensures forall i :: 0 <= i < |Shown(ts[0])| ==> !OccursAt(Shown(ts[0]) + Flat(ts[1..]), Needle(name), i)
  {
    var s := Shown(ts[0]) + Flat(ts[1..]);
    forall i | 0 <= i < |Shown(ts[0])| ensures !OccursAt(s, Needle(name), i) {
      match ts[0]
      case Lit(text) =>
        assert s[i] == text[i];
        OccursMeans(s, name, i);
      case Hole(other) =>
        OtherHole(other, ts[1..], name, i);
    }
  }

  // ----- What a fill keeps -----

  lemma {:induction false} FillKeepsLead(ts: seq<Token>, name: string, value: string)
    ensures HasSeparator(Lead(ts)) ==> HasSeparator(Lead(Fill(ts, name, value)))
    ensures HasHole(Fill(ts, name, value)) ==> HasHole(ts)
  {
    if ts != [] {
      var us := Fill(ts, name, value);
      assert us[1..] == Fill(ts[1..], name, value);
      FillKeepsLead(ts[1..], name, value);
      if ts[0].Lit? && HasSeparator(Lead(ts)) {
        var text, lead, lead' := ts[0].text, Lead(ts[1..]), Lead(us[1..]);
        var i :| 0 <= i < |Lead(ts)| && !NameChar(Lead(ts)[i]);
        if i < |text| {
          assert Lead(us)[i] == text[i];
        } else {
          assert lead[i - |text|] == Lead(ts)[i];
          var j :| 0 <= j < |lead'| && !NameChar(lead'[j]);
          assert Lead(us)[|text| + j] == lead'[j];
        }
      }
    }
  }

  lemma {:induction false} FillKeepsGood(ts: seq<Token>, name: string, value: string)
    requires Good(ts) && HasNoPercent(value)
    ensures Good(Fill(ts, name, value))
  {
    if ts != [] {
      assert Fill(ts, name, value)[1..] == Fill(ts[1..], name, value);
      FillKeepsGood(ts[1..], name, value);
      FillKeepsLead(ts[1..], name, value);
    }
  }

  lemma {:induction false} FillKeepsOthers(ts: seq<Token>, name: string, value: string, other: string)
    requires other != name
    ensures HoleCount(Fill(ts, name, value), other) == HoleCount(ts, other)
  {
    if ts != [] {
      assert Fill(ts, name, value)[1..] == Fill(ts[1..], name, value);
      FillKeepsOthers(ts[1..], name, value, other);
    }
  }

  // ----- All fills -----

  datatype Binding = Binding(name: string, value: string)

  // One str_replace after another, as the loaders call it.
  function InTurn(s: string, fills: seq<Binding>): string
    decreases |fills|
  {
    if fills == [] then s
    else InTurn(InPlace(s, Needle(fills[0].name), fills[0].value, 0, MAX_OCCURRENCES), fills[1..])
  }

  function Lookup(fills: seq<Binding>, name: string): Option<string> {
    if fills == [] then None else if fills[0].name == name then Some(fills[0].value) else Lookup(fills[1..], name)
  }

  // The page with every placeholder replaced at once.
  function AtOnce(ts: seq<Token>, fills: seq<Binding>): (r: seq<Token>)
    ensures |r| == |ts|
    decreases |ts|
  {
    if ts == [] then []
    else [if ts[0].Hole? && Lookup(fills, ts[0].name).Some? then Lit(Lookup(fills, ts[0].name).value) else ts[0]] +
         AtOnce(ts[1..], fills)
  }

  ghost predicate DistinctNames(fills: seq<Binding>) {
    forall i, j :: 0 <= i < j < |fills| ==> fills[i].name != fills[j].name
  }

  // Each placeholder is a name that the page has once or twice; only what is put in last may
  // contain a '%'.
  ghost predicate Fits(ts: seq<Token>, fills: seq<Binding>) {
    && Good(ts) && DistinctNames(fills)
    && (forall i :: 0 <= i < |fills| ==> IsName(fills[i].name) && 1 <= HoleCount(ts, fills[i].name) <= 2)
    && (forall i :: 0 <= i < |fills| - 1 ==> HasNoPercent(fills[i].value))
  }

  // One fill of the sequence: it finds its placeholder and replaces it throughout.
  lemma OneFill(ts: seq<Token>, fills: seq<Binding>)
    requires Fits(ts, fills) && fills != []
    ensures Find(Flat(ts), Needle(fills[0].name), 0).Some?
    ensures InPlace(Flat(ts), Needle(fills[0].name), fills[0].value, 0, MAX_OCCURRENCES) ==
            Flat(Fill(ts, fills[0].name, fills[0].value))
    ensures |fills| > 1 ==> Fits(Fill(ts, fills[0].name, fills[0].value), fills[1..])
  {
    hide Find, OccursAt, InPlace, Replaced, Needle;
    var name, value := fills[0].name, fills[0].value;
    FillIsReplaced(ts, name, value, 3);
    FillIsReplaced(ts, name, value, MAX_OCCURRENCES);
    TwiceIsFine(Flat(ts), Needle(name), value, MAX_OCCURRENCES);
    if |fills| > 1 {
      FillKeepsGood(ts, name, value);
      forall i | 0 <= i < |fills[1..]| ensures HoleCount(Fill(ts, name, value), fills[1..][i].name) ==
          HoleCount(ts, fills[1..][i].name) {
        FillKeepsOthers(ts, name, value, fills[1..][i].name);
      }
    }
  }

  lemma {:induction false} FillThenAtOnce(ts: seq<Token>, fills: seq<Binding>)
    requires fills != []
    ensures AtOnce(Fill(ts, fills[0].name, fills[0].value), fills[1..]) == AtOnce(ts, fills)
    decreases |ts|
  {
    if ts != [] {
      assert Fill(ts, fills[0].name, fills[0].value)[1..] == Fill(ts[1..], fills[0].name, fills[0].value);
      FillThenAtOnce(ts[1..], fills);
    }
  }

  lemma {:induction false} NothingAtOnce(ts: seq<Token>)
    ensures AtOnce(ts, []) == ts
  {
    if ts != [] {
      NothingAtOnce(ts[1..]);
    }
  }

  // Filling a page one placeholder after another gives what filling it at once gives: nothing
  // that was put in is taken for a placeholder, and no placeholder is missed.
  lemma {:induction false} InTurnIsAtOnce(ts: seq<Token>, fills: seq<Binding>)
    requires Fits(ts, fills)
    ensures InTurn(Flat(ts), fills) == Flat(AtOnce(ts, fills))
    decreases |fills|
  {
    hide Find, OccursAt, InPlace, Needle, Flat, AtOnce, Fill, Fits;
    if fills == [] {
      NothingAtOnce(ts);
    } else {
      OneFill(ts, fills);
      FillThenAtOnce(ts, fills);
      var ts' := Fill(ts, fills[0].name, fills[0].value);
      if |fills| > 1 {
        InTurnIsAtOnce(ts', fills[1..]);
      } else {
        NothingAtOnce(ts');
        assert fills[1..] == [];
      }
    }
  }

  lemma {:induction false} LookupFinds(fills: seq<Binding>, i: nat)
    requires DistinctNames(fills) && i < |fills|
    ensures Lookup(fills, fills[i].name) == Some(fills[i].value)
  {
    if i > 0 {
      LookupFinds(fills[1..], i - 1);
    }
  }

  lemma {:induction false} LookupMisses(fills: seq<Binding>, name: string)
    requires forall b :: b in fills ==> b.name != name
    ensures Lookup(fills, name) == None
  {
    if fills != [] {
      LookupMisses(fills[1..], name);
    }
  }

  lemma LookupSame(a: seq<Binding>, b: seq<Binding>, name: string)
    requires DistinctNames(a) && DistinctNames(b) && forall x :: x in a <==> x in b
    ensures Lookup(a, name) == Lookup(b, name)
  {
    if i :| 0 <= i < |a| && a[i].name == name {
      assert a[i] in b;
      var j :| 0 <= j < |b| && b[j] == a[i];
      LookupFinds(a, i);
      LookupFinds(b, j);
    } else {
      forall x | x in b ensures x.name != name {
        assert x in a;
      }
      LookupMisses(a, name);
      LookupMisses(b, name);
    }
  }

  lemma {:induction false} AtOnceSame(ts: seq<Token>, a: seq<Binding>, b: seq<Binding>)
    requires DistinctNames(a) && DistinctNames(b) && forall x :: x in a <==> x in b
    ensures AtOnce(ts, a) == AtOnce(ts, b)
  {
    if ts != [] {
      if ts[0].Hole? {
        LookupSame(a, b, ts[0].name);
      }
      AtOnceSame(ts[1..], a, b);
    }
  }

  // The order of the str_replace calls does not matter.
  lemma FillOrderIsIrrelevant(ts: seq<Token>, a: seq<Binding>, b: seq<Binding>)
    requires Fits(ts, a) && Fits(ts, b) && forall x :: x in a <==> x in b
    ensures InTurn(Flat(ts), a) == InTurn(Flat(ts), b)
  {
    InTurnIsAtOnce(ts, a);
    InTurnIsAtOnce(ts, b);
    AtOnceSame(ts, a, b);
  }
}
