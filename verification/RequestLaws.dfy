/** What reading a request promises: a printed request reads back as itself, the order of its
    headers is irrelevant, what the result 0 does and does not mean, and when there is a result. */
module RequestLaws {
  import opened HttpTypes
  import opened Messages
  import opened Tokenizer
  import opened Request

  // ----- Lines -----

  predicate GoodLine(line: string) { line != "" && Free(line, BREAKS) && NoNul(line) }

  lemma {:induction false} TokensBehind(lines: seq<string>, rest: string)
    requires forall i :: 0 <= i < |lines| ==> GoodLine(lines[i])
    ensures Tokens(JoinLines(lines) + rest, BREAKS) == lines + Tokens(rest, BREAKS)
    decreases |lines|
  {
    hide Tokens;
    if lines == [] {
      assert JoinLines(lines) + rest == rest && lines + Tokens(rest, BREAKS) == Tokens(rest, BREAKS);
    } else {
      var more := JoinLines(lines[1..]) + rest;
      TokensBehind(lines[1..], rest);
      assert JoinLines(lines) + rest == lines[0] + (['\r'] + (['\n'] + more));
      hide JoinLines;
      FirstToken(lines[0], ['\r'] + (['\n'] + more), BREAKS);
      OneDelimiter('\r', ['\n'] + more, BREAKS);
      OneDelimiter('\n', more, BREAKS);
      assert [lines[0]] + (lines[1..] + Tokens(rest, BREAKS)) == lines + Tokens(rest, BREAKS);
    }
  }

  lemma {:induction false} JoinedHasNoNul(lines: seq<string>)
    requires forall i :: 0 <= i < |lines| ==> GoodLine(lines[i])
    ensures NoNul(JoinLines(lines))
  {
    if lines != [] {
      JoinedHasNoNul(lines[1..]);
    }
  }

  // Lines without line ends and terminators in them come back as they were.
  lemma LinesRoundTrip(lines: seq<string>)
    requires forall i :: 0 <= i < |lines| ==> GoodLine(lines[i])
    ensures LinesOf(JoinLines(lines)) == lines
  {
    TokensBehind(lines, "");
    assert JoinLines(lines) + "" == JoinLines(lines) && Tokens("", BREAKS) == [] && lines + [] == lines;
    JoinedHasNoNul(lines);
    UpToNulSame(JoinLines(lines));
  }

  // ----- Header lines -----

  // A header that the pattern and the size checks of parse_header_field let through.
  predicate Accepted(f: Field) {
    && f.name != "" && AllIn(f.name, HeaderNameChar) && |f.name| < HEADER_NAME_SIZE
    && |f.value| < HTTP_HEADER_SIZE && Free(f.value, BREAKS) && NoNul(f.value)
  }

  function StoreAll(q: HttpRequest, fs: seq<Field>): HttpRequest
    decreases |fs|
  {
    if fs == [] then q else StoreAll(Store(q, fs[0]), fs[1..])
  }

  lemma AcceptedLine(f: Field)
    requires Accepted(f)
    ensures MatchHeader(FieldText(f)) == Some(f) && GoodLine(FieldText(f))
  {
    assert FieldText(f) == f.name + ":" + [' '] + f.value;
    HeaderMatches(FieldText(f), f, ' ');
    assert forall i :: 0 <= i < |f.name| ==> HeaderNameChar(f.name[i]);
  }

  // Its copies stay in their arrays, unless it is an If-None-Match of 65 characters or more.
  predicate StaysInField(f: Field) { HeaderOf(Lower(f.name)).IfNoneMatch? ==> |f.value| < HTTP_HEADER_ETAG_SIZE }

  predicate AllStay(fs: seq<Field>) { forall i :: 0 <= i < |fs| ==> StaysInField(fs[i]) }

  lemma AcceptedField(q: HttpRequest, f: Field)
    requires Accepted(f)
    ensures HeaderField(q, FieldText(f)) == if StaysInField(f) then Returned(0, Store(q, f)) else Undefined
  {
    AcceptedLine(f);
    HeaderIsDefinedIff(q, FieldText(f));
    hide MatchHeader, Store, HeaderWrites, InBounds, HeaderOf;
  }

  lemma HeaderLinesStep(q: HttpRequest, f: Field, lines: seq<string>, last: int)
    requires Accepted(f)
    ensures HeaderLines(q, [FieldText(f)] + lines, last) ==
            if StaysInField(f) then HeaderLines(Store(q, f), lines, 0) else Undefined
  {
    AcceptedField(q, f);
    hide HeaderField, Store, StaysInField, FieldText;
    assert ([FieldText(f)] + lines)[1..] == lines;
  }

  lemma AllStayStep(fs: seq<Field>)
    requires fs != []
    ensures AllStay(fs) <==> StaysInField(fs[0]) && AllStay(fs[1..])
  {
    hide StaysInField;
    assert fs == [fs[0]] + fs[1..];
  }

  // Well-formed header lines are all stored, in turn, if and only if each stays in its field.
  lemma {:induction false} HeadersAreStored(q: HttpRequest, fs: seq<Field>, rest: seq<string>, last: int)
    requires forall i :: 0 <= i < |fs| ==> Accepted(fs[i])
    ensures HeaderLines(q, Texts(fs) + rest, last) ==
            if AllStay(fs) then HeaderLines(StoreAll(q, fs), rest, if fs == [] then last else 0) else Undefined
    decreases |fs|
  {
    hide HeaderLines, Store, StaysInField, FieldText, Accepted;
    if fs == [] {
      assert Texts(fs) + rest == rest;
    } else {
      AllStayStep(fs);
      hide AllStay;
      assert Texts(fs) + rest == [FieldText(fs[0])] + (Texts(fs[1..]) + rest);
      HeaderLinesStep(q, fs[0], Texts(fs[1..]) + rest, last);
      HeadersAreStored(Store(q, fs[0]), fs[1..], rest, 0);
    }
  }

  // ----- The order of the headers -----

  ghost predicate DistinctNames(fs: seq<Field>) {
    forall i, j :: 0 <= i < j < |fs| ==> Lower(fs[i].name) != Lower(fs[j].name)
  }

  lemma StoresCommute(q: HttpRequest, f: Field, g: Field)
    requires Lower(f.name) != Lower(g.name)
    ensures Store(Store(q, f), g) == Store(Store(q, g), f)
  {
    hide StartsWith, Strtol, Lower;
    HeadersDiffer(Lower(f.name), Lower(g.name));
    HeadersCommute(q, HeaderOf(Lower(f.name)), f.value, HeaderOf(Lower(g.name)), g.value);
  }

  lemma HeadersDiffer(k: string, l: string)
    requires k != l
    ensures HeaderOf(k) != HeaderOf(l) || HeaderOf(k).Unknown?
  {
  }

  lemma HeadersCommute(q: HttpRequest, h: Header, v: string, k: Header, w: string)
    requires h != k || h.Unknown?
    ensures StoreAs(StoreAs(q, h, v), k, w) == StoreAs(StoreAs(q, k, w), h, v)
  {
    hide StartsWith, Strtol;
    match h {
      case Host =>
      case UserAgent =>
      case Accept =>
      case AcceptLanguage =>
      case AcceptEncoding =>
      case ConnectionHeader =>
      case IfNoneMatch =>
      case ContentType =>
      case ContentLength =>
      case Unknown =>
    }
  }

  function Without<T>(s: seq<T>, i: nat): seq<T>
    requires i < |s|
  {
    s[..i] + s[i + 1..]
  }

  // A header whose name no other has may as well come first.
  lemma {:induction false} MayComeFirst(q: HttpRequest, fs: seq<Field>, i: nat)
    requires i < |fs| && DistinctNames(fs)
    ensures StoreAll(q, fs) == StoreAll(Store(q, fs[i]), Without(fs, i))
    decreases i
  {
    hide Store;
    if i == 0 {
      assert Without(fs, 0) == fs[1..];
    } else {
      MayComeFirst(Store(q, fs[0]), fs[1..], i - 1);
      StoresCommute(q, fs[0], fs[i]);
      assert Without(fs, i)[0] == fs[0] && Without(fs, i)[1..] == Without(fs[1..], i - 1);
    }
  }

  lemma WithoutOne<T>(a: seq<T>, i: nat)
    requires i < |a|
    ensures multiset(Without(a, i)) == multiset(a) - multiset{a[i]}
  {
    assert a == a[..i] + ([a[i]] + a[i + 1..]);
    assert multiset(a) == multiset(a[..i]) + (multiset{a[i]} + multiset(a[i + 1..]));
  }

  lemma SameWithout<T>(a: seq<T>, b: seq<T>, i: nat)
    requires multiset(a) == multiset(b) && b != [] && i < |a| && a[i] == b[0]
    ensures multiset(Without(a, i)) == multiset(b[1..])
  {
    WithoutOne(a, i);
    WithoutOne(b, 0);
    assert Without(b, 0) == b[1..];
  }

  // Headers with distinct names, upper and lower case aside, may be stored in any order.
  lemma {:induction false} AnyOrder(q: HttpRequest, fs: seq<Field>, gs: seq<Field>)
    requires multiset(fs) == multiset(gs) && DistinctNames(fs)
    ensures StoreAll(q, fs) == StoreAll(q, gs)
    decreases |gs|
  {
    hide Store;
    if gs == [] {
      assert |fs| == |multiset(fs)| == |multiset(gs)| == 0;
    } else {
      assert gs[0] in multiset(fs);
      var i :| 0 <= i < |fs| && fs[i] == gs[0];
      MayComeFirst(q, fs, i);
      SameWithout(fs, gs, i);
      assert DistinctNames(Without(fs, i));
      AnyOrder(Store(q, gs[0]), Without(fs, i), gs[1..]);
    }
  }

  function Known(fs: seq<Field>): (r: seq<Field>)
    ensures forall f :: f in r ==> f in fs
  {
    if fs == [] then [] else (if HeaderOf(Lower(fs[0].name)).Unknown? then [] else [fs[0]]) + Known(fs[1..])
  }

  // Headers that the server does not know change nothing.
  lemma {:induction false} UnknownChangeNothing(q: HttpRequest, fs: seq<Field>)
    ensures StoreAll(q, fs) == StoreAll(q, Known(fs))
    decreases |fs|
  {
    if fs != [] {
      UnknownChangeNothing(Store(q, fs[0]), fs[1..]);
      hide StartsWith, Strtol, Lower;
      if HeaderOf(Lower(fs[0].name)).Unknown? {
        assert Store(q, fs[0]) == q;
        assert Known(fs) == Known(fs[1..]);
      } else {
        assert Known(fs)[1..] == Known(fs[1..]);
      }
    }
  }

  // For whole requests: every order of the same well-formed header lines gives the same result,
  // and it is a result, if and only if the request line and all headers stay in their fields.
  lemma HeaderOrderIsIrrelevant(q: HttpRequest, control: string, fs: seq<Field>, gs: seq<Field>)
    requires |q.uri| == HTTP_URI_TOKEN_COUNT && GoodLine(control)
    requires (forall i :: 0 <= i < |fs| ==> Accepted(fs[i])) && multiset(fs) == multiset(gs) && DistinctNames(fs)
    ensures var one, other := JoinLines([control] + Texts(fs)), JoinLines([control] + Texts(gs));
            && (ParseRequest(q, one).Returned? <==> ControlData(q, control).Returned? && AllStay(fs))
            && ParseRequest(q, one) == ParseRequest(q, other)
  {
    hide ControlData, Store, StaysInField, HeaderLines, AllStay, ParseRequest, StoreAll;
    forall i | 0 <= i < |gs| ensures Accepted(gs[i]) {
      assert gs[i] in multiset(fs);
    }
    SameStay(fs, gs);
    OneOrder(q, control, fs);
    OneOrder(q, control, gs);
    assert |fs| == |multiset(fs)| == |multiset(gs)| == |gs|;
    if ControlData(q, control).Returned? {
      AnyOrder(ControlData(q, control).request, fs, gs);
    }
  }

  // What headers add to what the request line left.
  function WithHeaders(o: Outcome, fs: seq<Field>): Outcome {
    if o.Returned? && AllStay(fs) then Returned(if fs == [] then o.code else 0, StoreAll(o.request, fs)) else Undefined
  }

  // What a request with these headers, in this order, leaves.
  lemma OneOrder(q: HttpRequest, control: string, fs: seq<Field>)
    requires |q.uri| == HTTP_URI_TOKEN_COUNT && GoodLine(control)
    requires forall i :: 0 <= i < |fs| ==> Accepted(fs[i])
    ensures ParseRequest(q, JoinLines([control] + Texts(fs))) == WithHeaders(ControlData(q, control), fs)
  {
    hide ControlData, HeaderLines, StoreAll, AllStay, Accepted;
    RequestLines(control, fs);
    assert Texts(fs) + [] == Texts(fs);
    if ControlData(q, control).Returned? {
      var r, q1 := ControlData(q, control).code, ControlData(q, control).request;
      HeadersAreStored(q1, fs, [], r);
      NoMoreLines(StoreAll(q1, fs), if fs == [] then r else 0);
    }
  }

  lemma NoMoreLines(q: HttpRequest, last: int)
    ensures HeaderLines(q, [], last) == Returned(last, q)
  {
  }

  lemma SameStay(fs: seq<Field>, gs: seq<Field>)
    requires multiset(fs) == multiset(gs)
    ensures AllStay(fs) <==> AllStay(gs)
  {
    hide StaysInField;
    forall i | 0 <= i < |gs| ensures gs[i] in fs {
      assert gs[i] in multiset(fs);
    }
    forall i | 0 <= i < |fs| ensures fs[i] in gs {
      assert fs[i] in multiset(gs);
    }
  }

  // ----- A terminator in a header -----

  lemma LastLineOpen(lines: seq<string>, last: string)
    requires (forall i :: 0 <= i < |lines| ==> GoodLine(lines[i])) && GoodLine(last)
    ensures Tokens(JoinLines(lines) + last, BREAKS) == lines + [last] && NoNul(JoinLines(lines) + last)
  {
    JoinedHasNoNul(lines);
    TokensBehind(lines, last);
    FirstToken(last, "", BREAKS);
    assert last + "" == last && Tokens("", BREAKS) == [];
  }

  lemma {:induction false} JoinAppend(a: seq<string>, b: seq<string>)
    ensures JoinLines(a + b) == JoinLines(a) + JoinLines(b)
    decreases |a|
  {
    if a == [] {
      assert a + b == b;
    } else {
      assert (a + b)[1..] == a[1..] + b;
      JoinAppend(a[1..], b);
    }
  }

  // strtok_r goes no further than a NUL: the line it stands in ends there, and no line behind it
  // is read.
  lemma NulEndsTheLines(lines: seq<string>, line: string, rest: string, behind: seq<string>)
    requires (forall i :: 0 <= i < |lines| ==> GoodLine(lines[i])) && GoodLine(line)
    ensures LinesOf(JoinLines(lines + [line + "\0" + rest] + behind)) == lines + [line]
  {
    LastLineOpen(lines, line);
    var text, tail := JoinLines(lines) + line, rest + CRLF + JoinLines(behind);
    JoinAppend(lines + [line + "\0" + rest], behind);
    JoinAppend(lines, [line + "\0" + rest]);
    assert JoinLines([line + "\0" + rest]) == line + "\0" + rest + CRLF;
    assert JoinLines(lines + [line + "\0" + rest] + behind) == text + "\0" + tail;
    UpToNulCuts(text, tail);
  }

  // A header with a NUL in its value is the last that counts, and counts up to the NUL: those
  // before it are stored, those behind it are never seen, whatever they are.
  lemma NulHeaderIsTheLast(
    q: HttpRequest, control: string, before: seq<Field>, f: Field, rest: string, behind: seq<string>)
    requires |q.uri| == HTTP_URI_TOKEN_COUNT && GoodLine(control)
    requires (forall i :: 0 <= i < |before| ==> Accepted(before[i])) && Accepted(f)
    ensures var received := JoinLines([control] + Texts(before) + [FieldText(f) + "\0" + rest] + behind);
            ParseRequest(q, received) == WithHeaders(ControlData(q, control), before + [f])
  {
    hide ControlData, WithHeaders, Accepted, FieldText, GoodLine, LinesOf;
    var all, lines := before + [f], [control] + Texts(before);
    forall i | 0 <= i < |lines| ensures GoodLine(lines[i]) {
      if i > 0 {
        AcceptedLine(before[i - 1]);
      }
    }
    AcceptedLine(f);
    NulEndsTheLines(lines, FieldText(f), rest, behind);
    assert forall i :: 0 <= i < |all| ==> Accepted(all[i]);
    assert Texts(all) == Texts(before) + [FieldText(f)];
    assert lines + [FieldText(f)] == [control] + Texts(all);
    RequestLines(control, all);
    OneOrder(q, control, all);
  }

  lemma StoreLast(q: HttpRequest, fs: seq<Field>, f: Field)
    ensures StoreAll(q, fs + [f]) == Store(StoreAll(q, fs), f)
  {
    StoreAllSplits(q, fs, [f]);
    hide Store;
    assert StoreAll(StoreAll(q, fs), [f]) == StoreAll(Store(StoreAll(q, fs), f), [f][1..]);
  }

  // Two headers in either order, the first with a NUL in its value.
  ghost predicate NulPair(q: HttpRequest, control: string, before: seq<Field>, f: Field, g: Field) {
    && |q.uri| == HTTP_URI_TOKEN_COUNT && GoodLine(control) && ControlData(q, control).Returned?
    && (forall i :: 0 <= i < |before| ==> Accepted(before[i])) && Accepted(f) && Accepted(g)
    && AllStay(before + [g] + [f]) && Lower(f.name) != Lower(g.name)
  }

  lemma NulBefore(q: HttpRequest, control: string, before: seq<Field>, f: Field, rest: string, g: Field)
    requires NulPair(q, control, before, f, g)
    ensures var lines, cut := [control] + Texts(before), FieldText(f) + "\0" + rest;
            ParseRequest(q, JoinLines(lines + [cut] + [FieldText(g)])) ==
            Returned(0, StoreAll(ControlData(q, control).request, before + [f]))
  {
    NulHeaderIsTheLast(q, control, before, f, rest, [FieldText(g)]);
    SomeStay(before, g, f);
    hide ControlData, StoreAll, ParseRequest, FieldText, JoinLines, AllStay;
  }

  lemma NulBehind(q: HttpRequest, control: string, before: seq<Field>, f: Field, rest: string, g: Field)
    requires NulPair(q, control, before, f, g)
    ensures var lines, cut := [control] + Texts(before), FieldText(f) + "\0" + rest;
            ParseRequest(q, JoinLines(lines + [FieldText(g)] + [cut] + [])) ==
            Returned(0, Store(StoreAll(ControlData(q, control).request, before + [f]), g))
  {
    var left, more := ControlData(q, control).request, before + [g];
    assert forall i :: 0 <= i < |more| ==> Accepted(more[i]);
    hide ControlData, Store, StoreAll, ParseRequest, FieldText, JoinLines, AllStay, Accepted, GoodLine;
    assert [control] + Texts(more) == [control] + Texts(before) + [FieldText(g)];
    NulHeaderIsTheLast(q, control, more, f, rest, []);
    StoreLast(left, before, f);
    StoreLast(left, before, g);
    StoreLast(left, more, f);
    StoresCommute(StoreAll(left, before), f, g);
  }

  // So the place of such a header matters exactly if another, which may stand before or behind it,
  // would change what is stored.
  lemma NulOrderIsIrrelevantIff(q: HttpRequest, control: string, before: seq<Field>, f: Field, rest: string, g: Field)
    requires NulPair(q, control, before, f, g)
    ensures var lines, cut := [control] + Texts(before), FieldText(f) + "\0" + rest;
            var stored := StoreAll(ControlData(q, control).request, before + [f]);
            ParseRequest(q, JoinLines(lines + [cut] + [FieldText(g)])) ==
            ParseRequest(q, JoinLines(lines + [FieldText(g)] + [cut] + []))
            <==> Store(stored, g) == stored
  {
    NulBefore(q, control, before, f, rest, g);
    NulBehind(q, control, before, f, rest, g);
    hide *;
  }

  lemma SomeStay(before: seq<Field>, g: Field, f: Field)
    requires AllStay(before + [g] + [f])
    ensures AllStay(before + [f])
  {
    var all := before + [g] + [f];
    hide StaysInField;
    assert forall i :: 0 <= i < |before| ==> all[i] == before[i];
    assert all[|before| + 1] == f;
  }

  // So it is here: with a NUL in "X", Host counts before it and not behind it.
  lemma NulMakesOrderMatter(q: HttpRequest, control: string)
    requires |q.uri| == HTTP_URI_TOKEN_COUNT && GoodLine(control) && ControlData(q, control).Returned?
    requires ControlData(q, control).request.host != "h"
    ensures var x, h := FieldText(Field("X", "a" + "\0" + "b")), FieldText(Field("Host", "h"));
            ParseRequest(q, JoinLines([control, x, h])) != ParseRequest(q, JoinLines([control, h, x]))
  {
    var x, h, left := Field("X", "a"), Field("Host", "h"), ControlData(q, control).request;
    TwoHeaders();
    StoreHostAndX(left);
    hide ControlData, FieldText, Accepted, ParseRequest, GoodLine, AllStay, StoreAll;
    assert [control] + Texts([]) + [FieldText(x) + "\0" + "b"] + [FieldText(h)] ==
           [control, FieldText(x) + "\0" + "b", FieldText(h)];
    assert Texts([h]) == [FieldText(h)];
    assert [control] + Texts([h]) + [FieldText(x) + "\0" + "b"] + [] ==
           [control, FieldText(h), FieldText(x) + "\0" + "b"];
    NulHeaderIsTheLast(q, control, [], x, "b", [FieldText(h)]);
    NulHeaderIsTheLast(q, control, [h], x, "b", []);
    assert [] + [x] == [x] && [h] + [x] == [h, x];
  }

  lemma TwoHeaders()
    ensures Accepted(Field("X", "a")) && Accepted(Field("Host", "h"))
    ensures FieldText(Field("X", "a" + "\0" + "b")) == FieldText(Field("X", "a")) + "\0" + "b"
  {
    ShortNames();
    assert "X" + ": " + ("a" + "\0" + "b") == "X" + ": " + "a" + "\0" + "b";
  }

  lemma StoreHostAndX(left: HttpRequest)
    ensures AllStay([Field("X", "a")]) && AllStay([Field("Host", "h"), Field("X", "a")])
    ensures StoreAll(left, [Field("X", "a")]) == left
    ensures StoreAll(left, [Field("Host", "h"), Field("X", "a")]) == left.(host := "h")
  {
    PrintedNames();
    ShortNames();
    hide Lower;
    var x, h := Field("X", "a"), Field("Host", "h");
    assert [h, x][1..] == [x] && [x][1..] == [];
    assert StoreAll(left.(host := "h"), [x]) == StoreAll(Store(left.(host := "h"), x), []);
  }

  lemma ShortNames()
    ensures HeaderOf(Lower("X")).Unknown? && HeaderOf("host").Host?
    ensures AllIn("X", HeaderNameChar) && AllIn("Host", HeaderNameChar)
  {
    LowerIs("X", "x");
  }

  // An entity tag of 80 characters leaves nothing defined, wherever among the headers it stands.
  lemma LongTagIsUndefined(q: HttpRequest, value: string)
    requires |value| == 80 && Free(value, BREAKS) && NoNul(value)
    ensures Accepted(Field("If-None-Match", value)) && HeaderField(q, "If-None-Match: " + value) == Undefined
  {
    var f := Field("If-None-Match", value);
    MoreNames();
    hide Lower;
    assert "If-None-Match" + ": " + value == "If-None-Match: " + value == FieldText(f);
    AcceptedField(q, f);
  }

  // Neither does a method of eight letters, which the pattern admits.
  lemma LongMethodIsUndefined(q: HttpRequest)
    requires |q.uri| == HTTP_URI_TOKEN_COUNT
    ensures ControlData(q, "PROPFIND / HTTP/1.1") == Undefined
  {
    var c := Control("PROPFIND", "/", "HTTP/1.1");
    assert c.version[..5] == "HTTP/" && c.version[5..] == "1.1";
    assert ControlText(c) == "PROPFIND / HTTP/1.1";
    ControlMatches(c);
    hide MatchControl;
    ControlIsDefinedIff(q, ControlText(c));
  }

  lemma RequestLines(control: string, fs: seq<Field>)
    requires GoodLine(control) && forall i :: 0 <= i < |fs| ==> Accepted(fs[i])
    ensures LinesOf(JoinLines([control] + Texts(fs))) == [control] + Texts(fs)
    ensures ([control] + Texts(fs))[1..] == Texts(fs)
  {
    hide Tokens, GoodLine, LinesOf;
    var lines := [control] + Texts(fs);
    forall i | 0 <= i < |lines| ensures GoodLine(lines[i]) {
      if i > 0 {
        AcceptedLine(fs[i - 1]);
      }
    }
    LinesRoundTrip(lines);
  }

  // ----- What the result says -----

  // A header line that is stored.
  predicate GoodHeader(line: string) {
    var f := MatchHeader(line);
    f.Some? && !HeaderTooBig(f.value) && StaysInField(f.value)
  }

  lemma GoodHeaderMeans(q: HttpRequest, line: string)
    ensures GoodHeader(line) <==> HeaderField(q, line).Returned? && HeaderField(q, line).code == 0
  {
    HeaderIsDefinedIff(q, line);
    hide MatchHeader, HeaderWrites, InBounds, HeaderOf, Store;
  }

  lemma {:induction false} HeaderLinesResult(q: HttpRequest, lines: seq<string>, last: int)
    ensures (HeaderLines(q, lines, last).Returned? && HeaderLines(q, lines, last).code == 0) <==>
            (forall i :: 0 <= i < |lines| ==> GoodHeader(lines[i])) && (lines == [] ==> last == 0)
    decreases |lines|
  {
    if lines != [] {
      GoodHeaderMeans(q, lines[0]);
      assert lines == [lines[0]] + lines[1..];
      hide GoodHeader, HeaderField;
      if GoodHeader(lines[0]) {
        HeaderLinesResult(HeaderField(q, lines[0]).request, lines[1..], 0);
      }
    }
  }

  // Every header overwrites the result, so that 0 says that all headers are well formed, and
  // of the request line no more than that it was not too long for its copies, unless there is
  // no header.
  lemma ZeroMeans(q: HttpRequest, received: string)
    requires |q.uri| == HTTP_URI_TOKEN_COUNT
    ensures var lines := LinesOf(received);
            (ParseRequest(q, received).Returned? && ParseRequest(q, received).code == 0) <==>
            && lines != [] && ControlData(q, lines[0]).Returned?
            && (forall i :: 1 <= i < |lines| ==> GoodHeader(lines[i]))
            && (|lines| == 1 ==> ControlData(q, lines[0]).code == 0)
  {
    hide ControlData, GoodHeader, LinesOf;
    var lines := LinesOf(received);
    if lines != [] && ControlData(q, lines[0]).Returned? {
      var r, q1 := ControlData(q, lines[0]).code, ControlData(q, lines[0]).request;
      HeaderLinesResult(q1, lines[1..], r);
      assert forall i :: 1 <= i < |lines| ==> lines[i] == lines[1..][i - 1];
      assert forall i :: 0 <= i < |lines[1..]| ==> lines[1..][i] == lines[i + 1];
    }
  }

  // Here it is 0 although the request line is none.
  lemma ZeroWithoutRequestLine(q: HttpRequest)
    requires |q.uri| == HTTP_URI_TOKEN_COUNT
    ensures ControlData(q, "x") == Returned(-1, q)
    ensures ParseRequest(q, "x\r\nA: b\r\n") == Returned(0, q)
  {
    var f := Field("A", "b");
    assert IndexOf("x", ' ') == None;
    OneUnknown(q);
    hide ControlData, ParseRequest, Accepted, AllStay, StoreAll;
    assert JoinLines(["x"] + Texts([f])) == "x\r\nA: b\r\n" by {
      assert FieldText(f) == "A: b" && Texts([f]) == ["A: b"];
      assert (["x"] + ["A: b"])[1..] == ["A: b"] && ["A: b"][1..] == [];
    }
    OneOrder(q, "x", [f]);
  }

  lemma OneUnknown(q: HttpRequest)
    ensures Accepted(Field("A", "b")) && AllStay([Field("A", "b")]) && StoreAll(q, [Field("A", "b")]) == q
    ensures GoodLine("x")
  {
    var f := Field("A", "b");
    LowerIs("A", "a");
    hide Lower;
    assert [f][1..] == [] && StoreAll(q, [f]) == StoreAll(Store(q, f), []);
  }

  // ----- Printing and reading -----

  // http_method_to_string
  function MethodText(m: HttpMethod): string {
    match m
    case POST => "POST"
    case GET => "GET"
    case PATCH => "PATCH"
    case PUT => "PUT"
    case HEAD => "HEAD"
    case DELETE => "DELETE"
    case CONNECT => "CONNECT"
    case OPTIONS => "OPTIONS"
    case TRACE => "TRACE"
    case BAD_METHOD => "BAD_METHOD"
  }

  // A path of these tokens.
  function PathOf(tokens: seq<string>): string {
    if tokens == [] then "" else "/" + tokens[0] + PathOf(tokens[1..])
  }

  function Target(tokens: seq<string>): string { if tokens == [] then "/" else PathOf(tokens) }

  // The tokens in their four fields.
  function Padded(tokens: seq<string>): (uri: seq<string>)
    requires |tokens| <= HTTP_URI_TOKEN_COUNT
    ensures |uri| == HTTP_URI_TOKEN_COUNT
  {
    tokens + ["", "", "", ""][|tokens|..]
  }

  // The headers that http_request_to_string writes, in its order.
  function PrintedHeaders(q: HttpRequest): seq<Field> {
    [Field("Host", q.host), Field("User-Agent", q.userAgent), Field("Accept", q.accept),
     Field("Accept-Language", q.acceptLanguage), Field("Accept-Encoding", q.acceptEncoding),
     Field("Connection", if q.connection.KeepAlive? then "keep-alive" else "close")]
  }

  function RequestLine(q: HttpRequest, tokens: seq<string>): string {
    ControlText(Control(MethodText(q.httpMethod), Target(tokens), q.version))
  }

  function Printed(q: HttpRequest, tokens: seq<string>): string {
    JoinLines([RequestLine(q, tokens)] + Texts(PrintedHeaders(q)))
  }

  predicate GoodToken(t: string) { t != "" && Free(t, "/ \r\n") && NoNul(t) && |t| < HTTP_URI_TOKEN_SIZE - 1 }

  predicate GoodValue(v: string) { |v| < HTTP_HEADER_SIZE && Free(v, BREAKS) && NoNul(v) }

  // A request that can be printed: a proper method, up to four tokens, a version of the right form
  // and values that fit their fields. The fields that are not printed are those of a fresh row.
  predicate Printable(q: HttpRequest, tokens: seq<string>) {
    && !q.httpMethod.BAD_METHOD?
    && |tokens| <= HTTP_URI_TOKEN_COUNT && (forall i :: 0 <= i < |tokens| ==> GoodToken(tokens[i]))
    && IsVersion(q.version)
    && GoodValue(q.host) && GoodValue(q.userAgent) && GoodValue(q.accept) && GoodValue(q.acceptLanguage)
    && GoodValue(q.acceptEncoding)
    && q.uri == Padded(tokens)
    && !q.isSsl && q.ifNoneMatch == "" && q.contentType == "" && q.contentLength == 0
  }

  lemma {:induction false} PathTokens(tokens: seq<string>)
    requires forall i :: 0 <= i < |tokens| ==> GoodToken(tokens[i])
    ensures Tokens(PathOf(tokens), "/") == tokens
    ensures PathOf(tokens) != "" ==> PathOf(tokens)[0] == '/'
    decreases |tokens|
  {
    if tokens != [] {
      hide Tokens;
      PathTokens(tokens[1..]);
      var rest := PathOf(tokens[1..]);
      assert GoodToken(tokens[0]);
      assert tokens[0] != "" && Free(tokens[0], "/");
      assert PathOf(tokens) == ['/'] + (tokens[0] + rest);
      hide Free, GoodToken;
      OneDelimiter('/', tokens[0] + rest, "/");
      FirstToken(tokens[0], rest, "/");
    }
  }

  lemma {:induction false} PathShape(tokens: seq<string>)
    requires forall i :: 0 <= i < |tokens| ==> GoodToken(tokens[i])
    ensures PathOf(tokens) == "" <==> tokens == []
    ensures Free(PathOf(tokens), " \r\n") && NoNul(PathOf(tokens)) && |PathOf(tokens)| <= 199 * |tokens|
    decreases |tokens|
  {
    if tokens != [] {
      PathShape(tokens[1..]);
      assert Free(tokens[0], "/ \r\n");
    }
  }

  lemma TargetTokens(tokens: seq<string>)
    requires |tokens| <= HTTP_URI_TOKEN_COUNT && forall i :: 0 <= i < |tokens| ==> GoodToken(tokens[i])
    ensures Tokens(Target(tokens), "/") == tokens && Target(tokens) != "" && Free(Target(tokens), " \r\n")
    ensures NoNul(Target(tokens))
    ensures |Target(tokens)| < HTTP_URI_TOKEN_COUNT * HTTP_URI_TOKEN_SIZE
  {
    PathTokens(tokens);
    PathShape(tokens);
    if tokens == [] {
      OneDelimiter('/', "", "/");
      assert ['/'] + "" == "/";
    }
  }

  lemma {:induction false} TokensAreStored(uri: seq<string>, tokens: seq<string>, i: nat)
    requires |uri| == HTTP_URI_TOKEN_COUNT && i + |tokens| <= HTTP_URI_TOKEN_COUNT
    requires forall k :: 0 <= k < |tokens| ==> GoodToken(tokens[k])
    ensures StoreTokens(uri, tokens, i) == (true, uri[..i] + tokens + uri[i + |tokens|..])
    decreases |tokens|
  {
    if tokens == [] {
      assert uri == uri[..i] + tokens + uri[i..];
    } else {
      var stored := uri[i := tokens[0]];
      TokensAreStored(stored, tokens[1..], i + 1);
      assert stored[..i + 1] == uri[..i] + [tokens[0]];
      assert stored[i + |tokens|..] == uri[i + |tokens|..];
      assert uri[..i] + [tokens[0]] + tokens[1..] == uri[..i] + tokens;
    }
  }

  lemma StartsWithSays(s: string, word: string)
    requires StartsWith(s, word) && |word| >= 2
    ensures LowerCase(s[0]) == word[0] && LowerCase(s[1]) == word[1]
  {
    assert Lower(s[..|word|])[0] == word[0] && Lower(s[..|word|])[1] == word[1];
  }

  lemma OtherWord(s: string, word: string)
    requires |s| >= 2 && |word| >= 2 && (LowerCase(s[0]) != word[0] || LowerCase(s[1]) != word[1])
    ensures !StartsWith(s, word)
  {
    if StartsWith(s, word) {
      StartsWithSays(s, word);
    }
  }

  lemma LowerIs(s: string, word: string)
    requires |s| == |word| && forall i :: 0 <= i < |s| ==> LowerCase(s[i]) == word[i]
    ensures Lower(s) == word
  {
  }

  lemma ThisWord(text: string, rest: string, word: string)
    requires |text| == |word| && forall i :: 0 <= i < |text| ==> LowerCase(text[i]) == word[i]
    ensures StartsWith(text + rest, word)
  {
    assert (text + rest)[..|word|] == text;
    LowerIs(text, word);
  }

  function MethodWord(m: HttpMethod): string {
    match m
    case POST => "post"
    case GET => "get"
    case PATCH => "patch"
    case PUT => "put"
    case HEAD => "head"
    case DELETE => "delete"
    case CONNECT => "connect"
    case OPTIONS => "options"
    case TRACE => "trace"
    case BAD_METHOD => ""
  }

  lemma MethodWords(m: HttpMethod)
    ensures !m.BAD_METHOD? ==>
              var text, word := MethodText(m), MethodWord(m);
              && |text| == |word| && 2 <= |text| < HTTP_METHOD_SIZE
              && (forall i :: 0 <= i < |text| ==> LowerCase(text[i]) == word[i] && Capital(text[i]))
  {
  }

  // The two letters that tell the methods apart.
  lemma MethodLetters(m: HttpMethod, o: HttpMethod)
    requires m != o && !m.BAD_METHOD? && !o.BAD_METHOD?
    ensures |MethodWord(m)| >= 2 && |MethodWord(o)| >= 2
    ensures MethodWord(m)[0] != MethodWord(o)[0] || MethodWord(m)[1] != MethodWord(o)[1]
  {
  }

  // A printed method reads back, whatever follows it on the line.
  lemma MethodRoundTrip(m: HttpMethod, rest: string)
    requires !m.BAD_METHOD?
    ensures MethodOf(MethodText(m) + rest) == m
    ensures 2 <= |MethodText(m)| < HTTP_METHOD_SIZE && AllIn(MethodText(m), Capital)
  {
    var s := MethodText(m) + rest;
    MethodWords(m);
    ThisWord(MethodText(m), rest, MethodWord(m));
    forall o: HttpMethod | o != m && !o.BAD_METHOD? ensures !StartsWith(s, MethodWord(o)) {
      MethodLetters(m, o);
      assert s[0] == MethodText(m)[0] && s[1] == MethodText(m)[1];
      OtherWord(s, MethodWord(o));
    }
    WordsDecide(s, m);
  }

  lemma WordsDecide(s: string, m: HttpMethod)
    requires !m.BAD_METHOD? && StartsWith(s, MethodWord(m))
    requires forall o: HttpMethod :: o != m && !o.BAD_METHOD? ==> !StartsWith(s, MethodWord(o))
    ensures MethodOf(s) == m
  {
    hide StartsWith;
    assert MethodWord(POST) == "post" && MethodWord(GET) == "get" && MethodWord(PUT) == "put";
    assert MethodWord(DELETE) == "delete" && MethodWord(HEAD) == "head" && MethodWord(OPTIONS) == "options";
    assert MethodWord(PATCH) == "patch" && MethodWord(CONNECT) == "connect" && MethodWord(TRACE) == "trace";
  }

  lemma RequestLineRoundTrip(q: HttpRequest, tokens: seq<string>)
    requires Printable(q, tokens)
    ensures GoodLine(RequestLine(q, tokens))
    ensures ControlData(ZERO_REQUEST, RequestLine(q, tokens)) ==
            Returned(0, ZERO_REQUEST.(httpMethod := q.httpMethod, uri := Padded(tokens), version := q.version))
  {
    hide MatchControl, Tokens, MethodOf, MethodText, Target, InBounds, ControlWrites;
    var c := Control(MethodText(q.httpMethod), Target(tokens), q.version);
    TargetTokens(tokens);
    MethodRoundTrip(q.httpMethod, " " + c.target + " " + c.version);
    assert ControlText(c) == c.httpMethod + (" " + c.target + " " + c.version);
    ControlMatches(c);
    TokensAreStored(ZERO_REQUEST.uri, tokens, 0);
    assert ZERO_REQUEST.uri[..0] + tokens + ZERO_REQUEST.uri[|tokens|..] == Padded(tokens);
    assert RequestLine(q, tokens) == ControlText(c);
    ControlIsDefinedIff(ZERO_REQUEST, ControlText(c));
    FreeLine(c);
  }

  lemma FreeLine(c: Control)
    requires AllIn(c.httpMethod, Capital) && Free(c.target, " \r\n") && NoNul(c.target) && IsVersion(c.version)
    ensures Free(ControlText(c), BREAKS) && NoNul(ControlText(c))
  {
    assert forall i :: 0 <= i < |c.httpMethod| ==> Capital(c.httpMethod[i]);
    assert forall i :: 0 <= i < 3 ==> VersionChar(c.version[5..][i]);
    assert c.version == "HTTP/" + c.version[5..];
  }

  lemma HeadersRoundTrip(q0: HttpRequest, q: HttpRequest)
    ensures StoreAll(q0, PrintedHeaders(q)) ==
            q0.(host := q.host, userAgent := q.userAgent, accept := q.accept, acceptLanguage := q.acceptLanguage,
                acceptEncoding := q.acceptEncoding, connection := q.connection)
  {
    var fs := PrintedHeaders(q);
    PrintedNames();
    hide Lower, StartsWith, Strtol;
    assert StoreAll(q0, fs) == StoreAll(Store(q0, fs[0]), fs[1..]);
    var q1 := Store(q0, fs[0]);
    var q2 := Store(q1, fs[1]);
    var q3 := Store(q2, fs[2]);
    var q4 := Store(q3, fs[3]);
    var q5 := Store(q4, fs[4]);
    var q6 := Store(q5, fs[5]);
    assert StoreAll(q1, fs[1..]) == StoreAll(q2, fs[2..]);
    assert StoreAll(q2, fs[2..]) == StoreAll(q3, fs[3..]);
    assert StoreAll(q3, fs[3..]) == StoreAll(q4, fs[4..]);
    assert StoreAll(q4, fs[4..]) == StoreAll(q5, fs[5..]);
    assert StoreAll(q5, fs[5..]) == StoreAll(q6, fs[6..]);
    assert StoreAll(q6, fs[6..]) == q6;
  }

  lemma PrintedNames()
    ensures Lower("Host") == "host" && Lower("User-Agent") == "user-agent" && Lower("Accept") == "accept"
    ensures Lower("Accept-Language") == "accept-language" && Lower("Accept-Encoding") == "accept-encoding"
    ensures Lower("Connection") == "connection"
    ensures StartsWith("keep-alive", "keep-alive") && StartsWith("close", "close") && !StartsWith("close", "keep-alive")
  {
    hide Lower;
    LowerIs("Host", "host");
    LowerIs("User-Agent", "user-agent");
    LowerIs("Accept", "accept");
    LowerIs("Accept-Language", "accept-language");
    LowerIs("Accept-Encoding", "accept-encoding");
    LowerIs("Connection", "connection");
    LowerIs("keep-alive", "keep-alive");
    LowerIs("close", "close");
    assert "keep-alive"[..10] == "keep-alive" && "close"[..5] == "close";
  }

  // Printing a request and reading it into a fresh row gives the request back, field by field.
  lemma RequestRoundTrip(q: HttpRequest, tokens: seq<string>)
    requires Printable(q, tokens)
    ensures ParseRequest(ZERO_REQUEST, Printed(q, tokens)) == Returned(0, q)
  {
    hide ControlData, Store, Tokens, Padded;
    var fs := PrintedHeaders(q);
    RequestLineRoundTrip(q, tokens);
    HeadersAreAccepted(q, tokens);
    RequestLines(RequestLine(q, tokens), fs);
    var q1 := ZERO_REQUEST.(httpMethod := q.httpMethod, uri := Padded(tokens), version := q.version);
    HeadersAreStored(q1, fs, [], 0);
    assert Texts(fs) + [] == Texts(fs);
    HeadersRoundTrip(q1, q);
  }

  lemma HeadersAreAccepted(q: HttpRequest, tokens: seq<string>)
    requires Printable(q, tokens)
    ensures forall i :: 0 <= i < |PrintedHeaders(q)| ==> Accepted(PrintedHeaders(q)[i])
    ensures AllStay(PrintedHeaders(q))
  {
    PrintedNames();
    PrintedNameChars();
    ConnectionValues();
    hide Lower, AllIn, Free, NoNul;
  }

  lemma PrintedNameChars()
    ensures AllIn("Host", HeaderNameChar) && AllIn("User-Agent", HeaderNameChar) && AllIn("Accept", HeaderNameChar)
    ensures AllIn("Accept-Language", HeaderNameChar) && AllIn("Accept-Encoding", HeaderNameChar)
    ensures AllIn("Connection", HeaderNameChar)
  {
  }

  lemma ConnectionValues()
    ensures Free("keep-alive", BREAKS) && Free("close", BREAKS) && NoNul("keep-alive") && NoNul("close")
  {
  }

  // ----- The other three headers -----

  // "%ld"
  function SignedDecimal(n: int): string { if n < 0 then "-" + Decimal(-n) else Decimal(n) }

  lemma {:induction false} DigitsEnd(a: string, c: char, value: nat)
    requires (forall i :: 0 <= i < |a| ==> '0' <= a[i] <= '9') && '0' <= c <= '9'
    ensures Digits(a + [c], value) == 10 * Digits(a, value) + (c - '0') as nat
  {
    if a == "" {
      assert a + [c] == [c];
      assert [c][1..] == "";
    } else {
      assert (a + [c])[1..] == a[1..] + [c];
      DigitsEnd(a[1..], c, 10 * value + (a[0] - '0') as nat);
    }
  }

  lemma {:induction false} DigitsOfDecimal(n: nat)
    ensures Digits(Decimal(n), 0) == n
  {
    if n >= 10 {
      DigitsOfDecimal(n / 10);
      DigitsEnd(Decimal(n / 10), Digit(n % 10), 0);
    } else {
      assert [Digit(n)][1..] == "";
    }
  }

  // strtol reads back every `long`.
  lemma StrtolRoundTrip(n: int)
    requires -LONG_MAX - 1 <= n <= LONG_MAX
    ensures Strtol(SignedDecimal(n)) == n
  {
    if n < 0 {
      DigitsOfDecimal(-n);
      assert ("-" + Decimal(-n))[1..] == Decimal(-n);
    } else {
      DigitsOfDecimal(n);
      assert '0' <= Decimal(n)[0] <= '9';
    }
  }

  // The headers that the parser knows and the printer does not write.
  function MoreHeaders(q: HttpRequest): seq<Field> {
    [Field("If-None-Match", q.ifNoneMatch), Field("Content-Type", q.contentType),
     Field("Content-Length", SignedDecimal(q.contentLength))]
  }

  // The row that the printer starts from.
  function Plain(q: HttpRequest): HttpRequest { q.(ifNoneMatch := "", contentType := "", contentLength := 0) }

  predicate FullyPrintable(q: HttpRequest, tokens: seq<string>) {
    && Printable(Plain(q), tokens)
    && GoodValue(q.ifNoneMatch) && |q.ifNoneMatch| < HTTP_HEADER_ETAG_SIZE && GoodValue(q.contentType)
    && -LONG_MAX - 1 <= q.contentLength <= LONG_MAX
  }

  lemma MoreNames()
    ensures Lower("If-None-Match") == "if-none-match" && Lower("Content-Type") == "content-type"
    ensures Lower("Content-Length") == "content-length"
  {
    hide Lower;
    LowerIs("If-None-Match", "if-none-match");
    LowerIs("Content-Type", "content-type");
    LowerIs("Content-Length", "content-length");
  }

  lemma MoreRoundTrip(q0: HttpRequest, q: HttpRequest)
    requires -LONG_MAX - 1 <= q.contentLength <= LONG_MAX
    ensures StoreAll(q0, MoreHeaders(q)) ==
            q0.(ifNoneMatch := q.ifNoneMatch, contentType := q.contentType, contentLength := q.contentLength)
  {
    var fs := MoreHeaders(q);
    MoreNames();
    StrtolRoundTrip(q.contentLength);
    hide Lower, StartsWith, Strtol, SignedDecimal;
    var q1 := Store(q0, fs[0]);
    var q2 := Store(q1, fs[1]);
    var q3 := Store(q2, fs[2]);
    assert StoreAll(q0, fs) == StoreAll(q1, fs[1..]);
    assert StoreAll(q1, fs[1..]) == StoreAll(q2, fs[2..]);
    assert StoreAll(q2, fs[2..]) == StoreAll(q3, fs[3..]);
    assert StoreAll(q3, fs[3..]) == q3;
  }

  lemma {:induction false} StoreAllSplits(q: HttpRequest, fs: seq<Field>, gs: seq<Field>)
    ensures StoreAll(q, fs + gs) == StoreAll(StoreAll(q, fs), gs)
    decreases |fs|
  {
    if fs == [] {
      assert fs + gs == gs;
    } else {
      assert (fs + gs)[1..] == fs[1..] + gs;
      StoreAllSplits(Store(q, fs[0]), fs[1..], gs);
    }
  }

  lemma MoreAreAccepted(q: HttpRequest)
    requires GoodValue(q.ifNoneMatch) && GoodValue(q.contentType) && -LONG_MAX - 1 <= q.contentLength <= LONG_MAX
    ensures forall i :: 0 <= i < |MoreHeaders(q)| ==> Accepted(MoreHeaders(q)[i])
  {
    LongIsShort(q.contentLength);
    MoreNameChars();
    hide SignedDecimal, AllIn, Free, NoNul;
  }

  lemma MoreStay(q: HttpRequest)
    requires |q.ifNoneMatch| < HTTP_HEADER_ETAG_SIZE
    ensures AllStay(MoreHeaders(q))
  {
    MoreNames();
    MoreHeadersAre();
    hide Lower, HeaderOf, SignedDecimal;
  }

  lemma MoreHeadersAre()
    ensures HeaderOf("if-none-match").IfNoneMatch? && HeaderOf("content-type").ContentType?
    ensures HeaderOf("content-length").ContentLength?
  {
  }

  lemma MoreNameChars()
    ensures AllIn("If-None-Match", HeaderNameChar) && AllIn("Content-Type", HeaderNameChar)
    ensures AllIn("Content-Length", HeaderNameChar)
  {
  }

  lemma LongIsShort(n: int)
    requires -LONG_MAX - 1 <= n <= LONG_MAX
    ensures |SignedDecimal(n)| <= 20 && Free(SignedDecimal(n), BREAKS) && NoNul(SignedDecimal(n))
  {
    assert Power10(5) == 10_0000;
    assert Power10(10) == 100_0000_0000;
    assert Power10(15) == 1_000_000_000_000_000;
    assert Power10(19) == 10_000_000_000_000_000_000;
    DecimalLength(if n < 0 then -n else n, 19, 10_000_000_000_000_000_000);
  }

  // With the other three headers written as well, every field that the parser fills reads back.
  lemma FullRequestRoundTrip(q: HttpRequest, tokens: seq<string>)
    requires FullyPrintable(q, tokens)
    ensures var text := JoinLines([RequestLine(q, tokens)] + Texts(PrintedHeaders(q) + MoreHeaders(q)));
            ParseRequest(ZERO_REQUEST, text) == Returned(0, q)
  {
    hide ControlData, Store, Tokens, Padded, SignedDecimal;
    var p, fs := Plain(q), PrintedHeaders(q) + MoreHeaders(q);
    assert PrintedHeaders(p) == PrintedHeaders(q) && RequestLine(p, tokens) == RequestLine(q, tokens);
    RequestLineRoundTrip(p, tokens);
    HeadersAreAccepted(p, tokens);
    MoreAreAccepted(q);
    MoreStay(q);
    RequestLines(RequestLine(q, tokens), fs);
    var q1 := ZERO_REQUEST.(httpMethod := q.httpMethod, uri := Padded(tokens), version := q.version);
    HeadersAreStored(q1, fs, [], 0);
    assert Texts(fs) + [] == Texts(fs);
    StoreAllSplits(q1, PrintedHeaders(q), MoreHeaders(q));
    HeadersRoundTrip(q1, q);
    MoreRoundTrip(StoreAll(q1, PrintedHeaders(q)), q);
  }
}
