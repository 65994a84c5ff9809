/** Reading a request: lines split at CR and LF, a control line and header lines matched against
    two fixed patterns, fields stored one by one. */
module Request {
  import opened HttpTypes
  import opened Messages
  import opened Tokenizer

  const BREAKS := "\r\n"

  // ----- The two patterns -----

  predicate AllIn(s: string, ok: char -> bool) { forall i :: 0 <= i < |s| ==> ok(s[i]) }

  predicate Capital(c: char) { 'A' <= c <= 'Z' }

  predicate NoSpace(c: char) { c != ' ' }

  predicate VersionChar(c: char) { '0' <= c <= '9' || c == '.' }

  predicate HeaderNameChar(c: char) { 'A' <= c <= 'Z' || 'a' <= c <= 'z' || '0' <= c <= '9' || c == '-' }

  // \s
  predicate Blank(c: char) { c == ' ' || 9 as char <= c <= 13 as char }

  predicate IsVersion(v: string) { |v| == 8 && v[..5] == "HTTP/" && AllIn(v[5..], VersionChar) }

  datatype Control = Control(httpMethod: string, target: string, version: string)

  predicate ControlParts(c: Control) {
    && 2 <= |c.httpMethod| <= 12 && AllIn(c.httpMethod, Capital)
    && c.target != "" && AllIn(c.target, NoSpace)
    && IsVersion(c.version)
  }

  function ControlText(c: Control): string { c.httpMethod + " " + c.target + " " + c.version }

  // ^([A-Z]{2,12}) ([^ ]+) (HTTP/[0-9.]{3})$
  function MatchControl(line: string): Option<Control> {
    match IndexOf(line, ' ')
    case None => None
    case Some(i) =>
      match IndexOf(line[i + 1..], ' ')
      case None => None
      case Some(j) =>
        var c := Control(line[..i], line[i + 1..][..j], line[i + 1..][j + 1..]);
        if ControlParts(c) then Some(c) else None
  }

  // ^([A-Za-z0-9-]+):\s(.*)$
  function MatchHeader(line: string): Option<Field> {
    match IndexOf(line, ':')
    case None => None
    case Some(i) =>
      if 0 < i && i + 1 < |line| && AllIn(line[..i], HeaderNameChar) && Blank(line[i + 1])
      then Some(Field(line[..i], line[i + 2..]))
      else None
  }

  lemma {:induction false} IndexOfSplits(s: string, c: char)
    ensures match IndexOf(s, c)
            case None => forall i :: 0 <= i < |s| ==> s[i] != c
            case Some(i) => s == s[..i] + [c] + s[i + 1..] && forall k :: 0 <= k < i ==> s[k] != c
  {
    if s != "" && s[0] != c {
      IndexOfSplits(s[1..], c);
    }
  }

  // The control pattern matches exactly the lines made of three such parts.
  lemma ControlPattern(line: string, c: Control)
    ensures MatchControl(line) == Some(c) <==> ControlParts(c) && line == ControlText(c)
  {
    if ControlParts(c) && line == ControlText(c) {
      ControlMatches(c);
    }
    if MatchControl(line) == Some(c) {
      IndexOfSplits(line, ' ');
      IndexOfSplits(line[IndexOf(line, ' ').value + 1..], ' ');
    }
  }

  lemma ControlMatches(c: Control)
    requires ControlParts(c)
    ensures MatchControl(ControlText(c)) == Some(c)
  {
    hide IndexOf, IsVersion;
    assert forall i :: 0 <= i < |c.httpMethod| ==> Capital(c.httpMethod[i]);
    BetweenSpaces(c.httpMethod, c.target, c.version);
    var line := ControlText(c);
    assert line[..|c.httpMethod|] == c.httpMethod;
    assert line[|c.httpMethod| + 1..][|c.target| + 1..] == c.version;
  }

  // The header pattern matches exactly the lines made of a name, a colon, a blank and a value.
  lemma HeaderPattern(line: string, f: Field)
    ensures MatchHeader(line) == Some(f) <==>
            && f.name != "" && AllIn(f.name, HeaderNameChar)
            && exists b: char :: Blank(b) && line == f.name + ":" + [b] + f.value
  {
    if MatchHeader(line) == Some(f) {
      IndexOfSplits(line, ':');
      var i := IndexOf(line, ':').value;
      assert line == f.name + ":" + [line[i + 1]] + f.value;
    }
    if b: char :| f.name != "" && AllIn(f.name, HeaderNameChar) && Blank(b) && line == f.name + ":" + [b] + f.value {
      HeaderMatches(line, f, b);
    }
  }

  lemma HeaderMatches(line: string, f: Field, b: char)
    requires f.name != "" && AllIn(f.name, HeaderNameChar) && Blank(b) && line == f.name + ":" + [b] + f.value
    ensures MatchHeader(line) == Some(f)
  {
    assert forall i :: 0 <= i < |f.name| ==> HeaderNameChar(f.name[i]);
    assert line == f.name + [':'] + ([b] + f.value);
    IndexOfFirst(f.name, ':', [b] + f.value);
    assert line[..|f.name|] == f.name && line[|f.name| + 2..] == f.value;
  }

  // ----- Methods and numbers -----

  // strncasecmp over the length of a word in small letters.
  predicate StartsWith(s: string, word: string) {
    |word| <= |s| && Lower(s[..|word|]) == word
  }

  // method_str_to_enum, in its order
  function MethodOf(raw: string): HttpMethod {
    if StartsWith(raw, "post") then POST
    else if StartsWith(raw, "get") then GET
    else if StartsWith(raw, "put") then PUT
    else if StartsWith(raw, "delete") then DELETE
    else if StartsWith(raw, "head") then HEAD
    else if StartsWith(raw, "options") then OPTIONS
    else if StartsWith(raw, "patch") then PATCH
    else if StartsWith(raw, "connect") then CONNECT
    else if StartsWith(raw, "trace") then TRACE
    else BAD_METHOD
  }

  const LONG_MAX: int := 0x7fff_ffff_ffff_ffff

  // The value of the leading digits.
  function Digits(s: string, value: nat): nat {
    if s != "" && '0' <= s[0] <= '9' then Digits(s[1..], 10 * value + (s[0] - '0') as nat) else value
  }

  // strtol in base ten: blanks, a sign, digits, and the ends of `long` for what is too large.
  function Strtol(s: string): int {
    if s != "" && Blank(s[0]) then Strtol(s[1..])
    else if s != "" && s[0] == '-'
        then (var d: int := Digits(s[1..], 0); if d > LONG_MAX + 1 then -LONG_MAX - 1 else -d)
    else
      var d: int := Digits(if s != "" && s[0] == '+' then s[1..] else s, 0);
      if d > LONG_MAX then LONG_MAX else d
  }

  // ----- Storing -----

  const HEADER_NAME_SIZE := 100

  datatype Header =
    | Host | UserAgent | Accept | AcceptLanguage | AcceptEncoding | ConnectionHeader | IfNoneMatch
    | ContentType | ContentLength | Unknown

  // Which header a name is, given in small letters.
  function HeaderOf(key: string): Header {
    if key == "host" then Host
    else if key == "user-agent" then UserAgent
    else if key == "accept" then Accept
    else if key == "accept-language" then AcceptLanguage
    else if key == "accept-encoding" then AcceptEncoding
    else if key == "connection" then ConnectionHeader
    else if key == "if-none-match" then IfNoneMatch
    else if key == "content-type" then ContentType
    else if key == "content-length" then ContentLength
    else Unknown
  }

  // The field that a header goes to, and what becomes of it there.
  function StoreAs(q: HttpRequest, h: Header, value: string): HttpRequest {
    match h
    case Host => q.(host := value)
    case UserAgent => q.(userAgent := value)
    case Accept => q.(accept := value)
    case AcceptLanguage => q.(acceptLanguage := value)
    case AcceptEncoding => q.(acceptEncoding := value)
    case ConnectionHeader =>
      if StartsWith(value, "keep-alive") then q.(connection := KeepAlive)
      else if StartsWith(value, "close") then q.(connection := Close)
      else q
    case IfNoneMatch => q.(ifNoneMatch := value)
    case ContentType => q.(contentType := value)
    case ContentLength => q.(contentLength := Strtol(value))
    case Unknown => q
  }

  function Store(q: HttpRequest, f: Field): HttpRequest { StoreAs(q, HeaderOf(Lower(f.name)), f.value) }

  // ----- Where the characters go -----

  // What a call leaves: its result and the request; or nothing that C defines, when a write ran
  // over the end of its array or there was no line to match.
  datatype Outcome = Returned(code: int, request: HttpRequest) | Undefined

  // A copy into an array of `size` characters, `extent` of them written, terminator included.
  datatype Write = Write(size: nat, extent: nat)

  predicate InBounds(ws: seq<Write>) { forall i :: 0 <= i < |ws| ==> ws[i].extent <= ws[i].size }

  // The size of the array that a header is copied to, if it is.
  function FieldSize(h: Header): Option<nat> {
    match h
    case IfNoneMatch => Some(HTTP_HEADER_ETAG_SIZE)
    case ConnectionHeader => None
    case ContentLength => None
    case Unknown => None
    case _ => Some(HTTP_HEADER_SIZE)
  }

  // The copies that parse_header_field makes of a header.
  function HeaderWrites(f: Field): seq<Write> {
    [Write(HEADER_NAME_SIZE, |f.name| + 1)] +
    match FieldSize(HeaderOf(Lower(f.name)))
    case None => []
    case Some(size) => [Write(size, |f.value| + 1)]
  }

  // The copies that parse_control_data makes, but for the tokens, whose length it bounds by 200.
  function ControlWrites(c: Control): seq<Write> {
    [Write(HTTP_METHOD_SIZE, |c.httpMethod| + 1),
     Write(HTTP_URI_TOKEN_COUNT * HTTP_URI_TOKEN_SIZE, |c.target| + 1),
     Write(HTTP_VERSION_SIZE, |c.version| + 1)]
  }

  // ----- Lines -----

  predicate HeaderTooBig(f: Field) { |f.name| >= HEADER_NAME_SIZE || |f.value| >= HTTP_HEADER_SIZE }

  predicate TargetTooBig(c: Control) { |c.target| >= HTTP_URI_TOKEN_COUNT * HTTP_URI_TOKEN_SIZE }

  // parse_header_field
  function HeaderField(q: HttpRequest, line: string): Outcome {
    match MatchHeader(line)
    case None => Returned(-1, q)
    case Some(f) =>
      if HeaderTooBig(f) then Returned(-1, q)
      else if InBounds(HeaderWrites(f)) then Returned(0, Store(q, f))
      else Undefined
  }

  // The tokens of the path, stored up to the fourth or to the first that is too long.
  function StoreTokens(uri: seq<string>, tokens: seq<string>, i: nat): (bool, seq<string>)
    requires |uri| == HTTP_URI_TOKEN_COUNT && i <= HTTP_URI_TOKEN_COUNT
    decreases HTTP_URI_TOKEN_COUNT - i
  {
    if i == HTTP_URI_TOKEN_COUNT || tokens == [] then (true, uri)
    else if |tokens[0]| >= HTTP_URI_TOKEN_SIZE - 1 then (false, uri)
    else StoreTokens(uri[i := tokens[0]], tokens[1..], i + 1)
  }

  // parse_control_data: after an error what was stored before it stays.
  function ControlData(q: HttpRequest, line: string): Outcome
    requires |q.uri| == HTTP_URI_TOKEN_COUNT
  {
    match MatchControl(line)
    case None => Returned(-1, q)
    case Some(c) =>
      if TargetTooBig(c) then Returned(-1, q)
      else if !InBounds(ControlWrites(c)) then Undefined
      else
        var (ok, uri) := StoreTokens(q.uri, Tokens(c.target, "/"), 0);
        var q1 := q.(httpMethod := MethodOf(line), uri := uri);
        if ok then Returned(0, q1.(version := c.version)) else Returned(-1, q1)
  }

  // The header lines in turn, up to the first that fails. `last` is what the line before returned.
  function HeaderLines(q: HttpRequest, lines: seq<string>, last: int): Outcome
    decreases |lines|
  {
    if lines == [] then Returned(last, q)
    else match HeaderField(q, lines[0])
      case Undefined => Undefined
      case Returned(r, q1) => if r != 0 then Returned(r, q1) else HeaderLines(q1, lines[1..], 0)
  }

  // The lines that strtok_r gives of the bytes received: it goes no further than a NUL in them.
  function LinesOf(received: string): seq<string> { Tokens(UpToNul(received), BREAKS) }

  // parse_http_request. Without a line the pattern would be matched against NULL.
  function ParseRequest(q: HttpRequest, received: string): Outcome
    requires |q.uri| == HTTP_URI_TOKEN_COUNT
  {
    var lines := LinesOf(received);
    if lines == [] then Undefined
    else match ControlData(q, lines[0])
      case Undefined => Undefined
      case Returned(r, q1) => HeaderLines(q1, lines[1..], r)
  }

  // ----- When the copies stay in their arrays -----

  // Only the ETag field is smaller than what the pattern and the size checks let through.
  lemma HeaderIsDefinedIff(q: HttpRequest, line: string)
    ensures HeaderField(q, line) == Undefined <==>
            match MatchHeader(line)
            case None => false
            case Some(f) =>
              && |f.name| < HEADER_NAME_SIZE && HeaderOf(Lower(f.name)).IfNoneMatch?
              && HTTP_HEADER_ETAG_SIZE <= |f.value| < HTTP_HEADER_SIZE
  {
    if MatchHeader(line).Some? {
      hide HeaderOf, Lower, MatchHeader;
      var f := MatchHeader(line).value;
      var ws := HeaderWrites(f);
      assert ws[0].extent == |f.name| + 1;
      assert |ws| == 2 ==> ws[1].extent == |f.value| + 1;
    }
  }

  // And only the copy of the method is smaller than what its pattern lets through.
  lemma ControlIsDefinedIff(q: HttpRequest, line: string)
    requires |q.uri| == HTTP_URI_TOKEN_COUNT
    ensures ControlData(q, line) == Undefined <==>
            match MatchControl(line)
            case None => false
            case Some(c) => !TargetTooBig(c) && |c.httpMethod| >= HTTP_METHOD_SIZE
  {
    if MatchControl(line).Some? {
      var c := MatchControl(line).value;
      MatchedParts(line);
      hide MatchControl, MethodOf, Tokens;
      var ws := ControlWrites(c);
      assert ws[0].extent == |c.httpMethod| + 1 && ws[1].extent == |c.target| + 1 && ws[2].extent == 9;
    }
  }

  lemma MatchedParts(line: string)
    requires MatchControl(line).Some?
    ensures |MatchControl(line).value.version| == 8
  {
  }

  // ----- The loops -----

  // parse_control_data
  method ParseControlData(q: HttpRequest, line: string) returns (r: Outcome)
    requires |q.uri| == HTTP_URI_TOKEN_COUNT
    ensures r == ControlData(q, line)
    ensures r.Returned? ==> |r.request.uri| == HTTP_URI_TOKEN_COUNT
  {
    hide MatchControl, MethodOf, Tokens;
    var parts := MatchControl(line);
    if parts == None {
      return Returned(-1, q);
    }
    var c := parts.value;
    if |c.target| >= HTTP_URI_TOKEN_COUNT * HTTP_URI_TOKEN_SIZE {
      return Returned(-1, q);
    }
    if |c.httpMethod| >= HTTP_METHOD_SIZE {
      ControlIsDefinedIff(q, line);
      return Undefined;
    }
    ControlIsDefinedIff(q, line);
    hide InBounds, ControlWrites;
    var q' := q.(httpMethod := MethodOf(line));
    var uri := q.uri;
    ghost var all := StoreTokens(uri, Tokens(c.target, "/"), 0);
    assert c.target[0..] == c.target;
    var token, at := StrTok(c.target, 0, "/");
    var i := 0;
    while i < HTTP_URI_TOKEN_COUNT && token.Some?
      invariant 0 <= i <= HTTP_URI_TOKEN_COUNT && |uri| == HTTP_URI_TOKEN_COUNT && at <= |c.target|
      invariant token.Some? ==> StoreTokens(uri, [token.value] + Tokens(c.target[at..], "/"), i) == all
      invariant token == None ==> StoreTokens(uri, [], i) == all
    {
      if |token.value| >= HTTP_URI_TOKEN_SIZE - 1 {
        return Returned(-1, q'.(uri := uri));
      }
      uri := uri[i := token.value];
      assert ([token.value] + Tokens(c.target[at..], "/"))[1..] == Tokens(c.target[at..], "/");
      token, at := StrTok(c.target, at, "/");
      i := i + 1;
    }
    return Returned(0, q'.(uri := uri, version := c.version));
  }

  // parse_http_request, on the bytes received; the NUL that the receiver adds to them makes no
  // difference. `granted` is the outcome of malloc.
  method ParseHttpRequest(q: HttpRequest, received: string, granted: bool) returns (r: Outcome)
    requires |q.uri| == HTTP_URI_TOKEN_COUNT
    ensures r == if granted then ParseRequest(q, received) else Returned(ALLOCATE_MEMORY_ERROR, q)
  {
    hide Tokens, ControlData, HeaderField;
    if !granted {
      return Returned(ALLOCATE_MEMORY_ERROR, q);
    }
    var text := UpToNul(received);
    assert text[0..] == text;
    ghost var lines := Tokens(text, BREAKS);
    var line, at := StrTok(text, 0, BREAKS);
    if line == None {
      return Undefined;
    }
    assert lines[1..] == Tokens(text[at..], BREAKS);
    r := ParseControlData(q, line.value);
    line, at := StrTok(text, at, BREAKS);
    while line.Some? && r.Returned?
      invariant at <= |text|
      invariant r.Returned? && line.Some? ==>
                  HeaderLines(r.request, [line.value] + Tokens(text[at..], BREAKS), r.code) == ParseRequest(q, received)
      invariant r == Undefined || line == None ==> r == ParseRequest(q, received)
      decreases if line.Some? then |text| - at + 1 else 0
    {
      assert ([line.value] + Tokens(text[at..], BREAKS))[1..] == Tokens(text[at..], BREAKS);
      r := HeaderField(r.request, line.value);
      if r == Undefined || r.code != 0 {
        return;
      }
      line, at := StrTok(text, at, BREAKS);
    }
  }
}
