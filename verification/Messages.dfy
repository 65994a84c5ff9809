/** The text of an HTTP/1.1 response, and a parser for it written from sections 2.1, 4, 6.2 and 6.3
    of RFC 9112 alone: lines end in CRLF, the first blank line ends the head, and Content-Length
    says in decimal how long the body is. */
module Messages {
  import opened HttpTypes

  // ----- Decimal numbers -----

  function Digit(d: nat): char
    requires d < 10
  {
    '0' + d as char
  }

  // "%ld" of a number that is not negative.
  function Decimal(n: nat): (s: string)
    ensures |s| > 0
    ensures forall i :: 0 <= i < |s| ==> '0' <= s[i] <= '9'
  {
    if n < 10 then [Digit(n)] else Decimal(n / 10) + [Digit(n % 10)]
  }

  function ReadDecimal(s: string): Option<nat> {
    if s == [] then None
    else
      var c := s[|s| - 1];
      if !('0' <= c <= '9') then None
      else if |s| == 1 then Some((c - '0') as nat)
      else match ReadDecimal(s[..|s| - 1])
        case None => None
        case Some(n) => Some(10 * n + (c - '0') as nat)
  }

  lemma {:induction false} DecimalRoundTrip(n: nat)
    ensures ReadDecimal(Decimal(n)) == Some(n)
  {
    if n >= 10 {
      DecimalRoundTrip(n / 10);
      var s := Decimal(n);
      assert s[..|s| - 1] == Decimal(n / 10);
    }
  }

  // A number below 10 to the k has at most k digits.
  lemma {:induction false} DecimalLength(n: nat, k: nat, bound: nat)
    requires 0 < k && n < bound && bound == Power10(k)
    ensures |Decimal(n)| <= k
    decreases k
  {
    if n >= 10 {
      assert k > 1;
      DecimalLength(n / 10, k - 1, Power10(k - 1));
    }
  }

  function Power10(k: nat): nat { if k == 0 then 1 else 10 * Power10(k - 1) }

  // ----- Writing -----

  const HTTP_VERSION := "1.1"
  const CRLF := "\r\n"

  function StatusCode(s: HttpStatus): nat {
    match s
    case OK => 200
    case MovedPermanently => 301
    case NotModified => 304
    case BadRequest => 400
    case NotFound => 404
    case MethodNotAllowed => 405
    case NotAcceptable => 406
    case InternalServerError => 500
    case NotImplemented => 501
    case ServiceUnavailable => 503
    case Unset => 0
  }

  // http_status_code_to_str
  function Reason(s: HttpStatus): (r: string)
    ensures |r| <= 21 && NoCr(r)
  {
    match s
    case OK => "OK"
    case MovedPermanently => "Moved Permanently"
    case NotModified => "Not Modified"
    case BadRequest => "Bad Request"
    case NotFound => "Not Found"
    case MethodNotAllowed => "Method Not Allowed"
    case NotAcceptable => "Not Acceptable"
    case InternalServerError => "Internal Server Error"
    case NotImplemented => "Not Implemented"
    case ServiceUnavailable => "Service Unavailable"
    case Unset => "Unknown"
  }

  function StatusLine(s: HttpStatus): string {
    "HTTP/" + HTTP_VERSION + " " + Decimal(StatusCode(s)) + " " + Reason(s)
  }

  datatype Field = Field(name: string, value: string)

  // A header with an empty value is left out.
  function Optional(name: string, value: string): seq<Field> {
    if value == "" then [] else [Field(name, value)]
  }

  // The headers in the order in which to_string writes them.
  function Fields(r: HttpResponse): seq<Field> {
    Optional("Content-Type", r.contentType) +
    (if r.contentLength >= 0 then [Field("Content-Length", Decimal(r.contentLength))] else []) +
    Optional("Content-Language", r.contentLanguage) +
    Optional("Date", r.date) +
    Optional("ETag", r.etag) +
    Optional("Location", r.location) +
    Optional("Last-Modified", r.lastModified) +
    Optional("Content-Encoding", r.contentEncoding)
  }

  function FieldLine(f: Field): string { f.name + ": " + f.value + CRLF }

  function FieldLines(fs: seq<Field>): string {
    if fs == [] then "" else FieldLine(fs[0]) + FieldLines(fs[1..])
  }

  function Head(r: HttpResponse): string { StatusLine(r.status) + CRLF + FieldLines(Fields(r)) }

  function Message(r: HttpResponse, body: string): string { Head(r) + CRLF + body }

  // ----- Reading -----

  // Where the first line ends.
  function LineEnd(s: string): Option<nat> {
    if |s| < 2 then None
    else if s[0] == '\r' && s[1] == '\n' then Some(0)
    else match LineEnd(s[1..]) case None => None case Some(i) => Some(i + 1)
  }

  lemma {:induction false} LineEndBound(s: string)
    ensures LineEnd(s).Some? ==> LineEnd(s).value + 2 <= |s|
  {
    if |s| >= 2 {
      LineEndBound(s[1..]);
    }
  }

  datatype Split = Split(lines: seq<string>, rest: string)

  // The lines before the first blank one, and what follows it.
  function SplitHead(s: string): Option<Split>
    decreases |s|
  {
    LineEndBound(s);
    match LineEnd(s)
    case None => None
    case Some(i) =>
      if i == 0 then Some(Split([], s[2..]))
      else match SplitHead(s[i + 2..])
        case None => None
        case Some(split) => Some(Split([s[..i]] + split.lines, split.rest))
  }

  // The first place of a character.
  function IndexOf(s: string, c: char): (r: Option<nat>)
    ensures r.Some? ==> r.value < |s|
  {
    if s == [] then None
    else if s[0] == c then Some(0)
    else match IndexOf(s[1..], c) case None => None case Some(i) => Some(i + 1)
  }

  function ReadField(line: string): Option<Field> {
    match IndexOf(line, ':')
    case None => None
    case Some(i) =>
      if i + 1 < |line| && line[i + 1] == ' ' then Some(Field(line[..i], line[i + 2..])) else None
  }

  function ReadFields(lines: seq<string>): Option<seq<Field>> {
    if lines == [] then Some([])
    else match ReadField(lines[0])
      case None => None
      case Some(f) =>
        match ReadFields(lines[1..]) case None => None case Some(fs) => Some([f] + fs)
  }

  // The three digits between the first two spaces.
  function ReadStatus(line: string): Option<nat> {
    match IndexOf(line, ' ')
    case None => None
    case Some(i) =>
      match IndexOf(line[i + 1..], ' ')
      case None => None
      case Some(j) => ReadDecimal(line[i + 1..][..j])
  }

  function ValueOf(fs: seq<Field>, name: string): Option<string> {
    if fs == [] then None else if fs[0].name == name then Some(fs[0].value) else ValueOf(fs[1..], name)
  }

  datatype Parsed = Parsed(status: nat, fields: seq<Field>, body: string)

  // A message that is exactly as long as its Content-Length says.
  function ReadMessage(s: string): Option<Parsed> {
    match SplitHead(s)
    case None => None
    case Some(split) =>
      if split.lines == [] then None
      else match (ReadStatus(split.lines[0]), ReadFields(split.lines[1..]))
        case (Some(code), Some(fs)) =>
          (match ValueOf(fs, "Content-Length")
           case None => None
           case Some(v) => if ReadDecimal(v) == Some(|split.rest|) then Some(Parsed(code, fs, split.rest)) else None)
        case _ => None
  }

  // ----- Reading what was written -----

  predicate NoCr(s: string) { forall i :: 0 <= i < |s| ==> s[i] != '\r' }

  lemma {:induction false} LineEndOf(line: string, rest: string)
    requires NoCr(line)
    ensures LineEnd(line + CRLF + rest) == Some(|line|)
  {
    var s := line + CRLF + rest;
    if line == "" {
      assert s[0] == '\r' && s[1] == '\n';
    } else {
      assert |s| > 2 && s[0] == line[0];
      assert s[1..] == line[1..] + CRLF + rest;
      LineEndOf(line[1..], rest);
      assert LineEnd(s[1..]) == Some(|line| - 1);
      assert s[0] != '\r';
    }
  }

  function JoinLines(lines: seq<string>): string {
    if lines == [] then "" else lines[0] + CRLF + JoinLines(lines[1..])
  }

  lemma {:induction false} SplitJoined(lines: seq<string>, body: string)
    requires forall i :: 0 <= i < |lines| ==> lines[i] != "" && NoCr(lines[i])
    ensures SplitHead(JoinLines(lines) + CRLF + body) == Some(Split(lines, body))
    decreases |lines|
  {
    var s := JoinLines(lines) + CRLF + body;
    if lines == [] {
      assert s == "" + CRLF + body;
      LineEndOf("", body);
      assert s[2..] == body;
    } else {
      var rest := JoinLines(lines[1..]) + CRLF + body;
      assert s == lines[0] + CRLF + rest;
      LineEndOf(lines[0], rest);
      assert s[|lines[0]| + 2..] == rest && s[..|lines[0]|] == lines[0];
      SplitJoined(lines[1..], body);
      assert [lines[0]] + lines[1..] == lines;
    }
  }

  lemma {:induction false} IndexOfFirst(a: string, c: char, b: string)
    requires forall i :: 0 <= i < |a| ==> a[i] != c
    ensures IndexOf(a + [c] + b, c) == Some(|a|)
  {
    if a != "" {
      assert (a + [c] + b)[1..] == a[1..] + [c] + b;
      IndexOfFirst(a[1..], c, b);
    }
  }

  predicate FieldName(name: string) { name != "" && forall i :: 0 <= i < |name| ==> name[i] != ':' && name[i] != '\r' }

  predicate Writable(f: Field) { FieldName(f.name) && NoCr(f.value) }

  function FieldText(f: Field): string { f.name + ": " + f.value }

  lemma FieldRoundTrip(f: Field)
    requires Writable(f)
    ensures ReadField(FieldText(f)) == Some(f)
    ensures FieldText(f) != "" && NoCr(FieldText(f))
  {
    var line := FieldText(f);
    assert line == f.name + [':'] + (" " + f.value);
    IndexOfFirst(f.name, ':', " " + f.value);
    assert line[..|f.name|] == f.name && line[|f.name| + 2..] == f.value;
  }

  function Texts(fs: seq<Field>): (ls: seq<string>)
    ensures |ls| == |fs| && forall i :: 0 <= i < |fs| ==> ls[i] == FieldText(fs[i])
  {
    if fs == [] then [] else [FieldText(fs[0])] + Texts(fs[1..])
  }

  lemma {:induction false} FieldsRoundTrip(fs: seq<Field>)
    requires forall i :: 0 <= i < |fs| ==> Writable(fs[i])
    ensures ReadFields(Texts(fs)) == Some(fs) && JoinLines(Texts(fs)) == FieldLines(fs)
  {
    if fs != [] {
      FieldRoundTrip(fs[0]);
      FieldsRoundTrip(fs[1..]);
      assert Texts(fs)[1..] == Texts(fs[1..]) && [fs[0]] + fs[1..] == fs;
    }
  }

  lemma BetweenSpaces(a: string, b: string, c: string)
    requires forall i :: 0 <= i < |a| ==> a[i] != ' '
    requires forall i :: 0 <= i < |b| ==> b[i] != ' '
    ensures var line := a + " " + b + " " + c;
            && IndexOf(line, ' ') == Some(|a|)
            && IndexOf(line[|a| + 1..], ' ') == Some(|b|)
            && line[|a| + 1..][..|b|] == b
  {
    var line, tail := a + " " + b + " " + c, b + [' '] + c;
    assert line == a + [' '] + tail;
    IndexOfFirst(a, ' ', tail);
    assert line[|a| + 1..] == tail;
    IndexOfFirst(b, ' ', c);
  }

  lemma StatusRoundTrip(s: HttpStatus)
    ensures ReadStatus(StatusLine(s)) == Some(StatusCode(s))
    ensures StatusLine(s) != "" && NoCr(StatusLine(s))
  {
    hide IndexOf, Reason, Decimal, ReadDecimal, StatusCode;
    DecimalRoundTrip(StatusCode(s));
    BetweenSpaces("HTTP/1.1", Decimal(StatusCode(s)), Reason(s));
    assert "HTTP/" + HTTP_VERSION + " " == "HTTP/1.1" + " ";
  }

  // What the fields of a response have to be for its text to be well formed.
  predicate CleanResponse(r: HttpResponse) {
    && NoCr(r.contentType) && NoCr(r.contentLanguage) && NoCr(r.contentEncoding) && NoCr(r.lastModified)
    && NoCr(r.date) && NoCr(r.etag) && NoCr(r.location) && r.contentLength >= 0
  }

  lemma FieldsAreWritable(r: HttpResponse)
    requires CleanResponse(r)
    ensures forall i :: 0 <= i < |Fields(r)| ==> Writable(Fields(r)[i])
  {
    NamesAreNames();
    hide FieldName, Decimal;
    forall f | f in Fields(r) ensures Writable(f) {
    }
  }

  // The names under which to_string writes.
  lemma NamesAreNames()
    ensures FieldName("Content-Type") && FieldName("Content-Length") && FieldName("Content-Language")
    ensures FieldName("Date") && FieldName("ETag") && FieldName("Location") && FieldName("Last-Modified")
    ensures FieldName("Content-Encoding")
  {
  }

  lemma LengthIsThere(r: HttpResponse)
    requires r.contentLength >= 0
    ensures ValueOf(Fields(r), "Content-Length") == Some(Decimal(r.contentLength))
  {
    var rest := Fields(r)[|Optional("Content-Type", r.contentType)|..];
    assert rest[0] == Field("Content-Length", Decimal(r.contentLength));
    if r.contentType != "" {
      assert Fields(r)[1..] == rest;
    } else {
      assert Fields(r) == rest;
    }
  }

  // A written response reads back as its status, its headers and its body, whatever the body
  // contains.
  lemma MessageRoundTrip(r: HttpResponse, body: string)
    requires CleanResponse(r) && r.contentLength == |body|
    ensures ReadMessage(Message(r, body)) == Some(Parsed(StatusCode(r.status), Fields(r), body))
  {
    hide Fields, ReadDecimal, Decimal, ReadStatus, StatusLine, ReadFields, LineEnd;
    var fs := Fields(r);
    FieldsAreWritable(r);
    FieldsRoundTrip(fs);
    StatusRoundTrip(r.status);
    LengthIsThere(r);
    DecimalRoundTrip(|body|);
    var lines := [StatusLine(r.status)] + Texts(fs);
    forall i | 0 <= i < |lines| ensures lines[i] != "" && NoCr(lines[i]) {
      if i > 0 {
        FieldRoundTrip(fs[i - 1]);
      }
    }
    assert lines[1..] == Texts(fs);
    SplitJoined(lines, body);
  }
}
