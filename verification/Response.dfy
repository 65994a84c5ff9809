/** Building a response in a growable buffer: every snprintf has room reserved for it first. */
module Response {
  import opened HttpTypes
  import opened Buffers
  import opened Messages
  import opened Replacing

  // The sizes of the fields of http_response_t.
  predicate FitsFields(r: HttpResponse) {
    && |r.contentType| < HTTP_HEADER_SIZE && |r.location| < HTTP_HEADER_SIZE
    && |r.contentLanguage| < HTTP_HEADER_SMALL_SIZE && |r.lastModified| < HTTP_HEADER_SMALL_SIZE
    && |r.date| < HTTP_HEADER_SMALL_SIZE && |r.contentEncoding| < HTTP_HEADER_SMALL_SIZE
    && |r.etag| < HTTP_HEADER_ETAG_SIZE && 0 <= r.contentLength < 0x1_0000_0000
  }

  // The buffer is in use up to the end of s, and s is what was written there.
  ghost predicate Written(b: Buffer, s: string)
    reads b, b.data
  {
    && b.Valid() && b.data != null && b.capacity < 0x8000_0000
    && |s| <= b.capacity && b.data[..|s|] == s
  }

  // One reservation and one snprintf into it.
  method Put(dest: Buffer, offset: nat, text: string, reserve: nat, ghost s: string) returns (n: nat)
    requires Written(dest, s) && offset == |s| && |text| < reserve && 2 * (offset + reserve) <= 0x8000_0000
    modifies dest, dest.data
    ensures dest.data == old(dest.data) || fresh(dest.data)
    ensures Written(dest, s + text) && n == |s + text|
    ensures dest.capacity == Grown(old(dest.capacity), offset + reserve)
  {
    GrownReaches(dest.capacity, offset + reserve);
    hide Grown, AsInt32;
    var grown := dest.EnsureCapacity(offset + reserve, true);
    assert dest.data[..|s|] == s;
    var more := Snprintf(dest.data, offset, text);
    n := offset + more;
  }

  // What was asked for so far at most, and the offset reached.
  datatype Reservation = Reservation(top: nat, offset: nat) {
    function Then(name: string, value: string, reserve: nat): Reservation {
      if value == "" then this
      else Reservation(Max(top, offset + reserve), offset + |name| + |value| + 4)
    }
  }

  // A header, unless it is empty. `c` is the capacity before the message was begun.
  method PutField(
    dest: Buffer, offset: nat, name: string, value: string, reserve: nat,
    ghost s: string, ghost fs: seq<Field>, ghost c: nat, ghost p: Reservation) returns (n: nat)
    requires Written(dest, s + FieldLines(fs)) && offset == |s + FieldLines(fs)| == p.offset
    requires |name| + |value| + 4 < reserve && 2 * (offset + reserve) <= 0x8000_0000
    requires dest.capacity == Grown(c, p.top)
    modifies dest, dest.data
    ensures dest.data == old(dest.data) || fresh(dest.data)
    ensures Written(dest, s + FieldLines(fs + Optional(name, value)))
    ensures n == |s + FieldLines(fs + Optional(name, value))| == p.Then(name, value, reserve).offset
    ensures n <= offset + reserve
    ensures dest.capacity == Grown(c, p.Then(name, value, reserve).top)
  {
    if |value| > 0 {
      hide FieldLines, Grown;
      FieldLinesEnd(s, fs, Field(name, value));
      GrownTwice(c, p.top, offset + reserve);
      n := Put(dest, offset, name + ": " + value + "\r\n", reserve, s + FieldLines(fs));
    } else {
      n := offset;
      assert fs + Optional(name, value) == fs;
    }
  }

  lemma {:induction false} FieldLinesAppend(fs: seq<Field>, f: Field)
    ensures FieldLines(fs + [f]) == FieldLines(fs) + FieldLine(f)
  {
    if fs == [] {
      assert FieldLines([f]) == FieldLine(f) + FieldLines([]);
    } else {
      assert (fs + [f])[1..] == fs[1..] + [f];
      FieldLinesAppend(fs[1..], f);
    }
  }

  lemma FieldLinesEnd(s: string, fs: seq<Field>, f: Field)
    ensures (s + FieldLines(fs)) + (f.name + ": " + f.value + "\r\n") == s + FieldLines(fs + [f])
  {
    FieldLinesAppend(fs, f);
  }

  // The headers in groups, in the order in which they are written.
  function FirstFields(r: HttpResponse): seq<Field>
    requires r.contentLength >= 0
  {
    Optional("Content-Type", r.contentType) + Optional("Content-Length", Decimal(r.contentLength)) +
    Optional("Content-Language", r.contentLanguage) + Optional("Date", r.date)
  }

  function MiddleFields(r: HttpResponse): seq<Field>
    requires r.contentLength >= 0
  {
    FirstFields(r) + Optional("ETag", r.etag) + Optional("Location", r.location) +
    Optional("Last-Modified", r.lastModified)
  }

  lemma FieldGroups(r: HttpResponse)
    requires r.contentLength >= 0
    ensures Fields(r) == MiddleFields(r) + Optional("Content-Encoding", r.contentEncoding)
  {
  }

  lemma LengthDigits(n: nat)
    requires n < 0x1_0000_0000
    ensures 1 <= |Decimal(n)| <= 10
  {
    assert Power10(5) == 100000;
    assert Power10(10) == 10_000_000_000;
    DecimalLength(n, 10, 10_000_000_000);
  }

  lemma StatusLineLength(s: HttpStatus)
    ensures |StatusLine(s)| <= 42
  {
    hide Reason, Decimal;
    LengthDigits(StatusCode(s));
    assert |StatusLine(s)| == 9 + |Decimal(StatusCode(s))| + 1 + |Reason(s)|;
  }

  lemma NothingYet(line: string)
    ensures "" + line == line + FieldLines([])
  {
  }

  function FirstReservation(r: HttpResponse): Reservation
    requires r.contentLength >= 0
  {
    Reservation(128, |StatusLine(r.status)| + 2)
      .Then("Content-Type", r.contentType, 348)
      .Then("Content-Length", Decimal(r.contentLength), 128)
      .Then("Content-Language", r.contentLanguage, 256)
      .Then("Date", r.date, 256)
  }

  function MiddleReservation(r: HttpResponse): Reservation
    requires r.contentLength >= 0
  {
    FirstReservation(r)
      .Then("ETag", r.etag, 128)
      .Then("Location", r.location, 348)
      .Then("Last-Modified", r.lastModified, 256)
  }

  function LastReservation(r: HttpResponse): Reservation
    requires r.contentLength >= 0
  {
    MiddleReservation(r).Then("Content-Encoding", r.contentEncoding, 128)
  }

  // The largest capacity that to_string asks for.
  function Largest(r: HttpResponse): nat
    requires r.contentLength >= 0
  {
    Max(LastReservation(r).top, |Head(r)| + r.contentLength + 2)
  }

  // The case in which the blank line is cut, in terms of the capacity before.
  predicate IsCut(r: HttpResponse, capacity: nat)
    requires r.contentLength >= 0
  {
    r.contentLength == 0 && Grown(capacity, Largest(r)) == |Head(r)| + 2
  }

  // The reservation for Content-Encoding is smaller than its field; this is when the header fits all
  // the same.
  predicate EncodingFits(r: HttpResponse, capacity: nat)
    requires r.contentLength >= 0
  {
    r.contentEncoding != "" ==> LastReservation(r).offset < Grown(capacity, LastReservation(r).top)
  }

  // Lines 223-253 of to_string.
  method PutFirst(dest: Buffer, r: HttpResponse) returns (n: nat)
    requires FitsFields(r) && dest.Valid() && dest.data != null && dest.capacity < 0x8000_0000
    modifies dest, dest.data
    ensures dest.data == old(dest.data) || fresh(dest.data)
    ensures Written(dest, StatusLine(r.status) + CRLF + FieldLines(FirstFields(r)))
    ensures n == |StatusLine(r.status) + CRLF + FieldLines(FirstFields(r))| == FirstReservation(r).offset <= 1200
    ensures dest.capacity == Grown(old(dest.capacity), FirstReservation(r).top)
  {
    hide FieldLines, StatusLine, Decimal, Optional, Grown, Max, Reservation.Then;
    var line := StatusLine(r.status) + CRLF;
    var length := Decimal(r.contentLength);
    StatusLineLength(r.status);
    LengthDigits(r.contentLength);
    NothingYet(line);
    ghost var fs, c, p := [], dest.capacity, Reservation(128, |line|);
    n := Put(dest, 0, line, 128, "");
    n := PutField(dest, n, "Content-Type", r.contentType, 348, line, fs, c, p);
    fs, p := fs + Optional("Content-Type", r.contentType), p.Then("Content-Type", r.contentType, 348);
    n := PutField(dest, n, "Content-Length", length, 128, line, fs, c, p);
    fs, p := fs + Optional("Content-Length", length), p.Then("Content-Length", length, 128);
    n := PutField(dest, n, "Content-Language", r.contentLanguage, 256, line, fs, c, p);
    fs, p := fs + Optional("Content-Language", r.contentLanguage), p.Then("Content-Language", r.contentLanguage, 256);
    n := PutField(dest, n, "Date", r.date, 256, line, fs, c, p);
    fs, p := fs + Optional("Date", r.date), p.Then("Date", r.date, 256);
    assert fs == FirstFields(r) && p == FirstReservation(r);
  }

  // Lines 255-271 of to_string.
  method PutRest(dest: Buffer, offset: nat, r: HttpResponse, ghost s: string, ghost c: nat) returns (n: nat)
    requires FitsFields(r) && Written(dest, s + FieldLines(FirstFields(r)))
    requires offset == |s + FieldLines(FirstFields(r))| == FirstReservation(r).offset <= 1200
    requires dest.capacity == Grown(c, FirstReservation(r).top)
    modifies dest, dest.data
    ensures dest.data == old(dest.data) || fresh(dest.data)
    ensures Written(dest, s + FieldLines(MiddleFields(r)))
    ensures n == |s + FieldLines(MiddleFields(r))| == MiddleReservation(r).offset <= 1940
    ensures dest.capacity == Grown(c, MiddleReservation(r).top)
  {
    hide FieldLines, FirstFields, Optional, Grown, Max, FirstReservation, Reservation.Then;
    ghost var fs, p := FirstFields(r), FirstReservation(r);
    n := PutField(dest, offset, "ETag", r.etag, 128, s, fs, c, p);
    fs, p := fs + Optional("ETag", r.etag), p.Then("ETag", r.etag, 128);
    n := PutField(dest, n, "Location", r.location, 348, s, fs, c, p);
    fs, p := fs + Optional("Location", r.location), p.Then("Location", r.location, 348);
    n := PutField(dest, n, "Last-Modified", r.lastModified, 256, s, fs, c, p);
    assert p.Then("Last-Modified", r.lastModified, 256) == MiddleReservation(r);
  }

  // What is in the buffer when the offset is reached: the head; or, when the last header was cut, at
  // least the terminator it was cut with, in front of the offset.
  ghost predicate Reached(b: Buffer, offset: nat, head: string, whole: bool, cut: int)
    reads b, b.data
  {
    && b.Valid() && b.data != null && b.capacity < 0x8000_0000
    && if whole then Written(b, head) && offset == |head|
       else 0 <= cut < b.capacity && cut < offset && b.data[cut] == '\0'
  }

  // Lines 273-278 of to_string. A header that does not fit is cut at the end of the buffer, and the
  // offset goes on as if it were not.
  method PutEncoding(dest: Buffer, offset: nat, r: HttpResponse, ghost s: string, ghost c: nat) returns (n: nat)
    requires FitsFields(r) && Written(dest, s + FieldLines(MiddleFields(r)))
    requires offset == |s + FieldLines(MiddleFields(r))| == MiddleReservation(r).offset <= 1940
    requires dest.capacity == Grown(c, MiddleReservation(r).top)
    modifies dest, dest.data
    ensures dest.data == old(dest.data) || fresh(dest.data)
    ensures n == LastReservation(r).offset <= 2100 && dest.capacity == Grown(c, LastReservation(r).top)
    ensures Reached(dest, n, s + FieldLines(Fields(r)), EncodingFits(r, c), dest.capacity - 1)
  {
    hide FieldLines, Fields, MiddleFields, Grown, MiddleReservation, LastReservation, EncodingFits, EncodingLine;
    EncodingText(r, s);
    EncodingRoom(r, c);
    if |r.contentEncoding| > 0 {
      hide Written;
      n := PutAny(dest, offset, EncodingLine(r), s + FieldLines(MiddleFields(r)));
    } else {
      n := offset;
    }
  }

  function EncodingLine(r: HttpResponse): string { "Content-Encoding" + ": " + r.contentEncoding + "\r\n" }

  lemma EncodingText(r: HttpResponse, s: string)
    requires r.contentLength >= 0
    ensures var before, all := s + FieldLines(MiddleFields(r)), s + FieldLines(Fields(r));
            all == if r.contentEncoding == "" then before else before + EncodingLine(r)
    ensures |EncodingLine(r)| == |r.contentEncoding| + 20
  {
    FieldGroups(r);
    hide FieldLines, Fields, MiddleFields;
    if r.contentEncoding == "" {
      assert MiddleFields(r) + Optional("Content-Encoding", r.contentEncoding) == MiddleFields(r);
    } else {
      FieldLinesEnd(s, MiddleFields(r), Field("Content-Encoding", r.contentEncoding));
    }
  }

  lemma EncodingRoom(r: HttpResponse, c: nat)
    requires r.contentLength >= 0
    ensures var p, q := MiddleReservation(r), LastReservation(r);
            if r.contentEncoding == "" then q == p && EncodingFits(r, c)
            else && q.offset == p.offset + |EncodingLine(r)|
                 && Grown(c, q.top) == Grown(Grown(c, p.top), p.offset + 128)
                 && (EncodingFits(r, c) <==> q.offset < Grown(c, q.top))
  {
    hide Grown, MiddleReservation;
    GrownTwice(c, MiddleReservation(r).top, MiddleReservation(r).offset + 128);
  }

  // A reservation of 128 and a snprintf that it may not be enough for.
  method PutAny(dest: Buffer, offset: nat, text: string, ghost s: string) returns (n: nat)
    requires Written(dest, s) && offset == |s| <= 1940
    modifies dest, dest.data
    ensures dest.data == old(dest.data) || fresh(dest.data)
    ensures n == offset + |text| && dest.capacity == Grown(old(dest.capacity), offset + 128)
    ensures Reached(dest, n, s + text, n < dest.capacity, dest.capacity - 1)
  {
    GrownReaches(dest.capacity, offset + 128);
    hide Grown, AsInt32;
    var grown := dest.EnsureCapacity(offset + 128, true);
    assert dest.data[..|s|] == s;
    var more := Snprintf(dest.data, offset, text);
    n := offset + more;
    if n >= dest.capacity {
      ghost var room := dest.capacity - offset - 1;
      assert dest.data[..][offset + room] == '\0';
    }
  }

  // Lines 223-278 of to_string.
  method PutHead(dest: Buffer, r: HttpResponse) returns (n: nat)
    requires FitsFields(r) && dest.Valid() && dest.data != null && dest.capacity < 0x8000_0000
    modifies dest, dest.data
    ensures dest.data == old(dest.data) || fresh(dest.data)
    ensures n == |Head(r)| <= 2100 && dest.capacity == Grown(old(dest.capacity), LastReservation(r).top)
    ensures Reached(dest, n, Head(r), EncodingFits(r, old(dest.capacity)), dest.capacity - 1)
  {
    HeadLength(r);
    hide Grown, LastReservation, MiddleReservation, FirstReservation, StatusLine, Fields, MiddleFields, FirstFields;
    hide FieldLines, EncodingFits;
    ghost var c := dest.capacity;
    n := PutFirst(dest, r);
    n := PutRest(dest, n, r, StatusLine(r.status) + CRLF, c);
    n := PutEncoding(dest, n, r, StatusLine(r.status) + CRLF, c);
  }

  // to_string: the offset returned is the length of the message, and the message is there in full
  // except in two cases. A Content-Encoding that does not fit is cut, with a terminator in the
  // message. And the last reservation leaves no room for the terminator that snprintf adds to the
  // blank line, so when there is no body and the head fills what was reserved exactly, the last
  // byte is that terminator.
  method ToString(r: HttpResponse, body: Buffer?, dest: Buffer) returns (n: nat)
    requires FitsFields(r) && dest.Valid() && dest.data != null && dest.capacity < 0x8000_0000
    requires 2 * (r.contentLength + 2102) <= 0x8000_0000
    requires r.contentLength > 0 ==>
               && body != null && body != dest && body.data != null && body.data != dest.data
               && r.contentLength <= body.data.Length
    modifies dest, dest.data
    ensures dest.Valid() && dest.data != null && dest.capacity < 0x8000_0000
    ensures dest.data == old(dest.data) || fresh(dest.data)
    ensures dest.capacity == Grown(old(dest.capacity), Largest(r))
    ensures n == |Head(r)| + 2 + r.contentLength <= dest.capacity
    ensures if !EncodingFits(r, old(dest.capacity)) then '\0' in dest.data[..|Head(r)|]
            else if IsCut(r, old(dest.capacity)) then dest.data[..n] == Head(r) + "\r\0"
            else dest.data[..n] == Message(r, if r.contentLength > 0 then body.data[..r.contentLength] else "")
  {
    hide Grown, LastReservation, Head, Max, EncodingFits;
    ghost var c := dest.capacity;
    n := PutHead(dest, r);
    GrownTwice(c, LastReservation(r).top, |Head(r)| + r.contentLength + 2);
    n := PutBody(r, body, dest, n, Head(r), EncodingFits(r, c), dest.capacity - 1);
  }

  lemma FieldStep(line: nat, fs: seq<Field>, p: Reservation, name: string, value: string, reserve: nat)
    requires line + |FieldLines(fs)| == p.offset
    ensures line + |FieldLines(fs + Optional(name, value))| == p.Then(name, value, reserve).offset
  {
    if value == "" {
      assert fs + Optional(name, value) == fs;
    } else {
      FieldLinesAppend(fs, Field(name, value));
    }
  }

  lemma FirstLength(r: HttpResponse)
    requires r.contentLength >= 0
    ensures |StatusLine(r.status)| + 2 + |FieldLines(FirstFields(r))| == FirstReservation(r).offset
  {
    hide FieldLines, StatusLine, Decimal, Optional, Max;
    NothingYet("");
    var line, fs, length := |StatusLine(r.status)| + 2, [], Decimal(r.contentLength);
    var p := Reservation(128, line);
    FieldStep(line, fs, p, "Content-Type", r.contentType, 348);
    fs, p := fs + Optional("Content-Type", r.contentType), p.Then("Content-Type", r.contentType, 348);
    FieldStep(line, fs, p, "Content-Length", length, 128);
    fs, p := fs + Optional("Content-Length", length), p.Then("Content-Length", length, 128);
    FieldStep(line, fs, p, "Content-Language", r.contentLanguage, 256);
    fs, p := fs + Optional("Content-Language", r.contentLanguage), p.Then("Content-Language", r.contentLanguage, 256);
    FieldStep(line, fs, p, "Date", r.date, 256);
    fs, p := fs + Optional("Date", r.date), p.Then("Date", r.date, 256);
    assert fs == FirstFields(r) && p == FirstReservation(r);
    hide FirstFields, FirstReservation, Reservation.Then;
  }

  // The length of the head, field by field.
  lemma HeadLength(r: HttpResponse)
    requires r.contentLength >= 0
    ensures |Head(r)| == LastReservation(r).offset
  {
    FieldGroups(r);
    FirstLength(r);
    hide FieldLines, StatusLine, Optional, Fields, Max, FirstFields, FirstReservation, Reservation.Then;
    var line, fs, p := |StatusLine(r.status)| + 2, FirstFields(r), FirstReservation(r);
    FieldStep(line, fs, p, "ETag", r.etag, 128);
    fs, p := fs + Optional("ETag", r.etag), p.Then("ETag", r.etag, 128);
    FieldStep(line, fs, p, "Location", r.location, 348);
    fs, p := fs + Optional("Location", r.location), p.Then("Location", r.location, 348);
    FieldStep(line, fs, p, "Last-Modified", r.lastModified, 256);
    fs, p := fs + Optional("Last-Modified", r.lastModified), p.Then("Last-Modified", r.lastModified, 256);
    FieldStep(line, fs, p, "Content-Encoding", r.contentEncoding, 128);
  }

  // What was reserved reaches behind the blank line.
  predicate HasRoom(p: Reservation) { p.offset + 2 < p.top }

  lemma RoomIsKept(p: Reservation, name: string, value: string, reserve: nat)
    requires HasRoom(p) && |name| + |value| + 6 < reserve
    ensures HasRoom(p.Then(name, value, reserve))
  {
  }

  // The reservation of the last header leaves room for the blank line and its terminator, unless
  // that header is a Content-Encoding of 106 characters or more: no other response is ever cut.
  lemma OnlyLongEncodingsAreCut(r: HttpResponse, capacity: nat)
    requires FitsFields(r) && |r.contentEncoding| < 106
    ensures EncodingFits(r, capacity) && !IsCut(r, capacity)
  {
    HeadLength(r);
    GrownReaches(capacity, Largest(r));
    GrownReaches(capacity, LastReservation(r).top);
    RoomInAll(r);
    hide Grown, Head, LastReservation;
  }

  lemma RoomInAll(r: HttpResponse)
    requires FitsFields(r) && |r.contentEncoding| < 106
    ensures HasRoom(LastReservation(r))
  {
    RoomInFirst(r);
    hide Max, Reservation.Then, HasRoom, FirstReservation;
    var p := FirstReservation(r);
    RoomIsKept(p, "ETag", r.etag, 128);
    p := p.Then("ETag", r.etag, 128);
    RoomIsKept(p, "Location", r.location, 348);
    p := p.Then("Location", r.location, 348);
    RoomIsKept(p, "Last-Modified", r.lastModified, 256);
    p := p.Then("Last-Modified", r.lastModified, 256);
    RoomIsKept(p, "Content-Encoding", r.contentEncoding, 128);
  }

  lemma RoomInFirst(r: HttpResponse)
    requires FitsFields(r)
    ensures HasRoom(FirstReservation(r))
  {
    StatusLineLength(r.status);
    LengthDigits(r.contentLength);
    hide StatusLine, Decimal, Max, Reservation.Then;
    var p := Reservation(128, |StatusLine(r.status)| + 2);
    assert HasRoom(p);
    hide HasRoom;
    RoomIsKept(p, "Content-Type", r.contentType, 348);
    p := p.Then("Content-Type", r.contentType, 348);
    RoomIsKept(p, "Content-Length", Decimal(r.contentLength), 128);
    p := p.Then("Content-Length", Decimal(r.contentLength), 128);
    RoomIsKept(p, "Content-Language", r.contentLanguage, 256);
    p := p.Then("Content-Language", r.contentLanguage, 256);
    RoomIsKept(p, "Date", r.date, 256);
  }

  // A field of that many characters.
  function Filled(n: nat): (s: string)
    ensures |s| == n && NoCr(s)
  {
    seq(n, _ => 'x')
  }

  // One with 106 is: its head is two characters short of 1024.
  const CUT :=
    HttpResponse(OK, Filled(255), 0, Filled(127), Filled(106), Filled(127), Filled(127), Filled(64), Filled(79))

  lemma LongEncodingIsCut()
    ensures FitsFields(CUT) && |Head(CUT)| == 1022 && IsCut(CUT, DEFAULT_BUFFER_SIZE)
  {
    HeadLength(CUT);
    hide Head, Filled;
    assert Decimal(0) == "0";
    assert |StatusLine(OK)| == 15;
    assert FirstReservation(CUT) == Reservation(710, 589);
    assert LastReservation(CUT) == Reservation(1024, 1022);
  }

  // With two characters more the header itself does not fit.
  lemma LongerEncodingDoesNotFit()
    ensures var r := CUT.(contentEncoding := Filled(108)); FitsFields(r) && !EncodingFits(r, DEFAULT_BUFFER_SIZE)
  {
    var r := CUT.(contentEncoding := Filled(108));
    hide Filled;
    assert Decimal(0) == "0";
    assert |StatusLine(OK)| == 15;
    assert FirstReservation(r) == Reservation(710, 589);
    assert LastReservation(r) == Reservation(1024, 1024);
  }

  // Lines 280-287 of to_string.
  method PutBody(
    r: HttpResponse, body: Buffer?, dest: Buffer, offset: nat, ghost head: string, ghost whole: bool, ghost cut: int)
    returns (n: nat)
    requires r.contentLength >= 0 && Reached(dest, offset, head, whole, cut) && offset <= 2100
    requires 2 * (r.contentLength + 2102) <= 0x8000_0000
    requires r.contentLength > 0 ==>
               && body != null && body != dest && body.data != null && body.data != dest.data
               && r.contentLength <= body.data.Length
    modifies dest, dest.data
    ensures dest.Valid() && dest.data != null && dest.capacity < 0x8000_0000
    ensures dest.data == old(dest.data) || fresh(dest.data)
    ensures dest.capacity == Grown(old(dest.capacity), offset + r.contentLength + 2)
    ensures n == offset + 2 + r.contentLength <= dest.capacity
    ensures !whole ==> 0 <= cut < dest.data.Length && dest.data[cut] == '\0'
    ensures whole && r.contentLength > 0 ==> dest.data[..n] == head + CRLF + body.data[..r.contentLength]
    ensures whole && r.contentLength == 0 && n < dest.capacity ==> dest.data[..n] == head + CRLF + ""
    ensures whole && r.contentLength == 0 && n == dest.capacity ==> dest.data[..n] == head + "\r\0"
  {
    n := PutBlankLine(dest, offset, r.contentLength, head, whole, cut);
    if r.contentLength > 0 {
      ghost var before := dest.data[..n];
      CopyInto(dest.data, n, body.data, r.contentLength);
      n := n + r.contentLength;
      assert dest.data[..n][..|before|] == before;
    }
  }

  // Room for the blank line and the body, and the blank line.
  method PutBlankLine(
    dest: Buffer, offset: nat, bodyLength: nat, ghost head: string, ghost whole: bool, ghost cut: int) returns (n: nat)
    requires Reached(dest, offset, head, whole, cut) && 2 * (offset + bodyLength + 2) <= 0x8000_0000
    modifies dest, dest.data
    ensures dest.Valid() && dest.data != null && dest.capacity < 0x8000_0000
    ensures dest.data == old(dest.data) || fresh(dest.data)
    ensures dest.capacity == Grown(old(dest.capacity), offset + bodyLength + 2)
    ensures n == offset + 2 && n + bodyLength <= dest.capacity
    ensures !whole ==> 0 <= cut < offset && dest.data[cut] == '\0'
    ensures whole && n < dest.capacity ==> dest.data[..n] == head + CRLF
    ensures whole && n == dest.capacity ==> dest.data[..n] == head + "\r\0"
  {
    Reserve(dest, offset, bodyLength, head, whole, cut);
    ghost var before := dest.data[..offset];
    var more := Snprintf(dest.data, offset, "\r\n");
    n := offset + more;
    assert dest.data[..dest.data.Length] == dest.data[..];
    assert dest.data[..offset] == before;
    assert !whole ==> dest.data[..offset][cut] == '\0';
  }

  // The last reservation of to_string.
  method Reserve(dest: Buffer, offset: nat, bodyLength: nat, ghost head: string, ghost whole: bool, ghost cut: int)
    requires Reached(dest, offset, head, whole, cut) && 2 * (offset + bodyLength + 2) <= 0x8000_0000
    modifies dest
    ensures Reached(dest, offset, head, whole, cut) && offset + bodyLength + 2 <= dest.capacity
    ensures dest.capacity == Grown(old(dest.capacity), offset + bodyLength + 2)
    ensures dest.data == old(dest.data) || fresh(dest.data)
  {
    GrownReaches(dest.capacity, offset + bodyLength + 2);
    hide Grown, AsInt32;
    ghost var before := dest.data[..];
    var grown := dest.EnsureCapacity(offset + bodyLength + 2, true);
    assert dest.data[..|before|] == before;
    if whole {
      assert dest.data[..offset] == before[..offset];
    } else {
      assert dest.data[cut] == before[cut];
    }
  }

  // ----- construct_response -----

  // What the clock, the file system, the hash and the compressor give. The compressor succeeds.
  datatype Site = Site(
    fileName: string, lastModified: string, date: string,
    hash: string -> string, gzip: string -> string, deflate: string -> string)

  // strcasestr, for a word in small letters.
  predicate Mentions(s: string, word: string) { Find(Lower(s), word, 0).Some? }

  // set_content_type
  function ContentTypeOf(status: HttpStatus, fileName: string): (t: string)
    ensures |t| <= 38
  {
    if !status.OK? || Mentions(fileName, ".html") then "text/html;charset=utf-8"
    else if Mentions(fileName, ".png") then "image/png"
    else if Mentions(fileName, ".css") then "text/css;charset=utf-8"
    else if Mentions(fileName, ".js") then "application/javascript;charset=utf-8"
    else "text/plain;charset=utf-8"
  }

  lemma TypesAreClean(status: HttpStatus, fileName: string)
    ensures NoCr(ContentTypeOf(status, fileName))
  {
    hide Mentions;
    TextTypesAreClean();
    ProgramTypesAreClean();
    hide NoCr;
  }

  lemma TextTypesAreClean()
    ensures NoCr("text/html;charset=utf-8") && NoCr("text/css;charset=utf-8") && NoCr("text/plain;charset=utf-8")
  {
  }

  lemma ProgramTypesAreClean()
    ensures NoCr("application/javascript;charset=utf-8") && NoCr("image/png")
  {
  }

  // The response before the conditional request is looked at.
  function Announced(r: HttpResponse, body: string, site: Site): HttpResponse {
    r.(contentLanguage := "en-US",
       contentLength := |body|,
       contentType := ContentTypeOf(r.status, site.fileName),
       lastModified := if r.status.OK? then site.lastModified else "",
       date := site.date,
       etag := if r.status.OK? then site.hash(body) else "")
  }

  predicate Matches(r: HttpResponse, ifNoneMatch: string) { ifNoneMatch != "" && ifNoneMatch == r.etag }

  // handle_if_none_match, when it matches.
  function Unmodified(r: HttpResponse): HttpResponse {
    r.(status := NotModified, contentLength := 0, contentType := "", contentLanguage := "", contentEncoding := "")
  }

  // set_compression: gzip wins over deflate, and neither leaves the field as it was.
  function Compressed(r: HttpResponse, accept: string, body: string, site: Site): (HttpResponse, string) {
    if Mentions(accept, "gzip") then
      (r.(contentEncoding := "gzip", contentLength := |site.gzip(body)|), site.gzip(body))
    else if Mentions(accept, "deflate") then
      (r.(contentEncoding := "deflate", contentLength := |site.deflate(body)|), site.deflate(body))
    else (r, body)
  }

  // The response sent, and its body.
  function Constructed(
    r: HttpResponse, accept: string, ifNoneMatch: string, body: string, site: Site): (HttpResponse, string) {
    var a := Announced(r, body, site);
    if Matches(a, ifNoneMatch) then (Unmodified(a), "")
    else if a.status.NotModified? then (a, body)
    else Compressed(a, accept, body, site)
  }

  // What the rows of the cache give and the site has to: fields within their sizes, a hash that
  // fills its field, dates that strftime has room for.
  predicate FitsSite(r: HttpResponse, body: string, site: Site) {
    && |r.location| < HTTP_HEADER_SIZE && r.contentEncoding in ["", "gzip", "deflate"]
    && |site.lastModified| < HTTP_HEADER_SMALL_SIZE && |site.date| < HTTP_HEADER_SMALL_SIZE
    && |site.hash(body)| < HTTP_HEADER_ETAG_SIZE
    && |body| < 0x3000_0000 && |site.gzip(body)| < 0x3000_0000 && |site.deflate(body)| < 0x3000_0000
  }

  // Content-Length is the length of the body on every path; the status becomes 304 exactly when
  // the page was found and the client has it, and then the body and the headers about it go; and
  // else the body is the page, compressed if the client takes that.
  lemma ConstructedIs(r: HttpResponse, accept: string, ifNoneMatch: string, body: string, site: Site)
    requires FitsSite(r, body, site)
    ensures var (r', payload) := Constructed(r, accept, ifNoneMatch, body, site);
            && r'.contentLength == |payload| && FitsFields(r')
            && (r'.status != r.status <==> r.status.OK? && ifNoneMatch != "" && ifNoneMatch == site.hash(body))
            && (r'.status != r.status ==>
                  && r'.status.NotModified? && payload == "" && r'.contentType == "" && r'.contentLanguage == ""
                  && r'.contentEncoding == "" && r'.etag == ifNoneMatch)
            && (r'.status == r.status && !r.status.NotModified? ==>
                  payload == if Mentions(accept, "gzip") then site.gzip(body)
                             else if Mentions(accept, "deflate") then site.deflate(body) else body)
  {
  }

  // The Content-Encoding sent says what was done to the page, exactly when the field was empty
  // before, or is written now. A row that was not reset since its last response may have kept it.
  lemma EncodingIsRightIff(r: HttpResponse, accept: string, ifNoneMatch: string, body: string, site: Site)
    requires FitsSite(r, body, site) && !r.status.NotModified?
    ensures var (r', payload) := Constructed(r, accept, ifNoneMatch, body, site);
            var done := if r'.status != r.status then "" else if Mentions(accept, "gzip") then "gzip"
                        else if Mentions(accept, "deflate") then "deflate" else "";
            r'.contentEncoding == done <==>
            r.contentEncoding == "" || Matches(Announced(r, body, site), ifNoneMatch) ||
            Mentions(accept, "gzip") || Mentions(accept, "deflate")
  {
  }

  // What is sent reads back as the status, the headers and the body that were meant.
  lemma ConstructedReadsBack(r: HttpResponse, accept: string, ifNoneMatch: string, body: string, site: Site)
    requires FitsSite(r, body, site) && NoCr(site.lastModified) && NoCr(site.date) && NoCr(site.hash(body))
    requires NoCr(r.location)
    ensures var (r', payload) := Constructed(r, accept, ifNoneMatch, body, site);
            ReadMessage(Message(r', payload)) == Some(Parsed(StatusCode(r'.status), Fields(r'), payload))
  {
    hide ReadMessage, Message, Fields, Mentions, ContentTypeOf;
    TypesAreClean(r.status, site.fileName);
    ConstructedIs(r, accept, ifNoneMatch, body, site);
    var (r', payload) := Constructed(r, accept, ifNoneMatch, body, site);
    MessageRoundTrip(r', payload);
  }

  // So a row that was not reset sends the page as it is under the encoding of the page before: the
  // first request took gzip, the second takes nothing.
  lemma StaleEncodingIsSent(body: string, page: string, site: Site)
    ensures var kept := Constructed(ZERO_RESPONSE.(status := OK), "gzip", "", page, site).0;
            var (r', payload) := Constructed(kept.(status := OK), "", "", body, site);
            payload == body && r'.contentEncoding == "gzip" && Field("Content-Encoding", "gzip") in Fields(r')
  {
    MentionsItself();
    hide Mentions, ContentTypeOf, Decimal;
    var kept := Constructed(ZERO_RESPONSE.(status := OK), "gzip", "", page, site).0;
    assert kept.contentEncoding == "gzip";
    var r' := Constructed(kept.(status := OK), "", "", body, site).0;
    assert Optional("Content-Encoding", r'.contentEncoding) == [Field("Content-Encoding", "gzip")];
    assert Fields(r')[|Fields(r')| - 1] == Field("Content-Encoding", "gzip");
  }

  lemma MentionsItself()
    ensures Mentions("gzip", "gzip") && !Mentions("", "gzip") && !Mentions("", "deflate")
  {
    assert OccursAt(Lower("gzip"), "gzip", 0);
  }

  // The room the compressor is taken to have: the capacity that copy_buffer leaves.
  predicate FitsTmp(body: string, site: Site, tmpCapacity: nat) {
    && Grown(tmpCapacity, |body|) < 0x8000_0000
    && |site.gzip(body)| <= Grown(tmpCapacity, |body|) && |site.deflate(body)| <= Grown(tmpCapacity, |body|)
  }

  // The page as compressed, into the other buffer.
  method Compress(r: HttpResponse, accept: string, body: Buffer, tmp: Buffer, site: Site) returns (r': HttpResponse)
    requires body.Valid() && body.data != null && tmp.Valid() && tmp.data != null && tmp != body
    requires tmp.data != body.data
    requires tmp.Text() == body.Text() && r.contentLength == body.count
    requires |site.gzip(body.Text())| <= tmp.capacity && |site.deflate(body.Text())| <= tmp.capacity
    modifies tmp, tmp.data
    ensures tmp.Valid() && tmp.data == old(tmp.data) && tmp.capacity == old(tmp.capacity)
    ensures (r', tmp.Text()) == Compressed(r, accept, body.Text(), site)
  {
    hide Mentions;
    var headerCount := (if Mentions(accept, "gzip") then 1 else 0) + (if Mentions(accept, "deflate") then 2 else 0);
    r' := r;
    if headerCount == 1 || headerCount == 3 {
      FillBuffer(tmp, site.gzip(body.data[..body.count]));
      r' := r'.(contentEncoding := "gzip");
    } else if headerCount == 2 {
      FillBuffer(tmp, site.deflate(body.data[..body.count]));
      r' := r'.(contentEncoding := "deflate");
    }
    r' := r'.(contentLength := tmp.count);
  }

  method FillBuffer(b: Buffer, text: string)
    requires b.Valid() && b.data != null && |text| <= b.capacity
    modifies b, b.data
    ensures b.Valid() && b.data == old(b.data) && b.capacity == old(b.capacity) && b.Text() == text
  {
    forall i | 0 <= i < |text| {
      b.data[i] := text[i];
    }
    b.count := |text|;
  }

  // construct_response: the page in `body` is replaced by the whole message.
  method ConstructResponse(r: HttpResponse, accept: string, ifNoneMatch: string, body: Buffer, tmp: Buffer, site: Site)
    returns (r': HttpResponse, n: nat)
    requires body.Valid() && body.data != null && body.capacity < 0x8000_0000
    requires tmp.Valid() && tmp.data != null && tmp != body && tmp.data != body.data
    requires FitsSite(r, body.Text(), site) && FitsTmp(body.Text(), site, tmp.capacity)
    modifies body, body.data, tmp, tmp.data
    ensures body.Valid() && n == body.count
    ensures var (made, payload) := Constructed(r, accept, ifNoneMatch, old(body.Text()), site);
            r' == made && body.Text() == Message(made, payload)
  {
    hide Mentions, ContentTypeOf, Head, Grown;
    ghost var page := body.Text();
    ConstructedIs(r, accept, ifNoneMatch, page, site);
    r' := r.(contentLanguage := "en-US");
    var copied := tmp.CopyFrom(body, true);
    r' := r'.(contentLength := body.count);
    r' := r'.(contentType := ContentTypeOf(r'.status, site.fileName));
    r' := r'.(lastModified := if r'.status.OK? then site.lastModified else "");
    r' := r'.(date := site.date);
    r' := r'.(etag := if r'.status.OK? then site.hash(tmp.data[..tmp.count]) else "");
    assert r' == Announced(r, page, site);
    if |ifNoneMatch| > 0 && ifNoneMatch == r'.etag {
      r' := Unmodified(r');
      tmp.count := 0;
    }
    if !r'.status.NotModified? {
      r' := Compress(r', accept, body, tmp, site);
    }
    n := Deliver(r', tmp, body);
  }

  // Writing the message and taking its length.
  method Deliver(r: HttpResponse, tmp: Buffer, body: Buffer) returns (n: nat)
    requires FitsFields(r) && |r.contentEncoding| < 106 && r.contentLength < 0x3000_0000
    requires body.Valid() && body.data != null && body.capacity < 0x8000_0000
    requires tmp.Valid() && tmp.data != null && tmp != body && tmp.data != body.data && r.contentLength == tmp.count
    modifies body, body.data
    ensures body.Valid() && n == body.count && body.Text() == Message(r, tmp.Text())
    ensures body.data == old(body.data) || fresh(body.data)
  {
    OnlyLongEncodingsAreCut(r, body.capacity);
    hide Head, IsCut, Grown, Largest, EncodingFits;
    n := ToString(r, tmp, body);
    body.count := n;
  }
}
