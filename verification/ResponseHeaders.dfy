/** What a client reads in a response under each header name. */
module ResponseHeaders {
  import opened HttpTypes
  import opened Messages
  import opened Replacing
  import opened Response

  function Times(fs: seq<Field>, name: string): nat {
    if fs == [] then 0 else (if fs[0].name == name then 1 else 0) + Times(fs[1..], name)
  }

  // There is one header of that name, with that value; or none, if the value is empty.
  ghost predicate Reads(fs: seq<Field>, name: string, value: string) {
    if value == "" then Times(fs, name) == 0 && ValueOf(fs, name) == None
    else Times(fs, name) == 1 && ValueOf(fs, name) == Some(value)
  }

  lemma {:induction false} LookupAppend(a: seq<Field>, b: seq<Field>, name: string)
    ensures Times(a + b, name) == Times(a, name) + Times(b, name)
    ensures ValueOf(a + b, name) == if ValueOf(a, name).Some? then ValueOf(a, name) else ValueOf(b, name)
  {
    if a == [] {
      assert a + b == b;
    } else {
      assert (a + b)[1..] == a[1..] + b;
      LookupAppend(a[1..], b, name);
    }
  }

  lemma OptionalReads(name: string, value: string, asked: string)
    ensures Reads(Optional(name, value), asked, if name == asked then value else "")
  {
    if value != "" {
      assert Optional(name, value)[1..] == [];
    }
  }

  // Two parts, one of which does not have the name.
  lemma ReadsAppend(a: seq<Field>, b: seq<Field>, name: string, v: string, w: string)
    requires Reads(a, name, v) && Reads(b, name, w) && (v == "" || w == "")
    ensures Reads(a + b, name, if v == "" then w else v)
  {
    LookupAppend(a, b, name);
  }

  // The names under which to_string writes.
  const NAMES: seq<string> :=
    ["Content-Type", "Content-Length", "Content-Language", "Date", "ETag", "Location", "Last-Modified",
     "Content-Encoding"]

  lemma NamesDiffer(i: nat, j: nat)
    requires i < j < 8
    ensures NAMES[i] != NAMES[j]
  {
    assert "Date"[0] != "ETag"[0];
    assert "Content-Language"[8] != "Content-Encoding"[8];
  }

  // The value that a response has for each of them.
  function ValueAt(r: HttpResponse, i: nat): string
    requires i < 8 && r.contentLength >= 0
  {
    match i
    case 0 => r.contentType
    case 1 => Decimal(r.contentLength)
    case 2 => r.contentLanguage
    case 3 => r.date
    case 4 => r.etag
    case 5 => r.location
    case 6 => r.lastModified
    case _ => r.contentEncoding
  }

  // The headers under the first n names.
  function FieldsUpTo(r: HttpResponse, n: nat): seq<Field>
    requires n <= 8 && r.contentLength >= 0
  {
    if n == 0 then [] else FieldsUpTo(r, n - 1) + Optional(NAMES[n - 1], ValueAt(r, n - 1))
  }

  lemma {:induction false} FieldsUpToReads(r: HttpResponse, n: nat, j: nat)
    requires n <= 8 && j < 8 && r.contentLength >= 0
    ensures Reads(FieldsUpTo(r, n), NAMES[j], if j < n then ValueAt(r, j) else "")
  {
    hide ValueAt, Reads, Optional;
    if n == 0 {
      NothingReads(NAMES[j]);
    } else {
      OptionalReads(NAMES[n - 1], ValueAt(r, n - 1), NAMES[j]);
      if n - 1 != j {
        NamesDiffer(if n - 1 < j then n - 1 else j, if n - 1 < j then j else n - 1);
      }
      FieldsUpToReads(r, n - 1, j);
      var v, w := if j < n - 1 then ValueAt(r, j) else "", if j == n - 1 then ValueAt(r, j) else "";
      ReadsAppend(FieldsUpTo(r, n - 1), Optional(NAMES[n - 1], ValueAt(r, n - 1)), NAMES[j], v, w);
    }
  }

  lemma NothingReads(name: string)
    ensures Reads([], name, "")
  {
  }

  lemma OneName(r: HttpResponse, n: nat)
    requires n < 8 && r.contentLength >= 0
    ensures FieldsUpTo(r, n + 1) == FieldsUpTo(r, n) + Optional(NAMES[n], ValueAt(r, n))
  {
  }

  lemma FirstFour(r: HttpResponse)
    requires r.contentLength >= 0
    ensures FieldsUpTo(r, 4) ==
            Optional("Content-Type", r.contentType) + Optional("Content-Length", Decimal(r.contentLength)) +
            Optional("Content-Language", r.contentLanguage) + Optional("Date", r.date)
  {
    OneName(r, 0);
    OneName(r, 1);
    OneName(r, 2);
    OneName(r, 3);
    hide Optional, Decimal;
    assert [] + Optional("Content-Type", r.contentType) == Optional("Content-Type", r.contentType);
  }

  lemma FieldsAreAll(r: HttpResponse)
    requires r.contentLength >= 0
    ensures Fields(r) == FieldsUpTo(r, 8)
  {
    assert Optional("Content-Length", Decimal(r.contentLength)) ==
           [Field("Content-Length", Decimal(r.contentLength))];
    hide Optional, Decimal;
    FirstFour(r);
    OneName(r, 4);
    OneName(r, 5);
    OneName(r, 6);
    OneName(r, 7);
    hide FieldsUpTo;
  }

  // ----- What to_string wrote, by name -----

  // What one reads in a message under each name.
  lemma MessageReadsByName(r: HttpResponse, body: string)
    requires CleanResponse(r) && r.contentLength == |body|
    ensures var p := ReadMessage(Message(r, body));
            && p.Some? && p.value.status == StatusCode(r.status) && p.value.body == body
            && var fs := p.value.fields;
            && Reads(fs, "Content-Type", r.contentType) && Reads(fs, "Content-Length", Decimal(|body|))
            && Reads(fs, "Content-Language", r.contentLanguage) && Reads(fs, "Date", r.date)
            && Reads(fs, "ETag", r.etag) && Reads(fs, "Location", r.location)
            && Reads(fs, "Last-Modified", r.lastModified) && Reads(fs, "Content-Encoding", r.contentEncoding)
  {
    MessageRoundTrip(r, body);
    FieldsAreAll(r);
    hide ReadMessage, Message, Reads, FieldsUpTo, Fields, CleanResponse, Decimal;
    FieldsUpToReads(r, 8, 0);
    FieldsUpToReads(r, 8, 1);
    FieldsUpToReads(r, 8, 2);
    FieldsUpToReads(r, 8, 3);
    FieldsUpToReads(r, 8, 4);
    FieldsUpToReads(r, 8, 5);
    FieldsUpToReads(r, 8, 6);
    FieldsUpToReads(r, 8, 7);
  }

  // ----- What construct_response sent, by name -----

  // The client has the page: it was found, and its hash is what the client named.
  predicate ClientHasIt(r: HttpResponse, ifNoneMatch: string, body: string, site: Site) {
    r.status.OK? && ifNoneMatch != "" && ifNoneMatch == site.hash(body)
  }

  // The site and the row give nothing that would break a line.
  predicate CleanSite(r: HttpResponse, body: string, site: Site) {
    NoCr(site.lastModified) && NoCr(site.date) && NoCr(site.hash(body)) && NoCr(r.location)
  }

  lemma ConstructedIsClean(r: HttpResponse, accept: string, ifNoneMatch: string, body: string, site: Site)
    requires FitsSite(r, body, site) && CleanSite(r, body, site)
    ensures var (r', payload) := Constructed(r, accept, ifNoneMatch, body, site);
            CleanResponse(r') && r'.contentLength == |payload|
  {
    hide Mentions, ContentTypeOf;
    TypesAreClean(r.status, site.fileName);
    ConstructedIs(r, accept, ifNoneMatch, body, site);
  }

  // What the client reads: 304 and the headers that identify the page, if it has the page already; and
  // else the status of the row, the page as it may be encoded, its length, type, language, date and,
  // when the page was found, its hash and the time it was modified.
  lemma ConstructedReadsByName(r: HttpResponse, accept: string, ifNoneMatch: string, body: string, site: Site)
    requires FitsSite(r, body, site) && CleanSite(r, body, site) && !r.status.NotModified?
    ensures var (r', payload) := Constructed(r, accept, ifNoneMatch, body, site);
            var has := ClientHasIt(r, ifNoneMatch, body, site);
            var p := ReadMessage(Message(r', payload));
            && p.Some? && p.value.body == payload
            && p.value.status == (if has then 304 else if r.status.OK? then 200 else StatusCode(r.status))
            && (has ==> payload == "")
            && var fs := p.value.fields;
            && Reads(fs, "Date", site.date)
            && Reads(fs, "Content-Language", if has then "" else "en-US")
            && Reads(fs, "ETag", if r.status.OK? then site.hash(body) else "")
            && Reads(fs, "Last-Modified", if r.status.OK? then site.lastModified else "")
            && Reads(fs, "Content-Length", Decimal(|payload|))
            && Reads(fs, "Content-Type", if has then "" else ContentTypeOf(r.status, site.fileName))
            && Reads(fs, "Location", r.location)
            && Reads(fs, "Content-Encoding",
                     if has then ""
                     else if Mentions(accept, "gzip") then "gzip"
                     else if Mentions(accept, "deflate") then "deflate" else r.contentEncoding)
  {
    var (r', payload) := Constructed(r, accept, ifNoneMatch, body, site);
    ConstructedIsClean(r, accept, ifNoneMatch, body, site);
    hide ReadMessage, Message, Reads, Decimal, Mentions, ContentTypeOf, CleanSite;
    MessageReadsByName(r', payload);
  }

  // ----- The type of a page by the extension of its file -----

  // A name without a dot, then a dot and an extension without another.
  ghost predicate HasExtension(fileName: string, stem: string, extension: string) {
    && fileName == stem + "." + extension
    && (forall i :: 0 <= i < |stem| ==> stem[i] != '.')
    && (forall i :: 0 <= i < |extension| ==> extension[i] != '.')
  }

  predicate IsPrefixOf(a: string, b: string) { |a| <= |b| && b[..|a|] == a }

  // In such a name a word that begins with a dot is mentioned exactly when the extension begins with
  // the rest of the word, case aside.
  lemma MentionsExtension(fileName: string, stem: string, extension: string, word: string)
    requires HasExtension(fileName, stem, extension)
    ensures Mentions(fileName, "." + word) <==> IsPrefixOf(word, Lower(extension))
  {
    var s, w := Lower(fileName), "." + word;
    FindIsFirst(s, w, 0);
    hide Find, Lower;
    OnlyAtTheDot(fileName, stem, extension, word);
    if IsPrefixOf(word, Lower(extension)) {
      assert OccursAt(s, w, |stem|);
    }
  }

  lemma OnlyAtTheDot(fileName: string, stem: string, extension: string, word: string)
    requires HasExtension(fileName, stem, extension)
    ensures forall i: nat | OccursAt(Lower(fileName), "." + word, i) :: i == |stem|
    ensures OccursAt(Lower(fileName), "." + word, |stem|) <==> IsPrefixOf(word, Lower(extension))
  {
    var s, w := Lower(fileName), "." + word;
    forall i: nat | OccursAt(s, w, i) ensures i == |stem| {
      assert s[i..i + |w|][0] == s[i] == LowerCase(fileName[i]);
    }
    assert s[|stem|] == '.' && s[|stem| + 1..] == Lower(extension) by {
      assert forall k :: 0 <= k < |extension| ==> fileName[|stem| + 1 + k] == extension[k];
    }
    DotAndRest(s, |stem|, word);
  }

  lemma DotAndRest(s: string, i: nat, word: string)
    requires i < |s| && s[i] == '.'
    ensures OccursAt(s, "." + word, i) <==> IsPrefixOf(word, s[i + 1..])
  {
    var w := "." + word;
    if i + |w| <= |s| {
      assert s[i..i + |w|] == "." + s[i + 1..][..|word|];
      assert w[1..] == word && ("." + s[i + 1..][..|word|])[1..] == s[i + 1..][..|word|];
    }
  }

  lemma DotWords()
    ensures "." + "html" == ".html" && "." + "png" == ".png" && "." + "css" == ".css" && "." + "js" == ".js"
  {
  }

  // A page that was found is announced by the extension of its file, in small or large letters; any
  // other answer is a page of text.
  lemma TypeByExtension(status: HttpStatus, fileName: string, stem: string, extension: string)
    requires HasExtension(fileName, stem, extension)
    ensures !status.OK? ==> ContentTypeOf(status, fileName) == "text/html;charset=utf-8"
    ensures status.OK? ==>
              var t, e := ContentTypeOf(status, fileName), Lower(extension);
              && (e == "html" ==> t == "text/html;charset=utf-8") && (e == "png" ==> t == "image/png")
              && (e == "css" ==> t == "text/css;charset=utf-8")
              && (e == "js" ==> t == "application/javascript;charset=utf-8")
              && (!IsPrefixOf("html", e) && !IsPrefixOf("png", e) && !IsPrefixOf("css", e) && !IsPrefixOf("js", e) ==>
                    t == "text/plain;charset=utf-8")
  {
    DotWords();
    MentionsExtension(fileName, stem, extension, "html");
    MentionsExtension(fileName, stem, extension, "png");
    MentionsExtension(fileName, stem, extension, "css");
    MentionsExtension(fileName, stem, extension, "js");
    hide Mentions;
  }

  // So it is in the response that is sent.
  lemma PageIsSentWithItsType(
    r: HttpResponse, accept: string, ifNoneMatch: string, body: string, site: Site, stem: string, extension: string)
    requires FitsSite(r, body, site) && CleanSite(r, body, site) && !r.status.NotModified?
    requires HasExtension(site.fileName, stem, extension) && !ClientHasIt(r, ifNoneMatch, body, site)
    ensures var (r', payload) := Constructed(r, accept, ifNoneMatch, body, site);
            var p, e := ReadMessage(Message(r', payload)), Lower(extension);
            && p.Some?
            && var fs := p.value.fields;
            && (!r.status.OK? || e == "html" ==> Reads(fs, "Content-Type", "text/html;charset=utf-8"))
            && (r.status.OK? && e == "png" ==> Reads(fs, "Content-Type", "image/png"))
            && (r.status.OK? && e == "css" ==> Reads(fs, "Content-Type", "text/css;charset=utf-8"))
            && (r.status.OK? && e == "js" ==> Reads(fs, "Content-Type", "application/javascript;charset=utf-8"))
  {
    ConstructedReadsByName(r, accept, ifNoneMatch, body, site);
    hide ReadMessage, Message, Reads, Decimal, Mentions, ContentTypeOf, Constructed, HasExtension, CleanSite, FitsSite;
    TypeByExtension(r.status, site.fileName, stem, extension);
  }
}
