/** The fixed-size records that travel with a session: what was parsed from the
    request and what is going to be put in the response.  A `char[]` field is
    modelled by the C string in it, and a zeroed one is the empty string. */
module HttpTypes {

  datatype Option<+T> = None | Some(value: T)

  datatype HttpMethod = POST | GET | PATCH | PUT | HEAD | DELETE | CONNECT | OPTIONS | TRACE | BAD_METHOD

  datatype Connection = KeepAlive | Close

  datatype HttpStatus =
    | OK | MovedPermanently | NotModified | BadRequest | NotFound | MethodNotAllowed
    | NotAcceptable | InternalServerError | NotImplemented | ServiceUnavailable
    | Unset  // a zeroed status code, which is none of the enumerators

  const HTTP_HEADER_SIZE := 256
  const HTTP_HEADER_SMALL_SIZE := 128
  const HTTP_HEADER_ETAG_SIZE := 65
  const HTTP_URI_TOKEN_COUNT := 4
  const HTTP_URI_TOKEN_SIZE := 200
  const HTTP_METHOD_SIZE := 8
  const HTTP_VERSION_SIZE := 16
  const ALLOCATE_MEMORY_ERROR := -123

  datatype HttpRequest = HttpRequest(
    uri: seq<string>,  // the four token fields
    httpMethod: HttpMethod,
    isSsl: bool,
    version: string,
    host: string,
    userAgent: string,
    accept: string,
    acceptLanguage: string,
    acceptEncoding: string,
    ifNoneMatch: string,
    connection: Connection,
    contentType: string,
    contentLength: int)

  datatype HttpResponse = HttpResponse(
    status: HttpStatus,
    contentType: string,
    contentLength: int,
    contentLanguage: string,
    contentEncoding: string,
    lastModified: string,
    date: string,
    etag: string,
    location: string)

  // What `memset(.., 0, ..)` leaves: the first enumerators and empty strings.
  const ZERO_REQUEST :=
    HttpRequest(["", "", "", ""], POST, false, "", "", "", "", "", "", "", KeepAlive, "", 0)

  const ZERO_RESPONSE := HttpResponse(Unset, "", 0, "", "", "", "", "", "")

  // A C string has no terminator in it.
  predicate NoNul(s: string) { forall i :: 0 <= i < |s| ==> s[i] != '\0' }

  // What strcasecmp and its relatives compare by.
  function LowerCase(c: char): char { if 'A' <= c <= 'Z' then c - 'A' + 'a' else c }

  function Lower(s: string): (r: string)
    ensures |r| == |s| && forall i :: 0 <= i < |s| ==> r[i] == LowerCase(s[i])
  {
    if s == "" then "" else [LowerCase(s[0])] + Lower(s[1..])
  }
}
