/** The HTTP/1.1 header parser and printer of HTTPFraming.cc as functions on
    the text received so far (sections 4.2, 5.1 and 6.1 of RFC 2616). */
module Http {
  import opened Scan
  import opened Url

  datatype Param = Param(key: string, value: string)
  datatype Header = Header(name: string, value: string, params: seq<Param>)
  datatype Method = GET | HEAD | POST | PUT | DELETE

  datatype Head =
    | Response(major: int, minor: int, code: int, hdrs: seq<Header>)
    | Request(verb: Method, uri: Url, major: int, minor: int, hdrs: seq<Header>)

  // What InitFromBuf reports: not enough data, an error event, a header that
  // used some of the buffer, or a header whose chunked body comes next.
  datatype Outcome = NeedMore | Error | Ready(head: Head, used: int) | Chunked(head: Head, used: int)

  const CONTENT_LENGTH: string := "Content-Length"
  const TRANSFER_ENCODING: string := "Transfer-Encoding"
  const CHUNKED: string := "chunked"

  // ---- Case-insensitive comparison, strncasecmp(3).

  function Lower(c: char): char { if 'A' <= c <= 'Z' then c + 32 as char else c }

  predicate SameNoCase(a: string, b: string) {
    |a| == |b| && forall i :: 0 <= i < |a| ==> Lower(a[i]) == Lower(b[i])
  }

  predicate StartsNoCase(s: string, word: string) {
    |s| >= |word| && SameNoCase(s[..|word|], word)
  }

  // ---- One message-header: name ':' value *(';' key '=' value) CRLF.

  // Skip a character, then whitespace, then take a token.
  function ParseField(s: string, k: Class): (r: Parse<string>)
    requires s != ""
    ensures r != Bad && (r.Got? ==> r.rest != "" && |r.rest| < |s|)
  {
    var (_, s1) :- Pass(s);
    var (_, s2) :- Token(s1, Space);
    Token(s2, k)
  }

  function ParseParam(s: string): (r: Parse<Param>)
    requires s != ""
    ensures r != Bad && (r.Got? ==> r.rest != "" && |r.rest| < |s|)
  {
    var (key, s1) :- ParseField(s, Until({'='}));
    var (value, s2) :- ParseField(s1, Until({';', '\r'}));
    var (_, s3) :- Token(s2, Blank);
    Got(Param(CStr(key), CStr(value)), s3)
  }

  function ParseParams(s: string): (r: Parse<seq<Param>>)
    requires s != ""
    ensures r != Bad && (r.Got? ==> r.rest != "" && |r.rest| <= |s| && r.rest[0] == '\r')
    decreases |s|
  {
    if s[0] == '\r' then Got([], s)
    else
      var (p, s1) :- ParseParam(s);
      var (ps, rest) :- ParseParams(s1);
      Got([p] + ps, rest)
  }

  // The '\r' at the front and a '\n', which may be the last character.
  function ParseLineEnd(s: string): (r: Parse<()>)
    requires s != ""
    ensures r.Got? ==> |r.rest| < |s|
  {
    if |s| == 1 then More else if s[1] != '\n' then Bad else Got((), s[2..])
  }

  function ParseMsgHdr(s: string): (r: Parse<Header>)
    requires s != ""
    ensures r.Got? ==> |r.rest| < |s|
  {
    if IsSpace(s[0]) then Bad
    else
      var (name, s1) :- Token(s, Until({':'}));
      var (value, s2) :- ParseField(s1, Until({';', '\r'}));
      var (params, s3) :- ParseParams(s2);
      var (_, rest) :- ParseLineEnd(s3);
      Got(Header(CStr(name), CStr(value), params), rest)
  }

  // The loop over the headers, up to the '\r' of the empty line.
  function ParseHdrs(s: string): (r: Parse<seq<Header>>)
    requires s != ""
    ensures r.Got? ==> r.rest != "" && r.rest[0] == '\r'
    decreases |s|
  {
    if s[0] == '\r' then Got([], s)
    else
      var (h, s1) :- ParseMsgHdr(s);
      if s1 == "" then More
      else
        var (hs, rest) :- ParseHdrs(s1);
        Got([h] + hs, rest)
  }

  // ---- The start-lines.

  predicate KnownVersion(major: int, minor: int) {
    (major == 1 && (minor == 1 || minor == 0)) || (major == 0 && minor == 9)
  }

  function ParseNumber(s: string): (r: Parse<int>)
    ensures r != Bad && (r.Got? ==> r.rest != "")
  {
    var (digits, rest) :- Token(s, Digit);
    Got(ToInt(Strtol(digits)), rest)
  }

  // A number after a character.
  function ParseNumberAfter(s: string, c: char): (r: Parse<int>)
    requires s != ""
    ensures r.Got? ==> r.rest != ""
  {
    var (_, s1) :- Expect(s, c);
    ParseNumber(s1)
  }

  // "HTTP/" major '.' minor, of a version that is known.
  function ParseVersion(s: string): (r: Parse<(int, int)>)
    ensures r.Got? ==> r.rest != ""
  {
    if |s| <= 5 || !StartsNoCase(s, "HTTP/") then More
    else
      var (major, s1) :- ParseNumber(s[5..]);
      var (minor, s2) :- ParseNumberAfter(s1, '.');
      if KnownVersion(major, minor) then Got((major, minor), s2) else Bad
  }

  function ParseCrLf(s: string): (r: Parse<()>)
    requires s != ""
    ensures r.Got? ==> r.rest != ""
  {
    var (_, s1) :- Expect(s, '\r');
    Expect(s1, '\n')
  }

  function ParsePhrase(s: string): (r: Parse<string>)
    requires s != ""
    ensures r.Got? ==> r.rest != ""
  {
    var (_, s1) :- Expect(s, ' ');
    var (phrase, s2) :- Token(s1, Until({'\r'}));
    var (_, rest) :- ParseCrLf(s2);
    Got(CStr(phrase), rest)
  }

  function ParseStatusLine(s: string): (r: Parse<(int, int, int)>)
    ensures r.Got? ==> r.rest != ""
  {
    var (v, s1) :- ParseVersion(s);
    var (code, s2) :- ParseNumberAfter(s1, ' ');
    var (_, rest) :- ParsePhrase(s2);
    Got((v.0, v.1, code), rest)
  }

  // The header of a response up to and including its empty line.
  function ParseResponse(s: string): Parse<Head> {
    var (line, s1) :- ParseStatusLine(s);
    var (hdrs, s2) :- ParseHdrs(s1);
    var (_, rest) :- ParseLineEnd(s2);
    Got(Response(line.0, line.1, line.2, hdrs), rest)
  }

  lemma {:induction false} HdrsUse(s: string)
    requires s != ""
    ensures ParseHdrs(s).Got? ==> |ParseHdrs(s).rest| <= |s|
    decreases |s|
  {
    if s[0] != '\r' {
      var h := ParseMsgHdr(s);
      if h.Got? && h.rest != "" { HdrsUse(h.rest); }
    }
  }

  lemma NumberUses(s: string, c: char)
    requires s != ""
    ensures ParseNumberAfter(s, c).Got? ==> |ParseNumberAfter(s, c).rest| < |s|
  {
  }

  lemma VersionUses(s: string)
    ensures ParseVersion(s).Got? ==> |ParseVersion(s).rest| < |s|
  {
    if |s| > 5 {
      var major := ParseNumber(s[5..]);
      if major.Got? { NumberUses(major.rest, '.'); }
    }
  }

  lemma PhraseUses(s: string)
    requires s != ""
    ensures ParsePhrase(s).Got? ==> |ParsePhrase(s).rest| < |s|
  {
  }

  lemma StatusLineUses(s: string)
    ensures ParseStatusLine(s).Got? ==> |ParseStatusLine(s).rest| < |s|
  {
    VersionUses(s);
    var v := ParseVersion(s);
    if v.Got? {
      NumberUses(v.rest, ' ');
      var code := ParseNumberAfter(v.rest, ' ');
      if code.Got? { PhraseUses(code.rest); }
    }
  }

  // A response has a byte at least.
  lemma ResponseUses(s: string)
    ensures ParseResponse(s).Got? ==> |ParseResponse(s).rest| < |s|
  {
    StatusLineUses(s);
    var line := ParseStatusLine(s);
    if line.Got? { HdrsUse(line.rest); }
  }

  function MethodName(m: Method): string {
    match m
    case GET => "GET"
    case HEAD => "HEAD"
    case POST => "POST"
    case PUT => "PUT"
    case DELETE => "DELETE"
  }

  function ParseMethod(s: string): (r: Parse<Method>)
    requires |s| >= 16
    ensures r.Got? ==> r.rest != ""
  {
    if StartsNoCase(s, "GET") then Got(GET, s[3..])
    else if StartsNoCase(s, "PUT") then Got(PUT, s[3..])
    else if StartsNoCase(s, "HEAD") then Got(HEAD, s[4..])
    else if StartsNoCase(s, "POST") then Got(POST, s[4..])
    else if StartsNoCase(s, "DELETE") then Got(DELETE, s[6..])
    else Bad
  }

  function ParseRequestVersion(s: string): (r: Parse<(int, int)>)
    requires s != ""
    ensures r.Got? ==> r.rest != ""
  {
    var (_, s1) :- Expect(s, ' ');
    var (v, s2) :- ParseVersion(s1);
    var (_, rest) :- ParseCrLf(s2);
    Got(v, rest)
  }

  function ParseAfterUri(verb: Method, uri: Url, s: string): (r: Parse<Head>)
    ensures r.Got? ==> r.value.Request? && r.value.uri == uri
  {
    if s == "" then More
    else
      var (v, s1) :- ParseRequestVersion(s);
      var (hdrs, s2) :- ParseHdrs(s1);
      var (_, rest) :- ParseCrLf(s2);
      Got(Request(verb, uri, v.0, v.1, hdrs), rest)
  }

  // slack is the memory after the text, which the URL parser searches.
  function ParseRequest(s: string, slack: string): Parse<Head> {
    if |s| < 16 then More
    else
      var (verb, s1) :- ParseMethod(s);
      var (_, s2) :- Expect(s1, ' ');
      var (uri, s3) :- ParseUrl(s2, slack, 0);
      ParseAfterUri(verb, uri, s3)
  }

  // ---- Look-ups.

  // The first header of a name, in any case.
  function FindHdr(hdrs: seq<Header>, name: string): (i: nat)
    ensures i <= |hdrs|
    ensures i < |hdrs| ==> SameNoCase(hdrs[i].name, name)
    ensures forall j :: 0 <= j < i ==> !SameNoCase(hdrs[j].name, name)
  {
    if hdrs == [] || SameNoCase(hdrs[0].name, name) then 0 else 1 + FindHdr(hdrs[1..], name)
  }

  function TransferEncoding(hdrs: seq<Header>): string {
    var i := FindHdr(hdrs, TRANSFER_ENCODING);
    if i < |hdrs| then hdrs[i].value else ""
  }

  predicate IsChunked(hdrs: seq<Header>) {
    SameNoCase(TransferEncoding(hdrs), CHUNKED)
  }

  // msg_len, as the signed length the session stores.
  function MsgLen(hdrs: seq<Header>): int {
    var i := FindHdr(hdrs, CONTENT_LENGTH);
    if i < |hdrs| then Strtol(hdrs[i].value) else 0
  }

  // AppendMsgHdr refuses a name that is already there.
  function AppendHdr(hdrs: seq<Header>, h: Header): Parse<seq<Header>> {
    if FindHdr(hdrs, h.name) < |hdrs| then Bad else Got(hdrs + [h], "")
  }

  // set_body_len: snprintf("%d", (int)body_len)
  function BodyLenHdr(n: nat): Header {
    Header(CONTENT_LENGTH, PrintInt(ToInt(n)), [])
  }

  lemma {:induction false} FindHdrAppended(hdrs: seq<Header>, h: Header, name: string)
    ensures FindHdr(hdrs, name) == |hdrs| ==>
      FindHdr(hdrs + [h], name) == if SameNoCase(h.name, name) then |hdrs| else |hdrs| + 1
    ensures FindHdr(hdrs, name) < |hdrs| ==> FindHdr(hdrs + [h], name) == FindHdr(hdrs, name)
  {
    if hdrs != [] {
      FindHdrAppended(hdrs[1..], h, name);
      assert (hdrs + [h])[1..] == hdrs[1..] + [h];
    } else {
      assert ([h])[1..] == [];
    }
  }

  // The body length that was set is the one that is read, exactly while it
  // fits an int: from 2^31 on, the header says something else.
  lemma BodyLenRoundTrip(hdrs: seq<Header>, n: nat)
    requires FindHdr(hdrs, CONTENT_LENGTH) == |hdrs|
    ensures var r := AppendHdr(hdrs, BodyLenHdr(n));
            r.Got? && (MsgLen(r.value) == n <==> n < 0x8000_0000)
  {
    FindHdrAppended(hdrs, BodyLenHdr(n), CONTENT_LENGTH);
    StrtolPrint(ToInt(n));
  }

  // Two gigabytes are announced as minus two.
  lemma TwoGigabytes(n: nat)
    requires n == 0x8000_0000
    ensures MsgLen([BodyLenHdr(n)]) == -0x8000_0000
  {
    StrtolPrint(ToInt(n));
    OwnHdr(BodyLenHdr(n));
  }

  lemma OwnHdr(h: Header)
    requires h.name == CONTENT_LENGTH
    ensures MsgLen([h]) == Strtol(h.value)
  {
    assert FindHdr([h], CONTENT_LENGTH) == 0;
  }

  // ---- The dispatch on the first word.

  predicate StartsRequest(s: string) {
    || StartsNoCase(s, "GET") || StartsNoCase(s, "HEAD") || StartsNoCase(s, "POST")
    || StartsNoCase(s, "PUT") || StartsNoCase(s, "DELETE")
  }

  // n is the length of the buffer.
  function RequestOutcome(r: Parse<Head>, n: int): Outcome {
    match r
    case More => NeedMore
    case Bad => Error
    case Got(head, rest) => Ready(head, n - |rest|)
  }

  // A chunked body is read at once, so some of it must have arrived.
  function ResponseOutcome(r: Parse<Head>, n: int): Outcome {
    match r
    case More => NeedMore
    case Bad => Error
    case Got(head, rest) =>
      if !IsChunked(head.hdrs) then Ready(head, n - |rest|)
      else if rest == "" then NeedMore
      else Chunked(head, n - |rest|)
  }

  // The text after its leading whitespace.
  function Body(s: string): string { s[Span(s, Space)..] }

  function InitFromBuf(s: string, slack: string): Outcome {
    var b := Body(s);
    if StartsRequest(b) then RequestOutcome(ParseRequest(b, slack), |s|)
    else if StartsNoCase(b, "HTTP/") then ResponseOutcome(ParseResponse(b), |s|)
    else if |b| >= |"DELETE"| then Error
    else NeedMore
  }

  lemma ChunkedIs(s: string, slack: string)
    ensures var r := InitFromBuf(s, slack);
      r.Chunked? ==> r == ResponseOutcome(ParseResponse(Body(s)), |s|)
  {
  }

  lemma ResponseChunked(r: Parse<Head>, n: int, w: Outcome)
    requires w == ResponseOutcome(r, n) && w.Chunked?
    ensures r.Got? && r.rest != "" && w.used == n - |r.rest|
  {
  }

  // The header of a chunked response ends in the text.
  lemma ChunkedUses(s: string, slack: string)
    ensures var r := InitFromBuf(s, slack); r.Chunked? ==> Span(s, Space) < r.used < |s|
  {
    var r := InitFromBuf(s, slack);
    if r.Chunked? {
      ChunkedIs(s, slack);
      ResponseChunked(ParseResponse(Body(s)), |s|, r);
      ResponseUses(Body(s));
      assert |Body(s)| == |s| - Span(s, Space);
    }
  }
}
