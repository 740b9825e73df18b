/** What the printers of HTTPFraming.cc write, and that the parser reads it
    back (sections 4.2, 5.1 and 6.1 of RFC 2616). */
module HttpPrint {
  import opened Scan
  import opened Url
  import opened Http

  function StatusPhrase(code: int): string {
    if code == 200 then "OK" else if code == 201 then "Created" else if code == 202 then "Accepted"
    else if code == 203 then "Non-Authoritative Information" else if code == 204 then "No Content"
    else if code == 400 then "Bad Request" else if code == 401 then "Unauthorized"
    else if code == 402 then "Payment Required" else if code == 403 then "Forbidden"
    else if code == 404 then "Method Not Allowed"
    else if code == 500 then "Internal Server Error" else if code == 501 then "Not Implemented"
    else if code == 502 then "Bad Gateway" else if code == 503 then "Service Unavailable"
    else if code == 504 then "Gateway Time-out" else if code == 505 then "HTTP Version not supported"
    else "NULL Status Phrase"
  }

  function VersionText(major: int, minor: int): string {
    "HTTP/" + PrintInt(major) + "." + PrintInt(minor)
  }

  function StartLine(h: Head, absPath: bool): string {
    match h
    case Response(major, minor, code, _) =>
      VersionText(major, minor) + " " + PrintInt(code) + " " + StatusPhrase(code)
    case Request(verb, uri, major, minor, _) =>
      MethodName(verb) + " " + (if absPath then AbsPath(uri) else AbsUri(uri)) + " " + VersionText(major, minor)
  }

  function ParamText(p: Param): string { p.key + "=" + p.value }

  function ParamsText(ps: seq<Param>): string {
    if ps == [] then "" else "; " + ParamText(ps[0]) + ParamsText(ps[1..])
  }

  function HdrText(h: Header): string {
    h.name + ": " + h.value + ParamsText(h.params) + CRLF
  }

  function HdrsText(hs: seq<Header>): string {
    if hs == [] then "" else HdrText(hs[0]) + HdrsText(hs[1..])
  }

  function PrintHdr(h: Head, absPath: bool): string {
    StartLine(h, absPath) + CRLF + HdrsText(h.hdrs) + CRLF
  }

  // ---- Header text as the scanner needs it.

  predicate Ok(s: string, stops: set<char>) {
    All(Until(stops), s) && Clean(s) && (s != "" ==> !IsSpace(s[0]))
  }

  predicate ParamOk(p: Param) { Ok(p.key, {'='}) && Ok(p.value, {';', '\r'}) }

  predicate HeaderOk(h: Header) {
    Ok(h.name, {':'}) && Ok(h.value, {';', '\r'}) && forall i :: 0 <= i < |h.params| ==> ParamOk(h.params[i])
  }

  predicate HeadersOk(hs: seq<Header>) { forall i :: 0 <= i < |hs| ==> HeaderOk(hs[i]) }

  // The value a header line ends with is not empty.
  predicate Solid(h: Header) {
    if h.params == [] then h.value != "" else h.params[|h.params| - 1].value != ""
  }

  predicate AllSolid(hs: seq<Header>) { forall i :: 0 <= i < |hs| ==> Solid(hs[i]) }

  // ---- One line at a time.

  lemma FieldTrip(c: char, space: string, tok: string, k: Class, next: string)
    requires All(Space, space) && All(k, tok) && next != "" && !Has(k, next[0])
    requires !IsSpace((tok + next)[0])
    ensures ParseField([c] + space + tok + next, k) == Got(tok, next)
  {
    var s := [c] + space + tok + next;
    assert s[1..] == space + (tok + next);
    TokenText(space, Space, tok + next);
    TokenText(tok, k, next);
  }

  lemma ParamShape(key: string, value: string, next: string)
    ensures "; " + (key + "=" + value) + next == [';'] + " " + key + (['='] + "" + value + next)
  {
  }

  lemma ValueTrip(value: string, next: string)
    requires Ok(value, {';', '\r'}) && next != "" && (next[0] == ';' || (next[0] == '\r' && value != ""))
    ensures ParseField(['='] + "" + value + next, Until({';', '\r'})) == Got(value, next)
    ensures Token(next, Blank) == Got("", next)
  {
    FieldTrip('=', "", value, Until({';', '\r'}), next);
    assert "" + next == next;
    TokenText("", Blank, next);
  }

  lemma ParamTrip(p: Param, next: string)
    requires ParamOk(p) && next != "" && (next[0] == ';' || (next[0] == '\r' && p.value != ""))
    ensures ParseParam("; " + ParamText(p) + next) == Got(p, next)
  {
    ParamShape(p.key, p.value, next);
    var tail := ['='] + "" + p.value + next;
    FieldTrip(';', " ", p.key, Until({'='}), tail);
    ValueTrip(p.value, next);
    CStrClean(p.key);
    CStrClean(p.value);
  }

  lemma ParamsStart(ps: seq<Param>, next: string)
    requires next != "" && next[0] == '\r'
    ensures var s := ParamsText(ps) + next; s != "" && s[0] == if ps == [] then '\r' else ';'
  {
    assert "" + next == next;
  }

  lemma ParamsShape(p: Param, ps: seq<Param>, next: string)
    ensures ParamsText([p] + ps) + next == "; " + ParamText(p) + (ParamsText(ps) + next)
  {
    assert ([p] + ps)[1..] == ps;
    CatAssoc("; " + ParamText(p), ParamsText(ps), next);
  }

  lemma {:induction false} ParamsTrip(ps: seq<Param>, next: string)
    requires forall i :: 0 <= i < |ps| ==> ParamOk(ps[i])
    requires ps != [] ==> ps[|ps| - 1].value != ""
    requires next != "" && next[0] == '\r'
    ensures ParseParams(ParamsText(ps) + next) == Got(ps, next)
  {
    if ps == [] {
      NoParams(next);
    } else {
      var p, more := ps[0], ps[1..];
      assert ps == [p] + more;
      ParamsTrip(more, next);
      ParamsStart(ps, next);
      ParamsStart(more, next);
      ParamsShape(p, more, next);
      ParamTrip(p, ParamsText(more) + next);
      ParamsStep(p, more, ParamsText(ps) + next, ParamsText(more) + next, next);
    }
  }

  lemma NoParams(next: string)
    requires next != "" && next[0] == '\r'
    ensures ParseParams(ParamsText([]) + next) == Got([], next)
  {
    assert "" + next == next;
  }

  // One turn of the loop over the parameters.
  lemma ParamsStep(p: Param, ps: seq<Param>, s: string, more: string, next: string)
    requires s != "" && s[0] != '\r' && ParseParam(s) == Got(p, more)
    requires more != "" && ParseParams(more) == Got(ps, next)
    ensures ParseParams(s) == Got([p] + ps, next)
  {
  }

  // What follows the name of a printed header.
  function AfterName(h: Header, next: string): string {
    [':'] + " " + h.value + (ParamsText(h.params) + (CRLF + next))
  }

  lemma HdrTextIs(h: Header, next: string)
    ensures HdrText(h) + next == h.name + AfterName(h, next)
  {
    var p := ParamsText(h.params);
    assert HdrText(h) + next == h.name + ": " + h.value + p + CRLF + next;
    assert h.name + AfterName(h, next) == h.name + ": " + h.value + p + CRLF + next;
  }

  // What follows the name is read back.
  lemma AfterNameTrip(h: Header, next: string)
    requires HeaderOk(h) && Solid(h)
    ensures ParseField(AfterName(h, next), Until({';', '\r'})) == Got(h.value, ParamsText(h.params) + (CRLF + next))
    ensures ParseParams(ParamsText(h.params) + (CRLF + next)) == Got(h.params, CRLF + next)
  {
    FieldTrip(':', " ", h.value, Until({';', '\r'}), ParamsText(h.params) + (CRLF + next));
    ParamsTrip(h.params, CRLF + next);
  }

  lemma HdrTrip(h: Header, next: string)
    requires HeaderOk(h) && Solid(h)
    ensures ParseMsgHdr(HdrText(h) + next) == Got(h, next)
  {
    HdrTextIs(h, next);
    TokenText(h.name, Until({':'}), AfterName(h, next));
    AfterNameTrip(h, next);
    assert (CRLF + next)[2..] == next;
    CStrClean(h.name);
    CStrClean(h.value);
  }

  lemma {:induction false} HdrsTrip(hs: seq<Header>, next: string)
    requires HeadersOk(hs) && AllSolid(hs) && next != "" && next[0] == '\r'
    ensures ParseHdrs(HdrsText(hs) + next) == Got(hs, next)
  {
    if hs == [] {
      assert "" + next == next;
    } else {
      var more := HdrsText(hs[1..]) + next;
      HdrsTrip(hs[1..], next);
      HdrTrip(hs[0], more);
      CatAssoc(HdrText(hs[0]), HdrsText(hs[1..]), next);
      HdrStart(hs[0], more);
      assert [hs[0]] + hs[1..] == hs;
    }
  }

  lemma HdrStart(h: Header, more: string)
    requires HeaderOk(h)
    ensures (HdrText(h) + more)[0] != '\r'
  {
    assert (HdrText(h) + more)[0] == if h.name == "" then ':' else h.name[0];
  }

  // ---- The start-lines.

  lemma NumberTrip(x: int, next: string)
    requires 0 <= x < 0x8000_0000 && next != "" && !IsDigit(next[0])
    ensures ParseNumber(PrintInt(x) + next) == Got(x, next)
  {
    TokenText(Dec(x), Digit, next);
    StrtolPrint(x);
  }

  lemma NumberAfterTrip(c: char, x: int, next: string)
    requires 0 <= x < 0x8000_0000 && next != "" && !IsDigit(next[0])
    ensures ParseNumberAfter([c] + (PrintInt(x) + next), c) == Got(x, next)
  {
    assert ([c] + (PrintInt(x) + next))[1..] == PrintInt(x) + next;
    NumberTrip(x, next);
  }

  lemma VersionParts(s: string, t: string, major: int, dot: string, minor: int, next: string)
    requires StartsNoCase(s, "HTTP/") && s[5..] == t && t != "" && next != ""
    requires ParseNumber(t) == Got(major, dot) && dot != "" && ParseNumberAfter(dot, '.') == Got(minor, next)
    ensures ParseVersion(s) == if KnownVersion(major, minor) then Got((major, minor), next) else Bad
  {
  }

  lemma VersionTrip(major: int, minor: int, next: string)
    requires KnownVersion(major, minor) && next != "" && !IsDigit(next[0])
    ensures ParseVersion(VersionText(major, minor) + next) == Got((major, minor), next)
  {
    var s := VersionText(major, minor) + next;
    var dot := "." + (PrintInt(minor) + next);
    CatAssoc5("HTTP/", PrintInt(major), ".", PrintInt(minor), next);
    assert s[..5] == "HTTP/" && s[5..] == PrintInt(major) + dot;
    NumberTrip(major, dot);
    NumberAfterTrip('.', minor, next);
    VersionParts(s, PrintInt(major) + dot, major, dot, minor, next);
  }

  lemma CrLfTrip(next: string)
    requires next != ""
    ensures ParseCrLf(CRLF + next) == Got((), next)
  {
    assert (CRLF + next)[1..] == "\n" + next && ("\n" + next)[1..] == next;
  }

  // One phrase at a time, and each in short pieces.
  lemma OneLine(s: string)
    requires forall i :: 0 <= i < |s| ==> s[i] != '\r'
    ensures All(Until({'\r'}), s)
  {
  }

  lemma PhraseIsOneLine(code: int)
    ensures All(Until({'\r'}), StatusPhrase(code))
  {
    if code < 300 {
      OneLine("OK"); OneLine("Created"); OneLine("Accepted");
      OneLine("Non-Authoritative Information"); OneLine("No Content");
    } else if code < 500 {
      OneLine("Bad Request"); OneLine("Unauthorized"); OneLine("Payment Required");
      OneLine("Forbidden"); OneLine("Method Not Allowed");
    } else {
      OneLine("Internal Server Error"); OneLine("Not Implemented"); OneLine("Bad Gateway");
      OneLine("Service Unavailable"); OneLine("Gateway Time-out"); OneLine("HTTP Version not supported");
    }
    OneLine("NULL Status Phrase");
  }

  lemma PhraseTrip(code: int, next: string)
    requires next != ""
    ensures ParsePhrase(" " + (StatusPhrase(code) + (CRLF + next))).Got?
    ensures ParsePhrase(" " + (StatusPhrase(code) + (CRLF + next))).rest == next
  {
    var tail := StatusPhrase(code) + (CRLF + next);
    assert (" " + tail)[1..] == tail;
    PhraseIsOneLine(code);
    TokenText(StatusPhrase(code), Until({'\r'}), CRLF + next);
    CrLfTrip(next);
  }

  predicate ResponseOk(h: Head) {
    h.Response? && KnownVersion(h.major, h.minor) && 0 <= h.code < 0x8000_0000 && HeadersOk(h.hdrs)
  }

  // The header lines and the empty line.
  function Fields(h: Head, rest: string): string {
    HdrsText(h.hdrs) + (CRLF + rest)
  }

  lemma StatusLineIs(version: string, code: string, phrase: string, next: string)
    ensures version + " " + code + " " + phrase + (CRLF + next) == version + (" " + (code + (" " + (phrase + (CRLF + next)))))
  {
    CatAssoc6(version, " ", code, " ", phrase, CRLF + next);
  }

  lemma StatusLineTrip(h: Head, next: string)
    requires ResponseOk(h) && next != ""
    ensures ParseStatusLine(StartLine(h, false) + (CRLF + next)) == Got((h.major, h.minor, h.code), next)
  {
    var phrase := " " + (StatusPhrase(h.code) + (CRLF + next));
    var code := " " + (PrintInt(h.code) + phrase);
    StatusLineIs(VersionText(h.major, h.minor), PrintInt(h.code), StatusPhrase(h.code), next);
    VersionTrip(h.major, h.minor, code);
    NumberAfterTrip(' ', h.code, phrase);
    PhraseTrip(h.code, next);
  }

  lemma PrintHdrIs(h: Head, absPath: bool, rest: string)
    ensures PrintHdr(h, absPath) + rest == StartLine(h, absPath) + (CRLF + Fields(h, rest))
  {
    CatAssoc5(StartLine(h, absPath), CRLF, HdrsText(h.hdrs), CRLF, rest);
  }

  // A printed response is read back from any buffer that starts with it, and
  // nothing but its own text is used.
  lemma ResponseTrip(h: Head, rest: string)
    requires ResponseOk(h) && AllSolid(h.hdrs)
    ensures ParseResponse(PrintHdr(h, false) + rest) == Got(h, rest)
  {
    PrintHdrIs(h, false, rest);
    StatusLineTrip(h, Fields(h, rest));
    HdrsTrip(h.hdrs, CRLF + rest);
    assert (CRLF + rest)[2..] == rest;
  }

  // ---- An empty value at the end of a line swallows the line end: no parse
  // of clean text ever ends a header with one.

  lemma CleanParts(s: string, n: nat)
    requires Clean(s) && n <= |s|
    ensures Clean(s[..n]) && Clean(s[n..]) && CStr(s[..n]) == s[..n]
  {
    CStrClean(s[..n]);
  }

  lemma FieldNotEmpty(s: string)
    requires s != "" && Clean(s)
    ensures var r := ParseField(s, Until({';', '\r'}));
            r.Got? ==> Clean(r.value) && Clean(r.rest) && (r.value == "" ==> r.rest[0] == ';')
  {
    if |s| > 1 {
      CleanParts(s, 1);
      var r1 := Token(s[1..], Space);
      if r1.Got? {
        CleanParts(s[1..], |r1.value|);
        var r2 := Token(r1.rest, Until({';', '\r'}));
        if r2.Got? { CleanParts(r1.rest, |r2.value|); }
      }
    }
  }

  lemma ParamNotEmpty(s: string)
    requires s != "" && Clean(s)
    ensures var r := ParseParam(s);
            r.Got? ==> Clean(r.rest) && (r.value.value == "" ==> r.rest[0] == ';')
  {
    var r1 := ParseField(s, Until({'='}));
    if r1.Got? {
      CleanField(s, Until({'='}));
      var r2 := ParseField(r1.rest, Until({';', '\r'}));
      FieldNotEmpty(r1.rest);
      if r2.Got? {
        CStrClean(r2.value);
        var n := Span(r2.rest, Blank);
        CleanParts(r2.rest, n);
        if r2.value == "" { SpanIs(r2.rest, Blank, 0); }
      }
    }
  }

  lemma CleanField(s: string, k: Class)
    requires s != "" && Clean(s)
    ensures ParseField(s, k).Got? ==> Clean(ParseField(s, k).rest)
  {
    if |s| > 1 {
      CleanParts(s, 1);
      var r1 := Token(s[1..], Space);
      if r1.Got? {
        CleanParts(s[1..], |r1.value|);
        CleanParts(r1.rest, Span(r1.rest, k));
      }
    }
  }

  lemma {:induction false} ParamsNotEmpty(s: string)
    requires s != "" && Clean(s)
    ensures var r := ParseParams(s);
            r.Got? ==> (Clean(r.rest) && (s[0] == ';' ==> r.value != [])
                        && (r.value != [] ==> r.value[|r.value| - 1].value != ""))
    decreases |s|
  {
    if s[0] != '\r' {
      ParamNotEmpty(s);
      var r := ParseParam(s);
      if r.Got? { ParamsNotEmpty(r.rest); }
    }
  }

  lemma ValueSolid(s: string)
    requires s != "" && Clean(s)
    ensures var r := ParseField(s, Until({';', '\r'}));
      r.Got? ==>
        && Clean(r.rest) && CStr(r.value) == r.value && (r.value == "" ==> r.rest[0] == ';')
        && (var ps := ParseParams(r.rest);
            ps.Got? ==> Clean(ps.rest) && Solid(Header("", r.value, ps.value)))
  {
    FieldNotEmpty(s);
    var r := ParseField(s, Until({';', '\r'}));
    if r.Got? {
      CStrClean(r.value);
      ParamsNotEmpty(r.rest);
    }
  }

  lemma LineEndClean(s: string)
    requires s != "" && Clean(s)
    ensures ParseLineEnd(s).Got? ==> Clean(ParseLineEnd(s).rest)
  {
    if |s| > 1 { CleanParts(s, 2); }
  }

  lemma SameSolid(h: Header, g: Header)
    requires h.value == g.value && h.params == g.params && Solid(h)
    ensures Solid(g)
  {
  }

  // The header that starts with this name, by what follows the name.
  lemma AfterNameSolid(name: string, s: string)
    requires s != "" && Clean(s)
    ensures var r := ParseField(s, Until({';', '\r'}));
      r.Got? ==>
        var ps := ParseParams(r.rest);
        ps.Got? ==>
          && Solid(Header(CStr(name), CStr(r.value), ps.value))
          && (ParseLineEnd(ps.rest).Got? ==> Clean(ParseLineEnd(ps.rest).rest))
  {
    ValueSolid(s);
    var r := ParseField(s, Until({';', '\r'}));
    if r.Got? {
      var ps := ParseParams(r.rest);
      if ps.Got? {
        LineEndClean(ps.rest);
        SameSolid(Header("", r.value, ps.value), Header(CStr(name), CStr(r.value), ps.value));
      }
    }
  }

  lemma MsgHdrSolid(s: string)
    requires s != "" && Clean(s)
    ensures ParseMsgHdr(s).Got? ==> Solid(ParseMsgHdr(s).value) && Clean(ParseMsgHdr(s).rest)
  {
    var r1 := Token(s, Until({':'}));
    if r1.Got? {
      CleanParts(s, |r1.value|);
      AfterNameSolid(r1.value, r1.rest);
    }
  }

  lemma {:induction false} HdrsSolid(s: string)
    requires s != "" && Clean(s)
    ensures ParseHdrs(s).Got? ==> AllSolid(ParseHdrs(s).value)
    decreases |s|
  {
    if s[0] != '\r' {
      MsgHdrSolid(s);
      var r := ParseMsgHdr(s);
      if r.Got? && r.rest != "" { HdrsSolid(r.rest); }
    }
  }

  lemma {:induction false} ParamsClean(ps: seq<Param>)
    requires forall i :: 0 <= i < |ps| ==> ParamOk(ps[i])
    ensures Clean(ParamsText(ps))
  {
    if ps != [] { ParamsClean(ps[1..]); }
  }

  lemma {:induction false} HdrsClean(hs: seq<Header>)
    requires HeadersOk(hs)
    ensures Clean(HdrsText(hs))
  {
    if hs != [] {
      ParamsClean(hs[0].params);
      HdrsClean(hs[1..]);
    }
  }

  // Sections 4.2 and 6.1 of RFC 2616: what is printed is what is parsed,
  // whatever follows it, exactly when no header line ends with an empty value.
  lemma ResponseRoundTrip(h: Head)
    requires ResponseOk(h)
    ensures (forall rest :: ParseResponse(PrintHdr(h, false) + rest) == Got(h, rest)) <==> AllSolid(h.hdrs)
  {
    if AllSolid(h.hdrs) {
      forall rest ensures ParseResponse(PrintHdr(h, false) + rest) == Got(h, rest) {
        ResponseTrip(h, rest);
      }
    } else {
      PrintHdrIs(h, false, "");
      StatusLineTrip(h, Fields(h, ""));
      HdrsClean(h.hdrs);
      HdrsSolid(Fields(h, ""));
      assert ParseResponse(PrintHdr(h, false) + "") != Got(h, "");
    }
  }

  // The shortest header line that is printed and not read back.
  lemma EmptyValueLost(h: Head)
    requires h == Response(1, 1, 200, [Header("A", "", [])])
    ensures ResponseOk(h) && ParseResponse(PrintHdr(h, false)) != Got(h, "")
  {
    var g := h.hdrs[0];
    assert HeaderOk(g) && !Solid(g);
    PrintHdrIs(h, false, "");
    StatusLineTrip(h, Fields(h, ""));
    HdrsClean(h.hdrs);
    HdrsSolid(Fields(h, ""));
    assert PrintHdr(h, false) + "" == PrintHdr(h, false);
  }

  // ---- The same through the dispatch.

  lemma StartsNot(s: string, word: string, i: nat)
    requires i < |word| && i < |s| && Lower(s[i]) != Lower(word[i])
    ensures !StartsNoCase(s, word)
  {
    if |s| >= |word| { assert s[..|word|][i] == s[i]; }
  }

  lemma StartsWith(s: string, word: string)
    requires |s| >= |word| && s[..|word|] == word
    ensures StartsNoCase(s, word)
  {
  }

  lemma NoLeadingSpace(s: string)
    requires s != "" && !IsSpace(s[0])
    ensures Body(s) == s
  {
    SpanIs(s, Space, 0);
  }

  lemma DispatchResponse(s: string, slack: string)
    requires |s| >= 5 && s[..5] == "HTTP/"
    ensures InitFromBuf(s, slack) == ResponseOutcome(ParseResponse(s), |s|) && !StartsRequest(Body(s))
  {
    assert s[0] == 'H' && s[1] == 'T';
    NoLeadingSpace(s);
    StartsWith(s, "HTTP/");
    StartsNot(s, "GET", 0);
    StartsNot(s, "HEAD", 1);
    StartsNot(s, "POST", 0);
    StartsNot(s, "PUT", 0);
    StartsNot(s, "DELETE", 0);
  }

  lemma DispatchRequest(s: string, slack: string)
    requires StartsRequest(s) && !IsSpace(s[0])
    ensures InitFromBuf(s, slack) == RequestOutcome(ParseRequest(s, slack), |s|)
  {
    NoLeadingSpace(s);
  }

  lemma PrintedStart(h: Head, rest: string)
    requires h.Response?
    ensures var s := PrintHdr(h, false) + rest; |s| >= 5 && s[..5] == "HTTP/"
  {
  }

  lemma InitFromPrintedResponse(h: Head, rest: string, slack: string)
    requires ResponseOk(h) && AllSolid(h.hdrs)
    ensures InitFromBuf(PrintHdr(h, false) + rest, slack) ==
      if !IsChunked(h.hdrs) then Ready(h, |PrintHdr(h, false)|)
      else if rest == "" then NeedMore
      else Chunked(h, |PrintHdr(h, false)|)
  {
    PrintedStart(h, rest);
    DispatchResponse(PrintHdr(h, false) + rest, slack);
    ResponseTrip(h, rest);
  }

  // ---- Requests, section 5.1 of RFC 2616.

  predicate RequestOk(h: Head) {
    h.Request? && WellFormed(h.uri) && KnownVersion(h.major, h.minor) && HeadersOk(h.hdrs)
  }

  lemma MethodTrip(m: Method, next: string)
    requires |MethodName(m)| + |next| >= 16
    ensures ParseMethod(MethodName(m) + next) == Got(m, next)
    ensures StartsRequest(MethodName(m) + next)
  {
    var s := MethodName(m) + next;
    assert s[|MethodName(m)|..] == next;
    StartsWith(s, MethodName(m));
    assert s[0] == MethodName(m)[0] && s[1] == MethodName(m)[1];
    if m != GET { StartsNot(s, "GET", 0); }
    if m != GET && m != PUT { StartsNot(s, "PUT", if m == POST then 1 else 0); }
    if m == POST || m == DELETE { StartsNot(s, "HEAD", 0); }
    if m == DELETE { StartsNot(s, "POST", 0); }
  }

  lemma RequestVersionTrip(major: int, minor: int, next: string)
    requires KnownVersion(major, minor) && next != ""
    ensures ParseRequestVersion(" " + (VersionText(major, minor) + (CRLF + next))) == Got((major, minor), next)
  {
    var v := VersionText(major, minor) + (CRLF + next);
    assert (" " + v)[1..] == v;
    VersionTrip(major, minor, CRLF + next);
    CrLfTrip(next);
  }

  // The request line after the method.
  function AfterMethod(h: Head, next: string): string
    requires h.Request?
  {
    " " + (AbsUri(h.uri) + (" " + (VersionText(h.major, h.minor) + (CRLF + next))))
  }

  lemma RequestLineIs(h: Head, next: string)
    requires h.Request?
    ensures StartLine(h, false) + (CRLF + next) == MethodName(h.verb) + AfterMethod(h, next)
  {
    CatAssoc6(MethodName(h.verb), " ", AbsUri(h.uri), " ", VersionText(h.major, h.minor), CRLF + next);
  }

  lemma AfterMethodLength(h: Head, next: string)
    requires h.Request? && |next| >= 2
    ensures |AfterMethod(h, next)| >= 13
  {
    var v := VersionText(h.major, h.minor);
    assert |v| == 5 + |PrintInt(h.major)| + 1 + |PrintInt(h.minor)|;
  }

  lemma ParseRequestIs(s: string, slack: string, verb: Method, s1: string)
    requires |s| >= 16 && ParseMethod(s) == Got(verb, s1) && s1[0] == ' ' && |s1| > 1
    ensures var u := ParseUrl(s1[1..], slack, 0);
      ParseRequest(s, slack) == if u.Got? then ParseAfterUri(verb, u.value, u.rest) else u.PropagateFailure()
  {
  }

  lemma UpToUri(h: Head, rest: string, slack: string)
    requires RequestOk(h)
    ensures var tail := VersionText(h.major, h.minor) + (CRLF + Fields(h, rest));
            var u := ParseUrl(AbsUri(h.uri) + (" " + tail), slack, 0);
            ParseRequest(PrintHdr(h, false) + rest, slack)
            == if u.Got? then ParseAfterUri(h.verb, u.value, u.rest) else u.PropagateFailure()
  {
    var fields := Fields(h, rest);
    var tail := VersionText(h.major, h.minor) + (CRLF + fields);
    PrintHdrIs(h, false, rest);
    RequestLineIs(h, fields);
    AfterMethodLength(h, fields);
    MethodTrip(h.verb, AfterMethod(h, fields));
    assert AfterMethod(h, fields)[1..] == AbsUri(h.uri) + (" " + tail);
    ParseRequestIs(PrintHdr(h, false) + rest, slack, h.verb, AfterMethod(h, fields));
  }

  lemma AfterUriTrip(h: Head, rest: string)
    requires RequestOk(h) && AllSolid(h.hdrs) && rest != ""
    ensures ParseAfterUri(h.verb, h.uri, " " + (VersionText(h.major, h.minor) + (CRLF + Fields(h, rest)))) == Got(h, rest)
  {
    RequestVersionTrip(h.major, h.minor, Fields(h, rest));
    HdrsTrip(h.hdrs, CRLF + rest);
    CrLfTrip(rest);
  }

  // What follows the URL is not read back if a header line ends empty.
  lemma AfterUriLost(h: Head)
    requires RequestOk(h) && !AllSolid(h.hdrs)
    ensures ParseAfterUri(h.verb, h.uri, " " + (VersionText(h.major, h.minor) + (CRLF + Fields(h, "X")))) != Got(h, "X")
  {
    RequestVersionTrip(h.major, h.minor, Fields(h, "X"));
    HdrsClean(h.hdrs);
    HdrsSolid(Fields(h, "X"));
  }

  // From the target on: what strchr searches for a scheme.
  function FromTarget(h: Head, rest: string): string
    requires h.Request?
  {
    AbsUri(h.uri) + (" " + (VersionText(h.major, h.minor) + (CRLF + Fields(h, rest))))
  }

  // The URL is one that is read back where it stands.
  predicate TargetOk(h: Head, rest: string, slack: string)
    requires h.Request?
  {
    Separated(h.uri) && Unmarked(h.uri) && Named(h.uri, FromTarget(h, rest) + slack)
  }

  lemma RequestTrip(h: Head, rest: string, slack: string)
    requires RequestOk(h) && rest != ""
    ensures !TargetOk(h, rest, slack) ==> ParseRequest(PrintHdr(h, false) + rest, slack) != Got(h, rest)
    ensures TargetOk(h, rest, slack) && AllSolid(h.hdrs) ==> ParseRequest(PrintHdr(h, false) + rest, slack) == Got(h, rest)
    ensures TargetOk(h, rest, slack) && !AllSolid(h.hdrs) && rest == "X" ==> ParseRequest(PrintHdr(h, false) + rest, slack) != Got(h, rest)
  {
    var tail := VersionText(h.major, h.minor) + (CRLF + Fields(h, rest));
    UpToUri(h, rest, slack);
    UrlRoundTrip(h.uri, tail, slack, 0);
    if TargetOk(h, rest, slack) {
      if AllSolid(h.hdrs) { AfterUriTrip(h, rest); } else if rest == "X" { AfterUriLost(h); }
    } else {
      TargetLost(h, rest, slack);
    }
  }

  // If the URL is not read back, the request is not.
  lemma TargetLost(h: Head, rest: string, slack: string)
    requires RequestOk(h) && rest != "" && !TargetOk(h, rest, slack)
    ensures ParseRequest(PrintHdr(h, false) + rest, slack) != Got(h, rest)
  {
    var tail := " " + (VersionText(h.major, h.minor) + (CRLF + Fields(h, rest)));
    var u := ParseUrl(AbsUri(h.uri) + tail, slack, 0);
    UpToUri(h, rest, slack);
    ReadUnmarked(AbsUri(h.uri) + tail, slack, 0);
    if u.Got? && Unmarked(h.uri) {
      if !Named(h.uri, FromTarget(h, rest) + slack) {
        if AbsUri(h.uri) == "" { NoTargetLost(h, rest, slack); } else { OtherScheme(h.uri, tail, slack, 0); }
      } else {
        Unseparated(h.uri, tail[1..], slack, 0);
        assert " " + tail[1..] == tail;
      }
    }
  }

  lemma NoTargetLost(h: Head, rest: string, slack: string)
    requires RequestOk(h) && AbsUri(h.uri) == ""
    ensures var u := ParseUrl(AbsUri(h.uri) + (" " + (VersionText(h.major, h.minor) + (CRLF + Fields(h, rest)))), slack, 0);
      u.Got? ==> u.value != h.uri
  {
    var next := CRLF + Fields(h, rest);
    VersionStarts(h.major, h.minor, next);
    NoTarget(PrintInt(h.major) + "." + PrintInt(h.minor) + next, slack);
    assert "" + (" " + (VersionText(h.major, h.minor) + next)) == " " + (VersionText(h.major, h.minor) + next);
  }

  // Without any target the version is taken for the host.
  lemma NoTarget(x: string, slack: string)
    ensures var u := ParseUrl(" " + ("HTTP/" + x), slack, 0); u.Got? ==> u.value.scheme != "" || u.value.host != ""
  {
    var s := "HTTP/" + x;
    SpaceSkipped(" ", s, slack, 0);
    if ShowsScheme(s + slack) {
      SchemePresent(s, slack);
      SchemeStays(s, slack, 0);
    } else {
      UrlWithoutScheme(s, slack, 0);
      HttpHost(s, x);
    }
  }

  lemma HttpHost(s: string, x: string)
    requires s == "HTTP/" + x
    ensures ParseHost(s) == Got("HTTP", "/" + x)
  {
    assert s == "HTTP" + ("/" + x);
    SpanText("HTTP", Word({':', '/'}), "/" + x);
    CStrClean("HTTP");
    MarkedIs("HTTP");
  }

  lemma VersionStarts(major: int, minor: int, next: string)
    ensures VersionText(major, minor) + next == "HTTP/" + (PrintInt(major) + "." + PrintInt(minor) + next)
  {
  }

  // Composes the round trips of the URL and of the headers. One byte must
  // follow the empty line before the parser reports a request.
  lemma RequestReadIff(h: Head, rest: string, slack: string)
    requires RequestOk(h) && AllSolid(h.hdrs) && rest != ""
    ensures ParseRequest(PrintHdr(h, false) + rest, slack) == Got(h, rest) <==> TargetOk(h, rest, slack)
  {
    RequestTrip(h, rest, slack);
  }

  // The first ':' from the target on is in the header and shows no scheme: so
  // it is for every target without "://" if there is a header line.
  predicate OwnColon(h: Head)
    requires h.Request?
  {
    AbsUri(h.uri) != "" && ':' in FromTarget(h, "") && !ShowsScheme(FromTarget(h, ""))
  }

  lemma ColonStays(t: string, more: string)
    requires |t| >= 2 && t[|t| - 2] == '\r' && t[|t| - 1] == '\n' && ':' in t
    ensures ShowsScheme(t + more) ==> ShowsScheme(t)
  {
    var s := t + more;
    if ShowsScheme(s) {
      var q :| 0 <= q && q + 3 <= |s| && s[q..q + 3] == "://" && ':' !in s[..q] && '\0' !in s[..q];
      var p :| 0 <= p < |t| && t[p] == ':';
      FirstIsFirst(s, p, q);
      BeforeLineEnd(s, |t|, q);
      assert t[q..q + 3] == s[q..q + 3] && t[..q] == s[..q];
    }
  }

  lemma FirstIsFirst(s: string, p: nat, q: nat)
    requires p < |s| && s[p] == ':' && q <= |s| && ':' !in s[..q]
    ensures q <= p
  {
    assert forall i :: 0 <= i < q ==> s[i] != ':' by {
      forall i | 0 <= i < q ensures s[i] != ':' { assert s[..q][i] == s[i]; }
    }
  }

  // Three characters that are no line end, and start before one.
  lemma BeforeLineEnd(s: string, n: nat, q: nat)
    requires 2 <= n <= |s| && s[n - 2] == '\r' && s[n - 1] == '\n' && q < n && q + 3 <= |s| && s[q..q + 3] == "://"
    ensures q + 3 <= n
  {
    assert s[q] == s[q..q + 3][0] && s[q + 1] == s[q..q + 3][1] && s[q + 2] == s[q..q + 3][2];
  }

  lemma FromTargetMore(h: Head, rest: string)
    requires h.Request?
    ensures FromTarget(h, rest) == FromTarget(h, "") + rest
    ensures var t := FromTarget(h, ""); |t| >= 2 && t[|t| - 2] == '\r' && t[|t| - 1] == '\n'
  {
    var v, f := VersionText(h.major, h.minor), HdrsText(h.hdrs);
    assert Fields(h, "") == f + CRLF && Fields(h, rest) == f + CRLF + rest;
    CatAssoc6(AbsUri(h.uri), " ", v, CRLF, f + CRLF, rest);
    CatAssoc5(AbsUri(h.uri), " ", v, CRLF, f + CRLF);
  }

  // A request whose target names its scheme, or none, in every buffer.
  predicate NamedAlways(h: Head)
    requires h.Request?
  {
    h.uri.scheme != "" || OwnColon(h)
  }

  lemma AlwaysNamed(h: Head, rest: string, slack: string)
    requires h.Request? && NamedAlways(h)
    ensures Named(h.uri, FromTarget(h, rest) + slack)
  {
    if h.uri.scheme == "" {
      FromTargetMore(h, rest);
      CatAssoc(FromTarget(h, ""), rest, slack);
      ColonStays(FromTarget(h, ""), rest + slack);
    }
  }

  lemma RequestRoundTrip(h: Head, slack: string)
    requires RequestOk(h) && NamedAlways(h)
    ensures (forall rest :: rest != "" ==> ParseRequest(PrintHdr(h, false) + rest, slack) == Got(h, rest))
      <==> Separated(h.uri) && Unmarked(h.uri) && AllSolid(h.hdrs)
  {
    AlwaysNamed(h, "X", slack);
    RequestTrip(h, "X", slack);
    if Separated(h.uri) && Unmarked(h.uri) && AllSolid(h.hdrs) {
      forall rest | rest != "" ensures ParseRequest(PrintHdr(h, false) + rest, slack) == Got(h, rest) {
        AlwaysNamed(h, rest, slack);
        RequestTrip(h, rest, slack);
      }
    }
  }

  // ---- The origin form, section 5.1.2 of RFC 2616.

  function Origin(h: Head): Head
    requires h.Request?
  {
    h.(uri := h.uri.(scheme := "", host := "", port := 0))
  }

  // The path form of the printed request is the request for the path alone.
  lemma OriginIs(h: Head)
    requires h.Request?
    ensures PrintHdr(h, true) == PrintHdr(Origin(h), false) && AbsUri(Origin(h).uri) == AbsPath(h.uri)
  {
    assert StartLine(h, true) == StartLine(Origin(h), false) by { OriginUri(h.uri); }
  }

  lemma OriginUri(u: Url)
    ensures AbsUri(u.(scheme := "", host := "", port := 0)) == AbsPath(u)
  {
  }

  // It is read back as such, with the path, query and fragment of the URL,
  // exactly if there is a path in front of a query or fragment, and no "://"
  // behind the first ':' that follows.
  lemma OriginReadIff(h: Head, rest: string, slack: string)
    requires RequestOk(h) && AllSolid(h.hdrs) && rest != ""
    ensures ParseRequest(PrintHdr(h, true) + rest, slack) == Got(Origin(h), rest)
      <==> && (h.uri.path != "" || (h.uri.query == [] && h.uri.fragment == "")) && AbsPath(h.uri) != ""
           && !Marked(h.uri.path) && !Marked(h.uri.fragment)
           && !ShowsScheme(FromTarget(Origin(h), rest) + slack)
  {
    OriginIs(h);
    RequestReadIff(Origin(h), rest, slack);
  }

  // A body that shows a URL is enough to lose a request without header lines.
  lemma BodyTaken(h: Head)
    requires h == Request(GET, Url("", "", 0, "x", [], ""), 1, 1, [])
    ensures RequestOk(h) && ParseRequest(PrintHdr(h, false) + "see a://b", "") != Got(h, "see a://b")
  {
    BodyShows(h, FromTarget(h, "see a://b") + "");
    RequestReadIff(h, "see a://b", "");
  }

  lemma BodyShows(h: Head, t: string)
    requires h == Request(GET, Url("", "", 0, "x", [], ""), 1, 1, [])
    requires t == FromTarget(h, "see a://b") + ""
    ensures ShowsScheme(t)
  {
    assert AbsUri(h.uri) == "/x";
    VersionOne();
    assert Fields(h, "see a://b") == CRLF + "see a://b";
    TextShows(t);
  }

  lemma VersionOne()
    ensures VersionText(1, 1) == "HTTP/1.1"
  {
    assert PrintInt(1) == "1";
  }

  lemma TextShows(t: string)
    requires t == "/x" + (" " + ("HTTP/1.1" + (CRLF + (CRLF + "see a://b")))) + ""
    ensures ShowsScheme(t)
  {
    assert t == "/x HTTP/1.1\r\n\r\nsee a://b";
    assert t[20..23] == "://" && ':' !in t[..20] && '\0' !in t[..20];
  }

  lemma InitFromPrintedRequest(h: Head, rest: string, slack: string)
    requires RequestOk(h) && AllSolid(h.hdrs) && rest != "" && TargetOk(h, rest, slack)
    ensures InitFromBuf(PrintHdr(h, false) + rest, slack) == Ready(h, |PrintHdr(h, false)|)
  {
    RequestStart(h, rest);
    DispatchRequest(PrintHdr(h, false) + rest, slack);
    RequestTrip(h, rest, slack);
  }

  lemma PrintedRequestIs(h: Head, rest: string)
    requires h.Request?
    ensures PrintHdr(h, false) + rest == MethodName(h.verb) + AfterMethod(h, Fields(h, rest))
  {
    PrintHdrIs(h, false, rest);
    RequestLineIs(h, Fields(h, rest));
  }

  lemma MethodFirst(m: Method, next: string, s: string)
    requires |MethodName(m)| + |next| >= 16 && s == MethodName(m) + next
    ensures StartsRequest(s) && !IsSpace(s[0])
  {
    MethodTrip(m, next);
    assert s[0] == MethodName(m)[0];
  }

  lemma RequestStart(h: Head, rest: string)
    requires h.Request?
    ensures var s := PrintHdr(h, false) + rest; StartsRequest(s) && !IsSpace(s[0])
  {
    PrintedRequestIs(h, rest);
    AfterMethodLength(h, Fields(h, rest));
    MethodFirst(h.verb, AfterMethod(h, Fields(h, rest)), PrintHdr(h, false) + rest);
  }
}
