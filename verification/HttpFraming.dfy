/** The HTTPFraming object of HTTPFraming.cc: the parsers that fill its fields
    while walking the buffer, proved to compute the functions of Http. */
module HttpFraming {
  import opened Scan
  import opened Buffers
  import opened Http
  import opened HttpPrint
  import U = Url
  import opened UrlClass

  datatype MsgType = NotReady | RequestMsg | ResponseMsg
  datatype Verb = MethodNull | Is(m: Method)

  // Skip a character and whitespace, then take a token.
  method TakeField(s: string, k: Class) returns (more: bool, tok: string, rest: string)
    requires s != ""
    ensures ParseField(s, k) == if more then More else Got(tok, rest)
  {
    if |s| == 1 { return true, "", s; }
    more, tok, rest := Take(s[1..], Space);
    if more { return true, "", rest; }
    more, tok, rest := Take(rest, k);
  }

  method TakeParam(s: string) returns (more: bool, p: Param, rest: string)
    requires s != ""
    ensures ParseParam(s) == if more then More else Got(p, rest)
  {
    var key, value, tok := "", "", "";
    more, key, rest := TakeField(s, Until({'='}));
    p := Param(CStr(key), "");
    if more { return; }
    more, value, rest := TakeField(rest, Until({';', '\r'}));
    if more { return; }
    p := Param(CStr(key), CStr(value));
    more, tok, rest := Take(rest, Blank);
  }

  method TakeParams(s: string) returns (more: bool, params: seq<Param>, rest: string)
    requires s != ""
    ensures ParseParams(s) == if more then More else Got(params, rest)
  {
    more, params, rest := false, [], s;
    while rest[0] != '\r'
      invariant rest != "" && !more
      invariant Pending(ParseParams(s), [], params, ParseParams(rest))
      decreases |rest|
    {
      var p, after;
      more, p, after := TakeParam(rest);
      if more { return; }
      PendingStep(ParseParams(s), [], params, p, ParseParams(after));
      params, rest := params + [p], after;
    }
    PendingDone(ParseParams(s), params, rest);
  }

  class HTTPFraming {
    var msgType: MsgType
    var major: int
    var minor: int
    var verb: Verb
    var statusCode: int
    var msgHdrs: seq<Header>
    const uri: URL

    constructor ()
      ensures fresh(uri) && verb == MethodNull && msgHdrs == []
    {
      msgType, major, minor, verb, statusCode, msgHdrs := NotReady, 1, 1, MethodNull, 0, [];
      uri := new URL();
    }

    function Value(): Head
      reads this, uri
    {
      if verb.MethodNull? then Response(major, minor, statusCode, msgHdrs)
      else Request(verb.m, uri.Value(), major, minor, msgHdrs)
    }

    method Clear()
      modifies this, uri
      ensures msgType == NotReady && verb == MethodNull && msgHdrs == [] && uri.Value() == U.EMPTY
    {
      msgType, major, minor, verb, statusCode, msgHdrs := NotReady, 1, 1, MethodNull, 0, [];
      uri.Clear();
    }

    // One header line, appended to the list when it is complete.
    method ParseMsgHdr(s: string) returns (more: bool, event: bool, rest: string)
      requires s != ""
      modifies this`msgHdrs
      ensures match Http.ParseMsgHdr(s)
        case More => more && !event && msgHdrs == old(msgHdrs)
        case Bad => event && msgHdrs == old(msgHdrs)
        case Got(h, r) => !more && !event && rest == r && msgHdrs == old(msgHdrs) + [h]
    {
      more, event, rest := false, false, s;
      if IsSpace(s[0]) { return false, true, s; }
      var name, value, params := "", "", [];
      more, name, rest := Take(s, Until({':'}));
      if more { return; }
      more, value, rest := TakeField(rest, Until({';', '\r'}));
      if more { return; }
      more, params, rest := TakeParams(rest);
      if more { return; }
      if |rest| == 1 { return true, false, rest; }
      if rest[1] != '\n' { return false, true, rest; }
      rest := rest[2..];
      msgHdrs := msgHdrs + [Header(CStr(name), CStr(value), params)];
    }

    // The loop over the header lines.
    method ParseMsgHdrs(s: string) returns (more: bool, event: bool, rest: string)
      requires s != "" && msgHdrs == []
      modifies this`msgHdrs
      ensures match ParseHdrs(s)
        case More => more && !event && msgHdrs == []
        case Bad => event && msgHdrs == []
        case Got(hs, r) => !more && !event && rest == r && msgHdrs == hs
    {
      more, event, rest := false, false, s;
      while rest[0] != '\r'
        invariant rest != "" && !more && !event
        invariant Pending(ParseHdrs(s), [], msgHdrs, ParseHdrs(rest))
        decreases |rest|
      {
        ghost var hdrs := msgHdrs;
        var after;
        more, event, after := ParseMsgHdr(rest);
        if more || event || after == "" {
          more := !event;
          msgHdrs := [];
          return;
        }
        PendingStep(ParseHdrs(s), [], hdrs, msgHdrs[|hdrs|], ParseHdrs(after));
        rest := after;
      }
      PendingDone(ParseHdrs(s), msgHdrs, rest);
    }

    // ---- The start-lines.

    // "HTTP/" major '.' minor.
    method ParseHttpVersion(s: string) returns (more: bool, event: bool, rest: string)
      modifies this`major, this`minor
      ensures match ParseVersion(s)
        case More => more && !event
        case Bad => event
        case Got(v, r) => !more && !event && rest == r && (major, minor) == v
    {
      more, event, rest := false, false, s;
      if |s| <= 5 || !StartsNoCase(s, "HTTP/") { return true, false, s; }
      var digits;
      more, digits, rest := Take(s[5..], Digit);
      if more { return; }
      major := ToInt(Strtol(digits));
      if rest[0] != '.' { return false, true, rest; }
      if |rest| == 1 { return true, false, rest; }
      more, digits, rest := Take(rest[1..], Digit);
      if more { return; }
      minor := ToInt(Strtol(digits));
      event := !KnownVersion(major, minor);
    }

    // "\r\n" and data after it.
    static method SkipCrLf(s: string) returns (more: bool, event: bool, rest: string)
      requires s != ""
      ensures match ParseCrLf(s)
        case More => more && !event
        case Bad => event
        case Got(_, r) => !more && !event && rest == r
    {
      if s[0] != '\r' { return false, true, s; }
      if |s| == 1 { return true, false, s; }
      rest := s[1..];
      if rest[0] != '\n' { return false, true, s; }
      if |rest| == 1 { return true, false, s; }
      return false, false, rest[1..];
    }

    method ParseStatus(s: string) returns (more: bool, event: bool, rest: string)
      modifies this`major, this`minor, this`statusCode
      ensures match ParseStatusLine(s)
        case More => more && !event
        case Bad => event
        case Got(l, r) => !more && !event && rest == r && (major, minor, statusCode) == l
    {
      more, event, rest := ParseHttpVersion(s);
      if more || event { return; }
      if rest[0] != ' ' { return false, true, rest; }
      if |rest| == 1 { return true, false, rest; }
      var digits;
      more, digits, rest := Take(rest[1..], Digit);
      if more { return; }
      statusCode := ToInt(Strtol(digits));
      more, event, rest := SkipPhrase(rest);
    }

    static method SkipPhrase(s: string) returns (more: bool, event: bool, rest: string)
      requires s != ""
      ensures match ParsePhrase(s)
        case More => more && !event
        case Bad => event
        case Got(_, r) => !more && !event && rest == r
    {
      event, rest := false, s;
      if rest[0] != ' ' { return false, true, rest; }
      if |rest| == 1 { return true, false, rest; }
      var phrase;
      more, phrase, rest := Take(rest[1..], Until({'\r'}));
      if more { return; }
      more, event, rest := SkipCrLf(rest);
    }

    // The empty line after the headers of a response.
    method EndResponse(s: string) returns (more: bool, event: bool, rest: string)
      requires s != ""
      modifies this`msgHdrs, this`msgType
      ensures match ParseLineEnd(s)
        case More => more && !event && msgHdrs == []
        case Bad => !more && event && msgHdrs == []
        case Got(_, r) => !more && !event && rest == r && msgHdrs == old(msgHdrs) && msgType == ResponseMsg
    {
      more, event, rest := |s| == 1, |s| > 1 && s[1] != '\n', s;
      if more || event {
        msgHdrs := [];
        return;
      }
      rest := s[2..];
      msgType := ResponseMsg;
    }

    // The header of a response. Every return that is not a success leaves the
    // list of headers empty.
    method ParseResponseHdr(s: string) returns (more: bool, event: bool, rest: string)
      requires msgHdrs == [] && verb == MethodNull
      modifies this
      ensures match ParseResponse(s)
        case More => more && !event && msgHdrs == []
        case Bad => event && msgHdrs == []
        case Got(h, r) => !more && !event && rest == r && Value() == h && msgType == ResponseMsg
      ensures verb == MethodNull
    {
      more, event, rest := ParseStatus(s);
      if more || event { return; }
      more, event, rest := ParseMsgHdrs(rest);
      if more || event { return; }
      more, event, rest := EndResponse(rest);
    }

    method ParseVerb(s: string) returns (event: bool, rest: string)
      requires |s| >= 16
      modifies this`verb
      ensures ParseMethod(s) == if event then Bad else Got((if verb.Is? then verb.m else GET), rest)
      ensures !event ==> verb.Is? && rest != ""
    {
      event, rest := false, s;
      if StartsNoCase(s, "GET") {
        rest, verb := s[3..], Is(GET);
      } else if StartsNoCase(s, "PUT") {
        rest, verb := s[3..], Is(PUT);
      } else if StartsNoCase(s, "HEAD") {
        rest, verb := s[4..], Is(HEAD);
      } else if StartsNoCase(s, "POST") {
        rest, verb := s[4..], Is(POST);
      } else if StartsNoCase(s, "DELETE") {
        rest, verb := s[6..], Is(DELETE);
      } else {
        event := true;
      }
    }

    // A space, the version and the end of the request line.
    method ParseRequestLineEnd(s: string) returns (more: bool, event: bool, rest: string)
      requires s != ""
      modifies this`major, this`minor
      ensures match ParseRequestVersion(s)
        case More => more && !event
        case Bad => event
        case Got(v, r) => !more && !event && rest == r && (major, minor) == v
    {
      if s[0] != ' ' { return false, true, s; }
      if |s| == 1 { return true, false, s; }
      more, event, rest := ParseHttpVersion(s[1..]);
      if more || event { return; }
      more, event, rest := SkipCrLf(rest);
    }

    method ParseRequestTail(s: string) returns (more: bool, event: bool, rest: string)
      requires msgHdrs == [] && verb.Is?
      modifies this`major, this`minor, this`msgHdrs
      ensures match ParseAfterUri(verb.m, uri.Value(), s)
        case More => more && !event && msgHdrs == []
        case Bad => event && msgHdrs == []
        case Got(h, r) => !more && !event && rest == r && Value() == h
    {
      if s == "" { return true, false, s; }
      more, event, rest := ParseRequestLineEnd(s);
      if more || event { return; }
      more, event, rest := ParseMsgHdrs(rest);
      if more || event { return; }
      more, event, rest := SkipCrLf(rest);
      if more || event { msgHdrs := []; }
    }

    // From the URL on. An event of the URL does not stop the parse, but it is
    // still there at the end.
    method ParseFromUri(s: string, slack: string, ghost verbWas: Method) returns (more: bool, event: bool, rest: string)
      requires msgHdrs == [] && verb == Is(verbWas)
      modifies this, uri
      ensures var u := U.ParseUrl(s, slack, 0);
        match if u.Got? then ParseAfterUri(verbWas, u.value, u.rest) else u.PropagateFailure()
        case More => more && !event && msgHdrs == []
        case Bad => event
        case Got(h, r) => !more && !event && rest == r && Value() == h
    {
      var used, urlEvent, after := uri.InitFromBuf(s, slack, 0);
      if used == 0 || after == "" { return true, urlEvent, s; }
      more, event, rest := ParseRequestTail(after);
      event := event || urlEvent;
    }

    method ParseRequestHdr(s: string, slack: string) returns (more: bool, event: bool, rest: string)
      requires msgHdrs == []
      modifies this, uri
      ensures match ParseRequest(s, slack)
        case More => more && !event && msgHdrs == []
        case Bad => event
        case Got(h, r) => !more && !event && rest == r && Value() == h && msgType == RequestMsg
    {
      more, event, rest := false, false, s;
      if |s| < 16 { return true, false, s; }
      event, rest := ParseVerb(s);
      if event { return; }
      if rest[0] != ' ' { return false, true, rest; }
      if |rest| == 1 { return true, false, rest; }
      ParseRequestIs(s, slack, verb.m, rest);
      more, event, rest := ParseFromUri(rest[1..], slack, verb.m);
      if !more && !event { msgType := RequestMsg; }
    }

    // ---- Look-ups.

    method FindMsgHdr(name: string) returns (i: nat)
      ensures i == FindHdr(msgHdrs, name)
    {
      i := 0;
      while i < |msgHdrs|
        invariant 0 <= i <= |msgHdrs|
        invariant FindHdr(msgHdrs, name) == i + FindHdr(msgHdrs[i..], name)
      {
        if |msgHdrs[i].name| == |name| && SameNoCase(msgHdrs[i].name, name) {
          return;
        }
        assert msgHdrs[i..][1..] == msgHdrs[i + 1..];
        i := i + 1;
      }
    }

    method GetMsgLen() returns (n: int)
      ensures n == MsgLen(msgHdrs)
    {
      var i := FindMsgHdr(CONTENT_LENGTH);
      if i < |msgHdrs| { n := Strtol(msgHdrs[i].value); } else { n := 0; }
    }

    method GetTransferEncoding() returns (v: string)
      ensures v == TransferEncoding(msgHdrs)
    {
      var i := FindMsgHdr(TRANSFER_ENCODING);
      if i < |msgHdrs| { v := msgHdrs[i].value; } else { v := ""; }
    }

    method AppendMsgHdr(h: Header) returns (event: bool)
      modifies this`msgHdrs
      ensures AppendHdr(old(msgHdrs), h) == if event then Bad else Got(msgHdrs, "")
      ensures event ==> msgHdrs == old(msgHdrs)
    {
      var i := FindMsgHdr(h.name);
      event := i < |msgHdrs|;
      if !event { msgHdrs := msgHdrs + [h]; }
    }

    // ---- The whole header.

    method InitFromBuf(buf: string, slack: string) returns (ret: bool, event: bool, chunked: bool, used: int)
      modifies this, uri
      ensures match Http.InitFromBuf(buf, slack)
        case NeedMore => !ret && !event && !chunked
        case Error => !ret && event && !chunked
        case Ready(h, u) => ret && !event && !chunked && used == u && Value() == h
        case Chunked(h, u) => !ret && !event && chunked && used == u && Value() == h
    {
      Clear();
      ret, event, chunked, used := false, false, false, 0;
      var more, rest;
      var space, b := ScanWhile(buf, Space);
      if StartsNoCase(b, "GET") || StartsNoCase(b, "HEAD") || StartsNoCase(b, "POST")
         || StartsNoCase(b, "PUT") || StartsNoCase(b, "DELETE") {
        more, event, rest := ParseRequestHdr(b, slack);
        ret := !more && !event;
        used := |buf| - |rest|;
      } else if StartsNoCase(b, "HTTP/") {
        more, event, rest := ParseResponseHdr(b);
        if more || event { return; }
        used := |buf| - |rest|;
        var encoding := GetTransferEncoding();
        var isChunked := SameNoCase(encoding, CHUNKED);
        ret := !isChunked;
        chunked := isChunked && rest != "";
        if isChunked && rest == "" { msgHdrs := []; }
      } else {
        event := |b| >= |"DELETE"|;
      }
    }
  
    // ---- Printing. Each text is cut at the end of its scratch buffer.

    method PrintStartLine(absPath: bool) returns (line: string)
      ensures line == Cut(StartLine(Value(), absPath))
    {
      var version := VersionText(major, minor);
      if verb.Is? {
        var target;
        if absPath { target := uri.PrintAbsPath(); } else { target := uri.PrintAbsoluteUri(); }
        line := Cut(MethodName(verb.m) + " " + target + (" " + version));
        ghost var full := if absPath then U.AbsPath(uri.Value()) else U.AbsUri(uri.Value());
        CutMiddle(MethodName(verb.m) + " ", full, " " + version);
        CatAssoc(MethodName(verb.m) + " " + full, " ", version);
      } else {
        line := Cut(version + " " + PrintInt(statusCode) + " " + StatusPhrase(statusCode));
      }
    }

    // One parameter and what separates it from the next, or ends the line.
    static method PrintParam(start: string, p: Param, last: bool, ghost done: string) returns (tmp: string)
      requires start == Cut(done)
      ensures tmp == Cut(done + ParamText(p) + if last then CRLF else "; ")
    {
      tmp := Put(start, ParamText(p), done);
      tmp := Put(tmp, if last then CRLF else "; ", done + ParamText(p));
    }

    // The parameters after the "; " that follows the value, and the line end.
    static method PrintParams(start: string, params: seq<Param>, ghost before: string) returns (tmp: string)
      requires start == Cut(before + "; ") && params != []
      ensures tmp == Cut(before + (ParamsText(params) + CRLF))
    {
      ghost var done, all := before + "; ", before + (ParamsText(params) + CRLF);
      tmp := start;
      var left := params;
      ParamsSplit(before, params);
      while left != []
        invariant tmp == Cut(done)
        invariant if left == [] then done == all
                  else done + ParamText(left[0]) + (ParamsText(left[1..]) + CRLF) == all
        decreases |left|
      {
        var p, more := left[0], left[1..];
        tmp := PrintParam(tmp, p, more == [], done);
        if more == [] {
          assert ParamsText(more) + CRLF == CRLF;
        } else {
          ParamsSplit(done + ParamText(p), more);
        }
        done := done + ParamText(p) + if more == [] then CRLF else "; ";
        left := more;
      }
    }

    static lemma ParamsSplit(done: string, ps: seq<Param>)
      requires ps != []
      ensures done + "; " + ParamText(ps[0]) + (ParamsText(ps[1..]) + CRLF) == done + (ParamsText(ps) + CRLF)
    {
      var p, more := ParamText(ps[0]), ParamsText(ps[1..]);
      assert done + "; " + p + (more + CRLF) == done + (("; " + p + more) + CRLF);
    }

    static method PrintOneHdr(start: string, h: Header, ghost done: string) returns (tmp: string)
      requires start == Cut(done)
      ensures tmp == Cut(done + HdrText(h))
    {
      var front := h.name + ": " + h.value;
      assert HdrText(h) == front + ParamsText(h.params) + CRLF;
      if h.params != [] {
        tmp := Put(start, front + "; ", done);
        assert done + (front + "; ") == done + front + "; ";
        tmp := PrintParams(tmp, h.params, done + front);
        assert done + front + (ParamsText(h.params) + CRLF) == done + HdrText(h);
      } else {
        tmp := Put(start, front + CRLF, done);
        assert front + "" == front;
      }
    }

    method PrintMsgHdrs() returns (tmp: string)
      ensures tmp == Cut(HdrsText(msgHdrs))
    {
      ghost var done := "";
      tmp := "";
      var i := 0;
      assert msgHdrs[0..] == msgHdrs && "" + HdrsText(msgHdrs) == HdrsText(msgHdrs);
      while i < |msgHdrs|
        invariant 0 <= i <= |msgHdrs| && tmp == Cut(done)
        invariant done + HdrsText(msgHdrs[i..]) == HdrsText(msgHdrs)
      {
        ghost var hs := msgHdrs[i..];
        assert hs[1..] == msgHdrs[i + 1..];
        CatAssoc(done, HdrText(hs[0]), HdrsText(hs[1..]));
        tmp := PrintOneHdr(tmp, msgHdrs[i], done);
        done := done + HdrText(msgHdrs[i]);
        i := i + 1;
      }
      assert done + "" == done;
    }

    // print_hdr(0, absPath)
    method PrintHeader(absPath: bool) returns (text: string)
      ensures text == Cut(PrintHdr(Value(), absPath))
    {
      var line := PrintStartLine(absPath);
      var hdrs := PrintMsgHdrs();
      text := Cut(line + CRLF + hdrs + CRLF);
      ghost var full, fields := StartLine(Value(), absPath), HdrsText(msgHdrs);
      CutMiddle(line + CRLF, fields, CRLF);
      CatAssoc(line, CRLF, fields);
      CatAssoc(line, CRLF + fields, CRLF);
      CutTwice(full, CRLF + fields + CRLF);
      CatAssoc(full, CRLF + fields, CRLF);
      CatAssoc(full, CRLF, fields);
    }

    method HdrLen(absPath: bool) returns (n: nat)
      ensures n == |Cut(PrintHdr(Value(), absPath))|
    {
      var text := PrintHeader(absPath);
      n := |text|;
    }
  }
}
