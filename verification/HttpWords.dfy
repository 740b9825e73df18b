/** The words of the protocol, which are read in any case, and what is looked
    up by them (HTTPFraming.cc; sections 3.1, 4.2 and 5.1 of RFC 2616). */
module HttpWords {
  import opened Scan
  import opened Http
  import opened HttpPrint
  import Url

  // The same letters but for their case, and the same other characters.
  predicate Spells(a: string, b: string) {
    |a| == |b| && forall i :: 0 <= i < |a| ==>
      || a[i] == b[i]
      || ('A' <= a[i] <= 'Z' && b[i] as int == a[i] as int + 32)
      || ('a' <= a[i] <= 'z' && b[i] as int == a[i] as int - 32)
  }

  lemma SameNoCaseIs(a: string, b: string)
    ensures SameNoCase(a, b) <==> Spells(a, b)
  {
    forall i | 0 <= i < |a| && |a| == |b|
      ensures Lower(a[i]) == Lower(b[i]) <==>
        || a[i] == b[i]
        || ('A' <= a[i] <= 'Z' && b[i] as int == a[i] as int + 32)
        || ('a' <= a[i] <= 'z' && b[i] as int == a[i] as int - 32)
    {
      LowerIs(a[i], b[i]);
    }
  }

  lemma LowerIs(c: char, d: char)
    ensures Lower(c) == Lower(d) <==>
      || c == d
      || ('A' <= c <= 'Z' && d as int == c as int + 32)
      || ('a' <= c <= 'z' && d as int == c as int - 32)
  {
  }

  // The text begins with the word.
  predicate Begins(s: string, word: string) { |s| >= |word| && Spells(s[..|word|], word) }

  lemma StartsIs(s: string, word: string)
    ensures StartsNoCase(s, word) <==> Begins(s, word)
  {
    if |s| >= |word| { SameNoCaseIs(s[..|word|], word); }
  }

  lemma WordStarts(word: string, name: string, next: string)
    requires Spells(word, name)
    ensures StartsNoCase(word + next, name) && (word + next)[|name|..] == next
  {
    assert (word + next)[..|name|] == word;
    StartsIs(word + next, name);
  }

  // ---- Look-ups.

  // None of the headers has the name.
  predicate NoneNamed(hdrs: seq<Header>, name: string) {
    forall i :: 0 <= i < |hdrs| ==> !Spells(hdrs[i].name, name)
  }

  lemma {:induction false} FirstNamed(before: seq<Header>, h: Header, after: seq<Header>, name: string)
    requires NoneNamed(before, name) && Spells(h.name, name)
    ensures FindHdr(before + [h] + after, name) == |before|
  {
    var hdrs := before + [h] + after;
    var i := FindHdr(hdrs, name);
    SameNoCaseIs(h.name, name);
    assert hdrs[|before|] == h;
    if i < |before| {
      assert hdrs[i] == before[i];
      SameNoCaseIs(before[i].name, name);
    }
  }

  lemma {:induction false} NotNamed(hdrs: seq<Header>, name: string)
    ensures FindHdr(hdrs, name) == |hdrs| <==> NoneNamed(hdrs, name)
  {
    forall i | 0 <= i < |hdrs| ensures SameNoCase(hdrs[i].name, name) <==> Spells(hdrs[i].name, name) {
      SameNoCaseIs(hdrs[i].name, name);
    }
  }

  // The length is that of the first header so named, whatever comes after it;
  // without one it is 0.
  lemma {:induction false} LengthRead(before: seq<Header>, h: Header, after: seq<Header>, space: string, digits: string, rest: string)
    requires NoneNamed(before, "Content-Length") && Spells(h.name, "Content-Length")
    requires All(Space, space) && All(Digit, digits) && digits != "" && (rest != "" ==> !IsDigit(rest[0]))
    requires h.value == space + ("" + (digits + rest))
    ensures MsgLen(before + [h] + after) == if DigitsValue(digits) > LONG_MAX then LONG_MAX else DigitsValue(digits)
  {
    FirstNamed(before, h, after, CONTENT_LENGTH);
    StrtolText(space, "", digits, rest);
  }

  lemma {:induction false} NoLength(hdrs: seq<Header>)
    requires NoneNamed(hdrs, "Content-Length")
    ensures MsgLen(hdrs) == 0
  {
    NotNamed(hdrs, CONTENT_LENGTH);
  }

  // A response is chunked if the first header so named says so, in any case.
  lemma {:induction false} ChunkedRead(before: seq<Header>, h: Header, after: seq<Header>)
    requires NoneNamed(before, "Transfer-Encoding") && Spells(h.name, "Transfer-Encoding")
    ensures IsChunked(before + [h] + after) <==> Spells(h.value, "chunked")
  {
    FirstNamed(before, h, after, TRANSFER_ENCODING);
    assert (before + [h] + after)[|before|] == h;
    SameNoCaseIs(h.value, CHUNKED);
  }

  lemma {:induction false} NotChunked(hdrs: seq<Header>)
    requires NoneNamed(hdrs, "Transfer-Encoding")
    ensures !IsChunked(hdrs)
  {
    NotNamed(hdrs, TRANSFER_ENCODING);
    assert |CHUNKED| == 7;
  }

  // A header is appended at the end, unless one so spelled is there.
  lemma {:induction false} AppendRead(hdrs: seq<Header>, h: Header)
    ensures AppendHdr(hdrs, h) == if NoneNamed(hdrs, h.name) then Got(hdrs + [h], "") else Bad
  {
    NotNamed(hdrs, h.name);
  }

  // ---- The first words.

  predicate KindWord(s: string) { exists m: Method :: Begins(s, MethodName(m)) }

  lemma StartsRequestIs(s: string)
    ensures StartsRequest(s) <==> KindWord(s)
  {
    forall m: Method ensures StartsNoCase(s, MethodName(m)) <==> Begins(s, MethodName(m)) { StartsIs(s, MethodName(m)); }
    if StartsRequest(s) {
      assert exists m: Method :: StartsNoCase(s, MethodName(m)) by {
        assert StartsNoCase(s, MethodName(GET)) || StartsNoCase(s, MethodName(HEAD)) || StartsNoCase(s, MethodName(POST))
          || StartsNoCase(s, MethodName(PUT)) || StartsNoCase(s, MethodName(DELETE));
      }
    }
  }

  // Two different methods do not begin the same text.
  lemma OneMethod(s: string, m: Method, n: Method)
    requires Begins(s, MethodName(m)) && Begins(s, MethodName(n))
    ensures m == n
  {
    var a, b := s[..|MethodName(m)|], s[..|MethodName(n)|];
    assert a[0] == b[0] == s[0] && a[1] == b[1] == s[1];
  }

  lemma MethodNames()
    ensures MethodName(GET) == "GET" && MethodName(HEAD) == "HEAD" && MethodName(POST) == "POST"
    ensures MethodName(PUT) == "PUT" && MethodName(DELETE) == "DELETE"
  {
  }

  // A method in any case, and at least 16 bytes with it.
  lemma MethodRead(word: string, m: Method, next: string)
    requires Spells(word, MethodName(m)) && |word| + |next| >= 16
    ensures ParseMethod(word + next) == Got(m, next)
  {
    var s := word + next;
    WordStarts(word, MethodName(m), next);
    StartsIs(s, MethodName(m));
    forall n: Method ensures StartsNoCase(s, MethodName(n)) <==> n == m {
      StartsIs(s, MethodName(n));
      if Begins(s, MethodName(n)) { OneMethod(s, m, n); }
    }
    MethodNames();
  }

  // The outcome of the same text behind n bytes of whitespace.
  function Behind(r: Outcome, n: nat): Outcome {
    match r
    case Ready(head, used) => Ready(head, n + used)
    case Chunked(head, used) => Chunked(head, n + used)
    case _ => r
  }

  lemma BodyOf(space: string, s: string)
    requires All(Space, space)
    ensures Body(space + s) == Body(s)
  {
    var n := Span(s, Space);
    assert (space + s)[..|space| + n] == space + s[..n];
    SpanIs(space + s, Space, |space| + n);
    assert (space + s)[|space| + n..] == s[n..];
  }

  // Whitespace in front is used with the header, and changes nothing else.
  lemma SpaceInFront(space: string, s: string, slack: string)
    requires All(Space, space)
    ensures InitFromBuf(space + s, slack) == Behind(InitFromBuf(s, slack), |space|)
  {
    BodyOf(space, s);
    SameBody(s, space + s, |space|, Body(s), slack);
  }

  lemma SameBody(s: string, t: string, k: nat, b: string, slack: string)
    requires Body(s) == b && Body(t) == b && |t| == k + |s|
    ensures InitFromBuf(t, slack) == Behind(InitFromBuf(s, slack), k)
  {
    if StartsRequest(b) {
      OutcomeBehind(ParseRequest(b, slack), |s|, k);
    } else if StartsNoCase(b, "HTTP/") {
      OutcomeBehind(ParseResponse(b), |s|, k);
    }
  }

  lemma OutcomeBehind(r: Parse<Head>, n: int, k: nat)
    ensures RequestOutcome(r, k + n) == Behind(RequestOutcome(r, n), k)
    ensures ResponseOutcome(r, k + n) == Behind(ResponseOutcome(r, n), k)
  {
  }

  // Text of no known kind is an error once there are six bytes of it, and
  // waited for until then.
  lemma UnknownKind(s: string, slack: string)
    requires s != "" ==> !IsSpace(s[0])
    requires !KindWord(s) && !Begins(s, "HTTP/")
    ensures InitFromBuf(s, slack) == if |s| >= 6 then Error else NeedMore
  {
    SpanIs(s, Space, 0);
    assert Body(s) == s;
    StartsRequestIs(s);
    StartsIs(s, "HTTP/");
  }

  // The kinds that are known: a request is not parsed before its sixteenth
  // byte, and of a response it takes one byte more than its first word.
  lemma KnownKind(s: string, slack: string)
    requires s != "" && !IsSpace(s[0])
    ensures KindWord(s) && |s| < 16 ==> InitFromBuf(s, slack) == NeedMore
    ensures Begins(s, "HTTP/") && |s| == 5 ==> InitFromBuf(s, slack) == NeedMore
  {
    SpanIs(s, Space, 0);
    assert Body(s) == s;
    StartsRequestIs(s);
    StartsIs(s, "HTTP/");
    if KindWord(s) && Begins(s, "HTTP/") { NotBoth(s); }
  }

  lemma NotBoth(s: string)
    ensures !(KindWord(s) && Begins(s, "HTTP/"))
  {
    forall m: Method ensures !(Begins(s, MethodName(m)) && Begins(s, "HTTP/")) { NotThis(s, m); }
  }

  lemma NotThis(s: string, m: Method)
    ensures !(Begins(s, MethodName(m)) && Begins(s, "HTTP/"))
  {
    if |s| >= 6 || (m != DELETE && |s| >= 5) {
      var a, b := s[..|MethodName(m)|], s[..5];
      assert a[0] == b[0] == s[0] && a[1] == b[1] == s[1];
    }
  }

  // ---- The version.

  function Number(digits: string): int
    requires All(Digit, digits)
  {
    ToInt(if DigitsValue(digits) > LONG_MAX then LONG_MAX else DigitsValue(digits))
  }

  lemma NumberRead(digits: string, next: string)
    requires All(Digit, digits) && next != "" && !IsDigit(next[0])
    ensures ParseNumber(digits + next) == Got(Number(digits), next)
  {
    TokenText(digits, Digit, next);
    if digits == "" { assert DigitsValue("") == 0 && Strtol("") == 0; } else { StrtolOfDigits(digits); }
  }

  // Any two numbers after "HTTP/" in any case: three pairs are versions, and
  // every other pair is an error.
  lemma VersionRead(word: string, major: string, minor: string, next: string)
    requires Spells(word, "HTTP/") && All(Digit, major) && All(Digit, minor) && next != "" && !IsDigit(next[0])
    ensures ParseVersion(word + (major + ("." + (minor + next)))) ==
      var v := (Number(major), Number(minor)); if v in {(1, 1), (1, 0), (0, 9)} then Got(v, next) else Bad
  {
    var dot := "." + (minor + next);
    WordStarts(word, "HTTP/", major + dot);
    NumberRead(major, dot);
    assert dot[1..] == minor + next;
    NumberRead(minor, next);
    VersionParts(word + (major + dot), major + dot, Number(major), dot, Number(minor), next);
    KnownIs(Number(major), Number(minor));
  }

  lemma KnownIs(major: int, minor: int)
    ensures KnownVersion(major, minor) <==> (major, minor) in {(1, 1), (1, 0), (0, 9)}
  {
  }

  // The version as it is printed.
  lemma PrintedVersionRead(major: int, minor: int, next: string)
    requires 0 <= major < 0x8000_0000 && 0 <= minor < 0x8000_0000 && next != "" && !IsDigit(next[0])
    ensures ParseVersion(VersionText(major, minor) + next) ==
      if (major, minor) in {(1, 1), (1, 0), (0, 9)} then Got((major, minor), next) else Bad
  {
    DecValue(major);
    DecValue(minor);
    VersionRead("HTTP/", PrintInt(major), PrintInt(minor), next);
    CatAssoc5("HTTP/", PrintInt(major), ".", PrintInt(minor), next);
  }

  // ---- The phrases.

  lemma Phrases(code: int)
    ensures StatusPhrase(200) == "OK" && StatusPhrase(201) == "Created" && StatusPhrase(202) == "Accepted"
    ensures StatusPhrase(203) == "Non-Authoritative Information" && StatusPhrase(204) == "No Content"
    ensures StatusPhrase(400) == "Bad Request" && StatusPhrase(401) == "Unauthorized"
    ensures StatusPhrase(402) == "Payment Required" && StatusPhrase(403) == "Forbidden"
    ensures StatusPhrase(404) == "Method Not Allowed"
    ensures StatusPhrase(500) == "Internal Server Error" && StatusPhrase(501) == "Not Implemented"
    ensures StatusPhrase(502) == "Bad Gateway" && StatusPhrase(503) == "Service Unavailable"
    ensures StatusPhrase(504) == "Gateway Time-out" && StatusPhrase(505) == "HTTP Version not supported"
    ensures !(200 <= code <= 204) && !(400 <= code <= 404) && !(500 <= code <= 505) ==>
      StatusPhrase(code) == "NULL Status Phrase"
  {
  }

  // Each of the 16 codes has a phrase of its own, as the response is printed
  // with it.
  lemma PhraseDistinct(code: int, other: int)
    requires StatusPhrase(code) == StatusPhrase(other) != "NULL Status Phrase"
    ensures code == other
  {
    Phrases(code);
  }

  // ---- The printed text, byte by byte.

  lemma PrintedResponse(h: Head, absPath: bool)
    requires h == Response(1, 1, 200, [Header("A", "b", [Param("c", "d"), Param("e", "f")]), BodyLenHdr(5)])
    ensures PrintHdr(h, absPath) == "HTTP/1.1 200 OK" + "\r\n" + ("A: b; c=d; e=f\r\n" + "Content-Length: 5\r\n") + "\r\n"
  {
    PrintedStatus(h, absPath);
    PrintedField(h.hdrs[0]);
    PrintedLength();
    assert h.hdrs[1..] == [BodyLenHdr(5)] && [BodyLenHdr(5)][1..] == [];
    assert HdrsText([BodyLenHdr(5)]) == HdrText(BodyLenHdr(5));
  }

  lemma PrintedStatus(h: Head, absPath: bool)
    requires h.Response? && h.major == 1 && h.minor == 1 && h.code == 200
    ensures StartLine(h, absPath) == "HTTP/1.1 200 OK"
  {
    SmallNumbers();
    assert VersionText(1, 1) == "HTTP/1.1";
  }

  lemma PrintedField(h: Header)
    requires h == Header("A", "b", [Param("c", "d"), Param("e", "f")])
    ensures HdrText(h) == "A: b; c=d; e=f\r\n"
  {
    assert h.params[1..] == [Param("e", "f")] && h.params[1..][1..] == [];
    assert ParamsText(h.params[1..]) == "; e=f";
    assert ParamsText(h.params) == "; c=d; e=f";
  }

  lemma PrintedLength()
    ensures HdrText(BodyLenHdr(5)) == "Content-Length: 5\r\n"
  {
    SmallNumbers();
  }

  lemma SmallNumbers()
    ensures PrintInt(0) == "0" && PrintInt(1) == "1" && PrintInt(5) == "5" && PrintInt(200) == "200" && Dec(80) == "80"
  {
    assert Dec(2) == "2" && Dec(20) == Dec(2) + "0" && Dec(200) == Dec(20) + "0" && Dec(8) == "8" && Dec(80) == Dec(8) + "0";
  }

  lemma PrintedUrl(u: Url.Url)
    requires u == Url.Url("http", "h", 80, "p", [Url.Query("k", "v"), Url.Query("l", "w")], "f")
    ensures Url.AbsPath(u) == "/p?k=v&l=w#f" && Url.AbsUri(u) == "http://h:80/p?k=v&l=w#f"
  {
    SmallNumbers();
    PrintedPairs(u.query);
    assert Url.QueryText(u) == "?k=v&l=w";
    assert Url.PathText(u) == "/p" && Url.FragmentText(u) == "#f" && Url.PortText(u) == ":80";
    PrintedParts(Url.AbsPath(u), Url.AbsUri(u));
  }

  lemma PrintedPairs(q: seq<Url.Query>)
    requires q == [Url.Query("k", "v"), Url.Query("l", "w")]
    ensures Url.PairsText(q) == "k=v&l=w"
  {
    assert q[1..] == [Url.Query("l", "w")];
    assert Url.PairsText(q[1..]) == "l=w";
  }

  lemma PrintedParts(path: string, uri: string)
    requires path == "/p" + "?k=v&l=w" + "#f" && uri == "http" + "://" + "h" + ":80" + path
    ensures path == "/p?k=v&l=w#f" && uri == "http://h:80/p?k=v&l=w#f"
  {
  }

  lemma PrintedRequest(h: Head, absPath: bool)
    requires h == Request(POST, Url.Url("http", "h", 80, "p", [Url.Query("k", "v"), Url.Query("l", "w")], "f"), 1, 0, [])
    ensures PrintHdr(h, absPath) ==
      "POST " + (if absPath then "/p?k=v&l=w#f" else "http://h:80/p?k=v&l=w#f") + " " + "HTTP/1.0" + "\r\n" + "" + "\r\n"
  {
    SmallNumbers();
    PrintedUrl(h.uri);
    assert VersionText(1, 0) == "HTTP/1.0";
    assert MethodName(POST) + " " == "POST ";
  }
}
