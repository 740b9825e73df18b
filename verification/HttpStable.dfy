/** Segmentation independence: the response parser starts from scratch on each
    call, and what it decides on a prefix it decides on every extension. */
module HttpStable {
  import opened Scan
  import opened Url
  import opened Http

  lemma StartsStable(s: string, word: string, t: string)
    ensures StartsNoCase(s, word) ==> StartsNoCase(s + t, word)
    ensures |s| >= |word| ==> (StartsNoCase(s, word) <==> StartsNoCase(s + t, word))
  {
    if |s| >= |word| { assert (s + t)[..|word|] == s[..|word|]; }
  }

  lemma FieldStable(s: string, k: Class, t: string)
    requires s != ""
    ensures Stable(ParseField(s, k), ParseField(s + t, k), t)
  {
    var r1 := Pass(s);
    CharStable(s, ' ', t);
    if r1.Got? {
      var r2 := Token(r1.rest, Space);
      TokenStable(r1.rest, Space, t);
      if r2.Got? { TokenStable(r2.rest, k, t); }
    }
  }

  lemma ParamStable(s: string, t: string)
    requires s != ""
    ensures Stable(ParseParam(s), ParseParam(s + t), t)
  {
    var r1 := ParseField(s, Until({'='}));
    FieldStable(s, Until({'='}), t);
    if r1.Got? {
      var r2 := ParseField(r1.rest, Until({';', '\r'}));
      FieldStable(r1.rest, Until({';', '\r'}), t);
      if r2.Got? { TokenStable(r2.rest, Blank, t); }
    }
  }

  lemma {:induction false} ParamsStable(s: string, t: string)
    requires s != ""
    ensures Stable(ParseParams(s), ParseParams(s + t), t)
    decreases |s|
  {
    if s[0] != '\r' {
      var r := ParseParam(s);
      ParamStable(s, t);
      if r.Got? { ParamsStable(r.rest, t); }
    }
  }

  lemma LineEndStable(s: string, t: string)
    requires s != ""
    ensures Stable(ParseLineEnd(s), ParseLineEnd(s + t), t)
  {
    if |s| > 1 { assert (s + t)[2..] == s[2..] + t; }
  }

  lemma MsgHdrStable(s: string, t: string)
    requires s != ""
    ensures Stable(ParseMsgHdr(s), ParseMsgHdr(s + t), t)
  {
    var r1 := Token(s, Until({':'}));
    TokenStable(s, Until({':'}), t);
    if r1.Got? {
      var r2 := ParseField(r1.rest, Until({';', '\r'}));
      FieldStable(r1.rest, Until({';', '\r'}), t);
      if r2.Got? {
        var r3 := ParseParams(r2.rest);
        ParamsStable(r2.rest, t);
        if r3.Got? { LineEndStable(r3.rest, t); }
      }
    }
  }

  lemma {:induction false} HdrsStable(s: string, t: string)
    requires s != ""
    ensures Stable(ParseHdrs(s), ParseHdrs(s + t), t)
    decreases |s|
  {
    if s[0] != '\r' {
      var r := ParseMsgHdr(s);
      MsgHdrStable(s, t);
      if r.Got? && r.rest != "" { HdrsStable(r.rest, t); }
    }
  }

  lemma NumberStable(s: string, c: char, t: string)
    ensures Stable(ParseNumber(s), ParseNumber(s + t), t)
    ensures s != "" ==> Stable(ParseNumberAfter(s, c), ParseNumberAfter(s + t, c), t)
  {
    TokenStable(s, Digit, t);
    if s != "" {
      CharStable(s, c, t);
      if Expect(s, c).Got? { TokenStable(Expect(s, c).rest, Digit, t); }
    }
  }

  lemma VersionStable(s: string, t: string)
    ensures Stable(ParseVersion(s), ParseVersion(s + t), t)
  {
    StartsStable(s, "HTTP/", t);
    if |s| > 5 {
      assert (s + t)[5..] == s[5..] + t;
      NumberStable(s[5..], ' ', t);
      var r := ParseNumber(s[5..]);
      if r.Got? { NumberStable(r.rest, '.', t); }
    }
  }

  lemma CrLfStable(s: string, t: string)
    requires s != ""
    ensures Stable(ParseCrLf(s), ParseCrLf(s + t), t)
  {
    CharStable(s, '\r', t);
    if Expect(s, '\r').Got? { CharStable(Expect(s, '\r').rest, '\n', t); }
  }

  lemma PhraseStable(s: string, t: string)
    requires s != ""
    ensures Stable(ParsePhrase(s), ParsePhrase(s + t), t)
  {
    var r1 := Expect(s, ' ');
    CharStable(s, ' ', t);
    if r1.Got? {
      var r2 := Token(r1.rest, Until({'\r'}));
      TokenStable(r1.rest, Until({'\r'}), t);
      if r2.Got? { CrLfStable(r2.rest, t); }
    }
  }

  lemma StatusLineStable(s: string, t: string)
    ensures Stable(ParseStatusLine(s), ParseStatusLine(s + t), t)
  {
    var r1 := ParseVersion(s);
    VersionStable(s, t);
    if r1.Got? {
      var r2 := ParseNumberAfter(r1.rest, ' ');
      NumberStable(r1.rest, ' ', t);
      if r2.Got? { PhraseStable(r2.rest, t); }
    }
  }

  lemma ResponseStable(s: string, t: string)
    ensures Stable(ParseResponse(s), ParseResponse(s + t), t)
  {
    var r1 := ParseStatusLine(s);
    StatusLineStable(s, t);
    if r1.Got? {
      var r2 := ParseHdrs(r1.rest);
      HdrsStable(r1.rest, t);
      if r2.Got? { LineEndStable(r2.rest, t); }
    }
  }

  lemma RequestVersionStable(s: string, t: string)
    requires s != ""
    ensures Stable(ParseRequestVersion(s), ParseRequestVersion(s + t), t)
  {
    var r1 := Expect(s, ' ');
    CharStable(s, ' ', t);
    if r1.Got? {
      var r2 := ParseVersion(r1.rest);
      VersionStable(r1.rest, t);
      if r2.Got? { CrLfStable(r2.rest, t); }
    }
  }

  // Of a request, what follows the URL.
  lemma AfterUriStable(verb: Method, uri: Url, s: string, t: string)
    requires s != ""
    ensures Stable(ParseAfterUri(verb, uri, s), ParseAfterUri(verb, uri, s + t), t)
    ensures ParseAfterUri(verb, uri, s).Got? ==> ParseAfterUri(verb, uri, s).rest != ""
  {
    var r1 := ParseRequestVersion(s);
    RequestVersionStable(s, t);
    if r1.Got? {
      var r2 := ParseHdrs(r1.rest);
      HdrsStable(r1.rest, t);
      if r2.Got? { CrLfStable(r2.rest, t); }
    }
  }

  lemma BodyStable(s: string, t: string)
    requires Body(s) != ""
    ensures Body(s + t) == Body(s) + t
  {
    SpanStable(s, Space, t);
  }

  lemma RequestStarts(b: string, t: string)
    ensures StartsRequest(b) ==> StartsRequest(b + t)
    ensures |b| >= 6 ==> (StartsRequest(b) <==> StartsRequest(b + t))
  {
    StartsStable(b, "GET", t);
    StartsStable(b, "HEAD", t);
    StartsStable(b, "POST", t);
    StartsStable(b, "PUT", t);
    StartsStable(b, "DELETE", t);
  }

  lemma OutcomeStable(a: Parse<Head>, b: Parse<Head>, n: int, t: string)
    requires Stable(a, b, t)
    ensures ResponseOutcome(a, n) != NeedMore ==> ResponseOutcome(b, n + |t|) == ResponseOutcome(a, n)
  {
  }

  // Unless the text turns out to be a request, a decision on a prefix is the
  // decision on every extension, with the same header and bytes used.
  lemma DecidedStaysDecided(s: string, slack: string, t: string, slack': string)
    requires !StartsRequest(Body(s + t))
    ensures InitFromBuf(s, slack) != NeedMore ==> InitFromBuf(s + t, slack') == InitFromBuf(s, slack)
  {
    var b := Body(s);
    if b != "" {
      BodyStable(s, t);
      RequestStarts(b, t);
      StartsStable(b, "HTTP/", t);
      ResponseStable(b, t);
      OutcomeStable(ParseResponse(b), ParseResponse(b + t), |s|, t);
    }
  }

  // ---- Retrying after each read.

  function Join(chunks: seq<string>): string {
    if chunks == [] then "" else chunks[0] + Join(chunks[1..])
  }

  // The reader's loop: append the next chunk, try again from scratch, stop at
  // the first decision. The memory after the buffer is never relied on.
  function Retry(buf: string, chunks: seq<string>, slack: string): Outcome
    decreases |chunks|
  {
    var r := InitFromBuf(buf, slack);
    if r != NeedMore || chunks == [] then r
    else Retry(buf + chunks[0], chunks[1..], slack)
  }

  lemma {:induction false} RetryIsParseOnce(buf: string, chunks: seq<string>, slack: string, slack': string)
    requires !StartsRequest(Body(buf + Join(chunks)))
    ensures Retry(buf, chunks, slack) == InitFromBuf(buf + Join(chunks), slack')
    decreases |chunks|
  {
    DecidedStaysDecided(buf, slack, Join(chunks), slack');
    if InitFromBuf(buf, slack) == NeedMore {
      if chunks == [] {
        assert buf + "" == buf;
        SlackUnused(buf, slack, slack');
      } else {
        CatAssoc(buf, chunks[0], Join(chunks[1..]));
        RetryIsParseOnce(buf + chunks[0], chunks[1..], slack, slack');
      }
    }
  }

  lemma SlackUnused(s: string, slack: string, slack': string)
    requires !StartsRequest(Body(s))
    ensures InitFromBuf(s, slack) == InitFromBuf(s, slack')
  {
  }
}
