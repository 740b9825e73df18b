/** What the parser makes of a request that is still arriving: exactly when it
    waits for the rest (HTTPFraming.cc, URL.cc). */
module RequestPrefix {
  import opened Scan
  import opened Url
  import opened UrlPrefix
  import opened Http
  import opened HttpPrint
  import opened HttpStable

  // A request that the round trip holds for in every buffer: the URL may be an
  // absolute one, whose scheme has no '/', or a path alone.
  predicate Readable(h: Head) {
    && RequestOk(h) && AllSolid(h.hdrs) && Separated(h.uri) && Unmarked(h.uri)
    && NamedAlways(h) && '/' !in h.uri.scheme
  }

  // A space after the URL, and then a ':' before a space: the first "://" can
  // only be in the URL.
  lemma FieldColon(u: string, m: string, rest: string)
    requires m != "" && m[0] == ' ' && ':' !in m
    ensures var t := u + (m + (": " + rest)); ':' in t && (ShowsScheme(t) <==> ShowsScheme(u))
  {
    var t := u + (m + (": " + rest));
    var n := |u| + |m|;
    assert t[n] == ':' && t[n + 1] == ' ' && t[|u|] == ' ';
    forall i | |u| <= i < n ensures t[i] != ':' { assert t[i] == m[i - |u|]; }
    forall p | 0 <= p && p + 3 <= |t| && t[p..p + 3] == "://" && ':' !in t[..p] ensures p + 3 <= |u| {
      FirstIsFirst(t, n, p);
      assert t[p..p + 3][0] == t[p] && t[p..p + 3][1] == t[p + 1] && t[p..p + 3][2] == t[p + 2];
    }
    if ShowsScheme(t) {
      var p :| 0 <= p && p + 3 <= |t| && t[p..p + 3] == "://" && ':' !in t[..p] && '\0' !in t[..p];
      ShownBefore(u, t, p);
    }
    ShownStays(u, t);
  }

  lemma VersionNoColon(major: int, minor: int)
    requires major >= 0 && minor >= 0
    ensures ':' !in VersionText(major, minor)
  {
    assert forall i :: 0 <= i < |Dec(major)| ==> Has(Digit, Dec(major)[i]);
    assert forall i :: 0 <= i < |Dec(minor)| ==> Has(Digit, Dec(minor)[i]);
  }

  // From the URL to the first header line's ':'.
  function ToField(h: Head): string
    requires h.hdrs != []
  {
    " " + (VersionText(h.major, h.minor) + (CRLF + h.hdrs[0].name))
  }

  lemma ToFieldIs(h: Head)
    requires RequestOk(h) && h.hdrs != []
    ensures ':' !in ToField(h)
  {
    VersionNoColon(h.major, h.minor);
    assert forall i :: 0 <= i < |h.hdrs[0].name| ==> Has(Until({':'}), h.hdrs[0].name[i]);
  }

  lemma HdrsColon(hs: seq<Header>, next: string) returns (rest: string)
    requires hs != []
    ensures HdrsText(hs) + next == hs[0].name + (": " + rest)
  {
    var t := ParamsText(hs[0].params);
    rest := hs[0].value + (t + (CRLF + (HdrsText(hs[1..]) + next)));
    HdrTextIs(hs[0], HdrsText(hs[1..]) + next);
    CatAssoc(HdrText(hs[0]), HdrsText(hs[1..]), next);
    assert [':'] + " " == ": ";
    CatAssoc4(": ", hs[0].value, t, CRLF + (HdrsText(hs[1..]) + next));
    assert [':'] + " " + hs[0].value + (t + (CRLF + (HdrsText(hs[1..]) + next))) == ": " + rest;
  }

  // With a header line to come, all that matters is the URL.
  lemma LineToCome(h: Head)
    requires RequestOk(h) && h.hdrs != []
    ensures NamedAlways(h) <==> Addressed(h.uri)
  {
    var rest := ToColon(h);
    ToFieldIs(h);
    FieldColon(AbsUri(h.uri), ToField(h), rest);
  }

  lemma ToColon(h: Head) returns (rest: string)
    requires h.Request? && h.hdrs != []
    ensures FromTarget(h, "") == AbsUri(h.uri) + (ToField(h) + (": " + rest))
  {
    rest := HdrsColon(h.hdrs, CRLF + "");
    CatAssoc5(" ", VersionText(h.major, h.minor), CRLF, h.hdrs[0].name, ": " + rest);
    CatAssoc4(" ", VersionText(h.major, h.minor), CRLF, h.hdrs[0].name);
  }

  // ---- Where the keys end.

  // The '=' of the i-th pair in the text of the pairs.
  function KeyEnd(q: seq<Query>, i: nat): nat
    requires i < |q|
  {
    if i == 0 then |q[0].key| else |PairText(q[0])| + 1 + KeyEnd(q[1..], i - 1)
  }

  lemma {:induction false} KeyEndCuts(q: seq<Query>, i: nat)
    requires i < |q| && q[i].key != ""
    ensures KeyEnd(q, i) < |PairsText(q)| && CutsKey(q, KeyEnd(q, i))
  {
    if |q| > 1 { PairsShape(q); }
    if i > 0 { KeyEndCuts(q[1..], i - 1); }
  }

  lemma {:induction false} CutIndex(q: seq<Query>, j: nat) returns (i: nat)
    requires CutsKey(q, j)
    ensures i < |q| && q[i].key != "" && j <= KeyEnd(q, i)
    decreases |q|
  {
    if j <= |q[0].key| {
      i := 0;
    } else {
      var k := CutIndex(q[1..], j - |PairText(q[0])| - 1);
      i := k + 1;
    }
  }

  // The text of the pairs in the printed request.
  function KeyStart(h: Head): nat
    requires h.Request?
  {
    |MethodName(h.verb)| + 1 + SchemeLen(h.uri) + |h.uri.host| + |PortText(h.uri)| + |PathText(h.uri)| + 1
  }

  // The first k bytes are enough to be parsed, and end inside a query key.
  predicate EndsInKey(h: Head, k: nat)
    requires h.Request?
  {
    k >= 16 && k >= KeyStart(h) && CutsKey(h.uri.query, k - KeyStart(h))
  }

  // Some query key that is not empty has its '=' at offset 16 or later.
  predicate LateKey(h: Head)
    requires h.Request?
  {
    exists i :: 0 <= i < |h.uri.query| && h.uri.query[i].key != "" && KeyStart(h) + KeyEnd(h.uri.query, i) >= 16
  }

  lemma LateKeyCuts(h: Head) returns (k: nat)
    requires h.Request? && LateKey(h)
    ensures EndsInKey(h, k) && k - KeyStart(h) < |PairsText(h.uri.query)|
  {
    var i :| 0 <= i < |h.uri.query| && h.uri.query[i].key != "" && KeyStart(h) + KeyEnd(h.uri.query, i) >= 16;
    KeyEndCuts(h.uri.query, i);
    k := KeyStart(h) + KeyEnd(h.uri.query, i);
  }

  lemma CutIsLateKey(h: Head, k: nat)
    requires h.Request? && EndsInKey(h, k)
    ensures LateKey(h)
  {
    var i := CutIndex(h.uri.query, k - KeyStart(h));
  }

  // ---- The parser on the first k bytes.

  lemma EndsInUrl(h: Head, j: nat)
    requires h.Request? && |MethodName(h.verb)| + 1 + j >= 16
    ensures AbsUriCutsKey(h.uri, j) <==> EndsInKey(h, |MethodName(h.verb)| + 1 + j)
  {
  }

  lemma InUrl(h: Head, j: nat, slack: string)
    requires Readable(h) && 0 < j <= |AbsUri(h.uri)| && |MethodName(h.verb)| + 1 + j >= 16
    ensures ParseRequest(MethodName(h.verb) + (" " + AbsUri(h.uri)[..j]), slack)
      == if AbsUriCutsKey(h.uri, j) && !Masked(h.uri, AbsUri(h.uri)[..j], slack) then Bad else More
  {
    var s1 := " " + AbsUri(h.uri)[..j];
    MethodTrip(h.verb, s1);
    ReadableAddressed(h);
    UrlCut(h.uri, j, slack, 0);
    assert s1[1..] == AbsUri(h.uri)[..j];
    ParseRequestIs(MethodName(h.verb) + s1, slack, h.verb, s1);
  }

  lemma ReadableAddressed(h: Head)
    requires Readable(h)
    ensures Addressed(h.uri)
  {
    ShownStays(AbsUri(h.uri), FromTarget(h, ""));
  }

  // The request line after the URL, and the headers.
  function Tail(h: Head, rest: string): string
    requires h.Request?
  {
    " " + (VersionText(h.major, h.minor) + (CRLF + Fields(h, rest)))
  }

  lemma TailMore(h: Head, rest: string)
    requires h.Request?
    ensures Tail(h, "") + rest == Tail(h, rest)
  {
    CatAssoc4(HdrsText(h.hdrs), CRLF, "", rest);
    CatAssoc5(" ", VersionText(h.major, h.minor), CRLF, Fields(h, ""), rest);
  }

  // After the URL, the parser waits for one byte past the empty line.
  lemma TailWaits(h: Head, t: string)
    requires RequestOk(h) && AllSolid(h.hdrs) && t != "" && t <= Tail(h, "")
    ensures ParseAfterUri(h.verb, h.uri, t) == More
  {
    var more := Tail(h, "")[|t|..] + "X";
    TailMore(h, "X");
    assert t + more == Tail(h, "X");
    AfterUriTrip(h, "X");
    AfterUriStable(h.verb, h.uri, t, more);
    assert |more| >= 1;
  }

  lemma PastUrl(h: Head, t: string, slack: string)
    requires Readable(h) && t != "" && t <= Tail(h, "")
    requires |MethodName(h.verb)| + 1 + |AbsUri(h.uri) + t| >= 16
    ensures ParseRequest(MethodName(h.verb) + (" " + (AbsUri(h.uri) + t)), slack) == More
  {
    var s1 := " " + (AbsUri(h.uri) + t);
    MethodTrip(h.verb, s1);
    assert t == " " + t[1..] && s1[1..] == AbsUri(h.uri) + t;
    ParseRequestIs(MethodName(h.verb) + s1, slack, h.verb, s1);
    if Masked(h.uri, AbsUri(h.uri) + t, slack) {
      MaskedPast(h, t, slack);
    } else {
      ReadableAddressed(h);
      UrlRoundTrip(h.uri, t[1..], slack, 0);
      TailWaits(h, t);
    }
  }

  lemma MaskedPast(h: Head, t: string, slack: string)
    requires Readable(h) && t <= Tail(h, "") && Masked(h.uri, AbsUri(h.uri) + t, slack)
    ensures ParseUrl(AbsUri(h.uri) + t, slack, 0) == More
  {
    var s := AbsUri(h.uri) + t;
    NotShown(h, s);
    StartsPlain(h.uri, t);
    ShownLate(s, slack, 0);
  }

  // No beginning of what follows the method shows a scheme.
  lemma NotShown(h: Head, s: string)
    requires Readable(h) && h.uri.scheme == "" && s <= AbsUri(h.uri) + Tail(h, "")
    ensures !ShowsScheme(s)
  {
    ShownStays(s, FromTarget(h, ""));
  }

  // ---- The dispatcher on the first k bytes.

  lemma RequestIs(h: Head)
    requires h.Request?
    ensures PrintHdr(h, false) == MethodName(h.verb) + (" " + (AbsUri(h.uri) + Tail(h, "")))
  {
    PrintHdrIs(h, false, "");
    RequestLineIs(h, Fields(h, ""));
    assert PrintHdr(h, false) + "" == PrintHdr(h, false);
  }

  // Fewer than 16 bytes are never parsed.
  lemma ShortWaits(x: string, slack: string)
    requires |x| < 16 && Body(x) == x
    requires StartsRequest(x) || (|x| < 6 && !StartsNoCase(x, "HTTP/"))
    ensures InitFromBuf(x, slack) == NeedMore
  {
  }

  lemma TooShort(verb: Method, next: string, slack: string)
    requires |MethodName(verb) + next| < 16
    ensures InitFromBuf(MethodName(verb) + next, slack) == NeedMore
  {
    var x := MethodName(verb) + next;
    NoLeadingSpace(x);
    assert x[..|MethodName(verb)|] == MethodName(verb);
    assert StartsNoCase(x, MethodName(verb));
    ShortWaits(x, slack);
  }

  lemma NotHttp(verb: Method, k: nat)
    requires k < |MethodName(verb)|
    ensures !StartsNoCase(MethodName(verb)[..k], "HTTP/")
  {
    if k == 5 { assert Lower(MethodName(verb)[..k][..5][0]) == 'd'; }
  }

  lemma MethodOnly(verb: Method, k: nat, slack: string)
    requires k < |MethodName(verb)|
    ensures InitFromBuf(MethodName(verb)[..k], slack) == NeedMore
  {
    var x := MethodName(verb)[..k];
    if k == 0 { assert Body("") == ""; } else { NoLeadingSpace(x); }
    NotHttp(verb, k);
    ShortWaits(x, slack);
  }

  lemma SameOutcome(x: string, y: string, slack: string, r: Parse<Head>)
    requires x == y && StartsRequest(x) && x != "" && !IsSpace(x[0]) && ParseRequest(x, slack) == r && !r.Got?
    ensures InitFromBuf(y, slack) == if r.More? then NeedMore else Error
  {
    DispatchRequest(x, slack);
  }

  lemma MethodCut(m: string, r: string, k: nat)
    requires |m| < k <= |m| + 1 + |r|
    ensures (m + (" " + r))[..k] == m + (" " + r[..k - |m| - 1])
  {
  }

  lemma MethodStarts(verb: Method, next: string)
    requires |MethodName(verb)| + |next| >= 16
    ensures var x := MethodName(verb) + next; StartsRequest(x) && x != "" && !IsSpace(x[0])
  {
    MethodTrip(verb, next);
    assert (MethodName(verb) + next)[0] == MethodName(verb)[0];
  }

  // Of the first k bytes, those after the method and the memory behind them
  // show a scheme that the request does not have.
  predicate Masks(h: Head, k: nat, slack: string)
    requires h.Request? && k <= |PrintHdr(h, false)|
  {
    h.uri.scheme == "" && k > |MethodName(h.verb)| && ShowsScheme(PrintHdr(h, false)[|MethodName(h.verb)| + 1..k] + slack)
  }

  lemma LongEnough(h: Head, k: nat, slack: string)
    requires Readable(h) && 16 <= k <= |PrintHdr(h, false)|
    ensures InitFromBuf(PrintHdr(h, false)[..k], slack) == if EndsInKey(h, k) && !Masks(h, k, slack) then Error else NeedMore
  {
    var j := k - |MethodName(h.verb)| - 1;
    RequestCut(h, j, k);
    EndsInUrl(h, j);
    if j <= |AbsUri(h.uri)| {
      CutInUrl(h, j, PrintHdr(h, false)[..k], slack);
      MasksIs(h, j, k, slack);
    } else {
      CutPastUrl(h, j, PrintHdr(h, false)[..k], slack);
      NotInUrl(h.uri, j);
    }
  }

  lemma MasksIs(h: Head, j: nat, k: nat, slack: string)
    requires h.Request? && k <= |PrintHdr(h, false)| && k == |MethodName(h.verb)| + 1 + j && 0 < j <= |AbsUri(h.uri)|
    requires PrintHdr(h, false)[..k] == MethodName(h.verb) + (" " + AbsUri(h.uri)[..j])
    ensures Masks(h, k, slack) == Masked(h.uri, AbsUri(h.uri)[..j], slack)
  {
    var m := MethodName(h.verb);
    assert PrintHdr(h, false)[|m| + 1..k] == PrintHdr(h, false)[..k][|m| + 1..];
    assert PrintHdr(h, false)[..k][|m| + 1..] == AbsUri(h.uri)[..j];
  }

  lemma RequestCut(h: Head, j: int, k: nat)
    requires h.Request? && 16 <= k <= |PrintHdr(h, false)| && k == |MethodName(h.verb)| + 1 + j
    ensures var m, u, t := MethodName(h.verb), AbsUri(h.uri), Tail(h, "");
      && 0 < j <= |u| + |t|
      && PrintHdr(h, false)[..k] == if j <= |u| then m + (" " + u[..j]) else m + (" " + (u + t[..j - |u|]))
  {
    RequestIs(h);
    MethodCut(MethodName(h.verb), AbsUri(h.uri) + Tail(h, ""), k);
    CutCat(AbsUri(h.uri), Tail(h, ""), j);
  }

  lemma CutInUrl(h: Head, j: nat, y: string, slack: string)
    requires Readable(h) && 0 < j <= |AbsUri(h.uri)| && |MethodName(h.verb)| + 1 + j >= 16
    requires y == MethodName(h.verb) + (" " + AbsUri(h.uri)[..j])
    ensures InitFromBuf(y, slack) ==
      if AbsUriCutsKey(h.uri, j) && !Masked(h.uri, AbsUri(h.uri)[..j], slack) then Error else NeedMore
  {
    MethodStarts(h.verb, " " + AbsUri(h.uri)[..j]);
    InUrl(h, j, slack);
    SameOutcome(y, y, slack, ParseRequest(y, slack));
  }

  lemma CutPastUrl(h: Head, j: nat, y: string, slack: string)
    requires Readable(h) && |AbsUri(h.uri)| < j <= |AbsUri(h.uri)| + |Tail(h, "")| && |MethodName(h.verb)| + 1 + j >= 16
    requires y == MethodName(h.verb) + (" " + (AbsUri(h.uri) + Tail(h, "")[..j - |AbsUri(h.uri)|]))
    ensures InitFromBuf(y, slack) == NeedMore
  {
    var u, t := AbsUri(h.uri), Tail(h, "")[..j - |AbsUri(h.uri)|];
    MethodStarts(h.verb, " " + (u + t));
    PastUrl(h, t, slack);
    SameOutcome(y, y, slack, ParseRequest(y, slack));
  }

  lemma NotInUrl(u: Url, j: nat)
    requires j > |AbsUri(u)|
    ensures !AbsUriCutsKey(u, j)
  {
    AbsUriIs(u);
    if AbsUriCutsKey(u, j) {
      BeyondCuts(u.query, j - SchemeLen(u) - |u.host| - |PortText(u)| - |PathText(u)| - 1);
    }
  }

  // Byte by byte: an error exactly inside a query key, and otherwise the
  // parser waits, up to the end of the header. It also waits inside a key if
  // the memory behind shows a scheme and the request has none.
  lemma PrefixOutcome(h: Head, k: nat, slack: string)
    requires Readable(h) && k <= |PrintHdr(h, false)|
    ensures InitFromBuf(PrintHdr(h, false)[..k], slack) == if EndsInKey(h, k) && !Masks(h, k, slack) then Error else NeedMore
  {
    var m, rest := MethodName(h.verb), " " + (AbsUri(h.uri) + Tail(h, ""));
    if k >= 16 {
      LongEnough(h, k, slack);
    } else {
      RequestIs(h);
      CutCat(m, rest, k);
      if k < |m| { MethodOnly(h.verb, k, slack); } else { TooShort(h.verb, rest[..k - |m|], slack); }
      if k == |m| { assert rest[..0] == "" && m + "" == m && m[..k] == m; }
    }
  }

  lemma BehindMethod(p: string, m: string, t: string, k: nat)
    requires p == m + (" " + t) && |m| < k <= |p|
    ensures p[|m| + 1..k] <= t
  {
    assert p[|m| + 1..] == t;
    assert p[|m| + 1..k] == t[..k - |m| - 1];
  }

  // Nothing is masked by empty memory, nor for a URL with a scheme.
  lemma NotMasked(h: Head, k: nat, slack: string)
    requires Readable(h) && k <= |PrintHdr(h, false)| && (h.uri.scheme != "" || slack == "")
    ensures !Masks(h, k, slack)
  {
    if h.uri.scheme == "" && k > |MethodName(h.verb)| {
      RequestIs(h);
      BehindMethod(PrintHdr(h, false), MethodName(h.verb), AbsUri(h.uri) + Tail(h, ""), k);
      EmptyBehind(h, PrintHdr(h, false)[|MethodName(h.verb)| + 1..k]);
    }
  }

  lemma EmptyBehind(h: Head, s: string)
    requires Readable(h) && h.uri.scheme == "" && s <= AbsUri(h.uri) + Tail(h, "")
    ensures !ShowsScheme(s + "")
  {
    assert s + "" == s;
    NotShown(h, s);
  }

  // A request is waited for at every byte exactly when no key that is not
  // empty has its '=' at offset 16 or later: whatever memory follows if there
  // is none, and if there is, for a URL with a scheme or with no memory.
  lemma PrefixesWait(h: Head, slack: string)
    requires Readable(h)
    ensures !LateKey(h) ==> forall k :: 0 <= k <= |PrintHdr(h, false)| ==> InitFromBuf(PrintHdr(h, false)[..k], slack) == NeedMore
    ensures LateKey(h) && (h.uri.scheme != "" || slack == "") ==>
      !(forall k :: 0 <= k <= |PrintHdr(h, false)| ==> InitFromBuf(PrintHdr(h, false)[..k], slack) == NeedMore)
  {
    if LateKey(h) {
      var k := LateKeyCuts(h);
      LateKeyInside(h, k);
      PrefixOutcome(h, k, slack);
      if h.uri.scheme != "" || slack == "" { NotMasked(h, k, slack); }
    } else {
      forall k | 0 <= k <= |PrintHdr(h, false)|
        ensures InitFromBuf(PrintHdr(h, false)[..k], slack) == NeedMore
      {
        if EndsInKey(h, k) { CutIsLateKey(h, k); }
        PrefixOutcome(h, k, slack);
      }
    }
  }

  lemma LateKeyInside(h: Head, k: nat)
    requires h.Request? && EndsInKey(h, k) && k - KeyStart(h) < |PairsText(h.uri.query)|
    ensures k <= |PrintHdr(h, false)|
  {
    RequestIs(h);
    AbsUriIs(h.uri);
  }

  // The shortest example: its first 16 bytes are rejected, the whole of it is
  // read.
  lemma RequestPrefixRejected(h: Head)
    requires h == Request(GET, Url("http", "a", 0, "p", [Query("k", "v")], ""), 1, 1, [])
    ensures var s := PrintHdr(h, false);
      && |s| >= 16 && InitFromBuf(s[..16], "") == Error && InitFromBuf(s + "X", "") == Ready(h, |s|)
  {
    assert RequestOk(h) && Separated(h.uri) && KeyStart(h) == 15;
    assert CutsKey(h.uri.query, 1) && EndsInKey(h, 16);
    LateKeyInside(h, 16);
    PrefixOutcome(h, 16, "");
    NotMasked(h, 16, "");
    AlwaysNamed(h, "X", "");
    InitFromPrintedRequest(h, "X", "");
  }
}
