/** The URL object of URL.cc: its parser, which fills the fields while walking
    the buffer, and its printers, proved to compute the functions of Url. */
module UrlClass {
  import opened Scan
  import opened Buffers
  import opened Url

  class URL {
    var scheme: string
    var host: string
    var port: nat
    var path: string
    var query: seq<Query>
    var fragment: string

    function Value(): Url
      reads this
    {
      Url(scheme, host, port, path, query, fragment)
    }

    constructor ()
      ensures Value() == EMPTY
    {
      scheme, host, port, path, query, fragment := "", "", 0, "", [], "";
    }

    method Clear()
      modifies this
      ensures Value() == EMPTY
    {
      scheme, host, port, path, query, fragment := "", "", 0, "", [], "";
    }

    // is_str_tainted on a C string, and the assignment it guards.
    static method TextOf(tok: string) returns (s: string)
      ensures s == Text(tok)
    {
      s := CStr(tok);
      var i := 0;
      while i < |s|
        invariant 0 <= i <= |s|
        invariant !IsTainted(s[..i])
      {
        if s[i] == '`' || s[i] == '|' || s[i] == '\\' {
          assert IsTainted(s);
          return TAINTED;
        }
        i := i + 1;
      }
      assert s[..i] == s;
    }

    // set_query: pairs are appended until the buffer ends or an error.
    method SetQuery(buf: string) returns (event: bool)
      modifies this`query
      ensures match QueryPairs(buf)
        case Got(pairs, _) => !event && query == old(query) + pairs
        case _ => event
    {
      var rest := buf;
      while rest != ""
        invariant Pending(QueryPairs(buf), old(query), query, QueryPairs(rest))
        decreases |rest|
      {
        var key, atDelimiter := ScanWhile(rest, Word({'='}));
        if atDelimiter == "" || atDelimiter[0] != '=' {
          return true;
        }
        var value, atEnd := ScanWhile(atDelimiter[1..], Word({'&'}));
        var tail := if atEnd != "" && atEnd[0] == '&' then atEnd[1..] else atEnd;
        PairStep(rest, key, atDelimiter, value, atEnd);
        PendingStep(QueryPairs(buf), old(query), query, Query(key, value), QueryPairs(tail));
        query := query + [Query(key, value)];
        rest := tail;
      }
      event := false;
    }

    static lemma PairStep(rest: string, key: string, atDelimiter: string, value: string, atEnd: string)
      requires rest != "" && key == rest[..Span(rest, Word({'='}))] && atDelimiter == rest[Span(rest, Word({'='}))..]
      requires atDelimiter != "" && atDelimiter[0] == '='
      requires value == atDelimiter[1..][..Span(atDelimiter[1..], Word({'&'}))]
      requires atEnd == atDelimiter[1..][Span(atDelimiter[1..], Word({'&'}))..]
      ensures var r := QueryPairs(if atEnd != "" && atEnd[0] == '&' then atEnd[1..] else atEnd);
              QueryPairs(rest) == if r.Got? then Got([Query(key, value)] + r.value, r.rest) else r
    {
      var v := atDelimiter[1..];
      assert v == rest[|key| + 1..];
      assert atEnd != "" ==> atEnd[1..] == v[|value| + 1..];
    }

    // The parser: the number of characters used, or 0 for more data, and the
    // text after them.
    method InitFromBuf(buf: string, slack: string, default: nat) returns (used: nat, event: bool, rest: string)
      modifies this
      ensures match ParseUrl(buf, slack, default)
        case More => !event && used == 0
        case Bad => event
        case Got(u, r) => !event && Value() == u && rest == r && used == |buf| - |r| && used > 0
    {
      UrlShrinks(buf, slack, default);
      Clear();
      event := false;
      if buf == "" || buf[0] == '\0' { return 0, false, buf; }
      var more, tok;
      more, tok, rest := Take(buf, Space);
      if more { return 0, false, buf; }
      var ok;
      ok, rest := InitScheme(rest, slack);
      if !ok { return 0, false, buf; }
      tok, rest := ScanWhile(rest, Word({':', '/'}));
      host := TextOf(tok);
      more, rest, event := InitAfterHost(rest, default);
      used := if more then 0 else |buf| - |rest|;
    }

    method InitScheme(s: string, slack: string) returns (ok: bool, rest: string)
      modifies this`scheme
      requires scheme == ""
      ensures ParseScheme(s, slack) == if ok then Got(scheme, rest) else More
      ensures |rest| <= |s|
    {
      var p := SchemeEnd(s, slack);
      rest := s;
      if p < 0 { return true, s; }
      SchemeScan(s, slack);
      var tok, atColon := ScanWhile(s, Until({':'}));
      if atColon == "" { return false, s; }
      scheme := TextOf(tok);
      ok := |atColon| >= 4;
      if ok { rest := atColon[3..]; }
    }
  
    // A scan that stops inside s is the same on any text s starts like.
    static lemma ScanOfPrefix(m: string, s: string, k: Class, n: nat)
      requires Span(m, k) < |m| && n <= |s| && n <= |m| && s[..n] == m[..n]
      requires n == if Span(m, k) < |s| then Span(m, k) + 1 else |s|
      ensures Span(s, k) == if Span(m, k) < |s| then Span(m, k) else |s|
    {
      var p := Span(m, k);
      var i := if p < |s| then p else |s|;
      assert s[..i] == m[..n][..i] == m[..p][..i];
      AllPrefix(k, m[..p], i);
      if p < |s| { assert s[p] == s[..n][p] == m[..n][p]; }
      SpanIs(s, k, i);
    }

    static lemma CStrStart(t: string, n: nat)
      requires n <= |CStr(t)|
      ensures CStr(t)[..n] == t[..n]
    {
      var m := Span(t, Until({'\0'}));
      assert t[..m][..n] == t[..n];
    }

    // The scan for ':' in s, when strchr finds one in the text s starts.
    static lemma ColonScan(t: string, s: string, p: nat)
      requires s <= t && p == Span(CStr(t), Until({':'})) < |CStr(t)|
      ensures Span(s, Until({':'})) == if p < |s| then p else |s|
    {
      var n := if p < |s| then p + 1 else |s|;
      if n <= |CStr(t)| {
        CStrStart(t, n);
        assert t[..n] == s[..n];
        ScanOfPrefix(CStr(t), s, Until({':'}), n);
      }
    }

    static lemma SchemeScan(s: string, slack: string)
      requires SchemeEnd(s, slack) >= 0
      ensures Span(s, Until({':'})) == if SchemeEnd(s, slack) < |s| then SchemeEnd(s, slack) else |s|
    {
      ColonScan(s + slack, s, SchemeEnd(s, slack));
    }

    // An optional part: its opening character, then a token.
    static method TakePart(s: string, open: char, stops: set<char>) returns (more: bool, tok: string, rest: string)
      ensures ParsePart(s, open, stops) == if more then More else Got(tok, rest)
      ensures |rest| <= |s|
    {
      more, tok, rest := false, "", s;
      if s != "" && s[0] == open {
        if |s| == 1 { return true, "", s; }
        tok, rest := ScanWhile(s[1..], Word(stops));
      }
    }

    method InitPort(s: string, default: nat) returns (more: bool, rest: string)
      modifies this`port
      ensures ParsePort(s, default) == if more then More else Got(port, rest)
      ensures |rest| <= |s|
    {
      more, rest := false, s;
      if s != "" && s[0] == ':' {
        if |s| == 1 { return true, s; }
        var digits, after := ScanWhile(s[1..], Digit);
        port := Strtoul(digits) % 65536;
        rest := after;
      } else {
        port := default;
      }
    }

    // Query and fragment. An error in the query does not stop the walk: its
    // event is what the callers see.
    method InitTail(s: string) returns (more: bool, rest: string, event: bool)
      requires query == [] && fragment == ""
      modifies this`query, this`fragment
      ensures match ParseTail(s)
        case More => more && !event
        case Bad => event
        case Got(v, r) => !more && !event && query == v.0 && fragment == v.1 && rest == r
      ensures |rest| <= |s|
    {
      event := false;
      var tok: string;
      more, tok, rest := TakePart(s, '?', {'#'});
      if more { return; }
      event := SetQuery(CStr(tok));
      more, tok, rest := TakePart(rest, '#', {});
      if more { return; }
      fragment := TextOf(tok);
    }

    method InitAfterHost(s: string, default: nat) returns (more: bool, rest: string, event: bool)
      requires path == "" && query == [] && fragment == ""
      modifies this`port, this`path, this`query, this`fragment
      ensures match ParseAfterHost(scheme, host, s, default)
        case More => more && !event
        case Bad => event
        case Got(u, r) => !more && !event && Value() == u && rest == r
      ensures |rest| <= |s|
    {
      event := false;
      var tok: string;
      more, rest := InitPort(s, default);
      if more { return; }
      more, tok, rest := TakePart(rest, '/', {'?', '#'});
      if more { return; }
      path := TextOf(tok);
      more, rest, event := InitTail(rest);
    }
  
    // ---- Printing. The text is cut at the end of the scratch buffer.

    method PrintAbsPath() returns (tmp: string)
      ensures tmp == Cut(AbsPath(Value()))
    {
      ghost var done := "";
      tmp := "";
      if path != "" {
        tmp := Put(tmp, "/" + path, done);
        done := done + ("/" + path);
      }
      assert done == PathText(Value());
      if query != [] {
        tmp := Put(tmp, "?", done);
        tmp := PrintPairs(tmp, done + "?");
        CatAssoc(done, "?", PairsText(query));
      }
      done := done + QueryText(Value());
      assert query == [] ==> PathText(Value()) + "" == PathText(Value());
      if fragment != "" {
        tmp := Put(tmp, "#" + fragment, done);
      } else {
        assert done + "" == done;
      }
    }

    method PrintPair(start: string, p: Query, ghost done: string) returns (tmp: string)
      requires start == Cut(done)
      ensures tmp == Cut(done + PairText(p))
    {
      tmp := Put(start, p.key, done);
      tmp := Put(tmp, "=" + p.value, done + p.key);
      assert PairText(p) == p.key + ("=" + p.value);
      CatAssoc(done, p.key, "=" + p.value);
    }

    method PrintPairs(start: string, ghost before: string) returns (tmp: string)
      requires start == Cut(before)
      ensures tmp == Cut(before + PairsText(query))
    {
      ghost var done := before;
      tmp := start;
      var itr := 0;
      assert query[0..] == query;
      while itr < |query|
        invariant 0 <= itr <= |query| && tmp == Cut(done)
        invariant done + PairsText(query[itr..]) == before + PairsText(query)
      {
        ghost var q := query[itr..];
        assert q[1..] == query[itr + 1..];
        PairsStep(done, q);
        tmp := PrintPair(tmp, query[itr], done);
        done := done + PairText(query[itr]);
        itr := itr + 1;
        if itr != |query| {
          tmp := Put(tmp, "&", done);
          done := done + "&";
        }
      }
      assert query[itr..] == [] && done + "" == done;
    }

    static lemma PairsStep(done: string, q: seq<Query>)
      requires q != []
      ensures |q| > 1 ==> done + PairText(q[0]) + "&" + PairsText(q[1..]) == done + PairsText(q)
      ensures |q| == 1 ==> done + PairText(q[0]) + PairsText(q[1..]) == done + PairsText(q)
    {
      Cat4(done, PairText(q[0]), "&", PairsText(q[1..]));
      if |q| == 1 { assert done + PairText(q[0]) + "" == done + PairText(q[0]); }
    }

    static lemma Cat4(a: string, b: string, c: string, d: string)
      ensures a + b + c + d == a + (b + c + d)
    {
    }

    method PrintAbsoluteUri() returns (tmp: string)
      ensures tmp == Cut(AbsUri(Value()))
    {
      ghost var done := "";
      tmp := "";
      if scheme != "" {
        tmp := Put(tmp, scheme + "://", done);
        done := done + (scheme + "://");
      }
      if host != "" {
        tmp := Put(tmp, host, done);
        done := done + host;
      }
      assert done == (if scheme != "" then scheme + "://" else "") + host;
      if port != 0 {
        tmp := Put(tmp, ":" + Dec(port), done);
        done := done + (":" + Dec(port));
      }
      assert done == (if scheme != "" then scheme + "://" else "") + host + PortText(Value());
      var tail := PrintAbsPath();
      if tail != "" {
        tmp := Put(tmp, tail, done);
      } else {
        assert AbsPath(Value()) == "" && done + "" == done;
      }
      CutTail(done, AbsPath(Value()));
    }
  }
}
