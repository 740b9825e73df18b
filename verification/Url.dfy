/** URLs as URL.cc reads and prints them (section 3 of RFC 3986). */
module Url {
  import opened Scan

  datatype Query = Query(key: string, value: string)

  datatype Url = Url(scheme: string, host: string, port: nat, path: string,
                     query: seq<Query>, fragment: string)

  const EMPTY: Url := Url("", "", 0, "", [], "")

  const TAINTED: string := "STR_TAINTED"

  predicate IsMark(c: char) { c == '`' || c == '|' || c == '\\' }

  predicate IsTainted(s: string) { exists i :: 0 <= i < |s| && IsMark(s[i]) }

  // set_scheme, set_host, set_path and set_fragment on a scanned token.
  function Text(tok: string): string {
    if IsTainted(CStr(tok)) then TAINTED else CStr(tok)
  }

  // ---- Reading.

  // set_query: key=value pairs separated by '&'; a key without '=' is an error.
  function QueryPairs(q: string): (r: Parse<seq<Query>>)
    ensures r != More
    decreases |q|
  {
    if q == "" then Got([], "")
    else
      var n := Span(q, Word({'='}));
      if n == |q| || q[n] != '=' then Bad
      else
        var v := q[n + 1..];
        var m := Span(v, Word({'&'}));
        var (pairs, rest) :- QueryPairs(if m < |v| && v[m] == '&' then v[m + 1..] else v[m..]);
        Got([Query(q[..n], v[..m])] + pairs, rest)
  }

  // The position of the first ':' if "//" follows it; slack is the memory
  // after the text, which strchr goes on searching up to a NUL.
  function SchemeEnd(s: string, slack: string): int {
    var mem := CStr(s + slack);
    var p := Span(mem, Until({':'}));
    if p + 2 < |mem| && mem[p + 1] == '/' && mem[p + 2] == '/' then p else -1
  }

  function ParseScheme(s: string, slack: string): Parse<string> {
    var p := SchemeEnd(s, slack);
    if p < 0 then Got("", s)
    else if |s| - p < 4 then More
    else Got(Text(s[..p]), s[p + 3..])
  }

  function ParseHost(s: string): Parse<string> {
    var n := Span(s, Word({':', '/'}));
    Got(Text(s[..n]), s[n..])
  }

  function ParsePort(s: string, default: nat): Parse<nat> {
    if s == "" || s[0] != ':' then Got(default, s)
    else if |s| == 1 then More
    else
      var n := Span(s[1..], Digit);
      Got(Strtoul(s[1..][..n]) % 65536, s[1..][n..])
  }

  // The text after an optional opening character, up to a stop or a space.
  function ParsePart(s: string, open: char, stops: set<char>): Parse<string> {
    if s == "" || s[0] != open then Got("", s)
    else if |s| == 1 then More
    else
      var n := Span(s[1..], Word(stops));
      Got(s[1..][..n], s[1..][n..])
  }

  function ParseUrl(s: string, slack: string, default: nat): Parse<Url> {
    if s == "" || s[0] == '\0' then More
    else
      var (_, s0) :- Token(s, Space);
      var (scheme, s1) :- ParseScheme(s0, slack);
      var (host, s2) :- ParseHost(s1);
      ParseAfterHost(scheme, host, s2, default)
  }

  function ParseTail(s: string): Parse<(seq<Query>, string)> {
    var (query, s1) :- ParsePart(s, '?', {'#'});
    var (pairs, _) :- QueryPairs(CStr(query));
    var (fragment, rest) :- ParsePart(s1, '#', {});
    Got((pairs, Text(fragment)), rest)
  }

  function ParseAfterHost(scheme: string, host: string, s: string, default: nat): (r: Parse<Url>)
    ensures r.Got? ==> r.value.host == host && r.value.scheme == scheme
  {
    var (port, s1) :- ParsePort(s, default);
    var (path, s2) :- ParsePart(s1, '/', {'?', '#'});
    var (tail, rest) :- ParseTail(s2);
    Got(Url(scheme, host, port, Text(path), tail.0, tail.1), rest)
  }

  // ---- Printing.

  function PairText(p: Query): string { p.key + "=" + p.value }

  function PairsText(q: seq<Query>): string {
    if q == [] then "" else if |q| == 1 then PairText(q[0])
    else PairText(q[0]) + "&" + PairsText(q[1..])
  }

  function PortText(u: Url): string { if u.port != 0 then ":" + Dec(u.port) else "" }
  function PathText(u: Url): string { if u.path != "" then "/" + u.path else "" }
  function QueryText(u: Url): string { if u.query != [] then "?" + PairsText(u.query) else "" }
  function FragmentText(u: Url): string { if u.fragment != "" then "#" + u.fragment else "" }

  function AbsPath(u: Url): string { PathText(u) + QueryText(u) + FragmentText(u) }

  function AbsUri(u: Url): string {
    (if u.scheme != "" then u.scheme + "://" else "") + u.host + PortText(u) + AbsPath(u)
  }

  // ---- The round trip.

  predicate Plain(k: Class, s: string) { All(k, s) && Clean(s) }

  // URLs whose parts hold none of the characters that end them; the scheme may
  // be empty, and so may any other part.
  predicate WellFormed(u: Url) {
    && Plain(Word({':'}), u.scheme)
    && Plain(Word({':', '/'}), u.host)
    && u.port < 65536
    && Plain(Word({'?', '#'}), u.path)
    && (forall i :: 0 <= i < |u.query| ==> PairOk(u.query[i]))
    && Plain(Word({}), u.fragment)
  }

  // A path or a printed port must separate the host from a query or fragment.
  predicate Separated(u: Url) {
    u.path != "" || u.port != 0 || (u.query == [] && u.fragment == "")
  }

  lemma SpanText(tok: string, k: Class, next: string)
    requires All(k, tok) && (next != "" ==> !Has(k, next[0]))
    ensures Span(tok + next, k) == |tok|
    ensures (tok + next)[..|tok|] == tok && (tok + next)[|tok|..] == next
  {
    assert (tok + next)[..|tok|] == tok && (tok + next)[|tok|..] == next;
    SpanIs(tok + next, k, |tok|);
  }

  // Text with one of three marks is not kept.
  predicate Marked(s: string) { '`' in s || '|' in s || '\\' in s }

  function Washed(s: string): string { if Marked(s) then "STR_TAINTED" else s }

  // What becomes of a URL: the query is kept as it is.
  function WashedUrl(u: Url): Url {
    u.(scheme := Washed(u.scheme), host := Washed(u.host), path := Washed(u.path), fragment := Washed(u.fragment))
  }

  predicate Unmarked(u: Url) {
    !Marked(u.scheme) && !Marked(u.host) && !Marked(u.path) && !Marked(u.fragment)
  }

  lemma MarkedIs(s: string)
    ensures IsTainted(s) <==> Marked(s)
  {
    if IsTainted(s) { var i :| 0 <= i < |s| && IsMark(s[i]); }
  }

  lemma PlainText(k: Class, s: string)
    requires Plain(k, s)
    ensures Text(s) == Washed(s)
  {
    CStrClean(s);
    MarkedIs(s);
  }

  lemma NeverMarked(tok: string)
    ensures !Marked(Text(tok))
  {
    MarkedIs(CStr(tok));
  }

  // A URL without marks is kept, and no URL with one is.
  lemma WashedIs(u: Url)
    ensures WashedUrl(u) == u <==> Unmarked(u)
  {
  }

  lemma PartTrip(part: string, open: char, stops: set<char>, next: string)
    requires All(Word(stops), part) && next != "" && !Has(Word(stops), next[0]) && next[0] != open
    ensures ParsePart((if part != "" then [open] + part else "") + next, open, stops) == Got(part, next)
  {
    if part != "" {
      SpanText(part, Word(stops), next);
      assert ([open] + part + next)[1..] == part + next;
    } else {
      assert "" + next == next;
    }
  }

  // A port is any digits: their value is cut to 16 bits, and to the largest
  // unsigned long before that; none of them mean 0, not the default.
  lemma PortAny(digits: string, next: string, default: nat)
    requires All(Digit, digits) && next != "" && !IsDigit(next[0])
    ensures var v := DigitsValue(digits);
      ParsePort(":" + (digits + next), default) == Got((if v > ULONG_MAX then ULONG_MAX else v) % 65536, next)
  {
    SpanText(digits, Digit, next);
    assert (":" + (digits + next))[1..] == digits + next;
  }

  lemma SmallPort(n: nat)
    requires n < 65536
    ensures n % 65536 == n && n <= ULONG_MAX
  {
  }

  lemma PortTrip(u: Url, default: nat, next: string)
    requires u.port < 65536 && next != "" && !IsDigit(next[0]) && next[0] != ':'
    ensures ParsePort(PortText(u) + next, default) == Got(if u.port == 0 then default else u.port, next)
  {
    if u.port != 0 {
      DecValue(u.port);
      SmallPort(u.port);
      PortAny(Dec(u.port), next, default);
      assert ":" + Dec(u.port) + next == ":" + (Dec(u.port) + next);
    } else {
      assert "" + next == next;
    }
  }

  lemma CStrPrefix(a: string, b: string)
    requires Clean(a)
    ensures |CStr(a + b)| >= |a| && CStr(a + b)[..|a|] == a
  {
    var n := Span(a + b, Until({'\0'}));
    forall i | 0 <= i < |a| ensures Has(Until({'\0'}), (a + b)[i]) { assert (a + b)[i] == a[i]; }
    assert (a + b)[..n][..|a|] == a;
  }

  // The text before "://" is what strchr finds.
  lemma SchemeFound(scheme: string, rest: string)
    requires All(Word({':'}), scheme) && Clean(scheme)
    ensures var mem := CStr(scheme + "://" + rest); var n := |scheme|;
      && Span(mem, Until({':'})) == n && n + 2 < |mem| && mem[n + 1] == '/' && mem[n + 2] == '/'
  {
    var a := scheme + "://";
    CStrPrefix(a, rest);
    var mem := CStr(a + rest);
    forall i | 0 <= i < |a| ensures mem[i] == a[i] { assert mem[i] == mem[..|a|][i]; }
    forall i | 0 <= i < |scheme| ensures Has(Until({':'}), mem[..|scheme|][i]) {
      assert Has(Word({':'}), scheme[i]) && mem[i] == a[i];
    }
    SpanIs(mem, Until({':'}), |scheme|);
  }

  // What the parser makes of a text that strchr finds a scheme in.
  lemma SchemeTaken(s: string, slack: string, n: nat)
    requires SchemeEnd(s, slack) == n && |s| >= n + 4
    ensures ParseScheme(s, slack) == Got(Text(s[..n]), s[n + 3..])
  {
  }

  lemma SchemeEndIs(scheme: string, next: string, slack: string)
    requires All(Word({':'}), scheme) && Clean(scheme)
    ensures SchemeEnd(scheme + ("://" + next), slack) == |scheme|
  {
    assert scheme + ("://" + next) + slack == scheme + "://" + (next + slack);
    SchemeFound(scheme, next + slack);
  }

  lemma SchemeTrip(u: Url, next: string, slack: string)
    requires WellFormed(u) && next != ""
    ensures ParseScheme(u.scheme + ("://" + next), slack) == Got(Washed(u.scheme), next)
  {
    var s := u.scheme + ("://" + next);
    SchemeEndIs(u.scheme, next, slack);
    SchemeTaken(s, slack, |u.scheme|);
    assert s[..|u.scheme|] == u.scheme && s[|u.scheme| + 3..] == next;
    PlainText(Word({':'}), u.scheme);
  }

  predicate PairOk(p: Query) {
    && All(Word({'=', '#'}), p.key) && Clean(p.key)
    && All(Word({'&', '#'}), p.value) && Clean(p.value)
  }

  // One turn of the loop over the pairs.
  lemma QueryStep(s: string, key: string, v: string, value: string, more: string)
    requires s != "" && Span(s, Word({'='})) == |key| < |s| && s[..|key|] == key
    requires s[|key|] == '=' && v == s[|key| + 1..]
    requires Span(v, Word({'&'})) == |value| && v[..|value|] == value && v[|value|..] == more
    requires more == "" || more[0] == '&'
    ensures var r := QueryPairs(if more == "" then "" else more[1..]);
            QueryPairs(s) == if r.Got? then Got([Query(key, value)] + r.value, r.rest) else Bad
  {
    if more != "" { assert v[|value| + 1..] == more[1..]; }
  }

  lemma FirstPair(p: Query, more: string)
    requires PairOk(p) && (more == "" || more[0] == '&')
    ensures var r := QueryPairs(if more == "" then "" else more[1..]);
            QueryPairs(PairText(p) + more) == if r.Got? then Got([p] + r.value, r.rest) else Bad
  {
    var v := p.value + more;
    var tail := "=" + v;
    assert forall c :: Has(Word({'=', '#'}), c) ==> Has(Word({'='}), c);
    assert forall c :: Has(Word({'&', '#'}), c) ==> Has(Word({'&'}), c);
    SpanText(p.key, Word({'='}), tail);
    SpanText(p.value, Word({'&'}), more);
    PairShape(p.key, p.value, more);
    QueryStep(p.key + tail, p.key, v, p.value, more);
  }

  lemma PairShape(key: string, value: string, more: string)
    ensures key + "=" + value + more == key + ("=" + (value + more))
    ensures (key + ("=" + (value + more)))[|key| + 1..] == value + more
  {
  }

  lemma PairPlain(p: Query)
    requires PairOk(p)
    ensures Clean(PairText(p)) && All(Word({'#'}), PairText(p)) && PairText(p) != ""
  {
    var t := PairText(p);
    forall i | 0 <= i < |t| ensures Has(Word({'#'}), t[i]) && t[i] != '\0' {
      if i < |p.key| {
        assert t[i] == p.key[i] && Has(Word({'=', '#'}), p.key[i]);
      } else if i > |p.key| {
        assert t[i] == p.value[i - |p.key| - 1] && Has(Word({'&', '#'}), t[i]);
      }
    }
  }

  lemma {:induction false} PairsPlain(q: seq<Query>)
    requires forall i :: 0 <= i < |q| ==> PairOk(q[i])
    ensures Clean(PairsText(q)) && All(Word({'#'}), PairsText(q))
    ensures q != [] ==> PairsText(q) != ""
  {
    if q != [] {
      PairPlain(q[0]);
      PairsPlain(q[1..]);
    }
  }

  lemma PairsShape(q: seq<Query>)
    requires |q| > 1
    ensures PairsText(q) == PairText(q[0]) + ("&" + PairsText(q[1..]))
  {
    CatAssoc(PairText(q[0]), "&", PairsText(q[1..]));
  }

  predicate PairsOk(q: seq<Query>) { forall i :: 0 <= i < |q| ==> PairOk(q[i]) }

  // One pair in front of others.
  lemma PairInFront(p: Query, q: seq<Query>, s: string, t: string)
    requires PairOk(p) && QueryPairs(s) == Got(q, "") && t == PairText(p) + ("&" + s)
    ensures QueryPairs(t) == Got([p] + q, "")
  {
    assert ("&" + s)[1..] == s;
    FirstPair(p, "&" + s);
  }

  lemma PairsTextIs(p: Query, q: seq<Query>, end: string)
    requires q != []
    ensures PairsText([p] + q) + end == PairText(p) + ("&" + (PairsText(q) + end))
  {
    assert ([p] + q)[1..] == q;
    PairsShape([p] + q);
    CatAssoc(PairText(p), "&" + PairsText(q), end);
    CatAssoc("&", PairsText(q), end);
  }

  // The last pair, and perhaps a '&' after it.
  lemma OnePair(p: Query, end: string)
    requires PairOk(p) && (end == "" || end == "&")
    ensures QueryPairs(PairsText([p]) + end) == Got([p], "")
  {
    FirstPair(p, end);
    assert PairText(p) == PairsText([p]) && [p] + [] == [p];
  }

  lemma {:induction false} PairsRead(q: seq<Query>, end: string)
    requires PairsOk(q) && q != [] && (end == "" || end == "&")
    ensures QueryPairs(PairsText(q) + end) == Got(q, "")
  {
    if |q| == 1 {
      assert q == [q[0]];
      OnePair(q[0], end);
    } else {
      PairsRead(q[1..], end);
      assert [q[0]] + q[1..] == q;
      PairsTextIs(q[0], q[1..], end);
      PairInFront(q[0], q[1..], PairsText(q[1..]) + end, PairsText(q) + end);
    }
  }

  lemma {:induction false} PairsTrip(q: seq<Query>)
    requires forall i :: 0 <= i < |q| ==> PairOk(q[i])
    ensures QueryPairs(PairsText(q)) == Got(q, "")
  {
    if q != [] {
      PairsRead(q, "");
      assert PairsText(q) + "" == PairsText(q);
    }
  }

  // The text of some pairs, or of one at least and a '&'.
  predicate PairsAre(t: string, q: seq<Query>) {
    PairsOk(q) && (t == PairsText(q) || (q != [] && t == PairsText(q) + "&"))
  }

  lemma PairsAreCons(p: Query, q: seq<Query>, tail: string)
    requires PairOk(p) && PairsAre(tail, q)
    ensures PairsAre(PairText(p) + ("&" + tail), [p] + q)
  {
    assert ([p] + q)[1..] == q;
    if q == [] {
      assert PairText(p) + ("&" + tail) == PairsText([p]) + "&";
    } else {
      PairsShape([p] + q);
      assert PairsText([p] + q) + "&" == PairText(p) + ("&" + (PairsText(q) + "&"));
    }
  }

  // Whatever is read is in the text.
  lemma {:induction false} ReadPairs(t: string)
    requires All(Word({'#'}), t) && Clean(t)
    ensures QueryPairs(t).Got? ==> QueryPairs(t).rest == "" && PairsAre(t, QueryPairs(t).value)
    decreases |t|
  {
    if t != "" && QueryPairs(t).Got? {
      var n := Span(t, Word({'='}));
      var v := t[n + 1..];
      var m := Span(v, Word({'&'}));
      var p := Query(t[..n], v[..m]);
      PairWithin(t, n, m);
      if m < |v| {
        assert v[m] == '&' by { assert Has(Word({'#'}), t[n + 1 + m]); }
        ReadPairs(v[m + 1..]);
        ReadMore(t, n, m, p);
      } else {
        ReadLast(t, n, p);
      }
    }
  }

  lemma KeyEnds(t: string)
    requires t != "" && QueryPairs(t).Got?
    ensures var n := Span(t, Word({'='})); n < |t| && t[n] == '='
  {
  }

  // A text that is a key, '=' and v.
  lemma SplitAtKey(t: string, n: nat, v: string, m: nat, more: string)
    requires n < |t| && t[n] == '=' && v == t[n + 1..] && m <= |v| && more == v[m..]
    ensures t == PairText(Query(t[..n], v[..m])) + more
  {
    PairShape(t[..n], v[..m], more);
    assert v == v[..m] + more;
    assert t == t[..n] + ("=" + v);
  }

  lemma ReadLast(t: string, n: nat, p: Query)
    requires t != "" && QueryPairs(t).Got? && n == Span(t, Word({'='})) < |t| && Span(t[n + 1..], Word({'&'})) == |t[n + 1..]|
    requires p == Query(t[..n], t[n + 1..]) && PairOk(p)
    ensures QueryPairs(t).rest == "" && PairsAre(t, QueryPairs(t).value)
  {
    var v := t[n + 1..];
    KeyEnds(t);
    QueryStep(t, p.key, v, v, "");
    SplitAtKey(t, n, v, |v|, "");
    assert v[..|v|] == v && PairText(p) + "" == PairText(p) && [p] + [] == [p];
    assert PairsText([p]) == PairText(p);
  }

  lemma ReadMore(t: string, n: nat, m: nat, p: Query)
    requires t != "" && QueryPairs(t).Got? && n == Span(t, Word({'='})) < |t| && m < |t[n + 1..]|
    requires m == Span(t[n + 1..], Word({'&'})) && t[n + 1..][m] == '&' && p == Query(t[..n], t[n + 1..][..m]) && PairOk(p)
    requires var r := QueryPairs(t[n + 1..][m + 1..]); r.Got? ==> r.rest == "" && PairsAre(t[n + 1..][m + 1..], r.value)
    ensures QueryPairs(t).rest == "" && PairsAre(t, QueryPairs(t).value)
  {
    var v := t[n + 1..];
    var tail := v[m + 1..];
    var more := v[m..];
    KeyEnds(t);
    AtDelimiter(v, m);
    QueryStep(t, p.key, v, p.value, more);
    SplitAtKey(t, n, v, m, more);
    ReadOn(t, more, tail, p);
  }

  lemma AtDelimiter(v: string, m: nat)
    requires m < |v| && v[m] == '&'
    ensures v[m..] == "&" + v[m + 1..] && v[m..][1..] == v[m + 1..]
  {
  }

  lemma ReadOn(t: string, more: string, tail: string, p: Query)
    requires PairOk(p) && more == "&" + tail && t == PairText(p) + more && QueryPairs(t).Got?
    requires var r := QueryPairs(tail);
      && QueryPairs(t) == (if r.Got? then Got([p] + r.value, r.rest) else Bad)
      && (r.Got? ==> r.rest == "" && PairsAre(tail, r.value))
    ensures QueryPairs(t).rest == "" && PairsAre(t, QueryPairs(t).value)
  {
    PairsAreCons(p, QueryPairs(tail).value, tail);
  }

  lemma PairWithin(t: string, n: nat, m: nat)
    requires All(Word({'#'}), t) && Clean(t) && n < |t| && n + 1 + m <= |t|
    requires n == Span(t, Word({'='})) && m == Span(t[n + 1..], Word({'&'}))
    ensures PairOk(Query(t[..n], t[n + 1..][..m]))
  {
    forall i | 0 <= i < n ensures Has(Word({'=', '#'}), t[i]) {
      assert Has(Word({'#'}), t[i]) && Has(Word({'='}), t[..n][i]);
    }
    var v := t[n + 1..];
    forall i | 0 <= i < m ensures Has(Word({'&', '#'}), v[i]) {
      assert Has(Word({'#'}), t[n + 1 + i]) && Has(Word({'&'}), v[..m][i]);
    }
  }

  // set_query accepts exactly the texts of pairs, one '&' at the end allowed,
  // and reads the pairs they are made of; everything else is an error.
  lemma QueryIff(t: string, q: seq<Query>)
    requires All(Word({'#'}), t) && Clean(t)
    ensures QueryPairs(t) == Got(q, "") <==> PairsAre(t, q)
    ensures QueryPairs(t) == Bad || (QueryPairs(t).Got? && PairsAre(t, QueryPairs(t).value))
  {
    ReadPairs(t);
    if PairsAre(t, q) {
      if q == [] {
      } else if t == PairsText(q) {
        PairsTrip(q);
      } else {
        PairsRead(q, "&");
      }
    }
  }

  // What follows the host in a printed URL.
  function AfterHost(u: Url, next: string): string {
    PortText(u) + (PathText(u) + (QueryText(u) + (FragmentText(u) + next)))
  }

  lemma PrintedIs(u: Url, next: string)
    requires u.scheme != ""
    ensures AbsUri(u) + next == u.scheme + ("://" + (u.host + AfterHost(u, next)))
  {
    CatAssoc4(PathText(u), QueryText(u), FragmentText(u), next);
    CatAssoc6(u.scheme, "://", u.host, PortText(u), AbsPath(u), next);
  }

  lemma AfterHostTrip(u: Url, default: nat, next: string)
    requires WellFormed(u) && next != "" && next[0] == ' '
    ensures ParseAfterHost(Washed(u.scheme), Washed(u.host), AfterHost(u, next), default)
         == Got(WashedUrl(u).(port := if u.port == 0 then default else u.port), next)
  {
    var q := FragmentText(u) + next;
    var p := QueryText(u) + q;
    var s := PathText(u) + p;
    PairsPlain(u.query);
    PartTrip(u.fragment, '#', {}, next);
    PartTrip(PairsText(u.query), '?', {'#'}, q);
    PartTrip(u.path, '/', {'?', '#'}, p);
    PortTrip(u, default, s);
    PairsTrip(u.query);
    CStrClean(PairsText(u.query));
    PlainText(Word({'?', '#'}), u.path);
    PlainText(Word({}), u.fragment);
  }

  lemma HostTrip(u: Url, next: string)
    requires WellFormed(u) && next != "" && next[0] == ' ' && Separated(u)
    ensures ParseHost(u.host + AfterHost(u, next)) == Got(Washed(u.host), AfterHost(u, next))
  {
    SpanText(u.host, Word({':', '/'}), AfterHost(u, next));
    PlainText(Word({':', '/'}), u.host);
  }

  // A host that runs on is another host.
  lemma RunsOn(host: string, a: string)
    requires All(Word({':', '/'}), host) && Clean(host)
    requires a != "" && (a[0] == '?' || a[0] == '#')
    ensures var n := Span(host + a, Word({':', '/'})); CStr((host + a)[..n]) != host
  {
    var s := host + a;
    var n := Span(s, Word({':', '/'}));
    SpanGoesOn(host, a);
    assert s[..n] == host + [a[0]] + s[..n][|host| + 1..];
    CStrPrefix(host + [a[0]], s[..n][|host| + 1..]);
  }

  lemma SpanGoesOn(host: string, a: string)
    requires All(Word({':', '/'}), host) && a != "" && Has(Word({':', '/'}), a[0])
    ensures Span(host + a, Word({':', '/'})) > |host|
  {
    var s := host + a;
    forall i | 0 <= i <= |host| ensures Has(Word({':', '/'}), s[i]) {
      assert s[i] == if i < |host| then host[i] else a[0];
    }
  }

  // Without a separator the host runs on into the query or fragment. It is
  // another host, unless it is tainted and so was called the same.
  lemma Swallowed(u: Url, next: string)
    requires WellFormed(u) && !Separated(u) && Unmarked(u)
    ensures var s := u.host + AfterHost(u, next); var n := Span(s, Word({':', '/'}));
      ParseHost(s).value != u.host || (u.host == TAINTED && IsTainted(s[..n]))
  {
    var a := AfterHost(u, next);
    assert a != "" && (a[0] == '?' || a[0] == '#');
    RunsOn(u.host, a);
  }

  // ---- What a host swallowed is missing from the query.

  function Marks(s: string): nat {
    if s == "" then 0 else (if IsMark(s[0]) then 1 else 0) + Marks(s[1..])
  }

  lemma {:induction false} MarksCat(a: string, b: string)
    ensures Marks(a + b) == Marks(a) + Marks(b)
  {
    if a == "" {
      assert a + b == b;
    } else {
      MarksCat(a[1..], b);
      assert (a + b)[1..] == a[1..] + b;
    }
  }

  lemma {:induction false} MarksTaint(s: string)
    ensures IsTainted(s) <==> Marks(s) > 0
  {
    if s != "" {
      MarksTaint(s[1..]);
      if i :| 0 <= i < |s| && IsMark(s[i]) {
        if i > 0 { assert s[1..][i - 1] == s[i]; }
      }
      if IsTainted(s[1..]) {
        var i :| 0 <= i < |s[1..]| && IsMark(s[1..][i]);
        assert s[i + 1] == s[1..][i];
      }
    }
  }

  lemma PairMarks(p: Query)
    ensures Marks(PairText(p)) == Marks(p.key) + Marks(p.value)
  {
    MarksCat(p.key, "=");
    MarksCat(p.key + "=", p.value);
    assert "="[1..] == "";
  }

  lemma PairsMarks(p: Query, q: seq<Query>)
    ensures Marks(PairsText([p] + q)) == Marks(PairText(p)) + Marks(PairsText(q))
  {
    assert ([p] + q)[1..] == q;
    if q != [] {
      PairsShape([p] + q);
      MarksCat(PairText(p), "&" + PairsText(q));
      MarksCat("&", PairsText(q));
      assert "&"[1..] == "";
    }
  }

  lemma MarksSplit(s: string, n: nat)
    requires n <= |s|
    ensures Marks(s) == Marks(s[..n]) + Marks(s[n..])
  {
    MarksCat(s[..n], s[n..]);
    assert s[..n] + s[n..] == s;
  }

  // The pairs are made of the text they are read from.
  lemma {:induction false} QueryMarks(t: string)
    ensures var r := QueryPairs(t); r.Got? ==> Marks(PairsText(r.value)) <= Marks(t)
    decreases |t|
  {
    if t != "" && QueryPairs(t).Got? {
      var n := Span(t, Word({'='}));
      var v := t[n + 1..];
      var m := Span(v, Word({'&'}));
      var more := if m < |v| && v[m] == '&' then v[m + 1..] else v[m..];
      QueryMarks(more);
      MarksSplit(t, n);
      MarksSplit(t[n..], 1);
      assert t[n..][1..] == v;
      MarksSplit(v, m);
      if more != v[m..] { MarksSplit(v[m..], 1); assert v[m..][1..] == more; }
      PairMarks(Query(t[..n], v[..m]));
      PairsMarks(Query(t[..n], v[..m]), QueryPairs(more).value);
    }
  }

  // The marks before the first whitespace.
  function Ahead(s: string): nat { Marks(s[..Span(s, Word({}))]) }

  lemma AheadSplit(s: string, n: nat)
    requires n <= |s| && All(Word({}), s[..n])
    ensures Ahead(s) == Marks(s[..n]) + Ahead(s[n..])
  {
    var m := Span(s[n..], Word({}));
    forall i | 0 <= i < n + m ensures Has(Word({}), s[i]) {
      assert s[i] == if i < n then s[..n][i] else s[n..][..m][i - n];
    }
    SpanIs(s, Word({}), n + m);
    assert s[..n + m] == s[..n] + s[n..][..m];
    MarksCat(s[..n], s[n..][..m]);
  }

  lemma AheadWord(s: string, stops: set<char>)
    ensures var n := Span(s, Word(stops)); Ahead(s) == Marks(s[..n]) + Ahead(s[n..])
  {
    var n := Span(s, Word(stops));
    forall i | 0 <= i < n ensures Has(Word({}), s[..n][i]) { assert Has(Word(stops), s[..n][i]); }
    AheadSplit(s, n);
  }

  lemma PartMarks(s: string, open: char, stops: set<char>)
    requires !IsSpace(open)
    ensures var r := ParsePart(s, open, stops); r.Got? ==> Marks(r.value) + Ahead(r.rest) <= Ahead(s)
  {
    if |s| > 1 && s[0] == open {
      AheadSplit(s, 1);
      AheadWord(s[1..], stops);
    }
  }

  lemma PortMarks(s: string, default: nat)
    ensures var r := ParsePort(s, default); r.Got? ==> Ahead(r.rest) <= Ahead(s)
  {
    if |s| > 1 && s[0] == ':' {
      var n := Span(s[1..], Digit);
      AheadSplit(s, 1);
      forall i | 0 <= i < n ensures Has(Word({}), s[1..][..n][i]) { assert Has(Digit, s[1..][..n][i]); }
      AheadSplit(s[1..], n);
    }
  }

  lemma TailMarks(s: string)
    ensures var r := ParseTail(s); r.Got? ==> Marks(PairsText(r.value.0)) <= Ahead(s)
  {
    PartMarks(s, '?', {'#'});
    var q := ParsePart(s, '?', {'#'});
    if q.Got? {
      QueryMarks(CStr(q.value));
      MarksSplit(q.value, Span(q.value, Until({'\0'})));
    }
  }

  lemma AfterHostMarks(scheme: string, host: string, s: string, default: nat)
    ensures var r := ParseAfterHost(scheme, host, s, default); r.Got? ==> Marks(PairsText(r.value.query)) <= Ahead(s)
  {
    PortMarks(s, default);
    var p := ParsePort(s, default);
    if p.Got? {
      PartMarks(p.rest, '/', {'?', '#'});
      var t := ParsePart(p.rest, '/', {'?', '#'});
      if t.Got? { TailMarks(t.rest); }
    }
  }

  lemma PlainHasNone(s: string)
    requires !Marked(s)
    ensures Marks(s) == 0
  {
    MarkedIs(s);
    MarksTaint(s);
  }

  // The host, query and fragment of a printed URL without separator.
  function HostAndQuery(u: Url): string { u.host + (QueryText(u) + FragmentText(u)) }

  lemma HostAndQueryIs(u: Url, next: string)
    requires !Separated(u)
    ensures u.host + AfterHost(u, next) == HostAndQuery(u) + next
  {
    CatAssoc(u.host, QueryText(u) + FragmentText(u), next);
    CatAssoc(QueryText(u), FragmentText(u), next);
    assert AfterHost(u, next) == QueryText(u) + (FragmentText(u) + next);
  }

  lemma AheadOfSpace(text: string, next: string)
    requires All(Word({}), text) && next != "" && next[0] == ' '
    ensures Ahead(text + next) == Marks(text)
  {
    SpanIs(text + next, Word({}), |text|);
    assert (text + next)[..|text|] == text;
  }

  // All the marks of a printed URL are in its query.
  lemma PrintedMarks(u: Url, next: string)
    requires WellFormed(u) && !Separated(u) && Unmarked(u) && next != "" && next[0] == ' '
    ensures Ahead(u.host + AfterHost(u, next)) == Marks(PairsText(u.query))
  {
    HostAndQueryIs(u, next);
    QueryOnly(u);
    NoSpaces(u);
    AheadOfSpace(HostAndQuery(u), next);
  }

  lemma QueryOnly(u: Url)
    requires WellFormed(u) && Unmarked(u)
    ensures Marks(HostAndQuery(u)) == Marks(PairsText(u.query))
  {
    MarksCat(u.host, QueryText(u) + FragmentText(u));
    MarksCat(QueryText(u), FragmentText(u));
    MarksCat("?", PairsText(u.query));
    MarksCat("#", u.fragment);
    PlainHasNone(u.host);
    PlainHasNone(u.fragment);
    assert "?"[1..] == "" && "#"[1..] == "";
  }

  lemma NoSpaces(u: Url)
    requires WellFormed(u)
    ensures All(Word({}), HostAndQuery(u))
  {
    PairsPlain(u.query);
    assert forall c :: Has(Word({':', '/'}), c) ==> Has(Word({}), c);
    assert forall c :: Has(Word({'#'}), c) ==> Has(Word({}), c);
  }

  // If the host was called the same, the query is another one.
  lemma SwallowedTaint(u: Url, next: string, default: nat)
    requires WellFormed(u) && !Separated(u) && Unmarked(u) && next != "" && next[0] == ' '
    requires var s := u.host + AfterHost(u, next); IsTainted(s[..Span(s, Word({':', '/'}))])
    ensures var h := ParseHost(u.host + AfterHost(u, next));
      var r := ParseAfterHost(u.scheme, h.value, h.rest, default); r.Got? ==> r.value.query != u.query
  {
    var s := u.host + AfterHost(u, next);
    var h := ParseHost(s);
    AheadWord(s, {':', '/'});
    MarksTaint(s[..Span(s, Word({':', '/'}))]);
    AfterHostMarks(u.scheme, h.value, h.rest, default);
    PrintedMarks(u, next);
  }

  // ---- A URL without a scheme.

  // The first ':' of a C string is followed by "//".
  predicate ShowsScheme(t: string) {
    exists p :: 0 <= p && p + 3 <= |t| && t[p..p + 3] == "://" && ':' !in t[..p] && '\0' !in t[..p]
  }

  lemma FirstColon(t: string, p: nat)
    requires p + 3 <= |t| && t[p..p + 3] == "://" && ':' !in t[..p] && '\0' !in t[..p]
    ensures var mem := CStr(t); Span(mem, Until({':'})) == p && p + 2 < |mem| && mem[p + 1] == '/' && mem[p + 2] == '/'
  {
    var a := t[..p + 3];
    assert t == a + t[p + 3..];
    forall i | 0 <= i < |a| ensures a[i] != '\0' && (i < p ==> a[i] != ':') && (i >= p ==> a[i] == "://"[i - p]) {
      if i < p { assert a[i] == t[..p][i]; } else { assert a[i] == t[p..p + 3][i - p]; }
    }
    CStrPrefix(a, t[p + 3..]);
    var mem := CStr(t);
    forall i | 0 <= i < |a| ensures mem[i] == a[i] { assert mem[i] == mem[..|a|][i]; }
    forall i | 0 <= i < p ensures Has(Until({':'}), mem[..p][i]) { assert mem[..p][i] == mem[i]; }
    SpanIs(mem, Until({':'}), p);
  }

  lemma SchemeFoundAt(s: string, slack: string, p: nat)
    requires SchemeEnd(s, slack) == p
    ensures var t := s + slack; p + 3 <= |t| && t[p..p + 3] == "://" && ':' !in t[..p] && '\0' !in t[..p]
  {
    var t := s + slack;
    var mem := CStr(t);
    assert mem == t[..|mem|];
    assert t[p..p + 3] == mem[p..p + 3] == "://";
    assert t[..p] == mem[..p];
  }

  lemma SchemeShown(s: string, slack: string)
    ensures SchemeEnd(s, slack) >= 0 <==> ShowsScheme(s + slack)
  {
    if SchemeEnd(s, slack) >= 0 { SchemeFoundAt(s, slack, SchemeEnd(s, slack)); }
    if ShowsScheme(s + slack) {
      var t := s + slack;
      var q :| 0 <= q && q + 3 <= |t| && t[q..q + 3] == "://" && ':' !in t[..q] && '\0' !in t[..q];
      FirstColon(t, q);
    }
  }

  // Some text, no scheme, and no whitespace or NUL in front of it.
  lemma StartsPlain(u: Url, next: string)
    requires WellFormed(u) && u.scheme == "" && AbsUri(u) != ""
    ensures var s := AbsUri(u) + next; s[0] == AbsUri(u)[0] && s[0] != '\0' && !IsSpace(s[0])
    ensures var s := AbsUri(u) + next; s[0] == ':' ==> |s| > 1 && s[1] != '/'
    ensures AbsUri(u) + next == u.host + AfterHost(u, next)
  {
    var s := AbsUri(u) + next;
    CatAssoc4(PathText(u), QueryText(u), FragmentText(u), next);
    CatAssoc4(u.host, PortText(u), AbsPath(u), next);
    assert AbsUri(u) == u.host + PortText(u) + AbsPath(u);
    if u.host != "" {
      assert Has(Word({':', '/'}), u.host[0]) && s[0] == u.host[0];
    } else if u.port != 0 {
      assert Has(Digit, Dec(u.port)[0]) && s[1] == Dec(u.port)[0];
    }
  }

  lemma SchemeAbsent(s: string, slack: string)
    requires !ShowsScheme(s + slack)
    ensures ParseScheme(s, slack) == Got("", s)
  {
    SchemeShown(s, slack);
  }

  lemma UrlWithoutScheme(s: string, slack: string, default: nat)
    requires s != "" && !IsSpace(s[0]) && s[0] != '\0' && !ShowsScheme(s + slack)
    ensures var h := ParseHost(s); ParseUrl(s, slack, default) == ParseAfterHost("", h.value, h.rest, default)
  {
    NoSpaceFirst(s);
    SchemeAbsent(s, slack);
  }

  // Text that shows a scheme is read with one, or waited for.
  lemma SchemePresent(s: string, slack: string)
    requires ShowsScheme(s + slack) && s != "" && (s[0] == ':' ==> |s| > 1 && s[1] != '/')
    ensures var r := ParseScheme(s, slack); r.More? || (r.Got? && r.value != "")
  {
    SchemeShown(s, slack);
    var p := SchemeEnd(s, slack);
    var t := s + slack;
    SchemeFoundAt(s, slack, p);
    if p == 0 {
      assert t[0] == t[0..3][0] && t[1] == t[0..3][1];
    } else if |s| - p >= 4 {
      assert s[..p] == t[..p];
      CStrClean(s[..p]);
    }
  }

  // ---- The whole URL.

  // Whether the text names a scheme exactly if the URL has one. text is what
  // strchr searches: the printed URL and the memory from there on.
  predicate Named(u: Url, text: string) { u.scheme != "" || (AbsUri(u) != "" && !ShowsScheme(text)) }

  lemma UpToHost(u: Url, next: string, slack: string, default: nat)
    requires WellFormed(u) && next != "" && Named(u, AbsUri(u) + next + slack)
    ensures var h := ParseHost(u.host + AfterHost(u, next));
            ParseUrl(AbsUri(u) + next, slack, default) == ParseAfterHost(Washed(u.scheme), h.value, h.rest, default)
  {
    if u.scheme == "" {
      StartsPlain(u, next);
      UrlWithoutScheme(AbsUri(u) + next, slack, default);
    } else {
      var s := u.scheme + ("://" + (u.host + AfterHost(u, next)));
      PrintedIs(u, next);
      assert s[0] == u.scheme[0] && Has(Word({':'}), u.scheme[0]) && u.scheme[0] != '\0';
      NoSpaceFirst(s);
      SchemeTrip(u, u.host + AfterHost(u, next), slack);
    }
  }

  lemma NoSpaceFirst(s: string)
    requires s != "" && !IsSpace(s[0])
    ensures Token(s, Space) == Got("", s)
  {
    SpanIs(s, Space, 0);
    assert s[0..] == s && s[..0] == "";
  }

  // What is read of a printed URL that is followed by a space, whatever memory
  // follows: its parts, each without marks, and no character is left over.
  lemma UrlRead(u: Url, rest: string, slack: string, default: nat)
    requires WellFormed(u) && Separated(u) && Named(u, AbsUri(u) + (" " + rest) + slack)
    ensures ParseUrl(AbsUri(u) + (" " + rest), slack, default)
         == Got(WashedUrl(u).(port := if u.port == 0 then default else u.port), " " + rest)
  {
    UpToHost(u, " " + rest, slack, default);
    HostTrip(u, " " + rest);
    AfterHostTrip(u, default, " " + rest);
  }

  // Whitespace in front of a URL is skipped.
  lemma SpaceSkipped(space: string, s: string, slack: string, default: nat)
    requires All(Space, space) && s != "" && !IsSpace(s[0]) && s[0] != '\0'
    ensures ParseUrl(space + s, slack, default) == ParseUrl(s, slack, default)
  {
    NoSpaceFirst(s);
    TokenText(space, Space, s);
    assert space != "" ==> (space + s)[0] == space[0] && Has(Space, space[0]);
    assert space == "" ==> space + s == s;
  }

  // No URL is read with a mark outside its query.
  lemma ReadUnmarked(s: string, slack: string, default: nat)
    ensures var r := ParseUrl(s, slack, default); r.Got? ==> Unmarked(r.value)
  {
    var r0 := Token(s, Space);
    if s != "" && r0.Got? {
      var r1 := ParseScheme(r0.rest, slack);
      if r1.Got? {
        var p := SchemeEnd(r0.rest, slack);
        if p >= 0 { NeverMarked(r0.rest[..p]); }
        var r2 := ParseHost(r1.rest);
        NeverMarked(r1.rest[..Span(r1.rest, Word({':', '/'}))]);
        RestUnmarked(r1.value, r2.value, r2.rest, default);
      }
    }
  }

  lemma RestUnmarked(scheme: string, host: string, s: string, default: nat)
    requires !Marked(scheme) && !Marked(host)
    ensures var r := ParseAfterHost(scheme, host, s, default); r.Got? ==> Unmarked(r.value)
  {
    var r1 := ParsePort(s, default);
    if r1.Got? {
      var r2 := ParsePart(r1.rest, '/', {'?', '#'});
      if r2.Got? {
        NeverMarked(r2.value);
        var r3 := ParsePart(r2.rest, '?', {'#'});
        if r3.Got? {
          var r4 := ParsePart(r3.rest, '#', {});
          if r4.Got? { NeverMarked(r4.value); }
        }
      }
    }
  }

  // Without a separator another host is read, or another query.
  lemma Unseparated(u: Url, rest: string, slack: string, default: nat)
    requires WellFormed(u) && !Separated(u) && Unmarked(u) && Named(u, AbsUri(u) + (" " + rest) + slack)
    ensures var r := ParseUrl(AbsUri(u) + (" " + rest), slack, default);
            r.Got? ==> r.value.host != u.host || (u.host == TAINTED && r.value.query != u.query)
  {
    UpToHost(u, " " + rest, slack, default);
    Swallowed(u, " " + rest);
    var s := u.host + AfterHost(u, " " + rest);
    if IsTainted(s[..Span(s, Word({':', '/'}))]) { SwallowedTaint(u, " " + rest, default); }
  }

  // Of a URL without a scheme, text that shows one is read with a scheme.
  lemma OtherScheme(u: Url, next: string, slack: string, default: nat)
    requires WellFormed(u) && u.scheme == "" && AbsUri(u) != "" && ShowsScheme(AbsUri(u) + next + slack)
    ensures var r := ParseUrl(AbsUri(u) + next, slack, default); r.Got? ==> r.value.scheme != ""
  {
    StartsPlain(u, next);
    SchemePresent(AbsUri(u) + next, slack);
    SchemeStays(AbsUri(u) + next, slack, default);
  }

  lemma SchemeStays(s: string, slack: string, default: nat)
    requires s != "" && !IsSpace(s[0])
    ensures var r1, r := ParseScheme(s, slack), ParseUrl(s, slack, default);
      r.Got? ==> r1.Got? && r.value.scheme == r1.value
  {
    NoSpaceFirst(s);
  }

  // Section 3 of RFC 3986: a printed URL, followed by a space, is read back
  // whatever memory follows, and no character of it is left over; exactly
  // when something separates its host from its query and fragment, it has no
  // marks, and the text names a scheme only if the URL does.
  lemma UrlRoundTrip(u: Url, rest: string, slack: string, default: nat)
    requires WellFormed(u)
    ensures ParseUrl(AbsUri(u) + (" " + rest), slack, default)
         == Got(u.(port := if u.port == 0 then default else u.port), " " + rest)
        <==> Separated(u) && Unmarked(u) && Named(u, AbsUri(u) + (" " + rest) + slack)
    ensures var r := ParseUrl(AbsUri(u) + (" " + rest), slack, default);
            r.Got? && !Separated(u) && Unmarked(u) && Named(u, AbsUri(u) + (" " + rest) + slack) ==>
              r.value.host != u.host || (u.host == TAINTED && r.value.query != u.query)
  {
    WashedIs(u);
    ReadUnmarked(AbsUri(u) + (" " + rest), slack, default);
    if !Named(u, AbsUri(u) + (" " + rest) + slack) {
      if AbsUri(u) == "" { UrlShrinks(AbsUri(u) + (" " + rest), slack, default); } else { OtherScheme(u, " " + rest, slack, default); }
    } else if Separated(u) {
      UrlRead(u, rest, slack, default);
    } else if Unmarked(u) {
      Unseparated(u, rest, slack, default);
    }
  }

  // A query right after the host is taken for a part of it.
  lemma QueryLost(u: Url)
    requires u == Url("http", "a", 0, "", [Query("k", "v")], "")
    ensures WellFormed(u) && !Separated(u) && ParseHost(u.host + AfterHost(u, " ")) == Got("a?k=v", " ")
  {
    LostIsWellFormed(u);
    LostText(u);
    HostTaken("a?k=v ");
  }

  lemma LostIsWellFormed(u: Url)
    requires u == Url("http", "a", 0, "", [Query("k", "v")], "")
    ensures WellFormed(u)
  {
    assert PairOk(u.query[0]);
  }

  lemma LostText(u: Url)
    requires u == Url("http", "a", 0, "", [Query("k", "v")], "")
    ensures u.host + AfterHost(u, " ") == "a?k=v "
  {
    assert PairsText(u.query) == "k=v";
    assert AfterHost(u, " ") == "?k=v ";
  }

  lemma HostTaken(s: string)
    requires s == "a?k=v "
    ensures ParseHost(s) == Got("a?k=v", " ")
  {
    SpanIs(s, Word({':', '/'}), 5);
    assert s[..5] == "a?k=v" && s[5..] == " ";
    CStrClean("a?k=v");
  }

  // ---- A URL that was read used some of the text, which is how 0 means more.

  lemma PartShrinks(s: string, open: char, stops: set<char>)
    ensures var r := ParsePart(s, open, stops);
            r.Got? ==> |r.rest| <= |s| && (s != "" && s[0] == open ==> |r.rest| < |s|)
  {
  }

  lemma AfterHostShrinks(scheme: string, host: string, s: string, default: nat)
    ensures var r := ParseAfterHost(scheme, host, s, default);
            r.Got? ==> |r.rest| <= |s| && (s != "" && (s[0] == ':' || s[0] == '/') ==> |r.rest| < |s|)
  {
    var r1 := ParsePort(s, default);
    if r1.Got? {
      PartShrinks(r1.rest, '/', {'?', '#'});
      var r2 := ParsePart(r1.rest, '/', {'?', '#'});
      if r2.Got? {
        PartShrinks(r2.rest, '?', {'#'});
        var r3 := ParsePart(r2.rest, '?', {'#'});
        if r3.Got? { PartShrinks(r3.rest, '#', {}); }
      }
    }
  }

  lemma UrlShrinks(s: string, slack: string, default: nat)
    ensures var r := ParseUrl(s, slack, default); r.Got? ==> |r.rest| < |s|
  {
    var r0 := Token(s, Space);
    if s != "" && r0.Got? {
      assert !IsSpace(r0.rest[0]);
      var r1 := ParseScheme(r0.rest, slack);
      if r1.Got? {
        var r2 := ParseHost(r1.rest);
        AfterHostShrinks(r1.value, r2.value, r2.rest, default);
      }
    }
  }
}
