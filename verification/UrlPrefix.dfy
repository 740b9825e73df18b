/** What the URL parser makes of the beginning of a printed URL: it waits, or
    takes what there is, except that a query key without its '=' is an error
    (URL.cc). */
module UrlPrefix {
  import opened Scan
  import opened Url

  // No text is left to decide on: wait for more, or go on with nothing.
  predicate Pends<T>(r: Parse<T>) { r.More? || (r.Got? && r.rest == "") }

  predicate Cuts<T>(r: Parse<T>, cut: bool) { if cut then r == Bad else Pends(r) }

  // ---- The query.

  // The first j characters of the pairs' text end inside a key, or at its end.
  predicate CutsKey(q: seq<Query>, j: nat)
    decreases |q|
  {
    q != [] &&
    (if j <= |q[0].key| then j > 0
     else j > |PairText(q[0])| && CutsKey(q[1..], j - |PairText(q[0])| - 1))
  }

  lemma AllWordPrefix(k: Class, s: string, j: nat)
    requires All(k, s) && Clean(s) && j <= |s|
    ensures All(k, s[..j]) && Clean(s[..j])
  {
  }

  lemma KeyAlone(key: string)
    requires All(Word({'=', '#'}), key) && key != ""
    ensures QueryPairs(key) == Bad
  {
    assert forall c :: Has(Word({'=', '#'}), c) ==> Has(Word({'='}), c);
    SpanIs(key, Word({'='}), |key|);
  }

  lemma PairAlone(p: Query, j: nat)
    requires PairOk(p) && |p.key| < j <= |PairText(p)|
    ensures QueryPairs(PairText(p)[..j]) == Got([Query(p.key, p.value[..j - |p.key| - 1])], "")
  {
    var v := p.value[..j - |p.key| - 1];
    AllWordPrefix(Word({'&', '#'}), p.value, |v|);
    var p' := Query(p.key, v);
    assert PairText(p') + "" == PairText(p)[..j];
    FirstPair(p', "");
    assert [p'] + [] == [p'];
  }

  lemma PairsHead(q: seq<Query>, j: nat)
    requires q != [] && j <= |PairsText(q)| && j <= |PairText(q[0])|
    ensures PairsText(q)[..j] == PairText(q[0])[..j]
  {
    if |q| > 1 { PairsShape(q); }
  }

  lemma PairsRest(q: seq<Query>, j: nat)
    requires q != [] && |PairText(q[0])| < j <= |PairsText(q)|
    ensures var k := j - |PairText(q[0])| - 1;
      && |q| > 1 && k <= |PairsText(q[1..])|
      && PairsText(q)[..j] == PairText(q[0]) + ("&" + PairsText(q[1..])[..k])
  {
    PairsShape(q);
  }

  // What the parser makes of the text t of some pairs, the last one cut.
  predicate CutPairs(t: string, cut: bool) {
    var r := QueryPairs(t);
    if cut then r == Bad else r.Got? && r.rest == ""
  }

  lemma FirstCut(q: seq<Query>, j: nat)
    requires q != [] && PairOk(q[0]) && 0 < j <= |PairsText(q)| && j <= |PairText(q[0])|
    ensures CutPairs(PairsText(q)[..j], CutsKey(q, j))
  {
    var p := q[0];
    PairsHead(q, j);
    if j <= |p.key| {
      AllWordPrefix(Word({'=', '#'}), p.key, j);
      assert PairText(p)[..j] == p.key[..j];
      KeyAlone(p.key[..j]);
    } else {
      PairAlone(p, j);
    }
  }

  lemma LaterCut(p: Query, rest: string, cut: bool)
    requires PairOk(p) && CutPairs(rest, cut)
    ensures CutPairs(PairText(p) + ("&" + rest), cut)
  {
    var more := "&" + rest;
    assert more[1..] == rest;
    FirstPair(p, more);
  }

  lemma {:induction false} PairsCut(q: seq<Query>, j: nat)
    requires j <= |PairsText(q)| && forall i :: 0 <= i < |q| ==> PairOk(q[i])
    ensures CutPairs(PairsText(q)[..j], CutsKey(q, j))
    decreases |q|
  {
    if j == 0 {
      assert PairsText(q)[..0] == "";
    } else if j <= |PairText(q[0])| {
      FirstCut(q, j);
    } else {
      var k := j - |PairText(q[0])| - 1;
      PairsRest(q, j);
      PairsCut(q[1..], k);
      LaterCut(q[0], PairsText(q[1..])[..k], CutsKey(q[1..], k));
    }
  }

  // ---- One part after another.

  lemma PartCut(part: string, open: char, stops: set<char>, j: nat)
    requires All(Word(stops), part) && 0 < j <= 1 + |part|
    ensures ParsePart(([open] + part)[..j], open, stops) == if j == 1 then More else Got(part[..j - 1], "")
  {
    var x := ([open] + part)[..j];
    if j > 1 {
      assert x[1..] == part[..j - 1];
      AllPrefix(Word(stops), part, j - 1);
      SpanIs(x[1..], Word(stops), j - 1);
      assert x[1..][..j - 1] == part[..j - 1] && x[1..][j - 1..] == "";
    }
  }

  lemma Nothing(default: nat)
    ensures ParseTail("") == Got(([], ""), "")
    ensures forall scheme, host :: Pends(ParseAfterHost(scheme, host, "", default))
  {
    CStrClean("");
  }

  lemma CutCat(a: string, b: string, j: nat)
    requires j <= |a + b|
    ensures (a + b)[..j] == if j <= |a| then a[..j] else a + b[..j - |a|]
  {
  }

  // The query and the fragment.
  function TailText(u: Url): string { QueryText(u) + FragmentText(u) }

  predicate TailCutsKey(u: Url, j: nat) { u.query != [] && j > 0 && CutsKey(u.query, j - 1) }

  // The query text alone, cut inside.
  lemma QueryCut(u: Url, j: nat)
    requires WellFormed(u) && j <= |QueryText(u)|
    ensures Cuts(ParseTail(QueryText(u)[..j]), TailCutsKey(u, j))
  {
    Nothing(0);
    if j > 0 {
      PairsPlain(u.query);
      PartCut(PairsText(u.query), '?', {'#'}, j);
      if j > 1 {
        var t := PairsText(u.query)[..j - 1];
        AllWordPrefix(Word({'#'}), PairsText(u.query), j - 1);
        CStrClean(t);
        PairsCut(u.query, j - 1);
      }
    } else {
      assert QueryText(u)[..0] == "";
    }
  }

  lemma {:induction false} BeyondCuts(q: seq<Query>, j: nat)
    requires j > |PairsText(q)|
    ensures !CutsKey(q, j)
    decreases |q|
  {
    if |q| > 1 {
      PairsShape(q);
      BeyondCuts(q[1..], j - |PairText(q[0])| - 1);
    }
  }

  // The query, and some of the fragment.
  lemma FragmentCut(u: Url, j: nat)
    requires WellFormed(u) && 0 < j <= |FragmentText(u)|
    ensures Pends(ParseTail(QueryText(u) + FragmentText(u)[..j]))
  {
    var next := FragmentText(u)[..j];
    PairsPlain(u.query);
    PartTrip(PairsText(u.query), '?', {'#'}, next);
    PairsTrip(u.query);
    CStrClean(PairsText(u.query));
    PartCut(u.fragment, '#', {}, j);
  }

  lemma NoKeyCut(u: Url, j: nat)
    requires j > |QueryText(u)|
    ensures !TailCutsKey(u, j)
  {
    if u.query != [] { BeyondCuts(u.query, j - 1); }
  }

  lemma TailCut(u: Url, j: nat)
    requires WellFormed(u) && j <= |TailText(u)|
    ensures Cuts(ParseTail(TailText(u)[..j]), TailCutsKey(u, j))
  {
    CutCat(QueryText(u), FragmentText(u), j);
    if j <= |QueryText(u)| {
      QueryCut(u, j);
    } else {
      FragmentCut(u, j - |QueryText(u)|);
      NoKeyCut(u, j);
    }
  }

  lemma TailStarts(u: Url, j: nat)
    requires 0 < j <= |TailText(u)|
    ensures TailText(u)[..j][0] == '?' || TailText(u)[..j][0] == '#'
  {
  }

  // ---- What follows the host.

  function PathTail(u: Url): string { PathText(u) + TailText(u) }

  function HostTail(u: Url): string { PortText(u) + PathTail(u) }

  // From the path on.
  function FromPath(s: string): Parse<(string, (seq<Query>, string))> {
    var (path, s2) :- ParsePart(s, '/', {'?', '#'});
    var (tail, rest) :- ParseTail(s2);
    Got((path, tail), rest)
  }

  predicate PathCutsKey(u: Url, j: nat) { j > |PathText(u)| && TailCutsKey(u, j - |PathText(u)|) }

  lemma PathInside(u: Url, j: nat)
    requires WellFormed(u) && j <= |PathText(u)|
    ensures Pends(FromPath(PathText(u)[..j]))
  {
    Nothing(0);
    if j == 0 {
      assert PathText(u)[..0] == "";
    } else {
      PartCut(u.path, '/', {'?', '#'}, j);
    }
  }

  lemma PathBeyond(u: Url, next: string, cut: bool)
    requires WellFormed(u) && next != "" && (next[0] == '?' || next[0] == '#') && Cuts(ParseTail(next), cut)
    ensures Cuts(FromPath(PathText(u) + next), cut)
  {
    PartTrip(u.path, '/', {'?', '#'}, next);
  }

  lemma PathLater(u: Url, k: nat)
    requires WellFormed(u) && 0 < k <= |TailText(u)|
    ensures Cuts(FromPath(PathText(u) + TailText(u)[..k]), TailCutsKey(u, k))
  {
    TailCut(u, k);
    TailStarts(u, k);
    PathBeyond(u, TailText(u)[..k], TailCutsKey(u, k));
  }

  lemma PathTailCut(u: Url, j: nat)
    requires j <= |PathTail(u)|
    ensures PathTail(u)[..j] == if j <= |PathText(u)| then PathText(u)[..j] else PathText(u) + TailText(u)[..j - |PathText(u)|]
  {
    CutCat(PathText(u), TailText(u), j);
  }

  // The same parse of the same text.
  lemma SamePath(s: string, t: string, cut: bool)
    requires s == t && Cuts(FromPath(s), cut)
    ensures Cuts(FromPath(t), cut)
  {
  }

  lemma PathCut(u: Url, j: nat)
    requires WellFormed(u) && j <= |PathTail(u)|
    ensures Cuts(FromPath(PathTail(u)[..j]), PathCutsKey(u, j))
  {
    var t := PathTail(u)[..j];
    PathTailCut(u, j);
    if j <= |PathText(u)| {
      PathInside(u, j);
      SamePath(PathText(u)[..j], t, false);
    } else {
      var k := j - |PathText(u)|;
      PathLater(u, k);
      SamePath(PathText(u) + TailText(u)[..k], t, TailCutsKey(u, k));
    }
  }

  lemma PathStarts(u: Url, j: nat)
    requires 0 < j <= |PathTail(u)|
    ensures var c := PathTail(u)[..j][0]; c == '/' || c == '?' || c == '#'
  {
    if u.path == "" {
      assert PathTail(u) == TailText(u);
      TailStarts(u, j);
    }
  }

  predicate HostCutsKey(u: Url, j: nat) { j > |PortText(u)| && PathCutsKey(u, j - |PortText(u)|) }

  lemma PortBeyond(u: Url, next: string, cut: bool, scheme: string, host: string, default: nat)
    requires WellFormed(u) && next != "" && (next[0] == '/' || next[0] == '?' || next[0] == '#')
    requires Cuts(FromPath(next), cut)
    ensures Cuts(ParseAfterHost(scheme, host, PortText(u) + next, default), cut)
  {
    PortTrip(u, default, next);
  }

  lemma PortCut(u: Url, j: nat, default: nat)
    requires 0 < j <= |PortText(u)|
    ensures ParsePort(PortText(u)[..j], default) ==
      if j == 1 then More else Got(Strtoul(Dec(u.port)[..j - 1]) % 65536, "")
  {
    var x := PortText(u)[..j];
    var d := Dec(u.port);
    AllPrefix(Digit, d, j - 1);
    if j > 1 {
      assert x[1..] == d[..j - 1];
      SpanIs(x[1..], Digit, j - 1);
      assert x[1..][..j - 1] == d[..j - 1] && x[1..][j - 1..] == "";
    }
  }

  lemma PortInside(u: Url, j: nat, scheme: string, host: string, default: nat)
    requires j <= |PortText(u)|
    ensures Pends(ParseAfterHost(scheme, host, PortText(u)[..j], default))
  {
    Nothing(default);
    if j == 0 { assert PortText(u)[..0] == ""; } else { PortCut(u, j, default); }
  }

  lemma PortLater(u: Url, k: nat, scheme: string, host: string, default: nat)
    requires WellFormed(u) && 0 < k <= |PathTail(u)|
    ensures Cuts(ParseAfterHost(scheme, host, PortText(u) + PathTail(u)[..k], default), PathCutsKey(u, k))
  {
    PathCut(u, k);
    PathStarts(u, k);
    PortBeyond(u, PathTail(u)[..k], PathCutsKey(u, k), scheme, host, default);
  }

  lemma HostTailCut(u: Url, j: nat)
    requires j <= |HostTail(u)|
    ensures HostTail(u)[..j] == if j <= |PortText(u)| then PortText(u)[..j] else PortText(u) + PathTail(u)[..j - |PortText(u)|]
  {
    CutCat(PortText(u), PathTail(u), j);
  }

  lemma SameHost(s: string, t: string, cut: bool, scheme: string, host: string, default: nat)
    requires s == t && Cuts(ParseAfterHost(scheme, host, s, default), cut)
    ensures Cuts(ParseAfterHost(scheme, host, t, default), cut)
  {
  }

  lemma AfterHostCut(u: Url, j: nat, scheme: string, host: string, default: nat)
    requires WellFormed(u) && j <= |HostTail(u)|
    ensures Cuts(ParseAfterHost(scheme, host, HostTail(u)[..j], default), HostCutsKey(u, j))
  {
    var t := HostTail(u)[..j];
    HostTailCut(u, j);
    if j <= |PortText(u)| {
      PortInside(u, j, scheme, host, default);
      SameHost(PortText(u)[..j], t, false, scheme, host, default);
    } else {
      var k := j - |PortText(u)|;
      PortLater(u, k, scheme, host, default);
      SameHost(PortText(u) + PathTail(u)[..k], t, PathCutsKey(u, k), scheme, host, default);
    }
  }

  // ---- From the host on.

  function FromHost(scheme: string, s: string, default: nat): Parse<Url> {
    var (host, s2) :- ParseHost(s);
    ParseAfterHost(scheme, host, s2, default)
  }

  function FromHostText(u: Url): string { u.host + HostTail(u) }

  predicate UrlCutsKey(u: Url, j: nat) { j > |u.host| && HostCutsKey(u, j - |u.host|) }

  lemma HostInside(host: string, scheme: string, default: nat)
    requires All(Word({':', '/'}), host)
    ensures Pends(FromHost(scheme, host, default))
  {
    SpanIs(host, Word({':', '/'}), |host|);
    assert host[|host|..] == "";
    Nothing(default);
  }

  lemma HostLater(u: Url, k: nat, scheme: string, default: nat)
    requires WellFormed(u) && Separated(u) && 0 < k <= |HostTail(u)|
    ensures Cuts(FromHost(scheme, u.host + HostTail(u)[..k], default), HostCutsKey(u, k))
  {
    var next := HostTail(u)[..k];
    HostTailStarts(u, k);
    SpanText(u.host, Word({':', '/'}), next);
    AfterHostCut(u, k, scheme, Text(u.host), default);
  }

  lemma HostTailStarts(u: Url, k: nat)
    requires Separated(u) && 0 < k <= |HostTail(u)|
    ensures HostTail(u)[..k][0] == ':' || HostTail(u)[..k][0] == '/'
  {
  }

  lemma HostCut(u: Url, j: nat, scheme: string, default: nat)
    requires WellFormed(u) && Separated(u) && j <= |FromHostText(u)|
    ensures Cuts(FromHost(scheme, FromHostText(u)[..j], default), UrlCutsKey(u, j))
  {
    CutCat(u.host, HostTail(u), j);
    if j <= |u.host| {
      AllPrefix(Word({':', '/'}), u.host, j);
      HostInside(u.host[..j], scheme, default);
    } else {
      HostLater(u, j - |u.host|, scheme, default);
    }
  }

  // ---- The scheme.

  // What is left of "://" after the scheme is waited for, or is no port and
  // no path.
  lemma Separators(scheme: string, default: nat, t: string)
    requires t == "" || t == ":" || t == ":/"
    ensures forall host :: Pends(ParseAfterHost(scheme, host, t, default))
  {
    Nothing(default);
    if t == ":/" {
      assert t[1..] == "/";
      SpanIs(t[1..], Digit, 0);
      assert t[1..][0..] == "/";
    }
  }

  // Also when strchr finds a ':' behind the text, or only part of "://" is there.
  lemma SchemeAlone(scheme: string, t: string, slack: string, default: nat)
    requires All(Word({':'}), scheme) && '/' !in scheme && Clean(scheme) && scheme != ""
    requires t == "" || t == ":" || t == ":/"
    ensures Pends(ParseUrl(scheme + t, slack, default))
  {
    var x := scheme + t;
    assert !IsSpace(scheme[0]) by { assert Has(Word({':'}), scheme[0]); }
    SpanIs(x, Space, 0);
    assert x[0..] == x;
    ColonAt(scheme, t, slack);
    HostAlone(scheme, t);
    Separators("", default, t);
  }

  // The first ':' is not before the end of the scheme.
  lemma ColonAt(scheme: string, t: string, slack: string)
    requires All(Word({':'}), scheme) && Clean(scheme)
    ensures SchemeEnd(scheme + t, slack) < 0 || SchemeEnd(scheme + t, slack) >= |scheme|
  {
    var mem := CStr(scheme + t + slack);
    assert scheme + t + slack == scheme + (t + slack);
    CStrPrefix(scheme, t + slack);
    var n := Span(mem, Until({':'}));
    forall i | 0 <= i < |scheme| ensures Has(Until({':'}), mem[i]) {
      assert mem[..|scheme|][i] == scheme[i] && Has(Word({':'}), scheme[i]);
    }
  }

  lemma HostAlone(scheme: string, t: string)
    requires All(Word({':'}), scheme) && '/' !in scheme && (t == "" || t == ":" || t == ":/")
    ensures ParseHost(scheme + t) == Got(Text(scheme), t)
  {
    forall i | 0 <= i < |scheme| ensures Has(Word({':', '/'}), scheme[i]) {
      assert Has(Word({':'}), scheme[i]);
    }
    SpanText(scheme, Word({':', '/'}), t);
  }

  // All of "://" is there, and nothing else.
  lemma SchemeBare(u: Url, slack: string, default: nat)
    requires WellFormed(u) && u.scheme != ""
    ensures ParseUrl(u.scheme + "://", slack, default) == More
  {
    var x := u.scheme + "://";
    LeadingNone(x);
    SchemeFound(u.scheme, slack);
  }

  lemma LeadingNone(x: string)
    requires x != "" && !IsSpace(x[0])
    ensures Token(x, Space) == Got("", x)
  {
    SpanIs(x, Space, 0);
    assert x[0..] == x && x[..0] == "";
  }

  lemma SchemeLater(u: Url, k: nat, slack: string, default: nat)
    requires WellFormed(u) && u.scheme != "" && Separated(u) && 0 < k <= |FromHostText(u)|
    ensures Cuts(ParseUrl(u.scheme + ("://" + FromHostText(u)[..k]), slack, default), UrlCutsKey(u, k))
  {
    var x := u.scheme + ("://" + FromHostText(u)[..k]);
    assert x[0] == u.scheme[0] && Has(Word({':'}), u.scheme[0]) && u.scheme[0] != '\0';
    LeadingNone(x);
    SchemeTrip(u, FromHostText(u)[..k], slack);
    HostCut(u, k, Washed(u.scheme), default);
  }

  lemma HostAndAll(u: Url)
    ensures u.host + (PortText(u) + AbsPath(u)) == FromHostText(u)
  {
    CatAssoc(PathText(u), QueryText(u), FragmentText(u));
  }

  lemma InFront(a: string, host: string, port: string, path: string)
    ensures a + host + port + path == a + (host + (port + path))
  {
  }

  lemma AbsUriIs(u: Url)
    ensures AbsUri(u) == if u.scheme != "" then u.scheme + ("://" + FromHostText(u)) else FromHostText(u)
  {
    HostAndAll(u);
    if u.scheme != "" {
      InFront(u.scheme + "://", u.host, PortText(u), AbsPath(u));
      CatAssoc(u.scheme, "://", FromHostText(u));
    } else {
      InFront("", u.host, PortText(u), AbsPath(u));
      assert "" + FromHostText(u) == FromHostText(u);
    }
  }

  // The scheme and "://", or nothing.
  function SchemeLen(u: Url): nat { if u.scheme != "" then |u.scheme| + 3 else 0 }

  // Whether the first j characters of the printed URL end inside a key.
  predicate AbsUriCutsKey(u: Url, j: nat) { j > SchemeLen(u) && UrlCutsKey(u, j - SchemeLen(u)) }

  lemma SameUrl(s: string, t: string, slack: string, default: nat, cut: bool)
    requires s == t && Cuts(ParseUrl(s, slack, default), cut)
    ensures Cuts(ParseUrl(t, slack, default), cut)
  {
  }

  // What the first j characters of "://" and a text are.
  lemma SeparatorCut(scheme: string, rest: string, j: nat)
    requires |scheme| < j <= |scheme| + 3 + |rest|
    ensures var k := j - |scheme|;
      (scheme + ("://" + rest))[..j] == if k <= 3 then scheme + "://"[..k] else scheme + ("://" + rest[..k - 3])
  {
  }

  // ---- No scheme.

  // Text without a scheme, but with one in the memory behind it.
  lemma ShownLate(s: string, slack: string, default: nat)
    requires s != "" && !IsSpace(s[0]) && s[0] != '\0' && !ShowsScheme(s) && ShowsScheme(s + slack)
    ensures ParseUrl(s, slack, default) == More
  {
    LeadingNone(s);
    SchemeShown(s, slack);
    var p, t := SchemeEnd(s, slack), s + slack;
    SchemeFoundAt(s, slack, p);
    ShownBefore(s, t, p);
  }

  lemma ShownBefore(s: string, t: string, p: nat)
    requires s <= t && p + 3 <= |t| && t[p..p + 3] == "://" && ':' !in t[..p] && '\0' !in t[..p]
    ensures p + 3 <= |s| ==> ShowsScheme(s)
  {
    if p + 3 <= |s| { assert s[p..p + 3] == t[p..p + 3] && s[..p] == t[..p]; }
  }

  lemma ShownStays(s: string, t: string)
    requires s <= t
    ensures ShowsScheme(s) ==> ShowsScheme(t)
  {
    if ShowsScheme(s) {
      var p :| 0 <= p && p + 3 <= |s| && s[p..p + 3] == "://" && ':' !in s[..p] && '\0' !in s[..p];
      assert t[p..p + 3] == s[p..p + 3] && t[..p] == s[..p];
    }
  }

  // A URL in front of which there is no scheme, and which shows none.
  predicate Addressed(u: Url) { u.scheme != "" || (AbsUri(u) != "" && !ShowsScheme(AbsUri(u))) }

  // The memory behind the text t, which begins the URL, shows a scheme.
  predicate Masked(u: Url, t: string, slack: string) { u.scheme == "" && ShowsScheme(t + slack) }

  lemma WithoutSchemeCut(u: Url, j: nat, slack: string, default: nat)
    requires WellFormed(u) && u.scheme == "" && Addressed(u) && Separated(u) && 0 < j <= |AbsUri(u)|
    ensures var t := AbsUri(u)[..j]; var r := ParseUrl(t, slack, default);
      if Masked(u, t, slack) then r == More else Cuts(r, AbsUriCutsKey(u, j))
  {
    var t := AbsUri(u)[..j];
    StartsPlain(u, "");
    assert AbsUri(u) + "" == AbsUri(u) && t[0] == AbsUri(u)[0];
    ShownStays(t, AbsUri(u));
    if ShowsScheme(t + slack) {
      ShownLate(t, slack, default);
    } else {
      UrlWithoutScheme(t, slack, default);
      AbsUriIs(u);
      HostCut(u, j, "", default);
    }
  }

  // Every proper beginning of a printed URL, and the URL itself: the parser
  // waits or takes it, whatever the memory behind it holds, unless it ends
  // inside a key. That is no error while the memory behind a URL without a
  // scheme shows one.
  lemma UrlCut(u: Url, j: nat, slack: string, default: nat)
    requires WellFormed(u) && Addressed(u) && Separated(u) && '/' !in u.scheme && 0 < j <= |AbsUri(u)|
    ensures var t := AbsUri(u)[..j]; var r := ParseUrl(t, slack, default);
      if Masked(u, t, slack) then r == More else Cuts(r, AbsUriCutsKey(u, j))
  {
    if u.scheme == "" { WithoutSchemeCut(u, j, slack, default); } else { WithSchemeCut(u, j, slack, default); }
  }

  lemma WithSchemeCut(u: Url, j: nat, slack: string, default: nat)
    requires WellFormed(u) && u.scheme != "" && Separated(u) && '/' !in u.scheme && 0 < j <= |AbsUri(u)|
    ensures Cuts(ParseUrl(AbsUri(u)[..j], slack, default), AbsUriCutsKey(u, j))
  {
    var t := AbsUri(u)[..j];
    AbsUriIs(u);
    if j <= |u.scheme| {
      InScheme(u, j, t, slack, default);
    } else {
      SeparatorCut(u.scheme, FromHostText(u), j);
      SeparatedCut(u, j, t, slack, default);
    }
  }

  lemma InScheme(u: Url, j: nat, t: string, slack: string, default: nat)
    requires WellFormed(u) && u.scheme != "" && '/' !in u.scheme && 0 < j <= |u.scheme| && t == u.scheme[..j]
    ensures Pends(ParseUrl(t, slack, default))
  {
    AllWordPrefix(Word({':'}), u.scheme, j);
    SchemeAlone(t, "", slack, default);
    assert t + "" == t;
  }

  // Some or all of "://", and nothing else.
  lemma SeparatorOnly(u: Url, t: string, slack: string, default: nat)
    requires WellFormed(u) && u.scheme != "" && '/' !in u.scheme && (t == ":" || t == ":/" || t == "://")
    ensures Pends(ParseUrl(u.scheme + t, slack, default))
  {
    if t == "://" { SchemeBare(u, slack, default); } else { SchemeAlone(u.scheme, t, slack, default); }
  }

  lemma SeparatorStart(k: nat)
    requires 0 < k <= 3
    ensures var t := "://"[..k]; t == ":" || t == ":/" || t == "://"
  {
  }

  lemma InSeparator(u: Url, j: nat, x: string, slack: string, default: nat)
    requires WellFormed(u) && u.scheme != "" && '/' !in u.scheme && |u.scheme| < j <= |u.scheme| + 3
    requires x == u.scheme + "://"[..j - |u.scheme|]
    ensures Cuts(ParseUrl(x, slack, default), AbsUriCutsKey(u, j))
  {
    SeparatorStart(j - |u.scheme|);
    SeparatorOnly(u, "://"[..j - |u.scheme|], slack, default);
  }

  lemma BehindSeparator(u: Url, j: nat, k: nat, x: string, slack: string, default: nat)
    requires WellFormed(u) && u.scheme != "" && Separated(u) && 0 < k <= |FromHostText(u)| && j == |u.scheme| + 3 + k
    requires x == u.scheme + ("://" + FromHostText(u)[..k])
    ensures Cuts(ParseUrl(x, slack, default), AbsUriCutsKey(u, j))
  {
    SchemeLater(u, k, slack, default);
    CutsKeyIs(u, j, k);
  }

  lemma CutsKeyIs(u: Url, j: nat, k: nat)
    requires u.scheme != "" && k > 0 && j == |u.scheme| + 3 + k
    ensures AbsUriCutsKey(u, j) == UrlCutsKey(u, k)
  {
  }

  lemma SeparatedCut(u: Url, j: nat, x: string, slack: string, default: nat)
    requires WellFormed(u) && u.scheme != "" && Separated(u) && '/' !in u.scheme
    requires |u.scheme| < j <= |u.scheme| + 3 + |FromHostText(u)|
    requires var k := j - |u.scheme|;
      x == if k <= 3 then u.scheme + "://"[..k] else u.scheme + ("://" + FromHostText(u)[..k - 3])
    ensures Cuts(ParseUrl(x, slack, default), AbsUriCutsKey(u, j))
  {
    if j <= |u.scheme| + 3 {
      InSeparator(u, j, x, slack, default);
    } else {
      BehindSeparator(u, j, j - |u.scheme| - 3, x, slack, default);
    }
  }
}
