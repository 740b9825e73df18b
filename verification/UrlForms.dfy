/** Every form of a URL that is read: any part may be there and empty, and a
    part ends at a NUL (URL.cc; section 3 of RFC 3986). */
module UrlForms {
  import opened Scan
  import opened Url

  // A part of a URL behind the character that opens it, if that is there.
  datatype Part = Absent | Given(text: string)

  function PartText(p: Part, open: char): string { if p.Given? then [open] + p.text else "" }

  function Inside(p: Part): string { if p.Given? then p.text else "" }

  datatype Form = Form(host: string, port: Part, path: Part, query: Part, fragment: Part)

  function FromFragment(f: Form, next: string): string { PartText(f.fragment, '#') + next }
  function FromQuery(f: Form, next: string): string { PartText(f.query, '?') + FromFragment(f, next) }
  function FromPath(f: Form, next: string): string { PartText(f.path, '/') + FromQuery(f, next) }
  function FromPort(f: Form, next: string): string { PartText(f.port, ':') + FromPath(f, next) }

  // No part has the characters that end it, and the host ends before a query
  // or a fragment.
  predicate Written(f: Form) {
    && All(Word({':', '/'}), f.host) && All(Digit, Inside(f.port)) && All(Word({'?', '#'}), Inside(f.path))
    && All(Word({'#'}), Inside(f.query)) && All(Word({}), Inside(f.fragment))
    && (f.port.Given? || f.path.Given? || (f.query.Absent? && f.fragment.Absent?))
  }

  // A text up to its first NUL, if it has no mark.
  function Kept(tok: string): string { Washed(CStr(tok)) }

  lemma KeptIs(tok: string)
    ensures Text(tok) == Kept(tok)
  {
    MarkedIs(CStr(tok));
  }

  // The port that is stated, cut to 16 bits, and 0 if no digit follows the
  // ':'; or else the default.
  function PortOf(p: Part, default: nat): nat
    requires All(Digit, Inside(p))
  {
    if p.Absent? then default
    else (if DigitsValue(p.text) > ULONG_MAX then ULONG_MAX else DigitsValue(p.text)) % 65536
  }

  // What a form means, if its query is one.
  function Meaning(scheme: string, f: Form, default: nat): Parse<Url>
    requires Written(f)
  {
    var q := QueryPairs(CStr(Inside(f.query)));
    if q.Got? then
      Got(Url(scheme, Kept(f.host), PortOf(f.port, default), Kept(Inside(f.path)), q.value, Kept(Inside(f.fragment))), "")
    else Bad
  }

  // With the text after it.
  function Before(r: Parse<Url>, next: string): Parse<Url> { if r.Got? then Got(r.value, next) else r }

  lemma PartRead(p: Part, open: char, stops: set<char>, next: string)
    requires All(Word(stops), Inside(p)) && next != "" && !Has(Word(stops), next[0]) && (p.Absent? ==> next[0] != open)
    ensures ParsePart(PartText(p, open) + next, open, stops) == Got(Inside(p), next)
  {
    if p.Given? {
      SpanText(p.text, Word(stops), next);
      assert ([open] + p.text + next)[1..] == p.text + next;
    } else {
      assert "" + next == next;
    }
  }

  lemma PortRead(p: Part, next: string, default: nat)
    requires All(Digit, Inside(p)) && next != "" && !IsDigit(next[0]) && (p.Absent? ==> next[0] != ':')
    ensures ParsePort(PartText(p, ':') + next, default) == Got(PortOf(p, default), next)
  {
    if p.Given? {
      PortAny(p.text, next, default);
      assert [':'] + p.text + next == ":" + (p.text + next);
    } else {
      assert "" + next == next;
    }
  }

  // What the text from each part on begins with.
  lemma Starts(f: Form, next: string)
    requires next != "" && IsSpace(next[0])
    ensures var s := FromFragment(f, next); s != "" && s[0] == if f.fragment.Given? then '#' else next[0]
    ensures var s := FromQuery(f, next); s != "" && s[0] == if f.query.Given? then '?' else FromFragment(f, next)[0]
    ensures var s := FromPath(f, next); s != "" && s[0] == if f.path.Given? then '/' else FromQuery(f, next)[0]
    ensures var s := FromPort(f, next); s != "" && s[0] == if f.port.Given? then ':' else FromPath(f, next)[0]
  {
  }

  lemma TailRead(f: Form, next: string)
    requires Written(f) && next != "" && IsSpace(next[0])
    ensures var q, r := QueryPairs(CStr(Inside(f.query))), ParseTail(FromQuery(f, next));
      r == if q.Got? then Got((q.value, Kept(Inside(f.fragment))), next) else Bad
  {
    Starts(f, next);
    PartRead(f.query, '?', {'#'}, FromFragment(f, next));
    PartRead(f.fragment, '#', {}, next);
    KeptIs(Inside(f.fragment));
  }

  lemma AfterHostRead(scheme: string, f: Form, next: string, default: nat)
    requires Written(f) && next != "" && IsSpace(next[0])
    ensures ParseAfterHost(scheme, Kept(f.host), FromPort(f, next), default) == Before(Meaning(scheme, f, default), next)
  {
    Starts(f, next);
    PortRead(f.port, FromPath(f, next), default);
    PartRead(f.path, '/', {'?', '#'}, FromQuery(f, next));
    KeptIs(Inside(f.path));
    TailRead(f, next);
  }

  lemma HostRead(f: Form, next: string)
    requires Written(f) && next != "" && IsSpace(next[0])
    ensures ParseHost(f.host + FromPort(f, next)) == Got(Kept(f.host), FromPort(f, next))
  {
    Starts(f, next);
    SpanText(f.host, Word({':', '/'}), FromPort(f, next));
    KeptIs(f.host);
  }

  // A form behind a scheme, which is searched for up to the first NUL.
  lemma SchemeFormRead(scheme: string, f: Form, next: string, slack: string, default: nat)
    requires All(Word({':'}), scheme) && Clean(scheme) && Written(f) && next != "" && IsSpace(next[0])
    ensures ParseUrl(scheme + ("://" + (f.host + FromPort(f, next))), slack, default)
      == Before(Meaning(Washed(scheme), f, default), next)
  {
    var t := f.host + FromPort(f, next);
    Starts(f, next);
    SchemeRead(scheme, t, slack);
    SchemeStep(scheme + ("://" + t), slack, Washed(scheme), t, default);
    HostRead(f, next);
    AfterHostRead(Washed(scheme), f, next, default);
  }

  lemma SchemeRead(scheme: string, t: string, slack: string)
    requires All(Word({':'}), scheme) && Clean(scheme) && t != ""
    ensures var s := scheme + ("://" + t);
      !IsSpace(s[0]) && s[0] != '\0' && ParseScheme(s, slack) == Got(Washed(scheme), t)
  {
    var s := scheme + ("://" + t);
    assert s[0] == if scheme == "" then ':' else scheme[0];
    assert scheme != "" ==> Has(Word({':'}), scheme[0]);
    SchemeEndIs(scheme, t, slack);
    SchemeTaken(s, slack, |scheme|);
    assert s[..|scheme|] == scheme && s[|scheme| + 3..] == t;
    PlainText(Word({':'}), scheme);
  }

  lemma SchemeStep(s: string, slack: string, scheme: string, t: string, default: nat)
    requires s != "" && !IsSpace(s[0]) && s[0] != '\0' && ParseScheme(s, slack) == Got(scheme, t)
    ensures var h := ParseHost(t); ParseUrl(s, slack, default) == ParseAfterHost(scheme, h.value, h.rest, default)
  {
    NoSpaceFirst(s);
  }

  // A form without one, unless the text or the memory behind it shows one.
  lemma FormRead(f: Form, next: string, slack: string, default: nat)
    requires Written(f) && next != "" && IsSpace(next[0])
    requires var s := f.host + FromPort(f, next); !IsSpace(s[0]) && s[0] != '\0' && !ShowsScheme(s + slack)
    ensures ParseUrl(f.host + FromPort(f, next), slack, default) == Before(Meaning("", f, default), next)
  {
    var s := f.host + FromPort(f, next);
    Starts(f, next);
    UrlWithoutScheme(s, slack, default);
    HostRead(f, next);
    AfterHostRead("", f, next, default);
  }

  // A part that is opened at the end of the text is waited for.
  lemma Opened(s: string, default: nat)
    ensures s == ":" ==> ParsePort(s, default) == More
    ensures s == "/" ==> ParsePart(s, '/', {'?', '#'}) == More
    ensures s == "?" ==> ParsePart(s, '?', {'#'}) == More
    ensures s == "#" ==> ParsePart(s, '#', {}) == More
  {
  }

  // Nothing, or whitespace alone, is waited for; so is text that begins with
  // a NUL.
  lemma Blank(space: string, s: string, slack: string, default: nat)
    requires All(Space, space)
    ensures ParseUrl(space, slack, default) == More
    ensures s != "" && s[0] == '\0' ==> ParseUrl(s, slack, default) == More
  {
    SpanIs(space, Space, |space|);
    if space != "" { assert Has(Space, space[0]); }
  }
}
