/** The texts that the header parsers take and those that they refuse: words in
    any case, any whitespace where some is skipped, names and values that end
    at a NUL (HTTPFraming.cc; sections 4.2, 5.1 and 6.1 of RFC 2616). */
module HttpForms {
  import opened Scan
  import opened Url
  import opened Http
  import opened HttpPrint
  import opened HttpWords

  // A header line as it is written: with the whitespace that is skipped.
  datatype ParamForm = ParamForm(lead: string, key: string, gap: string, value: string)
  datatype HdrForm = HdrForm(name: string, gap: string, value: string, params: seq<ParamForm>)

  function ParamFormText(p: ParamForm): string { [';'] + p.lead + p.key + (['='] + p.gap + p.value) }

  function ParamFormsText(ps: seq<ParamForm>): string {
    if ps == [] then "" else ParamFormText(ps[0]) + ParamFormsText(ps[1..])
  }

  // Without its line end.
  function HdrFormText(h: HdrForm): string { h.name + ([':'] + h.gap + h.value + ParamFormsText(h.params)) }

  function HdrFormsText(hs: seq<HdrForm>): string {
    if hs == [] then "" else HdrFormText(hs[0]) + (CRLF + HdrFormsText(hs[1..]))
  }

  // What it means.
  function Params(ps: seq<ParamForm>): seq<Param> {
    if ps == [] then [] else [Param(CStr(ps[0].key), CStr(ps[0].value))] + Params(ps[1..])
  }

  function Meaning(h: HdrForm): Header { Header(CStr(h.name), CStr(h.value), Params(h.params)) }

  function Meanings(hs: seq<HdrForm>): seq<Header> {
    if hs == [] then [] else [Meaning(hs[0])] + Meanings(hs[1..])
  }

  // Whitespace, and then text that does not begin with any.
  predicate Written(gap: string, tok: string, stops: set<char>) {
    All(Space, gap) && All(Until(stops), tok) && (tok != "" ==> !IsSpace(tok[0]))
  }

  predicate ParamWritten(p: ParamForm) { Written(p.lead, p.key, {'='}) && Written(p.gap, p.value, {';', '\r'}) }

  predicate ParamsWritten(ps: seq<ParamForm>) {
    ps != [] ==> ParamWritten(ps[0]) && ParamsWritten(ps[1..])
  }

  // The last value of the line is not empty.
  predicate HdrWritten(h: HdrForm) {
    && Written("", h.name, {':'}) && Written(h.gap, h.value, {';', '\r'}) && ParamsWritten(h.params)
    && (if h.params == [] then h.value else h.params[|h.params| - 1].value) != ""
  }

  predicate HdrsWritten(hs: seq<HdrForm>) { hs != [] ==> HdrWritten(hs[0]) && HdrsWritten(hs[1..]) }

  // ---- Header lines that are read.

  lemma ValueRead(c: char, gap: string, value: string, next: string)
    requires Written(gap, value, {';', '\r'}) && next != "" && (next[0] == ';' || (next[0] == '\r' && value != ""))
    ensures ParseField([c] + gap + value + next, Until({';', '\r'})) == Got(value, next)
    ensures Token(next, Blank) == Got("", next)
  {
    FieldTrip(c, gap, value, Until({';', '\r'}), next);
    TokenText("", Blank, next);
    assert "" + next == next;
  }

  lemma ParamRead(p: ParamForm, next: string)
    requires ParamWritten(p) && next != "" && (next[0] == ';' || (next[0] == '\r' && p.value != ""))
    ensures ParseParam(ParamFormText(p) + next) == Got(Param(CStr(p.key), CStr(p.value)), next)
  {
    var tail := ['='] + p.gap + p.value + next;
    CatAssoc([';'] + p.lead + p.key, ['='] + p.gap + p.value, next);
    FieldTrip(';', p.lead, p.key, Until({'='}), tail);
    ValueRead('=', p.gap, p.value, next);
  }

  lemma FormsStart(ps: seq<ParamForm>, next: string)
    requires next != "" && next[0] == '\r'
    ensures var s := ParamFormsText(ps) + next; s != "" && s[0] == if ps == [] then '\r' else ';'
  {
    assert "" + next == next;
  }

  lemma {:induction false} ParamsRead(ps: seq<ParamForm>, next: string)
    requires ParamsWritten(ps) && next != "" && next[0] == '\r' && (ps != [] ==> ps[|ps| - 1].value != "")
    ensures ParseParams(ParamFormsText(ps) + next) == Got(Params(ps), next)
  {
    FormsStart(ps, next);
    if ps == [] {
      assert "" + next == next;
    } else {
      var more := ParamFormsText(ps[1..]) + next;
      ParamsRead(ps[1..], next);
      FormsStart(ps[1..], next);
      CatAssoc(ParamFormText(ps[0]), ParamFormsText(ps[1..]), next);
      ParamRead(ps[0], more);
      ParamsStep(Param(CStr(ps[0].key), CStr(ps[0].value)), Params(ps[1..]), ParamFormsText(ps) + next, more, next);
    }
  }

  // Up to its line end, which must be one.
  lemma HdrRead(h: HdrForm, next: string)
    requires HdrWritten(h) && next != "" && next[0] == '\r'
    ensures ParseMsgHdr(HdrFormText(h) + next) ==
      if |next| == 1 then More else if next[1] == '\n' then Got(Meaning(h), next[2..]) else Bad
  {
    var ps := ParamFormsText(h.params) + next;
    var s1 := [':'] + h.gap + h.value + ps;
    HdrShape(h, next);
    TokenText(h.name, Until({':'}), s1);
    FormsStart(h.params, next);
    ValueRead(':', h.gap, h.value, ps);
    ParamsRead(h.params, next);
    FirstNotSpace(h, s1);
    HdrSteps(h.name + s1, h, s1, ps, next);
  }

  lemma HdrShape(h: HdrForm, next: string)
    ensures HdrFormText(h) + next == h.name + ([':'] + h.gap + h.value + (ParamFormsText(h.params) + next))
  {
    CatAssoc4(h.name, [':'] + h.gap + h.value, ParamFormsText(h.params), next);
    CatAssoc(h.name, [':'] + h.gap + h.value + ParamFormsText(h.params), next);
    CatAssoc([':'] + h.gap + h.value, ParamFormsText(h.params), next);
  }

  lemma FirstNotSpace(h: HdrForm, s1: string)
    requires HdrWritten(h) && s1 != "" && s1[0] == ':'
    ensures var s := h.name + s1; s != "" && !IsSpace(s[0]) && s[0] != '\r'
  {
    if h.name != "" { assert Has(Until({':'}), h.name[0]); }
  }

  lemma HdrSteps(s: string, h: HdrForm, s1: string, s2: string, s3: string)
    requires s != "" && !IsSpace(s[0]) && s1 != "" && s2 != "" && s3 != ""
    requires Token(s, Until({':'})) == Got(h.name, s1)
    requires ParseField(s1, Until({';', '\r'})) == Got(h.value, s2)
    requires ParseParams(s2) == Got(Params(h.params), s3)
    ensures ParseMsgHdr(s) == if |s3| == 1 then More else if s3[1] == '\n' then Got(Meaning(h), s3[2..]) else Bad
  {
  }

  // A line that begins with whitespace is an error; folded lines are not read.
  lemma FoldedLine(s: string)
    requires s != "" && IsSpace(s[0])
    ensures ParseMsgHdr(s) == Bad && (s[0] != '\r' ==> ParseHdrs(s) == Bad)
  {
  }

  lemma {:induction false} HdrsRead(hs: seq<HdrForm>, next: string)
    requires HdrsWritten(hs) && next != "" && next[0] == '\r'
    ensures ParseHdrs(HdrFormsText(hs) + next) == Got(Meanings(hs), next)
    decreases |hs|
  {
    if hs == [] {
      assert "" + next == next;
    } else {
      var more := HdrFormsText(hs[1..]) + next;
      HdrsRead(hs[1..], next);
      HdrRead(hs[0], CRLF + more);
      assert (CRLF + more)[2..] == more;
      CatAssoc4(HdrFormText(hs[0]), CRLF, HdrFormsText(hs[1..]), next);
      CatAssoc(HdrFormText(hs[0]), CRLF + HdrFormsText(hs[1..]), next);
      CatAssoc(CRLF, HdrFormsText(hs[1..]), next);
      HdrShape(hs[0], CRLF + more);
      FirstNotSpace(hs[0], [':'] + hs[0].gap + hs[0].value + (ParamFormsText(hs[0].params) + (CRLF + more)));
      HdrsStep(HdrFormsText(hs) + next, Meaning(hs[0]), more, Meanings(hs[1..]), next);
    }
  }

  lemma HdrsStep(s: string, h: Header, more: string, hs: seq<Header>, next: string)
    requires s != "" && s[0] != '\r' && ParseMsgHdr(s) == Got(h, more) && more != "" && ParseHdrs(more) == Got(hs, next)
    ensures ParseHdrs(s) == Got([h] + hs, next)
  {
  }

  // ---- The status line.

  lemma CrLfIs(s: string)
    requires s != ""
    ensures ParseCrLf(s) ==
      if s[0] != '\r' then Bad else if |s| == 1 then More
      else if s[1] != '\n' then Bad else if |s| == 2 then More else Got((), s[2..])
  {
    if |s| > 2 && s[0] == '\r' { assert s[1..][1..] == s[2..]; }
  }

  function VersionForm(word: string, major: string, minor: string, next: string): string {
    word + (major + ("." + (minor + next)))
  }

  // The version, and a space.
  lemma LineVersion(word: string, major: string, minor: string, next: string)
    requires Spells(word, "HTTP/") && All(Digit, major) && All(Digit, minor) && next != "" && !IsDigit(next[0])
    ensures var v, s := (Number(major), Number(minor)), VersionForm(word, major, minor, next);
      && (v !in {(1, 1), (1, 0), (0, 9)} || next[0] != ' ' ==> ParseStatusLine(s) == Bad)
      && (v in {(1, 1), (1, 0), (0, 9)} ==> ParseVersion(s) == Got(v, next))
  {
    VersionRead(word, major, minor, next);
  }

  // The code, and a space.
  lemma CodeRead(code: string, next: string)
    requires All(Digit, code) && next != "" && !IsDigit(next[0])
    ensures ParseNumberAfter(" " + (code + next), ' ') == Got(Number(code), next)
    ensures next[0] != ' ' ==> ParsePhrase(next) == Bad
  {
    assert (" " + (code + next))[1..] == code + next;
    NumberRead(code, next);
  }

  lemma PhraseRead(phrase: string, next: string)
    requires All(Until({'\r'}), phrase) && next != "" && next[0] == '\r'
    ensures var r, e := ParsePhrase(" " + (phrase + next)), ParseCrLf(next);
      if e.Got? then r == Got(CStr(phrase), e.rest) else if e.More? then r == More else r == Bad
  {
    assert (" " + (phrase + next))[1..] == phrase + next;
    TokenText(phrase, Until({'\r'}), next);
  }

  lemma StatusLineSteps(s: string, v: (int, int), s1: string, code: int, s2: string)
    requires ParseVersion(s) == Got(v, s1) && s1 != "" && ParseNumberAfter(s1, ' ') == Got(code, s2) && s2 != ""
    ensures var p, r := ParsePhrase(s2), ParseStatusLine(s);
      if p.Got? then r == Got((v.0, v.1, code), p.rest) else if p.More? then r == More else r == Bad
  {
  }

  // A status line with a known version: any phrase is skipped, and the line
  // must end in CR LF.
  lemma StatusLineRead(word: string, major: string, minor: string, code: string, phrase: string, next: string)
    requires Spells(word, "HTTP/") && All(Digit, major) && All(Digit, minor) && All(Digit, code)
    requires (Number(major), Number(minor)) in {(1, 1), (1, 0), (0, 9)}
    requires All(Until({'\r'}), phrase) && next != "" && next[0] == '\r'
    ensures var s := VersionForm(word, major, minor, " " + (code + (" " + (phrase + next))));
      ParseStatusLine(s) ==
        if |next| == 1 then More else if next[1] != '\n' then Bad
        else if |next| == 2 then More else Got((Number(major), Number(minor), Number(code)), next[2..])
  {
    var p := " " + (phrase + next);
    LineVersion(word, major, minor, " " + (code + p));
    CodeRead(code, p);
    PhraseRead(phrase, next);
    CrLfIs(next);
    StatusLineSteps(VersionForm(word, major, minor, " " + (code + p)), (Number(major), Number(minor)), " " + (code + p), Number(code), p);
  }

  // Without a space after the code it is an error.
  lemma CodeEnds(word: string, major: string, minor: string, code: string, next: string)
    requires Spells(word, "HTTP/") && All(Digit, major) && All(Digit, minor) && All(Digit, code)
    requires next != "" && !IsDigit(next[0]) && next[0] != ' '
    ensures ParseStatusLine(VersionForm(word, major, minor, " " + (code + next))) == Bad
  {
    LineVersion(word, major, minor, " " + (code + next));
    CodeRead(code, next);
    if (Number(major), Number(minor)) in {(1, 1), (1, 0), (0, 9)} {
      StatusLineSteps(VersionForm(word, major, minor, " " + (code + next)), (Number(major), Number(minor)), " " + (code + next), Number(code), next);
    }
  }

  // No '.' after the first number is an error; what is no "HTTP/" is waited
  // for.
  lemma VersionRefused(word: string, major: string, next: string)
    requires All(Digit, major) && next != "" && !IsDigit(next[0]) && next[0] != '.' && |word| == 5
    ensures ParseVersion(word + (major + next)) == if Spells(word, "HTTP/") then Bad else More
  {
    var s := word + (major + next);
    assert s[..5] == word && s[5..] == major + next;
    StartsIs(s, "HTTP/");
    NumberRead(major, next);
  }

  // ---- The whole header.

  // A response in any of its forms is read as what it means; the empty line
  // must be one.
  lemma ResponseRead(word: string, major: string, minor: string, code: string, phrase: string, hs: seq<HdrForm>, next: string)
    requires Spells(word, "HTTP/") && All(Digit, major) && All(Digit, minor) && All(Digit, code)
    requires (Number(major), Number(minor)) in {(1, 1), (1, 0), (0, 9)}
    requires All(Until({'\r'}), phrase) && HdrsWritten(hs) && next != "" && next[0] == '\r'
    ensures var s := VersionForm(word, major, minor, " " + (code + (" " + (phrase + (CRLF + (HdrFormsText(hs) + next))))));
      ParseResponse(s) ==
        if |next| == 1 then More else if next[1] != '\n' then Bad
        else Got(Response(Number(major), Number(minor), Number(code), Meanings(hs)), next[2..])
  {
    var t := HdrFormsText(hs) + next;
    StatusLineRead(word, major, minor, code, phrase, CRLF + t);
    assert (CRLF + t)[2..] == t;
    HdrsRead(hs, next);
    ResponseSteps(VersionForm(word, major, minor, " " + (code + (" " + (phrase + (CRLF + t))))),
                  (Number(major), Number(minor), Number(code)), t, Meanings(hs), next);
  }

  lemma ResponseSteps(s: string, line: (int, int, int), t: string, hs: seq<Header>, next: string)
    requires ParseStatusLine(s) == Got(line, t) && t != "" && ParseHdrs(t) == Got(hs, next) && next != "" && next[0] == '\r'
    ensures ParseResponse(s) ==
      if |next| == 1 then More else if next[1] != '\n' then Bad
      else Got(Response(line.0, line.1, line.2, hs), next[2..])
  {
  }

  // After the target: a space, the version and the end of the line, or an
  // error.
  lemma RequestVersionRead(word: string, major: string, minor: string, next: string)
    requires Spells(word, "HTTP/") && All(Digit, major) && All(Digit, minor) && next != "" && !IsDigit(next[0])
    ensures var v := (Number(major), Number(minor));
      ParseRequestVersion(" " + VersionForm(word, major, minor, next)) ==
        if v !in {(1, 1), (1, 0), (0, 9)} || next[0] != '\r' then Bad
        else if |next| == 1 then More else if next[1] != '\n' then Bad
        else if |next| == 2 then More else Got(v, next[2..])
  {
    var s := VersionForm(word, major, minor, next);
    assert (" " + s)[1..] == s;
    VersionRead(word, major, minor, next);
    CrLfIs(next);
  }

  // A request in any of its forms, once its target is read as u.
  lemma RequestRead(word: string, verb: Method, target: string, u: Url, http: string, major: string, minor: string,
                    hs: seq<HdrForm>, next: string, slack: string)
    requires Spells(word, MethodName(verb)) && Spells(http, "HTTP/") && All(Digit, major) && All(Digit, minor)
    requires (Number(major), Number(minor)) in {(1, 1), (1, 0), (0, 9)}
    requires HdrsWritten(hs) && next != "" && next[0] == '\r'
    requires var line := " " + VersionForm(http, major, minor, CRLF + (HdrFormsText(hs) + next));
      ParseUrl(target + line, slack, 0) == Got(u, line) && |word| + 1 + |target + line| >= 16
    ensures var line := " " + VersionForm(http, major, minor, CRLF + (HdrFormsText(hs) + next));
      ParseRequest(word + (" " + (target + line)), slack) ==
        if |next| == 1 then More else if next[1] != '\n' then Bad
        else if |next| == 2 then More else Got(Request(verb, u, Number(major), Number(minor), Meanings(hs)), next[2..])
  {
    var t := HdrFormsText(hs) + next;
    var line := " " + VersionForm(http, major, minor, CRLF + t);
    MethodRead(word, verb, " " + (target + line));
    assert (" " + (target + line))[1..] == target + line;
    ParseRequestIs(word + (" " + (target + line)), slack, verb, " " + (target + line));
    RequestVersionRead(http, major, minor, CRLF + t);
    assert (CRLF + t)[2..] == t;
    HdrsRead(hs, next);
    RequestSteps(verb, u, line, (Number(major), Number(minor)), t, Meanings(hs), next);
  }

  lemma RequestSteps(verb: Method, u: Url, line: string, v: (int, int), t: string, hs: seq<Header>, next: string)
    requires line != "" && ParseRequestVersion(line) == Got(v, t) && t != "" && ParseHdrs(t) == Got(hs, next)
    requires next != "" && next[0] == '\r'
    ensures ParseAfterUri(verb, u, line) ==
      if |next| == 1 then More else if next[1] != '\n' then Bad
      else if |next| == 2 then More else Got(Request(verb, u, v.0, v.1, hs), next[2..])
  {
    CrLfIs(next);
  }

  // What is no space after the method or after the target is an error.
  lemma RequestRefused(word: string, verb: Method, next: string, slack: string)
    requires Spells(word, MethodName(verb)) && |word| + |next| >= 16 && next[0] != ' '
    ensures ParseRequest(word + next, slack) == Bad
  {
    MethodRead(word, verb, next);
  }

  lemma TargetEnds(verb: Method, u: Url, s: string)
    requires s != ""
    ensures s[0] != ' ' ==> ParseAfterUri(verb, u, s) == Bad
    ensures |s| > 6 && s[0] == ' ' && !Begins(s[1..], "HTTP/") ==> ParseAfterUri(verb, u, s) == More
  {
    if |s| > 1 { StartsIs(s[1..], "HTTP/"); }
  }
}
