/** The scanning steps all the parsers are made of. A parser works on the text
    that has arrived, and needs More when it reaches its end; otherwise it has
    Got a value and the rest, or the text is Bad. */
module Scan {
  datatype Parse<+T> = More | Bad | Got(value: T, rest: string) {
    predicate IsFailure() { !Got? }

    function PropagateFailure<U>(): Parse<U>
      requires !Got?
    {
      if More? then More else Bad
    }

    function Extract(): (T, string)
      requires Got?
    {
      (value, rest)
    }
  }

  const CRLF: string := "\r\n"

  datatype Class = Space | Blank | Digit | Until(stops: set<char>) | Word(stops: set<char>)

  // isspace(3) and isdigit(3) in the C locale.
  predicate IsSpace(c: char) { c == ' ' || '\t' <= c <= '\r' }
  predicate IsDigit(c: char) { '0' <= c <= '9' }

  predicate Has(k: Class, c: char) {
    match k
    case Space => IsSpace(c)
    case Blank => c == ' ' || c == '\t'
    case Digit => IsDigit(c)
    case Until(stops) => c !in stops
    case Word(stops) => c !in stops && !IsSpace(c)
  }

  predicate All(k: Class, s: string) {
    forall i :: 0 <= i < |s| ==> Has(k, s[i])
  }

  // Length of the longest prefix in a class.
  function Span(s: string, k: Class): (n: nat)
    ensures n <= |s| && All(k, s[..n])
    ensures n < |s| ==> !Has(k, s[n])
  {
    if s == "" || !Has(k, s[0]) then 0
    else
      var n := 1 + Span(s[1..], k);
      assert s[..n] == [s[0]] + s[1..][..n - 1];
      n
  }

  lemma AllPrefix(k: Class, s: string, n: nat)
    requires n <= |s| && All(k, s)
    ensures All(k, s[..n])
  {
  }

  lemma SpanIs(s: string, k: Class, n: nat)
    requires n <= |s| && All(k, s[..n]) && (n < |s| ==> !Has(k, s[n]))
    ensures Span(s, k) == n
  {
    var m := Span(s, k);
    forall i | 0 <= i < n ensures Has(k, s[i]) { assert s[..n][i] == s[i]; }
    forall i | 0 <= i < m ensures Has(k, s[i]) { assert s[..m][i] == s[i]; }
  }

  lemma SpanStable(s: string, k: Class, t: string)
    requires Span(s, k) < |s|
    ensures Span(s + t, k) == Span(s, k)
  {
    assert (s + t)[..Span(s, k)] == s[..Span(s, k)];
    SpanIs(s + t, k, Span(s, k));
  }

  // while (n > 0 && ...) *ptr++ = *buf_ptr++; if (n == 0) return 0;
  function Token(s: string, k: Class): (r: Parse<string>)
    ensures r != Bad && (r.Got? ==> r.rest != "" && |r.value| + |r.rest| == |s|)
  {
    var n := Span(s, k);
    if n == |s| then More else Got(s[..n], s[n..])
  }

  // One character that must be c, and data after it.
  function Expect(s: string, c: char): (r: Parse<()>)
    requires s != ""
    ensures r.Got? ==> r.rest != ""
  {
    if s[0] != c then Bad else if |s| == 1 then More else Got((), s[1..])
  }

  // One character, whatever it is, and data after it.
  function Pass(s: string): (r: Parse<()>)
    requires s != ""
    ensures r != Bad && (r.Got? ==> r.rest != "" && |r.rest| < |s|)
  {
    if |s| == 1 then More else Got((), s[1..])
  }

  // What is decided on s stays decided when t arrives after it.
  ghost predicate Stable<T>(a: Parse<T>, b: Parse<T>, t: string) {
    match a
    case More => true
    case Bad => b == Bad
    case Got(v, r) => b == Got(v, r + t)
  }

  lemma TokenStable(s: string, k: Class, t: string)
    ensures Stable(Token(s, k), Token(s + t, k), t)
  {
    var n := Span(s, k);
    if n < |s| {
      SpanStable(s, k, t);
      assert (s + t)[..n] == s[..n] && (s + t)[n..] == s[n..] + t;
    }
  }

  lemma CharStable(s: string, c: char, t: string)
    requires s != ""
    ensures Stable(Expect(s, c), Expect(s + t, c), t) && Stable(Pass(s), Pass(s + t), t)
  {
    assert (s + t)[1..] == s[1..] + t;
  }

  // A token followed by a character outside its class is read back.
  lemma TokenText(tok: string, k: Class, rest: string)
    requires All(k, tok) && rest != "" && !Has(k, rest[0])
    ensures Token(tok + rest, k) == Got(tok, rest)
  {
    assert (tok + rest)[..|tok|] == tok && (tok + rest)[|tok|..] == rest;
    SpanIs(tok + rest, k, |tok|);
  }

  // ---- C strings and numbers.

  // A string assigned from a buffer ends at its first NUL.
  function CStr(s: string): string {
    s[..Span(s, Until({'\0'}))]
  }

  predicate Clean(s: string) { '\0' !in s }

  lemma CStrClean(s: string)
    requires Clean(s)
    ensures CStr(s) == s
  {
    SpanIs(s, Until({'\0'}), |s|);
  }

  function DigitsValue(s: string): nat
    requires All(Digit, s)
  {
    if s == "" then 0 else DigitsValue(s[..|s| - 1]) * 10 + (s[|s| - 1] as int - '0' as int)
  }

  const LONG_MAX: int := 0x7fff_ffff_ffff_ffff
  const ULONG_MAX: int := 0xffff_ffff_ffff_ffff

  // strtol(s, NULL, 10)
  function Strtol(s: string): (v: int)
    ensures -LONG_MAX - 1 <= v <= LONG_MAX
  {
    var a := s[Span(s, Space)..];
    var neg := a != "" && a[0] == '-';
    var b := if neg || (a != "" && a[0] == '+') then a[1..] else a;
    var v: int := DigitsValue(b[..Span(b, Digit)]);
    if neg then (if v > LONG_MAX + 1 then -LONG_MAX - 1 else -v)
    else if v > LONG_MAX then LONG_MAX else v
  }

  // strtoul(s, NULL, 10) of a string of digits
  function Strtoul(s: string): nat
    requires All(Digit, s)
  {
    if DigitsValue(s) > ULONG_MAX then ULONG_MAX else DigitsValue(s)
  }

  // (int)x of a long
  function ToInt(x: int): (r: int)
    ensures -0x8000_0000 <= r < 0x8000_0000 && (x - r) % 0x1_0000_0000 == 0
    ensures -0x8000_0000 <= x < 0x8000_0000 ==> r == x
  {
    (x + 0x8000_0000) % 0x1_0000_0000 - 0x8000_0000
  }

  // Decimal digits of a number, as printf writes them.
  function Dec(n: nat): (s: string)
    ensures s != "" && All(Digit, s) && (n > 0 ==> s[0] != '0')
  {
    if n < 10 then ['0' + n as char] else Dec(n / 10) + ['0' + (n % 10) as char]
  }

  // "%d"
  function PrintInt(x: int): string {
    if x < 0 then "-" + Dec(-x) else Dec(x)
  }

  // The whitespace and the digits of the C locale.
  lemma Characters(c: char)
    ensures IsSpace(c) <==> c in " \t\n\U{b}\U{c}\r"
    ensures IsDigit(c) <==> c in "0123456789"
  {
  }

  lemma CStrIs(a: string, rest: string)
    requires Clean(a)
    ensures CStr(a + ("\0" + rest)) == a
  {
    var s := a + ("\0" + rest);
    assert s[..|a|] == a && s[|a|] == '\0';
    forall i | 0 <= i < |a| ensures Has(Until({'\0'}), s[..|a|][i]) { assert s[..|a|][i] == a[i]; }
    SpanIs(s, Until({'\0'}), |a|);
  }

  // Zeros before a number do not change it.
  lemma {:induction false} LeadingZeros(zeros: string, n: nat)
    requires forall i :: 0 <= i < |zeros| ==> zeros[i] == '0'
    ensures All(Digit, zeros + Dec(n)) && DigitsValue(zeros + Dec(n)) == n
  {
    DecValue(n);
    DigitsCat(zeros, Dec(n));
  }

  lemma {:induction false} DigitsCat(zeros: string, d: string)
    requires All(Digit, d) && d != "" && forall i :: 0 <= i < |zeros| ==> zeros[i] == '0'
    ensures All(Digit, zeros + d) && DigitsValue(zeros + d) == DigitsValue(d)
    decreases |d|
  {
    var s := zeros + d;
    assert s[..|s| - 1] == zeros + d[..|d| - 1] && s[|s| - 1] == d[|d| - 1];
    if |d| == 1 {
      assert zeros + d[..0] == zeros;
      OnlyZeros(zeros);
    } else {
      DigitsCat(zeros, d[..|d| - 1]);
    }
  }

  lemma {:induction false} OnlyZeros(zeros: string)
    requires forall i :: 0 <= i < |zeros| ==> zeros[i] == '0'
    ensures All(Digit, zeros) && DigitsValue(zeros) == 0
  {
    if zeros != "" { OnlyZeros(zeros[..|zeros| - 1]); }
  }

  lemma {:induction false} DecValue(n: nat)
    ensures DigitsValue(Dec(n)) == n
  {
    if n >= 10 {
      DecValue(n / 10);
      var s := Dec(n);
      assert s[..|s| - 1] == Dec(n / 10);
    }
  }

  lemma StrtolOfDigits(s: string)
    requires s != "" && All(Digit, s)
    ensures Strtol(s) == if DigitsValue(s) > LONG_MAX then LONG_MAX else DigitsValue(s)
  {
    assert IsDigit(s[0]);
    SpanIs(s, Space, 0);
    SpanIs(s, Digit, |s|);
    assert s[0..] == s && s[..|s|] == s;
  }

  // strtol on whitespace, a sign or none, digits, and what is no digit: the
  // number, or the limit that is next to it; with no digits it is 0.
  lemma StrtolText(space: string, sign: string, digits: string, rest: string)
    requires All(Space, space) && All(Digit, digits) && (sign == "" || sign == "+" || sign == "-")
    requires rest != "" ==> !IsDigit(rest[0])
    requires sign == "" && digits == "" && rest != "" ==> !IsSpace(rest[0]) && rest[0] != '+' && rest[0] != '-'
    ensures var v: int := DigitsValue(digits);
      Strtol(space + (sign + (digits + rest))) ==
        if sign == "-" then (if v > LONG_MAX + 1 then -LONG_MAX - 1 else -v) else if v > LONG_MAX then LONG_MAX else v
  {
    var t := digits + rest;
    var s := space + (sign + t);
    assert s[..|space|] == space && s[|space|..] == sign + t;
    assert digits != "" ==> t[0] == digits[0] && Has(Digit, digits[0]);
    SpanIs(s, Space, |space|);
    assert t[..|digits|] == digits;
    SpanIs(t, Digit, |digits|);
    assert sign != "" ==> (sign + t)[1..] == t;
    assert sign == "" ==> sign + t == t;
  }

  lemma StrtolPrint(x: int)
    requires -LONG_MAX - 1 <= x <= LONG_MAX
    ensures Strtol(PrintInt(x)) == x
  {
    if x >= 0 {
      DecValue(x);
      StrtolOfDigits(Dec(x));
    } else {
      var d, s := Dec(-x), PrintInt(x);
      DecValue(-x);
      SpanIs(s, Space, 0);
      SpanIs(d, Digit, |d|);
      assert s[0..] == s && s[1..] == d && d[..|d|] == d;
    }
  }

  lemma CatAssoc<T>(a: seq<T>, b: seq<T>, c: seq<T>)
    ensures a + b + c == a + (b + c)
  {
  }

  lemma CatAssoc4<T>(a: seq<T>, b: seq<T>, c: seq<T>, d: seq<T>)
    ensures a + b + c + d == a + (b + (c + d))
  {
  }

  lemma CatAssoc5<T>(a: seq<T>, b: seq<T>, c: seq<T>, d: seq<T>, e: seq<T>)
    ensures a + b + c + d + e == a + (b + (c + (d + e)))
  {
  }

  lemma CatAssoc6<T>(a: seq<T>, b: seq<T>, c: seq<T>, d: seq<T>, e: seq<T>, f: seq<T>)
    ensures a + b + c + d + e + f == a + (b + (c + (d + (e + f))))
  {
  }
}
