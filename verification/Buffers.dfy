/** The walk over a received buffer and the bounded printing shared by the
    classes: the loops that the scanning functions stand for. */
module Buffers {
  import opened Scan

  // The first size of a session's buffers, and what one that is full grows by.
  const DEFAULT_BUF_SIZE: nat := 4096

  // while (n > 0 && ...) { *ptr++ = *buf_ptr++; n--; }
  // The walk pointer and the count left are the text that remains.
  method ScanWhile(s: string, k: Class) returns (tok: string, rest: string)
    ensures tok == s[..Span(s, k)] && rest == s[Span(s, k)..]
  {
    tok, rest := "", s;
    while rest != "" && Has(k, rest[0])
      invariant |tok| <= |s| && tok == s[..|tok|] && rest == s[|tok|..]
      invariant Span(s, k) == |tok| + Span(rest, k)
      decreases |rest|
    {
      tok, rest := tok + [rest[0]], rest[1..];
    }
  }

  // ... if (n == 0) return 0;
  method Take(s: string, k: Class) returns (more: bool, tok: string, rest: string)
    ensures Token(s, k) == if more then More else Got(tok, rest)
    ensures !more ==> rest != "" && |tok| + |rest| == |s|
  {
    tok, rest := ScanWhile(s, k);
    more := rest == "";
  }

  // A loop that collects: what it has and what is left to parse make up all.
  ghost predicate Pending<T>(all: Parse<seq<T>>, before: seq<T>, now: seq<T>, left: Parse<seq<T>>) {
    match all
    case More => left == More
    case Bad => left == Bad
    case Got(v, r) => left.Got? && left.rest == r && now + left.value == before + v
  }

  lemma PendingStep<T>(all: Parse<seq<T>>, before: seq<T>, now: seq<T>, x: T, left: Parse<seq<T>>)
    requires Pending(all, before, now, if left.Got? then Got([x] + left.value, left.rest) else left)
    ensures Pending(all, before, now + [x], left)
  {
    if left.Got? { CatAssoc(now, [x], left.value); }
  }

  lemma PendingDone<T>(all: Parse<seq<T>>, now: seq<T>, rest: string)
    requires Pending(all, [], now, Got([], rest))
    ensures all == Got(now, rest)
  {
    if all.Got? { assert now + [] == now && [] + all.value == all.value; }
  }

  // ---- snprintf(3) into a buffer of 4096 characters.

  const LIMIT: nat := 4095

  function Cut(s: string): string { if |s| <= LIMIT then s else s[..LIMIT] }

  // The first 4095 characters, and a NUL after them.
  lemma CutIs(kept: string, more: string)
    requires |kept| <= 4095 && (more != "" ==> |kept| == 4095)
    ensures Cut(kept + more) == kept
  {
    assert (kept + more)[..|kept|] == kept;
    assert more == "" ==> kept + more == kept;
  }

  lemma CutTwice(a: string, b: string)
    ensures Cut(Cut(a) + b) == Cut(a + b)
  {
    if |a| > LIMIT { assert (Cut(a) + b)[..LIMIT] == (a + b)[..LIMIT]; }
  }

  lemma CutTail(a: string, b: string)
    ensures Cut(a + Cut(b)) == Cut(a + b)
  {
    if |b| > LIMIT { assert (a + Cut(b))[..LIMIT] == (a + b)[..LIMIT]; }
  }

  lemma CutMiddle(a: string, b: string, c: string)
    ensures Cut(a + Cut(b) + c) == Cut(a + b + c)
  {
    CutTwice(a + Cut(b), c);
    CutTail(a, b);
    CutTwice(a + b, c);
  }

  // snprintf(tmp + strlen(tmp), size - strlen(tmp), ...): done is what would
  // have been written without the limit.
  method Put(tmp: string, piece: string, ghost done: string) returns (r: string)
    requires tmp == Cut(done)
    ensures r == Cut(done + piece)
  {
    CutTwice(done, piece);
    r := Cut(tmp + piece);
  }
}
