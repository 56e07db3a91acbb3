/** Strings in the configuration file: sym_escape_string_value of scripts/config/symbol.c, and the
    loop in scripts/config/confdata.c that takes them out of their quotes in place. */
module ConfStrings {
  import opened Options

  const NUL: char := '\0'

  // ---- Strings in quotes ----------------------------------------------------------------------

  predicate Special(c: char) {
    c == '"' || c == '\\'
  }

  function Escaped(s: string): string {
    if s == "" then ""
    else if Special(s[0]) then ['\\', s[0]] + Escaped(s[1..])
    else [s[0]] + Escaped(s[1..])
  }

  /** A string up to its closing quote, each backslash replaced by the character after it; none if
      there is no closing quote. */
  function Unescaped(s: string): Option<string> {
    if s == "" then None
    else if s[0] == '"' then Some("")
    else if s[0] == '\\' then
      if |s| == 1 then None else Before([s[1]], Unescaped(s[2..]))
    else Before([s[0]], Unescaped(s[1..]))
  }

  function Before(s: string, r: Option<string>): Option<string> {
    match r
    case None => None
    case Some(t) => Some(s + t)
  }

  lemma BeforeTwice(a: string, b: string, r: Option<string>)
    ensures Before(a, Before(b, r)) == Before(a + b, r) && Before("", r) == r
  {
    if r.Some? {
      assert a + (b + r.value) == a + b + r.value && "" + r.value == r.value;
    }
  }

  /** Reading an escaped string gives the string back, and goes on with what follows. */
  lemma {:induction false} EscapeThen(s: string, tail: string)
    ensures Unescaped(Escaped(s) + tail) == Before(s, Unescaped(tail))
  {
    if s == "" {
      assert Escaped(s) + tail == tail;
    } else {
      var e := Escaped(s[1..]) + tail;
      EscapeThen(s[1..], tail);
      EscapedStep(s, tail);
      BeforeTwice([s[0]], s[1..], Unescaped(tail));
      assert [s[0]] + s[1..] == s;
    }
    BeforeTwice("", "", Unescaped(tail));
  }

  lemma EscapedStep(s: string, tail: string)
    requires s != ""
    ensures Unescaped(Escaped(s) + tail) == Before([s[0]], Unescaped(Escaped(s[1..]) + tail))
  {
    var e, text := Escaped(s[1..]) + tail, Escaped(s) + tail;
    if Special(s[0]) {
      assert text[0] == '\\' && text[1] == s[0] && text[2..] == e;
    } else {
      assert text[0] == s[0] && text[1..] == e;
    }
  }

  /** An escaped string is read up to and not beyond its closing quote; without a closing quote nothing
      is read. */
  lemma EscapeRoundTrip(s: string, after: string)
    ensures Unescaped(Escaped(s) + ("\"" + after)) == Some(s)
    ensures Unescaped(Escaped(s)) == None
  {
    EscapeThen(s, "\"" + after);
    assert s + "" == s;
    EscapeThen(s, "");
    assert Escaped(s) + "" == Escaped(s);
  }

  /** strcspn(p, "\"\\"): how far the next character to escape is. */
  method Span(s: string, p: nat) returns (l: nat)
    requires p <= |s|
    ensures p + l <= |s| && (p + l < |s| ==> Special(s[p + l]))
    ensures forall i | p <= i < p + l :: !Special(s[i])
  {
    l := 0;
    while p + l < |s| && !Special(s[p + l])
      invariant p + l <= |s| && forall i | p <= i < p + l :: !Special(s[i])
    {
      l := l + 1;
    }
  }

  lemma {:induction false} EscapedPlain(s: string, l: nat)
    requires l <= |s| && forall i | 0 <= i < l :: !Special(s[i])
    ensures Escaped(s) == s[..l] + Escaped(s[l..])
  {
    if l > 0 {
      EscapedPlain(s[1..], l - 1);
      assert s[1..][l - 1..] == s[l..] && s[1..][..l - 1] == s[1..l];
      assert s[..l] == [s[0]] + s[1..l];
    } else {
      assert s[0..] == s;
    }
  }

  /** The first pass of sym_escape_string_value: the space for the quotes, the terminator, and one
      backslash for each character to escape. */
  method EscapedSize(s: string) returns (reslen: nat)
    ensures reslen == |Escaped(s)| + 3
  {
    reslen := |s| + 2 + 1;
    var p := 0;
    assert s[0..] == s;
    while true
      invariant p <= |s| && reslen + |Escaped(s[p..])| == |Escaped(s)| + 3 + (|s| - p)
      decreases |s| - p
    {
      var l := Span(s, p);
      EscapedPlain(s[p..], l);
      assert s[p..][l..] == s[p + l..];
      p := p + l;
      if p == |s| {
        break;
      }
      assert s[p..][1..] == s[p + 1..];
      reslen := reslen + 1;
      p := p + 1;
    }
    assert s[p..] == "";
  }

  /** sym_escape_string_value: the second pass fills exactly the space the first one counted. */
  method EscapeStringValue(s: string) returns (res: string)
    ensures res == "\"" + Escaped(s) + "\""
  {
    var reslen := EscapedSize(s);
    res := "\"";
    var p := 0;
    assert s[0..] == s;
    while true
      invariant p <= |s| && res + Escaped(s[p..]) == "\"" + Escaped(s)
      decreases |s| - p
    {
      var l := Span(s, p);
      EscapedPlain(s[p..], l);
      assert s[p..][l..] == s[p + l..] && s[p..][..l] == s[p..p + l];
      Concat3(res, s[p..p + l], Escaped(s[p + l..]));
      res := res + s[p..p + l];
      p := p + l;
      if p == |s| {
        break;
      }
      assert s[p..][1..] == s[p + 1..];
      Concat3(res, ['\\', s[p]], Escaped(s[p + 1..]));
      res := res + ['\\', s[p]];
      p := p + 1;
    }
    assert s[p..] == "" && res + "" == res;
    res := res + "\"";
    assert |res| + 1 == reslen;
  }

  lemma Concat3(a: string, b: string, c: string)
    ensures a + (b + c) == a + b + c
  {
  }

  /** A C string in a buffer. */
  predicate Holds(buf: seq<char>, p: nat, s: string) {
    p + |s| < |buf| && buf[p..p + |s|] == s && NUL !in s && buf[p + |s|] == NUL
  }

  /** strlen. */
  method StrLen(buf: array<char>, p: nat, ghost s: string) returns (n: nat)
    requires Holds(buf[..], p, s)
    ensures n == |s|
  {
    n := 0;
    HeldAt(buf[..], p, s, 0);
    while buf[p + n] != NUL
      invariant n <= |s| && if n < |s| then buf[p + n] == s[n] && s[n] != NUL else buf[p + n] == NUL
      decreases |s| - n
    {
      n := n + 1;
      HeldAt(buf[..], p, s, n);
    }
  }

  lemma HeldAt(buf: seq<char>, p: nat, s: string, n: nat)
    requires Holds(buf, p, s) && n <= |s|
    ensures if n < |s| then buf[p + n] == s[n] && s[n] != NUL else buf[p + n] == NUL
  {
    if n < |s| {
      assert buf[p..p + |s|][n] == s[n] && s[n] in s;
    }
  }

  /** strpbrk(p, "\"\\"): the next quote or backslash of the string. */
  method FindSpecial(buf: array<char>, p: nat, ghost s: string) returns (found: bool, n: nat)
    requires Holds(buf[..], p, s)
    ensures n <= |s| && forall i | 0 <= i < n :: !Special(s[i])
    ensures if found then n < |s| && Special(s[n]) else n == |s|
  {
    n := 0;
    HeldAt(buf[..], p, s, 0);
    while buf[p + n] != NUL && !Special(buf[p + n])
      invariant n <= |s| && forall i | 0 <= i < n :: !Special(s[i])
      invariant if n < |s| then buf[p + n] == s[n] && s[n] != NUL else buf[p + n] == NUL
      decreases |s| - n
    {
      n := n + 1;
      HeldAt(buf[..], p, s, n);
    }
    found := buf[p + n] != NUL;
  }

  lemma {:induction false} UnescapedPlain(s: string, l: nat)
    requires l <= |s| && forall i | 0 <= i < l :: !Special(s[i])
    ensures Unescaped(s) == Before(s[..l], Unescaped(s[l..]))
  {
    if l > 0 {
      UnescapedPlain(s[1..], l - 1);
      assert s[1..][l - 1..] == s[l..] && s[1..][..l - 1] == s[1..l];
      assert s[..l] == [s[0]] + s[1..l];
      BeforeTwice([s[0]], s[1..l], Unescaped(s[l..]));
    } else {
      assert s[0..] == s;
      BeforeTwice("", "", Unescaped(s));
    }
  }

  /** memmove(p, p + 1, strlen(p)): the first character of the string is gone; what was its terminator
      is one still. */
  method DropFirst(buf: array<char>, p: nat, ghost s: string)
    requires Holds(buf[..], p, s) && s != ""
    modifies buf
    ensures Holds(buf[..], p, s[1..]) && buf[..p] == old(buf[..p]) && buf[p + |s|] == NUL
  {
    var n := StrLen(buf, p, s);
    ghost var was := buf[..];
    forall i | p <= i < p + n {
      buf[i] := buf[i + 1];
    }
    assert buf[p..p + n - 1] == was[p + 1..p + n] == s[1..];
    assert was[p + n] == NUL;
  }

  /** The loop of conf_set_sym_val that takes a string out of its quotes in place. */
  method UnescapeInPlace(buf: array<char>, p: nat, ghost s: string) returns (ok: bool)
    requires Holds(buf[..], p, s)
    modifies buf
    ensures ok <==> Unescaped(s).Some?
    ensures ok ==> Holds(buf[..], p, Unescaped(s).value)
    ensures buf[..p] == old(buf[..p])
  {
    var p2 := p;
    ghost var rest, done := s, "";
    BeforeTwice("", "", Unescaped(s));
    while true
      invariant p <= p2 < buf.Length && Holds(buf[..], p2, rest) && done == buf[p..p2]
      invariant rest == "" || NUL !in done
      invariant Before(done, Unescaped(rest)) == Unescaped(s)
      invariant buf[..p] == old(buf[..p])
      decreases |rest|
    {
      var found;
      found, p2, done, rest := NextSpecial(buf, p, p2, done, rest);
      if !found {
        return false;
      }
      if buf[p2] == '"' {
        EndString(buf, p, p2, done);
        assert Unescaped(rest) == Some("") && done + "" == done;
        return true;
      }
      done, rest := SkipEscape(buf, p, p2, done, rest);
      p2 := p2 + 1;
    }
  }

  method NextSpecial(buf: array<char>, p: nat, p2: nat, ghost done: string, ghost rest: string)
    returns (found: bool, q: nat, ghost done': string, ghost rest': string)
    requires p <= p2 && Holds(buf[..], p2, rest) && done == buf[p..p2] && (rest == "" || NUL !in done)
    ensures !found ==> Unescaped(rest) == None
    ensures found ==> p <= q && Holds(buf[..], q, rest') && done' == buf[p..q] && NUL !in done'
    ensures found ==> rest' != "" && buf[q] == rest'[0] && Special(rest'[0]) && |rest'| <= |rest|
    ensures found ==> Before(done', Unescaped(rest')) == Before(done, Unescaped(rest))
  {
    var n;
    found, n := FindSpecial(buf, p2, rest);
    UnescapedPlain(rest, n);
    q := p2 + n;
    done', rest' := done + rest[..n], rest[n..];
    if found {
      BeforeTwice(done, rest[..n], Unescaped(rest[n..]));
      Advance(buf[..], p, p2, n, done, rest);
      HeldAt(buf[..], q, rest', 0);
    }
  }

  method EndString(buf: array<char>, p: nat, p2: nat, ghost done: string)
    requires p <= p2 < buf.Length && done == buf[p..p2] && NUL !in done
    modifies buf
    ensures Holds(buf[..], p, done) && buf[..p] == old(buf[..p])
  {
    buf[p2] := NUL;
    assert buf[p..p2] == done;
  }

  /** A backslash is dropped, and the character after it is passed over. */
  method SkipEscape(buf: array<char>, p: nat, p2: nat, ghost done: string, ghost rest: string)
    returns (ghost done': string, ghost rest': string)
    requires p <= p2 && Holds(buf[..], p2, rest) && rest != "" && rest[0] == '\\'
    requires done == buf[p..p2] && NUL !in done
    modifies buf
    ensures p2 + 1 < buf.Length && Holds(buf[..], p2 + 1, rest') && done' == buf[p..p2 + 1]
    ensures |rest'| < |rest| && (rest' == "" || NUL !in done')
    ensures Before(done', Unescaped(rest')) == Before(done, Unescaped(rest))
    ensures buf[..p] == old(buf[..p])
  {
    DropFirst(buf, p2, rest);
    assert done == buf[..p2][p..] && buf[..p] == buf[..p2][..p];
    if |rest| == 1 {
      done', rest' := buf[p..p2 + 1], "";
    } else {
      BeforeTwice(done, [rest[1]], Unescaped(rest[2..]));
      Advance(buf[..], p, p2, 1, done, rest[1..]);
      done', rest' := done + [rest[1]], rest[2..];
      assert rest[1..][..1] == [rest[1]] && rest[1..][1..] == rest';
    }
  }

  lemma Advance(buf: seq<char>, p: nat, p2: nat, n: nat, done: string, rest: string)
    requires p <= p2 && Holds(buf, p2, rest) && n <= |rest| && done == buf[p..p2] && NUL !in done
    ensures Holds(buf, p2 + n, rest[n..]) && buf[p..p2 + n] == done + rest[..n] && NUL !in done + rest[..n]
  {
    assert buf[p2..p2 + n] == rest[..n];
    assert buf[p2 + n..p2 + |rest|] == rest[n..];
  }
}
