/**
 String operations that the multipart reader is written in.
 */
module MultipartText {

  const NPOS: int := -1

  // The first position from `pos` on at which `pat` stands.
  function Find(s: string, pat: string, pos: nat): (r: int)
    ensures r == NPOS || (pos <= r <= |s| && pat <= s[r..])
    decreases |s| - pos
  {
    if pos > |s| then NPOS
    else if pat <= s[pos..] then pos
    else Find(s, pat, pos + 1)
  }

  lemma {:induction false} FindFirst(s: string, pat: string, pos: nat, at: nat)
    requires pos <= at <= |s| && pat <= s[at..] && forall i :: pos <= i < at ==> !(pat <= s[i..])
    ensures Find(s, pat, pos) == at
    decreases at - pos
  {
    if pos < at { FindFirst(s, pat, pos + 1, at); }
  }

  lemma {:induction false} FindNone(s: string, pat: string, pos: nat, i: nat)
    requires pos <= i <= |s| && pat <= s[i..]
    ensures NPOS != Find(s, pat, pos) <= i
    decreases i - pos
  {
    if pos < i && !(pat <= s[pos..]) { FindNone(s, pat, pos + 1, i); }
  }

  // The parts between the separator characters, empty ones included.
  function Split(s: string, sep: char): (parts: seq<string>)
    ensures parts != []
  {
    if s == "" then [""]
    else
      var rest := Split(s[1..], sep);
      if s[0] == sep then [""] + rest else [[s[0]] + rest[0]] + rest[1..]
  }

  predicate Without(s: string, c: char) { forall i :: 0 <= i < |s| ==> s[i] != c }

  lemma {:induction false} SplitOne(s: string, sep: char)
    requires Without(s, sep)
    ensures Split(s, sep) == [s]
  {
    if s != "" {
      SplitOne(s[1..], sep);
      assert [s[0]] + s[1..] == s;
    }
  }

  lemma {:induction false} SplitMore(s: string, sep: char, rest: string)
    requires Without(s, sep)
    ensures Split(s + [sep] + rest, sep) == [s] + Split(rest, sep)
    decreases |s|
  {
    var whole := s + [sep] + rest;
    if s == "" {
      assert whole[0] == sep && whole[1..] == rest;
    } else {
      assert whole[0] == s[0] && whole[1..] == s[1..] + [sep] + rest;
      SplitMore(s[1..], sep, rest);
      assert [s[0]] + s[1..] == s;
    }
  }

  function TrimLeft(s: string, c: char): string {
    if s != "" && s[0] == c then TrimLeft(s[1..], c) else s
  }

  function TrimRight(s: string, c: char): string {
    if s != "" && s[|s| - 1] == c then TrimRight(s[..|s| - 1], c) else s
  }

  function Trim(s: string, c: char): string { TrimRight(TrimLeft(s, c), c) }

  predicate Bare(s: string, c: char) { s != "" && s[0] != c && s[|s| - 1] != c }

  lemma TrimLead(s: string, c: char)
    requires Bare(s, c)
    ensures Trim([c] + s, c) == s
  {
    assert ([c] + s)[1..] == s;
    assert TrimLeft([c] + s, c) == TrimLeft(s, c) == s;
    assert TrimRight(s, c) == s;
  }

  lemma TrimAround(s: string, c: char)
    requires Bare(s, c)
    ensures Trim([c] + s + [c], c) == s
  {
    var t := s + [c];
    assert [c] + s + [c] == [c] + t && ([c] + t)[1..] == t;
    assert TrimLeft([c] + t, c) == TrimLeft(t, c) == t;
    assert t[..|t| - 1] == s;
    assert TrimRight(t, c) == TrimRight(s, c) == s;
  }

  // ASCII lower case.
  function Lower(c: char): char {
    if 'A' <= c <= 'Z' then c - 'A' + 'a' else c
  }

  predicate SameIgnoringCase(s: string, t: string) {
    |s| == |t| && forall i :: 0 <= i < |s| ==> Lower(s[i]) == Lower(t[i])
  }

  predicate StartsIgnoringCase(s: string, p: string) { |p| <= |s| && SameIgnoringCase(s[..|p|], p) }

  const CRLF := "\r\n"
  const DASHES := "--"

  // No line break inside.
  predicate OneLine(s: string) { forall i :: 0 <= i < |s| - 1 ==> !(s[i] == '\r' && s[i + 1] == '\n') }

  lemma OneLineConcat(s: string, t: string)
    requires OneLine(s) && OneLine(t) && (s == "" || s[|s| - 1] != '\r' || t == "" || t[0] != '\n')
    ensures OneLine(s + t)
  {
  }

  // The first line break is the one behind the line.
  lemma FindBreak(line: string, rest: string)
    requires OneLine(line)
    ensures Find(line + CRLF + rest, CRLF, 0) == |line|
  {
    var s := line + CRLF + rest;
    assert s[|line|..] == CRLF + rest;
    forall i | 0 <= i < |line| ensures !(CRLF <= s[i..]) {
      assert s[i..][0] == s[i] && s[i..][1] == s[i + 1];
    }
    FindFirst(s, CRLF, 0, |line|);
  }
}
