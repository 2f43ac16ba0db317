/**
 What the constructor makes of the default alphabet: every base separator is taken out of it and
 the other 48 characters stay in their order.
 */
module HashidsDefaults {
  import opened Hashids
  import opened HashidsCodec
  import opened HashidsLaws

  const KEPT := "abdeg" + "jklmnopqrvwxyz" + "ABDEG" + "JKLMNOPQRVWXYZ" + "1234567890"

  // The place of a character in the default alphabet.
  function Rank(c: char): int {
    if 'a' <= c <= 'z' then (c - 'a') as int
    else if 'A' <= c <= 'Z' then 26 + (c - 'A') as int
    else if '1' <= c <= '9' then 52 + (c - '1') as int
    else if c == '0' then 61 else -1
  }

  lemma Runs(i: nat)
    ensures i < 9 ==> "abcdefghi"[i] == 'a' + i as char && "ABCDEFGHI"[i] == 'A' + i as char
    ensures i < 17 ==> "jklmnopqrstuvwxyz"[i] == 'j' + i as char && "JKLMNOPQRSTUVWXYZ"[i] == 'J' + i as char
    ensures i < 10 ==> Rank("1234567890"[i]) == 52 + i
  {
  }

  lemma DefaultRanks(i: nat)
    requires i < 62
    ensures |DEFAULT_ALPHABET| == 62 && Rank(DEFAULT_ALPHABET[i]) == i
  {
    var j :=
      if i < 9 then i else if i < 26 then i - 9 else if i < 35 then i - 26 else if i < 52 then i - 35 else i - 52;
    Runs(j);
    DefaultPieces(i, j);
  }

  lemma DefaultPieces(i: nat, j: nat)
    requires i < 62
    requires j ==
      if i < 9 then i else if i < 26 then i - 9 else if i < 35 then i - 26 else if i < 52 then i - 35 else i - 52
    ensures |DEFAULT_ALPHABET| == 62
    ensures DEFAULT_ALPHABET[i] ==
      if i < 9 then "abcdefghi"[j] else if i < 26 then "jklmnopqrstuvwxyz"[j]
      else if i < 35 then "ABCDEFGHI"[j] else if i < 52 then "JKLMNOPQRSTUVWXYZ"[j] else "1234567890"[j]
  {
  }

  // The default alphabet has exactly the ranked characters, each once.
  lemma DefaultIs()
    ensures forall c :: c in DEFAULT_ALPHABET <==> Rank(c) >= 0
    ensures forall i, j :: 0 <= i < j < |DEFAULT_ALPHABET| ==> DEFAULT_ALPHABET[i] != DEFAULT_ALPHABET[j]
    ensures NoNul(DEFAULT_ALPHABET)
  {
    forall i | 0 <= i < 62 ensures |DEFAULT_ALPHABET| == 62 && Rank(DEFAULT_ALPHABET[i]) == i { DefaultRanks(i); }
    forall c | Rank(c) >= 0 ensures c in DEFAULT_ALPHABET {
      RankInjective(DEFAULT_ALPHABET[Rank(c)], c);
    }
    forall c | c in DEFAULT_ALPHABET ensures Rank(c) >= 0 && Code(c) != 0 { RankCode(c); }
  }

  lemma RankInjective(c: char, d: char)
    requires Rank(c) == Rank(d) >= 0
    ensures c == d
  {
  }

  lemma RankCode(c: char)
    ensures Rank(c) >= 0 ==> Code(c) != 0
  {
  }

  lemma BaseIs(c: char)
    ensures c in BASE_SEPARATORS <==> BasePosition(c) < 14
  {
    if BasePosition(c) < 14 { assert BASE_SEPARATORS[BasePosition(c)] == c; }
  }

  // The characters of `s` outside `drop`.
  function Without(s: string, drop: string): string {
    if s == "" then "" else (if s[0] in drop then "" else [s[0]]) + Without(s[1..], drop)
  }

  lemma {:induction false} PruneDistinct(s: string, drop: string, seen: set<char>)
    requires forall i :: 0 <= i < |s| ==> s[i] !in seen
    requires forall i, j :: 0 <= i < j < |s| ==> s[i] != s[j]
    ensures Prune(s, drop, seen) == Without(s, drop)
    decreases |s|
  {
    if s != "" { PruneDistinct(s[1..], drop, seen + {s[0]}); }
  }

  lemma {:induction false} FilterAll(s: string, keep: string)
    requires AllIn(s, keep)
    ensures Filter(s, keep) == s
  {
    if s != "" {
      FilterAll(s[1..], keep);
      assert s == [s[0]] + s[1..];
    }
  }

  // A run of separators goes, a run of other characters stays.
  lemma {:induction false} WithoutRun(gone: bool, p: string, rest: string)
    requires forall k :: 0 <= k < |p| ==> (BasePosition(p[k]) < 14 <==> gone)
    ensures Without(p + rest, BASE_SEPARATORS) == (if gone then "" else p) + Without(rest, BASE_SEPARATORS)
  {
    if p == "" {
      assert p + rest == rest;
    } else {
      hide BasePosition, Without;
      WithoutHead(p[0], p[1..] + rest);
      assert p + rest == [p[0]] + (p[1..] + rest);
      WithoutRun(gone, p[1..], rest);
      assert p == [p[0]] + p[1..];
    }
  }

  lemma WithoutHead(c: char, rest: string)
    ensures Without([c] + rest, BASE_SEPARATORS)
      == (if BasePosition(c) < 14 then "" else [c]) + Without(rest, BASE_SEPARATORS)
  {
    BaseIs(c);
    assert ([c] + rest)[1..] == rest;
  }

  lemma LowerRuns(rest: string)
    ensures Without("abcdefghi" + rest, BASE_SEPARATORS) == "abdeg" + Without(rest, BASE_SEPARATORS)
  {
    hide Without;
    var s := "hi" + rest;
    var t := "f" + ("g" + s);
    assert "abcdefghi" + rest == "ab" + ("c" + ("de" + t));
    WithoutRun(false, "ab", "c" + ("de" + t));
    WithoutRun(true, "c", "de" + t);
    WithoutRun(false, "de", t);
    WithoutRun(true, "f", "g" + s);
    WithoutRun(false, "g", s);
    WithoutRun(true, "hi", rest);
  }

  lemma UpperRuns(rest: string)
    ensures Without("ABCDEFGHI" + rest, BASE_SEPARATORS) == "ABDEG" + Without(rest, BASE_SEPARATORS)
  {
    hide Without;
    var s := "HI" + rest;
    var t := "F" + ("G" + s);
    assert "ABCDEFGHI" + rest == "AB" + ("C" + ("DE" + t));
    WithoutRun(false, "AB", "C" + ("DE" + t));
    WithoutRun(true, "C", "DE" + t);
    WithoutRun(false, "DE", t);
    WithoutRun(true, "F", "G" + s);
    WithoutRun(false, "G", s);
    WithoutRun(true, "HI", rest);
  }

  lemma LaterRuns(rest: string)
    ensures Without("jklmnopqrstuvwxyz" + rest, BASE_SEPARATORS) == "jklmnopqrvwxyz" + Without(rest, BASE_SEPARATORS)
    ensures Without("JKLMNOPQRSTUVWXYZ" + rest, BASE_SEPARATORS) == "JKLMNOPQRVWXYZ" + Without(rest, BASE_SEPARATORS)
  {
    hide Without;
    assert "jklmnopqrstuvwxyz" + rest == "jklmnopqr" + ("stu" + ("vwxyz" + rest));
    WithoutRun(false, "jklmnopqr", "stu" + ("vwxyz" + rest));
    WithoutRun(true, "stu", "vwxyz" + rest);
    WithoutRun(false, "vwxyz", rest);
    assert "JKLMNOPQRSTUVWXYZ" + rest == "JKLMNOPQR" + ("STU" + ("VWXYZ" + rest));
    WithoutRun(false, "JKLMNOPQR", "STU" + ("VWXYZ" + rest));
    WithoutRun(true, "STU", "VWXYZ" + rest);
    WithoutRun(false, "VWXYZ", rest);
  }

  lemma DefaultWithout()
    ensures Without(DEFAULT_ALPHABET, BASE_SEPARATORS) == KEPT
  {
    hide Without;
    var d := "1234567890";
    Grouped(d);
    LowerRuns("jklmnopqrstuvwxyz" + ("ABCDEFGHI" + ("JKLMNOPQRSTUVWXYZ" + d)));
    LaterRuns("ABCDEFGHI" + ("JKLMNOPQRSTUVWXYZ" + d));
    UpperRuns("JKLMNOPQRSTUVWXYZ" + d);
    LaterRuns(d);
    DigitsRun(d);
    KeptGrouped(d);
  }

  lemma Grouped(d: string)
    requires d == "1234567890"
    ensures DEFAULT_ALPHABET == "abcdefghi" + ("jklmnopqrstuvwxyz" + ("ABCDEFGHI" + ("JKLMNOPQRSTUVWXYZ" + d)))
  {
    Regroup4("abcdefghi", "jklmnopqrstuvwxyz", "ABCDEFGHI", "JKLMNOPQRSTUVWXYZ", d);
  }

  lemma Regroup4(a: string, b: string, c: string, d: string, e: string)
    ensures a + b + c + d + e == a + (b + (c + (d + e)))
  {
  }

  lemma KeptGrouped(d: string)
    requires d == "1234567890"
    ensures KEPT == "abdeg" + ("jklmnopqrvwxyz" + ("ABDEG" + ("JKLMNOPQRVWXYZ" + d)))
  {
    Regroup4("abdeg", "jklmnopqrvwxyz", "ABDEG", "JKLMNOPQRVWXYZ", d);
  }

  lemma DigitsRun(d: string)
    requires d == "1234567890"
    ensures Without(d, BASE_SEPARATORS) == d
  {
    hide Without;
    assert d + "" == d;
    WithoutRun(false, d, "");
    WithoutNone();
  }

  lemma WithoutNone()
    ensures Without("", BASE_SEPARATORS) == ""
  {
  }

  // The separators and the alphabet before any shuffle.
  lemma DefaultParts()
    ensures NoNul(DEFAULT_ALPHABET)
    ensures Filter(BASE_SEPARATORS, DEFAULT_ALPHABET) == BASE_SEPARATORS
    ensures Prune(DEFAULT_ALPHABET, BASE_SEPARATORS, {}) == KEPT
  {
    hide Without, Filter, Prune;
    DefaultIs();
    BaseRanked();
    FilterAll(BASE_SEPARATORS, DEFAULT_ALPHABET);
    PruneDistinct(DEFAULT_ALPHABET, BASE_SEPARATORS, {});
    DefaultWithout();
  }

  lemma BaseRanked()
    ensures forall k :: 0 <= k < |BASE_SEPARATORS| ==> Rank(BASE_SEPARATORS[k]) >= 0
  {
  }
}
