/**
 Tools for following a shuffle on a literal text: nine rounds at a time, with the exchanged
 places and the sums of the salt's codes given, and the code of three small numbers from the
 three alphabets they are written in.
 */
module HashidsRounds {
  import opened Arithmetic
  import opened Hashids
  import opened HashidsCodec
  import opened HashidsLaws
  import opened HashidsDefaults

  // The shuffle with `r` rounds done.
  function Rounds(salt: string, s: string, r: nat): string
    requires salt != ""
  {
    ReorderFrom(salt, s, if r + 1 < |s| then |s| - 1 - r else 0, r % |salt|, SumTo(salt, r))
  }

  function Turn(s: string, i: int, j: nat): (t: string)
    requires i < |s| && j < |s|
    ensures |t| == |s|
  {
    if i <= 0 then s else s[i := s[j]][j := s[i]]
  }

  // The salt's character for round `r` stands at `k` and has this code.
  predicate At(salt: string, r: nat, k: nat, code: int) {
    salt != "" && r % |salt| == k && Code(salt[k]) == code
  }

  lemma AtLap(salt: string, lap: nat, k: nat)
    requires k < |salt|
    ensures At(salt, lap * |salt| + k, k, Code(salt[k]))
  {
    Remainder(lap * |salt| + k, |salt|, lap, k);
  }

  lemma Rung(salt: string, s: string, r: nat, k: nat, sum: nat, next: nat, j: nat)
    requires salt != "" && j < |s|
    requires r + 1 < |s| ==>
      && SumTo(salt, r) == sum && At(salt, r, k, next - sum)
      && j == (k + next - sum + next) % (|s| - 1 - r)
    ensures Rounds(salt, s, r) == Rounds(salt, Turn(s, |s| - 1 - r, j), r + 1)
    ensures r + 1 < |s| ==> SumTo(salt, r + 1) == next
  {
    if r + 1 < |s| { OneRound(salt, s, r); } else { LastRung(salt, s, r); }
  }

  lemma LastRung(salt: string, s: string, r: nat)
    requires salt != "" && r + 1 >= |s|
    ensures Rounds(salt, s, r) == s == Rounds(salt, s, r + 1)
  {
    hide SumTo;
  }

  // Nine exchanges, from the place `i` down; below the first place there is none.
  function Nine(s: string, i: int,
      j0: nat, j1: nat, j2: nat, j3: nat, j4: nat, j5: nat, j6: nat, j7: nat, j8: nat): (t: string)
    requires i < |s| && j0 < |s| && j1 < |s| && j2 < |s| && j3 < |s|
    requires j4 < |s| && j5 < |s| && j6 < |s| && j7 < |s| && j8 < |s|
    ensures |t| == |s|
  {
    var s := Turn(s, i - 0, j0);
    var s := Turn(s, i - 1, j1);
    var s := Turn(s, i - 2, j2);
    var s := Turn(s, i - 3, j3);
    var s := Turn(s, i - 4, j4);
    var s := Turn(s, i - 5, j5);
    var s := Turn(s, i - 6, j6);
    var s := Turn(s, i - 7, j7);
    Turn(s, i - 8, j8)
  }

  lemma Climb(salt: string, s: string, n: nat, r: nat, t: string,
      k0: nat, k1: nat, k2: nat, k3: nat, k4: nat, k5: nat, k6: nat, k7: nat, k8: nat,
      m0: nat, m1: nat, m2: nat, m3: nat, m4: nat, m5: nat, m6: nat, m7: nat, m8: nat, m9: nat,
      j0: nat, j1: nat, j2: nat, j3: nat, j4: nat, j5: nat, j6: nat, j7: nat, j8: nat)
    requires salt != "" && n == |s| && r < n && SumTo(salt, r) == m0
    requires j0 < n && j1 < n && j2 < n && j3 < n && j4 < n && j5 < n && j6 < n && j7 < n && j8 < n
    requires Nine(s, n - 1 - r, j0, j1, j2, j3, j4, j5, j6, j7, j8) == t
    requires r + 1 < n ==> At(salt, r + 0, k0, m1 - m0) && j0 == (k0 + m1 - m0 + m1) % (n - 1 - r - 0)
    requires r + 2 < n ==> At(salt, r + 1, k1, m2 - m1) && j1 == (k1 + m2 - m1 + m2) % (n - 1 - r - 1)
    requires r + 3 < n ==> At(salt, r + 2, k2, m3 - m2) && j2 == (k2 + m3 - m2 + m3) % (n - 1 - r - 2)
    requires r + 4 < n ==> At(salt, r + 3, k3, m4 - m3) && j3 == (k3 + m4 - m3 + m4) % (n - 1 - r - 3)
    requires r + 5 < n ==> At(salt, r + 4, k4, m5 - m4) && j4 == (k4 + m5 - m4 + m5) % (n - 1 - r - 4)
    requires r + 6 < n ==> At(salt, r + 5, k5, m6 - m5) && j5 == (k5 + m6 - m5 + m6) % (n - 1 - r - 5)
    requires r + 7 < n ==> At(salt, r + 6, k6, m7 - m6) && j6 == (k6 + m7 - m6 + m7) % (n - 1 - r - 6)
    requires r + 8 < n ==> At(salt, r + 7, k7, m8 - m7) && j7 == (k7 + m8 - m7 + m8) % (n - 1 - r - 7)
    requires r + 9 < n ==> At(salt, r + 8, k8, m9 - m8) && j8 == (k8 + m9 - m8 + m9) % (n - 1 - r - 8)
    ensures Rounds(salt, s, r) == Rounds(salt, t, r + 9)
    ensures r + 9 < n ==> SumTo(salt, r + 9) == m9
  {
    hide At, Rounds, Turn, SumTo;
    var s0 := s;
    Rung(salt, s0, r + 0, k0, m0, m1, j0);
    var s1 := Turn(s0, n - 1 - r - 0, j0);
    Rung(salt, s1, r + 1, k1, m1, m2, j1);
    var s2 := Turn(s1, n - 1 - r - 1, j1);
    Rung(salt, s2, r + 2, k2, m2, m3, j2);
    var s3 := Turn(s2, n - 1 - r - 2, j2);
    Rung(salt, s3, r + 3, k3, m3, m4, j3);
    var s4 := Turn(s3, n - 1 - r - 3, j3);
    Rung(salt, s4, r + 4, k4, m4, m5, j4);
    var s5 := Turn(s4, n - 1 - r - 4, j4);
    Rung(salt, s5, r + 5, k5, m5, m6, j5);
    var s6 := Turn(s5, n - 1 - r - 5, j5);
    Rung(salt, s6, r + 6, k6, m6, m7, j6);
    var s7 := Turn(s6, n - 1 - r - 6, j6);
    Rung(salt, s7, r + 7, k7, m7, m8, j7);
    var s8 := Turn(s7, n - 1 - r - 7, j7);
    Rung(salt, s8, r + 8, k8, m8, m9, j8);
    var s9 := Turn(s8, n - 1 - r - 8, j8);
  }

  lemma AllRounds(salt: string, s: string, t: string, r: nat)
    requires salt != "" && |s| == |t| != 0 && r + 1 >= |s| && Rounds(salt, s, 0) == Rounds(salt, t, r)
    ensures Reorder(salt, s) == t
  {
    LastRung(salt, t, r);
    NoSum(salt);
  }

  lemma NoSum(salt: string)
    requires salt != ""
    ensures SumTo(salt, 0) == 0
  {
  }

  // ---------------------------------------------------------------- three numbers

  lemma SaltFront(l: char, salt: string, a: string)
    requires |salt| < |a|
    ensures AlphabetSalt(l, salt, a) == [l] + salt + a[..|a| - 1 - |salt|]
  {
    assert salt[..|salt|] == salt;
  }

  lemma CutFour(rest: string)
    ensures ("abdeg" + rest)[..4] == "abde" && ("abdeg" + rest)[4..] == "g" + rest
  {
  }

  lemma ShuffleIs(cfg: Config, l: char, a: string, salt: string, b: string)
    requires a != "" && AlphabetSalt(l, cfg.salt, a) == salt && Reorder(salt, a) == b
    ensures Shuffle(cfg, l, a) == b
  {
  }

  // The constructor on the default alphabet, its two shuffles given.
  lemma DefaultBuild(salt: string, seps: string, alpha: string)
    requires Reorder(salt, BASE_SEPARATORS) == seps && Reorder(salt, KEPT) == alpha
    ensures |alpha| == 48 && Build(0, salt, "") == Ok(Config(0, salt, alpha[4..], seps, alpha[..4]))
    ensures Encodable(Config(0, salt, alpha[4..], seps, alpha[..4])) && |seps| == 14
  {
    ReorderPermutes(salt, BASE_SEPARATORS);
    ReorderPermutes(salt, KEPT);
    DefaultArranged(salt);
    hide Reorder, Build;
    SharesOut(salt, seps, alpha);
    DefaultEncodable(salt, Config(0, salt, alpha[4..], seps, alpha[..4]));
  }

  lemma DefaultArranged(salt: string)
    ensures Build(0, salt, "") == Arrange(0, salt, BASE_SEPARATORS, KEPT)
  {
    hide Arrange, Filter, Prune;
    DefaultParts();
  }

  lemma DefaultEncodable(salt: string, cfg: Config)
    requires Build(0, salt, "") == Ok(cfg)
    ensures Encodable(cfg)
  {
    hide Build, Pool;
    DefaultParts();
    BuildSound(0, salt, "");
  }

  lemma SharesOut(salt: string, seps: string, alpha: string)
    requires Reorder(salt, BASE_SEPARATORS) == seps && Reorder(salt, KEPT) == alpha
    requires |seps| == 14 && |alpha| == 48
    ensures Arrange(0, salt, BASE_SEPARATORS, KEPT) == Ok(Config(0, salt, alpha[4..], seps, alpha[..4]))
  {
    hide Reorder;
    assert seps + KEPT[..0] == seps && KEPT[0..] == KEPT;
    assert Balance(seps, KEPT) == (seps, KEPT);
    assert TakeGuards(0, salt, seps, alpha) == Config(0, salt, alpha[4..], seps, alpha[..4]);
  }

  // Three one-digit numbers in their alphabets, with the marks for a one and a two between them.
  lemma EncodeThree(cfg: Config, l: char, a1: string, a2: string, a3: string)
    requires Encodable(cfg) && cfg.minLen == 0 && |cfg.alphabet| == 44 && |cfg.separators| == 14
    requires l == cfg.alphabet[6] && a1 == Shuffle(cfg, l, cfg.alphabet)
    requires a2 == Shuffle(cfg, l, a1) && a3 == Shuffle(cfg, l, a2)
    ensures Code(a1[1]) > 0
    ensures Encode(cfg, [1, 2, 3])
         == [l, a1[1], cfg.separators[1 % Code(a1[1]) % 14], a2[2], cfg.separators[2 % (Code(a2[2]) + 1) % 14], a3[3]]
  {
    var values: seq<nat> := [1, 2, 3];
    HashOfThree();
    ShuffledThree(cfg, l, a1, a2, a3);
    OneDigit(1, a1);
    OneDigit(2, a2);
    OneDigit(3, a3);
    SegmentsOfThree(cfg, l, a1, a2, a3);
    hide Segments, ValueHash, Shuffle, Shuffled;
    var s := Segments(cfg, l, values, 0);
    assert Core(cfg, values) == [l] + s[..|s| - 1];
  }

  lemma EncodeThreeAs(cfg: Config, l: char, a1: string, a2: string, a3: string,
      c1: char, s1: char, c2: char, s2: char, c3: char)
    requires Encodable(cfg) && cfg.minLen == 0 && |cfg.alphabet| == 44 && |cfg.separators| == 14
    requires l == cfg.alphabet[6] && a1 == Shuffle(cfg, l, cfg.alphabet)
    requires a2 == Shuffle(cfg, l, a1) && a3 == Shuffle(cfg, l, a2)
    requires a1[1] == c1 && a2[2] == c2 && a3[3] == c3 && Code(c1) > 1 && Code(c2) > 1
    requires cfg.separators[1] == s1 && cfg.separators[2] == s2
    ensures Encode(cfg, [1, 2, 3]) == [l, c1, s1, c2, s2, c3]
  {
    hide Encode, Shuffle, Encodable, Code;
    EncodeThree(cfg, l, a1, a2, a3);
    SmallMod(1, Code(c1));
    SmallMod(2, Code(c2) + 1);
  }

  lemma SmallMod(n: nat, d: nat)
    requires n < d
    ensures n % d == n
  {
    Remainder(n, d, 0, n);
  }

  lemma HashOfThree()
    ensures ValueHash([1, 2, 3]) == 6
  {
    ValueHashIs([1, 2, 3]);
    assert Weight([1, 2, 3], 1) == 1;
    assert Weight([1, 2, 3], 2) == 3;
    assert Weight([1, 2, 3], 3) == 6;
  }

  lemma ShuffledThree(cfg: Config, l: char, a1: string, a2: string, a3: string)
    requires cfg.alphabet != "" && a1 == Shuffle(cfg, l, cfg.alphabet)
    requires a2 == Shuffle(cfg, l, a1) && a3 == Shuffle(cfg, l, a2)
    ensures Shuffled(cfg, l, cfg.alphabet, 1) == a1
    ensures Shuffled(cfg, l, cfg.alphabet, 2) == a2
    ensures Shuffled(cfg, l, cfg.alphabet, 3) == a3
  {
    hide Shuffle;
    assert Shuffled(cfg, l, cfg.alphabet, 0) == cfg.alphabet;
  }

  lemma OneDigit(n: nat, a: string)
    requires n < |a| && |a| >= 2
    ensures HashNumber(n, a) == [a[n]]
  {
    DivMod(n, |a|);
  }

  lemma SegmentsOfThree(cfg: Config, l: char, a1: string, a2: string, a3: string)
    requires Encodable(cfg) && |cfg.alphabet| == 44 && |cfg.separators| == 14
    requires Shuffled(cfg, l, cfg.alphabet, 1) == a1 && HashNumber(1, a1) == [a1[1]]
    requires Shuffled(cfg, l, cfg.alphabet, 2) == a2 && HashNumber(2, a2) == [a2[2]]
    requires Shuffled(cfg, l, cfg.alphabet, 3) == a3 && HashNumber(3, a3) == [a3[3]]
    ensures Code(a1[1]) > 0
    ensures
      var s := Segments(cfg, l, [1, 2, 3], 0);
      s != "" && s[..|s| - 1]
      == [a1[1], cfg.separators[1 % Code(a1[1]) % 14], a2[2], cfg.separators[2 % (Code(a2[2]) + 1) % 14], a3[3]]
  {
    var values: seq<nat> := [1, 2, 3];
    hide Shuffled, HashNumber, Segments;
    LaterSegment(cfg, l, values, 0);
    LaterSegment(cfg, l, values, 1);
    LaterSegment(cfg, l, values, 2);
    NoSegments(cfg, l, values);
    assert values[0] == 1 && values[1] == 2 && values[2] == 3;
  }

  lemma LaterSegment(cfg: Config, l: char, values: seq<nat>, i: nat)
    requires Encodable(cfg) && i < |values|
    ensures Code(Digits(cfg, l, values, i)[0]) > 0
    ensures
      var hashed, seps := Digits(cfg, l, values, i), cfg.separators;
      Segments(cfg, l, values, i)
      == hashed + [seps[values[i] % (Code(hashed[0]) + i) % |seps|]] + Segments(cfg, l, values, i + 1)
  {
    DigitsNoNul(cfg, l, values, i);
  }
}
