/**
 What the hashids functions compute, said without them: the shuffle as a composition of
 exchanges with closed-form places, the salt of a shuffle as the front of a text, the value hash
 as a sum, the code as its numbers with a mark between them, guards and padding by place, and
 the shares of the constructor by ratio.
 */
module HashidsLaws {
  import opened Arithmetic
  import opened Hashids
  import opened HashidsCodec

  // ---------------------------------------------------------------- the shuffle

  // The sum of the first `r` characters of the salt written over and over.
  function SumTo(salt: string, r: nat): nat
    requires salt != ""
  {
    if r == 0 then 0 else SumTo(salt, r - 1) + Code(salt[(r - 1) % |salt|])
  }

  // Of `n` places, round `r` exchanges the place n-1-r with this one.
  function Partner(salt: string, n: nat, r: nat): (j: nat)
    requires salt != "" && r + 1 < n
    ensures j < n - 1 - r
  {
    (r % |salt| + Code(salt[r % |salt|]) + SumTo(salt, r + 1)) % (n - 1 - r)
  }

  function Exchange(i: nat, j: nat, p: nat): nat { if p == i then j else if p == j then i else p }

  // The place where the character at place `p` after `r` rounds stood before the first one.
  function Origin(salt: string, n: nat, r: nat, p: nat): (q: nat)
    requires salt != "" && r < n && p < n
    ensures q < n
  {
    if r == 0 then p else Origin(salt, n, r - 1, Exchange(n - r, Partner(salt, n, r - 1), p))
  }

  lemma NextPlace(m: nat, r: nat)
    requires m > 0
    ensures (r % m + 1) % m == (r + 1) % m
  {
    var q := r / m;
    var d := r % m;
    assert r == q * m + d && d < m;
    if d + 1 == m {
      assert r + 1 == (q + 1) * m + 0;
      Remainder(r + 1, m, q + 1, 0);
      Remainder(d + 1, m, 1, 0);
    } else {
      Remainder(r + 1, m, q, d + 1);
      Remainder(d + 1, m, 0, d + 1);
    }
  }

  // The rounds from `r` on, when those before have been done.
  lemma {:induction false} LastRounds(salt: string, s: string, cur: string, r: nat, p: nat)
    requires salt != "" && |cur| == |s| && r < |s| && p < |s|
    requires forall q :: 0 <= q < |s| ==> cur[q] == s[Origin(salt, |s|, r, q)]
    ensures |ReorderFrom(salt, cur, |s| - 1 - r, r % |salt|, SumTo(salt, r))| == |s|
    ensures ReorderFrom(salt, cur, |s| - 1 - r, r % |salt|, SumTo(salt, r))[p]
         == s[Origin(salt, |s|, |s| - 1, p)]
    decreases |s| - r
  {
    hide ReorderFrom, SumTo, Partner, Origin;
    var n := |s|;
    if r + 1 == n {
      NoRounds(salt, cur, r % |salt|, SumTo(salt, r));
    } else {
      OneRound(salt, cur, r);
      var next := Swap(cur, n - 1 - r, Partner(salt, n, r));
      forall q | 0 <= q < n ensures next[q] == s[Origin(salt, n, r + 1, q)] { OneOrigin(salt, s, cur, r, q); }
      LastRounds(salt, s, next, r + 1, p);
    }
  }

  lemma NoRounds(salt: string, s: string, k: nat, sum: nat)
    requires salt != "" && k < |salt|
    ensures ReorderFrom(salt, s, 0, k, sum) == s
  {
  }

  lemma OneRound(salt: string, cur: string, r: nat)
    requires salt != "" && r + 1 < |cur|
    ensures
      var n := |cur|;
      ReorderFrom(salt, cur, n - 1 - r, r % |salt|, SumTo(salt, r))
      == ReorderFrom(salt, Swap(cur, n - 1 - r, Partner(salt, n, r)), n - 2 - r, (r + 1) % |salt|, SumTo(salt, r + 1))
  {
    NextPlace(|salt|, r);
  }

  lemma OneOrigin(salt: string, s: string, cur: string, r: nat, q: nat)
    requires salt != "" && |cur| == |s| && r + 1 < |s| && q < |s|
    requires forall p :: 0 <= p < |s| ==> cur[p] == s[Origin(salt, |s|, r, p)]
    ensures Swap(cur, |s| - 1 - r, Partner(salt, |s|, r))[q] == s[Origin(salt, |s|, r + 1, q)]
  {
    hide Partner;
    var before := Exchange(|s| - 1 - r, Partner(salt, |s|, r), q);
    assert Swap(cur, |s| - 1 - r, Partner(salt, |s|, r))[q] == cur[before];
  }

  // Shuffling moves every character by the composition of the exchanges, and by nothing else.
  lemma ReorderIs(salt: string, s: string, p: nat)
    requires salt != "" && p < |s|
    ensures |Reorder(salt, s)| == |s| && Reorder(salt, s)[p] == s[Origin(salt, |s|, |s| - 1, p)]
  {
    LastRounds(salt, s, s, 0, p);
  }

  // ---------------------------------------------------------------- the code

  lemma AlphabetSaltIs(lottery: char, salt: string, a: string)
    requires a != ""
    ensures AlphabetSalt(lottery, salt, a) == ([lottery] + salt + a)[..|a|]
  {
    var cut := if |a| - 1 <= |salt| then |a| - 1 else |salt|;
    assert salt == salt[..cut] + salt[cut..];
    if cut < |salt| {
      assert ([lottery] + salt + a)[..|a|] == [lottery] + salt[..cut];
    } else {
      assert salt[..cut] == salt;
      assert ([lottery] + salt + a)[..|a|] == [lottery] + salt + a[..|a| - 1 - |salt|];
    }
  }

  // The numbers' remainders by 100, 101, .. added up, without a bound.
  function Weight(values: seq<nat>, n: nat): nat
    requires n <= |values|
  {
    if n == 0 then 0 else Weight(values, n - 1) + values[n - 1] % (n + 99)
  }

  lemma {:induction false} ValueHashIs(values: seq<nat>)
    ensures ValueHash(values) == Weight(values, |values|) % TWO64
  {
    if values != [] {
      var i := |values| - 1;
      ValueHashIs(values[..i]);
      WeightOfFront(values, i, i);
      WrapSum(Weight(values, i), values[i] % (i + 100));
    }
  }

  lemma {:induction false} WeightOfFront(values: seq<nat>, i: nat, n: nat)
    requires n <= i <= |values|
    ensures Weight(values[..i], n) == Weight(values, n)
  {
    if n > 0 { WeightOfFront(values, i, n - 1); }
  }

  lemma WrapSum(a: nat, b: nat)
    ensures (a % TWO64 + b) % TWO64 == (a + b) % TWO64
  {
  }

  // The alphabets one after the other: each shuffles the one before it with the lottery
  // character, the salt and itself.
  ghost predicate Chain(cfg: Config, lottery: char, alphabets: seq<string>) {
    && alphabets != [] && alphabets[0] == cfg.alphabet && cfg.alphabet != ""
    && (forall i :: 0 <= i < |alphabets| ==> |alphabets[i]| == |cfg.alphabet|)
    && (forall i :: 1 <= i < |alphabets| ==> Follows(cfg.salt, lottery, alphabets[i - 1], alphabets[i]))
  }

  ghost predicate Follows(salt: string, lottery: char, a: string, b: string) {
    && |a| == |b| != 0
    && forall p :: 0 <= p < |a| ==> b[p] == a[Origin(([lottery] + salt + a)[..|a|], |a|, |a| - 1, p)]
  }

  lemma FollowsIs(cfg: Config, lottery: char, a: string, b: string)
    requires Follows(cfg.salt, lottery, a, b)
    ensures b == Shuffle(cfg, lottery, a)
  {
    AlphabetSaltIs(lottery, cfg.salt, a);
    var salt := AlphabetSalt(lottery, cfg.salt, a);
    hide Reorder, Origin, AlphabetSalt;
    ReorderPermutes(salt, a);
    forall p | 0 <= p < |a| ensures b[p] == Reorder(salt, a)[p] { ReorderIs(salt, a, p); }
  }

  lemma {:induction false} ChainIs(cfg: Config, lottery: char, alphabets: seq<string>, i: nat)
    requires Chain(cfg, lottery, alphabets) && i < |alphabets|
    ensures alphabets[i] == Shuffled(cfg, lottery, cfg.alphabet, i)
  {
    hide Follows, Shuffle;
    if i > 0 {
      ChainIs(cfg, lottery, alphabets, i - 1);
      FollowsIs(cfg, lottery, alphabets[i - 1], alphabets[i]);
    }
  }

  // There is such a chain of any length.
  lemma {:induction false} ChainExists(cfg: Config, lottery: char, n: nat) returns (alphabets: seq<string>)
    requires cfg.alphabet != ""
    ensures Chain(cfg, lottery, alphabets) && |alphabets| == n + 1
  {
    if n == 0 {
      alphabets := [cfg.alphabet];
    } else {
      alphabets := ChainExists(cfg, lottery, n - 1);
      hide Follows, Shuffle;
      var a := alphabets[n - 1];
      ShuffleFollows(cfg, lottery, a);
      alphabets := alphabets + [Shuffle(cfg, lottery, a)];
    }
  }

  lemma ShuffleFollows(cfg: Config, lottery: char, a: string)
    requires a != ""
    ensures Follows(cfg.salt, lottery, a, Shuffle(cfg, lottery, a))
  {
    AlphabetSaltIs(lottery, cfg.salt, a);
    var salt := AlphabetSalt(lottery, cfg.salt, a);
    hide Reorder, Origin, AlphabetSalt;
    forall p | 0 <= p < |a| ensures Shuffle(cfg, lottery, a)[p] == a[Origin(salt, |a|, |a| - 1, p)] {
      ReorderIs(salt, a, p);
    }
  }

  // Numbers in their alphabets, the mark between two of them chosen by the first's value, its
  // leading digit and its place.
  function Joined(cfg: Config, values: seq<nat>, parts: seq<string>, i: nat): string
    requires |parts| == |values| && i < |values| && cfg.separators != ""
    requires forall k :: 0 <= k < |parts| ==> parts[k] != "" && Code(parts[k][0]) > 0
    decreases |values| - i
  {
    if i + 1 == |values| then parts[i]
    else
      parts[i] + [cfg.separators[values[i] % (Code(parts[i][0]) + i) % |cfg.separators|]]
      + Joined(cfg, values, parts, i + 1)
  }

  lemma {:induction false} SegmentsJoined(cfg: Config, lottery: char, values: seq<nat>, parts: seq<string>, i: nat)
    requires Encodable(cfg) && |parts| == |values| && i < |values|
    requires forall k :: 0 <= k < |parts| ==>
      parts[k] == Digits(cfg, lottery, values, k) && parts[k] != "" && Code(parts[k][0]) > 0
    ensures
      var s := Segments(cfg, lottery, values, i);
      s != "" && s[..|s| - 1] == Joined(cfg, values, parts, i)
    decreases |values| - i
  {
    hide Digits;
    if i + 1 < |values| {
      SegmentsJoined(cfg, lottery, values, parts, i + 1);
      LastOff(parts[i] + [Separator(cfg, values[i], i, parts[i])], Segments(cfg, lottery, values, i + 1));
    } else {
      assert Segments(cfg, lottery, values, i + 1) == "";
      assert Segments(cfg, lottery, values, i) == parts[i] + [Separator(cfg, values[i], i, parts[i])];
    }
  }

  lemma LastOff(head: string, tail: string)
    requires tail != ""
    ensures (head + tail)[..|head + tail| - 1] == head + tail[..|tail| - 1]
  {
  }

  // The code before guards: the lottery character picked by the weight, then each number in the
  // alphabet of its place with the marks between.
  lemma CoreIs(cfg: Config, values: seq<nat>, alphabets: seq<string>)
    requires Encodable(cfg) && values != []
    requires Chain(cfg, cfg.alphabet[Weight(values, |values|) % TWO64 % |cfg.alphabet|], alphabets)
    requires |alphabets| == |values| + 1
    ensures
      var parts := seq(|values|, i requires 0 <= i < |values| => HashNumber(values[i], alphabets[i + 1]));
      && (forall k :: 0 <= k < |parts| ==> Code(parts[k][0]) > 0)
      && Core(cfg, values)
         == [cfg.alphabet[Weight(values, |values|) % TWO64 % |cfg.alphabet|]] + Joined(cfg, values, parts, 0)
  {
    ValueHashIs(values);
    var lottery := cfg.alphabet[ValueHash(values) % |cfg.alphabet|];
    var parts := seq(|values|, i requires 0 <= i < |values| => HashNumber(values[i], alphabets[i + 1]));
    hide Weight, ValueHash, Chain, HashNumber, Shuffled, Segments;
    forall k | 0 <= k < |parts|
      ensures parts[k] == Digits(cfg, lottery, values, k) && Code(parts[k][0]) > 0
    {
      ChainIs(cfg, lottery, alphabets, k + 1);
      DigitsNoNul(cfg, lottery, values, k);
    }
    SegmentsJoined(cfg, lottery, values, parts, 0);
  }

  // ---------------------------------------------------------------- guards and padding

  // The alphabet shuffled `r` times with itself for salt.
  function SelfShuffled(a: string, r: nat): (b: string)
    requires a != ""
    ensures |b| == |a|
  {
    if r == 0 then a
    else
      ReorderPermutes(SelfShuffled(a, r - 1), SelfShuffled(a, r - 1));
      Reorder(SelfShuffled(a, r - 1), SelfShuffled(a, r - 1))
  }

  // What `r` rounds put in front, the latest outermost, and behind.
  function Front(a: string, r: nat): (s: string)
    requires a != ""
    ensures |s| == r * (|a| - |a| / 2)
  {
    if r == 0 then "" else SelfShuffled(a, r)[|a| / 2..] + Front(a, r - 1)
  }

  function Back(a: string, r: nat): (s: string)
    requires a != ""
    ensures |s| == r * (|a| / 2)
  {
    if r == 0 then "" else Back(a, r - 1) + SelfShuffled(a, r)[..|a| / 2]
  }

  lemma Halves(n: nat, r: nat)
    ensures r * (n - n / 2) + r * (n / 2) == r * n
  {
  }

  // How long the text is after `t` rounds.
  function Wrapped(a: string, code: string, t: nat): (w: string)
    requires a != ""
    ensures |w| == |code| + t * |a|
  {
    Halves(|a|, t);
    Front(a, t) + code + Back(a, t)
  }

  lemma {:induction false} PadFrom(a: string, minLen: nat, code: string, t: nat, r: nat)
    requires a != "" && t < r && |code| + (r - 1) * |a| < minLen <= |code| + r * |a|
    ensures
      var w := Wrapped(a, code, r);
      Pad(SelfShuffled(a, t), minLen, Wrapped(a, code, t)) == w[(|w| - minLen) / 2..(|w| - minLen) / 2 + minLen]
    decreases r - t
  {
    hide Wrapped, Pad, SelfShuffled;
    MulMonotone(t, r - 1, |a|);
    PadRound(a, minLen, code, t);
    if t + 1 < r {
      MulMonotone(t + 1, r - 1, |a|);
      PadFrom(a, minLen, code, t + 1, r);
    }
  }

  lemma PadRound(a: string, minLen: nat, code: string, t: nat)
    requires a != "" && |code| + t * |a| < minLen
    ensures
      var w := Wrapped(a, code, t + 1);
      Pad(SelfShuffled(a, t), minLen, Wrapped(a, code, t))
      == if |w| >= minLen then w[(|w| - minLen) / 2..(|w| - minLen) / 2 + minLen]
         else Pad(SelfShuffled(a, t + 1), minLen, w)
  {
    hide Front, Back, Reorder, Pad, Widen;
    Nested(a, code, t);
    PadOnce(SelfShuffled(a, t), minLen, Wrapped(a, code, t));
  }

  lemma PadOnce(b: string, minLen: nat, code: string)
    requires b != "" && |code| < minLen
    ensures |Reorder(b, b)| == |b|
    ensures
      var w := Widen(Reorder(b, b), code);
      Pad(b, minLen, code)
      == if |w| >= minLen then w[(|w| - minLen) / 2..(|w| - minLen) / 2 + minLen] else Pad(Reorder(b, b), minLen, w)
  {
    ReorderPermutes(b, b);
    hide Reorder, Widen;
    var w := Widen(Reorder(b, b), code);
    if |w| == minLen { assert w[0..minLen] == w; }
  }

  lemma Nested(a: string, code: string, t: nat)
    requires a != ""
    ensures Front(a, t + 1) + code + Back(a, t + 1)
         == Widen(SelfShuffled(a, t + 1), Front(a, t) + code + Back(a, t))
  {
    hide SelfShuffled;
  }

  // As many rounds as it takes to reach the length, and no more.
  ghost predicate RoundsTo(minLen: nat, len: nat, step: nat, r: nat) {
    len <= minLen <= len + r * step && (r > 0 ==> len + (r - 1) * step < minLen)
  }

  // Padding is the window of the asked length in the middle of those rounds.
  lemma PadIs(a: string, minLen: nat, code: string, r: nat)
    requires a != "" && RoundsTo(minLen, |code|, |a|, r)
    ensures
      var w := Wrapped(a, code, r);
      |w| >= minLen && Pad(a, minLen, code) == w[(|w| - minLen) / 2..(|w| - minLen) / 2 + minLen]
  {
    hide Wrapped, Pad;
    NoneWrapped(a, code);
    if r > 0 { PadFrom(a, minLen, code, 0, r); } else { NoPad(a, minLen, code); }
  }

  lemma NoneWrapped(a: string, code: string)
    requires a != ""
    ensures Wrapped(a, code, 0) == code
  {
  }

  lemma NoPad(a: string, minLen: nat, code: string)
    requires a != "" && |code| == minLen
    ensures Pad(a, minLen, code) == code == code[0..minLen]
  {
  }

  // The code between its guards: the first is picked by the hash and the lottery character, the
  // second by the hash and the character behind it.
  function Guarded(cfg: Config, hash: nat, code: string): (s: string)
    requires cfg.guards != "" && |code| >= 2
    ensures |s| == |code| + 2
  {
    [cfg.guards[(hash + Code(code[0])) % TWO64 % |cfg.guards|]] + code
    + [cfg.guards[(hash + Code(code[1])) % TWO64 % |cfg.guards|]]
  }

  lemma GuardsAre(cfg: Config, hash: nat, a: string, code: string)
    requires cfg.guards != "" && a != "" && |code| >= 2
    ensures
      var g := Guarded(cfg, hash, code);
      EnsureMinimumLength(cfg, hash, a, code)
      == if |code| + 1 >= cfg.minLen then g[..|code| + 1] else Pad(a, cfg.minLen, g)
  {
    assert Guarded(cfg, hash, code)[..|code| + 1] == [Guard(cfg, hash, code[0])] + code;
  }

  // The whole text: the code, the code behind its first guard, or the middle of the padded code
  // between both, whichever first has the minimum length.
  lemma EncodeIs(cfg: Config, values: seq<nat>, alphabets: seq<string>, r: nat)
    requires Encodable(cfg) && values != [] && |alphabets| == |values| + 1
    requires Chain(cfg, cfg.alphabet[Weight(values, |values|) % TWO64 % |cfg.alphabet|], alphabets)
    requires |Core(cfg, values)| + 1 < cfg.minLen ==>
      RoundsTo(cfg.minLen, |Core(cfg, values)| + 2, |cfg.alphabet|, r)
    ensures |Core(cfg, values)| >= 2
    ensures
      var hash, code := Weight(values, |values|) % TWO64, Core(cfg, values);
      var w := Wrapped(alphabets[|values|], Guarded(cfg, hash, code), r);
      && (|code| >= cfg.minLen ==> Encode(cfg, values) == code)
      && (|code| + 1 == cfg.minLen ==> Encode(cfg, values) == Guarded(cfg, hash, code)[..|code| + 1])
      && (|code| + 1 < cfg.minLen ==>
            |w| >= cfg.minLen
            && Encode(cfg, values) == w[(|w| - cfg.minLen) / 2..(|w| - cfg.minLen) / 2 + cfg.minLen])
  {
    hide Weight, ValueHash, Wrapped, RoundsTo, Pad, Guarded, Core, Encode;
    ValueHashIs(values);
    var hash, a := Weight(values, |values|) % TWO64, alphabets[|values|];
    ChainIs(cfg, cfg.alphabet[hash % |cfg.alphabet|], alphabets, |values|);
    EncodeByLength(cfg, values);
    if |Core(cfg, values)| + 1 < cfg.minLen { PadIs(a, cfg.minLen, Guarded(cfg, hash, Core(cfg, values)), r); }
  }

  lemma EncodeByLength(cfg: Config, values: seq<nat>)
    requires Encodable(cfg) && values != []
    ensures |Core(cfg, values)| >= 2
    ensures
      var hash, code := ValueHash(values), Core(cfg, values);
      var g, a := Guarded(cfg, hash, code), Shuffled(cfg, cfg.alphabet[hash % |cfg.alphabet|], cfg.alphabet, |values|);
      Encode(cfg, values)
      == if |code| >= cfg.minLen then code
         else if |code| + 1 >= cfg.minLen then g[..|code| + 1] else Pad(a, cfg.minLen, g)
  {
    CoreLength(cfg, values);
    hide ValueHash, Pad, EnsureMinimumLength, Guarded, Core, Shuffled;
    var hash := ValueHash(values);
    var a := Shuffled(cfg, cfg.alphabet[hash % |cfg.alphabet|], cfg.alphabet, |values|);
    GuardsAre(cfg, hash, a, Core(cfg, values));
  }

  lemma CoreLength(cfg: Config, values: seq<nat>)
    requires Encodable(cfg) && values != []
    ensures |Core(cfg, values)| >= 2
  {
    NoSegments(cfg, cfg.alphabet[ValueHash(values) % |cfg.alphabet|], values);
  }

  // ---------------------------------------------------------------- the constructor's shares

  ghost predicate InOrder(s: string, list: string) {
    forall i, j :: 0 <= i < j < |s| ==> s[i] in list && s[j] in list && IndexOf(list, s[i]) < IndexOf(list, s[j])
  }

  // The separators stand as in the list of base separators, the alphabet as in the given one.
  lemma {:induction false} FilterInOrder(s: string, keep: string)
    requires NoDup(s)
    ensures InOrder(Filter(s, keep), s)
    ensures forall i :: 0 <= i < |Filter(s, keep)| ==> Filter(s, keep)[i] in s
  {
    if s != "" {
      assert s == [s[0]] + s[1..];
      FrontUnique(s);
      FilterInOrder(s[1..], keep);
    }
  }

  lemma FrontUnique(s: string)
    requires s != "" && NoDup(s)
    ensures NoDup(s[1..]) && s[0] !in s[1..]
  {
    assert s == [s[0]] + s[1..];
    forall c ensures multiset(s[1..])[c] <= 1 { assert multiset(s)[c] <= 1; }
    Members(s[1..]);
    assert multiset(s)[s[0]] == 1 + multiset(s[1..])[s[0]];
  }

  lemma {:induction false} PruneInOrder(s: string, drop: string, seen: set<char>)
    ensures InOrder(Prune(s, drop, seen), s)
    ensures forall i :: 0 <= i < |Prune(s, drop, seen)| ==>
      Prune(s, drop, seen)[i] in s && Prune(s, drop, seen)[i] !in seen
    decreases |s|
  {
    if s != "" { PruneInOrder(s[1..], drop, seen + {s[0]}); }
  }

  // The separators take the least front of the alphabet that makes them two to every seven.
  lemma BalanceIs(seps: string, alpha: string)
    ensures
      var (seps', alpha') := Balance(seps, alpha);
      && seps' + alpha' == seps + alpha && |seps'| >= |seps|
      && 7 * |seps'| >= 2 * |alpha|
      && (|seps'| > |seps| ==> 7 * (|seps'| - 1) < 2 * |alpha|)
  {
  }

  // The guards are the front of the shuffled alphabet, or of the separators when that has fewer
  // than three characters: one to every twelve, rounded up.
  lemma GuardShare(minLen: nat, salt: string, seps: string, alpha: string)
    requires alpha != "" && seps != ""
    ensures
      var cfg := TakeGuards(minLen, salt, seps, alpha);
      && 12 * (|cfg.guards| - 1) < |alpha| <= 12 * |cfg.guards|
      && (if |alpha| < 3 then cfg.alphabet == alpha && cfg.guards + cfg.separators == seps
          else cfg.separators == seps && cfg.guards + cfg.alphabet == alpha)
  {
  }

  // ---------------------------------------------------------------- hexadecimal groups

  function DigitValue(c: char): (v: nat)
    requires IsHex(c)
    ensures v < 16
  {
    if '0' <= c <= '9' then (c - '0') as nat
    else if 'a' <= c <= 'f' then 10 + (c - 'a') as nat
    else 10 + (c - 'A') as nat
  }

  function HexValue(s: string): (v: nat)
    requires AllHex(s)
  {
    if s == "" then 0 else 16 * HexValue(s[..|s| - 1]) + DigitValue(s[|s| - 1])
  }

  lemma DigitFound(c: char)
    requires IsHex(c)
    ensures Find(HEX, Lower(c)) == DigitValue(c)
  {
    HexDigits();
    assert HEX[DigitValue(c)] == Lower(c);
    FindAt(HEX, DigitValue(c));
  }

  // A group is read as its value with a one before its digits.
  lemma {:induction false} GroupValue(group: string)
    requires AllHex(group) && |group| <= 12
    ensures HexValue(group) < Pow(16, |group|)
    ensures Unhash("1" + LowerAll(group), HEX) == Pow(16, |group|) + HexValue(group)
  {
    hide Unhash, Find, LowerAll, NoDup, Pow;
    PowZero();
    HexDigits();
    if group == "" {
      LeadingOne();
    } else {
      var n := |group| - 1;
      var front, last := group[..n], group[n];
      assert group == front + [last];
      GroupValue(front);
      PowStep(16, n);
      GroupRoom(n);
      LowerConcat(front, [last]);
      LowerSingle(last);
      assert "1" + LowerAll(group) == "1" + LowerAll(front) + [Lower(last)];
      LowerInHex(last);
      var d := ReadAppended("1" + LowerAll(front), Lower(last), HEX);
      DigitRead(last, d);
    }
  }

  lemma PowZero()
    ensures Pow(16, 0) == 1
  {
  }

  lemma GroupRoom(n: nat)
    requires n < 12
    ensures 2 * Pow(16, n + 1) < TWO64
  {
    PowSmall(n + 2);
    PowStep(16, n + 1);
  }

  lemma LeadingOne()
    ensures Unhash("1" + LowerAll(""), HEX) == 1
  {
    HexDigits();
    var d := UnhashOne(HEX, '1', 0);
    DigitRead('1', d);
    assert "1" + LowerAll("") == ['1'];
  }

  lemma LowerSingle(c: char)
    ensures LowerAll([c]) == [Lower(c)]
  {
  }

  // The digit read for a character is the character's value.
  lemma DigitRead(c: char, d: nat)
    requires IsHex(c) && d < |HEX| && HEX[d] == Lower(c)
    ensures d == DigitValue(c)
  {
    HexDigits();
    DigitFound(c);
    FindAt(HEX, d);
  }

  // The g-th twelve characters, or what is left of them.
  function Group(hex: string, g: nat): string
    requires 12 * g < |hex|
  {
    if 12 * g + 12 <= |hex| then hex[12 * g..12 * g + 12] else hex[12 * g..]
  }

  ghost predicate Grouped(hex: string, nums: seq<nat>) {
    && 12 * |nums| - 12 < |hex| <= 12 * |nums|
    && forall g :: 0 <= g < |nums| ==>
         AllHex(Group(hex, g)) && nums[g] == Pow(16, |Group(hex, g)|) + HexValue(Group(hex, g))
  }

  // Hexadecimal text is cut into groups of twelve digits, the last one shorter, each the number
  // of its digits with a one before them; other text is refused.
  lemma {:induction false} HexNumbersAre(hex: string)
    ensures HexNumbers(hex).Ok? <==> AllHex(hex)
    ensures HexNumbers(hex).Ok? ==> Grouped(hex, HexNumbers(hex).value)
    decreases |hex|
  {
    if hex != "" {
      var cut := Min(12, |hex|);
      var rest := hex[cut..];
      assert hex == hex[..cut] + rest;
      HexNumbersAre(rest);
      assert AllHex(hex) <==> AllHex(hex[..cut]) && AllHex(rest);
      if AllHex(hex) {
        GroupValue(hex[..cut]);
        hide Unhash, Pow, HexValue, AllHex, Grouped;
        OneMoreGroup(hex, Unhash("1" + LowerAll(hex[..cut]), HEX), HexNumbers(rest).value);
      }
    }
  }

  lemma OneMoreGroup(hex: string, first: nat, nums: seq<nat>)
    requires hex != ""
    requires
      var cut := Min(12, |hex|);
      Grouped(hex[cut..], nums) && AllHex(hex[..cut]) && first == Pow(16, cut) + HexValue(hex[..cut])
    ensures Grouped(hex, [first] + nums)
  {
    hide Pow, HexValue, AllHex, Group;
    FirstGroup(hex);
    var all := [first] + nums;
    forall g | 1 <= g < |all|
      ensures 12 * g < |hex| && AllHex(Group(hex, g)) && all[g] == Pow(16, |Group(hex, g)|) + HexValue(Group(hex, g))
    {
      assert all[g] == nums[g - 1];
      GroupAfter(hex, g);
    }
  }

  lemma FirstGroup(hex: string)
    requires hex != ""
    ensures Group(hex, 0) == hex[..Min(12, |hex|)] && |hex[..Min(12, |hex|)]| == Min(12, |hex|)
  {
  }

  lemma GroupAfter(hex: string, g: nat)
    requires 1 <= g && 12 * g < |hex|
    ensures |hex| > 12 && Group(hex, g) == Group(hex[12..], g - 1)
  {
  }
}
