/**
 The hashids code in its own form: strings shuffled in place, results and alphabets built up by
 loops.  Each method is proved to compute the function of the same operation in `Hashids`.
 */
module HashidsCodec {
  import opened Arithmetic
  import opened Hashids

  method ReorderInPlace(salt: string, str: array<char>)
    requires CanReorder(salt, str[..])
    modifies str
    ensures str[..] == Reorder(salt, old(str[..]))
  {
    if salt == "" { return; }
    var k, sum := 0, 0;
    var i := str.Length - 1;
    while i > 0
      invariant 0 <= i < str.Length && 0 <= k < |salt| && sum >= 0
      invariant ReorderFrom(salt, str[..], i, k, sum) == Reorder(salt, old(str[..]))
    {
      var n := Code(salt[k]);
      sum := sum + n;
      var j := (k + n + sum) % i;
      ghost var before := str[..];
      str[i], str[j] := str[j], str[i];
      assert str[..] == Swap(before, i, j);
      k := (k + 1) % |salt|;
      i := i - 1;
    }
  }

  // The shuffle of a string value: copied out, shuffled in place, copied back.
  method Reordered(salt: string, s: string) returns (r: string)
    requires CanReorder(salt, s)
    ensures r == Reorder(salt, s)
  {
    var a := new char[|s|](i requires 0 <= i < |s| => s[i]);
    assert a[..] == s;
    ReorderInPlace(salt, a);
    r := a[..];
  }

  function Reversed(s: string): (r: string)
    ensures |r| == |s|
  {
    if s == "" then "" else Reversed(s[1..]) + [s[0]]
  }

  lemma {:induction false} ReversedSnoc(s: string, c: char)
    ensures Reversed(s + [c]) == [c] + Reversed(s)
  {
    if s != "" {
      assert (s + [c])[1..] == s[1..] + [c];
      ReversedSnoc(s[1..], c);
    } else {
      assert s + [c] == [c];
    }
  }

  // The digits of what is left to write.
  function Above(n: nat, a: string): string
    requires |a| >= 2
  {
    if n == 0 then "" else HashNumber(n, a)
  }

  lemma HashStep(n: nat, a: string, built: string)
    requires |a| >= 2
    ensures n / |a| >= 0 && (n > 0 ==> n / |a| < n)
    ensures HashNumber(n, a) + Reversed(built) == Above(n / |a|, a) + Reversed(built + [a[n % |a|]])
  {
    hide HashNumber, Above, Reversed;
    DigitsAbove(n, a);
    ReversedSnoc(built, a[n % |a|]);
    Regroup(Above(n / |a|, a), [a[n % |a|]], Reversed(built));
  }

  lemma Regroup(p: string, q: string, r: string)
    ensures p + q + r == p + (q + r)
  {
  }

  lemma NoneReversed(s: string)
    ensures s + Reversed("") == s && "" + Reversed(s) == Reversed(s)
  {
  }

  lemma DigitsAbove(n: nat, a: string)
    requires |a| >= 2
    ensures n / |a| >= 0 && (n > 0 ==> n / |a| < n)
    ensures HashNumber(n, a) == Above(n / |a|, a) + [a[n % |a|]]
  {
    DivMod(n, |a|);
  }

  // Least significant character first, then reversed.
  method HashNumberLoop(number: nat, a: string) returns (hashed: string)
    requires |a| >= 2
    ensures hashed == HashNumber(number, a)
  {
    var built := "" + [a[number % |a|]];
    var n: nat := number / |a|;
    hide HashNumber, Reversed;
    NoneReversed(HashNumber(number, a));
    HashStep(number, a, "");
    while n != 0
      invariant HashNumber(number, a) == Above(n, a) + Reversed(built)
    {
      HashStep(n, a, built);
      built := built + [a[n % |a|]];
      n := n / |a|;
    }
    NoneReversed(built);
    hashed := Reversed(built);
  }

  method UnhashLoop(hashed: string, a: string) returns (num: nat)
    ensures num == Unhash(hashed, a)
  {
    num := 0;
    var i := 0;
    while i < |hashed|
      invariant 0 <= i <= |hashed|
      invariant UnhashFrom(hashed[i..], a, num) == Unhash(hashed, a)
    {
      num := ((num * |a|) % TWO64 + Find(a, hashed[i])) % TWO64;
      i := i + 1;
    }
  }

  method ValueHashLoop(values: seq<nat>) returns (hash: nat)
    ensures hash == ValueHash(values)
  {
    hash := 0;
    var i := 0;
    while i < |values|
      invariant 0 <= i <= |values| && hash == ValueHash(values[..i])
    {
      assert values[..i + 1][..i] == values[..i];
      hash := (hash + values[i] % (i + 100)) % TWO64;
      i := i + 1;
    }
    assert values[..i] == values;
  }

  // One more segment, with the alphabet of its position.
  lemma SegmentStep(cfg: Config, lottery: char, values: seq<nat>, i: nat, alphabet: string, result: string)
    requires Encodable(cfg) && i < |values|
    requires alphabet == Shuffled(cfg, lottery, cfg.alphabet, i + 1)
    ensures
      var hashed := HashNumber(values[i], alphabet);
      && Code(hashed[0]) + i > 0
      && result + Segments(cfg, lottery, values, i)
          == result + hashed + [cfg.separators[values[i] % (Code(hashed[0]) + i) % |cfg.separators|]]
             + Segments(cfg, lottery, values, i + 1)
  {
    DigitsNoNul(cfg, lottery, values, i);
    var hashed := Digits(cfg, lottery, values, i);
    var sep := Separator(cfg, values[i], i, hashed);
    var rest := Segments(cfg, lottery, values, i + 1);
    assert Segments(cfg, lottery, values, i) == hashed + [sep] + rest;
    assert result + (hashed + [sep] + rest) == result + hashed + [sep] + rest;
  }

  // Digits and separators while the alphabet evolves.
  method SegmentsLoop(cfg: Config, lottery: char, values: seq<nat>) returns (result: string, alphabet: string)
    requires Encodable(cfg)
    ensures alphabet == Shuffled(cfg, lottery, cfg.alphabet, |values|)
    ensures result == [lottery] + Segments(cfg, lottery, values, 0)
  {
    hide Segments, Reorder, AlphabetSalt;
    result, alphabet := [lottery], cfg.alphabet;
    var i := 0;
    while i < |values|
      invariant 0 <= i <= |values|
      invariant alphabet == Shuffled(cfg, lottery, cfg.alphabet, i)
      invariant result + Segments(cfg, lottery, values, i) == [lottery] + Segments(cfg, lottery, values, 0)
    {
      alphabet := Reordered(AlphabetSalt(lottery, cfg.salt, alphabet), alphabet);
      SegmentStep(cfg, lottery, values, i, alphabet, result);
      var hashed := HashNumberLoop(values[i], alphabet);
      result := result + hashed + [cfg.separators[values[i] % (Code(hashed[0]) + i) % |cfg.separators|]];
      i := i + 1;
    }
    NoSegments(cfg, lottery, values);
    assert result + "" == result;
  }

  lemma NoSegments(cfg: Config, lottery: char, values: seq<nat>)
    requires Encodable(cfg)
    ensures Segments(cfg, lottery, values, |values|) == ""
    ensures values != [] ==> |Segments(cfg, lottery, values, 0)| >= 2
  {
    if values != [] { SegmentStep(cfg, lottery, values, 0, Shuffled(cfg, lottery, cfg.alphabet, 1), ""); }
  }

  // encode: the value hash, the lottery character and the numbers; guards only when too short.
  method EncodeLoop(cfg: Config, values: seq<nat>) returns (result: string)
    requires Encodable(cfg)
    ensures result == Encode(cfg, values)
  {
    if values == [] { return ""; }
    hide Segments, Shuffled, ValueHash, EnsureMinimumLength;
    var hash := ValueHashLoop(values);
    var lottery := cfg.alphabet[hash % |cfg.alphabet|];
    var alphabet;
    result, alphabet := SegmentsLoop(cfg, lottery, values);
    NoSegments(cfg, lottery, values);
    result := result[..|result| - 1];
    assert result == Core(cfg, values);
    if |result| < cfg.minLen {
      result := EnsureMinimumLengthLoop(cfg, hash, alphabet, result);
    }
  }

  method EnsureMinimumLengthLoop(cfg: Config, hash: nat, prev: string, code: string) returns (encoded: string)
    requires cfg.guards != "" && |prev| >= 1 && |code| >= 2
    ensures encoded == EnsureMinimumLength(cfg, hash, prev, code)
  {
    hide Reorder;
    encoded := [cfg.guards[(hash + Code(code[0])) % TWO64 % |cfg.guards|]] + code;
    if |encoded| >= cfg.minLen { return; }
    encoded := encoded + [cfg.guards[(hash + Code(encoded[2])) % TWO64 % |cfg.guards|]];
    var alphabet := prev;
    var mid := |prev| / 2;
    while |encoded| < cfg.minLen
      invariant |alphabet| == |prev|
      invariant Pad(alphabet, cfg.minLen, encoded) == EnsureMinimumLength(cfg, hash, prev, code)
      decreases cfg.minLen - |encoded|
    {
      ReorderPermutes(alphabet, alphabet);
      alphabet := Reordered(alphabet, alphabet);
      encoded := alphabet[mid..] + encoded;
      encoded := encoded + alphabet[..mid];
      if |encoded| > cfg.minLen {
        var idx := (|encoded| - cfg.minLen) / 2;
        encoded := encoded[idx..idx + cfg.minLen];
      }
    }
  }

  method UnhashAllLoop(cfg: Config, lottery: char, hashes: seq<string>) returns (nums: seq<nat>)
    requires Usable(cfg)
    ensures nums == UnhashAll(cfg, lottery, hashes, 0)
  {
    hide Unhash, Reorder, AlphabetSalt;
    var alphabet, k := cfg.alphabet, 0;
    nums := [];
    while k < |hashes|
      invariant 0 <= k <= |hashes|
      invariant alphabet == Shuffled(cfg, lottery, cfg.alphabet, k)
      invariant nums + UnhashAll(cfg, lottery, hashes, k) == UnhashAll(cfg, lottery, hashes, 0)
    {
      alphabet := Reordered(AlphabetSalt(lottery, cfg.salt, alphabet), alphabet);
      var num := UnhashLoop(hashes[k], alphabet);
      ghost var rest := UnhashAll(cfg, lottery, hashes, k + 1);
      assert nums + ([num] + rest) == nums + [num] + rest;
      nums := nums + [num];
      k := k + 1;
    }
  }

  // decode: unguard, split, read each number in its alphabet, then encode again to compare.
  method DecodeLoop(cfg: Config, hashid: string) returns (r: Result<seq<nat>>)
    requires Encodable(cfg)
    ensures r == Decode(cfg, hashid)
  {
    hide Encode, UnhashAll, Split;
    if hashid == "" { return Ok([]); }
    var parts := Split(hashid, cfg.guards);
    var encoded;
    if |parts| == 1 {
      encoded := parts[0];
    } else if |parts| == 2 || |parts| == 3 {
      encoded := parts[1];
    } else {
      return Err(BadGuards);
    }
    if encoded == "" { return Err(NoData); }
    var nums := UnhashAllLoop(cfg, encoded[0], Split(encoded[1..], cfg.separators));
    var again := EncodeLoop(cfg, nums);
    if again != hashid { return Err(Mismatch); }
    r := Ok(nums);
  }

  lemma FilterStep(s: string, i: nat, keep: string, out: string)
    requires i < |s|
    ensures out + Filter(s[i..], keep) == (if s[i] in keep then out + [s[i]] else out) + Filter(s[i + 1..], keep)
  {
    assert s[i..][0] == s[i] && s[i..][1..] == s[i + 1..];
  }

  lemma FilterEnd(s: string, keep: string)
    ensures s[0..] == s && forall k :: k == |s| ==> Filter(s[k..], keep) == ""
  {
  }

  lemma PruneStep(s: string, i: nat, drop: string, seen: set<char>, out: string)
    requires i < |s|
    ensures out + Prune(s[i..], drop, seen)
      == (if s[i] !in seen && s[i] !in drop then out + [s[i]] else out) + Prune(s[i + 1..], drop, seen + {s[i]})
  {
    assert s[i..][0] == s[i] && s[i..][1..] == s[i + 1..];
  }

  lemma PruneEnd(s: string, drop: string)
    ensures s[0..] == s && forall seen :: Prune("", drop, seen) == ""
  {
  }

  // The base separators that the alphabet holds.
  method CopyIf(base: string, alphabet: string) returns (separators: string)
    ensures separators == Filter(base, alphabet)
  {
    hide Filter;
    separators := "";
    var i := 0;
    FilterEnd(base, alphabet);
    while i < |base|
      invariant 0 <= i <= |base|
      invariant separators + Filter(base[i..], alphabet) == Filter(base, alphabet)
    {
      FilterStep(base, i, alphabet, separators);
      if base[i] in alphabet { separators := separators + [base[i]]; }
      i := i + 1;
    }
  }

  // Separators and characters seen before are removed from the alphabet.
  method RemoveRepeats(alphabet: string, separators: string) returns (kept: string)
    ensures kept == Prune(alphabet, separators, {})
  {
    hide Prune;
    var seen: set<char>, i := {}, 0;
    kept := "";
    PruneEnd(alphabet, separators);
    while i < |alphabet|
      invariant 0 <= i <= |alphabet|
      invariant kept + Prune(alphabet[i..], separators, seen) == Prune(alphabet, separators, {})
    {
      var ch := alphabet[i];
      PruneStep(alphabet, i, separators, seen, kept);
      if ch !in seen && ch !in separators { kept := kept + [ch]; }
      seen := seen + {ch};
      i := i + 1;
    }
    assert alphabet[i..] == "";
  }

  // The constructor: copy the separators out, drop them and the repeats, then share out.
  method BuildLoop(minLen: nat, salt: string, custom: string) returns (r: Result<Config>)
    ensures r == Build(minLen, salt, custom)
  {
    hide Filter, Prune, Reorder;
    var alphabet := if custom == "" then DEFAULT_ALPHABET else custom;
    var separators := CopyIf(BASE_SEPARATORS, alphabet);
    alphabet := RemoveRepeats(alphabet, separators);
    r := ArrangeLoop(minLen, salt, separators, alphabet);
  }

  method ArrangeLoop(minLen: nat, salt: string, seps: string, alpha: string) returns (r: Result<Config>)
    ensures r == Arrange(minLen, salt, seps, alpha)
  {
    hide Reorder;
    var separators, alphabet := seps, alpha;
    if |separators| + |alphabet| < MIN_UNIQUE { return Err(TooFewCharacters); }
    if !CanReorder(salt, separators) { return Err(Underflow); }
    separators := Reordered(salt, separators);
    assert separators + alphabet[..0] == separators && alphabet[0..] == alphabet;
    var wanted := CeilDiv(2 * |alphabet|, 7);
    if wanted > |separators| {
      var delta := Min(wanted - |separators|, |alphabet|);
      separators := separators + alphabet[..delta];
      alphabet := alphabet[delta..];
    }
    assert separators == Balance(Reorder(salt, seps), alpha).0 && alphabet == Balance(Reorder(salt, seps), alpha).1;
    if !CanReorder(salt, alphabet) { return Err(Underflow); }
    alphabet := Reordered(salt, alphabet);
    var count := CeilDiv(|alphabet|, 12);
    if |alphabet| < 3 {
      var cut := Min(count, |separators|);
      r := Ok(Config(minLen, salt, alphabet, separators[cut..], separators[..cut]));
    } else {
      var cut := Min(count, |alphabet|);
      r := Ok(Config(minLen, salt, alphabet[cut..], separators, alphabet[..cut]));
    }
  }

  // ---------------------------------------------------------------- hexadecimal strings

  const HEX := "0123456789abcdef"
  const GROUP := 12

  function Lower(c: char): char {
    if 'A' <= c <= 'F' then c - 'A' + 'a' else c
  }

  predicate IsHex(c: char) { '0' <= c <= '9' || 'a' <= c <= 'f' || 'A' <= c <= 'F' }

  function LowerAll(s: string): (r: string)
    ensures |r| == |s| && forall k :: 0 <= k < |s| ==> r[k] == Lower(s[k])
  {
    if s == "" then "" else [Lower(s[0])] + LowerAll(s[1..])
  }

  predicate AllHex(s: string) { forall k :: 0 <= k < |s| ==> IsHex(s[k]) }

  // Groups of twelve digits, each behind a '1' that keeps its leading zeros, read in base 16;
  // a group with any other character is not read to its end, which is the error.
  function HexNumbers(hex: string): Result<seq<nat>> {
    if hex == "" then Ok([])
    else
      var cut := Min(GROUP, |hex|);
      var group := hex[..cut];
      if !AllHex(group) then Err(InvalidHex)
      else
        var rest := HexNumbers(hex[cut..]);
        if rest.Err? then rest else Ok([Unhash("1" + LowerAll(group), HEX)] + rest.value)
  }

  function EncodeHex(cfg: Config, hex: string): Result<string>
    requires Encodable(cfg)
  {
    if hex == "" then Ok("")
    else
      var nums := HexNumbers(hex);
      if nums.Err? then Err(nums.error) else Ok(Encode(cfg, nums.value))
  }

  // The digits after the leading one.
  function HexText(nums: seq<nat>): string {
    if nums == [] then "" else HashNumber(nums[0], HEX)[1..] + HexText(nums[1..])
  }

  function DecodeHex(cfg: Config, hashid: string): Result<string>
    requires Encodable(cfg)
  {
    if hashid == "" then Ok("")
    else
      var nums := Decode(cfg, hashid);
      if nums.Err? then Err(nums.error) else Ok(HexText(nums.value))
  }

  // The lower-case digits stand in the digit alphabet, each once, and zero is the first.
  lemma HexDigits()
    ensures NoDup(HEX) && |HEX| == 16 && HEX[0] == '0'
    ensures forall c :: '0' <= c <= '9' || 'a' <= c <= 'f' ==> c in HEX
  {
    forall c | '0' <= c <= '9' || 'a' <= c <= 'f' ensures c in HEX {
      var v := if c <= '9' then (c - '0') as int else (c - 'a') as int + 10;
      assert HEX[v] == c;
    }
    forall i, j | 0 <= i < j < 16 ensures HEX[i] != HEX[j] {
      assert HEX[i] < HEX[j];
    }
    DistinctNoDup(HEX);
  }

  function Pow(b: nat, n: nat): nat { if n == 0 then 1 else b * Pow(b, n - 1) }

  lemma {:induction false} PowMonotone(b: nat, m: nat, n: nat)
    requires m <= n && b >= 1
    ensures 1 <= Pow(b, m) <= Pow(b, n)
    decreases n
  {
    if m < n {
      PowMonotone(b, m, n - 1);
      Grows(b, Pow(b, n - 1));
    } else if m > 0 {
      PowMonotone(b, m - 1, n - 1);
      Grows(b, Pow(b, m - 1));
    }
  }

  lemma PowStep(b: nat, e: nat)
    requires b >= 1
    ensures Pow(b, e + 1) == Pow(b, e) * b >= Pow(b, e)
    ensures e == 0 ==> Pow(b, e) == 1
  {
    PowMonotone(b, e, e + 1);
  }

  lemma {:induction false} UnhashOne(a: string, c: char, num: nat) returns (d: nat)
    requires NoDup(a) && c in a && num * |a| + |a| <= TWO64
    ensures d < |a| && a[d] == c && UnhashFrom([c], a, num) == num * |a| + d
  {
    d := IndexOf(a, c);
    DigitStep(a, d, num);
  }

  lemma LastDigit(b: nat, q: nat, d: nat)
    requires b >= 2 && d < b
    ensures (q * b + d) / b == q && (q * b + d) % b == d
    ensures q >= 1 ==> q * b + d >= b
  {
    Remainder(q * b + d, b, q, d);
    if q >= 1 { Grows(q, b); }
  }

  // One more digit: reading appends it and writing splits it off.
  lemma AppendDigit(p: string, c: char, a: string)
    requires |a| >= 2 && NoDup(a) && c in a && 1 <= Unhash(p, a) && Unhash(p, a) * |a| + |a| <= TWO64
    requires HashNumber(Unhash(p, a), a) == p
    ensures 1 <= Unhash(p + [c], a) < Unhash(p, a) * |a| + |a|
    ensures HashNumber(Unhash(p + [c], a), a) == p + [c]
  {
    hide HashNumber, Unhash, NoDup;
    var d := ReadAppended(p, c, a);
    LastDigit(|a|, Unhash(p, a), d);
    HashLast(Unhash(p + [c], a), a);
  }

  lemma ReadAppended(p: string, c: char, a: string) returns (d: nat)
    requires NoDup(a) && c in a && Unhash(p, a) * |a| + |a| <= TWO64
    ensures d < |a| && a[d] == c && Unhash(p + [c], a) == Unhash(p, a) * |a| + d
  {
    d := UnhashOne(a, c, Unhash(p, a));
    UnhashConcat(p, [c], a, 0);
  }

  lemma HashLast(n: nat, a: string)
    requires |a| >= 2 && n >= |a|
    ensures n / |a| >= 0 && HashNumber(n, a) == HashNumber(n / |a|, a) + [a[n % |a|]]
  {
    DivMod(n, |a|);
  }

  lemma FirstDigit(c: char, a: string)
    requires |a| >= 2 && NoDup(a) && c in a && c != a[0] && |a| <= TWO64
    ensures 1 <= Unhash([c], a) < |a|
    ensures HashNumber(Unhash([c], a), a) == [c]
  {
    var d := UnhashOne(a, c, 0);
    hide UnhashFrom, NoDup;
    DivMod(d, |a|);
  }

  // Writing undoes reading for a text of the alphabet's characters that does not start with its
  // zero and is short enough not to wrap.
  lemma {:induction false} HashInvertsUnhash(s: string, a: string)
    requires |a| >= 2 && NoDup(a) && s != "" && AllIn(s, a) && s[0] != a[0] && Pow(|a|, |s|) <= TWO64
    ensures 1 <= Unhash(s, a) < Pow(|a|, |s|)
    ensures HashNumber(Unhash(s, a), a) == s
    decreases |s|
  {
    var p, c := s[..|s| - 1], s[|s| - 1];
    var b, e := |a|, |s| - 1;
    assert s == p + [c] && c in a;
    PowStep(b, e);
    hide Unhash, HashNumber, NoDup, Pow;
    if p == "" {
      FirstDigit(c, a);
    } else {
      HashInvertsUnhash(p, a);
      Gap(Unhash(p, a), Pow(b, e), b);
      AppendDigit(p, c, a);
    }
  }

  lemma PowSmall(n: nat)
    requires n <= 13
    ensures Pow(16, n) <= TWO64
  {
    PowMonotone(16, n, 13);
    assert Pow(16, 4) == 0x1_0000;
    assert Pow(16, 8) == 0x1_0000_0000;
    assert Pow(16, 12) == 0x1_0000_0000_0000;
  }

  lemma LowerInHex(c: char)
    requires IsHex(c)
    ensures Lower(c) in HEX
  {
    HexDigits();
  }

  lemma GroupDigits(group: string)
    requires AllHex(group)
    ensures AllIn("1" + LowerAll(group), HEX)
  {
    LowerInHex('1');
    forall k | 0 <= k < |group| ensures LowerAll(group)[k] in HEX { LowerInHex(group[k]); }
  }

  // One group of digits behind its leading one.
  lemma GroupInverts(group: string)
    requires AllHex(group) && |group| <= GROUP
    ensures HashNumber(Unhash("1" + LowerAll(group), HEX), HEX) == "1" + LowerAll(group)
  {
    hide Pow, NoDup, Unhash, HashNumber, LowerAll, AllIn, AllHex;
    HexDigits();
    GroupDigits(group);
    PowSmall(1 + |group|);
    HashInvertsUnhash("1" + LowerAll(group), HEX);
  }

  lemma {:induction false} LowerConcat(s: string, t: string)
    ensures LowerAll(s + t) == LowerAll(s) + LowerAll(t)
  {
    if s == "" {
      assert s + t == t;
    } else {
      assert (s + t)[1..] == s[1..] + t;
      LowerConcat(s[1..], t);
    }
  }

  lemma GroupInFront(group: string, nums: seq<nat>, rest: string)
    requires |LowerAll(group + rest)| > 0 && ReadsBack(nums, rest)
    requires LowerAll(group + rest) == LowerAll(group) + LowerAll(rest)
    requires HashNumber(Unhash("1" + LowerAll(group), HEX), HEX) == "1" + LowerAll(group)
    ensures ReadsBack([Unhash("1" + LowerAll(group), HEX)] + nums, group + rest)
  {
    hide Unhash, HashNumber, LowerAll;
    var all := [Unhash("1" + LowerAll(group), HEX)] + nums;
    assert all[1..] == nums && ("1" + LowerAll(group))[1..] == LowerAll(group);
  }

  lemma {:induction false} HexTextInverts(hex: string)
    ensures HexNumbers(hex).Ok? <==> AllHex(hex)
    ensures HexNumbers(hex).Ok? ==> ReadsBack(HexNumbers(hex).value, hex)
    decreases |hex|
  {
    if hex != "" {
      var cut := Min(GROUP, |hex|);
      var group, rest := hex[..cut], hex[cut..];
      assert hex == group + rest;
      HexTextInverts(rest);
      assert AllHex(hex) <==> AllHex(group) && AllHex(rest);
      if AllHex(hex) {
        GroupInverts(group);
        LowerConcat(group, rest);
        hide Unhash, HashNumber, LowerAll;
        GroupInFront(group, HexNumbers(rest).value, rest);
      }
    }
  }

  ghost predicate ReadsBack(nums: seq<nat>, hex: string) {
    && Words(nums) && HexText(nums) == LowerAll(hex) && (nums == [] <==> hex == "")
  }

  // Encoding accepts exactly the strings of hexadecimal digits, and decoding gives them back in
  // lower case.
  lemma HexRoundTrip(cfg: Config, hex: string)
    requires Sound(cfg)
    ensures EncodeHex(cfg, hex).Ok? <==> AllHex(hex)
    ensures AllHex(hex) ==> DecodeHex(cfg, EncodeHex(cfg, hex).value) == Ok(LowerAll(hex))
  {
    HexTextInverts(hex);
    if AllHex(hex) && hex != "" {
      var nums := HexNumbers(hex).value;
      DecodeIffEncode(cfg, nums, Encode(cfg, nums));
      EncodeNonEmpty(cfg, nums);
    }
  }
}
