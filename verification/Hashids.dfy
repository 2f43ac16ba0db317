/**
 The hashids codec as functions: keyed shuffling of an alphabet, numbers written in the shuffled
 alphabet, separators between numbers, guards and centred padding up to a minimum length.
 Characters are bytes; `size_t` and `uint64_t` arithmetic wraps at 2^64 where it can.
 */
module Hashids {

  const TWO64: nat := 0x1_0000_0000_0000_0000
  const BASE_SEPARATORS := "cfhistuCFHISTU"
  const DEFAULT_ALPHABET :=
    "abcdefghi" + "jklmnopqrstuvwxyz" + "ABCDEFGHI" + "JKLMNOPQRSTUVWXYZ" + "1234567890"
  const MIN_UNIQUE := 16

  datatype Result<+T> = Ok(value: T) | Err(error: Error)

  // `Underflow` stands for the out-of-range access of shuffling an empty string with a salt.
  datatype Error = TooFewCharacters | Underflow | BadGuards | NoData | Mismatch | InvalidHex

  datatype Config = Config(minLen: nat, salt: string, alphabet: string, separators: string, guards: string)

  function Code(c: char): nat { c as int % 256 }

  // ---------------------------------------------------------------- shuffling

  function Swap(s: string, i: nat, j: nat): string
    requires i < |s| && j < |s|
  {
    s[i := s[j]][j := s[i]]
  }

  // Positions i, i-1, .., 1 each swap with an earlier one that the salt picks.
  function ReorderFrom(salt: string, s: string, i: nat, k: nat, sum: nat): string
    requires salt != "" && k < |salt| && (i == 0 || i < |s|)
    decreases i
  {
    if i == 0 then s
    else
      var n := Code(salt[k]);
      ReorderFrom(salt, Swap(s, i, (k + n + sum + n) % i), i - 1, (k + 1) % |salt|, sum + n)
  }

  predicate CanReorder(salt: string, s: string) { salt == "" || s != "" }

  function Reorder(salt: string, s: string): string
    requires CanReorder(salt, s)
  {
    if salt == "" then s else ReorderFrom(salt, s, |s| - 1, 0, 0)
  }

  lemma SwapMultiset(s: string, i: nat, j: nat)
    requires i < |s| && j < |s|
    ensures multiset(Swap(s, i, j)) == multiset(s)
  {
  }

  lemma {:induction false} ReorderFromMultiset(salt: string, s: string, i: nat, k: nat, sum: nat)
    requires salt != "" && k < |salt| && (i == 0 || i < |s|)
    ensures multiset(ReorderFrom(salt, s, i, k, sum)) == multiset(s)
    decreases i
  {
    if i > 0 {
      var n := Code(salt[k]);
      var j := (k + n + sum + n) % i;
      SwapMultiset(s, i, j);
      ReorderFromMultiset(salt, Swap(s, i, j), i - 1, (k + 1) % |salt|, sum + n);
    }
  }

  // Shuffling is a permutation.
  lemma ReorderPermutes(salt: string, s: string)
    requires CanReorder(salt, s)
    ensures multiset(Reorder(salt, s)) == multiset(s)
    ensures |Reorder(salt, s)| == |s|
  {
    if salt != "" { ReorderFromMultiset(salt, s, |s| - 1, 0, 0); }
    assert |multiset(Reorder(salt, s))| == |Reorder(salt, s)|;
  }

  // ---------------------------------------------------------------- positional numbers

  // A number in the alphabet's base, most significant character first.
  function HashNumber(n: nat, a: string): (s: string)
    requires |a| >= 2
    ensures s != ""
  {
    (if n < |a| then "" else HashNumber(n / |a|, a)) + [a[n % |a|]]
  }

  function IndexOf(a: string, c: char): (i: nat)
    ensures i <= |a| && (c in a ==> i < |a| && a[i] == c)
    ensures i == |a| ==> c !in a
  {
    if a == "" then 0 else if a[0] == c then 0 else 1 + IndexOf(a[1..], c)
  }

  // `find` answers npos, the largest size_t, for a character that is not there.
  function Find(a: string, c: char): nat {
    if c in a then IndexOf(a, c) else TWO64 - 1
  }

  // Horner's rule in 64 bits.
  function UnhashFrom(s: string, a: string, num: nat): (r: nat)
    ensures num < TWO64 ==> r < TWO64
  {
    if s == "" then num
    else UnhashFrom(s[1..], a, ((num * |a|) % TWO64 + Find(a, s[0])) % TWO64)
  }

  function Unhash(s: string, a: string): (r: nat)
    ensures r < TWO64
  {
    UnhashFrom(s, a, 0)
  }

  ghost predicate NoDup(s: string) { forall c :: multiset(s)[c] <= 1 }

  lemma NoDupIndex(s: string, i: nat, j: nat)
    requires NoDup(s) && i < j < |s|
    ensures s[i] != s[j]
  {
    var p, q := s[..j], s[j..];
    assert s == p + q;
    assert p[i] == s[i] && q[0] == s[j];
    assert s[i] in multiset(p) && s[j] in multiset(q);
    assert multiset(s)[s[i]] == multiset(p)[s[i]] + multiset(q)[s[i]];
  }

  lemma FindAt(a: string, i: nat)
    requires NoDup(a) && i < |a|
    ensures Find(a, a[i]) == i
  {
    var k := IndexOf(a, a[i]);
    if k < i { NoDupIndex(a, k, i); } else if i < k { NoDupIndex(a, i, k); }
  }

  lemma {:induction false} UnhashConcat(s: string, t: string, a: string, num: nat)
    ensures UnhashFrom(s + t, a, num) == UnhashFrom(t, a, UnhashFrom(s, a, num))
    decreases |s|
  {
    if s == "" {
      assert s + t == t;
    } else {
      assert (s + t)[1..] == s[1..] + t;
      UnhashConcat(s[1..], t, a, ((num * |a|) % TWO64 + Find(a, s[0])) % TWO64);
    }
  }

  // One more digit of Horner's rule, where nothing wraps.
  lemma DigitStep(a: string, d: nat, num: nat)
    requires NoDup(a) && d < |a| && num * |a| + d < TWO64
    ensures UnhashFrom([a[d]], a, num) == num * |a| + d
  {
    FindAt(a, d);
    hide Find, NoDup;
    assert num * |a| >= 0;
    assert [a[d]][1..] == "";
    assert UnhashFrom([a[d]], a, num) == UnhashFrom("", a, ((num * |a|) % TWO64 + d) % TWO64);
  }

  // Reading back what was written, for every 64-bit number.
  lemma {:induction false} UnhashInvertsHash(n: nat, a: string)
    requires |a| >= 2 && NoDup(a) && n < TWO64
    ensures Unhash(HashNumber(n, a), a) == n
    decreases n
  {
    var q, d := n / |a|, n % |a|;
    DivMod(n, |a|);
    if n < |a| {
      DigitStep(a, d, 0);
      assert HashNumber(n, a) == [a[d]];
    } else {
      UnhashInvertsHash(q, a);
      UnhashConcat(HashNumber(q, a), [a[d]], a, 0);
      DigitStep(a, d, q);
    }
  }

  lemma DivMod(n: nat, b: nat)
    requires b >= 2
    ensures n == (n / b) * b + n % b && n % b < b
    ensures n >= b ==> 1 <= n / b < n
    ensures n < b ==> n / b == 0 && n % b == n
  {
  }

  lemma {:induction false} HashDigits(n: nat, a: string)
    requires |a| >= 2
    ensures forall k :: 0 <= k < |HashNumber(n, a)| ==> HashNumber(n, a)[k] in a
    decreases n
  {
    if n >= |a| {
      DivMod(n, |a|);
      HashDigits(n / |a|, a);
    }
  }

  // ---------------------------------------------------------------- splitting

  predicate AllIn(s: string, set_: string) { forall k :: 0 <= k < |s| ==> s[k] in set_ }

  predicate NoneIn(s: string, set_: string) { forall k :: 0 <= k < |s| ==> s[k] !in set_ }

  // Cutting at every delimiter character, keeping empty parts.
  function Split(s: string, delims: string): (parts: seq<string>)
    ensures parts != []
  {
    if s == "" then [""]
    else
      var rest := Split(s[1..], delims);
      if s[0] in delims then [""] + rest else [[s[0]] + rest[0]] + rest[1..]
  }

  lemma {:induction false} SplitNone(s: string, delims: string)
    requires NoneIn(s, delims)
    ensures Split(s, delims) == [s]
  {
    if s != "" {
      SplitNone(s[1..], delims);
      assert [s[0]] + s[1..] == s;
    }
  }

  lemma {:induction false} SplitAt(s: string, d: char, rest: string, delims: string)
    requires NoneIn(s, delims) && d in delims
    ensures Split(s + [d] + rest, delims) == [s] + Split(rest, delims)
    decreases |s|
  {
    if s == "" {
      assert s + [d] + rest == [d] + rest;
      assert ([d] + rest)[1..] == rest;
    } else {
      var whole := s + [d] + rest;
      assert whole[1..] == s[1..] + [d] + rest;
      SplitAt(s[1..], d, rest, delims);
      assert [s[0]] + s[1..] == s;
    }
  }

  // ---------------------------------------------------------------- the configuration

  predicate Usable(cfg: Config) {
    |cfg.alphabet| >= 2 && cfg.separators != "" && cfg.guards != ""
  }

  ghost function Pool(cfg: Config): multiset<char> {
    multiset(cfg.alphabet) + multiset(cfg.separators) + multiset(cfg.guards)
  }

  // No character has two roles, none is listed twice, and none is NUL.
  ghost predicate Sound(cfg: Config) {
    && Usable(cfg)
    && (forall c :: Pool(cfg)[c] <= 1)
    && (forall c :: c in cfg.alphabet ==> Code(c) != 0)
  }

  lemma Roles(cfg: Config)
    requires Sound(cfg)
    ensures NoDup(cfg.alphabet)
    ensures forall c :: c in cfg.alphabet ==> c !in cfg.separators && c !in cfg.guards
    ensures forall c :: c in cfg.separators ==> c !in cfg.guards
  {
    forall c ensures multiset(cfg.alphabet)[c] + multiset(cfg.separators)[c] + multiset(cfg.guards)[c] <= 1 {
      assert Pool(cfg)[c] <= 1;
    }
    Members(cfg.alphabet);
    Members(cfg.separators);
    Members(cfg.guards);
  }

  lemma Members(s: string)
    ensures forall c :: c in s <==> multiset(s)[c] > 0
  {
    forall c ensures c in s <==> c in multiset(s) {}
  }

  // Characters of `s` that satisfy membership in `keep`, in order.
  function Filter(s: string, keep: string): string {
    if s == "" then "" else (if s[0] in keep then [s[0]] else "") + Filter(s[1..], keep)
  }

  // The alphabet without the separators and without repeats; `seen` are the characters passed.
  function Prune(s: string, drop: string, seen: set<char>): string {
    if s == "" then ""
    else (if s[0] in seen || s[0] in drop then "" else [s[0]]) + Prune(s[1..], drop, seen + {s[0]})
  }

  function CeilDiv(n: nat, d: nat): (r: nat)
    requires d > 0
    ensures (r - 1) * d < n <= r * d
  {
    (n + d - 1) / d
  }

  function Min(a: nat, b: nat): nat { if a < b then a else b }

  // At least one separator to every 3.5 characters of the alphabet: the alphabet gives some up.
  function Balance(seps: string, alpha: string): (string, string) {
    var wanted := CeilDiv(2 * |alpha|, 7);
    var delta := if wanted > |seps| then Min(wanted - |seps|, |alpha|) else 0;
    (seps + alpha[..delta], alpha[delta..])
  }

  // One guard to every 12 characters, taken from the alphabet unless that is too short.
  function TakeGuards(minLen: nat, salt: string, seps: string, alpha: string): Config {
    var count := CeilDiv(|alpha|, 12);
    if |alpha| < 3 then
      var cut := Min(count, |seps|);
      Config(minLen, salt, alpha, seps[cut..], seps[..cut])
    else
      var cut := Min(count, |alpha|);
      Config(minLen, salt, alpha[cut..], seps, alpha[..cut])
  }

  // The constructor: separators, alphabet and guards out of the given alphabet.  The ratios
  // 3.5 and 12 are applied as exact quotients rounded up.
  function Build(minLen: nat, salt: string, custom: string): Result<Config> {
    var seps := Filter(BASE_SEPARATORS, Chosen(custom));
    Arrange(minLen, salt, seps, Prune(Chosen(custom), seps, {}))
  }

  function Arrange(minLen: nat, salt: string, seps: string, alpha: string): Result<Config> {
    if |seps| + |alpha| < MIN_UNIQUE then Err(TooFewCharacters)
    else if !CanReorder(salt, seps) then Err(Underflow)
    else
      var (seps', alpha') := Balance(Reorder(salt, seps), alpha);
      if !CanReorder(salt, alpha') then Err(Underflow)
      else Ok(TakeGuards(minLen, salt, seps', Reorder(salt, alpha')))
  }

  function Chosen(custom: string): string {
    if custom == "" then DEFAULT_ALPHABET else custom
  }

  // ---------------------------------------------------------------- the constructor is sound

  lemma SameMembers(s: string, s': string)
    requires multiset(s) == multiset(s')
    ensures forall c :: c in s <==> c in s'
  {
    Members(s);
    Members(s');
  }

  lemma {:induction false} FilterCount(s: string, keep: string, c: char)
    ensures multiset(Filter(s, keep))[c] == if c in keep then multiset(s)[c] else 0
  {
    if s != "" {
      FilterCount(s[1..], keep, c);
      assert s == [s[0]] + s[1..];
    }
  }

  lemma {:induction false} PruneCount(s: string, drop: string, seen: set<char>, c: char)
    ensures multiset(Prune(s, drop, seen))[c] == if c in s && c !in seen && c !in drop then 1 else 0
    decreases |s|
  {
    if s != "" {
      PruneCount(s[1..], drop, seen + {s[0]}, c);
      assert c in s <==> c == s[0] || c in s[1..];
    }
  }

  lemma {:induction false} DistinctNoDup(s: string)
    requires forall i, j :: 0 <= i < j < |s| ==> s[i] != s[j]
    ensures NoDup(s)
  {
    if s != "" {
      DistinctNoDup(s[1..]);
      assert s == [s[0]] + s[1..];
      assert s[0] !in s[1..];
    }
  }

  function BasePosition(c: char): nat {
    match c
    case 'c' => 0
    case 'f' => 1
    case 'h' => 2
    case 'i' => 3
    case 's' => 4
    case 't' => 5
    case 'u' => 6
    case 'C' => 7
    case 'F' => 8
    case 'H' => 9
    case 'I' => 10
    case 'S' => 11
    case 'T' => 12
    case 'U' => 13
    case _ => 14
  }

  lemma BaseSeparatorsDistinct()
    ensures NoDup(BASE_SEPARATORS)
  {
    forall i | 0 <= i < |BASE_SEPARATORS| ensures BasePosition(BASE_SEPARATORS[i]) == i {}
    hide BasePosition;
    DistinctNoDup(BASE_SEPARATORS);
  }

  // Separators and pruned alphabet together hold each given character once.
  lemma SplitAlphabet(chosen: string, c: char)
    ensures
      var seps0 := Filter(BASE_SEPARATORS, chosen);
      multiset(seps0)[c] + multiset(Prune(chosen, seps0, {}))[c] == if c in chosen then 1 else 0
  {
    BaseSeparatorsDistinct();
    var seps0 := Filter(BASE_SEPARATORS, chosen);
    FilterCount(BASE_SEPARATORS, chosen, c);
    PruneCount(chosen, seps0, {}, c);
    Members(seps0);
  }

  lemma {:induction false} DistinctCount(s: string)
    requires NoDup(s)
    ensures |set c | c in s| == |s|
  {
    if s != "" {
      var rest := s[1..];
      assert s == [s[0]] + rest;
      assert multiset(s) == multiset{s[0]} + multiset(rest);
      Members(rest);
      assert multiset(s)[s[0]] == 1 + multiset(rest)[s[0]];
      forall c ensures multiset(rest)[c] <= 1 { assert multiset(s)[c] <= 1; }
      DistinctCount(rest);
      assert (set c | c in s) == {s[0]} + set c | c in rest;
    }
  }

  // How many distinct characters the given alphabet has.
  lemma UniqueCount(chosen: string)
    ensures
      var seps0 := Filter(BASE_SEPARATORS, chosen);
      |seps0| + |Prune(chosen, seps0, {})| == |set c | c in chosen|
  {
    hide Filter, Prune;
    var seps0 := Filter(BASE_SEPARATORS, chosen);
    var all := seps0 + Prune(chosen, seps0, {});
    forall c ensures multiset(all)[c] == if c in chosen then 1 else 0 { SplitAlphabet(chosen, c); }
    DistinctCount(all);
    Members(all);
    assert (set c | c in all) == set c | c in chosen;
  }

  ghost predicate NoNul(s: string) { forall c :: c in s ==> Code(c) != 0 }

  // The constructor succeeds exactly on alphabets of sixteen distinct characters that hold a base
  // separator or come without salt; then alphabet, separators and guards share out the distinct
  // characters of the given alphabet, each with exactly one role.
  lemma BuildSound(minLen: nat, salt: string, custom: string)
    requires NoNul(Chosen(custom))
    ensures Build(minLen, salt, custom).Ok? <==>
      |set c | c in Chosen(custom)| >= MIN_UNIQUE
      && (salt == "" || exists c :: c in BASE_SEPARATORS && c in Chosen(custom))
    ensures Build(minLen, salt, custom).Ok? ==>
      var cfg := Build(minLen, salt, custom).value;
      && Sound(cfg) && cfg.minLen == minLen && cfg.salt == salt
      && forall c :: Pool(cfg)[c] == (if c in Chosen(custom) then 1 else 0)
  {
    var chosen := Chosen(custom);
    var seps := Filter(BASE_SEPARATORS, chosen);
    var alpha := Prune(chosen, seps, {});
    UniqueCount(chosen);
    HasSeparator(chosen);
    ArrangePool(minLen, salt, seps, alpha);
    hide Arrange, Filter, Prune, Sound;
    if Build(minLen, salt, custom).Ok? {
      var cfg := Build(minLen, salt, custom).value;
      forall c ensures Pool(cfg)[c] == (if c in chosen then 1 else 0) { SplitAlphabet(chosen, c); }
      PoolSound(cfg, chosen);
    }
  }

  // Why the constructor fails: too few characters, or a salt and no base separator to shuffle.
  lemma BuildFails(minLen: nat, salt: string, custom: string)
    ensures Build(minLen, salt, custom) == Err(TooFewCharacters) <==> |set c | c in Chosen(custom)| < MIN_UNIQUE
    ensures Build(minLen, salt, custom) == Err(Underflow) <==>
      |set c | c in Chosen(custom)| >= MIN_UNIQUE && salt != ""
      && forall c :: c in BASE_SEPARATORS ==> c !in Chosen(custom)
  {
    var chosen := Chosen(custom);
    var seps := Filter(BASE_SEPARATORS, chosen);
    var alpha := Prune(chosen, seps, {});
    UniqueCount(chosen);
    HasSeparator(chosen);
    ArrangePool(minLen, salt, seps, alpha);
    hide Filter, Prune, Balance, Reorder, TakeGuards;
  }

  const UNSEPARATED := "JKLMNOPQRjklmnopqr"

  // Eighteen letters with a salt, where shuffling the separators reads out of range.
  lemma UnderflowExample()
    ensures Build(0, "x", UNSEPARATED) == Err(Underflow)
  {
    forall i | 0 <= i < 18
      ensures UNSEPARATED[i] == if i < 9 then 'J' + i as char else 'j' + (i - 9) as char
    {
    }
    forall c | c in BASE_SEPARATORS ensures c !in UNSEPARATED { assert BasePosition(c) < 14; }
    DistinctNoDup(UNSEPARATED);
    DistinctCount(UNSEPARATED);
    hide Build;
    BuildFails(0, "x", UNSEPARATED);
  }

  lemma PoolSound(cfg: Config, chosen: string)
    requires Usable(cfg) && NoNul(chosen)
    requires forall c :: Pool(cfg)[c] == (if c in chosen then 1 else 0)
    ensures Sound(cfg)
  {
    Members(cfg.alphabet);
    forall c | c in cfg.alphabet ensures Code(c) != 0 { assert Pool(cfg)[c] > 0; }
  }

  lemma ArrangePool(minLen: nat, salt: string, seps: string, alpha: string)
    requires |seps| <= 14
    ensures
      var r := Arrange(minLen, salt, seps, alpha);
      && (r.Ok? <==> |seps| + |alpha| >= MIN_UNIQUE && CanReorder(salt, seps))
      && (r.Ok? ==> Pool(r.value) == multiset(seps) + multiset(alpha) && Usable(r.value)
                    && r.value.minLen == minLen && r.value.salt == salt)
  {
    if |seps| + |alpha| >= MIN_UNIQUE && CanReorder(salt, seps) {
      ReorderPermutes(salt, seps);
      BalancePool(Reorder(salt, seps), alpha);
      var (seps', alpha') := Balance(Reorder(salt, seps), alpha);
      ReorderPermutes(salt, alpha');
      GuardsPool(minLen, salt, seps', Reorder(salt, alpha'));
    }
  }

  lemma HasSeparator(chosen: string)
    ensures Filter(BASE_SEPARATORS, chosen) != "" <==> exists c :: c in BASE_SEPARATORS && c in chosen
    ensures |Filter(BASE_SEPARATORS, chosen)| <= 14
  {
    var seps0 := Filter(BASE_SEPARATORS, chosen);
    if seps0 != "" {
      FilterCount(BASE_SEPARATORS, chosen, seps0[0]);
      Members(seps0);
      Members(BASE_SEPARATORS);
      assert seps0[0] in BASE_SEPARATORS && seps0[0] in chosen;
    }
    if c :| c in BASE_SEPARATORS && c in chosen {
      FilterCount(BASE_SEPARATORS, chosen, c);
      Members(BASE_SEPARATORS);
      Members(seps0);
    }
    FilterLength(BASE_SEPARATORS, chosen);
  }

  lemma {:induction false} FilterLength(s: string, keep: string)
    ensures |Filter(s, keep)| <= |s|
  {
    if s != "" { FilterLength(s[1..], keep); }
  }

  // With sixteen characters, fourteen of them separators at most, no part comes out empty.
  lemma BalancePool(seps: string, alpha: string)
    requires |seps| + |alpha| >= MIN_UNIQUE && |seps| <= 14
    ensures
      var (seps', alpha') := Balance(seps, alpha);
      && multiset(seps') + multiset(alpha') == multiset(seps) + multiset(alpha)
      && |alpha'| >= 2 && seps' != "" && (|alpha'| < 3 ==> |seps'| >= 2)
  {
    var wanted := CeilDiv(2 * |alpha|, 7);
    var delta := if wanted > |seps| then Min(wanted - |seps|, |alpha|) else 0;
    Cut(alpha, delta);
  }

  lemma GuardsPool(minLen: nat, salt: string, seps: string, alpha: string)
    requires |alpha| >= 2 && seps != "" && (|alpha| < 3 ==> |seps| >= 2)
    ensures
      var cfg := TakeGuards(minLen, salt, seps, alpha);
      Pool(cfg) == multiset(seps) + multiset(alpha) && Usable(cfg) && cfg.minLen == minLen && cfg.salt == salt
  {
    var count := CeilDiv(|alpha|, 12);
    if |alpha| < 3 { Cut(seps, Min(count, |seps|)); } else { Cut(alpha, Min(count, |alpha|)); }
  }

  lemma Cut(s: string, k: nat)
    requires k <= |s|
    ensures multiset(s) == multiset(s[..k]) + multiset(s[k..])
  {
    assert s == s[..k] + s[k..];
  }

  // ---------------------------------------------------------------- encoding

  // The salt of a shuffle: the lottery character, the salt and then the alphabet itself, as
  // long as the alphabet.
  function AlphabetSalt(lottery: char, salt: string, a: string): (r: string)
    requires a != ""
    ensures |r| == |a| && r != ""
  {
    var head := [lottery] + salt[..Min(|a| - 1, |salt|)];
    head + a[..|a| - |head|]
  }

  // The alphabet for the next number.
  function Shuffle(cfg: Config, lottery: char, a: string): (r: string)
    requires a != ""
    ensures |r| == |a| && multiset(r) == multiset(a)
  {
    ReorderPermutes(AlphabetSalt(lottery, cfg.salt, a), a);
    Reorder(AlphabetSalt(lottery, cfg.salt, a), a)
  }

  // The alphabet after `n` shuffles.
  function Shuffled(cfg: Config, lottery: char, a: string, n: nat): (r: string)
    requires a != ""
    ensures |r| == |a| && multiset(r) == multiset(a)
  {
    if n == 0 then a else Shuffle(cfg, lottery, Shuffled(cfg, lottery, a, n - 1))
  }

  function ValueHash(values: seq<nat>): (h: nat)
    ensures h < TWO64
  {
    if values == [] then 0
    else
      var i := |values| - 1;
      (ValueHash(values[..i]) + values[i] % (i + 100)) % TWO64
  }

  // The separator written after the i-th number.
  function Separator(cfg: Config, value: nat, i: nat, hashed: string): char
    requires cfg.separators != "" && hashed != "" && Code(hashed[0]) + i > 0
  {
    cfg.separators[value % (Code(hashed[0]) + i) % |cfg.separators|]
  }

  // The i-th number on its own: its digits in the alphabet of that position.
  function Digits(cfg: Config, lottery: char, values: seq<nat>, i: nat): (s: string)
    requires Usable(cfg) && i < |values|
    ensures s != ""
  {
    HashNumber(values[i], Shuffled(cfg, lottery, cfg.alphabet, i + 1))
  }

  lemma DigitsIn(cfg: Config, lottery: char, values: seq<nat>, i: nat)
    requires Usable(cfg) && i < |values|
    ensures AllIn(Digits(cfg, lottery, values, i), cfg.alphabet)
  {
    var a := Shuffled(cfg, lottery, cfg.alphabet, i + 1);
    HashDigits(values[i], a);
    Members(a);
    Members(cfg.alphabet);
  }

  ghost predicate Encodable(cfg: Config) { Usable(cfg) && NoNul(cfg.alphabet) }

  lemma DigitsNoNul(cfg: Config, lottery: char, values: seq<nat>, i: nat)
    requires Encodable(cfg) && i < |values|
    ensures Code(Digits(cfg, lottery, values, i)[0]) > 0
  {
    DigitsIn(cfg, lottery, values, i);
  }

  // The numbers with a separator after each, from the i-th on.
  function Segments(cfg: Config, lottery: char, values: seq<nat>, i: nat): string
    requires Encodable(cfg) && i <= |values|
    decreases |values| - i
  {
    if i == |values| then ""
    else
      DigitsNoNul(cfg, lottery, values, i);
      var hashed := Digits(cfg, lottery, values, i);
      hashed + [Separator(cfg, values[i], i, hashed)] + Segments(cfg, lottery, values, i + 1)
  }

  // Guards around the code, then the shuffled alphabet's halves outside them, trimmed evenly.
  function Guard(cfg: Config, hash: nat, c: char): char
    requires cfg.guards != ""
  {
    cfg.guards[(hash + Code(c)) % TWO64 % |cfg.guards|]
  }

  // The alphabet's second half goes in front of the code, its first half behind.
  function Widen(a: string, code: string): (wide: string)
    ensures |wide| == |a| + |code|
  {
    a[|a| / 2..] + code + a[..|a| / 2]
  }

  function TrimTo(wide: string, minLen: nat): (s: string)
    requires |wide| >= minLen
    ensures |s| == minLen
  {
    var cut := (|wide| - minLen) / 2;
    wide[cut..cut + minLen]
  }

  function Pad(a: string, minLen: nat, code: string): string
    requires |a| >= 1
    decreases minLen - |code|
  {
    if |code| >= minLen then code
    else
      ReorderPermutes(a, a);
      var wide := Widen(Reorder(a, a), code);
      if |wide| > minLen then TrimTo(wide, minLen) else Pad(Reorder(a, a), minLen, wide)
  }

  function EnsureMinimumLength(cfg: Config, hash: nat, a: string, code: string): string
    requires cfg.guards != "" && |a| >= 1 && |code| >= 2
  {
    var one := [Guard(cfg, hash, code[0])] + code;
    if |one| >= cfg.minLen then one
    else Pad(a, cfg.minLen, one + [Guard(cfg, hash, one[2])])
  }

  // Lottery character, numbers and the separators between them.
  function Core(cfg: Config, values: seq<nat>): (code: string)
    requires Encodable(cfg) && values != []
  {
    var lottery := cfg.alphabet[ValueHash(values) % |cfg.alphabet|];
    var s := Segments(cfg, lottery, values, 0);
    [lottery] + s[..|s| - 1]
  }

  function Encode(cfg: Config, values: seq<nat>): string
    requires Encodable(cfg)
  {
    if values == [] then ""
    else
      var hash := ValueHash(values);
      var code := Core(cfg, values);
      if |code| >= cfg.minLen then code
      else
        var lottery := cfg.alphabet[hash % |cfg.alphabet|];
        EnsureMinimumLength(cfg, hash, Shuffled(cfg, lottery, cfg.alphabet, |values|), code)
  }

  // ---------------------------------------------------------------- decoding

  function UnhashAll(cfg: Config, lottery: char, parts: seq<string>, k: nat): (nums: seq<nat>)
    requires Usable(cfg) && k <= |parts|
    ensures |nums| == |parts| - k
    ensures forall j :: 0 <= j < |nums| ==> nums[j] < TWO64
    decreases |parts| - k
  {
    if k == |parts| then []
    else [Unhash(parts[k], Shuffled(cfg, lottery, cfg.alphabet, k + 1))] + UnhashAll(cfg, lottery, parts, k + 1)
  }

  // The part between the guards.
  function Unguard(cfg: Config, hashid: string): Result<string> {
    var parts := Split(hashid, cfg.guards);
    if |parts| == 1 then Ok(parts[0])
    else if |parts| == 2 || |parts| == 3 then Ok(parts[1])
    else Err(BadGuards)
  }

  function ReadNumbers(cfg: Config, code: string): seq<nat>
    requires Usable(cfg) && code != ""
  {
    UnhashAll(cfg, code[0], Split(code[1..], cfg.separators), 0)
  }

  function Decode(cfg: Config, hashid: string): Result<seq<nat>>
    requires Encodable(cfg)
  {
    if hashid == "" then Ok([])
    else
      var code := Unguard(cfg, hashid);
      if code.Err? then Err(code.error)
      else if code.value == "" then Err(NoData)
      else
        var nums := ReadNumbers(cfg, code.value);
        if Encode(cfg, nums) != hashid then Err(Mismatch) else Ok(nums)
  }

  // ---------------------------------------------------------------- decode undoes encode

  // One number's segment: its digits, free of separators, then a separator.
  lemma FirstSegment(cfg: Config, lottery: char, values: seq<nat>, i: nat) returns (sep: char)
    requires Encodable(cfg) && Sound(cfg) && i < |values|
    ensures sep in cfg.separators && NoneIn(Digits(cfg, lottery, values, i), cfg.separators)
    ensures Segments(cfg, lottery, values, i)
         == Digits(cfg, lottery, values, i) + [sep] + Segments(cfg, lottery, values, i + 1)
    ensures AllDigits(cfg, lottery, values, i)
         == [Digits(cfg, lottery, values, i)] + AllDigits(cfg, lottery, values, i + 1)
    ensures Segments(cfg, lottery, values, |values|) == "" && AllDigits(cfg, lottery, values, |values|) == []
  {
    Roles(cfg);
    DigitsNoNul(cfg, lottery, values, i);
    DigitsIn(cfg, lottery, values, i);
    sep := Separator(cfg, values[i], i, Digits(cfg, lottery, values, i));
  }

  ghost predicate Words(values: seq<nat>) { forall k :: 0 <= k < |values| ==> values[k] < TWO64 }

  // A first segment, with the last separator of the whole cut off.
  lemma SplitSegment(hashed: string, sep: char, rest: string, seps: string)
    requires NoneIn(hashed, seps) && sep in seps && hashed != ""
    ensures
      var s := hashed + [sep] + rest;
      && |s| >= 2
      && Split(s[..|s| - 1], seps) == if rest == "" then [hashed] else [hashed] + Split(rest[..|rest| - 1], seps)
  {
    hide NoneIn, Split;
    var s := hashed + [sep] + rest;
    if rest == "" {
      assert s[..|s| - 1] == hashed;
      SplitNone(hashed, seps);
    } else {
      assert s[..|s| - 1] == hashed + [sep] + rest[..|rest| - 1];
      SplitAt(hashed, sep, rest[..|rest| - 1], seps);
    }
  }

  // Cutting at the separators gives each number's digits back.
  lemma {:induction false} SplitSegments(cfg: Config, lottery: char, values: seq<nat>, i: nat)
    requires Encodable(cfg) && Sound(cfg) && i < |values|
    ensures
      var s := Segments(cfg, lottery, values, i);
      && |s| >= 2
      && Split(s[..|s| - 1], cfg.separators) == AllDigits(cfg, lottery, values, i)
    decreases |values| - i
  {
    hide Segments, AllDigits, Sound, NoneIn, Split, Digits;
    var sep := FirstSegment(cfg, lottery, values, i);
    SplitSegment(Digits(cfg, lottery, values, i), sep, Segments(cfg, lottery, values, i + 1), cfg.separators);
    if i + 1 < |values| { SplitSegments(cfg, lottery, values, i + 1); }
  }

  function AllDigits(cfg: Config, lottery: char, values: seq<nat>, i: nat): (parts: seq<string>)
    requires Usable(cfg) && i <= |values|
    ensures |parts| == |values| - i
    ensures forall k :: 0 <= k < |parts| ==> parts[k] == Digits(cfg, lottery, values, i + k)
    decreases |values| - i
  {
    if i == |values| then [] else [Digits(cfg, lottery, values, i)] + AllDigits(cfg, lottery, values, i + 1)
  }

  lemma {:induction false} UnhashParts(cfg: Config, lottery: char, parts: seq<string>, values: seq<nat>, k: nat)
    requires Usable(cfg) && |parts| == |values| && k <= |values|
    requires forall j :: 0 <= j < |parts| ==>
      Unhash(parts[j], Shuffled(cfg, lottery, cfg.alphabet, j + 1)) == values[j]
    ensures UnhashAll(cfg, lottery, parts, k) == values[k..]
    decreases |values| - k
  {
    if k < |values| {
      hide Unhash, Shuffled;
      UnhashParts(cfg, lottery, parts, values, k + 1);
      assert values[k..] == [values[k]] + values[k + 1..];
    }
  }

  lemma UnhashDigits(cfg: Config, lottery: char, values: seq<nat>, k: nat)
    requires Sound(cfg) && Words(values) && k < |values|
    ensures Unhash(Digits(cfg, lottery, values, k), Shuffled(cfg, lottery, cfg.alphabet, k + 1)) == values[k]
  {
    var a := Shuffled(cfg, lottery, cfg.alphabet, k + 1);
    Roles(cfg);
    assert NoDup(a);
    UnhashInvertsHash(values[k], a);
  }

  // Reading the unguarded code gives the numbers back.
  lemma ReadCore(cfg: Config, values: seq<nat>)
    requires Sound(cfg) && values != [] && Words(values)
    ensures Core(cfg, values) != "" && ReadNumbers(cfg, Core(cfg, values)) == values
  {
    var lottery := cfg.alphabet[ValueHash(values) % |cfg.alphabet|];
    SplitSegments(cfg, lottery, values, 0);
    var s := Segments(cfg, lottery, values, 0);
    assert Core(cfg, values)[1..] == s[..|s| - 1];
    var parts := AllDigits(cfg, lottery, values, 0);
    hide Unhash, Shuffled, Digits, Segments;
    forall j | 0 <= j < |parts|
      ensures Unhash(parts[j], Shuffled(cfg, lottery, cfg.alphabet, j + 1)) == values[j]
    {
      UnhashDigits(cfg, lottery, values, j);
    }
    UnhashParts(cfg, lottery, parts, values, 0);
    assert values[0..] == values;
  }

  // The core is made of alphabet and separator characters alone, so it holds no guard.
  lemma {:induction false} SegmentsUnguarded(cfg: Config, lottery: char, values: seq<nat>, i: nat)
    requires Encodable(cfg) && Sound(cfg) && i <= |values|
    ensures NoneIn(Segments(cfg, lottery, values, i), cfg.guards)
    decreases |values| - i
  {
    if i == |values| {
      assert Segments(cfg, lottery, values, i) == "";
    }
    hide Segments, Digits, Sound, Pool, NoDup, NoNul, AllDigits;
    if i < |values| {
      var sep := FirstSegment(cfg, lottery, values, i);
      DigitsIn(cfg, lottery, values, i);
      Roles(cfg);
      SegmentsUnguarded(cfg, lottery, values, i + 1);
    }
  }

  lemma CoreUnguarded(cfg: Config, values: seq<nat>)
    requires Sound(cfg) && values != []
    ensures NoneIn(Core(cfg, values), cfg.guards) && |Core(cfg, values)| >= 2
  {
    var lottery := cfg.alphabet[ValueHash(values) % |cfg.alphabet|];
    var sep := FirstSegment(cfg, lottery, values, 0);
    SegmentsUnguarded(cfg, lottery, values, 0);
    Roles(cfg);
  }

  // Padding only adds alphabet characters outside the guarded code: the centred trimming of the
  // last round never reaches it.
  lemma {:induction false} PadSurrounds(a: string, minLen: nat, code: string) returns (pre: string, post: string)
    requires |a| >= 1
    ensures Pad(a, minLen, code) == pre + code + post
    ensures (forall c :: c in pre ==> c in a) && (forall c :: c in post ==> c in a)
    ensures |code| <= minLen ==> |Pad(a, minLen, code)| == minLen
    decreases minLen - |code|
  {
    if |code| >= minLen {
      pre, post := "", "";
      assert code == "" + code + "";
    } else {
      ReorderPermutes(a, a);
      var a' := Reorder(a, a);
      SameMembers(a, a');
      var wide := Widen(a', code);
      if |wide| > minLen {
        pre, post := TrimKeepsCode(a', code, minLen);
      } else {
        var p, q := PadSurrounds(a', minLen, wide);
        assert Pad(a, minLen, code) == p + wide + q;
        hide Reorder, Pad, Widen;
        pre, post := Regroup(p, a', code, q);
      }
    }
  }

  lemma Regroup(p: string, a: string, code: string, q: string) returns (pre: string, post: string)
    ensures p + Widen(a, code) + q == pre + code + post
    ensures (forall c :: c in pre ==> c in p || c in a) && (forall c :: c in post ==> c in q || c in a)
  {
    pre, post := p + a[|a| / 2..], a[..|a| / 2] + q;
  }

  // The halves differ by one at most: cutting the excess evenly leaves the code whole.
  lemma TrimKeepsCode(a: string, code: string, minLen: nat) returns (pre: string, post: string)
    requires |code| < minLen < |Widen(a, code)|
    ensures TrimTo(Widen(a, code), minLen) == pre + code + post
    ensures (forall c :: c in pre ==> c in a) && (forall c :: c in post ==> c in a)
  {
    var left, right := a[|a| / 2..], a[..|a| / 2];
    var cut := (|Widen(a, code)| - minLen) / 2;
    var tail := minLen - |code| - (|left| - cut);
    pre, post := left[cut..], right[..tail];
    assert Widen(a, code)[cut..cut + minLen] == pre + code + post;
  }

  // The guarded form, cut at the guards, gives the core back.
  lemma UnguardOne(cfg: Config, g: char, core: string)
    requires g in cfg.guards && NoneIn(core, cfg.guards)
    ensures Unguard(cfg, [g] + core) == Ok(core)
  {
    SplitNone(core, cfg.guards);
    SplitAt("", g, core, cfg.guards);
    assert "" + [g] + core == [g] + core;
  }

  lemma UnguardTwo(cfg: Config, pre: string, g: char, core: string, h: char, post: string)
    requires g in cfg.guards && h in cfg.guards
    requires NoneIn(pre, cfg.guards) && NoneIn(core, cfg.guards) && NoneIn(post, cfg.guards)
    ensures Unguard(cfg, pre + ([g] + core + [h]) + post) == Ok(core)
  {
    SplitNone(post, cfg.guards);
    SplitAt(core, h, post, cfg.guards);
    SplitAt(pre, g, core + [h] + post, cfg.guards);
    assert pre + [g] + (core + [h] + post) == pre + ([g] + core + [h]) + post;
  }

  lemma UnguardEncoded(cfg: Config, values: seq<nat>)
    requires Sound(cfg) && values != []
    ensures Unguard(cfg, Encode(cfg, values)) == Ok(Core(cfg, values))
    ensures |Encode(cfg, values)| >= cfg.minLen
  {
    CoreUnguarded(cfg, values);
    Roles(cfg);
    var hash, core := ValueHash(values), Core(cfg, values);
    if |core| >= cfg.minLen {
      SplitNone(core, cfg.guards);
    } else {
      var lottery := cfg.alphabet[hash % |cfg.alphabet|];
      var a := Shuffled(cfg, lottery, cfg.alphabet, |values|);
      Members(a);
      Members(cfg.alphabet);
      hide Core, Sound, Shuffled, Pad, Unguard;
      EnsuredUnguards(cfg, hash, a, core);
    }
  }

  lemma EnsuredUnguards(cfg: Config, hash: nat, a: string, core: string)
    requires cfg.guards != "" && |a| >= 1 && |core| >= 2 && |core| < cfg.minLen
    requires NoneIn(core, cfg.guards) && forall c :: c in a ==> c !in cfg.guards
    ensures Unguard(cfg, EnsureMinimumLength(cfg, hash, a, core)) == Ok(core)
    ensures |EnsureMinimumLength(cfg, hash, a, core)| >= cfg.minLen
  {
    var g := Guard(cfg, hash, core[0]);
    var one := [g] + core;
    if |one| >= cfg.minLen {
      UnguardOne(cfg, g, core);
    } else {
      var h := Guard(cfg, hash, one[2]);
      var two := one + [h];
      var pre, post := PadSurrounds(a, cfg.minLen, two);
      hide Pad, Unguard, Guard;
      assert two == [g] + core + [h];
      UnguardTwo(cfg, pre, g, core, h, post);
    }
  }

  // Decoding is exactly the inverse of encoding, on every string and every sequence of 64-bit
  // numbers.
  lemma DecodeIffEncode(cfg: Config, values: seq<nat>, hashid: string)
    requires Sound(cfg) && Words(values)
    ensures Decode(cfg, hashid) == Ok(values) <==> Encode(cfg, values) == hashid
  {
    if values != [] {
      CoreUnguarded(cfg, values);
      UnguardEncoded(cfg, values);
      ReadCore(cfg, values);
      EncodeNonEmpty(cfg, values);
    }
    hide Core, ReadNumbers, Unguard, Sound;
  }

  lemma EncodeNonEmpty(cfg: Config, values: seq<nat>)
    requires Sound(cfg) && values != []
    ensures Encode(cfg, values) != ""
  {
    CoreUnguarded(cfg, values);
    UnguardEncoded(cfg, values);
  }

  // Decoding what a sound configuration encoded gives the numbers back, without an error.
  lemma RoundTrip(minLen: nat, salt: string, custom: string, values: seq<nat>)
    requires NoNul(Chosen(custom)) && Words(values)
    requires Build(minLen, salt, custom).Ok?
    ensures
      var cfg := Build(minLen, salt, custom).value;
      Sound(cfg) && Decode(cfg, Encode(cfg, values)) == Ok(values)
  {
    BuildSound(minLen, salt, custom);
    hide Build, Sound, Decode, Encode;
    DecodeIffEncode(Build(minLen, salt, custom).value, values, Encode(Build(minLen, salt, custom).value, values));
  }

  lemma EncodeInjective(cfg: Config, v: seq<nat>, w: seq<nat>)
    requires Sound(cfg) && Words(v) && Words(w) && Encode(cfg, v) == Encode(cfg, w)
    ensures v == w
  {
    DecodeIffEncode(cfg, v, Encode(cfg, v));
    DecodeIffEncode(cfg, w, Encode(cfg, w));
  }
}
