/**
 The 32-bit MurmurHash2 family: one-shot, byte-wise, aligned-read and incremental forms, each
 proved to compute the same function of the bytes.  A byte is a 32-bit word below 256.
 */
module Murmur {

  const TWO31: nat := 0x8000_0000
  const TWO32: nat := 0x1_0000_0000

  type Byte = b: bv32 | b < 256 witness 0

  // ---------------------------------------------------------------- what is computed

  // The multiplication by the constant `m`.
  function Times(h: bv32): bv32 { h * 0x5bd1e995 }

  // A number with its high bits xored over its low ones.
  function Fold24(x: bv32): bv32 { x ^ (x >> 24) }

  function Fold15(x: bv32): bv32 { x ^ (x >> 15) }

  function Fold13(x: bv32): bv32 { x ^ (x >> 13) }

  // One word mixed into the hash.
  function Mix(h: bv32, k: bv32): bv32 { Times(h) ^ Times(Fold24(Times(k))) }

  // The tail of the original form.
  function TailMix(h: bv32, t: bv32): bv32 { Times(h ^ t) }

  function Finish(h: bv32): bv32 { Fold15(Times(Fold13(h))) }

  // Four bytes in a word, the first one lowest.
  function Word4(b0: bv32, b1: bv32, b2: bv32, b3: bv32): bv32 { b0 | (b1 << 8) | (b2 << 16) | (b3 << 24) }

  // The `n` bytes from position `i`.
  function Packed(d: seq<Byte>, i: nat, n: nat): bv32
    requires n <= 4 && i + n <= |d|
  {
    Word4(
      if n > 0 then d[i] else 0, if n > 1 then d[i + 1] else 0,
      if n > 2 then d[i + 2] else 0, if n > 3 then d[i + 3] else 0)
  }

  // A 32-bit load on a little-endian machine.
  function Load(d: seq<Byte>, i: nat): bv32
    requires i + 4 <= |d|
  {
    Packed(d, i, 4)
  }

  // A load from an address that is a multiple of four: `align` is the address of the first byte
  // modulo four.
  function AlignedLoad(d: seq<Byte>, i: nat, align: nat): bv32
    requires i + 4 <= |d| && (align + i) % 4 == 0
  {
    Load(d, i)
  }

  // The first `n` words mixed in.
  function Words(h: bv32, d: seq<Byte>, n: nat): bv32
    requires 4 * n <= |d|
  {
    if n == 0 then h else Mix(Words(h, d, n - 1), Load(d, 4 * (n - 1)))
  }

  function TailLength(d: seq<Byte>): (n: nat)
    ensures n < 4 && n == |d| % 4
  {
    |d| % 4
  }

  // The bytes after the last whole word.
  function TailWord(d: seq<Byte>): bv32 { Packed(d, |d| - TailLength(d), TailLength(d)) }

  function Word(len: nat): bv32
    requires len < TWO32
  {
    len as bv32
  }

  function Hash2(d: seq<Byte>, seed: bv32): bv32
    requires |d| < TWO31
  {
    var h := Words(seed ^ Word(|d|), d, |d| / 4);
    Finish(if |d| % 4 == 0 then h else TailMix(h, TailWord(d)))
  }

  // The Merkle-Damgard variant: the tail and the length are mixed in as words of their own.
  function Hash2A(d: seq<Byte>, seed: bv32): bv32 {
    Finish(Mix(Mix(Words(seed, d, |d| / 4), TailWord(d)), Word(|d| % TWO32)))
  }

  // ---------------------------------------------------------------- bytes in a word

  function ShiftLeft(w: bv32, bytes: nat): bv32
    requires bytes <= 3
  {
    match bytes
    case 0 => w
    case 1 => w << 8
    case 2 => w << 16
    case 3 => w << 24
  }

  // A word put above the low bytes of another.
  function Joined(low: bv32, high: bv32, bytes: nat): bv32
    requires bytes <= 3
  {
    low | ShiftLeft(high, bytes)
  }

  function ShiftRight(w: bv32, bytes: nat): bv32
    requires bytes <= 3
  {
    match bytes
    case 0 => w
    case 1 => w >> 8
    case 2 => w >> 16
    case 3 => w >> 24
  }

  // Xoring bytes in one at a time is xoring their word, and how bytes move under shifts.
  lemma XorTail3(h: bv32, b0: bv32, b1: bv32, b2: bv32)
    requires b0 < 256 && b1 < 256 && b2 < 256
    ensures ((h ^ (b2 << 16)) ^ (b1 << 8)) ^ b0 == h ^ Word4(b0, b1, b2, 0)
  {
  }

  lemma XorTail2(h: bv32, b0: bv32, b1: bv32)
    requires b0 < 256 && b1 < 256
    ensures (h ^ (b1 << 8)) ^ b0 == h ^ Word4(b0, b1, 0, 0)
  {
  }

  lemma XorTail1(h: bv32, b0: bv32)
    ensures h ^ b0 == h ^ Word4(b0, 0, 0, 0)
  {
  }

  lemma OrBytes3(b0: bv32, b1: bv32, b2: bv32)
    ensures ((0 | (b2 << 16)) | (b1 << 8)) | b0 == Word4(b0, b1, b2, 0)
  {
  }

  lemma OrBytes2(b0: bv32, b1: bv32)
    ensures (0 | (b1 << 8)) | b0 == Word4(b0, b1, 0, 0)
  {
  }

  lemma OrBytes1(b0: bv32)
    ensures 0 | b0 == Word4(b0, 0, 0, 0)
  {
  }

  lemma OneByte(b0: bv32)
    ensures b0 == Word4(b0, 0, 0, 0)
  {
  }

  lemma JoinBytes0(b0: bv32, b1: bv32, b2: bv32, b3: bv32)
    ensures Joined(Word4(0, 0, 0, 0), Word4(b0, b1, b2, b3), 0) == Word4(b0, b1, b2, b3)
  {
  }

  lemma JoinBytes1(b0: bv32, b1: bv32, b2: bv32, b3: bv32)
    ensures Joined(Word4(b0, 0, 0, 0), Word4(b1, b2, b3, 0), 1) == Word4(b0, b1, b2, b3)
  {
  }

  lemma JoinBytes2(b0: bv32, b1: bv32, b2: bv32, b3: bv32)
    ensures Joined(Word4(b0, b1, 0, 0), Word4(b2, b3, 0, 0), 2) == Word4(b0, b1, b2, b3)
  {
  }

  lemma JoinBytes3(b0: bv32, b1: bv32, b2: bv32, b3: bv32)
    ensures Joined(Word4(b0, b1, b2, 0), Word4(b3, 0, 0, 0), 3) == Word4(b0, b1, b2, b3)
  {
  }

  lemma DropBytes1(b0: bv32, b1: bv32, b2: bv32, b3: bv32)
    requires b0 < 256 && b1 < 256 && b2 < 256 && b3 < 256
    ensures ShiftRight(Word4(b0, b1, b2, b3), 1) == Word4(b1, b2, b3, 0)
  {
  }

  lemma DropBytes2(b0: bv32, b1: bv32, b2: bv32, b3: bv32)
    requires b0 < 256 && b1 < 256 && b2 < 256 && b3 < 256
    ensures ShiftRight(Word4(b0, b1, b2, b3), 2) == Word4(b2, b3, 0, 0)
  {
  }

  lemma DropBytes3(b0: bv32, b1: bv32, b2: bv32, b3: bv32)
    requires b0 < 256 && b1 < 256 && b2 < 256 && b3 < 256
    ensures ShiftRight(Word4(b0, b1, b2, b3), 3) == Word4(b3, 0, 0, 0)
  {
  }

  lemma HighBytes1(b0: bv32, b1: bv32, b2: bv32)
    requires b0 < 256 && b1 < 256 && b2 < 256
    ensures ShiftRight(ShiftLeft(Word4(b0, b1, b2, 0), 1), 1) == Word4(b0, b1, b2, 0)
  {
  }

  lemma HighBytes2(b0: bv32, b1: bv32)
    requires b0 < 256 && b1 < 256
    ensures ShiftRight(ShiftLeft(Word4(b0, b1, 0, 0), 2), 2) == Word4(b0, b1, 0, 0)
  {
  }

  lemma HighBytes3(b0: bv32)
    requires b0 < 256
    ensures ShiftRight(ShiftLeft(Word4(b0, 0, 0, 0), 3), 3) == Word4(b0, 0, 0, 0)
  {
  }

  lemma SplitLast(b0: bv32, b1: bv32, b2: bv32, b3: bv32)
    ensures Word4(b0, b1, b2, b3) == Word4(b0, b1, b2, 0) | (b3 << 24)
  {
  }

  lemma SplitTwo(b0: bv32, b1: bv32, b2: bv32, b3: bv32)
    ensures Word4(b0, b1, b2, b3) == Word4(b0, b1, 0, 0) | ((b2 << 16) | (b3 << 24))
  {
  }

  lemma ShiftedOut1(x: bv32, b3: bv32)
    ensures ShiftLeft(x | (b3 << 24), 1) == ShiftLeft(x, 1)
  {
  }

  lemma ShiftedOut2(x: bv32, b2: bv32, b3: bv32)
    ensures ShiftLeft(x | ((b2 << 16) | (b3 << 24)), 2) == ShiftLeft(x, 2)
  {
  }

  lemma LowBytes1(b0: bv32, b1: bv32, b2: bv32, b3: bv32)
    ensures ShiftLeft(Word4(b0, b1, b2, b3), 1) == ShiftLeft(Word4(b0, b1, b2, 0), 1)
  {
    hide Word4, ShiftLeft;
    SplitLast(b0, b1, b2, b3);
    ShiftedOut1(Word4(b0, b1, b2, 0), b3);
  }

  lemma LowBytes2(b0: bv32, b1: bv32, b2: bv32, b3: bv32)
    ensures ShiftLeft(Word4(b0, b1, b2, b3), 2) == ShiftLeft(Word4(b0, b1, 0, 0), 2)
  {
    hide Word4, ShiftLeft;
    SplitTwo(b0, b1, b2, b3);
    ShiftedOut2(Word4(b0, b1, 0, 0), b2, b3);
  }

  lemma LowBytes3(b0: bv32, b1: bv32, b2: bv32, b3: bv32)
    ensures ShiftLeft(Word4(b0, b1, b2, b3), 3) == ShiftLeft(Word4(b0, 0, 0, 0), 3)
  {
  }

  lemma PackJoin0(d: seq<Byte>, i: nat, n: nat)
    requires 0 + n <= 4 && i + 0 + n <= |d|
    ensures Joined(Packed(d, i, 0), Packed(d, i + 0, n), 0) == Packed(d, i, 0 + n)
  {
    hide Word4, Joined;
    var b0, b1 := if n > 0 then d[i] else 0, if n > 1 then d[i + 1] else 0;
    JoinBytes0(b0, b1, if n > 2 then d[i + 2] else 0, if n > 3 then d[i + 3] else 0);
  }

  lemma PackJoin1(d: seq<Byte>, i: nat, n: nat)
    requires 1 + n <= 4 && i + 1 + n <= |d|
    ensures Joined(Packed(d, i, 1), Packed(d, i + 1, n), 1) == Packed(d, i, 1 + n)
  {
    hide Word4, Joined;
    JoinBytes1(d[i], if n > 0 then d[i + 1] else 0, if n > 1 then d[i + 2] else 0, if n > 2 then d[i + 3] else 0);
  }

  lemma PackJoin2(d: seq<Byte>, i: nat, n: nat)
    requires 2 + n <= 4 && i + 2 + n <= |d|
    ensures Joined(Packed(d, i, 2), Packed(d, i + 2, n), 2) == Packed(d, i, 2 + n)
  {
    hide Word4, Joined;
    JoinBytes2(d[i], d[i + 1], if n > 0 then d[i + 2] else 0, if n > 1 then d[i + 3] else 0);
  }

  lemma PackJoin3(d: seq<Byte>, i: nat, n: nat)
    requires 3 + n <= 4 && i + 3 + n <= |d|
    ensures Joined(Packed(d, i, 3), Packed(d, i + 3, n), 3) == Packed(d, i, 3 + n)
  {
    hide Word4, Joined;
    JoinBytes3(d[i], d[i + 1], d[i + 2], if n > 0 then d[i + 3] else 0);
  }

  // Two neighbouring runs of bytes packed into one word.
  lemma PackJoin(d: seq<Byte>, i: nat, m: nat, n: nat)
    requires m <= 3 && m + n <= 4 && i + m + n <= |d|
    ensures Joined(Packed(d, i, m), Packed(d, i + m, n), m) == Packed(d, i, m + n)
  {
    hide Packed, Joined;
    match m {
      case 0 => PackJoin0(d, i, n);
      case 1 => PackJoin1(d, i, n);
      case 2 => PackJoin2(d, i, n);
      case 3 => PackJoin3(d, i, n);
    }
  }

  // Dropping the low bytes of a packed run.
  lemma PackDrop(d: seq<Byte>, i: nat, m: nat, n: nat)
    requires 1 <= m <= 3 && m + n == 4 && i + 4 <= |d|
    ensures ShiftRight(Packed(d, i, 4), m) == Packed(d, i + m, n)
  {
    hide Word4, ShiftRight;
    match m {
      case 1 => DropBytes1(d[i], d[i + 1], d[i + 2], d[i + 3]);
      case 2 => DropBytes2(d[i], d[i + 1], d[i + 2], d[i + 3]);
      case 3 => DropBytes3(d[i], d[i + 1], d[i + 2], d[i + 3]);
    }
  }

  // Packing into the high bytes and back.
  lemma PackHigh(d: seq<Byte>, i: nat, m: nat)
    requires 1 <= m <= 3 && i + m <= |d|
    ensures ShiftRight(ShiftLeft(Packed(d, i, m), 4 - m), 4 - m) == Packed(d, i, m)
  {
    hide Word4, ShiftLeft, ShiftRight;
    match m {
      case 1 => HighBytes3(d[i]);
      case 2 => HighBytes2(d[i], d[i + 1]);
      case 3 => HighBytes1(d[i], d[i + 1], d[i + 2]);
    }
  }

  // ---------------------------------------------------------------- one-shot forms

  // `switch (len)` with its fall-through cases.
  method XorBytes(hash: bv32, d: seq<Byte>, i: nat, n: nat) returns (h: bv32)
    requires 1 <= n <= 3 && i + n <= |d|
    ensures h == hash ^ Packed(d, i, n)
  {
    hide Word4;
    h := hash;
    if n >= 3 { h := h ^ ((d[i + 2] as bv32) << 16); }
    if n >= 2 { h := h ^ ((d[i + 1] as bv32) << 8); }
    if n >= 1 { h := h ^ d[i]; }
    match n {
      case 1 => XorTail1(hash, d[i]);
      case 2 => XorTail2(hash, d[i], d[i + 1]);
      case 3 => XorTail3(hash, d[i], d[i + 1], d[i + 2]);
    }
  }

  // The tail bytes, then the multiplication that all cases but zero reach.
  method XorTailBytes(hash: bv32, d: seq<Byte>, i: nat, n: nat) returns (h: bv32)
    requires n <= 3 && i + n <= |d|
    ensures h == if n == 0 then hash else TailMix(hash, Packed(d, i, n))
  {
    hide Word4, Packed, Times;
    h := hash;
    if n > 0 {
      h := XorBytes(h, d, i, n);
      h := Times(h);
    }
  }

  // Packing the bytes of a switch, highest first.
  method PackBytes(d: seq<Byte>, i: nat, n: nat) returns (t: bv32)
    requires n <= 3 && i + n <= |d|
    ensures t == Packed(d, i, n)
  {
    hide Word4;
    t := 0;
    if n >= 3 { t := t | ((d[i + 2] as bv32) << 16); }
    if n >= 2 { t := t | ((d[i + 1] as bv32) << 8); }
    if n >= 1 { t := t | d[i]; }
    match n {
      case 0 => OneByte(0);
      case 1 => OrBytes1(d[i]);
      case 2 => OrBytes2(d[i], d[i + 1]);
      case 3 => OrBytes3(d[i], d[i + 1], d[i + 2]);
    }
  }

  // Four bytes at a time with a 32-bit load, whatever the alignment.
  method MurmurHash2(key: seq<Byte>, seed: bv32) returns (h: bv32)
    requires |key| < TWO31
    ensures h == Hash2(key, seed)
  {
    hide Mix, Finish, Packed, TailMix, Word;
    h := seed ^ Word(|key|);
    var i: nat, len: nat := 0, |key|;
    while len >= 4
      invariant i + len == |key| && i % 4 == 0 && h == Words(seed ^ Word(|key|), key, i / 4)
    {
      h := Mix(h, Load(key, i));
      i := i + 4;
      len := len - 4;
    }
    h := XorTailBytes(h, key, i, len);
    h := Finish(h);
  }

  // The word assembled from single bytes, lowest first.
  method LoadBytes(d: seq<Byte>, i: nat) returns (k: bv32)
    requires i + 4 <= |d|
    ensures k == Load(d, i)
  {
    k := d[i] as bv32;
    k := k | ((d[i + 1] as bv32) << 8);
    k := k | ((d[i + 2] as bv32) << 16);
    k := k | ((d[i + 3] as bv32) << 24);
  }

  // Neither alignment nor byte order of the machine matters here.
  method MurmurHashNeutral2(key: seq<Byte>, seed: bv32) returns (h: bv32)
    requires |key| < TWO31
    ensures h == Hash2(key, seed)
  {
    hide Mix, Finish, TailMix, Word;
    h := seed ^ Word(|key|);
    var i: nat, len: nat := 0, |key|;
    while len >= 4
      invariant i + len == |key| && i % 4 == 0 && h == Words(seed ^ Word(|key|), key, i / 4)
    {
      var k := LoadBytes(key, i);
      h := Mix(h, k);
      i := i + 4;
      len := len - 4;
    }
    h := XorTailBytes(h, key, i, len);
    h := Finish(h);
  }

  // Every load is from an aligned address: a two-word register is shifted over the bytes.
  method MurmurHashAligned2(key: seq<Byte>, seed: bv32, address: nat) returns (h: bv32)
    requires |key| < TWO31
    ensures h == Hash2(key, seed)
  {
    hide Mix, Finish, Packed, TailMix, Word;
    var align := address % 4;
    if align != 0 && |key| >= 4 {
      h := AlignedBody(key, seed, align);
    } else {
      h := seed ^ Word(|key|);
      var i: nat, len: nat := 0, |key|;
      while len >= 4
        invariant i + len == |key| && i % 4 == 0 && h == Words(seed ^ Word(|key|), key, i / 4)
      {
        // The first byte is aligned whenever this loop has a word to read.
        h := Mix(h, AlignedLoad(key, i, align));
        i := i + 4;
        len := len - 4;
      }
      h := XorTailBytes(h, key, i, len);
    }
    h := Finish(h);
  }

  function Unfinished(d: seq<Byte>, seed: bv32): bv32
    requires |d| < TWO31
  {
    var h := Words(seed ^ Word(|d|), d, |d| / 4);
    if |d| % 4 == 0 then h else TailMix(h, TailWord(d))
  }

  method AlignedBody(key: seq<Byte>, seed: bv32, align: nat) returns (h: bv32)
    requires 4 <= |key| < TWO31 && 1 <= align <= 3
    ensures h == Unfinished(key, seed)
  {
    hide Mix, Packed, Joined, ShiftLeft, ShiftRight, TailMix, Word, Word4;
    h := seed ^ Word(|key|);
    var t := PackBytes(key, 0, 4 - align);
    PackHigh(key, 0, 4 - align);
    t := ShiftLeft(t, align);
    var i: nat, len: nat := 4 - align, |key| - (4 - align);
    // The register holds the bytes from the last multiple of four up to `i`.
    while len >= 4
      invariant i + len == |key| && (align + i) % 4 == 0 && i >= 4 - align
      invariant h == Words(seed ^ Word(|key|), key, (i + align) / 4 - 1)
      invariant ShiftRight(t, align) == Packed(key, i + align - 4, 4 - align)
    {
      var d := AlignedLoad(key, i, align);
      AlignedStep(key, i, align);
      t := Joined(ShiftRight(t, align), d, 4 - align);
      h := Mix(h, t);
      t := d;
      i := i + 4;
      len := len - 4;
    }
    ghost var p := i + align - 4;
    if len >= align {
      var d := PackBytes(key, i, align);
      PackJoin(key, p, 4 - align, align);
      h := Mix(h, Joined(ShiftRight(t, align), d, 4 - align));
      h := XorTailBytes(h, key, i + align, len - align);
    } else {
      var d := PackBytes(key, i, len);
      PackJoin(key, p, 4 - align, len);
      h := TailMix(h, Joined(ShiftRight(t, align), d, 4 - align));
    }
  }

  // Shifted up, only the low bytes of the loaded word are left.
  lemma AlignedWord(d: seq<Byte>, i: nat, align: nat, low: bv32)
    requires 1 <= align <= 3 && i + 4 <= |d|
    ensures Joined(low, Load(d, i), 4 - align) == Joined(low, Packed(d, i, align), 4 - align)
  {
    hide Word4, ShiftLeft;
    match align {
      case 1 => LowBytes3(d[i], d[i + 1], d[i + 2], d[i + 3]);
      case 2 => LowBytes2(d[i], d[i + 1], d[i + 2], d[i + 3]);
      case 3 => LowBytes1(d[i], d[i + 1], d[i + 2], d[i + 3]);
    }
  }

  // The bytes held and the next aligned word give the next four unread bytes, and its high bytes
  // are held next.
  lemma AlignedStep(d: seq<Byte>, i: nat, align: nat)
    requires 1 <= align <= 3 && i + 4 <= |d| && i + align >= 4
    ensures Joined(Packed(d, i + align - 4, 4 - align), Load(d, i), 4 - align) == Load(d, i + align - 4)
    ensures ShiftRight(Load(d, i), align) == Packed(d, i + align, 4 - align)
  {
    hide Packed, Joined, ShiftRight;
    AlignedWord(d, i, align, Packed(d, i + align - 4, 4 - align));
    PackJoin(d, i + align - 4, 4 - align, align);
    PackDrop(d, i, align, 4 - align);
  }

  method MurmurHash2A(key: seq<Byte>, seed: bv32) returns (h: bv32)
    requires |key| < TWO31
    ensures h == Hash2A(key, seed)
  {
    hide Mix, Finish, Packed, TailMix, Word;
    h := seed;
    var i: nat, len: nat := 0, |key|;
    while len >= 4
      invariant i + len == |key| && i % 4 == 0 && h == Words(seed, key, i / 4)
    {
      h := Mix(h, Load(key, i));
      i := i + 4;
      len := len - 4;
    }
    var t := PackBytes(key, i, len);
    h := Mix(h, t);
    h := Mix(h, Word(|key|));
    h := Finish(h);
  }

  // ---------------------------------------------------------------- the incremental form

  // Words already mixed in do not change when bytes are added behind them.
  lemma {:induction false} WordsPrefix(h: bv32, d: seq<Byte>, e: seq<Byte>, n: nat)
    requires 4 * n <= |d|
    ensures Words(h, d + e, n) == Words(h, d, n)
  {
    if n > 0 {
      hide Mix;
      WordsPrefix(h, d, e, n - 1);
    }
  }

  // The state after the bytes `d`: whole words in the hash, the rest in the tail.
  ghost predicate State(seed: bv32, d: seq<Byte>, hash: bv32, tail: bv32, count: nat) {
    hash == Words(seed, d, |d| / 4) && tail == TailWord(d) && count == TailLength(d)
  }

  // The tail with one more byte.
  lemma TailByte(d: seq<Byte>, b: Byte)
    ensures Joined(TailWord(d), b, TailLength(d)) == Packed(d + [b], |d| - TailLength(d), TailLength(d) + 1)
  {
    hide Packed, Joined;
    var d', i, n := d + [b], |d| - TailLength(d), TailLength(d);
    PackedPrefix(d, [b], i, n);
    PackedOne(d', |d|);
    PackJoin(d', i, n, 1);
  }

  lemma AddByte(seed: bv32, d: seq<Byte>, hash: bv32, tail: bv32, count: nat, b: Byte)
    requires State(seed, d, hash, tail, count)
    ensures count < 4
    ensures count < 3 ==> State(seed, d + [b], hash, Joined(tail, b, count), count + 1)
    ensures count == 3 ==> State(seed, d + [b], Mix(hash, Joined(tail, b, 3)), 0, 0)
  {
    hide Mix, Packed, Joined, Words, Word4;
    TailByte(d, b);
    WordsPrefix(seed, d, [b], |d| / 4);
    var d' := d + [b];
    if count == 3 {
      PackedNone(d', |d'|);
      WordsStep(seed, d', |d| / 4);
    }
  }

  lemma WordsStep(h: bv32, d: seq<Byte>, n: nat)
    requires 4 * (n + 1) <= |d|
    ensures Words(h, d, n + 1) == Mix(Words(h, d, n), Load(d, 4 * n))
  {
  }

  lemma PackedPrefix(d: seq<Byte>, e: seq<Byte>, i: nat, n: nat)
    requires n <= 4 && i + n <= |d|
    ensures Packed(d + e, i, n) == Packed(d, i, n)
  {
    hide Word4;
  }

  lemma PackedOne(d: seq<Byte>, i: nat)
    requires i < |d|
    ensures Packed(d, i, 1) == d[i]
  {
    OneByte(d[i]);
  }

  lemma PackedNone(d: seq<Byte>, i: nat)
    requires i <= |d|
    ensures Packed(d, i, 0) == 0
  {
    OneByte(0);
  }

  lemma AddWord(seed: bv32, d: seq<Byte>, hash: bv32, tail: bv32, e: seq<Byte>)
    requires State(seed, d, hash, tail, 0) && |e| == 4
    ensures State(seed, d + e, Mix(hash, Load(e, 0)), tail, 0)
  {
    hide Mix;
    WordsPrefix(seed, d, e, |d| / 4);
  }

  class CMurmurHash2A {
    var m_hash: bv32
    var m_tail: bv32
    var m_count: nat
    var m_size: nat
    ghost var seed: bv32
    ghost var added: seq<Byte>

    ghost predicate Mixed(bytes: seq<Byte>)
      reads this
    {
      State(seed, bytes, m_hash, m_tail, m_count)
    }

    ghost predicate Valid()
      reads this
    {
      Mixed(added) && m_size == |added| % TWO32
    }

    constructor Begin(start: bv32)
      ensures Valid() && seed == start && added == []
    {
      m_hash, m_tail, m_count, m_size, seed, added := start, 0, 0, 0, start, [];
      PackedNone([], 0);
    }

    // Single bytes, until the tail is empty and a whole word is left to read.
    method MixTail(data: seq<Byte>, start: nat, ghost before: seq<Byte>) returns (i: nat)
      requires start <= |data| && Mixed(before + data[..start])
      modifies this`m_hash, this`m_tail, this`m_count
      ensures start <= i <= |data| && Mixed(before + data[..i])
      ensures i == |data| || (i + 4 <= |data| && m_count == 0)
    {
      hide State, Mix, Joined;
      i := start;
      while i < |data| && (|data| - i < 4 || m_count != 0)
        invariant start <= i <= |data| && Mixed(before + data[..i])
      {
        CountBound(seed, before + data[..i], m_hash, m_tail, m_count);
        AddByte(seed, before + data[..i], m_hash, m_tail, m_count, data[i]);
        assert before + data[..i] + [data[i]] == before + data[..i + 1];
        m_tail := Joined(m_tail, data[i], m_count);
        m_count := m_count + 1;
        i := i + 1;
        if m_count == 4 {
          m_hash := Mix(m_hash, m_tail);
          m_tail, m_count := 0, 0;
        }
      }
    }

    method Add(data: seq<Byte>)
      requires Valid() && |data| < TWO31
      modifies this
      ensures Valid() && seed == old(seed) && added == old(added) + data
    {
      hide State, Mix;
      m_size := (m_size + |data|) % TWO32;
      assert added + data[..0] == added;
      var i := MixTail(data, 0, added);
      while |data| - i >= 4
        invariant i <= |data| && Mixed(added + data[..i]) && (i == |data| || m_count == 0)
        invariant seed == old(seed) && added == old(added) && m_size == (|added| + |data|) % TWO32
      {
        AddWord(seed, added + data[..i], m_hash, m_tail, data[i..i + 4]);
        assert added + data[..i] + data[i..i + 4] == added + data[..i + 4];
        LoadSlice(data, i);
        m_hash := Mix(m_hash, Load(data, i));
        i := i + 4;
      }
      i := MixTail(data, i, added);
      assert data[..i] == data;
      added := added + data;
    }

    // The hash of everything added since Begin.  The tail stays in the object, so no more bytes
    // may follow.
    method End() returns (hash: bv32)
      requires Valid()
      modifies this`m_hash
      ensures hash == Hash2A(added, seed)
    {
      hide Mix, Finish, Words, TailWord;
      m_hash := Mix(m_hash, m_tail);
      m_hash := Mix(m_hash, Word(m_size));
      m_hash := Finish(m_hash);
      hash := m_hash;
    }
  }

  lemma CountBound(seed: bv32, d: seq<Byte>, hash: bv32, tail: bv32, count: nat)
    requires State(seed, d, hash, tail, count)
    ensures count < 4
  {
  }

  lemma LoadSlice(d: seq<Byte>, i: nat)
    requires i + 4 <= |d|
    ensures Load(d[i..i + 4], 0) == Load(d, i)
  {
    hide Word4;
  }

  function Concat(chunks: seq<seq<Byte>>): seq<Byte> {
    if chunks == [] then [] else Concat(chunks[..|chunks| - 1]) + chunks[|chunks| - 1]
  }

  // However the bytes are cut into chunks, the incremental hash is the one-shot hash of them all.
  method HashChunks(chunks: seq<seq<Byte>>, seed: bv32) returns (hash: bv32)
    requires forall i :: 0 <= i < |chunks| ==> |chunks[i]| < TWO31
    ensures hash == Hash2A(Concat(chunks), seed)
  {
    hide Hash2A;
    var hasher := new CMurmurHash2A.Begin(seed);
    var i := 0;
    while i < |chunks|
      invariant i <= |chunks| && hasher.Valid() && fresh(hasher)
      invariant hasher.seed == seed && hasher.added == Concat(chunks[..i])
    {
      assert chunks[..i + 1][..i] == chunks[..i];
      hasher.Add(chunks[i]);
      i := i + 1;
    }
    assert chunks[..i] == chunks;
    hash := hasher.End();
  }
}
