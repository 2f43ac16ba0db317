/**
 The mixing of the 32-bit hash undone step by step, and the hashes of some texts.
 */
module MurmurInverse {
  import opened Murmur

  // ---------------------------------------------------------------- undoing the multiplication

  // Multiplication by the inverse of the constant modulo 2^32.
  function Untimes(g: bv32): bv32 { g * 0xe59b19bd }

  function Next(x: bv32): bv32 { x + 1 }

  function Previous(x: bv32): bv32 { x - 1 }

  function Raised(x: bv32): bv32 { x + 0x5bd1e995 }

  lemma TimesOneMore(x: bv32)
    ensures Times(x + 1) == Times(x) + 0x5bd1e995
  {
  }

  lemma UntimesRaised(x: bv32)
    ensures Untimes(x + 0x5bd1e995) == Untimes(x) + 1
  {
  }

  lemma TimesNext(x: bv32)
    ensures Times(Next(x)) == Raised(Times(x)) && Untimes(Raised(x)) == Next(Untimes(x))
  {
    hide Times, Untimes;
    TimesOneMore(x);
    UntimesRaised(x);
  }

  lemma PreviousNext(x: bv32)
    ensures Next(Previous(x)) == x && (x > 0 ==> Previous(x) < x)
  {
  }

  lemma NothingTimes()
    ensures Untimes(Times(0)) == 0
  {
  }

  // One more gives the constant more, and the constant more gives one more back.
  lemma {:induction false} TimesUndone(x: bv32)
    ensures Untimes(Times(x)) == x
    decreases x
  {
    hide Times, Untimes, Next, Previous, Raised;
    if x == 0 {
      NothingTimes();
    } else {
      PreviousNext(x);
      TimesUndone(Previous(x));
      TimesNext(Previous(x));
      TimesNext(Times(Previous(x)));
    }
  }

  // ---------------------------------------------------------------- undoing the shifts

  function Xor(a: bv32, b: bv32): bv32 { a ^ b }

  lemma XorIs(a: bv32, b: bv32)
    ensures Xor(a, b) == a ^ b
  {
  }

  lemma XorTwice(a: bv32, b: bv32)
    ensures Xor(Xor(a, b), b) == a && Xor(a, 0) == a && Xor(Xor(a, b), a) == b
  {
  }

  lemma XorChain(a: bv32, b: bv32, c: bv32)
    ensures Xor(Xor(a, b), Xor(b, c)) == Xor(a, c)
  {
  }

  function Shift24(x: bv32): bv32 { x >> 24 }

  lemma Fold24Is(x: bv32)
    ensures Fold24(x) == Xor(x, Shift24(x))
  {
    hide Xor;
    XorIs(x, x >> 24);
  }

  lemma Shift24OfXor(a: bv32, b: bv32)
    ensures Shift24(Xor(a, b)) == Xor(Shift24(a), Shift24(b))
  {
  }

  lemma Shift24Twice(x: bv32)
    ensures Shift24(Shift24(x)) == 0
  {
  }

  // Folding the high byte over the low one twice changes nothing.
  lemma Fold24Undone(x: bv32)
    ensures Fold24(Fold24(x)) == x
  {
    hide Xor, Shift24, Fold24;
    Fold24Is(x);
    Fold24Is(Fold24(x));
    Shift24OfXor(x, Shift24(x));
    Shift24Twice(x);
    XorTwice(x, Shift24(x));
    XorTwice(Shift24(x), x);
  }

  function Shift15(x: bv32): bv32 { x >> 15 }

  function Shift30(x: bv32): bv32 { x >> 30 }

  lemma Fold15Is(x: bv32)
    ensures Fold15(x) == Xor(x, Shift15(x))
  {
    hide Xor;
    XorIs(x, x >> 15);
  }

  lemma Shift15OfXor(a: bv32, b: bv32)
    ensures Shift15(Xor(a, b)) == Xor(Shift15(a), Shift15(b))
  {
  }

  lemma Shift30OfXor(a: bv32, b: bv32)
    ensures Shift30(Xor(a, b)) == Xor(Shift30(a), Shift30(b))
  {
  }

  lemma Shift15Twice(x: bv32)
    ensures Shift15(Shift15(x)) == Shift30(x) && Shift30(Shift15(x)) == 0
  {
  }

  function Unfold15(y: bv32): bv32 { Xor(Xor(y, Shift15(y)), Shift30(y)) }

  lemma Fold15Undone(x: bv32)
    ensures Unfold15(Fold15(x)) == x
  {
    hide Xor, Shift15, Shift30, Fold15;
    Fold15Is(x);
    Shift15OfXor(x, Shift15(x));
    Shift30OfXor(x, Shift15(x));
    Shift15Twice(x);
    XorTwice(Shift30(x), x);
    XorTwice(x, Shift30(x));
    XorChain(x, Shift15(x), Shift30(x));
  }

  function Shift13(x: bv32): bv32 { x >> 13 }

  function Shift26(x: bv32): bv32 { x >> 26 }

  lemma Fold13Is(x: bv32)
    ensures Fold13(x) == Xor(x, Shift13(x))
  {
    hide Xor;
    XorIs(x, x >> 13);
  }

  lemma Shift13OfXor(a: bv32, b: bv32)
    ensures Shift13(Xor(a, b)) == Xor(Shift13(a), Shift13(b))
  {
  }

  lemma Shift26OfXor(a: bv32, b: bv32)
    ensures Shift26(Xor(a, b)) == Xor(Shift26(a), Shift26(b))
  {
  }

  lemma Shift13Twice(x: bv32)
    ensures Shift13(Shift13(x)) == Shift26(x) && Shift26(Shift13(x)) == 0
  {
  }

  function Unfold13(y: bv32): bv32 { Xor(Xor(y, Shift13(y)), Shift26(y)) }

  lemma Fold13Undone(x: bv32)
    ensures Unfold13(Fold13(x)) == x
  {
    hide Xor, Shift13, Shift26, Fold13;
    Fold13Is(x);
    Shift13OfXor(x, Shift13(x));
    Shift26OfXor(x, Shift13(x));
    Shift13Twice(x);
    XorTwice(Shift26(x), x);
    XorTwice(x, Shift26(x));
    XorChain(x, Shift13(x), Shift26(x));
  }

  // ---------------------------------------------------------------- undoing the hash

  // The word that was mixed in, and the hash it was mixed into.
  function UnmixWord(g: bv32, h: bv32): bv32 { Untimes(Fold24(Untimes(Xor(g, Times(h))))) }

  function UnmixHash(g: bv32, k: bv32): bv32 { Untimes(Xor(g, Times(Fold24(Times(k))))) }

  function Unfinish(g: bv32): bv32 { Unfold13(Untimes(Unfold15(g))) }

  lemma MixIs(h: bv32, k: bv32)
    ensures Mix(h, k) == Xor(Times(h), Times(Fold24(Times(k))))
  {
    hide Times, Fold24;
  }

  // Mixing loses nothing: the result and one of its two arguments give the other.
  lemma MixUndone(h: bv32, k: bv32)
    ensures UnmixWord(Mix(h, k), h) == k && UnmixHash(Mix(h, k), k) == h
  {
    hide Mix, Times, Untimes, Fold24, Xor;
    MixIs(h, k);
    XorTwice(Times(h), Times(Fold24(Times(k))));
    TimesUndone(h);
    TimesUndone(k);
    TimesUndone(Fold24(Times(k)));
    Fold24Undone(Times(k));
  }

  lemma FinishUndone(h: bv32)
    ensures Unfinish(Finish(h)) == h
  {
    hide Times, Untimes, Fold15, Fold13, Unfold15, Unfold13;
    Fold13Undone(h);
    TimesUndone(Fold13(h));
    Fold15Undone(Times(Fold13(h)));
  }

  lemma FirstWord(d: seq<Byte>, h: bv32)
    requires 4 <= |d| < 8
    ensures Words(h, d, |d| / 4) == Mix(h, Load(d, 0))
  {
    assert Words(h, d, 0) == h;
    assert |d| / 4 == 1;
  }

  lemma {:induction false} WordsSame(h: bv32, d: seq<Byte>, e: seq<Byte>, n: nat)
    requires |d| == |e| && 4 * n <= |d| && forall i :: 0 <= i < n ==> Load(d, 4 * i) == Load(e, 4 * i)
    ensures Words(h, d, n) == Words(h, e, n)
  {
    hide Mix, Load;
    if n > 0 { WordsSame(h, d, e, n - 1); }
  }

  // Words mixed in one after the other: the others and the result give the one at `p`.
  lemma {:induction false} WordCounts(h: bv32, d: seq<Byte>, e: seq<Byte>, n: nat, p: nat)
    requires |d| == |e| && p < n && 4 * n <= |d| && Words(h, d, n) == Words(h, e, n)
    requires forall i :: 0 <= i < n && i != p ==> Load(d, 4 * i) == Load(e, 4 * i)
    ensures Load(d, 4 * p) == Load(e, 4 * p)
  {
    hide Mix, Load, UnmixWord, UnmixHash;
    MixUndone(Words(h, d, n - 1), Load(d, 4 * (n - 1)));
    MixUndone(Words(h, e, n - 1), Load(e, 4 * (n - 1)));
    if p == n - 1 { WordsSame(h, d, e, n - 1); } else { WordCounts(h, d, e, n - 1, p); }
  }

  lemma TailUndone(h: bv32, t: bv32)
    ensures Untimes(TailMix(h, t)) ^ t == h
  {
    hide Times, Untimes;
    TimesUndone(h ^ t);
  }

  // Texts of one length with one hash that agree on their tails and on all their words but one
  // agree on that one too.
  lemma EveryWordCounts(d: seq<Byte>, e: seq<Byte>, seed: bv32, p: nat)
    requires |d| == |e| < TWO31 && Hash2(d, seed) == Hash2(e, seed) && 4 * p + 4 <= |d|
    requires TailWord(d) == TailWord(e)
    requires forall i :: 0 <= i < |d| / 4 && i != p ==> Load(d, 4 * i) == Load(e, 4 * i)
    ensures Load(d, 4 * p) == Load(e, 4 * p)
  {
    hide Load, Words, Finish, TailMix, TailWord;
    var n, start := |d| / 4, seed ^ Word(|d|);
    EndUndone(Words(start, d, n), Words(start, e, n), |d| % 4 == 0, TailWord(d));
    hide Hash2;
    WordCounts(start, d, e, n, p);
  }

  lemma EndUndone(g: bv32, h: bv32, whole: bool, t: bv32)
    requires Finish(if whole then g else TailMix(g, t)) == Finish(if whole then h else TailMix(h, t))
    ensures g == h
  {
    hide Finish, Unfinish, TailMix, Untimes;
    FinishUndone(if whole then g else TailMix(g, t));
    FinishUndone(if whole then h else TailMix(h, t));
    TailUndone(g, t);
    TailUndone(h, t);
  }

  // ---------------------------------------------------------------- hashes of some texts

  lemma WordHashed()
    ensures Hash2([97, 98, 99, 100], 0) == 0x26873021
  {
    FirstWord([97, 98, 99, 100], 4);
    assert Mix(4, 0x64636261) == 0x83b21f23;
    assert Finish(0x83b21f23) == 0x26873021;
  }

  lemma TwoWordsHashed()
    ensures Hash2([97, 98, 99, 100, 101, 102, 103, 104], 7) == 0xac1b20cf
  {
    var d: seq<Byte> := [97, 98, 99, 100, 101, 102, 103, 104];
    assert Load(d, 0) == 0x64636261 && Load(d, 4) == 0x68676665;
    assert Words(15, d, 1) == Mix(15, 0x64636261) == 0x8db916cc;
    assert Words(15, d, 2) == Mix(0x8db916cc, 0x68676665) == 0x6c57b6f2;
    assert Finish(0x6c57b6f2) == 0xac1b20cf;
  }

  lemma TailOfOneHashed()
    ensures Hash2([97, 98, 99, 100, 101], 0) == 0x5f09a8de
  {
    FirstWord([97, 98, 99, 100, 101], 5);
    assert Mix(5, 0x64636261) == 0x27ec369e;
    assert TailWord([97, 98, 99, 100, 101]) == 0x65;
    assert TailMix(0x27ec369e, 0x65) == 0x56717317;
    assert Finish(0x56717317) == 0x5f09a8de;
  }

  lemma TailOfTwoHashed()
    ensures Hash2([97, 98, 99, 100, 101, 102], 0) == 0x4bc8e979
  {
    FirstWord([97, 98, 99, 100, 101, 102], 6);
    assert Mix(6, 0x64636261) == 0xca1ec009;
    assert TailWord([97, 98, 99, 100, 101, 102]) == 0x6665;
    assert TailMix(0xca1ec009, 0x6665) == 0xcb7b28dc;
    assert Finish(0xcb7b28dc) == 0x4bc8e979;
  }

  lemma TailOfThreeHashed()
    ensures Hash2([97, 98, 99, 100, 101, 102, 103], 0) == 0xf9a1cef3
  {
    FirstWord([97, 98, 99, 100, 101, 102, 103], 7);
    assert Mix(7, 0x64636261) == 0x6e48da64;
    assert TailWord([97, 98, 99, 100, 101, 102, 103]) == 0x676665;
    assert TailMix(0x6e48da64, 0x676665) == 0x6bb65595;
    assert Finish(0x6bb65595) == 0xf9a1cef3;
  }

  // The tail is mixed in before the length.
  lemma TailThenLengthHashed()
    ensures Hash2A([97, 98, 99, 100, 101], 0) == 0x3254454d
  {
    hide Mix, Finish;
    FirstWord([97, 98, 99, 100, 101], 0);
    assert Load([97, 98, 99, 100, 101], 0) == 0x64636261;
    assert TailWord([97, 98, 99, 100, 101]) == 0x65;
    assert Word(5) == 5;
    TailThenLength();
  }

  lemma TailThenLength()
    ensures Finish(Mix(Mix(Mix(0, 0x64636261), 0x65), 5)) == 0x3254454d
  {
    assert Mix(0, 0x64636261) == 0xecf5b977;
    assert Mix(0xecf5b977, 0x65) == 0xa8fceff3;
    assert Mix(0xa8fceff3, 5) == 0xbe1693a5;
    assert Finish(0xbe1693a5) == 0x3254454d;
  }
}
