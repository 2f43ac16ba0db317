/**
 The allocator's tree in terms of slots: which runs of slots are free, what allocating and freeing
 do to the live blocks, and how the array is brought up to date from a changed node to the root.
 */
module BuddyBlocks {
  import opened Arithmetic
  import opened BuddyTree
  import opened BuddyUtil

  // Slot `s` belongs to a live block.
  ghost predicate Covered(live: set<nat>, H: nat, s: nat) {
    exists x :: x in live && x >= 1 && Under(s + Pow2(H), x)
  }

  function Height(x: nat, H: nat): nat
    requires x >= 1
  {
    if Depth(x) <= H then H - Depth(x) else 0
  }

  function Size(x: nat, H: nat): nat
    requires x >= 1
  {
    Pow2(Height(x, H))
  }

  // The first slot of a node's block.
  function Start(x: nat, H: nat): int
    requires x >= 1
  {
    x * Size(x, H) - Pow2(H)
  }

  ghost predicate InBlock(s: nat, x: nat, H: nat)
    requires x >= 1
  {
    Start(x, H) <= s < Start(x, H) + Size(x, H)
  }

  // A node's block is aligned to its size and inside the chunk, and holds the slots below it.
  lemma BlockOf(x: nat, H: nat)
    requires x >= 1 && Depth(x) <= H
    ensures 0 <= Start(x, H) && Start(x, H) + Size(x, H) <= Pow2(H) && Start(x, H) % Size(x, H) == 0
  {
    DepthRange(x);
    Pow2Add(Depth(x), Height(x, H));
    hide Pow2, Depth;
    AlignedIn(x, Pow2(Depth(x)), Size(x, H), Pow2(H));
  }

  lemma AlignedIn(x: nat, d: nat, size: nat, total: nat)
    requires size >= 1 && total == d * size && d <= x < 2 * d
    ensures 0 <= x * size - total && x * size - total + size <= total && (x * size - total) % size == 0
  {
    Gap(x, 2 * d, size);
    if d < x { Gap(d, x, size); }
    assert x * size - d * size == (x - d) * size;
    assert 2 * d * size == 2 * (d * size);
    Remainder((x - d) * size, size, x - d, 0);
  }

  lemma LeafDepth(s: nat, H: nat)
    requires s < Pow2(H)
    ensures Depth(s + Pow2(H)) == H
  {
    DepthUnique(s + Pow2(H), H);
  }

  lemma InBlockIff(s: nat, x: nat, H: nat)
    requires x >= 1 && Depth(x) <= H && s < Pow2(H)
    ensures InBlock(s, x, H) <==> Under(s + Pow2(H), x)
  {
    LeafDepth(s, H);
    UnderInterval(s + Pow2(H), x, Height(x, H));
  }

  // An aligned run of 2^k slots none of which is in use.
  ghost predicate FreeRun(live: set<nat>, H: nat, o: nat, k: nat) {
    o % Pow2(k) == 0 && o + Pow2(k) <= Pow2(H) && forall s :: o <= s < o + Pow2(k) ==> !Covered(live, H, s)
  }

  function Div(a: nat, b: nat): nat
    requires b >= 1
  {
    a / b
  }

  function NodeAt(H: nat, o: nat, k: nat): nat { Div(o + Pow2(H), Pow2(k)) }

  // Aligned runs are the blocks of nodes.
  lemma NodeAtBlock(H: nat, o: nat, k: nat)
    requires o % Pow2(k) == 0 && o + Pow2(k) <= Pow2(H)
    ensures k <= H
    ensures var q := NodeAt(H, o, k); q >= 1 && Depth(q) + k == H && Start(q, H) == o
  {
    Pow2Order(k, H);
    hide Pow2, Depth, Start;
    Pow2Add(H - k, k);
    RunNumber(o, Pow2(H - k), Pow2(k), Pow2(H));
    DepthUnique(NodeAt(H, o, k), H - k);
    StartOf(NodeAt(H, o, k), k, H);
  }

  lemma StartOf(q: nat, k: nat, H: nat)
    requires q >= 1 && Depth(q) + k == H
    ensures Height(q, H) == k && Size(q, H) == Pow2(k) && Start(q, H) == q * Pow2(k) - Pow2(H)
  {
  }

  lemma RunNumber(o: nat, d: nat, size: nat, total: nat)
    requires size >= 1 && d >= 1 && total == d * size && o % size == 0 && o + size <= total
    ensures var q := Div(o + total, size); d <= q < 2 * d && q * size == o + total
  {
    var c := o / size;
    assert o == c * size;
    assert (c + d) * size == c * size + d * size;
    Remainder(o + total, size, c + d, 0);
    if c >= d { MulMonotone(d, c, size); }
  }

  // The leftmost slot below a node.
  lemma {:induction false} FirstSlot(x: nat, H: nat)
    requires x >= 1 && Depth(x) <= H
    ensures Start(x, H) >= 0 && Start(x, H) < Pow2(H) && Under(Start(x, H) + Pow2(H), x)
  {
    BlockOf(x, H);
    InBlockIff(Start(x, H), x, H);
  }

  // Free in terms of slots and of nodes.
  lemma FreeRunIff(live: set<nat>, H: nat, q: nat)
    requires q >= 1 && Depth(q) <= H && Fits(live, H)
    ensures Start(q, H) >= 0
    ensures FreeRun(live, H, Start(q, H), Height(q, H)) <==> NoneUnder(live, q) && NoneAbove(live, q)
  {
    BlockOf(q, H);
    var o := Start(q, H);
    if FreeRun(live, H, o, Height(q, H)) {
      forall x | x in live ensures !Under(x, q) && !Under(q, x) { NotLive(live, H, q, x); }
    }
    if NoneUnder(live, q) && NoneAbove(live, q) {
      forall s | o <= s < o + Size(q, H) ensures !Covered(live, H, s) {
        InBlockIff(s, q, H);
        NotUsed(live, H, q, s);
      }
    }
  }

  lemma NotUsed(live: set<nat>, H: nat, q: nat, s: nat)
    requires q >= 1 && NoneUnder(live, q) && NoneAbove(live, q) && Under(s + Pow2(H), q)
    ensures !Covered(live, H, s)
  {
    if x :| x in live && x >= 1 && Under(s + Pow2(H), x) { UnderChain(s + Pow2(H), x, q); }
  }

  lemma NotLive(live: set<nat>, H: nat, q: nat, x: nat)
    requires q >= 1 && Depth(q) <= H && Fits(live, H) && x in live && Start(q, H) >= 0
    requires FreeRun(live, H, Start(q, H), Height(q, H))
    ensures x >= 1 && !Under(x, q) && !Under(q, x)
  {
    assert x >= 1 && Depth(x) <= H;
    hide Start, Size, Fits, Depth, Pow2, Under;
    if Under(x, q) {
      FirstSlot(x, H);
      UnderTrans(Start(x, H) + Pow2(H), x, q);
      UsedAt(live, H, q, x, Start(x, H));
    } else if Under(q, x) {
      FirstSlot(q, H);
      UnderTrans(Start(q, H) + Pow2(H), q, x);
      UsedAt(live, H, q, x, Start(q, H));
    }
  }

  lemma UsedAt(live: set<nat>, H: nat, q: nat, x: nat, s: nat)
    requires q >= 1 && Depth(q) <= H && x in live && x >= 1 && s < Pow2(H) && Start(q, H) >= 0
    requires Under(s + Pow2(H), x) && Under(s + Pow2(H), q)
    ensures !FreeRun(live, H, Start(q, H), Height(q, H))
  {
    InBlockIff(s, q, H);
    assert Covered(live, H, s);
  }

  // The root's value tells exactly whether a run of 2^k slots is free.
  lemma RoomIff(live: set<nat>, H: nat, k: nat)
    requires Fits(live, H)
    ensures Canon(live, 1, H) >= Pow2(k) <==> exists o :: FreeRun(live, H, o, k)
  {
    CanonBound(live, 1, H);
    if Canon(live, 1, H) >= Pow2(k) {
      if k > H { Pow2Monotone(H, k); }
      PickRun(live, H, k);
    }
    if o :| FreeRun(live, H, o, k) {
      NodeAtBlock(H, o, k);
      var q := NodeAt(H, o, k);
      FreeRunIff(live, H, q);
      UnderRoot(q);
      CanonAtLeast(live, 1, H, q, k, H);
    }
  }

  // The descent ends at the free run with the least offset.
  lemma PickRun(live: set<nat>, H: nat, k: nat)
    requires Fits(live, H) && k <= H && Canon(live, 1, H) >= Pow2(k)
    ensures
      var q := Pick(live, 1, H, k);
      && q >= 1 && Depth(q) + k == H && Start(q, H) >= 0 && NoneUnder(live, q) && NoneAbove(live, q)
      && FreeRun(live, H, Start(q, H), k)
      && forall o :: FreeRun(live, H, o, k) ==> Start(q, H) <= o
  {
    var q := Pick(live, 1, H, k);
    PickFree(live, 1, H, k, H);
    forall x | x in live && x >= 1 ensures !Under(q, x) { UnderRoot(x); }
    FreeRunIff(live, H, q);
    hide Pick, Canon, Under, FreeRun;
    forall o | FreeRun(live, H, o, k) ensures Start(q, H) <= o { RunNotBefore(live, H, k, o); }
  }

  lemma RunNotBefore(live: set<nat>, H: nat, k: nat, o: nat)
    requires Fits(live, H) && k <= H && Canon(live, 1, H) >= Pow2(k) && FreeRun(live, H, o, k)
    ensures Pick(live, 1, H, k) >= 1 && Depth(Pick(live, 1, H, k)) + k == H
    ensures Start(Pick(live, 1, H, k), H) <= o
  {
    var q, q' := Pick(live, 1, H, k), NodeAt(H, o, k);
    PickFree(live, 1, H, k, H);
    NodeAtBlock(H, o, k);
    FreeRunIff(live, H, q');
    UnderRoot(q');
    PickLeast(live, 1, H, k, H, q');
    hide Pick, Canon, Under, FreeRun, Depth;
    if q < q' { Gap(q, q', Pow2(k)); }
  }

  // ---------------------------------------------------------------- effects on the live blocks

  lemma AddBlock(live: set<nat>, H: nat, q: nat)
    requires Fits(live, H) && Separate(live) && q >= 1 && Depth(q) <= H
    requires NoneUnder(live, q) && NoneAbove(live, q)
    ensures q !in live && Fits(live + {q}, H) && Separate(live + {q})
    ensures forall s: nat :: s < Pow2(H) ==> (Covered(live + {q}, H, s) <==> Covered(live, H, s) || InBlock(s, q, H))
  {
    assert Under(q, q);
    forall s: nat | s < Pow2(H) ensures Covered(live + {q}, H, s) <==> Covered(live, H, s) || InBlock(s, q, H) {
      InBlockIff(s, q, H);
    }
  }

  lemma RemoveBlock(live: set<nat>, H: nat, q: nat)
    requires Fits(live, H) && Separate(live) && q in live
    ensures q >= 1 && Fits(live - {q}, H) && Separate(live - {q})
    ensures forall s: nat :: s < Pow2(H) ==> (Covered(live - {q}, H, s) <==> Covered(live, H, s) && !InBlock(s, q, H))
  {
    forall s: nat | s < Pow2(H) ensures Covered(live - {q}, H, s) <==> Covered(live, H, s) && !InBlock(s, q, H) {
      InBlockIff(s, q, H);
      RemoveSlot(live, H, q, s);
    }
  }

  lemma RemoveSlot(live: set<nat>, H: nat, q: nat, s: nat)
    requires Separate(live) && q in live && q >= 1
    ensures Covered(live - {q}, H, s) <==> Covered(live, H, s) && !Under(s + Pow2(H), q)
  {
    var y := s + Pow2(H);
    if x :| x in live && x >= 1 && x != q && Under(y, x) {
      assert x in live - {q};
      if Under(y, q) { UnderChain(y, x, q); }
    }
  }

  // ---------------------------------------------------------------- the array

  // The whole array as a function of the live blocks.
  function Image(live: set<nat>, H: nat): seq<nat> {
    seq(2 * Pow2(H) - 1, i requires 0 <= i => Canon(live, i + 1, Height(i + 1, H)))
  }

  ghost predicate Right(s: seq<nat>, live: set<nat>, H: nat, q: nat)
    requires 1 <= q <= |s|
  {
    s[q - 1] == Canon(live, q, Height(q, H))
  }

  // Right everywhere but at the proper ancestors of `p`.
  ghost predicate RightButAbove(s: seq<nat>, live: set<nat>, H: nat, p: nat) {
    forall q :: 1 <= q <= |s| ==> (q != p && Under(p, q)) || Right(s, live, H, q)
  }

  lemma ImageRight(s: seq<nat>, live: set<nat>, H: nat)
    requires |s| == 2 * Pow2(H) - 1 && RightButAbove(s, live, H, 1)
    ensures s == Image(live, H)
  {
    forall i | 0 <= i < |s| ensures s[i] == Image(live, H)[i] { assert Right(s, live, H, i + 1); }
  }

  lemma InTree(q: nat, H: nat)
    requires 1 <= q < 2 * Pow2(H)
    ensures Depth(q) <= H
  {
    DepthRange(q);
    Pow2Order(Depth(q), H);
  }

  // Marking one node leaves the rest right, but for its proper ancestors.
  lemma MarkNode(s: seq<nat>, live: set<nat>, live': set<nat>, H: nat, p: nat)
    requires |s| == 2 * Pow2(H) - 1 && s == Image(live, H) && 1 <= p <= |s|
    requires live' == live + {p} || live' == live - {p}
    ensures RightButAbove(s[p - 1 := Canon(live', p, Height(p, H))], live', H, p)
  {
    var s' := s[p - 1 := Canon(live', p, Height(p, H))];
    forall q | 1 <= q <= |s| && !(q != p && Under(p, q)) ensures Right(s', live', H, q) {
      if q != p {
        CanonFrame(live, live', q, Height(q, H));
        assert s'[q - 1] == Image(live, H)[q - 1];
      }
    }
  }

  // Both children of the parent are right.
  lemma Siblings(s: seq<nat>, live: set<nat>, H: nat, p: nat)
    requires |s| == 2 * Pow2(H) - 1 && 2 <= p <= |s| && RightButAbove(s, live, H, p) && p / 2 !in live
    ensures
      var u := p / 2;
      && 1 <= u && 2 * u + 1 <= |s| && Depth(u) + Height(u, H) == H && Height(u, H) > 0 && Under(p, u)
      && Canon(live, u, Height(u, H)) == Join(s[2 * u - 1], s[2 * u], Size(u, H))
  {
    var u := p / 2;
    InTree(p, H);
    ChildDepth(u);
    assert p == 2 * u || p == 2 * u + 1;
    assert 2 * u + 1 <= |s|;
    UnderDepthOff(p, 2 * u);
    UnderDepthOff(p, 2 * u + 1);
    assert Right(s, live, H, 2 * u) && Right(s, live, H, 2 * u + 1);
  }

  // One step up: the parent's value out of its children's.
  lemma ClimbStep(s: seq<nat>, live: set<nat>, H: nat, p: nat)
    requires |s| == 2 * Pow2(H) - 1 && 2 <= p <= |s| && RightButAbove(s, live, H, p) && p / 2 !in live
    ensures
      var u := p / 2;
      && 1 <= u && 2 * u + 1 <= |s|
      && RightButAbove(s[u - 1 := Join(s[2 * u - 1], s[2 * u], Size(u, H))], live, H, u)
  {
    Siblings(s, live, H, p);
    hide Canon, Join, Depth;
    OthersStay(s, live, H, p, Canon(live, p / 2, Height(p / 2, H)));
  }

  lemma UnderDepthOff(p: nat, q: nat)
    requires p >= 1 && q >= 1 && Depth(p) == Depth(q)
    ensures Under(p, q) ==> p == q
  {
    if Under(p, q) { UnderDepth(p, q); }
  }

  lemma OthersStay(s: seq<nat>, live: set<nat>, H: nat, p: nat, v: nat)
    requires 2 <= p <= |s| && RightButAbove(s, live, H, p) && v == Canon(live, p / 2, Height(p / 2, H))
    ensures RightButAbove(s[p / 2 - 1 := v], live, H, p / 2)
  {
    var u := p / 2;
    var s' := s[u - 1 := v];
    forall q | 1 <= q <= |s'| && !(q != u && Under(u, q)) ensures Right(s', live, H, q) {
      if q != u {
        assert !(q != p && Under(p, q));
        assert Right(s, live, H, q);
      }
    }
  }

  // Above a live block no two halves add up to a whole, so the larger one is the value.
  lemma NoMergeAbove(s: seq<nat>, live: set<nat>, H: nat, p: nat, q: nat)
    requires |s| == 2 * Pow2(H) - 1 && 2 <= p <= |s| && RightButAbove(s, live, H, p) && p / 2 !in live
    requires Fits(live, H) && q in live && q >= 1 && Under(q, p)
    ensures
      var u := p / 2;
      && 1 <= u && 2 * u + 1 <= |s| && Under(q, u)
      && s[2 * u - 1] + s[2 * u] != Size(u, H)
  {
    var u := p / 2;
    Siblings(s, live, H, p);
    UnderTrans(q, p, u);
    CanonFull(live, u, Height(u, H), H);
  }

  // ---------------------------------------------------------------- climbing to find a block

  // No live block between leaf and `p`, so a zero there can only be the live block itself.
  lemma ZeroIsLive(live: set<nat>, H: nat, leaf: nat, p: nat)
    requires Fits(live, H) && Separate(live) && leaf >= 1 && p >= 1 && Depth(leaf) == H && Under(leaf, p)
    requires forall x :: x in live && x >= 1 && Under(leaf, x) ==> Under(p, x)
    ensures Canon(live, p, Height(p, H)) == 0 <==> p in live
  {
    UnderDepth(leaf, p);
    if p !in live {
      if x :| x in live && x >= 1 && Under(leaf, x) {
        forall y | y in live ensures !Under(y, p) {
          if y >= 1 && Under(y, p) {
            UnderTrans(y, p, x);
            assert Under(x, x);
            assert y == x;
            UnderDepth(x, p);
            UnderDepth(p, x);
          }
        }
        CanonFull(live, p, Height(p, H), H);
      } else {
        forall y | y in live ensures !Under(y, leaf) {
          if Under(y, leaf) { UnderDepth(y, leaf); }
        }
        CanonAtLeast(live, p, Height(p, H), leaf, 0, H);
      }
    }
  }

  // At most one live block holds a slot.
  lemma OneBlock(live: set<nat>, leaf: nat, x: nat, y: nat)
    requires Separate(live) && x in live && y in live && x >= 1 && y >= 1 && Under(leaf, x) && Under(leaf, y)
    ensures x == y
  {
    UnderChain(leaf, x, y);
  }
}
