/**
 What the allocator's tree array should hold, as a function of the live blocks alone.  Nodes are
 numbered from 1 in breadth-first order, so node p has the children 2p and 2p + 1; a tree of
 height H has 2^H leaves, the slots.
 */
module BuddyTree {
  import opened Arithmetic
  import opened BuddyUtil

  function Depth(p: nat): nat
    requires p >= 1
  {
    if p == 1 then 0 else 1 + Depth(p / 2)
  }

  // `q` is `p` or one of its descendants.
  predicate Under(q: nat, p: nat)
    requires p >= 1
    decreases q
  {
    q == p || (q > p && Under(q / 2, p))
  }

  ghost predicate Fits(live: set<nat>, H: nat) {
    forall x :: x in live ==> x >= 1 && Depth(x) <= H
  }

  // No live block lies inside another.
  ghost predicate Separate(live: set<nat>) {
    forall x, y :: x in live && y in live && y >= 1 && Under(x, y) ==> x == y
  }

  function Join(l: nat, r: nat, size: nat): nat {
    if l + r == size then size else if l < r then r else l
  }

  // The largest free run below `p`, as the array records it: nothing at a live node, everything
  // below one.
  function Canon(live: set<nat>, p: nat, h: nat): nat
    decreases h
  {
    if p in live then 0
    else if h == 0 then 1
    else Join(Canon(live, 2 * p, h - 1), Canon(live, 2 * p + 1, h - 1), Pow2(h))
  }

  // ---------------------------------------------------------------- the shape of the tree

  lemma {:induction false} UnderChild(q: nat, p: nat)
    requires p >= 1
    ensures Under(q, p) <==> q == p || Under(q, 2 * p) || Under(q, 2 * p + 1)
    ensures !(Under(q, 2 * p) && Under(q, 2 * p + 1))
    ensures Under(q, 2 * p) || Under(q, 2 * p + 1) ==> q > p
    decreases q
  {
    if q > p { UnderChild(q / 2, p); }
  }

  lemma {:induction false} UnderTrans(r: nat, q: nat, p: nat)
    requires p >= 1 && q >= 1 && Under(r, q) && Under(q, p)
    ensures Under(r, p)
    decreases r
  {
    if r != q { UnderTrans(r / 2, q, p); }
  }

  // Two ancestors of one node are in line.
  lemma {:induction false} UnderChain(r: nat, q: nat, p: nat)
    requires p >= 1 && q >= 1 && Under(r, q) && Under(r, p)
    ensures Under(q, p) || Under(p, q)
    decreases r
  {
    if r != q && r != p { UnderChain(r / 2, q, p); }
  }

  lemma {:induction false} UnderDepth(q: nat, p: nat)
    requires p >= 1 && Under(q, p)
    ensures q >= p && Depth(q) >= Depth(p) && (Depth(q) == Depth(p) <==> q == p)
    decreases q
  {
    if q != p { UnderDepth(q / 2, p); }
  }

  lemma ChildDepth(p: nat)
    requires p >= 1
    ensures Depth(2 * p) == Depth(p) + 1 && Depth(2 * p + 1) == Depth(p) + 1
  {
  }

  lemma {:induction false} UnderRoot(q: nat)
    requires q >= 1
    ensures Under(q, 1)
    decreases q
  {
    if q > 1 { UnderRoot(q / 2); }
  }

  lemma {:induction false} DepthRange(p: nat)
    requires p >= 1
    ensures Pow2(Depth(p)) <= p < 2 * Pow2(Depth(p))
  {
    if p > 1 { DepthRange(p / 2); }
  }

  lemma DepthUnique(p: nat, d: nat)
    requires p >= 1 && Pow2(d) <= p < 2 * Pow2(d)
    ensures Depth(p) == d
  {
    DepthRange(p);
    if d < Depth(p) { Pow2Monotone(d, Depth(p)); } else if Depth(p) < d { Pow2Monotone(Depth(p), d); }
  }

  // The slots below a node are an interval of its size.
  lemma {:induction false} UnderInterval(y: nat, q: nat, h: nat)
    requires q >= 1 && y >= 1 && Depth(y) == Depth(q) + h
    ensures Under(y, q) <==> q * Pow2(h) <= y < q * Pow2(h) + Pow2(h)
    decreases h
  {
    if h == 0 {
      if Under(y, q) { UnderDepth(y, q); }
    } else {
      UnderInterval(y / 2, q, h - 1);
      assert q * Pow2(h) == 2 * (q * Pow2(h - 1));
      assert q * Pow2(h - 1) >= q by { Grows(Pow2(h - 1), q); }
    }
  }

  // ---------------------------------------------------------------- the canonical array

  ghost predicate SameUnder(live: set<nat>, live': set<nat>, p: nat)
    requires p >= 1
  {
    forall q :: Under(q, p) ==> (q in live <==> q in live')
  }

  // The value at a node depends on the live blocks below it alone.
  lemma {:induction false} CanonFrame(live: set<nat>, live': set<nat>, p: nat, h: nat)
    requires p >= 1 && SameUnder(live, live', p)
    ensures Canon(live, p, h) == Canon(live', p, h)
    decreases h
  {
    assert Under(p, p);
    if h > 0 {
      forall q ensures Under(q, 2 * p) || Under(q, 2 * p + 1) ==> Under(q, p) { UnderChild(q, p); }
      CanonFrame(live, live', 2 * p, h - 1);
      CanonFrame(live, live', 2 * p + 1, h - 1);
    }
  }

  ghost predicate NoneUnder(live: set<nat>, p: nat)
    requires p >= 1
  {
    forall x :: x in live ==> !Under(x, p)
  }

  ghost predicate NoneAbove(live: set<nat>, p: nat) {
    forall x :: x in live && x >= 1 ==> !Under(p, x)
  }

  lemma {:induction false} CanonBound(live: set<nat>, p: nat, h: nat)
    ensures Canon(live, p, h) <= Pow2(h)
    decreases h
  {
    if h > 0 {
      CanonBound(live, 2 * p, h - 1);
      CanonBound(live, 2 * p + 1, h - 1);
    }
  }

  lemma NoneUnderChildren(live: set<nat>, p: nat)
    requires p >= 1
    ensures NoneUnder(live, p) <==> p !in live && NoneUnder(live, 2 * p) && NoneUnder(live, 2 * p + 1)
  {
    assert Under(p, p);
    forall x ensures Under(x, p) <==> x == p || Under(x, 2 * p) || Under(x, 2 * p + 1) { UnderChild(x, p); }
  }

  // A node is recorded as full exactly when nothing below it is live.
  lemma {:induction false} CanonFull(live: set<nat>, p: nat, h: nat, H: nat)
    requires p >= 1 && Depth(p) + h == H && Fits(live, H)
    ensures Canon(live, p, h) == Pow2(h) <==> NoneUnder(live, p)
    decreases h
  {
    if h == 0 {
      forall x | x in live && Under(x, p) ensures x == p { UnderDepth(x, p); }
      assert Under(p, p);
    } else {
      ChildDepth(p);
      NoneUnderChildren(live, p);
      CanonFull(live, 2 * p, h - 1, H);
      CanonFull(live, 2 * p + 1, h - 1, H);
      CanonBound(live, 2 * p, h - 1);
      CanonBound(live, 2 * p + 1, h - 1);
    }
    hide NoneUnder, Fits, Under, Depth;
  }

  // A node with nothing live below or above it shows in every ancestor's value.
  lemma {:induction false} CanonAtLeast(live: set<nat>, p: nat, h: nat, q: nat, k: nat, H: nat)
    requires p >= 1 && q >= 1 && Depth(p) + h == H && Depth(q) + k == H && Fits(live, H)
    requires Under(q, p) && NoneUnder(live, q) && NoneAbove(live, q)
    ensures Canon(live, p, h) >= Pow2(k)
    decreases h
  {
    UnderDepth(q, p);
    if q == p {
      CanonFull(live, p, h, H);
    } else {
      UnderChild(q, p);
      ChildDepth(p);
      assert p !in live;
      CanonBound(live, 2 * p, h - 1);
      CanonBound(live, 2 * p + 1, h - 1);
      hide NoneUnder, NoneAbove, Fits;
      if Under(q, 2 * p) {
        CanonAtLeast(live, 2 * p, h - 1, q, k, H);
      } else {
        CanonAtLeast(live, 2 * p + 1, h - 1, q, k, H);
      }
    }
  }

  // ---------------------------------------------------------------- where an allocation goes

  // The node at height `k` that the descent reaches: left whenever the left side has room.
  function Pick(live: set<nat>, p: nat, h: nat, k: nat): nat
    requires k <= h
    decreases h
  {
    if h == k then p
    else if Canon(live, 2 * p, h - 1) >= Pow2(k) then Pick(live, 2 * p, h - 1, k)
    else Pick(live, 2 * p + 1, h - 1, k)
  }

  // No live node between `q` and `p`.
  ghost predicate PathFree(live: set<nat>, q: nat, p: nat)
    requires p >= 1
  {
    forall x :: x in live && x >= 1 && Under(q, x) ==> !Under(x, p)
  }

  lemma {:induction false} PickFree(live: set<nat>, p: nat, h: nat, k: nat, H: nat)
    requires p >= 1 && k <= h && Depth(p) + h == H && Fits(live, H) && Canon(live, p, h) >= Pow2(k)
    ensures
      var q := Pick(live, p, h, k);
      q >= 1 && Under(q, p) && Depth(q) + k == H && NoneUnder(live, q) && PathFree(live, q, p)
    decreases h
  {
    var q := Pick(live, p, h, k);
    if h == k {
      CanonBound(live, p, h);
      CanonFull(live, p, h, H);
      assert Under(p, p);
    } else {
      ChildDepth(p);
      hide NoneUnder, PathFree, Fits;
      var c := if Canon(live, 2 * p, h - 1) >= Pow2(k) then 2 * p else 2 * p + 1;
      ChildRoom(live, p, h, k);
      PickFree(live, c, h - 1, k, H);
      PathUp(live, q, c, p);
    }
  }

  // A node with room has a child with room, unless it is exactly as large as what is wanted.
  lemma ChildRoom(live: set<nat>, p: nat, h: nat, k: nat)
    requires k < h && Canon(live, p, h) >= Pow2(k)
    ensures p !in live
    ensures Canon(live, 2 * p, h - 1) >= Pow2(k) || Canon(live, 2 * p + 1, h - 1) >= Pow2(k)
  {
    Pow2Monotone(k, h - 1);
    CanonBound(live, 2 * p, h - 1);
    CanonBound(live, 2 * p + 1, h - 1);
  }

  lemma PathUp(live: set<nat>, q: nat, c: nat, p: nat)
    requires p >= 1 && (c == 2 * p || c == 2 * p + 1) && p !in live
    requires Under(q, c) && PathFree(live, q, c)
    ensures Under(q, p) && PathFree(live, q, p)
  {
    UnderChild(q, p);
    forall x | x in live && x >= 1 && Under(q, x) ensures !Under(x, p) {
      if Under(x, p) {
        UnderChild(x, p);
        UnderChain(q, x, c);
        if Under(c, x) {
          UnderDepth(c, x);
          assert Under(c, p);
          UnderDepth(x, p);
          ChildDepth(p);
        }
      }
    }
  }

  // It is the leftmost free node of its height.
  lemma {:induction false} PickLeast(live: set<nat>, p: nat, h: nat, k: nat, H: nat, q': nat)
    requires p >= 1 && k <= h && Depth(p) + h == H && Fits(live, H) && Canon(live, p, h) >= Pow2(k)
    requires q' >= 1 && Under(q', p) && Depth(q') + k == H && NoneUnder(live, q') && NoneAbove(live, q')
    ensures Pick(live, p, h, k) <= q'
    decreases h
  {
    hide NoneUnder, NoneAbove, Fits, Canon, Under, Depth, Pow2, Pick;
    if h == k {
      UnderDepth(q', p);
      PickHere(live, p, h);
    } else {
      PickStep(live, p, h, k);
      ChildDepth(p);
      ChildRoom(live, p, h, k);
      UnderChild(q', p);
      if Under(q', 2 * p) {
        CanonAtLeast(live, 2 * p, h - 1, q', k, H);
        PickLeast(live, 2 * p, h - 1, k, H, q');
      } else if Canon(live, 2 * p, h - 1) < Pow2(k) {
        PickLeast(live, 2 * p + 1, h - 1, k, H, q');
      } else {
        PickFree(live, 2 * p, h - 1, k, H);
        LeftOf(Pick(live, p, h, k), q', p, h - 1 - k);
      }
    }
  }

  lemma PickHere(live: set<nat>, p: nat, h: nat)
    ensures Pick(live, p, h, h) == p
  {
  }

  lemma PickStep(live: set<nat>, p: nat, h: nat, k: nat)
    requires k < h
    ensures Pick(live, p, h, k)
      == if Canon(live, 2 * p, h - 1) >= Pow2(k) then Pick(live, 2 * p, h - 1, k) else Pick(live, 2 * p + 1, h - 1, k)
  {
  }

  // At one depth, everything below the left child comes before everything below the right one.
  lemma LeftOf(q: nat, q': nat, p: nat, g: nat)
    requires p >= 1 && q >= 1 && q' >= 1 && Under(q, 2 * p) && Under(q', 2 * p + 1)
    requires Depth(q) == Depth(q') == Depth(2 * p) + g == Depth(2 * p + 1) + g
    ensures q <= q'
  {
    UnderInterval(q, 2 * p, g);
    UnderInterval(q', 2 * p + 1, g);
    assert (2 * p + 1) * Pow2(g) == 2 * p * Pow2(g) + Pow2(g);
  }
}
