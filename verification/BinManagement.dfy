/**
 The bin manager: an array that records, for every node of an implicit binary tree, the largest
 run of free slots below it.
 */
module BinManagement {
  import opened Arithmetic
  import opened BuddyBlocks
  import opened BuddyTree
  import opened BuddyUtil
  import opened Options

  const NOFFSET: nat := TWO64 - 1

  function Parent(i: nat): nat
    requires i > 0
  {
    (i + 1) / 2 - 1
  }

  function LeftChild(i: nat): nat { (i + 1) * 2 - 1 }

  function RightChild(i: nat): nat { (i + 1) * 2 }

  // The exponent of the power of two that a request is rounded up to.
  function Exponent(required: nat): (k: nat)
    requires required > 0
    ensures required <= Pow2(k) && (k > 0 ==> Pow2(k - 1) < required)
  {
    Width(required - 1)
  }

  ghost predicate HasRun(live: set<nat>, H: nat, k: nat) { exists o :: FreeRun(live, H, o, k) }

  // The free run of 2^k slots with the least offset.
  ghost predicate FirstFit(live: set<nat>, H: nat, k: nat, o: nat) {
    FreeRun(live, H, o, k) && forall o' :: FreeRun(live, H, o', k) ==> o <= o'
  }

  // A request whose rounding is exact, or is refused at the root, whose value is `root`.
  ghost predicate Servable(required: nat, root: nat) {
    required == 0 || (required <= TWO63 && NoLongGap(required - 1)) || root < Rounded(required)
  }

  // The live blocks that hold a slot.
  ghost function Covering(live: set<nat>, H: nat, offset: nat): set<nat> {
    set x | x in live && x >= 1 && InBlock(offset, x, H)
  }

  class BinManager {
    const total: nat
    const slots: array<nat>
    ghost var live: set<nat>
    ghost const H: nat

    ghost predicate Valid()
      reads this, slots
    {
      && total == Pow2(H) && total < TWO63 && slots.Length == 2 * total - 1
      && Fits(live, H) && Separate(live)
      && slots[..] == Image(live, H)
    }

    constructor (slotCount: nat)
      requires IsPowerOf2(slotCount) && slotCount < TWO63
      ensures Valid() && fresh(slots) && total == slotCount && live == {}
    {
      IsPowerOf2Iff(slotCount);
      ghost var k: nat :| slotCount == Pow2(k);
      H := k;
      total := slotCount;
      live := {};
      slots := new nat[2 * slotCount - 1];
      new;
      var size, i := 2 * slotCount, 0;
      while i < slots.Length
        invariant 0 <= i <= slots.Length && live == {}
        invariant size == if i == 0 then 2 * slotCount else Size(i, H)
        invariant forall j :: 0 <= j < i ==> slots[j] == Image({}, H)[j]
      {
        NewLevel(i + 1, H);
        if IsPowerOf2(i + 1) { size := size / 2; }
        slots[i] := size;
        i := i + 1;
      }
    }

    // The node for a run of exactly `needed` slots.  No node has a size that is no power of two, and
    // the descent in search of one reads past the leaves.
    method Descend(needed: nat, ghost k: nat) returns (index: nat, overrun: bool)
      requires Valid() && (needed == Pow2(k) || forall j: nat :: needed != Pow2(j))
      requires needed == Pow2(k) ==> k <= H && Canon(live, 1, H) >= needed
      ensures overrun <==> needed != Pow2(k)
      ensures !overrun ==> index < slots.Length && index + 1 == Pick(live, 1, H, k)
    {
      hide Canon, Pick, Pow2, Depth, Image;
      index := 0;
      var nodeSlots := total;
      ghost var h := H;
      AtRoot(H);
      while nodeSlots != needed
        invariant nodeSlots == Pow2(h) && index < slots.Length && AtHeight(index + 1, h, H)
        invariant needed == Pow2(k) ==> k <= h && Reached(live, H, k, index + 1, h)
        decreases h
      {
        if needed == Pow2(k) { DescendStep(live, H, k, index + 1, h); }
        ChildrenInside(index + 1, h, H);
        if LeftChild(index) >= slots.Length { return index, true; }
        if slots[LeftChild(index)] >= needed {
          index := LeftChild(index);
        } else {
          index := RightChild(index);
        }
        nodeSlots := nodeSlots / 2;
        h := h - 1;
      }
      if needed == Pow2(k) {
        Pow2Order(h, k);
        PickHere(live, index + 1, h);
      }
      overrun := false;
    }

    // Every ancestor of a node just taken: the larger of its children.
    method RaiseTaken(start: nat, ghost q: nat)
      requires start < slots.Length && q == start + 1 && q in live && Fits(live, H) && Separate(live)
      requires total == Pow2(H) && total < TWO63 && slots.Length == 2 * total - 1
      requires RightButAbove(slots[..], live, H, q)
      modifies slots
      ensures Valid()
    {
      hide RightButAbove, Under, Image, Fits, Separate;
      var index: nat := start;
      AtItself(q);
      while index > 0
        invariant index < slots.Length && Under(q, index + 1)
        invariant RightButAbove(slots[..], live, H, index + 1)
      {
        ghost var s := slots[..];
        RaiseStep(s, live, H, index + 1, q);
        index := Parent(index);
        slots[index] := if slots[LeftChild(index)] < slots[RightChild(index)]
        then slots[RightChild(index)] else slots[LeftChild(index)];
        assert slots[..] == s[index := Larger(s[2 * index + 1], s[2 * index + 2])];
      }
      ImageRight(slots[..], live, H);
    }

    // Allocation fails exactly when no aligned run of the rounded size is free; otherwise it takes
    // the first one.  It overruns exactly when the rounding is not exact and the root lets it pass.
    method Allocate(required: nat) returns (offset: nat, overrun: bool)
      requires Valid() && required < TWO64
      modifies this, slots
      ensures Valid()
      ensures slots.Length > 0 && (overrun <==> !Servable(required, old(slots[0])))
      ensures overrun ==> live == old(live)
      ensures !overrun && (required == 0 || !HasRun(old(live), H, Exponent(required))) ==>
        offset == NOFFSET && live == old(live)
      ensures !overrun && required > 0 && HasRun(old(live), H, Exponent(required)) ==>
        && FirstFit(old(live), H, Exponent(required), offset) && offset < total
        && live == old(live) + {NodeAt(H, offset, Exponent(required))}
    {
      if required == 0 { return NOFFSET, false; }
      hide Canon, Pick, Pow2, Depth, Image, FirstFit, HasRun, FreeRun, Separate, Fits, Rounded, Exponent, NodeAt;
      hide NoLongGap;
      var needed := NearestUpperPowerOf2(required);
      AllocateGuard(live, H, required);
      RootValue(live, H);
      if slots[0] < needed { return NOFFSET, false; }
      offset, overrun := Take(needed, Exponent(required));
    }

    method Take(needed: nat, ghost k: nat) returns (offset: nat, overrun: bool)
      requires Valid() && (needed == Pow2(k) || forall j: nat :: needed != Pow2(j))
      requires needed == Pow2(k) ==> k <= H && Canon(live, 1, H) >= needed
      modifies this, slots
      ensures Valid() && (overrun <==> needed != Pow2(k))
      ensures overrun ==> live == old(live)
      ensures !overrun ==> FirstFit(old(live), H, k, offset) && offset < total
      ensures !overrun ==> live == old(live) + {NodeAt(H, offset, k)}
    {
      hide Canon, Pick, Pow2, Depth, Image, FirstFit, FreeRun, Separate, Fits, RightButAbove, NodeAt;
      var index;
      index, overrun := Descend(needed, k);
      if overrun { return 0, true; }
      TakePick(live, H, k);
      offset := (index + 1) * needed - total;
      slots[index] := 0;
      live := live + {index + 1};
      RaiseTaken(index, index + 1);
    }

    // From the slot's leaf up to the first node recorded as zero; none when the root is not zero.
    method FindTaken(offset: nat) returns (index: nat, size: nat, found: bool)
      requires Valid() && offset < total
      ensures found ==> index < slots.Length && index + 1 in live && size == Size(index + 1, H)
      ensures Covering(live, H, offset) == if found then {index + 1} else {}
    {
      hide Image, Fits, Separate, Size, Covering, Climbing;
      size := 1;
      index := offset + total - 1;
      AtLeaf(live, H, offset);
      while slots[index] != 0
        decreases index
        invariant index < slots.Length && size == Size(index + 1, H) && Climbing(live, H, offset, index + 1)
      {
        ClimbOn(live, H, offset, index + 1);
        if index == 0 {
          found := false;
          return;
        }
        size := size * 2;
        index := Parent(index);
      }
      ClimbedTo(live, H, offset, index + 1);
      found := true;
    }

    // Every ancestor of a node just released: merged when both halves are whole.
    method RaiseFreed(start: nat, startSize: nat)
      requires start < slots.Length && startSize == Size(start + 1, H) && NoneAbove(live, start + 1)
      requires total == Pow2(H) && total < TWO63 && slots.Length == 2 * total - 1 && Fits(live, H) && Separate(live)
      requires RightButAbove(slots[..], live, H, start + 1)
      modifies slots
      ensures Valid()
    {
      hide RightButAbove, Under, Image, Fits, Separate, NoneAbove, Size;
      var index: nat, size := start, startSize;
      while index != 0
        invariant index < slots.Length && size == Size(index + 1, H) && NoneAbove(live, index + 1)
        invariant RightButAbove(slots[..], live, H, index + 1)
      {
        ghost var s := slots[..];
        MergeStep(s, live, H, index + 1);
        index := Parent(index);
        size := size * 2;
        var left, right := slots[LeftChild(index)], slots[RightChild(index)];
        if left + right == size {
          slots[index] := size;
        } else {
          slots[index] := if left < right then right else left;
        }
        assert slots[..] == s[index := Join(s[2 * index + 1], s[2 * index + 2], size)];
      }
      ImageRight(slots[..], live, H);
    }

    // Freeing releases exactly the live block that holds the offset, if there is one.
    method Free(offset: nat)
      requires Valid()
      modifies this, slots
      ensures Valid()
      ensures live == if offset < total then old(live) - Covering(old(live), H, offset) else old(live)
    {
      if offset >= total { return; }
      var index, size, found := FindTaken(offset);
      if !found { return; }
      hide Covering, Image, Fits, Separate, Size, NoneAbove, RightButAbove;
      ReleaseNode(live, H, index + 1);
      slots[index] := size;
      live := live - {index + 1};
      RaiseFreed(index, size);
    }

    // The slot count of the live block that holds the offset; outside one the walk would leave the
    // tree at its root.
    method SlotCountFor(offset: nat) returns (count: nat)
      requires Valid() && (offset < total ==> Covering(live, H, offset) != {})
      ensures offset >= total ==> count == 0
      ensures offset < total ==> forall x :: x in Covering(live, H, offset) ==> count == Size(x, H)
    {
      hide Image, Fits, Separate, Size, Covering, Climbing, Pow2;
      if offset >= total { return 0; }
      count := 1;
      var i: nat := offset + total - 1;
      AtLeaf(live, H, offset);
      while slots[i] != 0
        decreases i
        invariant i < slots.Length && count == Size(i + 1, H) && Climbing(live, H, offset, i + 1)
      {
        ClimbOn(live, H, offset, i + 1);
        count := count * 2;
        i := Parent(i);
      }
      ClimbedTo(live, H, offset, i + 1);
    }
  }

  // The constructor raises unless the slot count is a power of two.
  method Create(slotCount: nat) returns (r: Option<BinManager>)
    requires slotCount < TWO63
    ensures r.Some? <==> IsPowerOf2(slotCount)
    ensures r.Some? ==>
      var m := r.value; m.Valid() && fresh(m) && fresh(m.slots) && m.total == slotCount && m.live == {}
  {
    if !IsPowerOf2(slotCount) { return None; }
    var m := new BinManager(slotCount);
    r := Some(m);
  }

  // ---------------------------------------------------------------- helpers

  lemma EmptyImage(p: nat, H: nat)
    requires 1 <= p <= 2 * Pow2(H) - 1
    ensures Image({}, H)[p - 1] == Size(p, H)
  {
    InTree(p, H);
    CanonFull({}, p, Height(p, H), H);
  }

  lemma NewLevel(p: nat, H: nat)
    requires 1 <= p <= 2 * Pow2(H) - 1
    ensures p == 1 ==> Size(p, H) == Pow2(H) && IsPowerOf2(p)
    ensures p > 1 ==> Size(p, H) == (if IsPowerOf2(p) then Size(p - 1, H) / 2 else Size(p - 1, H))
    ensures Image({}, H)[p - 1] == Size(p, H)
  {
    hide Image, Canon, IsPowerOf2;
    EmptyImage(p, H);
    InTree(p, H);
    IsPowerOf2Iff(p);
    if p == 1 {
      assert p == Pow2(0);
    } else {
      InTree(p - 1, H);
      LevelStep(p);
      hide Depth;
    }
  }

  lemma LevelStep(p: nat)
    requires p > 1
    ensures Depth(p) == Depth(p - 1) + if exists k: nat :: p == Pow2(k) then 1 else 0
  {
    DepthRange(p);
    if k: nat :| p == Pow2(k) {
      assert k > 0;
      DepthUnique(p, k);
      DepthUnique(p - 1, k - 1);
    } else {
      DepthUnique(p - 1, Depth(p));
    }
  }

  // The children of an inner node, as the array holds them.
  lemma Inner(p: nat, h: nat, H: nat)
    requires p >= 1 && Depth(p) + h == H && h > 0
    ensures 2 * p + 1 < 2 * Pow2(H)
    ensures Depth(2 * p) + h - 1 == H && Depth(2 * p + 1) + h - 1 == H
    ensures forall live :: Image(live, H)[2 * p - 1] == Canon(live, 2 * p, h - 1)
  {
    DepthRange(2 * p + 1);
    Pow2Monotone(Depth(2 * p + 1), H);
    ChildDepth(p);
  }

  // The descent is at a node with room, on the way to the picked one.
  ghost predicate Reached(live: set<nat>, H: nat, k: nat, p: nat, h: nat)
    requires k <= h
  {
    p >= 1 && Depth(p) + h == H && Canon(live, p, h) >= Pow2(k) && k <= H && Pick(live, p, h, k) == Pick(live, 1, H, k)
  }

  ghost predicate AtHeight(p: nat, h: nat, H: nat) { p >= 1 && Depth(p) + h == H }

  lemma AtRoot(H: nat)
    ensures Depth(1) == 0 && 2 * Pow2(H) > 1 && AtHeight(1, H, H)
  {
  }

  // An inner node has both children in the array, a leaf none.
  lemma ChildrenInside(p: nat, h: nat, H: nat)
    requires AtHeight(p, h, H)
    ensures h == 0 ==> 2 * p >= 2 * Pow2(H)
    ensures h > 0 ==> 2 * p + 1 < 2 * Pow2(H) && AtHeight(2 * p, h - 1, H) && AtHeight(2 * p + 1, h - 1, H)
    ensures h > 0 ==> Pow2(h) / 2 == Pow2(h - 1)
  {
    DepthRange(p);
    if h > 0 { Inner(p, h, H); }
  }

  lemma DescendStep(live: set<nat>, H: nat, k: nat, p: nat, h: nat)
    requires k <= h && Pow2(h) != Pow2(k) && Reached(live, H, k, p, h)
    ensures k < h && Pow2(h) / 2 == Pow2(h - 1) && 2 * p + 1 < 2 * Pow2(H)
    ensures Image(live, H)[2 * p - 1] >= Pow2(k) ==> Reached(live, H, k, 2 * p, h - 1)
    ensures Image(live, H)[2 * p - 1] < Pow2(k) ==> Reached(live, H, k, 2 * p + 1, h - 1)
  {
    hide Canon, Pick, Depth;
    Inner(p, h, H);
    ChildRoom(live, p, h, k);
    PickStep(live, p, h, k);
  }

  lemma RootValue(live: set<nat>, H: nat)
    ensures |Image(live, H)| > 0 && Image(live, H)[0] == Canon(live, 1, H)
  {
  }

  // Taking the picked node: what it means for the live blocks and the array.
  lemma TakePick(live: set<nat>, H: nat, k: nat)
    requires Fits(live, H) && Separate(live) && k <= H && Canon(live, 1, H) >= Pow2(k)
    ensures
      var q := Pick(live, 1, H, k);
      && 1 <= q <= |Image(live, H)| && 0 <= q * Pow2(k) - Pow2(H) < Pow2(H)
      && FirstFit(live, H, k, q * Pow2(k) - Pow2(H)) && NodeAt(H, q * Pow2(k) - Pow2(H), k) == q
      && Fits(live + {q}, H) && Separate(live + {q})
      && RightButAbove(Image(live, H)[q - 1 := 0], live + {q}, H, q)
  {
    hide Canon, Pick, Depth, FreeRun, Fits, Separate, Image, RightButAbove, NoneUnder, NoneAbove, Start, NodeAt;
    var q := Pick(live, 1, H, k);
    PickRun(live, H, k);
    StartOf(q, k, H);
    BlockOf(q, H);
    AddBlock(live, H, q);
    NodeOfStart(q, k, H);
    InImage(live, q, H);
    CanonLive(live + {q}, q, k);
    MarkNode(Image(live, H), live, live + {q}, H, q);
  }

  lemma InImage(live: set<nat>, q: nat, H: nat)
    requires q >= 1 && Depth(q) <= H
    ensures |Image(live, H)| == 2 * Pow2(H) - 1 && q <= |Image(live, H)|
  {
    DepthRange(q);
    Pow2Monotone(Depth(q), H);
  }

  lemma CanonLive(live: set<nat>, q: nat, h: nat)
    requires q in live
    ensures Canon(live, q, h) == 0
  {
  }

  lemma NotLiveAbove(live: set<nat>, q: nat, p: nat)
    requires Separate(live) && q in live && q >= 1 && p >= 2 && Under(q, p)
    ensures p / 2 !in live
  {
    UnderChild(p, p / 2);
    UnderTrans(q, p, p / 2);
    UnderDepth(q, p);
  }

  function Larger(l: nat, r: nat): nat { if l < r then r else l }

  lemma AtItself(q: nat)
    requires q >= 1
    ensures Under(q, q)
  {
  }

  // One step up from a live block: the parent's value is the larger of its children's.
  lemma RaiseStep(s: seq<nat>, live: set<nat>, H: nat, p: nat, q: nat)
    requires |s| == 2 * Pow2(H) - 1 && 2 <= p <= |s| && RightButAbove(s, live, H, p)
    requires Fits(live, H) && Separate(live) && q in live && q >= 1 && Under(q, p)
    ensures
      var u := p / 2;
      && 1 <= u && 2 * u + 1 <= |s| && Under(q, u)
      && RightButAbove(s[u - 1 := Larger(s[2 * u - 1], s[2 * u])], live, H, u)
  {
    hide RightButAbove, Under, Fits, Separate;
    NotLiveAbove(live, q, p);
    ClimbStep(s, live, H, p);
    NoMergeAbove(s, live, H, p, q);
  }

  // On the way up from a slot's leaf: nothing live was passed.
  ghost predicate Climbing(live: set<nat>, H: nat, s: nat, p: nat) {
    && p >= 1 && s < Pow2(H) && Under(s + Pow2(H), p)
    && forall x :: x in live && x >= 1 && Under(s + Pow2(H), x) ==> Under(p, x)
  }

  lemma AtLeaf(live: set<nat>, H: nat, s: nat)
    requires s < Pow2(H)
    ensures Climbing(live, H, s, s + Pow2(H)) && Size(s + Pow2(H), H) == 1
  {
    LeafDepth(s, H);
  }

  lemma ClimbValue(live: set<nat>, H: nat, s: nat, p: nat)
    requires Fits(live, H) && Separate(live) && Climbing(live, H, s, p)
    ensures p < 2 * Pow2(H) && Depth(p) <= H && (Image(live, H)[p - 1] == 0 <==> p in live)
  {
    LeafDepth(s, H);
    UnderDepth(s + Pow2(H), p);
    ZeroIsLive(live, H, s + Pow2(H), p);
    hide Canon, Climbing, Under, Fits, Separate, Depth, Pow2;
    ImageAt(live, H, p);
  }

  lemma ImageAt(live: set<nat>, H: nat, p: nat)
    requires 1 <= p < 2 * Pow2(H)
    ensures Image(live, H)[p - 1] == Canon(live, p, Height(p, H))
  {
  }

  lemma CoveringUnder(live: set<nat>, H: nat, s: nat)
    requires Fits(live, H) && s < Pow2(H)
    ensures forall x :: x in Covering(live, H, s) <==> x in live && x >= 1 && Under(s + Pow2(H), x)
  {
    forall x | x in live && x >= 1 ensures InBlock(s, x, H) <==> Under(s + Pow2(H), x) { InBlockIff(s, x, H); }
  }

  lemma ClimbOn(live: set<nat>, H: nat, s: nat, p: nat)
    requires Fits(live, H) && Separate(live) && Climbing(live, H, s, p)
    requires p < 2 * Pow2(H) ==> Image(live, H)[p - 1] != 0
    ensures p > 1 ==> Climbing(live, H, s, p / 2) && Size(p / 2, H) == 2 * Size(p, H)
    ensures p == 1 ==> Covering(live, H, s) == {}
  {
    ClimbValue(live, H, s, p);
    if p == 1 {
      hide Covering, Image, Fits, Separate, Size;
      CoveringUnder(live, H, s);
    } else {
      hide Covering, Image, Fits, Separate, Size, Depth, Pow2;
      SizeUp(p, H);
      UnderChild(p, p / 2);
      UnderTrans(s + Pow2(H), p, p / 2);
    }
  }

  lemma SizeUp(p: nat, H: nat)
    requires 1 < p < 2 * Pow2(H)
    ensures Size(p / 2, H) == 2 * Size(p, H)
  {
    InTree(p, H);
    assert Depth(p) == 1 + Depth(p / 2);
    hide Depth;
    assert Pow2(Height(p, H) + 1) == 2 * Pow2(Height(p, H));
  }

  lemma ClimbedTo(live: set<nat>, H: nat, s: nat, p: nat)
    requires Fits(live, H) && Separate(live) && Climbing(live, H, s, p)
    requires p < 2 * Pow2(H) ==> Image(live, H)[p - 1] == 0
    ensures p in live && Covering(live, H, s) == {p}
  {
    hide Covering, Image, Fits, Separate, Pow2;
    ClimbValue(live, H, s, p);
    CoveringUnder(live, H, s);
    forall x | x in Covering(live, H, s) ensures x == p { OneBlock(live, s + Pow2(H), x, p); }
  }

  // Releasing a live block: what it means for the array.
  lemma ReleaseNode(live: set<nat>, H: nat, q: nat)
    requires Fits(live, H) && Separate(live) && q in live && 1 <= q < 2 * Pow2(H)
    ensures Fits(live - {q}, H) && Separate(live - {q}) && NoneAbove(live - {q}, q)
    ensures RightButAbove(Image(live, H)[q - 1 := Size(q, H)], live - {q}, H, q)
  {
    RemoveBlock(live, H, q);
    CanonFull(live - {q}, q, Height(q, H), H);
    MarkNode(Image(live, H), live, live - {q}, H, q);
  }

  lemma MergeStep(s: seq<nat>, live: set<nat>, H: nat, p: nat)
    requires |s| == 2 * Pow2(H) - 1 && 2 <= p <= |s| && RightButAbove(s, live, H, p) && NoneAbove(live, p)
    ensures
      var u := p / 2;
      && 1 <= u && 2 * u + 1 <= |s| && NoneAbove(live, u) && Size(u, H) == 2 * Size(p, H)
      && RightButAbove(s[u - 1 := Join(s[2 * u - 1], s[2 * u], 2 * Size(p, H))], live, H, u)
  {
    var u := p / 2;
    UnderChild(p, u);
    assert Under(u, u);
    forall x | x in live && x >= 1 ensures !Under(u, x) {
      if Under(u, x) { UnderTrans(p, u, x); }
    }
    hide RightButAbove, NoneAbove, Under;
    InTree(p, H);
    ClimbStep(s, live, H, p);
  }

  lemma NodeOfStart(q: nat, k: nat, H: nat)
    requires q >= 1 && Depth(q) + k == H && Start(q, H) >= 0
    ensures NodeAt(H, Start(q, H), k) == q
  {
    StartOf(q, k, H);
    Remainder(q * Pow2(k), Pow2(k), q, 0);
  }

  // The test at the root: what it refuses has no run, and what passes is a run's size or no size
  // at all.
  lemma AllocateGuard(live: set<nat>, H: nat, required: nat)
    requires Fits(live, H) && 0 < required < TWO64
    ensures
      var k, root, needed := Exponent(required), Canon(live, 1, H), Rounded(required);
      && (root < needed ==> !HasRun(live, H, k) && Servable(required, root))
      && (root >= needed && Servable(required, root) ==> HasRun(live, H, k) && needed == Pow2(k) && k <= H)
      && (root >= needed && !Servable(required, root) ==> forall j: nat :: needed != Pow2(j))
  {
    hide NoLongGap, Rounded, UpperPow2, FreeRun, Canon, Pow2, Width, Fits;
    var k := Exponent(required);
    RoomIff(live, H, k);
    CanonBound(live, 1, H);
    Pow2Order(k, H);
    if required <= TWO63 && NoLongGap(required - 1) {
      RoundedExactIff(required);
      UpperPow2Width(required);
    } else {
      RoundedBetween(required);
      NotPow2(Rounded(required), k);
    }
  }
}
