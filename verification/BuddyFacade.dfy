/**
 The allocator facade: blocks as addresses in a chunk of memory, recorded in a table.
 */
module BuddyFacade {
  import opened BinManagement
  import opened BuddyBlocks
  import opened BuddyTree
  import opened BuddyUtil
  import opened Options

  const GRANULARITY: nat := 4096

  // Strict: raises unless the size is a multiple of the granularity.  Otherwise rounds up; the sum
  // wraps for the last 4095 sizes.
  function BytesToSlots(bytes: nat, strict: bool): (r: Option<nat>)
    requires bytes < TWO64
    ensures r.None? <==> strict && bytes % GRANULARITY != 0
    ensures r.Some? && bytes <= TWO64 - GRANULARITY ==> (r.value - 1) * GRANULARITY < bytes <= r.value * GRANULARITY
    ensures r.Some? && bytes > TWO64 - GRANULARITY ==> r.value == 0
  {
    if strict && bytes % GRANULARITY != 0 then None
    else Some((bytes + GRANULARITY - 1) % TWO64 / GRANULARITY)
  }

  function Address(base: nat, x: nat, H: nat): int
    requires x >= 1
  {
    base + Start(x, H) * GRANULARITY
  }

  // The table lists exactly the live blocks, by address, with their slot count and offset.
  ghost predicate Mirrors(table: map<nat, (nat, nat)>, live: set<nat>, base: nat, H: nat) {
    && (forall x :: x in live ==> x >= 1 && Listed(table, base, x, H))
    && (forall a :: a in table ==> exists x :: x in live && x >= 1 && Address(base, x, H) == a)
  }

  ghost predicate Listed(table: map<nat, (nat, nat)>, base: nat, x: nat, H: nat)
    requires x >= 1
  {
    && Start(x, H) >= 0 && Address(base, x, H) in table
    && table[Address(base, x, H)] == (Size(x, H), Start(x, H))
  }

  // Two live blocks have different addresses and share no byte.
  lemma BytesDisjoint(live: set<nat>, base: nat, H: nat, x: nat, y: nat, b: int)
    requires Fits(live, H) && Separate(live) && x in live && y in live && x >= 1 && y >= 1
    requires Address(base, x, H) <= b < Address(base, x, H) + Size(x, H) * GRANULARITY
    requires Address(base, y, H) <= b < Address(base, y, H) + Size(y, H) * GRANULARITY
    ensures x == y
  {
    BlockOf(x, H);
    BlockOf(y, H);
    var s := (b - base) / GRANULARITY;
    assert InBlock(s, x, H) && InBlock(s, y, H);
    InBlockIff(s, x, H);
    InBlockIff(s, y, H);
    OneBlock(live, s + Pow2(H), x, y);
  }

  lemma SameAddress(live: set<nat>, base: nat, H: nat, x: nat, y: nat)
    requires Fits(live, H) && Separate(live) && x in live && y in live && x >= 1 && y >= 1
    requires Address(base, x, H) == Address(base, y, H)
    ensures x == y
  {
    BytesDisjoint(live, base, H, x, y, Address(base, x, H));
  }

  // The block at an address is the one a free of its offset releases.
  lemma CoveringStart(live: set<nat>, H: nat, x: nat)
    requires Fits(live, H) && Separate(live) && x in live && x >= 1
    ensures 0 <= Start(x, H) < Pow2(H) && Covering(live, H, Start(x, H)) == {x}
  {
    BlockOf(x, H);
    var s := Start(x, H);
    FirstSlot(x, H);
    forall y | y in live && y >= 1 && InBlock(s, y, H) ensures y == x {
      InBlockIff(s, y, H);
      OneBlock(live, s + Pow2(H), x, y);
    }
    assert InBlock(s, x, H);
  }

  lemma AddRecord(table: map<nat, (nat, nat)>, live: set<nat>, base: nat, H: nat, q: nat)
    requires Mirrors(table, live, base, H) && Fits(live + {q}, H) && Separate(live + {q}) && q !in live && q >= 1
    ensures 0 <= Start(q, H) < Pow2(H) && Address(base, q, H) !in table
    ensures Mirrors(table[Address(base, q, H) := (Size(q, H), Start(q, H))], live + {q}, base, H)
  {
    hide Fits, Separate, Size, Pow2, Depth;
    CoveringStart(live + {q}, H, q);
    var a := Address(base, q, H);
    forall x | x in live ensures Address(base, x, H) != a {
      if Address(base, x, H) == a { SameAddress(live + {q}, base, H, x, q); }
    }
    var table' := table[a := (Size(q, H), Start(q, H))];
    forall x | x in live + {q} ensures Listed(table', base, x, H) {
      if x != q { assert Listed(table, base, x, H); }
    }
  }

  // The first fit is a new block, and the record for it is a new one.
  lemma RecordTaken(table: map<nat, (nat, nat)>, live: set<nat>, base: nat, H: nat, o: nat, k: nat)
    requires Mirrors(table, live, base, H) && Fits(live, H) && Separate(live) && FirstFit(live, H, k, o)
    ensures
      var q := NodeAt(H, o, k);
      && q >= 1 && Covering(live + {q}, H, o) == {q} && Size(q, H) == Pow2(k) && o + Pow2(k) <= Pow2(H)
      && base + o * GRANULARITY !in table
      && Mirrors(table[base + o * GRANULARITY := (Pow2(k), o)], live + {q}, base, H)
  {
    var q := NodeAt(H, o, k);
    NodeAtBlock(H, o, k);
    StartOf(q, k, H);
    FreeRunIff(live, H, q);
    AddBlock(live, H, q);
    hide Mirrors, Fits, Separate, FreeRun, NodeAt, Covering, Start, Size;
    AddRecord(table, live, base, H, q);
    CoveringStart(live + {q}, H, q);
  }

  lemma EraseRecord(table: map<nat, (nat, nat)>, live: set<nat>, base: nat, H: nat, q: nat)
    requires Mirrors(table, live, base, H) && Fits(live, H) && Separate(live) && q in live && q >= 1
    ensures Address(base, q, H) >= 0 && Mirrors(table - {Address(base, q, H)}, live - {q}, base, H)
  {
    assert Listed(table, base, q, H);
    var a: nat := Address(base, q, H);
    var table' := table - {a};
    forall x | x in live - {q} ensures x >= 1 && Listed(table', base, x, H) {
      assert Listed(table, base, x, H);
      if Address(base, x, H) == a { SameAddress(live, base, H, x, q); }
    }
    forall b | b in table' ensures exists x :: x in live - {q} && x >= 1 && Address(base, x, H) == b {
      var x :| x in live && x >= 1 && Address(base, x, H) == b;
      assert x in live - {q};
    }
  }

  class BuddyAllocator {
    const bin: BinManager
    const base: nat
    const capacity: nat
    var table: map<nat, (nat, nat)>

    ghost predicate Valid()
      reads this, bin, bin.slots
    {
      && bin.Valid() && capacity == bin.total * GRANULARITY && 0 < base && base + capacity <= TWO64
      && Mirrors(table, bin.live, base, bin.H)
    }

    constructor (b: BinManager, memory: nat)
      requires b.Valid() && b.live == {} && 0 < memory && memory + b.total * GRANULARITY <= TWO64
      ensures Valid() && bin == b && table == map[] && base == memory
    {
      bin, base, capacity, table := b, memory, b.total * GRANULARITY, map[];
    }

    // A null address when no run is free, the first fit's address otherwise; all the bytes of the
    // request fit in those granted.  It overruns exactly when the bin manager does.
    method Allocate(bytes: nat) returns (ptr: nat, granted: nat, overrun: bool)
      requires Valid() && bytes < TWO64
      modifies this, bin, bin.slots
      ensures Valid()
      ensures bin.slots.Length > 0
      ensures overrun <==> !Servable(BytesToSlots(bytes, false).value, old(bin.slots[0]))
      ensures overrun ==> table == old(table) && bin.live == old(bin.live)
      ensures !overrun ==>
        var n := BytesToSlots(bytes, false).value;
        if n == 0 || !HasRun(old(bin.live), bin.H, Exponent(n)) then
          ptr == 0 && granted == 0 && table == old(table) && bin.live == old(bin.live)
        else
          exists o: nat :: FirstFit(old(bin.live), bin.H, Exponent(n), o)
            && ptr == base + o * GRANULARITY && base <= ptr && ptr + granted <= base + capacity
            && granted == Pow2(Exponent(n)) * GRANULARITY && granted >= bytes
            && ptr !in old(table) && table == old(table)[ptr := (Pow2(Exponent(n)), o)]
            && bin.live == old(bin.live) + {NodeAt(bin.H, o, Exponent(n))}
    {
      hide Servable, Mirrors, Fits, Separate, FirstFit, FreeRun, HasRun, Exponent, NodeAt, Covering, Image;
      var n := BytesToSlots(bytes, false).value;
      var offset;
      offset, overrun := bin.Allocate(n);
      if overrun || offset == NOFFSET { return 0, 0, overrun; }
      RecordTaken(table, old(bin.live), base, bin.H, offset, Exponent(n));
      var count := bin.SlotCountFor(offset);
      granted := count * GRANULARITY;
      ptr := base + offset * GRANULARITY;
      table := table[ptr := (count, offset)];
    }

    // Releases the block at a known address and only that one; unknown addresses are left alone.
    method Deallocate(ptr: nat) returns (ptr': nat)
      requires Valid()
      modifies this, bin, bin.slots
      ensures Valid()
      ensures ptr !in old(table) ==> ptr' == ptr && table == old(table) && bin.live == old(bin.live)
      ensures ptr in old(table) ==> ptr' == 0 && table == old(table) - {ptr}
      ensures ptr in old(table) ==>
        exists x :: x in old(bin.live) && x >= 1 && Address(base, x, bin.H) == ptr && bin.live == old(bin.live) - {x}
    {
      if ptr !in table { return ptr; }
      ghost var x :| x in bin.live && x >= 1 && Address(base, x, bin.H) == ptr;
      assert Listed(table, base, x, bin.H);
      CoveringStart(bin.live, bin.H, x);
      EraseRecord(table, bin.live, base, bin.H, x);
      bin.Free(table[ptr].1);
      table := table - {ptr};
      ptr' := 0;
    }

    // The bytes of the live block at an address, zero for any other address.
    method QueryAllocatedSize(ptr: nat) returns (bytes: nat)
      requires Valid()
      ensures ptr !in table ==> bytes == 0
      ensures forall x :: x in bin.live && x >= 1 && Address(base, x, bin.H) == ptr ==>
        bytes == Size(x, bin.H) * GRANULARITY
    {
      if ptr !in table {
        assert forall x :: x in bin.live ==> Listed(table, base, x, bin.H);
        return 0;
      }
      bytes := table[ptr].0 * GRANULARITY;
      assert forall x :: x in bin.live ==> Listed(table, base, x, bin.H);
    }
  }

  lemma WholeSlots(bytes: nat, n: nat)
    requires (n - 1) * GRANULARITY < bytes <= n * GRANULARITY && bytes % GRANULARITY == 0
    ensures n * GRANULARITY == bytes
    ensures (exists k: nat :: n == Pow2(k)) <==> exists k: nat :: bytes == GRANULARITY * Pow2(k)
  {
    if k: nat :| n == Pow2(k) { assert bytes == GRANULARITY * Pow2(k); }
    if k: nat :| bytes == GRANULARITY * Pow2(k) { assert n == Pow2(k); }
  }

  // The constructor raises unless the capacity is a power of two of whole slots.
  method Create(maxByte: nat, memory: nat) returns (r: Option<BuddyAllocator>)
    requires 0 < memory && memory + maxByte <= TWO64 && maxByte < TWO64
    ensures r.Some? <==> maxByte % GRANULARITY == 0 && exists k: nat :: maxByte == GRANULARITY * Pow2(k)
    ensures r.Some? ==>
      r.value.Valid() && r.value.table == map[] && r.value.bin.live == {} && r.value.capacity == maxByte
  {
    hide Pow2, IsPowerOf2, Mirrors;
    var n := BytesToSlots(maxByte, true);
    if n.None? { return None; }
    IsPowerOf2Iff(n.value);
    WholeSlots(maxByte, n.value);
    var bin := BinManagement.Create(n.value);
    if bin.None? { return None; }
    var a := new BuddyAllocator(bin.value, memory);
    r := Some(a);
  }
}
