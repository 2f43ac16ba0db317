/**
 Whole runs of the bin manager on the level of live blocks.
 */
module BuddyRuns {
  import opened BinManagement
  import opened BuddyBlocks
  import opened BuddyTree
  import opened BuddyUtil

  datatype Request = Take(required: nat) | Release(offset: nat)

  ghost function Released(live: set<nat>, H: nat, offset: nat): set<nat> {
    if offset < Pow2(H) then live - Covering(live, H, offset) else live
  }

  // What a call does to the live blocks, as the methods of the bin manager promise it.
  ghost predicate Step(live: set<nat>, H: nat, r: Request, live': set<nat>) {
    match r
    case Release(offset) => live' == Released(live, H, offset)
    case Take(required) =>
      if required == 0 || !HasRun(live, H, Exponent(required)) then live' == live
      else exists o :: FirstFit(live, H, Exponent(required), o) && live' == live + {NodeAt(H, o, Exponent(required))}
  }

  ghost predicate Run(states: seq<set<nat>>, H: nat, requests: seq<Request>) {
    && |states| == |requests| + 1
    && forall i :: 0 <= i < |requests| ==> Step(states[i], H, requests[i], states[i + 1])
  }

  // The calls themselves: they make a run, up to the first that overruns.
  method Perform(bin: BinManager, requests: seq<Request>) returns (done: nat, ghost states: seq<set<nat>>)
    requires bin.Valid() && forall i :: 0 <= i < |requests| && requests[i].Take? ==> requests[i].required < TWO64
    modifies bin, bin.slots
    ensures bin.Valid() && done <= |requests| && bin.slots.Length > 0
    ensures Run(states, bin.H, requests[..done]) && states[0] == old(bin.live) && states[done] == bin.live
    ensures done < |requests| ==> requests[done].Take? && !Servable(requests[done].required, bin.slots[0])
  {
    hide Servable, HasRun, FirstFit, Exponent, NodeAt;
    done, states := 0, [bin.live];
    RootValue(bin.live, bin.H);
    while done < |requests|
      invariant bin.Valid() && done <= |requests|
      invariant Run(states, bin.H, requests[..done]) && states[0] == old(bin.live) && states[done] == bin.live
    {
      ghost var live := bin.live;
      match requests[done] {
        case Release(offset) => bin.Free(offset);
        case Take(required) =>
          ghost var root := bin.slots[0];
          var offset, overrun := bin.Allocate(required);
          if overrun { return; }
      }
      RunGrows(states, bin.H, requests, done, bin.live);
      done, states := done + 1, states + [bin.live];
    }
    assert requests[..done] == requests;
  }

  lemma RunGrows(states: seq<set<nat>>, H: nat, requests: seq<Request>, done: nat, live: set<nat>)
    requires done < |requests| && Run(states, H, requests[..done]) && Step(states[done], H, requests[done], live)
    ensures Run(states + [live], H, requests[..done + 1])
  {
    var states', requests' := states + [live], requests[..done + 1];
    forall i | 0 <= i < |requests'| ensures Step(states'[i], H, requests'[i], states'[i + 1]) {
      if i < done {
        assert requests[..done][i] == requests'[i] && Step(states[i], H, requests[..done][i], states[i + 1]);
      }
    }
  }

  ghost predicate Sound(live: set<nat>, H: nat) { Fits(live, H) && Separate(live) }

  lemma StepSound(live: set<nat>, H: nat, r: Request, live': set<nat>)
    requires Sound(live, H) && Step(live, H, r, live')
    ensures Sound(live', H)
  {
    if r.Take? && live' != live {
      var k := Exponent(r.required);
      var o :| FirstFit(live, H, k, o) && live' == live + {NodeAt(H, o, k)};
      NodeAtBlock(H, o, k);
      FreeRunIff(live, H, NodeAt(H, o, k));
      AddBlock(live, H, NodeAt(H, o, k));
    }
  }

  lemma {:induction false} RunSound(states: seq<set<nat>>, H: nat, requests: seq<Request>, i: nat)
    requires Run(states, H, requests) && Sound(states[0], H) && i < |states|
    ensures Sound(states[i], H)
  {
    if i > 0 {
      RunSound(states, H, requests, i - 1);
      StepSound(states[i - 1], H, requests[i - 1], states[i]);
    }
  }

  // At any moment of any run no slot belongs to two live blocks.
  lemma EveryRunDisjoint(states: seq<set<nat>>, H: nat, requests: seq<Request>, i: nat, x: nat, y: nat, s: nat)
    requires Run(states, H, requests) && states[0] == {} && i < |states|
    requires x in states[i] && y in states[i] && x >= 1 && y >= 1
    requires s < Pow2(H) && InBlock(s, x, H) && InBlock(s, y, H)
    ensures x == y
  {
    RunSound(states, H, requests, i);
    OneHolder(states[i], H, x, y, s);
  }

  lemma OneHolder(live: set<nat>, H: nat, x: nat, y: nat, s: nat)
    requires Sound(live, H) && x in live && y in live && x >= 1 && y >= 1
    requires s < Pow2(H) && InBlock(s, x, H) && InBlock(s, y, H)
    ensures x == y
  {
    InBlockIff(s, x, H);
    InBlockIff(s, y, H);
    OneBlock(live, s + Pow2(H), x, y);
  }

  // ---------------------------------------------------------------- freeing in any order

  ghost function ReleaseAll(live: set<nat>, H: nat, offsets: seq<nat>): set<nat> {
    if offsets == [] then live else ReleaseAll(Released(live, H, offsets[0]), H, offsets[1..])
  }

  ghost predicate Hit(x: nat, H: nat, offsets: seq<nat>)
    requires x >= 1
  {
    exists i :: 0 <= i < |offsets| && InBlock(offsets[i], x, H)
  }

  // Only which blocks are hit matters, not the order or how often.
  lemma {:induction false} ReleaseAllIs(live: set<nat>, H: nat, offsets: seq<nat>, x: nat)
    requires Sound(live, H)
    ensures x in ReleaseAll(live, H, offsets) <==> x in live && !Hit(x, H, offsets)
    decreases |offsets|
  {
    if offsets != [] {
      var o, rest := offsets[0], offsets[1..];
      ReleaseAllIs(Released(live, H, o), H, rest, x);
      if x in live {
        HitFirst(x, H, offsets);
        BlockOf(x, H);
      }
    }
  }

  lemma HitFirst(x: nat, H: nat, offsets: seq<nat>)
    requires x >= 1 && offsets != []
    ensures Hit(x, H, offsets) <==> InBlock(offsets[0], x, H) || Hit(x, H, offsets[1..])
  {
    if Hit(x, H, offsets[1..]) {
      var i :| 0 <= i < |offsets[1..]| && InBlock(offsets[1..][i], x, H);
      assert offsets[i + 1] == offsets[1..][i];
    }
    if Hit(x, H, offsets) {
      var i :| 0 <= i < |offsets| && InBlock(offsets[i], x, H);
      if i > 0 { assert offsets[1..][i - 1] == offsets[i]; }
    }
  }

  // Whatever was allocated on top of `base`, freeing it in any order gives back the very array that
  // was there before.
  lemma FreeingRestores(base: set<nat>, live: set<nat>, H: nat, offsets: seq<nat>)
    requires Sound(live, H) && base <= live
    requires forall x :: x in live && x >= 1 ==> (Hit(x, H, offsets) <==> x !in base)
    ensures ReleaseAll(live, H, offsets) == base
    ensures Image(ReleaseAll(live, H, offsets), H) == Image(base, H)
  {
    forall x ensures x in ReleaseAll(live, H, offsets) <==> x in base { ReleaseAllIs(live, H, offsets, x); }
  }

  lemma {:induction false} TakingGrows(states: seq<set<nat>>, H: nat, requests: seq<Request>, i: nat)
    requires Run(states, H, requests) && i < |states|
    requires forall j :: 0 <= j < |requests| ==> requests[j].Take?
    ensures states[0] <= states[i]
  {
    if i > 0 {
      TakingGrows(states, H, requests, i - 1);
      assert Step(states[i - 1], H, requests[i - 1], states[i]);
    }
  }

  // Any run of allocations undone by frees in any order coalesces back to the original array.
  lemma EveryRunCoalesces(states: seq<set<nat>>, H: nat, requests: seq<Request>, offsets: seq<nat>)
    requires Run(states, H, requests) && Sound(states[0], H)
    requires forall j :: 0 <= j < |requests| ==> requests[j].Take?
    requires var live := states[|requests|];
      forall x :: x in live && x >= 1 ==> (Hit(x, H, offsets) <==> x !in states[0])
    ensures Image(ReleaseAll(states[|requests|], H, offsets), H) == Image(states[0], H)
  {
    RunSound(states, H, requests, |requests|);
    TakingGrows(states, H, requests, |requests|);
    FreeingRestores(states[0], states[|requests|], H, offsets);
  }

  // With everything free again the whole chunk can be taken in one piece.
  lemma EmptyHasEveryRun(H: nat, k: nat)
    ensures HasRun({}, H, k) <==> k <= H
  {
    RoomIff({}, H, k);
    CanonFull({}, 1, H, H);
    if k <= H { Pow2Monotone(k, H); } else { Pow2Monotone(H, k); }
  }
}
