/**
 The traversal below a node: every node under it exactly once, and which texts those stand for.
 */
module TernaryVisit {
  import opened Alphabet
  import opened TernaryShape
  import opened Texts
  import opened WordLists

  // The order of the recursive search: the node, then its middle, left and right subtrees.
  function Visit(nodes: seq<Node>, n: int): seq<int>
    decreases |nodes| - n
  {
    if n < 0 || n >= |nodes| || |nodes[n].children| != 3 then []
    else [n] + VisitChild(nodes, n, MIDDLE) + VisitChild(nodes, n, LEFT) + VisitChild(nodes, n, RIGHT)
  }

  function VisitChild(nodes: seq<Node>, n: nat, slot: nat): seq<int>
    requires n < |nodes| && slot < |nodes[n].children|
    decreases |nodes| - n, 0
  {
    if nodes[n].children[slot] <= n then [] else Visit(nodes, nodes[n].children[slot])
  }

  // `y` is `x` or hangs somewhere below it.
  ghost predicate Below(places: seq<Place>, y: int, x: int)
    decreases y
  {
    y == x || (0 <= x < y < |places| && places[y].parent < y && Below(places, places[y].parent, x))
  }

  lemma {:induction false} BelowBound(places: seq<Place>, y: int, x: int)
    requires Below(places, y, x)
    ensures y >= x
    decreases y
  {
    if y != x { BelowBound(places, places[y].parent, x); }
  }

  lemma {:induction false} BelowChain(places: seq<Place>, y: int, a: int, b: int)
    requires Below(places, y, a) && Below(places, y, b)
    ensures Below(places, a, b) || Below(places, b, a)
    decreases y
  {
    if y != a && y != b { BelowChain(places, places[y].parent, a, b); }
  }

  lemma {:induction false} BelowChild(nodes: seq<Node>, keys: seq<string>, places: seq<Place>, y: nat, x: nat)
    returns (slot: nat)
    requires Shape(nodes, keys, places) && y < |nodes| && Below(places, y, x) && y != x
    ensures slot <= RIGHT && |nodes[x].children| == 3
    ensures nodes[x].children[slot] > x && Below(places, y, nodes[x].children[slot])
    decreases y
  {
    assert NodeOk(nodes, keys, places, y);
    var p := places[y].parent;
    if p == x {
      slot := places[y].slot;
    } else {
      slot := BelowChild(nodes, keys, places, p, x);
      BelowBound(places, p, nodes[x].children[slot]);
    }
  }

  lemma ChildBelow(nodes: seq<Node>, keys: seq<string>, places: seq<Place>, y: nat, x: nat, slot: nat)
    requires Shape(nodes, keys, places) && x < |nodes| && slot <= RIGHT && |nodes[x].children| == 3
    requires nodes[x].children[slot] > x && Below(places, y, nodes[x].children[slot])
    ensures Below(places, y, x)
    decreases y
  {
    var c := nodes[x].children[slot];
    assert LinksOk(nodes, places, x);
    if y != c {
      BelowBound(places, y, c);
      ChildBelow(nodes, keys, places, places[y].parent, x, slot);
    }
  }

  // The traversal reaches exactly what hangs below.
  lemma {:induction false} VisitIff(nodes: seq<Node>, keys: seq<string>, places: seq<Place>, x: nat, y: nat)
    requires Shape(nodes, keys, places) && x < |nodes| && y < |nodes|
    ensures y in Visit(nodes, x) <==> Below(places, y, x)
    decreases |nodes| - x
  {
    assert LinksOk(nodes, places, x);
    var cs := nodes[x].children;
    assert y in Visit(nodes, x) <==>
      || y == x || y in VisitChild(nodes, x, MIDDLE)
      || y in VisitChild(nodes, x, LEFT) || y in VisitChild(nodes, x, RIGHT);
    VisitChildIff(nodes, keys, places, x, y, LEFT);
    VisitChildIff(nodes, keys, places, x, y, MIDDLE);
    VisitChildIff(nodes, keys, places, x, y, RIGHT);
    if Below(places, y, x) && y != x {
      var slot := BelowChild(nodes, keys, places, y, x);
      assert slot in {LEFT, MIDDLE, RIGHT};
    }
  }

  lemma {:induction false} VisitChildIff(nodes: seq<Node>, keys: seq<string>, places: seq<Place>, x: nat,
        y: nat, slot: nat)
    requires Shape(nodes, keys, places) && x < |nodes| && y < |nodes| && slot <= RIGHT && |nodes[x].children| == 3
    ensures y in VisitChild(nodes, x, slot) <==>
      nodes[x].children[slot] > x && Below(places, y, nodes[x].children[slot])
    ensures y in VisitChild(nodes, x, slot) ==> y > x && Below(places, y, x)
    decreases |nodes| - x, 0
  {
    assert LinksOk(nodes, places, x);
    var c := nodes[x].children[slot];
    if c > x {
      VisitIff(nodes, keys, places, c, y);
      if Below(places, y, c) {
        BelowBound(places, y, c);
        ChildBelow(nodes, keys, places, y, x, slot);
      }
    }
  }

  lemma {:induction false} VisitRange(nodes: seq<Node>, x: int)
    ensures forall y :: y in Visit(nodes, x) ==> 0 <= x <= y < |nodes|
    decreases |nodes| - x
  {
    if 0 <= x < |nodes| && |nodes[x].children| == 3 {
      forall slot | 0 <= slot <= RIGHT ensures forall y :: y in VisitChild(nodes, x, slot) ==> x < y < |nodes| {
        if nodes[x].children[slot] > x { VisitRange(nodes, nodes[x].children[slot]); }
      }
    }
  }

  // Two subtrees of one node share nothing.
  lemma Apart(nodes: seq<Node>, keys: seq<string>, places: seq<Place>, x: nat, a: nat, b: nat, y: nat)
    requires Shape(nodes, keys, places) && x < |nodes| && a <= RIGHT && b <= RIGHT && a != b && y < |nodes|
    requires |nodes[x].children| == 3
    ensures !(y in VisitChild(nodes, x, a) && y in VisitChild(nodes, x, b))
  {
    VisitChildIff(nodes, keys, places, x, y, a);
    VisitChildIff(nodes, keys, places, x, y, b);
    if y in VisitChild(nodes, x, a) && y in VisitChild(nodes, x, b) {
      var c, d := nodes[x].children[a], nodes[x].children[b];
      assert LinksOk(nodes, places, x);
      BelowChain(places, y, c, d);
      SiblingsApart(places, x, c, d);
      SiblingsApart(places, x, d, c);
    }
  }

  lemma SiblingsApart(places: seq<Place>, x: nat, c: nat, d: nat)
    requires x < c < |places| && x < d && places[c].parent == x && c != d
    ensures !Below(places, c, d)
  {
    if Below(places, c, d) { BelowBound(places, x, d); }
  }

  // No node is visited twice.
  lemma {:induction false} VisitDistinct(nodes: seq<Node>, keys: seq<string>, places: seq<Place>, x: nat)
    requires Shape(nodes, keys, places) && x < |nodes|
    ensures Distinct(Visit(nodes, x))
    decreases |nodes| - x
  {
    assert LinksOk(nodes, places, x);
    var m, l, r := VisitChild(nodes, x, MIDDLE), VisitChild(nodes, x, LEFT), VisitChild(nodes, x, RIGHT);
    ChildDistinct(nodes, keys, places, x, MIDDLE);
    ChildDistinct(nodes, keys, places, x, LEFT);
    ChildDistinct(nodes, keys, places, x, RIGHT);
    forall y | y in m ensures y !in l && y !in r {
      Apart(nodes, keys, places, x, MIDDLE, LEFT, y);
      Apart(nodes, keys, places, x, MIDDLE, RIGHT, y);
    }
    forall y | y in l ensures y !in r { Apart(nodes, keys, places, x, LEFT, RIGHT, y); }
    hide Distinct;
    OneDistinct(x);
    DistinctConcat([x], m);
    DistinctConcat([x] + m, l);
    DistinctConcat([x] + m + l, r);
  }

  lemma {:induction false} ChildDistinct(nodes: seq<Node>, keys: seq<string>, places: seq<Place>, x: nat, slot: nat)
    requires Shape(nodes, keys, places) && x < |nodes| && slot <= RIGHT && |nodes[x].children| == 3
    ensures Distinct(VisitChild(nodes, x, slot))
    ensures forall y :: y in VisitChild(nodes, x, slot) ==> x < y < |nodes|
    decreases |nodes| - x, 0
  {
    assert LinksOk(nodes, places, x);
    var c := nodes[x].children[slot];
    if c > x {
      VisitDistinct(nodes, keys, places, c);
      VisitRange(nodes, c);
    }
  }

  // ---------------------------------------------------------------- texts below a node

  // Below the middle child of a node are exactly the nodes whose text goes on from the node's.
  lemma {:induction false} BelowMiddle(nodes: seq<Node>, keys: seq<string>, places: seq<Place>, p: nat, y: nat)
    requires Shape(nodes, keys, places) && p < |nodes| && 1 <= y < |nodes|
    requires Middle(nodes, p) > p
    ensures keys[y] != "" && (Below(places, y, Middle(nodes, p)) <==> keys[p] <= Front(keys[y]))
    decreases y
  {
    var x := Middle(nodes, p);
    assert LinksOk(nodes, places, p);
    assert NodeOk(nodes, keys, places, x);
    assert NodeOk(nodes, keys, places, y);
    var z := places[y].parent;
    if y != x {
      if z >= 1 { BelowMiddle(nodes, keys, places, p, z); }
      if Below(places, y, x) { BelowBound(places, z, x); }
      if z >= 1 && keys[p] <= Front(keys[y]) && places[y].slot == MIDDLE { SameNode(nodes, keys, places, p, z, y); }
      if z == 0 && keys[p] <= Front(keys[y]) { SameNode(nodes, keys, places, p, z, y); }
    }
  }

  // A node hanging in the middle of `z` whose text goes on from that of `p`: so does the text of
  // `z`, unless `z` is `p`, and then the node is its middle child.
  lemma SameNode(nodes: seq<Node>, keys: seq<string>, places: seq<Place>, p: nat, z: nat, y: nat)
    requires Shape(nodes, keys, places) && p < |nodes| && z < |nodes| && 1 <= y < |nodes| && keys[y] != ""
    requires places[y].parent == z && places[y].slot == MIDDLE && keys[p] <= Front(keys[y])
    ensures keys[p] <= keys[z]
    ensures keys[p] == keys[z] ==> z == p && y == Middle(nodes, p)
    ensures keys[p] != keys[z] ==> z >= 1 && keys[z] != "" && keys[p] <= Front(keys[z])
  {
    assert NodeOk(nodes, keys, places, y);
    LookupComplete(nodes, keys, places, p);
    LookupComplete(nodes, keys, places, z);
  }
}
