/**
 The shape of a ternary search tree kept in an arena of nodes: what its links mean in terms of the
 texts that its nodes stand for.
 */
module TernaryShape {
  import opened Alphabet
  import opened Texts
  import opened WordLists

  const NULL: int := -1
  const LEFT: nat := 0
  const MIDDLE: nat := 1
  const RIGHT: nat := 2

  datatype Node = Node(charIndex: nat, endWord: bool, children: seq<int>)

  // Where a node hangs, and the open interval its letter was chosen from.
  datatype Place = Place(parent: nat, slot: nat, lo: int, hi: int)

  // A link leads to a later node that knows where it hangs.
  ghost predicate LinkOk(nodes: seq<Node>, places: seq<Place>, n: nat, slot: nat)
    requires n < |nodes| && slot < |nodes[n].children|
  {
    var c := nodes[n].children[slot];
    c == NULL || (n < c < |nodes| && c < |places| && places[c].parent == n && places[c].slot == slot)
  }

  ghost predicate LinksOk(nodes: seq<Node>, places: seq<Place>, n: nat)
    requires n < |nodes|
  {
    && |nodes[n].children| == 3
    && LinkOk(nodes, places, n, LEFT) && LinkOk(nodes, places, n, MIDDLE) && LinkOk(nodes, places, n, RIGHT)
  }

  // The text, letter and interval of a node, from those of the node it hangs on.
  ghost predicate NodeOk(nodes: seq<Node>, keys: seq<string>, places: seq<Place>, c: nat)
    requires |nodes| == |keys| == |places| && 1 <= c < |nodes|
  {
    var p, slot := places[c].parent, places[c].slot;
    && p < c && slot <= RIGHT && |nodes[p].children| == 3 && nodes[p].children[slot] == c
    && keys[c] != "" && Found(Last(keys[c]))
    && nodes[c].charIndex == GetCharacterIndex(Last(keys[c])) && nodes[c].charIndex <= LENGTH
    && places[c].lo < nodes[c].charIndex < places[c].hi
    && Hangs(nodes, keys, places, c, p, slot)
  }

  ghost predicate Hangs(nodes: seq<Node>, keys: seq<string>, places: seq<Place>, c: nat, p: nat, slot: nat)
    requires |nodes| == |keys| == |places| && p < |nodes| && c < |nodes| && keys[c] != ""
  {
    if slot == MIDDLE then Front(keys[c]) == keys[p] && places[c].lo == -1 && places[c].hi == LENGTH + 1
    else
      && p >= 1 && keys[p] != "" && Front(keys[c]) == Front(keys[p])
      && places[c].lo == (if slot == LEFT then places[p].lo else nodes[p].charIndex)
      && places[c].hi == (if slot == LEFT then nodes[p].charIndex else places[p].hi)
  }

  ghost predicate Shape(nodes: seq<Node>, keys: seq<string>, places: seq<Place>) {
    && |nodes| == |keys| == |places| >= 1 && keys[0] == ""
    && (forall n :: 0 <= n < |nodes| ==> LinksOk(nodes, places, n))
    && (forall c :: 1 <= c < |nodes| ==> NodeOk(nodes, keys, places, c))
  }

  // ---------------------------------------------------------------- looking a text up

  // Down the left and right links from `x` to the node with the letter.
  function Find(nodes: seq<Node>, x: int, index: nat): (m: int)
    ensures m == NULL || 0 <= m < |nodes|
    decreases |nodes| - x
  {
    if x < 0 || x >= |nodes| || |nodes[x].children| != 3 then NULL
    else if nodes[x].charIndex == index then x
    else
      var next := if index < nodes[x].charIndex then nodes[x].children[LEFT] else nodes[x].children[RIGHT];
      if next <= x then NULL else Find(nodes, next, index)
  }

  function Middle(nodes: seq<Node>, n: int): int {
    if 0 <= n < |nodes| && |nodes[n].children| == 3 then nodes[n].children[MIDDLE] else NULL
  }

  // The node that stands for a text.
  function Lookup(nodes: seq<Node>, word: string): (m: int)
    ensures m == NULL || 0 <= m < |nodes| || word == ""
  {
    if word == "" then 0
    else Find(nodes, Middle(nodes, Lookup(nodes, Front(word))), GetCharacterIndex(Last(word)))
  }

  // What is found from `x` on has the letter and the same text before it.
  lemma {:induction false} FindKey(nodes: seq<Node>, keys: seq<string>, places: seq<Place>, x: nat, index: nat)
    requires Shape(nodes, keys, places) && 1 <= x < |nodes|
    ensures
      var m := Find(nodes, x, index);
      m != NULL ==>
        && m >= 1 && keys[m] != "" && keys[x] != "" && Front(keys[m]) == Front(keys[x])
        && nodes[m].charIndex == index
    decreases |nodes| - x
  {
    assert NodeOk(nodes, keys, places, x);
    if nodes[x].charIndex != index {
      assert LinksOk(nodes, places, x);
      var slot := if index < nodes[x].charIndex then LEFT else RIGHT;
      var next := nodes[x].children[slot];
      assert LinkOk(nodes, places, x, slot);
      if next > x {
        assert NodeOk(nodes, keys, places, next);
        FindKey(nodes, keys, places, next, index);
      }
    }
  }

  // The node found for a text stands for it.
  lemma {:induction false} LookupSound(nodes: seq<Node>, keys: seq<string>, places: seq<Place>, word: string)
    requires Shape(nodes, keys, places)
    ensures Lookup(nodes, word) != NULL ==> Lookup(nodes, word) < |nodes| && keys[Lookup(nodes, word)] == word
  {
    if word != "" {
      LookupSound(nodes, keys, places, Front(word));
      var x := Middle(nodes, Lookup(nodes, Front(word)));
      if Lookup(nodes, Front(word)) != NULL && x != NULL {
        MiddleKey(nodes, keys, places, Lookup(nodes, Front(word)));
        FoundKey(nodes, keys, places, x, word);
      }
    }
  }

  lemma MiddleKey(nodes: seq<Node>, keys: seq<string>, places: seq<Place>, q: nat)
    requires Shape(nodes, keys, places) && q < |nodes| && Middle(nodes, q) != NULL
    ensures 1 <= Middle(nodes, q) < |nodes| && keys[Middle(nodes, q)] != "" && Front(keys[Middle(nodes, q)]) == keys[q]
  {
    hide NodeOk, Find, Lookup;
    assert LinksOk(nodes, places, q);
    assert LinkOk(nodes, places, q, MIDDLE);
    HangsAsPlaced(nodes, keys, places, Middle(nodes, q));
  }

  lemma HangsAsPlaced(nodes: seq<Node>, keys: seq<string>, places: seq<Place>, c: nat)
    requires Shape(nodes, keys, places) && 1 <= c < |nodes|
    ensures places[c].parent < c && keys[c] != "" && Found(Last(keys[c]))
    ensures Hangs(nodes, keys, places, c, places[c].parent, places[c].slot)
    ensures nodes[c].charIndex == GetCharacterIndex(Last(keys[c]))
  {
    hide Hangs, Found;
    assert NodeOk(nodes, keys, places, c);
  }

  // A sibling found for a text's last character, when the siblings' texts begin as it does.
  lemma FoundKey(nodes: seq<Node>, keys: seq<string>, places: seq<Place>, x: nat, word: string)
    requires Shape(nodes, keys, places) && 1 <= x < |nodes|
    requires keys[x] != "" && word != "" && Front(keys[x]) == Front(word)
    ensures
      var m := Find(nodes, x, GetCharacterIndex(Last(word)));
      m != NULL ==> m >= 1 && keys[m] == word
  {
    hide NodeOk, Find, Lookup, Hangs, Found, GetCharacterIndex;
    FindKey(nodes, keys, places, x, GetCharacterIndex(Last(word)));
    var m := Find(nodes, x, GetCharacterIndex(Last(word)));
    if m != NULL {
      HangsAsPlaced(nodes, keys, places, m);
      LetterOfIndex(Last(keys[m]), Last(word));
      assert keys[m] == Front(keys[m]) + [Last(keys[m])] && word == Front(word) + [Last(word)];
    }
  }

  // The first node of the siblings that `x` belongs to.
  ghost function Eldest(nodes: seq<Node>, keys: seq<string>, places: seq<Place>, x: nat): (r: nat)
    requires Shape(nodes, keys, places) && 1 <= x < |nodes|
    ensures 1 <= r < |nodes| && places[r].slot == MIDDLE && keys[r] != "" && keys[x] != ""
    ensures Front(keys[r]) == Front(keys[x])
  {
    assert NodeOk(nodes, keys, places, x);
    if places[x].slot == MIDDLE then x else Eldest(nodes, keys, places, places[x].parent)
  }

  // From its parent among the siblings, a search for any letter of a node's interval goes to it.
  lemma FindDown(nodes: seq<Node>, keys: seq<string>, places: seq<Place>, x: nat, index: nat)
    requires Shape(nodes, keys, places) && 1 <= x < |nodes| && places[x].slot != MIDDLE
    requires places[x].lo < index < places[x].hi
    ensures
      var p := places[x].parent;
      1 <= p < x && places[p].lo < index < places[p].hi && Find(nodes, p, index) == Find(nodes, x, index)
  {
    hide Found, GetCharacterIndex;
    SideOf(nodes, keys, places, x);
    var p := places[x].parent;
    hide Shape;
    assert Find(nodes, p, index) == Find(nodes, x, index);
  }

  lemma SideOf(nodes: seq<Node>, keys: seq<string>, places: seq<Place>, x: nat)
    requires Shape(nodes, keys, places) && 1 <= x < |nodes| && places[x].slot != MIDDLE
    ensures
      var p := places[x].parent;
      && 1 <= p < x && |nodes[p].children| == 3 && (places[x].slot == LEFT || places[x].slot == RIGHT)
      && nodes[p].children[places[x].slot] == x && places[p].lo < nodes[p].charIndex < places[p].hi
      && places[x].lo == (if places[x].slot == LEFT then places[p].lo else nodes[p].charIndex)
      && places[x].hi == (if places[x].slot == LEFT then nodes[p].charIndex else places[p].hi)
  {
    hide Found, Find;
    assert NodeOk(nodes, keys, places, x);
    assert NodeOk(nodes, keys, places, places[x].parent);
  }

  // A search for any letter of its interval, started at the eldest, passes through the node.
  lemma {:induction false} FindPasses(nodes: seq<Node>, keys: seq<string>, places: seq<Place>, x: nat, index: nat)
    requires Shape(nodes, keys, places) && 1 <= x < |nodes| && places[x].lo < index < places[x].hi
    ensures Find(nodes, Eldest(nodes, keys, places, x), index) == Find(nodes, x, index)
    decreases x
  {
    hide Find;
    if places[x].slot != MIDDLE {
      FindDown(nodes, keys, places, x, index);
      FindPasses(nodes, keys, places, places[x].parent, index);
    }
  }

  // Every node is the one found for its text, so no two nodes stand for the same text.
  lemma {:induction false} LookupComplete(nodes: seq<Node>, keys: seq<string>, places: seq<Place>, n: nat)
    requires Shape(nodes, keys, places) && n < |nodes|
    ensures Lookup(nodes, keys[n]) == n
    decreases |keys[n]|
  {
    if n > 0 {
      assert NodeOk(nodes, keys, places, n);
      var e := Eldest(nodes, keys, places, n);
      assert NodeOk(nodes, keys, places, e);
      var q := places[e].parent;
      LookupComplete(nodes, keys, places, q);
      FindPasses(nodes, keys, places, n, nodes[n].charIndex);
      assert LinksOk(nodes, places, n);
    }
  }

  // ---------------------------------------------------------------- the words

  // The nodes that end a word.
  function Ends(nodes: seq<Node>): set<int> {
    set n | 0 <= n < |nodes| && nodes[n].endWord
  }

  ghost function Words(nodes: seq<Node>, keys: seq<string>): set<string>
    requires |nodes| == |keys|
  {
    set n | 0 <= n < |nodes| && nodes[n].endWord :: keys[n]
  }

  lemma ContainsIff(nodes: seq<Node>, keys: seq<string>, places: seq<Place>, word: string)
    requires Shape(nodes, keys, places)
    ensures
      var m := Lookup(nodes, word);
      word in Words(nodes, keys) <==> m != NULL && nodes[m].endWord
  {
    LookupSound(nodes, keys, places, word);
    if word in Words(nodes, keys) {
      var n :| 0 <= n < |nodes| && nodes[n].endWord && keys[n] == word;
      LookupComplete(nodes, keys, places, n);
      assert Lookup(nodes, word) == n;
    }
    var m := Lookup(nodes, word);
    if m != NULL && nodes[m].endWord {
      assert keys[m] in Words(nodes, keys);
      assert keys[m] == word;
    }
  }

  // Marking the end of a word.
  lemma MarkEnd(nodes: seq<Node>, keys: seq<string>, places: seq<Place>, n: nat)
    requires Shape(nodes, keys, places) && n < |nodes|
    ensures
      var nodes' := nodes[n := nodes[n].(endWord := true)];
      Shape(nodes', keys, places) && Words(nodes', keys) == Words(nodes, keys) + {keys[n]}
  {
    var nodes' := nodes[n := nodes[n].(endWord := true)];
    SameLinks(nodes, nodes', keys, places);
    forall w ensures w in Words(nodes', keys) <==> w in Words(nodes, keys) + {keys[n]} {
      if w in Words(nodes, keys) {
        var k :| 0 <= k < |nodes| && nodes[k].endWord && keys[k] == w;
        assert nodes'[k].endWord;
      }
      assert nodes'[n].endWord;
    }
  }

  lemma SameLinks(nodes: seq<Node>, nodes': seq<Node>, keys: seq<string>, places: seq<Place>)
    requires Shape(nodes, keys, places) && |nodes'| == |nodes|
    requires forall k :: 0 <= k < |nodes| ==>
      nodes'[k].children == nodes[k].children && nodes'[k].charIndex == nodes[k].charIndex
    ensures Shape(nodes', keys, places)
  {
    forall k | 0 <= k < |nodes'| ensures LinksOk(nodes', places, k) { assert LinksOk(nodes, places, k); }
    forall c | 1 <= c < |nodes'| ensures NodeOk(nodes', keys, places, c) { assert NodeOk(nodes, keys, places, c); }
  }

  // ---------------------------------------------------------------- a new node

  function Fresh(index: nat): Node { Node(index, false, [NULL, NULL, NULL]) }

  function Linked(nodes: seq<Node>, n: nat, slot: nat, index: nat): seq<Node>
    requires n < |nodes| && |nodes[n].children| == 3 && slot < 3
  {
    nodes[n := nodes[n].(children := nodes[n].children[slot := |nodes|])] + [Fresh(index)]
  }

  // Hanging a new node on a free link keeps the shape and the words.
  lemma AddNode(nodes: seq<Node>, keys: seq<string>, places: seq<Place>, n: nat, slot: nat, key: string, place: Place)
    requires Shape(nodes, keys, places) && n < |nodes| && slot <= RIGHT
    requires |nodes[n].children| == 3 && nodes[n].children[slot] == NULL
    requires place.parent == n && place.slot == slot
    requires key != "" && Found(Last(key))
    requires place.lo < GetCharacterIndex(Last(key)) < place.hi
    requires Hangs(nodes + [Fresh(0)], keys + [key], places + [place], |nodes|, n, slot)
    ensures
      var nodes' := Linked(nodes, n, slot, GetCharacterIndex(Last(key)));
      Shape(nodes', keys + [key], places + [place]) && Words(nodes', keys + [key]) == Words(nodes, keys)
  {
    var index := GetCharacterIndex(Last(key));
    var nodes', keys', places' := Linked(nodes, n, slot, index), keys + [key], places + [place];
    IndexOfLetter(Last(key));
    forall k | 0 <= k < |nodes'| ensures LinksOk(nodes', places', k) {
      if k < |nodes| { assert LinksOk(nodes, places, k); }
    }
    forall c | 1 <= c < |nodes'| ensures NodeOk(nodes', keys', places', c) {
      if c < |nodes| {
        assert NodeOk(nodes, keys, places, c);
        KeepsNode(nodes, nodes', keys, keys', places, places', n, slot, c);
      }
    }
    forall w ensures w in Words(nodes', keys') <==> w in Words(nodes, keys) {
      if w in Words(nodes, keys) {
        var k :| 0 <= k < |nodes| && nodes[k].endWord && keys[k] == w;
        assert nodes'[k].endWord && keys'[k] == w;
      }
    }
  }

  lemma KeepsNode(
    nodes: seq<Node>, nodes': seq<Node>, keys: seq<string>, keys': seq<string>, places: seq<Place>, places': seq<Place>,
    n: nat, slot: nat, c: nat)
    requires |nodes| == |keys| == |places| && |nodes'| == |keys'| == |places'| == |nodes| + 1 && 1 <= c < |nodes|
    requires n < |nodes| && slot <= RIGHT && |nodes[n].children| == 3 && nodes[n].children[slot] == NULL
    requires forall k :: 0 <= k < |nodes| ==>
      nodes'[k].charIndex == nodes[k].charIndex && keys'[k] == keys[k] && places'[k] == places[k]
    requires forall k :: 0 <= k < |nodes| && k != n ==> nodes'[k].children == nodes[k].children
    requires nodes'[n].children == nodes[n].children[slot := |nodes|]
    requires NodeOk(nodes, keys, places, c)
    ensures NodeOk(nodes', keys', places', c)
  {
  }
}
