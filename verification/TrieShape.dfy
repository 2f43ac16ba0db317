/**
 The shape of a trie kept in an arena of nodes: each node has one link per letter and stands for
 the text spelled on the way to it.
 */
module TrieShape {
  import opened Alphabet
  import opened Texts
  import opened WordLists

  const NULL: int := -1

  datatype Node = Node(character: char, lastOfWord: bool, children: seq<int>)

  // A link leads to a later node whose text is one letter longer.
  ghost predicate LinkOk(nodes: seq<Node>, keys: seq<string>, n: nat, pos: nat)
    requires |nodes| == |keys| && n < |nodes| && pos < |nodes[n].children|
  {
    var c := nodes[n].children[pos];
    && pos < LENGTH
    && (c == NULL || (n < c < |nodes| && keys[c] == keys[n] + [GetCharacter(pos)]))
  }

  ghost predicate LinksOk(nodes: seq<Node>, keys: seq<string>, n: nat)
    requires |nodes| == |keys| && n < |nodes|
  {
    |nodes[n].children| == LENGTH && forall pos :: 0 <= pos < LENGTH ==> LinkOk(nodes, keys, n, pos)
  }

  // Every node but the first hangs on the node of its text without the last letter.
  ghost predicate NodeOk(nodes: seq<Node>, keys: seq<string>, c: nat)
    requires |nodes| == |keys| && 1 <= c < |nodes|
  {
    && keys[c] != "" && nodes[c].character == Last(keys[c]) && Last(keys[c]) in LETTERS
    && exists p: nat :: Hangs(nodes, keys, c, p)
  }

  ghost predicate Hangs(nodes: seq<Node>, keys: seq<string>, c: nat, p: nat)
    requires |nodes| == |keys| && c < |nodes| && keys[c] != ""
  {
    var pos := GetCharacterIndex(Last(keys[c]));
    p < c && keys[p] == Front(keys[c]) && pos < LENGTH && |nodes[p].children| == LENGTH && nodes[p].children[pos] == c
  }

  ghost predicate Shape(nodes: seq<Node>, keys: seq<string>) {
    && |nodes| == |keys| >= 1 && keys[0] == ""
    && (forall n :: 0 <= n < |nodes| ==> LinksOk(nodes, keys, n))
    && (forall c :: 1 <= c < |nodes| ==> NodeOk(nodes, keys, c))
  }

  // ---------------------------------------------------------------- looking a text up

  function Child(nodes: seq<Node>, n: int, ch: char): (m: int)
    ensures m == NULL || 0 <= m < |nodes|
  {
    var pos := GetCharacterIndex(ch);
    if 0 <= n < |nodes| && pos < |nodes[n].children| && 0 <= nodes[n].children[pos] < |nodes| then
      nodes[n].children[pos]
    else NULL
  }

  function Lookup(nodes: seq<Node>, word: string): (m: int)
    ensures m == NULL || 0 <= m < |nodes| || word == ""
  {
    if word == "" then 0 else Child(nodes, Lookup(nodes, Front(word)), Last(word))
  }

  lemma {:induction false} LookupSound(nodes: seq<Node>, keys: seq<string>, word: string)
    requires Shape(nodes, keys)
    ensures Lookup(nodes, word) != NULL ==> Lookup(nodes, word) < |nodes| && keys[Lookup(nodes, word)] == word
  {
    if word != "" {
      var q := Lookup(nodes, Front(word));
      LookupSound(nodes, keys, Front(word));
      IndexOfLetter(Last(word));
      if q != NULL {
        assert LinksOk(nodes, keys, q);
        var pos := GetCharacterIndex(Last(word));
        if pos < LENGTH { assert LinkOk(nodes, keys, q, pos); }
        assert word == Front(word) + [Last(word)];
      }
    }
  }

  // The walk along a text reaches a NUL, whose index is past a node's links.
  ghost predicate Overruns(nodes: seq<Node>, word: string) {
    exists i :: 0 <= i < |word| && word[i] == '\0' && Lookup(nodes, word[..i]) != NULL
  }

  // Every node is the one found for its text.
  lemma {:induction false} LookupComplete(nodes: seq<Node>, keys: seq<string>, n: nat)
    requires Shape(nodes, keys) && n < |nodes|
    ensures Lookup(nodes, keys[n]) == n
    decreases |keys[n]|
  {
    if n > 0 {
      assert NodeOk(nodes, keys, n);
      var p: nat :| Hangs(nodes, keys, n, p);
      LookupComplete(nodes, keys, p);
    }
  }

  // ---------------------------------------------------------------- the words

  // The nodes that end a word.
  function Ends(nodes: seq<Node>): set<int> {
    set n | 0 <= n < |nodes| && nodes[n].lastOfWord
  }

  ghost function Words(nodes: seq<Node>, keys: seq<string>): set<string>
    requires |nodes| == |keys|
  {
    set n | 0 <= n < |nodes| && nodes[n].lastOfWord :: keys[n]
  }

  lemma ContainsIff(nodes: seq<Node>, keys: seq<string>, word: string)
    requires Shape(nodes, keys)
    ensures
      var m := Lookup(nodes, word);
      word in Words(nodes, keys) <==> m != NULL && nodes[m].lastOfWord
  {
    LookupSound(nodes, keys, word);
    if word in Words(nodes, keys) {
      var n :| 0 <= n < |nodes| && nodes[n].lastOfWord && keys[n] == word;
      LookupComplete(nodes, keys, n);
    }
    var m := Lookup(nodes, word);
    if m != NULL && nodes[m].lastOfWord { assert keys[m] in Words(nodes, keys); }
  }

  lemma MarkEnd(nodes: seq<Node>, keys: seq<string>, n: nat)
    requires Shape(nodes, keys) && n < |nodes|
    ensures
      var nodes' := nodes[n := nodes[n].(lastOfWord := true)];
      Shape(nodes', keys) && Words(nodes', keys) == Words(nodes, keys) + {keys[n]}
  {
    var nodes' := nodes[n := nodes[n].(lastOfWord := true)];
    SameLinks(nodes, nodes', keys);
    forall w ensures w in Words(nodes', keys) <==> w in Words(nodes, keys) + {keys[n]} {
      if w in Words(nodes, keys) {
        var k :| 0 <= k < |nodes| && nodes[k].lastOfWord && keys[k] == w;
        assert nodes'[k].lastOfWord;
      }
      assert nodes'[n].lastOfWord;
    }
  }

  lemma SameLinks(nodes: seq<Node>, nodes': seq<Node>, keys: seq<string>)
    requires Shape(nodes, keys) && |nodes'| == |nodes|
    requires forall k :: 0 <= k < |nodes| ==>
      nodes'[k].children == nodes[k].children && nodes'[k].character == nodes[k].character
    ensures Shape(nodes', keys)
  {
    forall k | 0 <= k < |nodes'| ensures LinksOk(nodes', keys, k) {
      assert LinksOk(nodes, keys, k);
      forall pos | 0 <= pos < LENGTH ensures LinkOk(nodes', keys, k, pos) { assert LinkOk(nodes, keys, k, pos); }
    }
    forall c | 1 <= c < |nodes'| ensures NodeOk(nodes', keys, c) {
      assert NodeOk(nodes, keys, c);
      var p: nat :| Hangs(nodes, keys, c, p);
      assert Hangs(nodes', keys, c, p);
    }
  }

  // ---------------------------------------------------------------- a new node

  function Fresh(ch: char): (n: Node)
    ensures |n.children| == LENGTH && forall pos :: 0 <= pos < LENGTH ==> n.children[pos] == NULL
  {
    Node(ch, false, seq(LENGTH, i => NULL))
  }

  function Linked(nodes: seq<Node>, n: nat, ch: char): seq<Node>
    requires n < |nodes| && GetCharacterIndex(ch) < |nodes[n].children|
  {
    nodes[n := nodes[n].(children := nodes[n].children[GetCharacterIndex(ch) := |nodes|])] + [Fresh(ch)]
  }

  lemma AddNode(nodes: seq<Node>, keys: seq<string>, n: nat, ch: char)
    requires Shape(nodes, keys) && n < |nodes| && ch in LETTERS && GetCharacterIndex(ch) < LENGTH
    requires |nodes[n].children| == LENGTH && nodes[n].children[GetCharacterIndex(ch)] == NULL
    ensures
      var nodes', keys' := Linked(nodes, n, ch), keys + [keys[n] + [ch]];
      Shape(nodes', keys') && Words(nodes', keys') == Words(nodes, keys)
  {
    var nodes', keys' := Linked(nodes, n, ch), keys + [keys[n] + [ch]];
    IndexOfLetter(ch);
    forall k | 0 <= k < |nodes'| ensures LinksOk(nodes', keys', k) { LinksStay(nodes, keys, n, ch, k); }
    forall c | 1 <= c < |nodes'| ensures NodeOk(nodes', keys', c) {
      if c < |nodes| { NodeStays(nodes, keys, n, ch, c); } else {
        assert Front(keys'[c]) == keys[n];
        assert Hangs(nodes', keys', c, n);
      }
    }
    forall w ensures w in Words(nodes', keys') <==> w in Words(nodes, keys) {
      if w in Words(nodes, keys) {
        var k :| 0 <= k < |nodes| && nodes[k].lastOfWord && keys[k] == w;
        assert nodes'[k].lastOfWord && keys'[k] == w;
      }
    }
  }

  lemma LinksStay(nodes: seq<Node>, keys: seq<string>, n: nat, ch: char, k: nat)
    requires Shape(nodes, keys) && n < |nodes| && ch in LETTERS && GetCharacterIndex(ch) < LENGTH && k <= |nodes|
    requires |nodes[n].children| == LENGTH && GetCharacter(GetCharacterIndex(ch)) == ch
    ensures LinksOk(Linked(nodes, n, ch), keys + [keys[n] + [ch]], k)
  {
    var nodes', keys' := Linked(nodes, n, ch), keys + [keys[n] + [ch]];
    if k < |nodes| { assert LinksOk(nodes, keys, k); }
    forall pos | 0 <= pos < LENGTH ensures LinkOk(nodes', keys', k, pos) {
      if k < |nodes| { assert LinkOk(nodes, keys, k, pos); }
    }
  }

  lemma NodeStays(nodes: seq<Node>, keys: seq<string>, n: nat, ch: char, c: nat)
    requires Shape(nodes, keys) && n < |nodes| && GetCharacterIndex(ch) < LENGTH && 1 <= c < |nodes|
    requires |nodes[n].children| == LENGTH && nodes[n].children[GetCharacterIndex(ch)] == NULL
    ensures NodeOk(Linked(nodes, n, ch), keys + [keys[n] + [ch]], c)
  {
    assert NodeOk(nodes, keys, c);
    var p: nat :| Hangs(nodes, keys, c, p);
    assert Hangs(Linked(nodes, n, ch), keys + [keys[n] + [ch]], c, p);
  }
}
