/**
 The tree as an object: insertion creates and links nodes in place, the search recurses over them.
 */
module TernaryTrees {
  import opened Alphabet
  import opened TernaryShape
  import opened TernaryVisit
  import opened Texts
  import opened WordLists

  lemma VisitStep(nodes: seq<Node>, keys: seq<string>, places: seq<Place>, n: nat)
    requires Shape(nodes, keys, places) && n < |nodes|
    ensures InRange(keys, Visit(nodes, n)) && |nodes[n].children| == 3
    ensures InRange(keys, VisitChild(nodes, n, LEFT)) && InRange(keys, VisitChild(nodes, n, MIDDLE))
    ensures InRange(keys, VisitChild(nodes, n, RIGHT))
    ensures
      Output(keys, Ends(nodes), Visit(nodes, n))
      == (if nodes[n].endWord then [keys[n]] else []) + Output(keys, Ends(nodes), VisitChild(nodes, n, MIDDLE))
         + Output(keys, Ends(nodes), VisitChild(nodes, n, LEFT))
         + Output(keys, Ends(nodes), VisitChild(nodes, n, RIGHT))
  {
    VisitRange(nodes, n);
    assert LinksOk(nodes, places, n);
    ChildDistinct(nodes, keys, places, n, MIDDLE);
    ChildDistinct(nodes, keys, places, n, LEFT);
    ChildDistinct(nodes, keys, places, n, RIGHT);
    var m, l, r := VisitChild(nodes, n, MIDDLE), VisitChild(nodes, n, LEFT), VisitChild(nodes, n, RIGHT);
    assert Visit(nodes, n) == [n] + m + l + r;
    hide Visit, VisitChild, Shape;
    MembersInRange(keys, m);
    MembersInRange(keys, l);
    MembersInRange(keys, r);
    OutputParts(keys, Ends(nodes), n, m, l, r);
  }

  class TernaryTree {
    var nodes: seq<Node>
    ghost var keys: seq<string>
    ghost var places: seq<Place>

    ghost predicate Valid()
      reads this
    {
      Shape(nodes, keys, places)
    }

    // The words inserted.
    ghost function WordSet(): set<string>
      reads this
      requires Valid()
    {
      Words(nodes, keys)
    }

    constructor ()
      ensures Valid() && WordSet() == {}
    {
      nodes, keys, places := [Fresh(NPOS)], [""], [Place(0, 0, 0, 0)];
    }

    // The child of a node on a link, created if it is not there.
    method TouchNodeChild(n: nat, slot: nat, index: nat, ghost key: string, ghost place: Place) returns (c: nat)
      requires Valid() && n < |nodes| && slot <= RIGHT && key != "" && Found(Last(key))
      requires index == GetCharacterIndex(Last(key)) && place.lo < index < place.hi
      requires place.parent == n && place.slot == slot
      requires Hangs(nodes + [Fresh(0)], keys + [key], places + [place], |nodes|, n, slot)
      modifies this
      ensures Valid() && WordSet() == old(WordSet())
      ensures |nodes| >= |old(nodes)| && forall k :: 0 <= k < |old(nodes)| ==> keys[k] == old(keys[k])
      ensures n < c < |nodes| && places[c] == place && keys[c] != "" && Front(keys[c]) == Front(key)
      ensures |nodes| > |old(nodes)| ==> nodes[c].charIndex == index
      ensures |nodes| == |old(nodes)| ==> c < |old(nodes)|
    {
      assert LinksOk(nodes, places, n);
      assert LinkOk(nodes, places, n, slot);
      if nodes[n].children[slot] == NULL {
        AddNode(nodes, keys, places, n, slot, key, place);
        c := |nodes|;
        nodes := Linked(nodes, n, slot, index);
        keys, places := keys + [key], places + [place];
      } else {
        c := nodes[n].children[slot];
        assert NodeOk(nodes, keys, places, c);
      }
    }

    // The sibling with the letter, found or created to the left or right of the others.
    method TouchLetter(node: nat, index: nat, ghost key: string) returns (next: nat)
      requires Valid() && node < |nodes| && key != "" && Found(Last(key))
      requires index == GetCharacterIndex(Last(key)) && keys[node] == Front(key)
      modifies this
      ensures Valid() && WordSet() == old(WordSet()) && next < |nodes| && keys[next] == key
    {
      IndexOfLetter(Last(key));
      next := TouchNodeChild(node, MIDDLE, index, key, Place(node, MIDDLE, -1, LENGTH + 1));
      while index != nodes[next].charIndex
        invariant Valid() && WordSet() == old(WordSet()) && 1 <= next < |nodes|
        invariant keys[next] != "" && Front(keys[next]) == Front(key) && places[next].lo < index < places[next].hi
        decreases if index == nodes[next].charIndex then 0 else |nodes| - next
      {
        assert NodeOk(nodes, keys, places, next);
        if index < nodes[next].charIndex {
          next := TouchNodeChild(next, LEFT, index, key, Place(next, LEFT, places[next].lo, nodes[next].charIndex));
        } else {
          next := TouchNodeChild(next, RIGHT, index, key, Place(next, RIGHT, nodes[next].charIndex, places[next].hi));
        }
      }
      SameText(nodes, keys, places, next, key);
    }

    // A word with a character the alphabet does not find is rejected and leaves the set of words as it was.
    method Insert(word: string) returns (ok: bool)
      requires Valid()
      modifies this
      ensures Valid() && ok == AllFound(word)
      ensures WordSet() == if ok then old(WordSet()) + {word} else old(WordSet())
    {
      var node: nat, i := 0, 0;
      while i < |word|
        invariant Valid() && WordSet() == old(WordSet()) && 0 <= i <= |word|
        invariant node < |nodes| && keys[node] == word[..i] && AllFound(word[..i])
      {
        var index := GetCharacterIndex(word[i]);
        IndexOfLetter(word[i]);
        ghost var key := word[..i + 1];
        assert Last(key) == word[i] && Front(key) == word[..i];
        if index == NPOS { return false; }
        node := TouchLetter(node, index, key);
        i := i + 1;
      }
      assert word[..i] == word;
      MarkEnd(nodes, keys, places, node);
      nodes := nodes[node := nodes[node].(endWord := true)];
      ok := true;
    }

    // The node of a text, or none.
    method Locate(word: string) returns (node: int)
      requires Valid()
      ensures node == Lookup(nodes, word) && (node == NULL || 0 <= node < |nodes|)
    {
      node := 0;
      var i := 0;
      while i < |word|
        invariant 0 <= i <= |word| && node == Lookup(nodes, word[..i]) && 0 <= node < |nodes|
      {
        ghost var key := word[..i + 1];
        assert Front(key) == word[..i] && Last(key) == word[i];
        ExtendedNull(nodes, word, i + 1);
        var index := GetCharacterIndex(word[i]);
        IndexOfLetter(word[i]);
        assert LinksOk(nodes, places, node);
        assert LinkOk(nodes, places, node, MIDDLE);
        var next := nodes[node].children[MIDDLE];
        if next != NULL { FoundLetter(nodes, keys, places, next, index); }
        if index == NPOS || next == NULL { return NULL; }
        while index != nodes[next].charIndex
          invariant 0 <= next < |nodes| && Find(nodes, next, index) == Lookup(nodes, key)
          decreases |nodes| - next
        {
          assert LinksOk(nodes, places, next);
          next := if index < nodes[next].charIndex then nodes[next].children[LEFT] else nodes[next].children[RIGHT];
          if next == NULL { return NULL; }
        }
        assert LinksOk(nodes, places, next);
        node := next;
        i := i + 1;
      }
      assert word[..i] == word;
    }

    method Contains(word: string) returns (b: bool)
      requires Valid()
      ensures b == (word in WordSet())
    {
      ContainsIff(nodes, keys, places, word);
      var node := Locate(word);
      b := node != NULL && nodes[node].endWord;
    }

    // The words at and below a node and its siblings, behind those already found.
    method SearchWord(node: nat, words: seq<string>, before: string, prefix: string) returns (found: seq<string>)
      requires Valid() && 1 <= node < |nodes| && keys[node] != "" && prefix + before == Front(keys[node])
      ensures InRange(keys, Visit(nodes, node)) && found == words + Output(keys, Ends(nodes), Visit(nodes, node))
      decreases |nodes| - node
    {
      hide Visit, VisitChild, Output, LinksOk, Hangs, Found;
      HangsAsPlaced(nodes, keys, places, node);
      IndexOfLetter(Last(keys[node]));
      VisitStep(nodes, keys, places, node);
      var sequence := before + [GetCharacter(nodes[node].charIndex)];
      assert prefix + sequence == keys[node] by { assert keys[node] == Front(keys[node]) + [Last(keys[node])]; }
      found := words;
      if nodes[node].endWord { found := found + [prefix + sequence]; }
      found := SearchChild(node, MIDDLE, found, sequence, prefix);
      sequence := sequence[..|sequence| - 1];
      assert sequence == before;
      found := SearchChild(node, LEFT, found, sequence, prefix);
      found := SearchChild(node, RIGHT, found, sequence, prefix);
    }

    method SearchChild(node: nat, slot: nat, words: seq<string>, sequence: string, prefix: string)
      returns (found: seq<string>)
      requires Valid() && node < |nodes| && slot <= RIGHT && |nodes[node].children| == 3
      requires slot == MIDDLE ==> prefix + sequence == keys[node]
      requires slot != MIDDLE ==> node >= 1 && keys[node] != "" && prefix + sequence == Front(keys[node])
      ensures InRange(keys, VisitChild(nodes, node, slot))
      ensures found == words + Output(keys, Ends(nodes), VisitChild(nodes, node, slot))
      decreases |nodes| - node, 0
    {
      assert LinksOk(nodes, places, node);
      assert LinkOk(nodes, places, node, slot);
      var c := nodes[node].children[slot];
      if c != NULL {
        assert NodeOk(nodes, keys, places, c);
        found := SearchWord(c, words, sequence, prefix);
      } else {
        found := words;
      }
    }

    // Each inserted word with the prefix, exactly once.
    method Search(prefix: string) returns (words: seq<string>)
      requires Valid()
      ensures Distinct(words)
      ensures forall w :: w in words <==> w in WordSet() && prefix <= w
    {
      words := [];
      hide Words, VisitChild, Visit;
      var node := Locate(prefix);
      LookupSound(nodes, keys, places, prefix);
      if node == NULL {
        NothingBelow(nodes, keys, places, prefix);
        return;
      }
      assert LinksOk(nodes, places, node) && prefix + "" == prefix;
      if nodes[node].endWord { words := [prefix]; }
      words := SearchChild(node, MIDDLE, words, "", prefix);
      SearchResult(nodes, keys, places, node);
      assert words == WordsAt(nodes, keys, node);
    }
  }

  // After any sequence of insertions the words are those inserted that the alphabet spells.
  method InsertAll(tree: TernaryTree, words: seq<string>)
    requires tree.Valid()
    modifies tree
    ensures tree.Valid() && tree.WordSet() == old(tree.WordSet()) + set w | w in words && AllFound(w)
  {
    var i := 0;
    while i < |words|
      invariant 0 <= i <= |words| && tree.Valid()
      invariant tree.WordSet() == old(tree.WordSet()) + set w | w in words[..i] && AllFound(w)
    {
      assert words[..i + 1] == words[..i] + [words[i]];
      var _ := tree.Insert(words[i]);
      i := i + 1;
    }
    assert words[..i] == words;
  }

  // A sibling with the letter stands for the text.
  lemma SameText(nodes: seq<Node>, keys: seq<string>, places: seq<Place>, n: nat, key: string)
    requires Shape(nodes, keys, places) && 1 <= n < |nodes|
    requires keys[n] != "" && key != "" && Front(keys[n]) == Front(key)
    requires nodes[n].charIndex == GetCharacterIndex(Last(key))
    ensures keys[n] == key
  {
    hide NodeOk, Hangs, Found, GetCharacterIndex;
    HangsAsPlaced(nodes, keys, places, n);
    LetterOfIndex(Last(keys[n]), Last(key));
    assert keys[n] == Front(keys[n]) + [Last(keys[n])] && key == Front(key) + [Last(key)];
  }

  lemma ExtendedNull(nodes: seq<Node>, word: string, i: nat)
    requires 0 < i <= |word|
    ensures Lookup(nodes, word[..i]) == NULL ==> Lookup(nodes, word) == NULL
  {
    LookupNull(nodes, word, i);
  }

  lemma {:induction false} LookupNull(nodes: seq<Node>, word: string, i: nat)
    requires 0 < i <= |word|
    ensures Lookup(nodes, word[..i]) == NULL ==> Lookup(nodes, word) == NULL
    decreases |word|
  {
    if i < |word| {
      LookupNull(nodes, Front(word), i);
      assert Front(word)[..i] == word[..i];
    } else {
      assert word[..i] == word;
    }
  }

  // Only characters of the alphabet are in nodes.
  lemma FoundLetter(nodes: seq<Node>, keys: seq<string>, places: seq<Place>, x: nat, index: nat)
    requires Shape(nodes, keys, places) && 1 <= x < |nodes|
    ensures Find(nodes, x, index) != NULL ==> index <= LENGTH
  {
    FindKey(nodes, keys, places, x, index);
    var m := Find(nodes, x, index);
    if m != NULL { assert NodeOk(nodes, keys, places, m); }
  }

  // A text has a node when a node's text goes on from it.
  lemma PrefixFound(nodes: seq<Node>, keys: seq<string>, places: seq<Place>, prefix: string, n: nat)
    requires Shape(nodes, keys, places) && n < |nodes|
    ensures prefix <= keys[n] ==> Lookup(nodes, prefix) != NULL
  {
    LookupComplete(nodes, keys, places, n);
    if prefix <= keys[n] && prefix != "" {
      assert keys[n][..|prefix|] == prefix;
      LookupNull(nodes, keys[n], |prefix|);
    }
  }

  // Without a node for the prefix no word has it.
  lemma NothingBelow(nodes: seq<Node>, keys: seq<string>, places: seq<Place>, prefix: string)
    requires Shape(nodes, keys, places) && Lookup(nodes, prefix) == NULL
    ensures forall w :: w in Words(nodes, keys) ==> !(prefix <= w)
  {
    forall w | w in Words(nodes, keys) ensures !(prefix <= w) {
      var n :| 0 <= n < |nodes| && nodes[n].endWord && keys[n] == w;
      PrefixFound(nodes, keys, places, prefix, n);
    }
  }

  function WordsAt(nodes: seq<Node>, keys: seq<string>, p: nat): seq<string>
    requires |nodes| == |keys| && p < |nodes| && |nodes[p].children| == 3 && InRange(keys, VisitChild(nodes, p, MIDDLE))
  {
    (if nodes[p].endWord then [keys[p]] else []) + Output(keys, Ends(nodes), VisitChild(nodes, p, MIDDLE))
  }

  // The node of the prefix and what is below its middle link are the words with that prefix.
  lemma SearchResult(nodes: seq<Node>, keys: seq<string>, places: seq<Place>, p: nat)
    requires Shape(nodes, keys, places) && p < |nodes|
    ensures |nodes[p].children| == 3 && InRange(keys, VisitChild(nodes, p, MIDDLE))
    ensures Distinct(WordsAt(nodes, keys, p))
    ensures forall w :: w in WordsAt(nodes, keys, p) <==> w in Words(nodes, keys) && keys[p] <= w
  {
    VisitStep(nodes, keys, places, p);
    var ids := VisitChild(nodes, p, MIDDLE);
    var out := Output(keys, Ends(nodes), ids);
    ChildDistinct(nodes, keys, places, p, MIDDLE);
    forall a, b | a in ids && b in ids && keys[a] == keys[b] ensures a == b {
      LookupComplete(nodes, keys, places, a);
      LookupComplete(nodes, keys, places, b);
    }
    OutputDistinct(keys, Ends(nodes), ids);
    forall n: nat | n < |nodes| ensures n in ids <==> keys[p] <= keys[n] && n != p {
      VisitedIff(nodes, keys, places, p, n);
    }
    forall w ensures w in out <==> w in Words(nodes, keys) && keys[p] <= w && w != keys[p] {
      OutputMembers(keys, Ends(nodes), ids, w);
      OutputExtends(nodes, keys, places, p, w);
    }
    OneDistinct(keys[p]);
    KeyIsWord(nodes, keys, places, p);
    if nodes[p].endWord { DistinctConcat([keys[p]], out); } else { assert [] + out == out; }
  }

  lemma KeyIsWord(nodes: seq<Node>, keys: seq<string>, places: seq<Place>, p: nat)
    requires Shape(nodes, keys, places) && p < |nodes|
    ensures keys[p] in Words(nodes, keys) <==> nodes[p].endWord
  {
    LookupComplete(nodes, keys, places, p);
    if n: nat :| n < |nodes| && nodes[n].endWord && keys[n] == keys[p] { LookupComplete(nodes, keys, places, n); }
  }

  lemma OutputExtends(nodes: seq<Node>, keys: seq<string>, places: seq<Place>, p: nat, w: string)
    requires Shape(nodes, keys, places) && p < |nodes| && |nodes[p].children| == 3
    requires InRange(keys, VisitChild(nodes, p, MIDDLE))
    requires forall n: nat :: n < |nodes| ==> (n in VisitChild(nodes, p, MIDDLE) <==> keys[p] <= keys[n] && n != p)
    ensures w in Output(keys, Ends(nodes), VisitChild(nodes, p, MIDDLE)) <==>
      w in Words(nodes, keys) && keys[p] <= w && w != keys[p]
  {
    var ids := VisitChild(nodes, p, MIDDLE);
    OutputMembers(keys, Ends(nodes), ids, w);
    LookupComplete(nodes, keys, places, p);
    if n: nat :| n in ids && nodes[n].endWord && keys[n] == w {
      LookupComplete(nodes, keys, places, n);
      assert keys[n] in Words(nodes, keys);
    }
    if w in Words(nodes, keys) && keys[p] <= w && w != keys[p] {
      var n: nat :| 0 <= n < |nodes| && nodes[n].endWord && keys[n] == w;
      assert n in ids;
    }
  }

  lemma VisitedIff(nodes: seq<Node>, keys: seq<string>, places: seq<Place>, p: nat, n: nat)
    requires Shape(nodes, keys, places) && p < |nodes| && n < |nodes| && |nodes[p].children| == 3
    ensures n in VisitChild(nodes, p, MIDDLE) <==> keys[p] <= keys[n] && n != p
  {
    LookupComplete(nodes, keys, places, p);
    LookupComplete(nodes, keys, places, n);
    VisitChildIff(nodes, keys, places, p, n, MIDDLE);
    hide VisitChild, Lookup;
    if n >= 1 {
      assert NodeOk(nodes, keys, places, n);
      PrefixFront(keys[p], keys[n]);
      BelowOrNot(nodes, keys, places, p, n);
    }
  }

  lemma BelowOrNot(nodes: seq<Node>, keys: seq<string>, places: seq<Place>, p: nat, n: nat)
    requires Shape(nodes, keys, places) && p < |nodes| && 1 <= n < |nodes| && |nodes[p].children| == 3
    ensures keys[n] != ""
    ensures nodes[p].children[MIDDLE] > p && Below(places, n, nodes[p].children[MIDDLE]) <==> keys[p] <= Front(keys[n])
  {
    if Middle(nodes, p) > p {
      BelowMiddle(nodes, keys, places, p, n);
    } else {
      NoExtension(nodes, keys, places, p, n);
    }
  }

  lemma PrefixFront(a: string, b: string)
    requires b != ""
    ensures a <= b <==> a == b || a <= Front(b)
  {
  }

  // Without a middle child no text goes on from the node's.
  lemma {:induction false} NoExtension(nodes: seq<Node>, keys: seq<string>, places: seq<Place>, p: nat, n: nat)
    requires Shape(nodes, keys, places) && p < |nodes| && 1 <= n < |nodes| && Middle(nodes, p) <= p
    ensures keys[n] != "" && !(keys[p] <= Front(keys[n]))
    decreases n
  {
    assert NodeOk(nodes, keys, places, n);
    var z := places[n].parent;
    if z >= 1 { NoExtension(nodes, keys, places, p, z); }
    if keys[p] <= Front(keys[n]) && places[n].slot == MIDDLE { SameNode(nodes, keys, places, p, z, n); }
  }
}
