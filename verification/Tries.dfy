/**
 The trie as an object, and its search with an explicit stack of nodes and cursors.
 */
module Tries {
  import opened Alphabet
  import opened Texts
  import opened TrieShape
  import opened TrieVisit
  import opened WordLists

  datatype Frame = Frame(node: nat, cursor: nat)

  // What the stack has still to visit.
  function Remaining(nodes: seq<Node>, stack: seq<Frame>): seq<int> {
    if stack == [] then []
    else
      var top := stack[|stack| - 1];
      Post(nodes, top.node, top.cursor) + Remaining(nodes, stack[..|stack| - 1])
  }

  // The text that the stack spells: the prefix and the characters above the bottom node.
  function Spelt(nodes: seq<Node>, prefix: string, stack: seq<Frame>): string {
    if |stack| <= 1 || stack[|stack| - 1].node >= |nodes| then prefix
    else Spelt(nodes, prefix, stack[..|stack| - 1]) + [nodes[stack[|stack| - 1].node].character]
  }

  // Every frame is a node whose text is what the stack up to it spells.
  ghost predicate Path(nodes: seq<Node>, keys: seq<string>, prefix: string, stack: seq<Frame>) {
    |nodes| == |keys| && (stack == [] || (
      var top := stack[|stack| - 1];
      && top.node < |nodes| && top.cursor <= LENGTH && keys[top.node] == Spelt(nodes, prefix, stack)
      && Path(nodes, keys, prefix, stack[..|stack| - 1])))
  }

  lemma {:induction false} RemainingSize(nodes: seq<Node>, keys: seq<string>, prefix: string, stack: seq<Frame>)
    requires Shape(nodes, keys) && Path(nodes, keys, prefix, stack)
    ensures |Remaining(nodes, stack)| >= |stack| && InRange(keys, Remaining(nodes, stack))
  {
    if stack != [] {
      var top := stack[|stack| - 1];
      RemainingSize(nodes, keys, prefix, stack[..|stack| - 1]);
      PostIff(nodes, keys, top.node, top.cursor, top.node);
      PostRange(nodes, top.node, top.cursor);
      MembersInRange(keys, Post(nodes, top.node, top.cursor));
    }
  }

  // Moving the cursor of the top frame past empty links changes nothing.
  lemma TopMoved(nodes: seq<Node>, keys: seq<string>, prefix: string, stack: seq<Frame>, cursor: nat)
    requires stack != [] && Path(nodes, keys, prefix, stack) && cursor <= LENGTH
    ensures
      var top := stack[|stack| - 1];
      var stack' := stack[|stack| - 1 := Frame(top.node, cursor)];
      && Path(nodes, keys, prefix, stack') && Spelt(nodes, prefix, stack') == Spelt(nodes, prefix, stack)
      && Remaining(nodes, stack') == Post(nodes, top.node, cursor) + Remaining(nodes, stack[..|stack| - 1])
  {
    var stack' := stack[|stack| - 1 := Frame(stack[|stack| - 1].node, cursor)];
    assert stack'[..|stack| - 1] == stack[..|stack| - 1];
  }

  lemma Pushed(nodes: seq<Node>, keys: seq<string>, prefix: string, stack: seq<Frame>, child: nat)
    requires stack != [] && Path(nodes, keys, prefix, stack) && child < |nodes|
    requires keys[child] == keys[stack[|stack| - 1].node] + [nodes[child].character]
    ensures Path(nodes, keys, prefix, stack + [Frame(child, 0)])
    ensures Remaining(nodes, stack + [Frame(child, 0)]) == Post(nodes, child, 0) + Remaining(nodes, stack)
  {
    var stack' := stack + [Frame(child, 0)];
    assert stack'[..|stack'| - 1] == stack;
  }

  datatype Outcome = Inserted | Rejected | Overrun

  // The first character that is no letter is a NUL.
  ghost predicate Strays(word: string) {
    exists i :: 0 <= i < |word| && word[i] == '\0' && Spelled(word[..i])
  }

  class Trie {
    var nodes: seq<Node>
    ghost var keys: seq<string>

    ghost predicate Valid()
      reads this
    {
      Shape(nodes, keys)
    }

    // The words inserted.
    ghost function WordSet(): set<string>
      reads this
      requires Valid()
    {
      Words(nodes, keys)
    }

    constructor ()
      ensures Valid() && WordSet() == {}
    {
      nodes, keys := [Fresh('\0')], [""];
    }

    method TouchChild(node: nat, ch: char) returns (child: nat)
      requires Valid() && node < |nodes| && ch in LETTERS
      modifies this
      ensures Valid() && WordSet() == old(WordSet()) && child < |nodes| && keys[child] == old(keys[node]) + [ch]
    {
      IndexOfLetter(ch);
      LinkAt(nodes, keys, node);
      var pos := GetCharacterIndex(ch);
      assert LinkOk(nodes, keys, node, pos);
      if nodes[node].children[pos] == NULL {
        AddNode(nodes, keys, node, ch);
        child := |nodes|;
        nodes := Linked(nodes, node, ch);
        keys := keys + [keys[node] + [ch]];
      } else {
        child := nodes[node].children[pos];
      }
    }

    // A word whose first character that is no letter is not NUL is rejected, and leaves the set of
    // words as it was; a NUL in that place indexes past the links.
    method Insert(word: string) returns (r: Outcome)
      requires Valid()
      modifies this
      ensures Valid() && (r.Inserted? <==> Spelled(word)) && (r.Overrun? <==> Strays(word))
      ensures WordSet() == if r.Inserted? then old(WordSet()) + {word} else old(WordSet())
    {
      var node: nat, i := 0, 0;
      while i < |word|
        invariant Valid() && WordSet() == old(WordSet()) && 0 <= i <= |word|
        invariant node < |nodes| && keys[node] == word[..i] && Spelled(word[..i])
      {
        IndexOfLetter(word[i]);
        LinkAt(nodes, keys, node);
        FirstStray(word, i);
        var pos := GetCharacterIndex(word[i]);
        if pos == NPOS { return Rejected; }
        if pos >= |nodes[node].children| { return Overrun; }
        node := TouchChild(node, word[i]);
        assert word[..i + 1] == word[..i] + [word[i]];
        i := i + 1;
      }
      assert word[..i] == word;
      MarkEnd(nodes, keys, node);
      nodes := nodes[node := nodes[node].(lastOfWord := true)];
      r := Inserted;
    }

    // The node of a text, or none; `overrun` when the walk meets a NUL, which has no link.
    method Locate(word: string) returns (node: int, overrun: bool)
      requires Valid()
      ensures node == Lookup(nodes, word) && (node == NULL || 0 <= node < |nodes|)
      ensures overrun <==> Overruns(nodes, word)
      ensures overrun ==> node == NULL
    {
      node, overrun := 0, false;
      var i := 0;
      while i < |word|
        invariant 0 <= i <= |word| && node == Lookup(nodes, word[..i]) && 0 <= node < |nodes| && !overrun
        invariant forall j :: 0 <= j < i ==> word[j] != '\0'
      {
        ghost var key := word[..i + 1];
        assert Front(key) == word[..i] && Last(key) == word[i];
        LookupNull(nodes, word, i + 1);
        IndexOfLetter(word[i]);
        LinkAt(nodes, keys, node);
        var pos := GetCharacterIndex(word[i]);
        if pos != LENGTH && Child(nodes, node, word[i]) == NULL { NoOverrun(nodes, word, i); }
        if pos == NPOS { return NULL, false; }
        if pos >= |nodes[node].children| { return NULL, true; }
        assert LinkOk(nodes, keys, node, pos);
        var child := nodes[node].children[pos];
        if child == NULL { return NULL, false; }
        node := child;
        i := i + 1;
      }
      assert word[..i] == word;
    }

    // Unless the walk overruns, the answer is membership.
    method Contains(word: string) returns (b: bool, overrun: bool)
      requires Valid()
      ensures overrun <==> Overruns(nodes, word)
      ensures !overrun ==> b == (word in WordSet())
    {
      ContainsIff(nodes, keys, word);
      var node;
      node, overrun := Locate(word);
      b := node != NULL && nodes[node].lastOfWord;
    }

    // The next child from the cursor on, or none when the links are exhausted.
    method NextChild(node: nat, start: nat) returns (cursor: nat, child: int)
      requires Valid() && node < |nodes| && start <= LENGTH
      ensures start <= cursor <= LENGTH
      ensures child == NULL ==> cursor == LENGTH && Post(nodes, node, start) == [node]
      ensures child != NULL ==>
        && 0 <= child < |nodes| && keys[child] == keys[node] + [nodes[child].character]
        && Post(nodes, node, start) == Post(nodes, child, 0) + Post(nodes, node, cursor)
    {
      hide Post;
      LinkAt(nodes, keys, node);
      FromEnd(nodes, keys, node, node);
      cursor := start;
      while cursor < |nodes[node].children|
        invariant start <= cursor <= LENGTH && Post(nodes, node, cursor) == Post(nodes, node, start)
      {
        PostStep(nodes, node, cursor);
        assert LinkOk(nodes, keys, node, cursor);
        child := nodes[node].children[cursor];
        cursor := cursor + 1;
        if child != NULL {
          assert NodeOk(nodes, keys, child);
          return;
        }
        assert [] + Post(nodes, node, cursor) == Post(nodes, node, cursor);
      }
      child := NULL;
    }

    // The word at the top of the stack.
    method SpellStack(prefix: string, stack: seq<Frame>) returns (word: string)
      requires Valid() && Path(nodes, keys, prefix, stack) && stack != []
      ensures word == keys[stack[|stack| - 1].node]
    {
      word := prefix;
      var i := 1;
      while i < |stack|
        invariant 1 <= i <= |stack| && word == Spelt(nodes, prefix, stack[..i])
      {
        assert stack[..i + 1][..i] == stack[..i];
        PathUpTo(nodes, keys, prefix, stack, i + 1);
        word := word + [nodes[stack[i].node].character];
        i := i + 1;
      }
      assert stack[..i] == stack;
    }

    // Each inserted word with the prefix, exactly once.
    method Search(prefix: string) returns (words: seq<string>, overrun: bool)
      requires Valid()
      ensures overrun <==> Overruns(nodes, prefix)
      ensures Distinct(words)
      ensures !overrun ==> forall w :: w in words <==> w in WordSet() && prefix <= w
    {
      hide Words, Post, Remaining, Spelt, Shape, Output, Lookup, Path, Overruns;
      words := [];
      var node;
      node, overrun := Locate(prefix);
      LookupSound(nodes, keys, prefix);
      if node == NULL {
        NothingBelow(nodes, keys, prefix);
        return;
      }
      var stack := [Frame(node, 0)];
      StartStack(nodes, keys, prefix, node);
      while stack != []
        invariant Path(nodes, keys, prefix, stack) && InRange(keys, Remaining(nodes, stack))
        invariant words + Output(keys, Ends(nodes), Remaining(nodes, stack)) == WordsFrom(nodes, keys, node)
        decreases |Remaining(nodes, stack)|, |Remaining(nodes, stack)| - |stack|
      {
        var last := |stack| - 1;
        PathTop(nodes, keys, prefix, stack);
        RemainingSize(nodes, keys, prefix, stack);
        var cursor, child := NextChild(stack[last].node, stack[last].cursor);
        TopMoved(nodes, keys, prefix, stack, cursor);
        ghost var before := stack;
        stack := stack[last := Frame(stack[last].node, cursor)];
        if child != NULL {
          Pushed(nodes, keys, prefix, stack, child);
          PushKeeps(nodes, before, child, cursor);
          stack := stack + [Frame(child, 0)];
          RemainingSize(nodes, keys, prefix, stack);
        } else {
          PopLeaves(nodes, keys, prefix, before);
          OutputFirst(keys, Ends(nodes), before[last].node, Remaining(nodes, before[..last]), words);
          PathTop(nodes, keys, prefix, stack);
          if nodes[stack[last].node].lastOfWord {
            var word := SpellStack(prefix, stack);
            words := words + [word];
          }
          stack := stack[..last];
          assert stack == before[..last];
        }
      }
      NothingRemains(nodes, keys);
      assert words + [] == words;
      SearchResult(nodes, keys, node);
    }
  }

  // After any sequence of insertions, stopped by one that overruns, the words are those inserted
  // that are made of letters.
  method InsertAll(tree: Trie, words: seq<string>) returns (done: nat)
    requires tree.Valid()
    modifies tree
    ensures tree.Valid() && done <= |words| && forall i :: 0 <= i < done ==> !Strays(words[i])
    ensures done < |words| ==> Strays(words[done])
    ensures tree.WordSet() == old(tree.WordSet()) + set w | w in words[..done] && Spelled(w)
  {
    var i := 0;
    while i < |words|
      invariant 0 <= i <= |words| && tree.Valid() && forall j :: 0 <= j < i ==> !Strays(words[j])
      invariant tree.WordSet() == old(tree.WordSet()) + set w | w in words[..i] && Spelled(w)
    {
      assert words[..i + 1] == words[..i] + [words[i]];
      var r := tree.Insert(words[i]);
      if r.Overrun? { return i; }
      i := i + 1;
    }
    return i;
  }

  // Only the first character that is no letter decides.
  lemma FirstStray(word: string, i: nat)
    requires i < |word| && Spelled(word[..i])
    ensures word[i] !in LETTERS ==> !Spelled(word) && (Strays(word) <==> word[i] == '\0')
  {
    if word[i] !in LETTERS {
      if j :| 0 <= j < |word| && word[j] == '\0' && Spelled(word[..j]) {
        assert j < i ==> word[..i][j] in LETTERS;
        assert i < j ==> word[..j][i] in LETTERS;
      }
    }
  }

  // A walk that ends at a missing link, or a character without one, has met no NUL.
  lemma NoOverrun(nodes: seq<Node>, word: string, i: nat)
    requires i < |word| && Lookup(nodes, word[..i]) != NULL && Child(nodes, Lookup(nodes, word[..i]), word[i]) == NULL
    requires forall j :: 0 <= j <= i ==> word[j] != '\0'
    ensures !Overruns(nodes, word)
  {
    assert Front(word[..i + 1]) == word[..i] && Last(word[..i + 1]) == word[i];
    forall j | i < j < |word| ensures Lookup(nodes, word[..j]) == NULL {
      LookupNull(nodes, word[..j], i + 1);
      assert word[..j][..i + 1] == word[..i + 1];
    }
  }

  lemma {:induction false} PathUpTo(nodes: seq<Node>, keys: seq<string>, prefix: string, stack: seq<Frame>, i: nat)
    requires Path(nodes, keys, prefix, stack) && i <= |stack|
    ensures Path(nodes, keys, prefix, stack[..i])
    decreases |stack|
  {
    if i < |stack| {
      PathUpTo(nodes, keys, prefix, stack[..|stack| - 1], i);
      assert stack[..|stack| - 1][..i] == stack[..i];
    } else {
      assert stack[..i] == stack;
    }
  }

  lemma PathTop(nodes: seq<Node>, keys: seq<string>, prefix: string, stack: seq<Frame>)
    requires Path(nodes, keys, prefix, stack) && stack != []
    ensures
      var top := stack[|stack| - 1];
      top.node < |nodes| == |keys| && top.cursor <= LENGTH && Path(nodes, keys, prefix, stack[..|stack| - 1])
  {
  }

  lemma NothingRemains(nodes: seq<Node>, keys: seq<string>)
    ensures Remaining(nodes, []) == [] && Output(keys, Ends(nodes), []) == []
  {
  }

  lemma PushKeeps(nodes: seq<Node>, stack: seq<Frame>, child: nat, cursor: nat)
    requires stack != []
    requires
      var top := stack[|stack| - 1];
      Post(nodes, top.node, top.cursor) == Post(nodes, child, 0) + Post(nodes, top.node, cursor)
    ensures
      var top, rest := stack[|stack| - 1], Remaining(nodes, stack[..|stack| - 1]);
      Remaining(nodes, stack) == Post(nodes, child, 0) + (Post(nodes, top.node, cursor) + rest)
  {
    hide Post;
  }

  lemma PopLeaves(nodes: seq<Node>, keys: seq<string>, prefix: string, stack: seq<Frame>)
    requires Shape(nodes, keys) && Path(nodes, keys, prefix, stack) && stack != []
    requires Post(nodes, stack[|stack| - 1].node, stack[|stack| - 1].cursor) == [stack[|stack| - 1].node]
    ensures Remaining(nodes, stack) == [stack[|stack| - 1].node] + Remaining(nodes, stack[..|stack| - 1])
    ensures InRange(keys, Remaining(nodes, stack[..|stack| - 1]))
  {
    hide Post;
    RemainingSize(nodes, keys, prefix, stack[..|stack| - 1]);
  }

  lemma OutputFirst(keys: seq<string>, ends: set<int>, n: nat, rest: seq<int>, words: seq<string>)
    requires n < |keys| && InRange(keys, rest)
    ensures InRange(keys, [n] + rest)
    ensures words + Output(keys, ends, [n] + rest)
      == (if n in ends then words + [keys[n]] else words) + Output(keys, ends, rest)
  {
    assert ([n] + rest)[1..] == rest;
  }

  ghost function WordsFrom(nodes: seq<Node>, keys: seq<string>, p: nat): seq<string> {
    if InRange(keys, Post(nodes, p, 0)) then Output(keys, Ends(nodes), Post(nodes, p, 0)) else []
  }

  lemma StartStack(nodes: seq<Node>, keys: seq<string>, prefix: string, p: nat)
    requires Shape(nodes, keys) && p < |nodes| && keys[p] == prefix
    ensures Path(nodes, keys, prefix, [Frame(p, 0)]) && Remaining(nodes, [Frame(p, 0)]) == Post(nodes, p, 0)
    ensures InRange(keys, Post(nodes, p, 0)) &&
      Output(keys, Ends(nodes), Post(nodes, p, 0)) == WordsFrom(nodes, keys, p)
  {
    PostRange(nodes, p, 0);
    MembersInRange(keys, Post(nodes, p, 0));
    assert Post(nodes, p, 0) + [] == Post(nodes, p, 0);
  }

  lemma PrefixFound(nodes: seq<Node>, keys: seq<string>, prefix: string, n: nat)
    requires Shape(nodes, keys) && n < |nodes|
    ensures prefix <= keys[n] ==> Lookup(nodes, prefix) != NULL
  {
    LookupComplete(nodes, keys, n);
    if prefix <= keys[n] && prefix != "" {
      assert keys[n][..|prefix|] == prefix;
      LookupNull(nodes, keys[n], |prefix|);
    }
  }

  // Without a node for the prefix no word has it.
  lemma NothingBelow(nodes: seq<Node>, keys: seq<string>, prefix: string)
    requires Shape(nodes, keys) && Lookup(nodes, prefix) == NULL
    ensures forall w :: w in Words(nodes, keys) ==> !(prefix <= w)
  {
    forall w | w in Words(nodes, keys) ensures !(prefix <= w) {
      var n :| 0 <= n < |nodes| && nodes[n].lastOfWord && keys[n] == w;
      PrefixFound(nodes, keys, prefix, n);
    }
  }

  // What the traversal from the node of a text outputs are the words with that prefix.
  lemma SearchResult(nodes: seq<Node>, keys: seq<string>, p: nat)
    requires Shape(nodes, keys) && p < |nodes|
    ensures Distinct(WordsFrom(nodes, keys, p))
    ensures forall w :: w in WordsFrom(nodes, keys, p) <==> w in Words(nodes, keys) && keys[p] <= w
  {
    var ids := Post(nodes, p, 0);
    PostRange(nodes, p, 0);
    MembersInRange(keys, ids);
    PostDistinct(nodes, keys, p, 0);
    forall a, b | a in ids && b in ids && keys[a] == keys[b] ensures a == b {
      LookupComplete(nodes, keys, a);
      LookupComplete(nodes, keys, b);
    }
    OutputDistinct(keys, Ends(nodes), ids);
    forall n: nat | n < |nodes| ensures n in ids <==> keys[p] <= keys[n] {
      PostIff(nodes, keys, p, 0, n);
      LookupComplete(nodes, keys, p);
      LookupComplete(nodes, keys, n);
      assert keys[p] <= keys[n] ==> keys[p] == keys[n] || keys[p] < keys[n];
    }
    forall w ensures w in WordsFrom(nodes, keys, p) <==> w in Words(nodes, keys) && keys[p] <= w {
      OutputMembers(keys, Ends(nodes), ids, w);
      if n: nat :| n in ids && n in Ends(nodes) && keys[n] == w { assert keys[n] in Words(nodes, keys); }
      if w in Words(nodes, keys) && keys[p] <= w {
        var n: nat :| 0 <= n < |nodes| && nodes[n].lastOfWord && keys[n] == w;
        assert n in ids;
      }
    }
  }
}
