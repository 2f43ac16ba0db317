/**
 The order in which the explicit stack of the search leaves the nodes below one.
 */
module TrieVisit {
  import opened Alphabet
  import opened Texts
  import opened TrieShape
  import opened WordLists

  // Everything below `n` through the links from `pos` on, then `n` itself.
  function Post(nodes: seq<Node>, n: int, pos: nat): seq<int>
    decreases |nodes| - n, LENGTH - pos
  {
    if n < 0 || n >= |nodes| || |nodes[n].children| != LENGTH then []
    else if pos >= LENGTH then [n]
    else
      (if nodes[n].children[pos] <= n then [] else Post(nodes, nodes[n].children[pos], 0)) + Post(nodes, n, pos + 1)
  }

  // Only nodes of the arena, from the start on, are reached.
  lemma {:induction false} PostRange(nodes: seq<Node>, n: int, pos: nat)
    ensures forall y :: y in Post(nodes, n, pos) ==> 0 <= n <= y < |nodes|
    decreases |nodes| - n, LENGTH - pos
  {
    if 0 <= n < |nodes| && |nodes[n].children| == LENGTH && pos < LENGTH {
      if nodes[n].children[pos] > n { PostRange(nodes, nodes[n].children[pos], 0); }
      PostRange(nodes, n, pos + 1);
    }
  }

  // `y`'s text goes on from `n`'s with a letter from position `pos` on, or is the same.
  ghost predicate From(keys: seq<string>, n: nat, pos: nat, y: nat)
    requires n < |keys| && y < |keys|
  {
    y == n || (keys[n] < keys[y] && GetCharacterIndex(keys[y][|keys[n]|]) >= pos)
  }

  lemma {:induction false} PostIff(nodes: seq<Node>, keys: seq<string>, n: nat, pos: nat, y: nat)
    requires Shape(nodes, keys) && n < |nodes| && y < |nodes| && pos <= LENGTH
    ensures y in Post(nodes, n, pos) <==> From(keys, n, pos, y)
    decreases |nodes| - n, LENGTH - pos
  {
    hide Shape, From, Post;
    LinkAt(nodes, keys, n);
    if pos < LENGTH {
      PostStep(nodes, n, pos);
      PostIff(nodes, keys, n, pos + 1, y);
      var c := nodes[n].children[pos];
      if c > n {
        assert LinkOk(nodes, keys, n, pos);
        PostIff(nodes, keys, c, 0, y);
      }
      ThroughLink(nodes, keys, n, pos, y);
      FromStep(keys, n, pos, y);
    } else {
      FromEnd(nodes, keys, n, y);
    }
  }

  lemma LinkAt(nodes: seq<Node>, keys: seq<string>, n: nat)
    requires Shape(nodes, keys) && n < |nodes|
    ensures |nodes| == |keys| && LinksOk(nodes, keys, n)
  {
  }

  lemma FromStep(keys: seq<string>, n: nat, pos: nat, y: nat)
    requires n < |keys| && y < |keys|
    ensures From(keys, n, pos, y) <==>
      From(keys, n, pos + 1, y) || (keys[n] < keys[y] && GetCharacterIndex(keys[y][|keys[n]|]) == pos)
  {
  }

  lemma FromEnd(nodes: seq<Node>, keys: seq<string>, n: nat, y: nat)
    requires Shape(nodes, keys) && n < |nodes| && y < |nodes|
    ensures Post(nodes, n, LENGTH) == [n] && (From(keys, n, LENGTH, y) <==> y == n)
  {
    LinkAt(nodes, keys, n);
    LettersOnly(nodes, keys, n, y);
  }

  lemma PostStep(nodes: seq<Node>, n: nat, pos: nat)
    requires n < |nodes| && |nodes[n].children| == LENGTH && pos < LENGTH
    ensures
      var c := nodes[n].children[pos];
      Post(nodes, n, pos) == (if c <= n then [] else Post(nodes, c, 0)) + Post(nodes, n, pos + 1)
  {
  }

  // The letter after a node's text is a letter of the alphabet.
  lemma {:induction false} LettersOnly(nodes: seq<Node>, keys: seq<string>, n: nat, y: nat)
    requires Shape(nodes, keys) && n < |nodes| && y < |nodes|
    ensures keys[n] < keys[y] ==> GetCharacterIndex(keys[y][|keys[n]|]) < LENGTH && keys[y][|keys[n]|] in LETTERS
    decreases |keys[y]|
  {
    if keys[n] < keys[y] {
      assert NodeOk(nodes, keys, y);
      var p: nat :| Hangs(nodes, keys, y, p);
      LettersOnly(nodes, keys, n, p);
      IndexOfLetter(Last(keys[y]));
      if |keys[n]| < |keys[y]| - 1 { assert keys[n] <= keys[p] && keys[p][|keys[n]|] == keys[y][|keys[n]|]; }
    }
  }

  // Texts that go on with the letter of a link are those at and below the link's node.
  lemma ThroughLink(nodes: seq<Node>, keys: seq<string>, n: nat, pos: nat, y: nat)
    requires Shape(nodes, keys) && n < |nodes| && y < |nodes| && pos < LENGTH && |nodes[n].children| == LENGTH
    ensures
      var c := nodes[n].children[pos];
      (c > n && c < |nodes| && From(keys, c, 0, y)) <==>
        (keys[n] < keys[y] && GetCharacterIndex(keys[y][|keys[n]|]) == pos)
  {
    var c := nodes[n].children[pos];
    LinkAt(nodes, keys, n);
    assert LinkOk(nodes, keys, n, pos);
    LettersOnly(nodes, keys, n, y);
    IndexAt(pos);
    PrefixExtended(keys[n], GetCharacter(pos), keys[y]);
    if keys[n] < keys[y] && GetCharacterIndex(keys[y][|keys[n]|]) == pos {
      LinkThere(nodes, keys, n, pos, y);
      LookupComplete(nodes, keys, c);
      LookupComplete(nodes, keys, y);
      assert keys[c] <= keys[y];
      assert |keys[c]| == |keys[y]| ==> keys[c] == keys[y];
    }
    if c > n && From(keys, c, 0, y) {
      assert keys[n] + [GetCharacter(pos)] <= keys[y];
    }
  }

  lemma PrefixExtended(a: string, ch: char, b: string)
    ensures a + [ch] <= b <==> a < b && b[|a|] == ch
  {
    if a < b && b[|a|] == ch { assert b[..|a| + 1] == a + [ch]; }
    if a + [ch] <= b { assert a == (a + [ch])[..|a|] == b[..|a|]; }
  }

  lemma LinkThere(nodes: seq<Node>, keys: seq<string>, n: nat, pos: nat, y: nat)
    requires Shape(nodes, keys) && n < |nodes| && y < |nodes| && pos < LENGTH && |nodes[n].children| == LENGTH
    requires keys[n] < keys[y] && GetCharacterIndex(keys[y][|keys[n]|]) == pos
    ensures n < nodes[n].children[pos] < |nodes| && keys[nodes[n].children[pos]] == keys[y][..|keys[n]| + 1]
  {
    var ch, w := keys[y][|keys[n]|], keys[y][..|keys[n]| + 1];
    IndexOfLetter(ch);
    assert w == keys[n] + [ch] && Front(w) == keys[n] && Last(w) == ch;
    LookupComplete(nodes, keys, y);
    LookupNull(nodes, keys[y], |w|);
    LookupComplete(nodes, keys, n);
    LinkAt(nodes, keys, n);
    assert LinkOk(nodes, keys, n, pos);
  }

  lemma IndexAt(pos: nat)
    requires pos < LENGTH
    ensures GetCharacterIndex(GetCharacter(pos)) == pos
  {
    assert pos < 26 ==> LETTERS[pos] == 'a' + pos as char;
  }

  lemma {:induction false} LookupNull(nodes: seq<Node>, word: string, i: nat)
    requires 0 < i <= |word|
    ensures Lookup(nodes, word[..i]) == NULL ==> Lookup(nodes, word) == NULL
    decreases |word|
  {
    if i < |word| {
      LookupNull(nodes, Front(word), i);
      assert Front(word)[..i] == word[..i];
    } else {
      assert word[..i] == word;
    }
  }

  lemma {:induction false} PostDistinct(nodes: seq<Node>, keys: seq<string>, n: nat, pos: nat)
    requires Shape(nodes, keys) && n < |nodes| && pos <= LENGTH
    ensures Distinct(Post(nodes, n, pos))
    decreases |nodes| - n, LENGTH - pos
  {
    assert LinksOk(nodes, keys, n);
    if pos < LENGTH {
      assert LinkOk(nodes, keys, n, pos);
      var c := nodes[n].children[pos];
      var below := if c <= n then [] else Post(nodes, c, 0);
      if c > n {
        PostDistinct(nodes, keys, c, 0);
        PostRange(nodes, c, 0);
        forall y | y in below ensures y !in Post(nodes, n, pos + 1) {
          PostIff(nodes, keys, c, 0, y);
          PostIff(nodes, keys, n, pos + 1, y);
          ThroughLink(nodes, keys, n, pos, y);
        }
      }
      PostDistinct(nodes, keys, n, pos + 1);
      DistinctConcat(below, Post(nodes, n, pos + 1));
    }
  }
}
