/**
 Lists of texts without repeats, and the texts of the nodes that a traversal passes.
 */
module WordLists {

  // ---------------------------------------------------------------- lists without repeats

  ghost predicate Distinct<T>(s: seq<T>) { forall i, j :: 0 <= i < j < |s| ==> s[i] != s[j] }

  lemma DistinctConcat<T>(s: seq<T>, t: seq<T>)
    requires Distinct(s) && Distinct(t) && forall x :: x in s ==> x !in t
    ensures Distinct(s + t)
  {
    forall i, j | 0 <= i < j < |s + t| ensures (s + t)[i] != (s + t)[j] {
      if i < |s| <= j { assert s[i] in s && t[j - |s|] in t; }
    }
  }

  lemma OneDistinct<T>(x: T)
    ensures Distinct([x])
  {
  }

  // ---------------------------------------------------------------- what a traversal finds

  predicate InRange(keys: seq<string>, ids: seq<int>) { forall i :: 0 <= i < |ids| ==> 0 <= ids[i] < |keys| }

  lemma MembersInRange(keys: seq<string>, ids: seq<int>)
    requires forall y :: y in ids ==> 0 <= y < |keys|
    ensures InRange(keys, ids)
  {
    forall i | 0 <= i < |ids| ensures 0 <= ids[i] < |keys| { assert ids[i] in ids; }
  }

  // The texts of the visited nodes that end a word, in the order of the visit.
  function Output(keys: seq<string>, ends: set<int>, ids: seq<int>): seq<string>
    requires InRange(keys, ids)
  {
    if ids == [] then []
    else (if ids[0] in ends then [keys[ids[0]]] else []) + Output(keys, ends, ids[1..])
  }

  lemma {:induction false} OutputConcat(keys: seq<string>, ends: set<int>, a: seq<int>, b: seq<int>)
    requires InRange(keys, a) && InRange(keys, b)
    ensures Output(keys, ends, a + b) == Output(keys, ends, a) + Output(keys, ends, b)
  {
    if a == [] {
      assert a + b == b;
    } else {
      assert (a + b)[1..] == a[1..] + b;
      OutputConcat(keys, ends, a[1..], b);
    }
  }

  lemma {:induction false} OutputMembers(keys: seq<string>, ends: set<int>, ids: seq<int>, w: string)
    requires InRange(keys, ids)
    ensures w in Output(keys, ends, ids) <==> exists n :: n in ids && n in ends && keys[n] == w
  {
    if ids != [] {
      OutputMembers(keys, ends, ids[1..], w);
      if n :| n in ids && n in ends && keys[n] == w {
        assert n == ids[0] || n in ids[1..];
      }
      if w in Output(keys, ends, ids) {
        if w in Output(keys, ends, ids[1..]) {
          var n :| n in ids[1..] && n in ends && keys[n] == w;
          assert n in ids;
        } else {
          assert ids[0] in ids;
        }
      }
    }
  }

  // Different nodes with different texts give a list without repeats.
  lemma {:induction false} OutputDistinct(keys: seq<string>, ends: set<int>, ids: seq<int>)
    requires InRange(keys, ids) && Distinct(ids)
    requires forall a, b :: a in ids && b in ids && keys[a] == keys[b] ==> a == b
    ensures Distinct(Output(keys, ends, ids))
  {
    if ids != [] {
      var first, rest := keys[ids[0]], ids[1..];
      assert forall i :: 0 <= i < |rest| ==> rest[i] in ids && rest[i] != ids[0];
      OutputDistinct(keys, ends, rest);
      OutputMembers(keys, ends, rest, first);
      OneDistinct(first);
      if ids[0] in ends { DistinctConcat([first], Output(keys, ends, rest)); }
    }
  }

  lemma OutputParts(keys: seq<string>, ends: set<int>, n: nat, m: seq<int>, l: seq<int>, r: seq<int>)
    requires n < |keys| && InRange(keys, m) && InRange(keys, l) && InRange(keys, r)
    ensures InRange(keys, [n] + m + l + r)
    ensures
      Output(keys, ends, [n] + m + l + r)
      == (if n in ends then [keys[n]] else []) + Output(keys, ends, m) + Output(keys, ends, l) + Output(keys, ends, r)
  {
    OutputConcat(keys, ends, [n], m);
    OutputConcat(keys, ends, [n] + m, l);
    OutputConcat(keys, ends, [n] + m + l, r);
  }
}
