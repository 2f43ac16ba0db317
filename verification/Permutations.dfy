/**
 Enumerating the arrangements of an array in lexicographic order by repeatedly stepping, in place,
 to the next one.
 */
module Permutations {

  // ---------------------------------------------------------------- order and arrangements

  // `s` comes before `t`, of the same length: smaller where they first differ.
  predicate Less(s: seq<int>, t: seq<int>) {
    s != [] && t != [] && (s[0] < t[0] || (s[0] == t[0] && Less(s[1..], t[1..])))
  }

  ghost predicate Rearranged(s: seq<int>, t: seq<int>) { multiset(s) == multiset(t) }

  predicate Ascending(s: seq<int>) { forall i :: 0 <= i < |s| - 1 ==> s[i] <= s[i + 1] }

  predicate Descending(s: seq<int>) { forall i :: 0 <= i < |s| - 1 ==> s[i] >= s[i + 1] }

  // `n` is the least arrangement of the elements of `s` that comes after `s`.
  ghost predicate Successor(s: seq<int>, n: seq<int>) {
    Rearranged(s, n) && Less(s, n) && forall t :: Rearranged(s, t) && Less(s, t) ==> t == n || Less(n, t)
  }

  ghost predicate Greatest(s: seq<int>) { forall t :: Rearranged(s, t) ==> !Less(s, t) }

  lemma {:induction false} LessIrreflexive(s: seq<int>)
    ensures !Less(s, s)
  {
    if s != [] { LessIrreflexive(s[1..]); }
  }

  lemma {:induction false} LessTransitive(s: seq<int>, t: seq<int>, u: seq<int>)
    requires Less(s, t) && Less(t, u)
    ensures Less(s, u)
  {
    if s[0] == t[0] && t[0] == u[0] { LessTransitive(s[1..], t[1..], u[1..]); }
  }

  lemma {:induction false} LessTotal(s: seq<int>, t: seq<int>)
    requires |s| == |t| && s != t
    ensures Less(s, t) || Less(t, s)
  {
    if s[0] == t[0] {
      assert s == [s[0]] + s[1..] && t == [t[0]] + t[1..];
      LessTotal(s[1..], t[1..]);
    }
  }

  // A common prefix does not matter.
  lemma {:induction false} LessPrefix(p: seq<int>, s: seq<int>, t: seq<int>)
    ensures Less(p + s, p + t) <==> Less(s, t)
  {
    if p == [] {
      assert p + s == s && p + t == t;
    } else {
      assert (p + s)[1..] == p[1..] + s && (p + t)[1..] == p[1..] + t;
      LessPrefix(p[1..], s, t);
    }
  }

  lemma RearrangedTail(x: int, s: seq<int>, t: seq<int>)
    ensures Rearranged([x] + s, [x] + t) <==> Rearranged(s, t)
  {
    assert multiset([x] + s) == multiset{x} + multiset(s) && multiset([x] + t) == multiset{x} + multiset(t);
    assert Rearranged([x] + s, [x] + t) ==> multiset(s) == multiset([x] + s) - multiset{x};
    assert Rearranged([x] + s, [x] + t) ==> multiset(t) == multiset([x] + t) - multiset{x};
  }

  lemma SameMembers(s: seq<int>, t: seq<int>)
    requires Rearranged(s, t)
    ensures |s| == |t| && forall x :: x in s <==> x in t
  {
    assert |multiset(s)| == |s| && |multiset(t)| == |t|;
    forall x ensures x in s <==> x in t { assert x in s <==> x in multiset(s); }
  }

  lemma {:induction false} AscendingFirst(s: seq<int>, i: nat)
    requires Ascending(s) && i < |s|
    ensures s[0] <= s[i]
  {
    if i > 0 { AscendingFirst(s, i - 1); }
  }

  lemma {:induction false} DescendingFirst(s: seq<int>, i: nat)
    requires Descending(s) && i < |s|
    ensures s[i] <= s[0]
  {
    if i > 0 { DescendingFirst(s, i - 1); }
  }

  // Rising order is the first arrangement, falling order the last one.
  lemma {:induction false} AscendingLeast(s: seq<int>, t: seq<int>)
    requires Ascending(s) && Rearranged(s, t)
    ensures s == t || Less(s, t)
  {
    SameMembers(s, t);
    if s != [] {
      var first := t[0];
      assert first in t;
      var i :| 0 <= i < |s| && s[i] == first;
      AscendingFirst(s, i);
      if s[0] == t[0] {
        assert s == [s[0]] + s[1..] && t == [t[0]] + t[1..];
        RearrangedTail(s[0], s[1..], t[1..]);
        AscendingLeast(s[1..], t[1..]);
      }
    }
  }

  lemma {:induction false} DescendingGreatest(s: seq<int>, t: seq<int>)
    requires Descending(s) && Rearranged(s, t)
    ensures !Less(s, t)
  {
    SameMembers(s, t);
    if s != [] {
      var first := t[0];
      assert first in t;
      var i :| 0 <= i < |s| && s[i] == first;
      DescendingFirst(s, i);
      if s[0] == t[0] {
        assert s == [s[0]] + s[1..] && t == [t[0]] + t[1..];
        RearrangedTail(s[0], s[1..], t[1..]);
        DescendingGreatest(s[1..], t[1..]);
      }
    }
  }

  // ---------------------------------------------------------------- one step

  // What the step makes of the part from the last ascent on: `x` is followed by a falling tail,
  // whose least element above `x` is `y`.
  ghost predicate Pivot(x: int, tail: seq<int>, y: int, rest: seq<int>) {
    && Descending(tail) && Ascending(rest) && x < y
    && Rearranged([x] + tail, [y] + rest)
    && forall z :: z in tail && x < z ==> y <= z
  }

  lemma PivotSuccessor(x: int, tail: seq<int>, y: int, rest: seq<int>)
    requires Pivot(x, tail, y, rest)
    ensures Successor([x] + tail, [y] + rest)
  {
    var s, n := [x] + tail, [y] + rest;
    forall t | Rearranged(s, t) && Less(s, t) ensures t == n || Less(n, t) {
      SameMembers(s, t);
      assert t == [t[0]] + t[1..] && s[1..] == tail && n[1..] == rest;
      if t[0] == x {
        RearrangedTail(x, tail, t[1..]);
        DescendingGreatest(tail, t[1..]);
      } else {
        assert t[0] in s && t[0] in tail;
        if t[0] == y {
          RearrangedTail(y, rest, t[1..]);
          AscendingLeast(rest, t[1..]);
        }
      }
    }
  }

  // Elements in front of the changed part stay.
  lemma {:induction false} SuccessorPrefix(p: seq<int>, s: seq<int>, n: seq<int>)
    requires Successor(s, n)
    ensures Successor(p + s, p + n)
    decreases |p|
  {
    hide Successor;
    if p == [] {
      assert p + s == s && p + n == n;
    } else {
      assert p == [p[0]] + p[1..];
      SuccessorPrefix(p[1..], s, n);
      SuccessorCons(p[0], p[1..] + s, p[1..] + n);
      assert p + s == [p[0]] + (p[1..] + s) && p + n == [p[0]] + (p[1..] + n);
    }
  }

  lemma SuccessorCons(x: int, s: seq<int>, n: seq<int>)
    requires Successor(s, n)
    ensures Successor([x] + s, [x] + n)
  {
    RearrangedTail(x, s, n);
    LessPrefix([x], s, n);
    forall t | Rearranged([x] + s, t) && Less([x] + s, t) ensures t == [x] + n || Less([x] + n, t) {
      assert ([x] + s)[1..] == s && ([x] + n)[1..] == n && t == [t[0]] + t[1..];
      if t[0] == x { RearrangedTail(x, s, t[1..]); }
    }
  }

  // ---------------------------------------------------------------- the step in place

  function Reversed(s: seq<int>): (r: seq<int>)
    ensures |r| == |s| && forall i :: 0 <= i < |s| ==> r[i] == s[|s| - 1 - i]
  {
    if s == [] then [] else Reversed(s[1..]) + [s[0]]
  }

  lemma {:induction false} ReversedRearranged(s: seq<int>)
    ensures Rearranged(s, Reversed(s))
  {
    if s != [] {
      ReversedRearranged(s[1..]);
      assert s == [s[0]] + s[1..];
    }
  }

  lemma ReversedAscends(s: seq<int>)
    requires Descending(s)
    ensures Ascending(Reversed(s))
  {
    var r := Reversed(s);
    forall i | 0 <= i < |r| - 1 ensures r[i] <= r[i + 1] {
      assert s[|s| - 2 - i] >= s[|s| - 2 - i + 1];
    }
  }

  method ReverseFrom(a: array<int>, start: nat)
    requires start <= a.Length
    modifies a
    ensures a[..] == old(a[..])[..start] + Reversed(old(a[..])[start..])
  {
    var lo, hi := start, a.Length;
    while lo + 1 < hi
      invariant start <= lo <= a.Length && start <= hi <= a.Length && lo - start == a.Length - hi && lo <= hi
      invariant forall i :: 0 <= i < start || lo <= i < hi ==> a[i] == old(a[i])
      invariant forall i :: start <= i < lo || hi <= i < a.Length ==> a[i] == old(a[start + a.Length - 1 - i])
    {
      hi := hi - 1;
      a[lo], a[hi] := a[hi], a[lo];
      lo := lo + 1;
    }
    ReverseDone(a[..], old(a[..]), start);
  }

  lemma ReverseDone(r: seq<int>, s: seq<int>, start: nat)
    requires |r| == |s| && start <= |s| && forall i :: 0 <= i < start ==> r[i] == s[i]
    requires forall i :: start <= i < |s| ==> r[i] == s[start + |s| - 1 - i]
    ensures r == s[..start] + Reversed(s[start..])
  {
    var n := s[..start] + Reversed(s[start..]);
    forall i | 0 <= i < |s| ensures r[i] == n[i] {
      if i >= start {
        var tail := s[start..];
        assert n[i] == Reversed(tail)[i - start] == tail[|tail| - 1 - (i - start)];
      }
    }
  }

  // The last position whose element is below the next one, or none.
  method LastAscent(a: array<int>) returns (l: int)
    requires a.Length > 0
    ensures -1 <= l < a.Length - 1 && (l >= 0 ==> a[l] < a[l + 1])
    ensures Descending(a[..][l + 1..])
  {
    l := -1;
    var i := 0;
    while i < a.Length - 1
      invariant 0 <= i <= a.Length - 1 && -1 <= l < i + 1 && l < a.Length - 1
      invariant l >= 0 ==> l < i && a[l] < a[l + 1]
      invariant forall j :: l < j < i ==> a[j] >= a[j + 1]
    {
      if a[i] < a[i + 1] { l := i; }
      i := i + 1;
    }
  }

  // The last position behind `l` whose element is above that at `l`.
  method LastAbove(a: array<int>, l: nat) returns (r: nat)
    requires l + 1 < a.Length && a[l] < a[l + 1]
    ensures l < r < a.Length && a[l] < a[r]
    ensures forall j :: r < j < a.Length ==> a[j] <= a[l]
  {
    var last: int := -1;
    var i := l + 1;
    while i < a.Length
      invariant l + 1 <= i <= a.Length && -1 <= last < i
      invariant i > l + 1 ==> last >= l + 1
      invariant last >= 0 ==> l < last && a[l] < a[last]
      invariant forall j :: l < j < i && last < j ==> a[j] <= a[l]
    {
      if a[l] < a[i] { last := i; }
      i := i + 1;
    }
    r := last;
  }

  // Swapping the pivot behind and turning the tail round.
  lemma SwapTurns(x: int, tail: seq<int>, r: nat)
    requires Descending(tail) && r < |tail| && x < tail[r] && forall j :: r < j < |tail| ==> tail[j] <= x
    ensures Pivot(x, tail, tail[r], Reversed(tail[r := x]))
  {
    var y, tail' := tail[r], tail[r := x];
    ReversedAscends(tail');
    ReversedRearranged(tail');
    SwapMultiset(x, tail, r);
    forall z | z in tail && x < z ensures y <= z {
      var j :| 0 <= j < |tail| && tail[j] == z;
      DescendingFirst(tail[j..], r - j);
    }
  }

  lemma SwapMultiset(x: int, tail: seq<int>, r: nat)
    requires r < |tail|
    ensures Rearranged([x] + tail, [tail[r]] + tail[r := x])
  {
    assert multiset(tail[r := x]) == multiset(tail) - multiset{tail[r]} + multiset{x};
    assert multiset([x] + tail) == multiset{x} + multiset(tail);
    assert multiset([tail[r]] + tail[r := x]) == multiset{tail[r]} + multiset(tail[r := x]);
  }

  lemma LastArrangement(s: seq<int>)
    requires Descending(s)
    ensures Greatest(s)
  {
    forall t | Rearranged(s, t) ensures !Less(s, t) { DescendingGreatest(s, t); }
  }

  // std::swap on two elements.
  method SwapElements(a: array<int>, i: nat, j: nat)
    requires i < a.Length && j < a.Length
    modifies a
    ensures a[..] == old(a[..])[i := old(a[j])][j := old(a[i])]
  {
    a[i], a[j] := a[j], a[i];
  }

  // The next arrangement in order, in place; false, with nothing changed, after the last one.
  method NextPermu(nums: array<int>) returns (found: bool)
    requires nums.Length > 0
    modifies nums
    ensures found ==> Successor(old(nums[..]), nums[..])
    ensures !found ==> nums[..] == old(nums[..]) && Greatest(nums[..])
  {
    hide Successor, Greatest, Less, Rearranged, Reversed, Descending;
    var l := LastAscent(nums);
    if l == -1 {
      LastArrangement(nums[..]);
      return false;
    }
    StepAt(nums, l);
    found := true;
  }

  // The step at the last ascent.
  method StepAt(nums: array<int>, l: nat)
    requires l + 1 < nums.Length && nums[l] < nums[l + 1] && Descending(nums[..][l + 1..])
    modifies nums
    ensures Successor(old(nums[..]), nums[..])
  {
    hide Successor, Less, Rearranged, Reversed, Descending;
    ghost var s := nums[..];
    var r := LastAbove(nums, l);
    StepSuccessor(s, l, r);
    SwapElements(nums, l, r);
    ReverseFrom(nums, l + 1);
  }

  // Swap and reverse make the successor.
  lemma StepSuccessor(s: seq<int>, l: nat, r: nat)
    requires l < r < |s| && s[l] < s[r] && Descending(s[l + 1..]) && forall j :: r < j < |s| ==> s[j] <= s[l]
    ensures
      var n := s[l := s[r]][r := s[l]];
      Successor(s, n[..l + 1] + Reversed(n[l + 1..]))
  {
    hide Successor, Reversed, Descending;
    var n := s[l := s[r]][r := s[l]];
    var front, x, tail, k := s[..l], s[l], s[l + 1..], r - l - 1;
    SplitAtPivot(s, l, r);
    PivotStep(front, x, tail, k);
    assert front + [tail[k]] + Reversed(tail[k := x]) == front + ([tail[k]] + Reversed(tail[k := x]));
  }

  lemma PivotStep(front: seq<int>, x: int, tail: seq<int>, k: nat)
    requires Descending(tail) && k < |tail| && x < tail[k] && forall j :: k < j < |tail| ==> tail[j] <= x
    ensures Successor(front + ([x] + tail), front + ([tail[k]] + Reversed(tail[k := x])))
  {
    SwapTurns(x, tail, k);
    PivotSuccessor(x, tail, tail[k], Reversed(tail[k := x]));
    SuccessorPrefix(front, [x] + tail, [tail[k]] + Reversed(tail[k := x]));
  }

  lemma SplitAtPivot(s: seq<int>, l: nat, r: nat)
    requires l < r < |s| && forall j :: r < j < |s| ==> s[j] <= s[l]
    ensures
      var n := s[l := s[r]][r := s[l]];
      var front, x, tail, k := s[..l], s[l], s[l + 1..], r - l - 1;
      && s == front + ([x] + tail) && tail[k] == s[r]
      && n[..l + 1] == front + [tail[k]] && n[l + 1..] == tail[k := x]
      && forall j :: k < j < |tail| ==> tail[j] <= x
  {
  }

  // ---------------------------------------------------------------- the whole enumeration

  // The finite set of all arrangements.
  ghost function Arrangements(m: multiset<int>): set<seq<int>>
    decreases |m|
  {
    if m == multiset{} then {[]}
    else set x, t | x in m && t in Arrangements(m - multiset{x}) :: [x] + t
  }

  lemma {:induction false} ArrangementsAre(m: multiset<int>, s: seq<int>)
    ensures s in Arrangements(m) <==> multiset(s) == m
    decreases |m|
  {
    if m == multiset{} {
      if s != [] { assert s[0] in multiset(s); }
    } else if s == [] {
      assert multiset(s) != m;
    } else {
      var x, t := s[0], s[1..];
      assert s == [x] + t;
      if x in m {
        hide Arrangements;
        ArrangementsAre(m - multiset{x}, t);
        ConsMultiset(x, t, m);
        ArrangementsStep(m, x, t);
      } else {
        assert x in multiset(s);
        ArrangementsHead(m, s);
      }
    }
  }

  lemma ConsMultiset(x: int, t: seq<int>, m: multiset<int>)
    requires x in m
    ensures multiset([x] + t) == m <==> multiset(t) == m - multiset{x}
  {
    assert multiset([x] + t) == multiset{x} + multiset(t);
    if multiset(t) == m - multiset{x} { assert multiset([x] + t) == m; }
  }

  lemma ArrangementsStep(m: multiset<int>, x: int, t: seq<int>)
    requires x in m
    ensures [x] + t in Arrangements(m) <==> t in Arrangements(m - multiset{x})
  {
    if [x] + t in Arrangements(m) {
      var y, u :| y in m && u in Arrangements(m - multiset{y}) && [x] + t == [y] + u;
      assert ([x] + t)[0] == x && ([y] + u)[0] == y && ([x] + t)[1..] == t && ([y] + u)[1..] == u;
    }
  }

  lemma ArrangementsHead(m: multiset<int>, s: seq<int>)
    requires m != multiset{}
    ensures s in Arrangements(m) ==> s != [] && s[0] in m
  {
  }

  // Those that come after `s`.
  ghost function Above(s: seq<int>): set<seq<int>> {
    set t | t in Arrangements(multiset(s)) && Less(s, t)
  }

  lemma AboveShrinks(s: seq<int>, n: seq<int>)
    requires Successor(s, n)
    ensures Above(n) < Above(s)
  {
    forall t | t in Above(n) ensures t in Above(s) { LessTransitive(s, n, t); }
    ArrangementsAre(multiset(s), n);
    LessIrreflexive(n);
    assert n in Above(s) && n !in Above(n);
  }

  function Insert(x: int, s: seq<int>): seq<int> {
    if s == [] || x <= s[0] then [x] + s else [s[0]] + Insert(x, s[1..])
  }

  function Sorted(s: seq<int>): seq<int> {
    if s == [] then [] else Insert(s[0], Sorted(s[1..]))
  }

  lemma {:induction false} InsertSorts(x: int, s: seq<int>)
    requires Ascending(s)
    ensures Ascending(Insert(x, s)) && multiset(Insert(x, s)) == multiset{x} + multiset(s)
    ensures Insert(x, s)[0] == x || (s != [] && Insert(x, s)[0] == s[0])
  {
    if s == [] || x <= s[0] {
      ConsAscends(x, s);
    } else {
      assert s == [s[0]] + s[1..];
      TailAscends(s);
      InsertSorts(x, s[1..]);
      hide Ascending;
      ConsAscends(s[0], Insert(x, s[1..]));
    }
  }

  lemma ConsAscends(x: int, s: seq<int>)
    requires Ascending(s) && (s == [] || x <= s[0])
    ensures Ascending([x] + s)
  {
  }

  lemma TailAscends(s: seq<int>)
    requires Ascending(s) && s != []
    ensures Ascending(s[1..]) && (|s| > 1 ==> s[0] <= s[1])
  {
    forall i | 0 <= i < |s[1..]| - 1 ensures s[1..][i] <= s[1..][i + 1] { assert s[i + 1] <= s[i + 2]; }
  }

  lemma {:induction false} SortedSorts(s: seq<int>)
    ensures Ascending(Sorted(s)) && Rearranged(s, Sorted(s)) && |Sorted(s)| == |s|
  {
    if s != [] {
      SortedSorts(s[1..]);
      InsertSorts(s[0], Sorted(s[1..]));
      assert s == [s[0]] + s[1..];
    }
    SameMembers(s, Sorted(s));
  }

  // std::sort, taken by its result.
  method Sort(a: array<int>)
    modifies a
    ensures Ascending(a[..]) && Rearranged(old(a[..]), a[..])
  {
    SortedSorts(a[..]);
    var t := Sorted(a[..]);
    forall i | 0 <= i < a.Length { a[i] := t[i]; }
    assert a[..] == t;
  }

  ghost predicate StrictlyRising(r: seq<seq<int>>) { forall i, j :: 0 <= i < j < |r| ==> Less(r[i], r[j]) }

  // Every arrangement up to the last one listed is in the list.
  ghost predicate ListsUpTo(r: seq<seq<int>>, m: multiset<int>) {
    && r != [] && StrictlyRising(r)
    && (forall t :: t in r ==> multiset(t) == m)
    && (forall t :: multiset(t) == m ==> t in r || Less(r[|r| - 1], t))
  }

  lemma StartList(s: seq<int>)
    requires Ascending(s)
    ensures ListsUpTo([s], multiset(s))
  {
    forall t | multiset(t) == multiset(s) ensures t in [s] || Less(s, t) { AscendingLeast(s, t); }
  }

  lemma ExtendList(r: seq<seq<int>>, m: multiset<int>, n: seq<int>)
    requires ListsUpTo(r, m) && Successor(r[|r| - 1], n)
    ensures ListsUpTo(r + [n], m)
  {
    var last := r[|r| - 1];
    assert last in r;
    forall i | 0 <= i < |r| ensures Less(r[i], n) {
      if i < |r| - 1 { LessTransitive(r[i], last, n); }
    }
    forall t | multiset(t) == m ensures t in r + [n] || Less(n, t) {
      if t !in r { assert Rearranged(last, t) && Less(last, t); }
    }
  }

  lemma FinishList(r: seq<seq<int>>, m: multiset<int>)
    requires ListsUpTo(r, m) && Greatest(r[|r| - 1])
    ensures forall t :: t in r <==> multiset(t) == m
  {
    assert r[|r| - 1] in r;
    forall t | multiset(t) == m ensures t in r {
      if t !in r { assert Rearranged(r[|r| - 1], t); }
    }
  }

  // Every distinct arrangement exactly once, in increasing order.
  method Permute(nums: array<int>) returns (result: seq<seq<int>>)
    requires nums.Length > 0
    modifies nums
    ensures StrictlyRising(result)
    ensures forall t :: t in result <==> Rearranged(old(nums[..]), t)
  {
    Sort(nums);
    ghost var m := multiset(nums[..]);
    result := [nums[..]];
    StartList(nums[..]);
    var more := NextPermu(nums);
    while more
      invariant ListsUpTo(result, m)
      invariant more ==> Successor(result[|result| - 1], nums[..])
      invariant !more ==> Greatest(result[|result| - 1])
      decreases Above(result[|result| - 1]), more
    {
      ExtendList(result, m, nums[..]);
      AboveShrinks(result[|result| - 1], nums[..]);
      result := result + [nums[..]];
      more := NextPermu(nums);
    }
    FinishList(result, m);
  }

  // A rising list of all arrangements has as many entries as there are arrangements.
  lemma {:induction false} RisingCount(r: seq<seq<int>>)
    requires StrictlyRising(r)
    ensures |set t | t in r| == |r|
  {
    if r != [] {
      var k := |r| - 1;
      assert r == r[..k] + [r[k]];
      RisingCount(r[..k]);
      forall i | 0 <= i < k ensures r[i] != r[k] { LessIrreflexive(r[k]); }
      assert (set t | t in r) == (set t | t in r[..k]) + {r[k]};
    }
  }

  lemma AllCounted(r: seq<seq<int>>, s: seq<int>)
    requires StrictlyRising(r) && forall t :: t in r <==> Rearranged(s, t)
    ensures |r| == |Arrangements(multiset(s))|
  {
    RisingCount(r);
    forall t ensures t in r <==> t in Arrangements(multiset(s)) { ArrangementsAre(multiset(s), t); }
    assert (set t | t in r) == Arrangements(multiset(s));
  }
}
