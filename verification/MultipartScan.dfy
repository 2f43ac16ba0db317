/**
 The search for the delimiter, in terms of where the boundary occurs: which occurrences the search
 looks at, and when it ends at the delimiter's own.
 */
module MultipartScan {
  import opened MultipartSpec
  import opened MultipartText

  // ---------------------------------------------------------------- occurrences

  predicate Occurs(s: string, pat: string, i: nat) { i <= |s| && pat <= s[i..] }

  // The occurrences that a search which goes on behind each one looks at: those that no other such
  // occurrence overlaps from the left.
  ghost predicate Visited(s: string, boundary: string, i: nat)
    requires boundary != ""
    decreases i
  {
    Occurs(s, boundary, i) && forall j: nat :: j < i < j + |boundary| ==> !Visited(s, boundary, j)
  }

  // The delimiter's prefix stands in front of `x`.
  predicate Prefixed(s: string, x: nat)
    requires 4 <= x <= |s|
  {
    DELIM_PREFIX <= s[x - 4..]
  }

  // An occurrence at `j` does not end the search: it is not too close to the start, and has no
  // delimiter's prefix in front of it.
  predicate Harmless(s: string, j: nat) { 4 <= j <= |s| && !Prefixed(s, j) }

  ghost predicate HarmlessUpTo(s: string, boundary: string, pos: nat, at: nat)
    requires boundary != ""
  {
    forall j: nat :: pos <= j < at && Visited(s, boundary, j) ==> Harmless(s, j)
  }

  // Behind the data the search looks at the delimiter's own boundary, and at no earlier one that
  // ends it.
  ghost predicate Delimited(data: string, boundary: string)
    requires boundary != ""
  {
    var s, at := data + DELIM_PREFIX + boundary, |data| + 4;
    Visited(s, boundary, at) && HarmlessUpTo(s, boundary, 0, at)
  }

  // No part at the start of the boundary is also its end.
  predicate Unbordered(boundary: string) {
    forall n :: 0 < n < |boundary| ==> boundary[..n] != boundary[|boundary| - n..]
  }

  // ---------------------------------------------------------------- the search

  lemma {:induction false} FindLonger(s: string, tail: string, pat: string, pos: nat, at: nat)
    requires pat != "" && pos <= at && at + |pat| == |s| && pat <= s[at..]
    ensures Find(s + tail, pat, pos) == Find(s, pat, pos) != NPOS && Find(s, pat, pos) <= at
    decreases at - pos
  {
    PrefixLonger(s, tail, pat, pos);
    if pos < at && !(pat <= s[pos..]) { FindLonger(s, tail, pat, pos + 1, at); }
  }

  lemma PrefixLonger(s: string, tail: string, pat: string, i: nat)
    requires i + |pat| <= |s|
    ensures pat <= (s + tail)[i..] <==> pat <= s[i..]
  {
    assert (s + tail)[i..] == s[i..] + tail;
  }

  // One round of the search.
  lemma DashedStep(s: string, boundary: string, pos: nat)
    requires boundary != ""
    ensures
      var x := Find(s, boundary, pos);
      FindDashedFrom(s, boundary, pos)
      == if x == NPOS || x < 4 then NPOS
         else if Prefixed(s, x) then x - 2
         else FindDashedFrom(s, boundary, x + |boundary|)
    ensures Find(s, boundary, pos) == NPOS || (pos <= Find(s, boundary, pos) < |s|)
  {
  }

  lemma {:induction false} DashedNotBefore(s: string, boundary: string, pos: nat)
    requires boundary != ""
    ensures var r := FindDashedFrom(s, boundary, pos); r == NPOS || r + 2 >= pos
    decreases |s| - pos
  {
    hide Find, FindDashedFrom, Prefixed;
    DashedStep(s, boundary, pos);
    var x := Find(s, boundary, pos);
    if x != NPOS && x >= 4 && !Prefixed(s, x) { DashedNotBefore(s, boundary, x + |boundary|); }
  }

  // What follows the delimiter does not matter for whether it is found.
  lemma {:induction false} DashedLonger(s: string, tail: string, boundary: string, pos: nat)
    requires boundary != "" && |s| >= 4 + |boundary| && pos <= |s| - |boundary|
    requires DELIM_PREFIX + boundary <= s[|s| - |boundary| - 4..]
    ensures
      var at := |s| - |boundary| - 2;
      FindDashedFrom(s + tail, boundary, pos) == at <==> FindDashedFrom(s, boundary, pos) == at
    decreases |s| - pos
  {
    hide Find, FindDashedFrom, Prefixed;
    var at := |s| - |boundary|;
    OwnPlace(s, boundary);
    FindLonger(s, tail, boundary, pos, at);
    DashedStep(s, boundary, pos);
    DashedStep(s + tail, boundary, pos);
    var x := Find(s, boundary, pos);
    if x >= 4 {
      PrefixedLonger(s, tail, x);
      var next := x + |boundary|;
      if !Prefixed(s, x) {
        if next <= at {
          DashedLonger(s, tail, boundary, next);
        } else {
          DashedNotBefore(s, boundary, next);
          DashedNotBefore(s + tail, boundary, next);
        }
      }
    }
  }

  lemma PrefixedLonger(s: string, tail: string, x: nat)
    requires 4 <= x <= |s|
    ensures Prefixed(s + tail, x) <==> Prefixed(s, x)
  {
    PrefixLonger(s, tail, DELIM_PREFIX, x - 4);
  }

  lemma OwnPlace(s: string, boundary: string)
    requires |s| >= 4 + |boundary| && DELIM_PREFIX + boundary <= s[|s| - |boundary| - 4..]
    ensures boundary <= s[|s| - |boundary|..] && Prefixed(s, |s| - |boundary|)
  {
    var at := |s| - |boundary|;
    assert s[at..] == s[at - 4..][4..];
  }

  // ---------------------------------------------------------------- what it looks at

  lemma {:induction false} FindIsFirst(s: string, pat: string, pos: nat)
    ensures
      var x := Find(s, pat, pos);
      && (x != NPOS ==> x >= pos && Occurs(s, pat, x))
      && forall i: nat :: pos <= i && (x == NPOS || i < x) ==> !Occurs(s, pat, i)
    decreases |s| - pos
  {
    if pos <= |s| && !(pat <= s[pos..]) { FindIsFirst(s, pat, pos + 1); }
  }

  // No occurrence looked at before `pos` reaches over it.
  ghost predicate Clear(s: string, boundary: string, pos: nat)
    requires boundary != ""
  {
    forall j: nat :: j < pos && Visited(s, boundary, j) ==> j + |boundary| <= pos
  }

  // The next occurrence found is the next one looked at, and the search is clear behind it.
  lemma NextVisited(s: string, boundary: string, pos: nat, x: nat)
    requires boundary != "" && Clear(s, boundary, pos) && Find(s, boundary, pos) == x
    ensures pos <= x && Visited(s, boundary, x) && Clear(s, boundary, x + |boundary|)
    ensures forall j: nat :: pos <= j < x + |boundary| && Visited(s, boundary, j) ==> j == x
  {
    FindIsFirst(s, boundary, pos);
    assert Visited(s, boundary, x);
    forall j: nat | x < j < x + |boundary| ensures !Visited(s, boundary, j) {}
  }

  lemma HarmlessNext(s: string, boundary: string, pos: nat, x: nat, at: nat)
    requires boundary != "" && pos <= x < at && Visited(s, boundary, x)
    requires forall j: nat :: pos <= j < x + |boundary| && Visited(s, boundary, j) ==> j == x
    ensures HarmlessUpTo(s, boundary, pos, at) <==> Harmless(s, x) && HarmlessUpTo(s, boundary, x + |boundary|, at)
  {
    hide Harmless, Visited;
  }

  // Started where it is clear, the search ends at `at` exactly when that is looked at and nothing
  // before it ends the search.
  lemma {:induction false} SearchEndsAt(s: string, boundary: string, pos: nat, at: nat)
    requires boundary != "" && 4 <= at <= |s| && pos <= at && Occurs(s, boundary, at) && Prefixed(s, at)
    requires Clear(s, boundary, pos)
    ensures FindDashedFrom(s, boundary, pos) == at - 2 <==>
      Visited(s, boundary, at) && HarmlessUpTo(s, boundary, pos, at)
    decreases at - pos
  {
    hide Find, FindDashedFrom, Prefixed, Clear, Visited, HarmlessUpTo, Occurs;
    DashedStep(s, boundary, pos);
    FindIsFirst(s, boundary, pos);
    var x := Find(s, boundary, pos);
    NextVisited(s, boundary, pos, x);
    var next := x + |boundary|;
    if x == at {
      NothingBefore(s, boundary, pos, at);
    } else {
      HarmlessNext(s, boundary, pos, x, at);
      if next <= at {
        SearchEndsAt(s, boundary, next, at);
      } else {
        DashedNotBefore(s, boundary, next);
        assert Visited(s, boundary, at) ==> at == x;
      }
    }
  }

  lemma NothingBefore(s: string, boundary: string, pos: nat, at: nat)
    requires boundary != "" && forall j: nat :: pos <= j < at + |boundary| && Visited(s, boundary, j) ==> j == at
    ensures HarmlessUpTo(s, boundary, pos, at)
  {
  }

  // The reader finds the delimiter behind the data exactly when the data is delimited.
  lemma DelimitedIffFound(data: string, boundary: string)
    requires boundary != ""
    ensures FindDashed(data + DELIM_PREFIX + boundary, boundary) == |data| + 2 <==> Delimited(data, boundary)
  {
    var s := data + DELIM_PREFIX + boundary;
    OwnPlaceAt(data, boundary);
    hide Visited, FindDashedFrom, HarmlessUpTo, Occurs, Prefixed;
    SearchEndsAt(s, boundary, 0, |data| + 4);
  }

  lemma OwnPlaceAt(data: string, boundary: string)
    ensures
      var s, at := data + DELIM_PREFIX + boundary, |data| + 4;
      Occurs(s, boundary, at) && Prefixed(s, at)
  {
    var s, at := data + DELIM_PREFIX + boundary, |data| + 4;
    assert s[at..] == boundary && s[at - 4..] == DELIM_PREFIX + boundary;
  }

  // The same with any text behind the delimiter.
  lemma FoundLonger(data: string, boundary: string, tail: string)
    requires boundary != ""
    ensures FindDashed(data + DELIM_PREFIX + boundary + tail, boundary) == |data| + 2 <==> Delimited(data, boundary)
  {
    hide FindDashedFrom, Delimited;
    var s := data + DELIM_PREFIX + boundary;
    assert s[|s| - |boundary| - 4..] == DELIM_PREFIX + boundary;
    DashedLonger(s, tail, boundary, 0);
    DelimitedIffFound(data, boundary);
  }

  // ---------------------------------------------------------------- boundaries without a border

  lemma OverlapBorders(s: string, boundary: string, j: nat, i: nat)
    requires Occurs(s, boundary, j) && Occurs(s, boundary, i) && j < i < j + |boundary|
    ensures !Unbordered(boundary)
  {
    var n := j + |boundary| - i;
    assert boundary[|boundary| - n..] == s[j..][..|boundary|][i - j..] == s[i..][..n];
    assert boundary[..n] == s[i..][..n];
  }

  // Occurrences of such a boundary do not overlap, so the search looks at all of them.
  lemma VisitsAll(s: string, boundary: string, i: nat)
    requires boundary != "" && Unbordered(boundary)
    ensures Visited(s, boundary, i) <==> Occurs(s, boundary, i)
  {
    if Occurs(s, boundary, i) {
      forall j: nat | j < i < j + |boundary| ensures !Visited(s, boundary, j) {
        if Occurs(s, boundary, j) { OverlapBorders(s, boundary, j, i); }
      }
    }
  }

  // For them: no boundary in the first four characters, and no delimiter before its own place.
  lemma DelimitedUnbordered(data: string, boundary: string)
    requires boundary != "" && Unbordered(boundary)
    ensures
      var s := data + DELIM_PREFIX + boundary;
      Delimited(data, boundary) <==>
        && (forall i: nat :: i < 4 ==> !Occurs(s, boundary, i))
        && (forall i: nat :: i < |data| ==> !Occurs(s, DELIM_PREFIX + boundary, i))
  {
    var s, at := data + DELIM_PREFIX + boundary, |data| + 4;
    OwnPlaceAt(data, boundary);
    forall i: nat ensures Visited(s, boundary, i) <==> Occurs(s, boundary, i) { VisitsAll(s, boundary, i); }
    forall i: nat | i + 4 <= |s|
      ensures Occurs(s, DELIM_PREFIX + boundary, i) <==> Occurs(s, boundary, i + 4) && Prefixed(s, i + 4)
    {
      DelimiterAt(s, boundary, i);
    }
    hide Visited, Occurs, Prefixed;
    if Delimited(data, boundary) {
      forall i: nat | i < 4 ensures !Occurs(s, boundary, i) { assert i < at; }
      forall i: nat | i < |data| ensures !Occurs(s, DELIM_PREFIX + boundary, i) {
        assert Visited(s, boundary, i + 4) ==> Harmless(s, i + 4);
      }
    } else {
      var j: nat :| j < at && Visited(s, boundary, j) && !Harmless(s, j);
      if j >= 4 { assert Occurs(s, DELIM_PREFIX + boundary, j - 4); }
    }
  }

  lemma DelimiterAt(s: string, boundary: string, i: nat)
    requires i + 4 <= |s|
    ensures Occurs(s, DELIM_PREFIX + boundary, i) <==> Occurs(s, boundary, i + 4) && Prefixed(s, i + 4)
  {
    var t, n := s[i..], 4 + |boundary|;
    assert t[4..] == s[i + 4..];
    if Occurs(s, boundary, i + 4) && Prefixed(s, i + 4) {
      assert t[..n] == t[..4] + t[4..][..|boundary|];
    }
    if Occurs(s, DELIM_PREFIX + boundary, i) {
      assert t[..4] == (DELIM_PREFIX + boundary)[..4] == DELIM_PREFIX;
      assert t[4..][..|boundary|] == (DELIM_PREFIX + boundary)[4..];
    }
  }

  // For any boundary it is enough that it does not occur before its own place.
  lemma FirstOccurrenceDelimits(data: string, boundary: string)
    requires boundary != "" && Find(data + DELIM_PREFIX + boundary, boundary, 0) == |data| + 4
    ensures Delimited(data, boundary)
  {
    var s := data + DELIM_PREFIX + boundary;
    FindIsFirst(s, boundary, 0);
    hide Find;
    var at := |data| + 4;
    forall j: nat | j < at ensures !Visited(s, boundary, j) { assert !Occurs(s, boundary, j); }
    assert Occurs(s, boundary, at);
    assert Visited(s, boundary, at);
    assert HarmlessUpTo(s, boundary, 0, at);
  }

  // ---------------------------------------------------------------- data that is not delimited

  // A boundary at the very start ends the search.
  lemma TooEarly(s: string, boundary: string)
    requires boundary != "" && Occurs(s, boundary, 0)
    ensures FindDashed(s, boundary) == NPOS
  {
  }

  // Data that starts with its own boundary.
  lemma DataStartsWithBoundary(data: string, boundary: string)
    requires boundary != "" && boundary <= data
    ensures !Delimited(data, boundary)
  {
    var s := data + DELIM_PREFIX + boundary;
    assert s[0..][..|boundary|] == boundary;
    assert Visited(s, boundary, 0) && !Harmless(s, 0);
  }

  // A boundary of dashes: the prefix's own dashes are taken for it, and its place is skipped.
  lemma DashesSkipped(data: string)
    requires forall i :: 0 <= i < |data| ==> data[i] != '-'
    ensures !Delimited(data, "---")
  {
    var s, x := data + DELIM_PREFIX + "---", |data| + 2;
    assert s[x..] == "-----";
    forall j: nat | j < x ensures !Occurs(s, "---", j) {
      if j + 3 <= |s| { assert s[j..][0] == s[j]; }
    }
    assert Visited(s, "---", x);
    assert x < |data| + 4 < x + 3;
  }
}
