/**
 Breadth-first text form of a binary tree: a token and a space for every node and every missing
 child, decoded with a queue of nodes whose children are still to be read.
 */
module TreeCodec {

  datatype Result<+T> = Ok(value: T) | Err

  datatype Tree = Nil | Node(val: int, left: Tree, right: Tree)

  const INT_MIN: int := -0x8000_0000
  const INT_MAX: int := 0x7fff_ffff

  predicate Int32(v: int) { INT_MIN <= v <= INT_MAX }

  predicate AllInt32(t: Tree) {
    t.Node? ==> Int32(t.val) && AllInt32(t.left) && AllInt32(t.right)
  }

  // ---------------------------------------------------------------- decimal numbers

  function DigitChar(d: nat): char
    requires d < 10
  {
    '0' + d as char
  }

  function Digits(n: nat): (s: string)
    ensures s != ""
  {
    (if n < 10 then "" else Digits(n / 10)) + [DigitChar(n % 10)]
  }

  // std::to_string
  function ToString(v: int): (s: string)
    ensures s != ""
  {
    if v < 0 then "-" + Digits(-v) else Digits(v)
  }

  predicate IsDigit(c: char) { '0' <= c <= '9' }

  predicate IsSpace(c: char) { c == ' ' || '\t' <= c <= '\r' }

  // The value of the leading digits, after those already read.
  function Leading(s: string, n: nat): nat {
    if s != "" && IsDigit(s[0]) then Leading(s[1..], 10 * n + (s[0] - '0') as nat) else n
  }

  function Unsigned(s: string): Result<nat> {
    if s == "" || !IsDigit(s[0]) then Err else Ok(Leading(s, 0))
  }

  // std::stoi: spaces, a sign, digits; what follows is ignored, what does not fit is an error.
  function Stoi(s: string): Result<int> {
    if s != "" && IsSpace(s[0]) then Stoi(s[1..])
    else
      var sign := if s != "" && s[0] == '-' then -1 else 1;
      var body := if s != "" && (s[0] == '-' || s[0] == '+') then s[1..] else s;
      var n := Unsigned(body);
      if n.Err? then Err
      else if Int32(sign * n.value) then Ok(sign * n.value)
      else Err
  }

  lemma {:induction false} LeadingDigits(n: nat, rest: string, acc: nat)
    requires rest == "" || IsDigit(rest[0])
    ensures Leading(Digits(n) + rest, acc) == Leading(rest, acc * Power(n) + n)
    decreases n
  {
    var last := [DigitChar(n % 10)];
    LeadingOne(n % 10, rest, if n < 10 then acc else acc * Power(n / 10) + n / 10);
    if n < 10 {
      assert Digits(n) + rest == last + rest;
    } else {
      assert Digits(n) + rest == Digits(n / 10) + (last + rest);
      OneMoreDigit(acc, Power(n / 10), n);
      hide Digits, Leading;
      LeadingDigits(n / 10, last + rest, acc);
    }
  }

  lemma LeadingOne(d: nat, rest: string, acc: nat)
    requires d < 10
    ensures Leading([DigitChar(d)] + rest, acc) == Leading(rest, 10 * acc + d)
  {
    assert ([DigitChar(d)] + rest)[1..] == rest;
  }

  lemma OneMoreDigit(acc: nat, p: nat, n: nat)
    ensures 10 * (acc * p + n / 10) + n % 10 == acc * (10 * p) + n
  {
  }

  // Ten to the number of digits.
  function Power(n: nat): nat { if n < 10 then 10 else 10 * Power(n / 10) }

  lemma {:induction false} DigitsAreDigits(n: nat)
    ensures forall i :: 0 <= i < |Digits(n)| ==> IsDigit(Digits(n)[i])
  {
    if n >= 10 { DigitsAreDigits(n / 10); }
  }

  lemma StoiOfToString(v: int)
    requires Int32(v)
    ensures Stoi(ToString(v)) == Ok(v)
  {
    var n := if v < 0 then -v else v;
    DigitsAreDigits(n);
    LeadingDigits(n, "", 0);
    assert Digits(n) + "" == Digits(n);
    assert ("-" + Digits(n))[1..] == Digits(n);
  }

  // ---------------------------------------------------------------- tokens and text

  const NIL := "$"

  ghost predicate IsToken(s: string) { s != "" && forall i :: 0 <= i < |s| ==> s[i] != ' ' }

  function TokenOf(t: Tree): (s: string)
    ensures s != ""
  {
    if t.Nil? then NIL else ToString(t.val)
  }

  lemma TokenIsToken(t: Tree)
    ensures IsToken(TokenOf(t))
    ensures t.Node? ==> TokenOf(t) != NIL
  {
    if t.Node? {
      DigitsAreDigits(if t.val < 0 then -t.val else t.val);
      assert '-' != '$' && !IsDigit('$');
      assert TokenOf(t)[0] == '-' || IsDigit(TokenOf(t)[0]);
    }
  }

  // Each token with a space behind it.
  function Text(tokens: seq<string>): string {
    if tokens == [] then "" else tokens[0] + " " + Text(tokens[1..])
  }

  // getline with ' ': the part before each space, and the last part unless it is empty; `part` is
  // what was read of the current one.
  function SplitFrom(s: string, part: string): seq<string> {
    if s == "" then (if part == "" then [] else [part])
    else if s[0] == ' ' then [part] + SplitFrom(s[1..], "")
    else SplitFrom(s[1..], part + [s[0]])
  }

  lemma {:induction false} SplitToken(token: string, rest: string, part: string)
    requires forall i :: 0 <= i < |token| ==> token[i] != ' '
    ensures SplitFrom(token + " " + rest, part) == [part + token] + SplitFrom(rest, "")
    decreases |token|
  {
    var s := token + " " + rest;
    if token == "" {
      assert s[0] == ' ' && s[1..] == rest && part + "" == part;
    } else {
      assert s[0] == token[0] && s[1..] == token[1..] + " " + rest;
      SplitToken(token[1..], rest, part + [token[0]]);
      assert part + [token[0]] + token[1..] == part + token;
    }
  }

  lemma {:induction false} SplitText(tokens: seq<string>)
    requires forall i :: 0 <= i < |tokens| ==> IsToken(tokens[i])
    ensures SplitFrom(Text(tokens), "") == tokens
  {
    if tokens != [] {
      SplitToken(tokens[0], Text(tokens[1..]), "");
      SplitText(tokens[1..]);
      assert "" + tokens[0] == tokens[0];
    }
  }

  // ---------------------------------------------------------------- the breadth-first encoding

  function Size(t: Tree): (n: nat)
    ensures n >= 1
  {
    if t.Nil? then 1 else 1 + Size(t.left) + Size(t.right)
  }

  function Total(q: seq<Tree>): nat { if q == [] then 0 else Size(q[0]) + Total(q[1..]) }

  lemma {:induction false} TotalConcat(p: seq<Tree>, q: seq<Tree>)
    ensures Total(p + q) == Total(p) + Total(q)
    decreases |p|
  {
    if p == [] {
      assert p + q == q;
    } else {
      assert (p + q)[1..] == p[1..] + q;
      TotalConcat(p[1..], q);
    }
  }

  function Children(t: Tree): seq<Tree> {
    if t.Nil? then [] else [t.left, t.right]
  }

  lemma DequeueSmaller(q: seq<Tree>)
    requires q != []
    ensures Total(q[1..] + Children(q[0])) < Total(q)
  {
    TotalConcat(q[1..], Children(q[0]));
    ChildrenSmaller(q[0]);
    hide Children, Size;
  }

  lemma ChildrenSmaller(t: Tree)
    ensures Total(Children(t)) < Size(t)
  {
    if t.Node? {
      assert Children(t)[1..] == [t.right] && [t.right][1..] == [];
      assert Total([t.right]) == Size(t.right);
    }
  }

  // The tokens of a queue of trees: the first one's, and its children at the back.
  function Encode(q: seq<Tree>): seq<string>
    decreases Total(q)
  {
    if q == [] then []
    else
      DequeueSmaller(q);
      [TokenOf(q[0])] + Encode(q[1..] + Children(q[0]))
  }

  function SerializeText(t: Tree): string { Text(Encode([t])) }

  lemma {:induction false} EncodeTokens(q: seq<Tree>)
    ensures forall i :: 0 <= i < |Encode(q)| ==> IsToken(Encode(q)[i])
    decreases Total(q)
  {
    if q != [] {
      DequeueSmaller(q);
      TokenIsToken(q[0]);
      hide IsToken, TokenOf;
      EncodeTokens(q[1..] + Children(q[0]));
    }
  }

  predicate AllFit(q: seq<Tree>) { forall i :: 0 <= i < |q| ==> AllInt32(q[i]) }

  lemma SameToken(t: Tree, u: Tree)
    requires AllInt32(t) && AllInt32(u) && TokenOf(t) == TokenOf(u)
    ensures t.Nil? == u.Nil? && (t.Node? ==> t.val == u.val)
  {
    TokenIsToken(t);
    TokenIsToken(u);
    if t.Node? && u.Node? {
      StoiOfToString(t.val);
      StoiOfToString(u.val);
    }
  }

  // Two queues of the same length with the same tokens are the same.
  lemma {:induction false} EncodeInjective(p: seq<Tree>, q: seq<Tree>)
    requires |p| == |q| && AllFit(p) && AllFit(q) && Encode(p) == Encode(q)
    ensures p == q
    decreases Total(p)
  {
    if p != [] {
      DequeueSmaller(p);
      var p', q' := p[1..] + Children(p[0]), q[1..] + Children(q[0]);
      assert TokenOf(p[0]) == Encode(p)[0] == Encode(q)[0] == TokenOf(q[0]);
      assert Encode(p') == Encode(p)[1..] && Encode(q') == Encode(q)[1..];
      SameToken(p[0], q[0]);
      hide Encode, TokenOf, AllInt32;
      ChildrenFit(p[0]);
      ChildrenFit(q[0]);
      EncodeInjective(p', q');
      var n := |p| - 1;
      assert p[1..] == p'[..n] == q'[..n] == q[1..];
      assert Children(p[0]) == p'[n..] == q'[n..] == Children(q[0]);
      if p[0].Node? { assert Children(p[0])[0] == p[0].left && Children(p[0])[1] == p[0].right; }
      assert p == [p[0]] + p[1..];
    }
  }

  lemma ChildrenFit(t: Tree)
    requires AllInt32(t)
    ensures AllFit(Children(t))
  {
  }

  // A text is the serialisation of one tree at most.
  lemma SerializeInjective(t: Tree, u: Tree)
    requires AllInt32(t) && AllInt32(u) && SerializeText(t) == SerializeText(u)
    ensures t == u
  {
    EncodeTokens([t]);
    EncodeTokens([u]);
    SplitText(Encode([t]));
    SplitText(Encode([u]));
    EncodeInjective([t], [u]);
    assert [t][0] == t && [u][0] == u;
  }

  // ---------------------------------------------------------------- the decoder's queue

  // The children of the pending trees, in order: what the encoder has in its queue.
  function AllChildren(subs: seq<Tree>): seq<Tree> {
    if subs == [] then [] else Children(subs[0]) + AllChildren(subs[1..])
  }

  lemma {:induction false} AllChildrenConcat(p: seq<Tree>, q: seq<Tree>)
    ensures AllChildren(p + q) == AllChildren(p) + AllChildren(q)
    decreases |p|
  {
    if p == [] {
      assert p + q == q;
    } else {
      assert (p + q)[1..] == p[1..] + q;
      AllChildrenConcat(p[1..], q);
    }
  }

  // The trees that have a node: only these are queued by the decoder.
  function Present(t: Tree): seq<Tree> {
    if t.Nil? then [] else [t]
  }

  // Taking one pending tree off: its two children's tokens come next, and the tokens after them
  // belong to the children of what is then pending.
  lemma DecodeStep(subs: seq<Tree>)
    requires subs != [] && subs[0].Node?
    ensures
      var l, r := subs[0].left, subs[0].right;
      Encode(AllChildren(subs)) == [TokenOf(l), TokenOf(r)] + Encode(AllChildren(subs[1..] + Present(l) + Present(r)))
  {
    hide Encode, TokenOf, AllChildren, Present, Children;
    var l, r := subs[0].left, subs[0].right;
    var rest := AllChildren(subs[1..]);
    FirstChildren(subs);
    EncodeHead(l, [r] + rest);
    EncodeHead(r, rest + Children(l));
    assert [r] + rest + Children(l) == [r] + (rest + Children(l));
    QueuedChildren(subs[1..], l, r);
  }

  lemma FirstChildren(subs: seq<Tree>)
    requires subs != [] && subs[0].Node?
    ensures AllChildren(subs) == [subs[0].left] + ([subs[0].right] + AllChildren(subs[1..]))
  {
  }

  lemma QueuedChildren(subs: seq<Tree>, l: Tree, r: Tree)
    ensures AllChildren(subs + Present(l) + Present(r)) == AllChildren(subs) + Children(l) + Children(r)
  {
    hide AllChildren, Present, Children;
    ChildrenOfPresent(l);
    ChildrenOfPresent(r);
    AllChildrenConcat(subs, Present(l));
    AllChildrenConcat(subs + Present(l), Present(r));
  }

  lemma EncodeHead(t: Tree, rest: seq<Tree>)
    ensures Encode([t] + rest) == [TokenOf(t)] + Encode(rest + Children(t))
  {
    assert ([t] + rest)[1..] == rest;
  }

  lemma ChildrenOfPresent(t: Tree)
    ensures AllChildren(Present(t)) == Children(t)
  {
    if t.Node? { assert AllChildren([t]) == Children(t) + AllChildren([]); }
  }

  // ---------------------------------------------------------------- level by level

  // The subtrees `d` steps below the root from left to right, missing children included.
  function Level(t: Tree, d: nat): seq<Tree>
    decreases d
  {
    if d == 0 then [t] else if t.Nil? then [] else Level(t.left, d - 1) + Level(t.right, d - 1)
  }

  function Height(t: Tree): nat {
    if t.Nil? then 0 else 1 + if Height(t.left) < Height(t.right) then Height(t.right) else Height(t.left)
  }

  function LevelTokens(level: seq<Tree>): seq<string> { seq(|level|, i requires 0 <= i < |level| => TokenOf(level[i])) }

  // The levels from `d` down to the last one.
  function LevelsFrom(t: Tree, d: nat): seq<string>
    decreases Height(t) + 1 - d
  {
    if d > Height(t) then [] else LevelTokens(Level(t, d)) + LevelsFrom(t, d + 1)
  }

  lemma {:induction false} NoLevelBelow(t: Tree, d: nat)
    requires d > Height(t)
    ensures Level(t, d) == []
  {
    if t.Node? {
      NoLevelBelow(t.left, d - 1);
      NoLevelBelow(t.right, d - 1);
    }
  }

  lemma {:induction false} NextLevel(t: Tree, d: nat)
    ensures AllChildren(Level(t, d)) == Level(t, d + 1)
    decreases d
  {
    if d == 0 {
      assert [t][1..] == [];
      if t.Node? { assert Level(t, 1) == [t.left] + [t.right]; }
    } else if t.Node? {
      NextLevel(t.left, d - 1);
      NextLevel(t.right, d - 1);
      AllChildrenConcat(Level(t.left, d - 1), Level(t.right, d - 1));
    }
  }

  lemma {:induction false} EncodeFront(p: seq<Tree>, q: seq<Tree>)
    ensures Encode(p + q) == LevelTokens(p) + Encode(q + AllChildren(p))
    decreases |p|
  {
    if p == [] {
      assert p + q == q && q + AllChildren(p) == q && LevelTokens(p) == [];
    } else {
      var rest, own, others := p[1..], Children(p[0]), AllChildren(p[1..]);
      assert AllChildren(p) == own + others;
      hide Encode, TokenOf, Children, LevelTokens, AllChildren;
      FirstAndRest(p);
      Regroup([p[0]], rest, q);
      EncodeHead(p[0], rest + q);
      Regroup(rest, q, own);
      EncodeFront(rest, q + own);
      Regroup(q, own, others);
      FirstLevelToken(p);
      Regroup([TokenOf(p[0])], LevelTokens(rest), Encode(q + (own + others)));
    }
  }

  lemma Regroup<T>(a: seq<T>, b: seq<T>, c: seq<T>)
    ensures a + b + c == a + (b + c)
  {
  }

  lemma FirstAndRest<T>(s: seq<T>)
    requires s != []
    ensures s == [s[0]] + s[1..]
  {
  }

  lemma FirstLevelToken(level: seq<Tree>)
    requires level != []
    ensures LevelTokens(level) == [TokenOf(level[0])] + LevelTokens(level[1..])
  {
  }

  lemma {:induction false} EncodeLevels(t: Tree, d: nat)
    requires d <= Height(t) + 1
    ensures Encode(Level(t, d)) == LevelsFrom(t, d)
    decreases Height(t) + 1 - d
  {
    if d > Height(t) {
      NoLevelBelow(t, d);
    } else {
      hide Encode, Level, Height, LevelTokens;
      EncodeFront(Level(t, d), []);
      assert Level(t, d) + [] == Level(t, d) && [] + AllChildren(Level(t, d)) == AllChildren(Level(t, d));
      NextLevel(t, d);
      EncodeLevels(t, d + 1);
    }
  }

  // The text is the tree's levels from the root down, each from left to right.
  lemma TextIsLevels(t: Tree)
    ensures SerializeText(t) == Text(LevelsFrom(t, 0))
  {
    EncodeLevels(t, 0);
  }

  lemma TextExample()
    ensures SerializeText(Node(5, Nil, Node(-7, Nil, Nil))) == "5 $ -7 $ $ "
  {
    var u := Node(-7, Nil, Nil);
    var t := Node(5, Nil, u);
    LeafTokens(5, u);
    assert t.right == u && t.left == Nil;
    hide Encode, TokenOf;
    EncodeHead(t, []);
    assert [] + Children(t) == [Nil] + [u] && [t] + [] == [t];
    EncodeHead(Nil, [u]);
    assert [u] + Children(Nil) == [u] + [];
    EncodeHead(u, []);
    assert [] + Children(u) == [Nil] + [Nil];
    EncodeHead(Nil, [Nil]);
    assert [Nil] + Children(Nil) == [Nil] + [];
    EncodeHead(Nil, []);
    assert [] + Children(Nil) == [];
    EmptyEncoded();
    assert Encode([t]) == ["5", "$", "-7", "$", "$"];
    FiveTokens("5", "$", "-7", "$", "$");
  }

  lemma EmptyEncoded()
    ensures Encode([]) == []
  {
  }

  lemma LeafTokens(v: int, u: Tree)
    requires v == 5 && u == Node(-7, Nil, Nil)
    ensures TokenOf(Node(v, Nil, u)) == "5" && TokenOf(u) == "-7" && TokenOf(Nil) == "$"
  {
    assert Digits(5) == "5" && Digits(7) == "7";
  }

  lemma FiveTokens(a: string, b: string, c: string, d: string, e: string)
    ensures Text([a, b, c, d, e]) == a + " " + (b + " " + (c + " " + (d + " " + (e + " "))))
  {
    TextHead(a, [b, c, d, e]);
    TextHead(b, [c, d, e]);
    TextHead(c, [d, e]);
    TextHead(d, [e]);
    TextHead(e, []);
    assert [a] + [b, c, d, e] == [a, b, c, d, e] && [b] + [c, d, e] == [b, c, d, e];
    assert [c] + [d, e] == [c, d, e] && [d] + [e] == [d, e] && [e] + [] == [e];
  }

  lemma TextHead(token: string, rest: seq<string>)
    ensures Text([token] + rest) == token + " " + Text(rest)
  {
    assert ([token] + rest)[1..] == rest;
  }

  // ---------------------------------------------------------------- the heap

  class TreeNode {
    const val: int
    var left: TreeNode?
    var right: TreeNode?

    constructor (v: int)
      ensures val == v && left == null && right == null
    {
      val, left, right := v, null, null;
    }
  }

  // The pointers from `p`, all to objects in `nodes`, spell out the tree.
  ghost predicate Represents(p: TreeNode?, t: Tree, nodes: set<TreeNode>)
    reads nodes
    decreases t
  {
    match t
    case Nil => p == null
    case Node(v, l, r) =>
      && p != null && p in nodes && p.val == v
      && Represents(p.left, l, nodes) && Represents(p.right, r, nodes)
  }

  lemma {:induction false} TextStep(q: seq<Tree>)
    requires q != []
    ensures Text(Encode(q)) == TokenOf(q[0]) + " " + Text(Encode(q[1..] + Children(q[0])))
  {
    DequeueSmaller(q);
  }

  method Serialize(root: TreeNode?, ghost t: Tree, ghost nodes: set<TreeNode>) returns (data: string)
    requires Represents(root, t, nodes)
    ensures data == SerializeText(t)
  {
    hide Encode, TokenOf, ToString, Text, Total, Size;
    data := "";
    var pending: seq<TreeNode?> := [root];
    ghost var subs := [t];
    while pending != []
      invariant |pending| == |subs|
      invariant forall i :: 0 <= i < |pending| ==> Represents(pending[i], subs[i], nodes)
      invariant data + Text(Encode(subs)) == SerializeText(t)
      decreases Total(subs)
    {
      var node := pending[0];
      pending := pending[1..];
      DequeueSmaller(subs);
      TextStep(subs);
      ghost var token, rest := TokenOf(subs[0]), subs[1..] + Children(subs[0]);
      assert data + (token + " " + Text(Encode(rest))) == data + token + " " + Text(Encode(rest));
      TokenFor(subs[0]);
      if node != null {
        data := data + ToString(node.val);
        pending := pending + [node.left];
        pending := pending + [node.right];
      } else {
        data := data + NIL;
      }
      data := data + " ";
      subs := rest;
    }
    EncodeNone();
    assert data + "" == data;
  }

  lemma TokenFor(t: Tree)
    ensures TokenOf(t) == if t.Node? then ToString(t.val) else NIL
  {
  }

  lemma EncodeNone()
    ensures Text(Encode([])) == ""
  {
  }

  method SplitTokens(data: string) returns (values: seq<string>)
    ensures values == SplitFrom(data, "")
  {
    values := [];
    var token, i := "", 0;
    assert data[0..] == data;
    while i < |data|
      invariant 0 <= i <= |data| && values + SplitFrom(data[i..], token) == SplitFrom(data, "")
    {
      assert data[i..][0] == data[i] && data[i..][1..] == data[i + 1..];
      if data[i] == ' ' {
        ghost var rest := SplitFrom(data[i + 1..], "");
        assert values + ([token] + rest) == values + [token] + rest;
        values, token := values + [token], "";
      } else {
        token := token + [data[i]];
      }
      i := i + 1;
    }
    assert data[i..] == "";
    if token != "" { values := values + [token]; }
  }

  // A node for a token, none for the nil mark.
  method ReadNode(token: string) returns (r: Result<TreeNode?>)
    ensures token == NIL ==> r == Ok(null)
    ensures token != NIL ==> (r.Ok? <==> Stoi(token).Ok?)
    ensures token != NIL && r.Ok? ==> r.value != null && fresh(r.value) && r.value.val == Stoi(token).value
    ensures token != NIL && r.Ok? ==> r.value.left == null && r.value.right == null
  {
    if token == NIL { return Ok(null); }
    var v := Stoi(token);
    if v.Err? { return Err; }
    var n := new TreeNode(v.value);
    r := Ok(n);
  }

  // What `sub` says of the node: its value and which tree hangs on each side.
  ghost predicate Linked(n: TreeNode, sub: map<TreeNode, Tree>)
    requires n in sub
    reads n
  {
    && sub[n].Node? && n.val == sub[n].val
    && Points(n.left, sub[n].left, sub) && Points(n.right, sub[n].right, sub)
  }

  ghost predicate Points(p: TreeNode?, t: Tree, sub: map<TreeNode, Tree>) {
    if p == null then t == Nil else p in sub && sub[p] == t
  }

  lemma {:induction false} LinkedRepresents(p: TreeNode?, t: Tree, sub: map<TreeNode, Tree>)
    requires Points(p, t, sub) && forall n :: n in sub ==> Linked(n, sub)
    ensures Represents(p, t, sub.Keys)
    decreases t
  {
    if p != null {
      assert Linked(p, sub);
      LinkedRepresents(p.left, t.left, sub);
      LinkedRepresents(p.right, t.right, sub);
    }
  }

  // ---------------------------------------------------------------- decoding into the heap

  function Queued(p: TreeNode?): seq<TreeNode> {
    if p == null then [] else [p]
  }

  // A token and what reading it made of a subtree.
  ghost predicate Reads(token: string, p: TreeNode?, t: Tree) {
    token == TokenOf(t) && AllInt32(t) && (p == null <==> t == Nil) && (p != null ==> p.val == t.val)
  }

  method ReadChildren(node: TreeNode, leftToken: string, rightToken: string, ghost t: Tree) returns (ok: bool)
    modifies node
    ensures node.left != null ==> fresh(node.left) && node.left.left == null && node.left.right == null
    ensures node.right != null ==> fresh(node.right) && node.right != node.left
    ensures t.Node? && AllInt32(t) && leftToken == TokenOf(t.left) && rightToken == TokenOf(t.right) ==>
      ok && Reads(leftToken, node.left, t.left) && Reads(rightToken, node.right, t.right)
  {
    if t.Node? {
      Readable(t.left);
      Readable(t.right);
    }
    hide TokenOf, Stoi, AllInt32;
    node.left, node.right := null, null;
    var left := ReadNode(leftToken);
    if left.Err? { return false; }
    node.left := left.value;
    var right := ReadNode(rightToken);
    if right.Err? { return false; }
    node.right := right.value;
    ok := true;
  }

  lemma Readable(t: Tree)
    ensures AllInt32(t) ==> (TokenOf(t) == NIL <==> t == Nil)
    ensures AllInt32(t) && t.Node? ==> Stoi(TokenOf(t)) == Ok(t.val) && AllInt32(t.left) && AllInt32(t.right)
  {
    if AllInt32(t) && t.Node? {
      TokenIsToken(t);
      StoiOfToString(t.val);
    }
  }

  // The queue of nodes whose children are unread, and what each must become.
  ghost predicate Waiting(pending: seq<TreeNode>, subs: seq<Tree>, sub: map<TreeNode, Tree>) {
    && |pending| == |subs|
    && (forall i :: 0 <= i < |pending| ==> pending[i] in sub && sub[pending[i]] == subs[i])
    && (forall i :: 0 <= i < |pending| ==> subs[i].Node? && AllInt32(subs[i]) && pending[i].val == subs[i].val)
    && (forall i, j :: 0 <= i < j < |pending| ==> pending[i] != pending[j])
  }

  ghost predicate Finished(pending: seq<TreeNode>, sub: map<TreeNode, Tree>)
    reads sub.Keys
  {
    forall n :: n in sub ==> n in pending || Linked(n, sub)
  }

  ghost function Extend(sub: map<TreeNode, Tree>, p: TreeNode?, t: Tree): map<TreeNode, Tree> {
    if p == null then sub else sub[p := t]
  }

  lemma ExtendPoints(p: TreeNode?, t: Tree, sub: map<TreeNode, Tree>, q: TreeNode?, u: Tree)
    requires Points(p, t, sub) && (q != null ==> q !in sub)
    ensures Points(p, t, Extend(sub, q, u))
  {
  }

  // With the children attached the first pending node is linked, and the children wait at the back.
  lemma FinishFirst(pending: seq<TreeNode>, subs: seq<Tree>, sub: map<TreeNode, Tree>)
    requires pending != [] && Waiting(pending, subs, sub)
    requires forall n :: n in sub && n != pending[0] ==> n in pending || Linked(n, sub)
    requires
      var n := pending[0];
      && n.left !in sub && n.right !in sub && (n.left != null ==> n.left != n.right)
      && (n.left == null <==> subs[0].left == Nil) && (n.right == null <==> subs[0].right == Nil)
    ensures
      var n, t := pending[0], subs[0];
      Finished(pending[1..] + Queued(n.left) + Queued(n.right), Extend(Extend(sub, n.left, t.left), n.right, t.right))
  {
    var n, t := pending[0], subs[0];
    var sub1 := Extend(sub, n.left, t.left);
    var sub2 := Extend(sub1, n.right, t.right);
    var pending' := pending[1..] + Queued(n.left) + Queued(n.right);
    forall m | m in sub2 ensures m in pending' || Linked(m, sub2) {
      if m == n {
      } else if m in sub {
        if m in pending {
          assert m in pending[1..];
        } else {
          StillLinked(m, sub, n.left, t.left, n.right, t.right);
        }
      } else {
        assert m == n.left || m == n.right;
      }
    }
  }

  lemma StillLinked(m: TreeNode, sub: map<TreeNode, Tree>, p: TreeNode?, t: Tree, q: TreeNode?, u: Tree)
    requires m in sub && Linked(m, sub) && p !in sub && q !in sub && (p != null ==> p != q)
    ensures m in Extend(Extend(sub, p, t), q, u) && Linked(m, Extend(Extend(sub, p, t), q, u))
  {
    ExtendPoints(m.left, sub[m].left, sub, p, t);
    ExtendPoints(m.right, sub[m].right, sub, p, t);
    ExtendPoints(m.left, sub[m].left, Extend(sub, p, t), q, u);
    ExtendPoints(m.right, sub[m].right, Extend(sub, p, t), q, u);
  }

  lemma WaitFirst(pending: seq<TreeNode>, subs: seq<Tree>, sub: map<TreeNode, Tree>)
    requires pending != [] && Waiting(pending, subs, sub)
    requires
      var n, t := pending[0], subs[0];
      && n.left !in sub && n.right !in sub && (n.left != null ==> n.left != n.right)
      && Reads(TokenOf(t.left), n.left, t.left) && Reads(TokenOf(t.right), n.right, t.right)
    ensures
      var n, t := pending[0], subs[0];
      Waiting(
        pending[1..] + Queued(n.left) + Queued(n.right), subs[1..] + Present(t.left) + Present(t.right),
        Extend(Extend(sub, n.left, t.left), n.right, t.right))
  {
    hide TokenOf;
    var n, t := pending[0], subs[0];
    WaitMore(pending[1..], subs[1..], sub, n.left, t.left);
    WaitMore(pending[1..] + Queued(n.left), subs[1..] + Present(t.left), Extend(sub, n.left, t.left), n.right, t.right);
  }

  lemma WaitMore(pending: seq<TreeNode>, subs: seq<Tree>, sub: map<TreeNode, Tree>, p: TreeNode?, t: Tree)
    requires Waiting(pending, subs, sub) && p !in sub && Reads(TokenOf(t), p, t)
    ensures Waiting(pending + Queued(p), subs + Present(t), Extend(sub, p, t))
  {
    if p == null {
      assert pending + [] == pending && subs + [] == subs;
    }
  }

  lemma Unique(data: string, t: Tree)
    requires AllInt32(t) && data == SerializeText(t)
    ensures SplitFrom(data, "") == Encode([t])
    ensures forall u :: AllInt32(u) && data == SerializeText(u) ==> u == t
  {
    EncodeTokens([t]);
    SplitText(Encode([t]));
    hide SerializeText, AllInt32;
    forall u | AllInt32(u) && data == SerializeText(u) ensures u == t { SerializeInjective(u, t); }
  }

  lemma FirstToken(t: Tree)
    ensures Encode([t]) == [TokenOf(t)] + Encode(Children(t))
  {
    EncodeHead(t, []);
    assert [t] + [] == [t] && [] + Children(t) == Children(t);
  }

  lemma StartDecoding(root: TreeNode, t: Tree)
    requires t.Node? && AllInt32(t) && root.val == t.val
    ensures Waiting([root], [t], map[root := t]) && Finished([root], map[root := t])
    ensures AllChildren([t]) == Children(t)
  {
    ChildrenOfPresent(t);
  }

  lemma AllDone(sub: map<TreeNode, Tree>, root: TreeNode, t: Tree)
    requires Finished([], sub) && root in sub && sub[root] == t
    ensures Represents(root, t, sub.Keys)
  {
    LinkedRepresents(root, t, sub);
  }

  // The tokens left are those of the children of the pending trees.
  ghost predicate InStep(values: seq<string>, i: nat, subs: seq<Tree>) {
    i <= |values| && values[i..] == Encode(AllChildren(subs))
  }

  lemma StepTokens(values: seq<string>, i: nat, subs: seq<Tree>)
    requires InStep(values, i, subs) && subs != [] && subs[0].Node?
    ensures i + 2 <= |values| && values[i] == TokenOf(subs[0].left) && values[i + 1] == TokenOf(subs[0].right)
    ensures InStep(values, i + 2, subs[1..] + Present(subs[0].left) + Present(subs[0].right))
  {
    hide Encode, AllChildren, TokenOf, Present;
    DecodeStep(subs);
    assert values[i..][2..] == values[i + 2..] && values[i..][0] == values[i] && values[i..][1] == values[i + 1];
  }

  lemma FirstWaiting(pending: seq<TreeNode>, subs: seq<Tree>, sub: map<TreeNode, Tree>)
    requires pending != [] && Waiting(pending, subs, sub)
    ensures |subs| == |pending| && pending[0] in sub && subs[0].Node? && AllInt32(subs[0])
  {
  }

  lemma StartTokens(values: seq<string>, t: Tree)
    requires t.Node? && values == [TokenOf(t)] + Encode(Children(t))
    ensures InStep(values, 1, [t])
  {
    ChildrenOfPresent(t);
    assert values[1..] == Encode(Children(t));
  }

  method DecodeQueue(root: TreeNode, values: seq<string>, ghost t: Tree, ghost known: bool)
    returns (ok: bool, ghost nodes: set<TreeNode>)
    requires known ==> t.Node? && AllInt32(t) && root.val == t.val && values == [TokenOf(t)] + Encode(Children(t))
    modifies root
    ensures fresh(nodes - {root})
    ensures known ==> ok && Represents(root, t, nodes)
  {
    hide Encode, TokenOf, AllInt32, Represents, Linked, Waiting, InStep;
    var pending: seq<TreeNode> := [root];
    var i: nat := 1;
    ghost var subs, sub := [t], map[root := t];
    if known {
      StartDecoding(root, t);
      StartTokens(values, t);
    }
    while pending != []
      invariant forall j :: 0 <= j < |pending| ==> pending[j] == root || fresh(pending[j])
      invariant forall n :: n in sub ==> n == root || fresh(n)
      invariant known ==> Waiting(pending, subs, sub) && Finished(pending, sub) && InStep(values, i, subs)
      invariant known ==> |subs| == |pending|
      invariant root in sub && sub[root] == t
      decreases |values| - i
    {
      var node := pending[0];
      ghost var first := if known then subs[0] else Nil;
      if known {
        FirstWaiting(pending, subs, sub);
        StepTokens(values, i, subs);
      }
      if i + 2 > |values| { return false, {}; }
      var read := ReadChildren(node, values[i], values[i + 1], first);
      if !read { return false, {}; }
      i := i + 2;
      if known {
        FinishFirst(pending, subs, sub);
        WaitFirst(pending, subs, sub);
        subs := subs[1..] + Present(first.left) + Present(first.right);
        sub := Extend(Extend(sub, node.left, first.left), node.right, first.right);
      }
      ghost var queue := pending;
      pending := pending[1..];
      if node.left != null { pending := pending + [node.left]; }
      if node.right != null { pending := pending + [node.right]; }
      assert pending == queue[1..] + Queued(node.left) + Queued(node.right);
    }
    if known { AllDone(sub, root, t); }
    return true, sub.Keys;
  }

  // Decoding a serialisation gives a heap tree with the same shape and values, and reads no token
  // out of range; on any other text it stops with an error or yields some tree.
  method Deserialize(data: string) returns (r: Result<TreeNode?>, ghost nodes: set<TreeNode>)
    ensures fresh(nodes)
    ensures forall t :: AllInt32(t) && data == SerializeText(t) ==> r.Ok? && Represents(r.value, t, nodes)
  {
    hide Encode, Text, SplitFrom, TokenOf, Stoi, AllInt32, Represents;
    nodes := {};
    var values := SplitTokens(data);
    ghost var known := exists t :: AllInt32(t) && data == SerializeText(t);
    ghost var t := Nil;
    if known {
      t :| AllInt32(t) && data == SerializeText(t);
      Unique(data, t);
      FirstToken(t);
    }
    if values == [] { return Err, {}; }
    var first := ReadNode(values[0]);
    Readable(t);
    if first.Err? { return Err, {}; }
    var root := first.value;
    if root == null {
      NilRepresents();
      return first, {};
    }
    var ok;
    ok, nodes := DecodeQueue(root, values, t, known);
    r := if ok then first else Err;
  }

  lemma NilRepresents()
    ensures Represents(null, Nil, {})
  {
  }
}
