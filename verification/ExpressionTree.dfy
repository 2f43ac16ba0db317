/**
 A small compiler: infix text to postfix with an operator stack, postfix to a tree, tree to a
 value.  Integers are unbounded; a division by zero and a pop from an empty stack have no result.
 */
module ExpressionTree {
  import opened Arithmetic
  import opened Options
  import opened Texts

  // ---------------------------------------------------------------- the code as functions

  function Priority(op: char): int {
    match op
    case '+' => 1
    case '-' => 1
    case '*' => 2
    case '/' => 2
    case '(' => 3
    case ')' => 3
    case _ => -1
  }

  predicate IsDigit(c: char) { '0' <= c <= '9' }

  // Whether the operator `c` waits behind the one on top of the stack.
  predicate Waits(ops: string, c: char) {
    ops != "" && Last(ops) != '(' && Priority(c) <= Priority(Last(ops))
  }

  // Operators of the same or a higher priority go out before `c` goes on the stack.
  function PushOperator(out: string, ops: string, c: char): (string, string)
    decreases |ops|
  {
    if Waits(ops, c) then PushOperator(out + [Last(ops)], Front(ops), c) else (out, ops + [c])
  }

  // Everything down to the matching parenthesis goes out.
  function Close(out: string, ops: string): Option<(string, string)>
    decreases |ops|
  {
    if ops == "" then None
    else if Last(ops) == '(' then Some((out, Front(ops)))
    else Close(out + [Last(ops)], Front(ops))
  }

  function Drain(out: string, ops: string): string
    decreases |ops|
  {
    if ops == "" then out else Drain(out + [Last(ops)], Front(ops))
  }

  function Shunt(s: string, out: string, ops: string): Option<string>
    decreases |s|
  {
    if s == "" then Some(Drain(out, ops))
    else
      var c, rest := s[0], s[1..];
      if IsDigit(c) then Shunt(rest, out + [c], ops)
      else if c == '(' then Shunt(rest, out, ops + [c])
      else if c == ')' then
        var closed := Close(out, ops);
        if closed.None? then None else Shunt(rest, closed.value.0, closed.value.1)
      else
        var pushed := PushOperator(out, ops, c);
        Shunt(rest, pushed.0, pushed.1)
  }

  datatype Tree = Leaf(data: int) | Node(op: char, left: Tree, right: Tree)

  function Build(s: string, stack: seq<Tree>): Option<Tree>
    decreases |s|
  {
    var n := |stack|;
    if s == "" then (if n == 0 then None else Some(stack[n - 1]))
    else if IsDigit(s[0]) then Build(s[1..], stack + [Leaf((s[0] - '0') as int)])
    else if n < 2 then None
    else Build(s[1..], stack[..n - 2] + [Node(s[0], stack[n - 2], stack[n - 1])])
  }

  // The division of C++: towards zero.
  function Quotient(a: int, b: int): (q: int)
    requires b != 0
    ensures (if a >= 0 then 0 <= a - q * b else a - q * b <= 0)
    ensures (if b >= 0 then -b < a - q * b < b else b < a - q * b < -b)
  {
    if a >= 0 then a / b else -((-a) / b)
  }

  function Calculate(a: int, b: int, op: char): Option<int> {
    match op
    case '+' => Some(a + b)
    case '-' => Some(a - b)
    case '*' => Some(a * b)
    case '/' => if b == 0 then None else Some(Quotient(a, b))
    case _ => None
  }

  function Eval(t: Tree): Option<int> {
    match t
    case Leaf(data) => Some(data)
    case Node(op, left, right) =>
      var a, b := Eval(left), Eval(right);
      if a.None? || b.None? then None else Calculate(a.value, b.value, op)
  }

  // ---------------------------------------------------------------- what an expression means

  type AddOp = c: char | c == '+' || c == '-' witness '+'
  type MulOp = c: char | c == '*' || c == '/' witness '*'
  type Digit = c: char | IsDigit(c) witness '0'

  // The usual grammar: sums of products of digits and parenthesised expressions, both grouping to
  // the left.
  datatype Expr = Sum(init: Expr, add: AddOp, last: Term) | Single(term: Term)
  datatype Term = Product(front: Term, mul: MulOp, rhs: Factor) | Only(factor: Factor)
  datatype Factor = Number(digit: Digit) | Paren(inner: Expr)

  function ExprText(e: Expr): string {
    match e
    case Sum(init, add, last) => ExprText(init) + ([add] + TermText(last))
    case Single(term) => TermText(term)
  }

  function TermText(t: Term): string {
    match t
    case Product(front, mul, rhs) => TermText(front) + ([mul] + FactorText(rhs))
    case Only(factor) => FactorText(factor)
  }

  function FactorText(f: Factor): string {
    match f
    case Number(digit) => [digit]
    case Paren(inner) => ['('] + (ExprText(inner) + [')'])
  }

  function Abs(n: int): nat { if n < 0 then -n else n }

  // Division of the magnitudes, negative when the signs differ.
  function Truncated(a: int, b: int): int
    requires b != 0
  {
    if (a < 0) != (b < 0) then -((Abs(a) / Abs(b)) as int) else Abs(a) / Abs(b)
  }

  function SumValue(a: Option<int>, add: AddOp, b: Option<int>): Option<int> {
    if a.None? || b.None? then None else Some(if add == '+' then a.value + b.value else a.value - b.value)
  }

  function ProductValue(a: Option<int>, mul: MulOp, b: Option<int>): Option<int> {
    if a.None? || b.None? then None
    else if mul == '*' then Some(a.value * b.value)
    else if b.value == 0 then None
    else Some(Truncated(a.value, b.value))
  }

  function ExprValue(e: Expr): Option<int> {
    match e
    case Sum(init, add, last) => SumValue(ExprValue(init), add, TermValue(last))
    case Single(term) => TermValue(term)
  }

  function TermValue(t: Term): Option<int> {
    match t
    case Product(front, mul, rhs) => ProductValue(TermValue(front), mul, FactorValue(rhs))
    case Only(factor) => FactorValue(factor)
  }

  function FactorValue(f: Factor): Option<int> {
    match f
    case Number(digit) => Some((digit - '0') as int)
    case Paren(inner) => ExprValue(inner)
  }

  // ---------------------------------------------------------------- postfix and tree of one

  function ExprPost(e: Expr): string {
    match e
    case Sum(init, add, last) => ExprPost(init) + TermPost(last) + [add]
    case Single(term) => TermPost(term)
  }

  function TermPost(t: Term): string {
    match t
    case Product(front, mul, rhs) => TermPost(front) + FactorPost(rhs) + [mul]
    case Only(factor) => FactorPost(factor)
  }

  function FactorPost(f: Factor): string {
    match f
    case Number(digit) => [digit]
    case Paren(inner) => ExprPost(inner)
  }

  function ExprTree(e: Expr): Tree {
    match e
    case Sum(init, add, last) => Node(add, ExprTree(init), TermTree(last))
    case Single(term) => TermTree(term)
  }

  function TermTree(t: Term): Tree {
    match t
    case Product(front, mul, rhs) => Node(mul, TermTree(front), FactorTree(rhs))
    case Only(factor) => FactorTree(factor)
  }

  function FactorTree(f: Factor): Tree {
    match f
    case Number(digit) => Leaf((digit - '0') as int)
    case Paren(inner) => ExprTree(inner)
  }

  // ---------------------------------------------------------------- text to postfix

  // A stack on which an expression, respectively a product, can start.
  predicate Fresh(ops: string) { ops == "" || Last(ops) == '(' }

  predicate NoProduct(ops: string) { ops == "" || Last(ops) == '(' || Priority(Last(ops)) == 1 }

  lemma StepOperator(c: char, rest: string, out: string, ops: string)
    requires !IsDigit(c) && c != '(' && c != ')'
    ensures Shunt([c] + rest, out, ops) == Shunt(rest, PushOperator(out, ops, c).0, PushOperator(out, ops, c).1)
  {
    assert ([c] + rest)[1..] == rest;
  }

  // The operators still pending from an expression: at most one of each priority.
  predicate Pending(adds: string, muls: string) {
    && |adds| <= 1 && |muls| <= 1
    && (adds != "" ==> Priority(adds[0]) == 1 && adds[0] != '(')
    && (muls != "" ==> Priority(muls[0]) == 2 && muls[0] != '(')
  }

  lemma PopOne(out: string, ops: string, p: char, c: char)
    requires p != '(' && Priority(c) <= Priority(p)
    ensures PushOperator(out, ops + [p], c) == PushOperator(out + [p], ops, c)
  {
    assert Front(ops + [p]) == ops;
  }

  // A sum operator sends all pending operators out.
  lemma PushAdd(out: string, ops: string, adds: string, muls: string, c: char)
    requires Fresh(ops) && Pending(adds, muls) && Priority(c) == 1
    ensures PushOperator(out, ops + adds + muls, c) == (out + muls + adds, ops + [c])
  {
    if muls != "" {
      assert muls == [muls[0]];
      PopOne(out, ops + adds, muls[0], c);
    } else {
      assert ops + adds + muls == ops + adds && out + muls == out;
    }
    if adds != "" {
      assert adds == [adds[0]];
      PopOne(out + muls, ops, adds[0], c);
    } else {
      assert ops + adds == ops && out + muls + adds == out + muls;
    }
  }

  // A product operator sends a pending product operator out and leaves a sum operator waiting.
  lemma PushMul(out: string, ops: string, muls: string, c: char)
    requires NoProduct(ops) && Pending("", muls) && Priority(c) == 2
    ensures PushOperator(out, ops + muls, c) == (out + muls, ops + [c])
  {
    if muls != "" {
      assert muls == [muls[0]];
      PopOne(out, ops, muls[0], c);
    } else {
      assert ops + muls == ops && out + muls == out;
    }
  }

  lemma CloseOne(out: string, ops: string, p: char)
    ensures Close(out, ops + [p]) == if p == '(' then Some((out, ops)) else Close(out + [p], ops)
    ensures Drain(out, ops + [p]) == Drain(out + [p], ops)
  {
    assert Front(ops + [p]) == ops;
  }

  lemma ClosePending(out: string, ops: string, adds: string, muls: string)
    requires Pending(adds, muls)
    ensures Close(out, ops + ['('] + adds + muls) == Some((out + muls + adds, ops))
  {
    var base := ops + ['('];
    PopPending(out, base, adds, muls);
    CloseOne(out + muls + adds, ops, '(');
  }

  lemma PopPending(out: string, base: string, adds: string, muls: string)
    requires Pending(adds, muls)
    ensures Close(out, base + adds + muls) == Close(out + muls + adds, base)
    ensures Drain(out, base + adds + muls) == Drain(out + muls + adds, base)
  {
    hide Close, Drain;
    if muls != "" {
      assert muls == [muls[0]];
      CloseOne(out, base + adds, muls[0]);
    } else {
      assert base + adds + muls == base + adds && out + muls == out;
    }
    if adds != "" {
      assert adds == [adds[0]];
      CloseOne(out + muls, base, adds[0]);
    } else {
      assert base + adds == base && out + muls + adds == out + muls;
    }
  }

  lemma DrainPending(out: string, adds: string, muls: string)
    requires Pending(adds, muls)
    ensures Drain(out, adds + muls) == out + muls + adds
  {
    PopPending(out, "", adds, muls);
    assert "" + adds + muls == adds + muls;
  }

  // An expression's text leaves its postfix, split between the output and what is pending.
  lemma {:induction false} ShuntExpr(e: Expr, rest: string, out: string, ops: string)
    returns (out': string, adds: string, muls: string)
    requires Fresh(ops)
    ensures Pending(adds, muls) && out' + muls + adds == out + ExprPost(e)
    ensures Shunt(ExprText(e) + rest, out, ops) == Shunt(rest, out', ops + adds + muls)
    decreases e
  {
    match e
    case Single(term) =>
      out', muls := ShuntTerm(term, rest, out, ops);
      adds := "";
      assert ops + "" + muls == ops + muls && out' + muls + "" == out' + muls;
    case Sum(init, add, last) =>
      var text := TermText(last);
      var o1, a1, m1 := ShuntExpr(init, [add] + (text + rest), out, ops);
      assert ExprText(e) + rest == ExprText(init) + ([add] + (text + rest));
      StepOperator(add, text + rest, o1, ops + a1 + m1);
      PushAdd(o1, ops, a1, m1, add);
      out', muls := ShuntTerm(last, rest, out + ExprPost(init), ops + [add]);
      adds := [add];
      SumPost(out, init, add, last, out', muls);
  }

  lemma SumPost(out: string, init: Expr, add: AddOp, last: Term, out': string, muls: string)
    requires out' + muls == out + ExprPost(init) + TermPost(last)
    ensures out' + muls + [add] == out + ExprPost(Sum(init, add, last))
  {
    var p, q := ExprPost(init), TermPost(last);
    assert ExprPost(Sum(init, add, last)) == p + q + [add];
    hide ExprPost, TermPost;
    assert out + p + q + [add] == out + (p + q + [add]);
  }

  lemma {:induction false} ShuntTerm(t: Term, rest: string, out: string, ops: string)
    returns (out': string, muls: string)
    requires NoProduct(ops)
    ensures Pending("", muls) && out' + muls == out + TermPost(t)
    ensures Shunt(TermText(t) + rest, out, ops) == Shunt(rest, out', ops + muls)
    decreases t
  {
    match t
    case Only(factor) =>
      ShuntFactor(factor, rest, out, ops);
      out', muls := out + FactorPost(factor), "";
      assert ops + "" == ops && out' + "" == out';
    case Product(front, mul, rhs) =>
      var text := FactorText(rhs);
      var o1, m1 := ShuntTerm(front, [mul] + (text + rest), out, ops);
      assert TermText(t) + rest == TermText(front) + ([mul] + (text + rest));
      StepOperator(mul, text + rest, o1, ops + m1);
      PushMul(o1, ops, m1, mul);
      ShuntFactor(rhs, rest, out + TermPost(front), ops + [mul]);
      out', muls := out + TermPost(front) + FactorPost(rhs), [mul];
      assert out' + [mul] == out + (TermPost(front) + FactorPost(rhs) + [mul]);
  }

  // A factor's postfix is all out, whatever is on the stack.
  lemma {:induction false} ShuntFactor(f: Factor, rest: string, out: string, ops: string)
    ensures Shunt(FactorText(f) + rest, out, ops) == Shunt(rest, out + FactorPost(f), ops)
    decreases f
  {
    match f
    case Number(digit) =>
      assert ([digit] + rest)[1..] == rest;
    case Paren(inner) =>
      var text := ExprText(inner);
      var s := FactorText(f) + rest;
      assert s[0] == '(' && s[1..] == text + ([')'] + rest);
      var o, a, m := ShuntExpr(inner, [')'] + rest, out, ops + ['(']);
      assert ([')'] + rest)[1..] == rest;
      ClosePending(o, ops, a, m);
  }

  lemma PostfixOfText(e: Expr)
    ensures Shunt(ExprText(e), "", "") == Some(ExprPost(e))
  {
    var o, a, m := ShuntExpr(e, "", "", "");
    assert ExprText(e) + "" == ExprText(e) && "" + a + m == a + m && "" + ExprPost(e) == ExprPost(e);
    DrainPending(o, a, m);
  }

  // ---------------------------------------------------------------- postfix to tree

  lemma BuildNode(op: char, rest: string, stack: seq<Tree>, l: Tree, r: Tree)
    requires !IsDigit(op)
    ensures Build([op] + rest, stack + [l] + [r]) == Build(rest, stack + [Node(op, l, r)])
  {
    var all := stack + [l] + [r];
    assert ([op] + rest)[1..] == rest && all[..|all| - 2] == stack;
  }

  lemma {:induction false} BuildExpr(e: Expr, rest: string, stack: seq<Tree>)
    ensures Build(ExprPost(e) + rest, stack) == Build(rest, stack + [ExprTree(e)])
    decreases e
  {
    match e
    case Single(term) => BuildTerm(term, rest, stack);
    case Sum(init, add, last) =>
      var tail := [add] + rest;
      assert ExprPost(e) + rest == ExprPost(init) + (TermPost(last) + tail);
      BuildExpr(init, TermPost(last) + tail, stack);
      BuildTerm(last, tail, stack + [ExprTree(init)]);
      BuildNode(add, rest, stack, ExprTree(init), TermTree(last));
  }

  lemma {:induction false} BuildTerm(t: Term, rest: string, stack: seq<Tree>)
    ensures Build(TermPost(t) + rest, stack) == Build(rest, stack + [TermTree(t)])
    decreases t
  {
    match t
    case Only(factor) => BuildFactor(factor, rest, stack);
    case Product(front, mul, rhs) =>
      var tail := [mul] + rest;
      assert TermPost(t) + rest == TermPost(front) + (FactorPost(rhs) + tail);
      BuildTerm(front, FactorPost(rhs) + tail, stack);
      BuildFactor(rhs, tail, stack + [TermTree(front)]);
      BuildNode(mul, rest, stack, TermTree(front), FactorTree(rhs));
  }

  lemma {:induction false} BuildFactor(f: Factor, rest: string, stack: seq<Tree>)
    ensures Build(FactorPost(f) + rest, stack) == Build(rest, stack + [FactorTree(f)])
    decreases f
  {
    match f
    case Number(digit) => assert ([digit] + rest)[1..] == rest;
    case Paren(inner) => BuildExpr(inner, rest, stack);
  }

  lemma TreeOfPostfix(e: Expr)
    ensures Build(ExprPost(e), []) == Some(ExprTree(e))
  {
    BuildExpr(e, "", []);
    assert ExprPost(e) + "" == ExprPost(e);
  }

  // ---------------------------------------------------------------- tree to value

  // Two quotients whose remainders are below the divisor's size and have the dividend's sign.
  lemma QuotientUnique(a: int, b: int, q: int, r: int)
    requires b != 0
    requires Abs(a - q * b) < Abs(b) && Abs(a - r * b) < Abs(b)
    requires (a - q * b >= 0 && a - r * b >= 0) || (a - q * b <= 0 && a - r * b <= 0)
    ensures q == r
  {
    assert (q - r) * b == (a - r * b) - (a - q * b);
    if q > r { Grows(q - r, b); } else if r > q { Grows(r - q, b); }
  }

  // The code's division is the truncating one.
  lemma QuotientTruncates(a: int, b: int)
    requires b != 0
    ensures Quotient(a, b) == Truncated(a, b)
  {
    var x, y := Abs(a), Abs(b);
    var n := x / y;
    assert x == n * y + x % y;
    assert a - Truncated(a, b) * b == if a < 0 then -(x % y) else x % y by {
      assert (-n) * b == -(n * b) && n * (-b) == -(n * b);
    }
    QuotientUnique(a, b, Quotient(a, b), Truncated(a, b));
  }

  // Calculate means what the grammar says of each operator.
  lemma CalculateSum(a: int, op: AddOp, b: int)
    ensures Calculate(a, b, op) == SumValue(Some(a), op, Some(b))
  {
  }

  lemma CalculateProduct(a: int, op: MulOp, b: int)
    ensures Calculate(a, b, op) == ProductValue(Some(a), op, Some(b))
  {
    if b != 0 { QuotientTruncates(a, b); }
  }

  lemma {:induction false} EvalExpr(e: Expr)
    ensures Eval(ExprTree(e)) == ExprValue(e)
    decreases e
  {
    match e
    case Single(term) => EvalTerm(term);
    case Sum(init, add, last) =>
      EvalExpr(init);
      EvalTerm(last);
      var a, b := ExprValue(init), TermValue(last);
      if a.Some? && b.Some? { CalculateSum(a.value, add, b.value); }
  }

  lemma {:induction false} EvalTerm(t: Term)
    ensures Eval(TermTree(t)) == TermValue(t)
    decreases t
  {
    match t
    case Only(factor) => EvalFactor(factor);
    case Product(front, mul, rhs) =>
      EvalTerm(front);
      EvalFactor(rhs);
      var a, b := TermValue(front), FactorValue(rhs);
      if a.Some? && b.Some? { CalculateProduct(a.value, mul, b.value); }
  }

  lemma {:induction false} EvalFactor(f: Factor)
    ensures Eval(FactorTree(f)) == FactorValue(f)
    decreases f
  {
    match f
    case Number(_) =>
    case Paren(inner) => EvalExpr(inner);
  }

  // ---------------------------------------------------------------- the whole compiler

  function Compile(text: string): Option<Tree> {
    var postfix := Shunt(text, "", "");
    if postfix.None? then None else Build(postfix.value, [])
  }

  // No stack pop underflows on a well-formed expression, and the tree has its value.
  lemma MeaningPreserved(e: Expr)
    ensures Compile(ExprText(e)).Some? && Eval(Compile(ExprText(e)).value) == ExprValue(e)
  {
    PostfixOfText(e);
    TreeOfPostfix(e);
    EvalExpr(e);
  }

  // A text has one meaning: it cannot be read as two expressions of different value.
  lemma TextDeterminesValue(e: Expr, f: Expr)
    requires ExprText(e) == ExprText(f)
    ensures ExprValue(e) == ExprValue(f)
  {
    MeaningPreserved(e);
    MeaningPreserved(f);
  }

  // ---------------------------------------------------------------- when the stack underflows

  function Opens(ops: string): (n: nat)
    ensures n <= |ops|
  {
    if ops == "" then 0 else Opens(Front(ops)) + if Last(ops) == '(' then 1 else 0
  }

  // Every closing parenthesis finds an open one, given `depth` already open.
  predicate Matched(s: string, depth: nat) {
    s == "" || if s[0] == '(' then Matched(s[1..], depth + 1)
    else if s[0] == ')' then depth > 0 && Matched(s[1..], depth - 1)
    else Matched(s[1..], depth)
  }

  lemma {:induction false} PushKeepsOpens(out: string, ops: string, c: char)
    requires c != '('
    ensures Opens(PushOperator(out, ops, c).1) == Opens(ops)
    decreases |ops|
  {
    if Waits(ops, c) {
      PushKeepsOpens(out + [Last(ops)], Front(ops), c);
    } else {
      assert Front(ops + [c]) == ops;
    }
  }

  lemma {:induction false} CloseOpens(out: string, ops: string)
    ensures Close(out, ops).Some? <==> Opens(ops) > 0
    ensures Close(out, ops).Some? ==> Opens(Close(out, ops).value.1) == Opens(ops) - 1
    decreases |ops|
  {
    if ops != "" && Last(ops) != '(' { CloseOpens(out + [Last(ops)], Front(ops)); }
  }

  // The conversion of any text pops an empty stack exactly when some closing parenthesis has no
  // partner before it.
  lemma {:induction false} UnderflowIff(s: string, out: string, ops: string)
    ensures Shunt(s, out, ops).Some? <==> Matched(s, Opens(ops))
    decreases |s|
  {
    if s != "" {
      var c, rest := s[0], s[1..];
      if IsDigit(c) {
        UnderflowIff(rest, out + [c], ops);
      } else if c == '(' {
        assert Front(ops + [c]) == ops;
        UnderflowIff(rest, out, ops + [c]);
      } else if c == ')' {
        CloseOpens(out, ops);
        if Close(out, ops).Some? {
          var closed := Close(out, ops).value;
          UnderflowIff(rest, closed.0, closed.1);
        }
      } else {
        PushKeepsOpens(out, ops, c);
        var pushed := PushOperator(out, ops, c);
        UnderflowIff(rest, pushed.0, pushed.1);
      }
    }
  }

  // Digits over everything else: how far building from a text raises the node stack.
  function Surplus(s: string): int {
    if s == "" then 0 else (if IsDigit(s[0]) then 1 else -1) + Surplus(s[1..])
  }

  // The tree builder never underflows exactly when every beginning of the postfix has more digits
  // than operators, counting the `depth` trees it starts with.
  predicate Supplied(s: string, depth: nat) {
    forall i :: 0 < i <= |s| ==> depth + Surplus(s[..i]) >= 1
  }

  lemma SuppliedStep(s: string, depth: nat)
    requires s != ""
    ensures Supplied(s, depth) <==>
      if IsDigit(s[0]) then Supplied(s[1..], depth + 1) else depth >= 2 && Supplied(s[1..], depth - 1)
  {
    var d := if IsDigit(s[0]) then 1 else -1;
    forall i | 0 < i <= |s| ensures Surplus(s[..i]) == d + Surplus(s[1..][..i - 1]) {
      assert s[..i][1..] == s[1..][..i - 1];
    }
    assert s[1..][..0] == "";
    if Supplied(s, depth) {
      assert depth + Surplus(s[..1]) >= 1;
      forall i | 0 < i <= |s| - 1 ensures depth + d + Surplus(s[1..][..i]) >= 1 {
        assert depth + Surplus(s[..i + 1]) >= 1;
      }
    }
  }

  lemma {:induction false} BuildIff(s: string, stack: seq<Tree>)
    ensures Build(s, stack).Some? <==> (s != "" || stack != []) && Supplied(s, |stack|)
    decreases |s|
  {
    hide Supplied;
    if s != "" {
      SuppliedStep(s, |stack|);
      var n := |stack|;
      if IsDigit(s[0]) {
        BuildIff(s[1..], stack + [Leaf((s[0] - '0') as int)]);
      } else if n >= 2 {
        BuildIff(s[1..], stack[..n - 2] + [Node(s[0], stack[n - 2], stack[n - 1])]);
      }
    } else {
      NoneNeeded(|stack|);
    }
  }

  lemma NoneNeeded(depth: nat)
    ensures Supplied("", depth)
  {
  }

  // Which texts compile at all: those whose closing parentheses are matched and whose postfix is
  // not empty and never runs out of operands.
  lemma CompileIff(text: string)
    ensures Shunt(text, "", "").Some? <==> Matched(text, 0)
    ensures Compile(text).Some? <==>
      Matched(text, 0) && Shunt(text, "", "").value != "" && Supplied(Shunt(text, "", "").value, 0)
  {
    hide Matched, Supplied, Shunt, Build;
    assert Opens("") == 0;
    UnderflowIff(text, "", "");
    if Shunt(text, "", "").Some? { BuildIff(Shunt(text, "", "").value, []); }
  }

  // A lone closing parenthesis underflows the operator stack.
  lemma LoneParenthesis()
    ensures Shunt(")", "", "") == None
  {
    hide Shunt;
    UnderflowIff(")", "", "");
  }

  // A lone operator converts, and underflows the node stack.
  lemma LoneOperator(op: char)
    requires Priority(op) == 1 || Priority(op) == 2
    ensures Shunt([op], "", "") == Some([op]) && Compile([op]) == None
  {
    assert [op] + "" == [op];
    StepOperator(op, "", "", "");
    PushFirst(op);
    CloseOne("", "", op);
    hide PushOperator, Close, Drain;
    DrainNone([op]);
    assert "" + [op] == [op];
  }

  lemma PushFirst(op: char)
    ensures PushOperator("", "", op) == ("", [op])
  {
    assert "" + [op] == [op];
  }

  lemma DrainNone(out: string)
    ensures Drain(out, "") == out
  {
  }

  // ---------------------------------------------------------------- the loops

  method InfixToPostfix(text: string) returns (r: Option<string>)
    ensures r == Shunt(text, "", "")
  {
    hide Close, PushOperator, Drain;
    var postfix, stackOp := "", "";
    var i := 0;
    assert text[0..] == text;
    while i < |text|
      invariant 0 <= i <= |text| && Shunt(text[i..], postfix, stackOp) == Shunt(text, "", "")
    {
      var c := text[i];
      assert text[i..][0] == c && text[i..][1..] == text[i + 1..];
      if IsDigit(c) {
        postfix := postfix + [c];
      } else if c == '(' {
        stackOp := stackOp + [c];
      } else if c == ')' {
        var closed := PopToParenthesis(postfix, stackOp);
        if closed.None? { return None; }
        postfix, stackOp := closed.value.0, closed.value.1;
      } else {
        postfix, stackOp := PopAndPush(postfix, stackOp, c);
      }
      i := i + 1;
    }
    assert text[i..] == "";
    postfix := PopAll(postfix, stackOp);
    r := Some(postfix);
  }

  method PopToParenthesis(postfix: string, stackOp: string) returns (r: Option<(string, string)>)
    ensures r == Close(postfix, stackOp)
  {
    var out, ops := postfix, stackOp;
    while true
      invariant Close(out, ops) == Close(postfix, stackOp)
      decreases |ops|
    {
      if ops == "" { return None; }
      var op := Last(ops);
      ops := Front(ops);
      if op == '(' { return Some((out, ops)); }
      out := out + [op];
    }
  }

  method PopAndPush(postfix: string, stackOp: string, c: char) returns (out: string, ops: string)
    ensures (out, ops) == PushOperator(postfix, stackOp, c)
  {
    out, ops := postfix, stackOp;
    while !(ops == "" || Last(ops) == '(' || Priority(c) > Priority(Last(ops)))
      invariant PushOperator(out, ops, c) == PushOperator(postfix, stackOp, c)
      decreases |ops|
    {
      out, ops := out + [Last(ops)], Front(ops);
    }
    ops := ops + [c];
  }

  method PopAll(postfix: string, stackOp: string) returns (out: string)
    ensures out == Drain(postfix, stackOp)
  {
    out := postfix;
    var ops := stackOp;
    while ops != ""
      invariant Drain(out, ops) == Drain(postfix, stackOp)
      decreases |ops|
    {
      out, ops := out + [Last(ops)], Front(ops);
    }
  }

  method ConstructExpTree(postfix: string) returns (r: Option<Tree>)
    ensures r == Build(postfix, [])
  {
    var nodeStack: seq<Tree>, i := [], 0;
    assert postfix[0..] == postfix;
    while i < |postfix|
      invariant 0 <= i <= |postfix| && Build(postfix[i..], nodeStack) == Build(postfix, [])
    {
      var c := postfix[i];
      assert postfix[i..][0] == c && postfix[i..][1..] == postfix[i + 1..];
      if IsDigit(c) {
        nodeStack := nodeStack + [Leaf((c - '0') as int)];
      } else {
        var n := |nodeStack|;
        if n < 2 { return None; }
        var right, left := nodeStack[n - 1], nodeStack[n - 2];
        nodeStack := nodeStack[..n - 2];
        nodeStack := nodeStack + [Node(c, left, right)];
      }
      i := i + 1;
    }
    assert postfix[i..] == "";
    if nodeStack == [] { return None; }
    r := Some(nodeStack[|nodeStack| - 1]);
  }
}
