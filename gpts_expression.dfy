/**
 * `Expression` of gpts_examples/algterm.py: a value that is a `Term`, an integer, another
 * `Expression` or an `(op, left, right)` tuple; its fully parenthesised rendering `_to_string`; and
 * the bottom-up constant folder `_simplify_recursive`.
 */
module GptsExpression {
  import opened Wrappers
  import opened Text

  /**
   * A value the tree can hold: a `Term` (by its symbol), an integer, an `Expression` wrapping a
   * value, or an operator tuple.
   */
  datatype Node = TermN(symbol: string) | NumN(n: int) | ExprN(inner: Node) | Tuple(op: OpName, left: Node, right: Node)

  /** The operator string of a tuple: `'+'`, `'*'`, `'^'`, or any other string. */
  datatype OpName = Plus | Times | Caret | Other(name: string)

  // ---- _to_string ----

  /** `_to_string`: every operator node in parentheses; an unknown operator renders as nothing. */
  function ToString(n: Node): string
  {
    match n
    case TermN(s) => s
    case NumN(i) => IntToString(i)
    case ExprN(v) => ToString(v)
    case Tuple(op, l, r) =>
      match op
      case Plus => "(" + ToString(l) + " + " + ToString(r) + ")"
      case Times => "(" + ToString(l) + " * " + ToString(r) + ")"
      case Caret => "(" + ToString(l) + "^" + ToString(r) + ")"
      case Other(_) => ""
  }

  /**
   * `self + other`, `self * other` and `self ** other` on an `Expression` or a `Term` (`self` is
   * the wrapped `Expression` or the term): a new `Expression` holding the tuple, rendered with the
   * operator between the two renderings, in parentheses.
   */
  function Operate(op: OpName, self: Node, other: Node): (r: Node)
    requires !op.Other?
    ensures ToString(r) == "(" + ToString(self) + Separator(op) + ToString(other) + ")"
    ensures Unwrap(r) == Tuple(op, Unwrap(self), Unwrap(other))
  {
    TupleText(op, self, other, "");
    assert Unwrap(ExprN(Tuple(op, self, other))) == Unwrap(Tuple(op, self, other));
    ExprN(Tuple(op, self, other))
  }

  /** The tree without its `Expression` wrappers, which the rendering does not show. */
  function Unwrap(n: Node): Node
  {
    match n
    case ExprN(v) => Unwrap(v)
    case Tuple(op, l, r) => Tuple(op, Unwrap(l), Unwrap(r))
    case _ => n
  }

  predicate IsAtomChar(c: char)
  {
    c != ' ' && c != '(' && c != ')' && c != '^'
  }

  /**
   * Trees whose rendering can be read back: operators `+ * ^` only, numbers non-negative, and
   * symbols non-empty, without spaces, parentheses or `^`, and not all digits.
   */
  predicate Readable(n: Node)
  {
    match n
    case TermN(s) => s != [] && AllChars(s, IsAtomChar) && !AllChars(s, IsDigit)
    case NumN(i) => i >= 0
    case ExprN(v) => Readable(v)
    case Tuple(op, l, r) => !op.Other? && Readable(l) && Readable(r)
  }

  // ---- Reading the rendering back ----

  datatype Parsed = Parsed(node: Node, rest: string)

  function AtomLength(s: string): (k: nat)
    ensures k <= |s|
  {
    if s == [] || !IsAtomChar(s[0]) then 0 else 1 + AtomLength(s[1..])
  }

  /** The operator `t` starts with, as `_to_string` separates it; empty when there is none. */
  function OperatorAt(t: string): (r: Option<OpName>)
    ensures r.Some? ==> !r.value.Other? && |Separator(r.value)| <= |t| && t[..|Separator(r.value)|] == Separator(r.value)
  {
    if |t| >= 3 && t[0] == ' ' && t[1] == '+' && t[2] == ' ' then Some(Plus)
    else if |t| >= 3 && t[0] == ' ' && t[1] == '*' && t[2] == ' ' then Some(Times)
    else if |t| >= 1 && t[0] == '^' then Some(Caret)
    else None
  }

  /** How `_to_string` separates the operands of `op`. */
  function Separator(op: OpName): string
  {
    match op
    case Plus => " + "
    case Times => " * "
    case Caret => "^"
    case Other(_) => ""
  }

  lemma OperatorAtSeparator(op: OpName, x: string)
    requires !op.Other?
    ensures OperatorAt(Separator(op) + x) == Some(op)
    ensures (Separator(op) + x)[|Separator(op)|..] == x
  {
  }

  /** A number or a symbol, or an operator node in parentheses. */
  function Read(s: string): (r: Option<Parsed>)
    ensures r.Some? ==> |r.value.rest| < |s|
    decreases |s|
  {
    if s != [] && s[0] == '(' then
      match Read(s[1..])
      case None => None
      case Some(left) =>
        match OperatorAt(left.rest)
        case None => None
        case Some(op) =>
          match Read(left.rest[|Separator(op)|..])
          case None => None
          case Some(right) =>
            if right.rest != [] && right.rest[0] == ')' then Some(Parsed(Tuple(op, left.node, right.node), right.rest[1..]))
            else None
    else
      var k := AtomLength(s);
      if k == 0 then None
      else if AllChars(s[..k], IsDigit) then Some(Parsed(NumN(DigitsValue(s[..k])), s[k..]))
      else Some(Parsed(TermN(s[..k]), s[k..]))
  }

  lemma {:induction false} AtomLengthOf(t: string, rest: string)
    requires AllChars(t, IsAtomChar)
    requires rest == [] || !IsAtomChar(rest[0])
    ensures AtomLength(t + rest) == |t|
  {
    if t != [] {
      assert (t + rest)[1..] == t[1..] + rest;
      AtomLengthOf(t[1..], rest);
    } else {
      assert t + rest == rest;
    }
  }

  /** The rendering of a readable tree, followed by anything that cannot extend it, reads back as the tree without wrappers. */
  lemma {:induction false} ReadsBack(n: Node, rest: string)
    requires Readable(n)
    requires rest == [] || !IsAtomChar(rest[0])
    ensures Read(ToString(n) + rest) == Some(Parsed(Unwrap(n), rest))
  {
    match n
    case TermN(s) =>
      SymbolReadsBack(s, rest);
    case NumN(i) =>
      NumberReadsBack(i, rest);
    case ExprN(v) =>
      ReadsBack(v, rest);
    case Tuple(op, l, r) =>
      var rr := ToString(r) + (")" + rest);
      assert (Separator(op) + rr)[0] == Separator(op)[0];
      ReadsBack(l, Separator(op) + rr);
      ReadsBack(r, ")" + rest);
      TupleReadsBack(op, l, r, rest);
  }

  lemma SymbolReadsBack(s: string, rest: string)
    requires s != [] && AllChars(s, IsAtomChar) && !AllChars(s, IsDigit)
    requires rest == [] || !IsAtomChar(rest[0])
    ensures Read(s + rest) == Some(Parsed(TermN(s), rest))
  {
    AtomLengthOf(s, rest);
    assert (s + rest)[..|s|] == s && (s + rest)[|s|..] == rest;
  }

  lemma NumberReadsBack(i: nat, rest: string)
    requires rest == [] || !IsAtomChar(rest[0])
    ensures Read(NatToString(i) + rest) == Some(Parsed(NumN(i), rest))
  {
    var t := NatToString(i);
    assert AllChars(t, IsAtomChar) by {
      assert forall j :: 0 <= j < |t| ==> IsDigit(t[j]);
    }
    AtomLengthOf(t, rest);
    assert (t + rest)[..|t|] == t && (t + rest)[|t|..] == rest;
    NatToStringValue(i);
  }

  /** One operator node, given that both operands read back. */
  lemma TupleReadsBack(op: OpName, l: Node, r: Node, rest: string)
    requires !op.Other?
    requires Read(ToString(l) + (Separator(op) + (ToString(r) + (")" + rest)))) == Some(Parsed(Unwrap(l), Separator(op) + (ToString(r) + (")" + rest))))
    requires Read(ToString(r) + (")" + rest)) == Some(Parsed(Unwrap(r), ")" + rest))
    ensures Read(ToString(Tuple(op, l, r)) + rest) == Some(Parsed(Unwrap(Tuple(op, l, r)), rest))
  {
    var rr := ToString(r) + (")" + rest);
    var rt := Separator(op) + rr;
    var s := "(" + (ToString(l) + rt);
    TupleText(op, l, r, rest);
    assert s[1..] == ToString(l) + rt;
    OperatorAtSeparator(op, rr);
    ReadTuple(s, Parsed(Unwrap(l), rt), op, Parsed(Unwrap(r), ")" + rest));
  }

  lemma TupleText(op: OpName, l: Node, r: Node, rest: string)
    requires !op.Other?
    ensures ToString(Tuple(op, l, r)) == "(" + ToString(l) + Separator(op) + ToString(r) + ")"
    ensures ToString(Tuple(op, l, r)) + rest == "(" + (ToString(l) + (Separator(op) + (ToString(r) + (")" + rest))))
  {
  }

  /** How `Read` takes an operator node apart. */
  lemma ReadTuple(s: string, left: Parsed, op: OpName, right: Parsed)
    requires s != [] && s[0] == '(' && Read(s[1..]) == Some(left)
    requires OperatorAt(left.rest) == Some(op) && Read(left.rest[|Separator(op)|..]) == Some(right)
    requires right.rest != [] && right.rest[0] == ')'
    ensures Read(s) == Some(Parsed(Tuple(op, left.node, right.node), right.rest[1..]))
  {
  }

  /** `_to_string` loses nothing but the `Expression` wrappers. */
  lemma ToStringReadsBack(n: Node)
    requires Readable(n)
    ensures Read(ToString(n)) == Some(Parsed(Unwrap(n), ""))
  {
    assert ToString(n) + "" == ToString(n);
    ReadsBack(n, "");
  }

  // ---- _simplify_recursive ----

  /** `left ** right` for Python integers; a negative exponent gives a float, or raises for a zero base. */
  function Power(a: int, b: int): Result<int, Error>
  {
    if b >= 0 then Ok(Pow(a, b))
    else if a == 0 then Err(ZeroDivisionError("0.0 cannot be raised to a negative power"))
    else Err(NotModelled("a negative integer exponent gives a float"))
  }

  function Pow(a: int, b: nat): int
  {
    if b == 0 then 1 else a * Pow(a, b - 1)
  }

  /**
   * What `+` does with two `Term`s of the same symbol: the code returns the term itself
   * (`Collapse`); combining like terms means doubling it (`Double`).
   */
  datatype LikeTerms = Collapse | Double

  /**
   * `_simplify_recursive` with the given like-terms rule: `Term`s and numbers are kept, an
   * `Expression` is unwrapped, both children of a tuple are simplified before it, numbers fold
   * under `+`, `*` and `^`, and a `Term` or `Expression` raised to a number becomes a new
   * `Expression`; any other tuple is rebuilt from its simplified children.
   */
  function SimplifyWith(rule: LikeTerms, n: Node): Result<Node, Error>
  {
    match n
    case TermN(_) => Ok(n)
    case NumN(_) => Ok(n)
    case ExprN(v) => SimplifyWith(rule, v)
    case Tuple(op, l, r) =>
      match SimplifyWith(rule, l)
      case Err(e) => Err(e)
      case Ok(l') =>
        match SimplifyWith(rule, r)
        case Err(e) => Err(e)
        case Ok(r') => Combine(rule, op, l', r')
  }

  /** One tuple whose children are already simplified. */
  function Combine(rule: LikeTerms, op: OpName, l: Node, r: Node): Result<Node, Error>
  {
    if op == Plus && l.TermN? && r.TermN? && l.symbol == r.symbol then
      (match rule
       case Collapse => Ok(TermN(l.symbol))
       case Double => Ok(Tuple(Times, NumN(2), TermN(l.symbol))))
    else if op == Plus && l.NumN? && r.NumN? then Ok(NumN(l.n + r.n))
    else if op == Times && l.NumN? && r.NumN? then Ok(NumN(l.n * r.n))
    else if op == Caret && r.NumN? then
      (match l
       case NumN(a) => (match Power(a, r.n) case Ok(v) => Ok(NumN(v)) case Err(e) => Err(e))
       case TermN(_) => Ok(ExprN(Tuple(Caret, l, r)))
       case ExprN(_) => Ok(ExprN(Tuple(Caret, l, r)))
       case Tuple(_, _, _) => Err(TypeError("unsupported operand type(s) for ** or pow(): 'tuple' and 'int'")))
    else Ok(Tuple(op, l, r))
  }

  /** `Expression.simplify` as written. */
  function SimplifyAsWritten(n: Node): Result<Node, Error>
  {
    SimplifyWith(Collapse, n)
  }

  /** `Expression.simplify` with like terms combined into a multiple. */
  function Simplify(n: Node): Result<Node, Error>
  {
    SimplifyWith(Double, n)
  }

  // ---- What simplification computes ----

  /** The value of a tree when every symbol `s` stands for `env(s)`; `None` where it has none. */
  function Eval(n: Node, env: string -> int): Option<int>
  {
    match n
    case TermN(s) => Some(env(s))
    case NumN(i) => Some(i)
    case ExprN(v) => Eval(v, env)
    case Tuple(op, l, r) =>
      match Eval(l, env)
      case None => None
      case Some(a) =>
        match Eval(r, env)
        case None => None
        case Some(b) =>
          if op == Plus then Some(a + b)
          else if op == Times then Some(a * b)
          else if op == Caret && b >= 0 then Some(Pow(a, b))
          else None
  }

  /** Simplification with like terms doubled keeps the value of every tree it succeeds on. */
  lemma {:induction false} SimplifyPreservesValue(n: Node, env: string -> int)
    requires Simplify(n).Ok? && Eval(n, env).Some?
    ensures Eval(Simplify(n).value, env) == Eval(n, env)
  {
    match n
    case TermN(_) =>
    case NumN(_) =>
    case ExprN(v) =>
      SimplifyPreservesValue(v, env);
    case Tuple(op, l, r) =>
      SimplifyPreservesValue(l, env);
      SimplifyPreservesValue(r, env);
      var l', r' := Simplify(l).value, Simplify(r).value;
      CombinePreservesValue(op, l', r', env);
  }

  lemma CombinePreservesValue(op: OpName, l: Node, r: Node, env: string -> int)
    requires Combine(Double, op, l, r).Ok? && Eval(Tuple(op, l, r), env).Some?
    ensures Eval(Combine(Double, op, l, r).value, env) == Eval(Tuple(op, l, r), env)
  {
  }

  /** As written, `x + x` simplifies to `x`: with `x` standing for 1 the value drops from 2 to 1. */
  lemma CollapseLosesTerm()
    ensures SimplifyAsWritten(Tuple(Plus, TermN("x"), TermN("x"))) == Ok(TermN("x"))
    ensures Eval(Tuple(Plus, TermN("x"), TermN("x")), _ => 1) == Some(2)
    ensures Eval(TermN("x"), _ => 1) == Some(1)
  {
  }

  /** Trees simplification leaves as they are. */
  predicate Normal(n: Node)
  {
    match n
    case TermN(_) => true
    case NumN(_) => true
    case ExprN(v) => v.Tuple? && v.op == Caret && (v.left.TermN? || (v.left.ExprN? && Normal(v.left))) && v.right.NumN?
    case Tuple(op, l, r) => Normal(l) && Normal(r) && Combine(Collapse, op, l, r) == Ok(n) && Combine(Double, op, l, r) == Ok(n)
  }

  /** Whatever simplification returns is normal, under either rule. */
  lemma {:induction false} SimplifyNormal(rule: LikeTerms, n: Node)
    requires SimplifyWith(rule, n).Ok?
    ensures Normal(SimplifyWith(rule, n).value)
  {
    match n
    case TermN(_) =>
    case NumN(_) =>
    case ExprN(v) =>
      SimplifyNormal(rule, v);
    case Tuple(op, l, r) =>
      SimplifyNormal(rule, l);
      SimplifyNormal(rule, r);
  }

  /** A normal tree is its own simplification, under either rule. */
  lemma {:induction false} NormalFixed(rule: LikeTerms, n: Node)
    requires Normal(n)
    ensures SimplifyWith(rule, n) == Ok(n)
  {
    match n
    case TermN(_) =>
    case NumN(_) =>
    case ExprN(v) =>
      if v.left.ExprN? {
        NormalFixed(rule, v.left);
      }
      assert SimplifyWith(rule, v.left) == Ok(v.left);
      assert SimplifyWith(rule, v.right) == Ok(v.right);
      assert SimplifyWith(rule, v) == Combine(rule, Caret, v.left, v.right);
      assert Combine(rule, Caret, v.left, v.right) == Ok(n);
    case Tuple(op, l, r) =>
      NormalFixed(rule, l);
      NormalFixed(rule, r);
  }

  /** Simplifying twice is simplifying once. */
  lemma SimplifyIdempotent(rule: LikeTerms, n: Node)
    requires SimplifyWith(rule, n).Ok?
    ensures SimplifyWith(rule, SimplifyWith(rule, n).value) == SimplifyWith(rule, n)
  {
    SimplifyNormal(rule, n);
    NormalFixed(rule, SimplifyWith(rule, n).value);
  }

  /** Folding examples: numbers fold, a power of a term is wrapped, a power of a tuple raises. */
  lemma SimplifyExamples()
    ensures Simplify(Tuple(Plus, NumN(2), Tuple(Times, NumN(3), NumN(4)))) == Ok(NumN(14))
    ensures Simplify(Tuple(Caret, TermN("x"), NumN(2))) == Ok(ExprN(Tuple(Caret, TermN("x"), NumN(2))))
    ensures Simplify(Tuple(Caret, Tuple(Plus, TermN("x"), TermN("y")), NumN(2))).Err?
    ensures Simplify(Tuple(Plus, TermN("x"), TermN("x"))) == Ok(Tuple(Times, NumN(2), TermN("x")))
  {
  }
}
