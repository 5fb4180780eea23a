/**
 * `Expression` of algtermlib/core.py: a leaf wrapping one value, or a binary node built by one of
 * the operators `+ - * / **`; its minimally parenthesised rendering; and the textual clean-up
 * `simp` applies to the answer of the external simplifier.
 */
module LibExpression {
  import opened Text

  /** The operator strings a node can carry; `**` is stored as `'^'`. */
  datatype Op = Plus | Minus | Times | Divide | Power

  /**
   * A value an `Expression` holds: a `Term` (shown by its symbol, which is all its `__repr__`
   * reads), an integer, a string, or another `Expression`.
   */
  datatype Operand = TermOp(symbol: string) | Num(n: int) | Str(text: string) | ExprOp(e: Expr)

  /** `Expression(left)` with `operator=None`, or `Expression(left, right, operator)`. */
  datatype Expr = Leaf(value: Operand) | Node(op: Op, left: Operand, right: Operand)

  function OpText(op: Op): string
  {
    match op
    case Plus => "+"
    case Minus => "-"
    case Times => "*"
    case Divide => "/"
    case Power => "^"
  }

  /** The precedence table of `__repr__`. */
  function Precedence(op: Op): nat
  {
    match op
    case Plus => 1
    case Minus => 1
    case Times => 2
    case Divide => 2
    case Power => 3
  }

  /** `precedence.get(e.operator, 0)`: a leaf has no operator and gets 0. */
  function ExprPrecedence(e: Expr): nat
  {
    match e
    case Leaf(_) => 0
    case Node(op, _, _) => Precedence(op)
  }

  /** The left operand is parenthesised when it is an `Expression` that binds less tightly. */
  predicate LeftNeedsParens(l: Operand, op: Op)
  {
    l.ExprOp? && ExprPrecedence(l.e) < Precedence(op)
  }

  /** The right operand is parenthesised also at equal precedence (the operators associate to the left). */
  predicate RightNeedsParens(r: Operand, op: Op)
  {
    r.ExprOp? && ExprPrecedence(r.e) <= Precedence(op)
  }

  /** `str(o)`. */
  function Show(o: Operand): string
    decreases o, 0
  {
    match o
    case TermOp(s) => s
    case Num(n) => IntToString(n)
    case Str(t) => t
    case ExprOp(e) => Render(e)
  }

  function Wrap(o: Operand, parens: bool): string
    decreases o, 1
  {
    if parens then "(" + Show(o) + ")" else Show(o)
  }

  /** `Expression.__repr__`. */
  function Render(e: Expr): string
  {
    match e
    case Leaf(v) => Show(v)
    case Node(op, l, r) =>
      Wrap(l, LeftNeedsParens(l, op)) + " " + OpText(op) + " " + Wrap(r, RightNeedsParens(r, op))
  }

  /**
   * `self + other`, `self - other`, `self * other`, `self / other`, `self ** other` on an
   * `Expression`: a new node with this expression on the left. In the rendering this expression is
   * parenthesised exactly when it binds less tightly than `op` (a leaf always does), and `other`
   * when it is an `Expression` that binds no more tightly.
   */
  function Compose(op: Op, e: Expr, other: Operand): (r: Expr)
    ensures Render(r) == (if ExprPrecedence(e) < Precedence(op) then "(" + Render(e) + ")" else Render(e))
                         + " " + OpText(op) + " " + Wrap(other, RightNeedsParens(other, op))
  {
    assert Show(ExprOp(e)) == Render(e);
    Node(op, ExprOp(e), other)
  }

  /** Python truthiness of a value passed as `expr`: `0` and `""` are false. */
  predicate Truthy(o: Operand)
  {
    match o
    case Num(n) => n != 0
    case Str(t) => t != ""
    case _ => true
  }

  /** The end-to-end example: `(x + y) * α`. */
  lemma SumTimesConstant()
    ensures Render(Node(Times, ExprOp(Node(Plus, TermOp("x"), TermOp("y"))), TermOp("α"))) == "(x + y) * α"
  {
  }

  /** A right operand of equal precedence keeps its parentheses: `a - (b - c)`, never `a - b - c`. */
  lemma DifferenceOfDifference()
    ensures Render(Node(Minus, TermOp("a"), ExprOp(Node(Minus, TermOp("b"), TermOp("c"))))) == "a - (b - c)"
  {
  }

  /** A left operand of equal precedence loses them: `(a - b) - c` is written `a - b - c`. */
  lemma DifferenceChain()
    ensures Render(Node(Minus, ExprOp(Node(Minus, TermOp("a"), TermOp("b"))), TermOp("c"))) == "a - b - c"
  {
  }

  /** A leaf `Expression` operand has precedence 0, so it is parenthesised even beside `+`. */
  lemma LeafOperandExample()
    ensures Render(Node(Plus, ExprOp(Leaf(TermOp("x"))), TermOp("y"))) == "(x) + y"
    ensures Render(Node(Power, TermOp("x"), ExprOp(Leaf(Num(2))))) == "x ^ (2)"
  {
  }

  // ---- simp: `str(ratsimp(str(expr))).replace("**", "^")` ----

  /** Python `s.replace("**", "^")`: occurrences are replaced left to right without overlap. */
  function ReplacePowers(s: string): (r: string)
    ensures |r| <= |s|
    ensures s != [] ==> r != [] && r[0] == (if |s| >= 2 && s[0] == '*' && s[1] == '*' then '^' else s[0])
  {
    if |s| >= 2 && s[0] == '*' && s[1] == '*' then "^" + ReplacePowers(s[2..])
    else if s == [] then []
    else [s[0]] + ReplacePowers(s[1..])
  }

  predicate HasPowerStars(s: string)
  {
    exists i :: 0 <= i < |s| - 1 && s[i] == '*' && s[i + 1] == '*'
  }

  /** The engine's `**` never survives: the answer uses only this library's `^`. */
  lemma {:induction false} ReplacePowersComplete(s: string)
    ensures !HasPowerStars(ReplacePowers(s))
  {
    var r := ReplacePowers(s);
    if |s| >= 2 && s[0] == '*' && s[1] == '*' {
      var t := ReplacePowers(s[2..]);
      ReplacePowersComplete(s[2..]);
      assert r == "^" + t;
      forall i | 0 <= i < |r| - 1 ensures !(r[i] == '*' && r[i + 1] == '*') {
        if i > 0 {
          assert r[i] == t[i - 1] && r[i + 1] == t[i];
        }
      }
    } else if s != [] {
      var t := ReplacePowers(s[1..]);
      ReplacePowersComplete(s[1..]);
      assert r == [s[0]] + t;
      forall i | 0 <= i < |r| - 1 ensures !(r[i] == '*' && r[i + 1] == '*') {
        if i > 0 {
          assert r[i] == t[i - 1] && r[i + 1] == t[i];
        } else {
          assert r[1] == t[0] == (if |s| >= 3 && s[1] == '*' && s[2] == '*' then '^' else s[1]);
        }
      }
    }
  }

  /** Text without `**` is left exactly as it is, and only such text. */
  lemma {:induction false} ReplacePowersIdentity(s: string)
    ensures ReplacePowers(s) == s <==> !HasPowerStars(s)
  {
    if |s| >= 2 && s[0] == '*' && s[1] == '*' {
      assert |ReplacePowers(s)| < |s|;
    } else if s != [] {
      ReplacePowersIdentity(s[1..]);
      var t := ReplacePowers(s[1..]);
      assert ReplacePowers(s) == [s[0]] + t;
      if HasPowerStars(s) {
        var i :| 0 <= i < |s| - 1 && s[i] == '*' && s[i + 1] == '*';
        assert i > 0;
        assert s[1..][i - 1] == '*' && s[1..][i] == '*';
      }
      if HasPowerStars(s[1..]) {
        var i :| 0 <= i < |s[1..]| - 1 && s[1..][i] == '*' && s[1..][i + 1] == '*';
        assert s[i + 1] == '*' && s[i + 2] == '*';
      }
      assert s == [s[0]] + s[1..];
    }
  }

  /** Every `^` written back as `**`. */
  function RestorePowers(s: string): string
  {
    if s == [] then [] else (if s[0] == '^' then "**" else [s[0]]) + RestorePowers(s[1..])
  }

  /** On text that had no `^` of its own, the replacement loses nothing. */
  lemma {:induction false} ReplacePowersInverse(s: string)
    requires '^' !in s
    ensures RestorePowers(ReplacePowers(s)) == s
  {
    if |s| >= 2 && s[0] == '*' && s[1] == '*' {
      ReplacePowersInverse(s[2..]);
      assert ("^" + ReplacePowers(s[2..]))[1..] == ReplacePowers(s[2..]);
      assert s == "**" + s[2..];
    } else if s != [] {
      ReplacePowersInverse(s[1..]);
      assert ([s[0]] + ReplacePowers(s[1..]))[1..] == ReplacePowers(s[1..]);
      assert s == [s[0]] + s[1..];
    }
  }

  /**
   * `simp(expr)`: the external simplifier (`sympy.ratsimp`, given here as `engine`) reads `str(expr)`
   * of whatever it is given (an `Expression`, a `Term`, a number or a string), and its answer has
   * `**` replaced by `^`.
   */
  function Simp(engine: string -> string, expr: Operand): (r: string)
    ensures !HasPowerStars(r)
    ensures !HasPowerStars(engine(Show(expr))) ==> r == engine(Show(expr))
  {
    ReplacePowersComplete(engine(Show(expr)));
    ReplacePowersIdentity(engine(Show(expr)));
    ReplacePowers(engine(Show(expr)))
  }
}
