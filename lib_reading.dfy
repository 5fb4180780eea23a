/**
 * Reading back what `Expression.__repr__` of algtermlib/core.py writes. The renderer drops every
 * parenthesis that precedence and left associativity make redundant; this module gives a
 * precedence-climbing reader for that text and proves that the rendering of an expression reads
 * back as the same tree, so the minimal parenthesisation loses no structure.
 */
module LibReading {
  import opened Wrappers
  import opened Text
  import opened LibExpression

  // ---- Which trees the rendering can describe unambiguously ----

  /** A character that can be part of a bare operand in the rendered text. */
  predicate IsAtomChar(c: char)
  {
    c != ' ' && c != '(' && c != ')'
  }

  /**
   * A plain operand: a non-negative integer, or a term whose symbol is non-empty, has no space or
   * parenthesis and is not all digits (otherwise it would read as a number).
   */
  predicate CanonicalAtom(o: Operand)
  {
    || (o.TermOp? && o.symbol != [] && AllChars(o.symbol, IsAtomChar) && !AllChars(o.symbol, IsDigit))
    || (o.Num? && o.n >= 0)
  }

  predicate CanonicalOperand(o: Operand)
  {
    CanonicalAtom(o) || (o.ExprOp? && CanonicalExpr(o.e))
  }

  /** A leaf holds a plain operand; a node holds canonical operands. */
  predicate CanonicalExpr(e: Expr)
  {
    match e
    case Leaf(v) => CanonicalAtom(v)
    case Node(_, l, r) => CanonicalOperand(l) && CanonicalOperand(r)
  }

  /**
   * `o` can stand without parentheses where operators of precedence `k` and above bind: a plain
   * operand always can, a node only when its own operator has precedence at least `k`, a leaf
   * expression never.
   */
  predicate Fits(o: Operand, k: nat)
  {
    CanonicalAtom(o) || (o.ExprOp? && o.e.Node? && Precedence(o.e.op) >= k)
  }

  /** The renderer's two parenthesis rules, in terms of `Fits`. */
  lemma NeedsParensFits(o: Operand, op: Op)
    requires CanonicalOperand(o)
    ensures LeftNeedsParens(o, op) == !Fits(o, Precedence(op))
    ensures RightNeedsParens(o, op) == !Fits(o, Precedence(op) + 1)
  {
  }

  // ---- The reader ----

  datatype Parsed = Parsed(operand: Operand, rest: string)

  function OpOf(c: char): Option<Op>
  {
    if c == '+' then Some(Plus)
    else if c == '-' then Some(Minus)
    else if c == '*' then Some(Times)
    else if c == '/' then Some(Divide)
    else if c == '^' then Some(Power)
    else None
  }

  /** The length of the longest prefix of `s` made of atom characters. */
  function AtomLength(s: string): (n: nat)
    ensures n <= |s|
    ensures forall i :: 0 <= i < n ==> IsAtomChar(s[i])
    ensures n < |s| ==> !IsAtomChar(s[n])
  {
    if s == [] || !IsAtomChar(s[0]) then 0 else 1 + AtomLength(s[1..])
  }

  /** A bare operand: a number when it is all digits, a term otherwise. */
  function AtomOf(t: string): Operand
  {
    if t != [] && AllChars(t, IsDigit) then Num(DigitsValue(t)) else TermOp(t)
  }

  /** A bare operand, or a parenthesised expression (a single operand in parentheses is a leaf). */
  function ParsePrimary(s: string): (r: Option<Parsed>)
    ensures r.Some? ==> |r.value.rest| < |s|
    decreases |s|, 0
  {
    if s != [] && s[0] == '(' then
      match ParseLevel(1, s[1..])
      case None => None
      case Some(p) =>
        if p.rest != [] && p.rest[0] == ')' then
          Some(Parsed(if p.operand.ExprOp? then p.operand else ExprOp(Leaf(p.operand)), p.rest[1..]))
        else None
    else
      var n := AtomLength(s);
      if n == 0 then None else Some(Parsed(AtomOf(s[..n]), s[n..]))
  }

  /** An operand built from operators of precedence `k` and above (`k == 4`: a primary). */
  function ParseLevel(k: nat, s: string): (r: Option<Parsed>)
    requires 1 <= k <= 4
    ensures r.Some? ==> |r.value.rest| < |s|
    decreases |s|, 5 - k
  {
    if k == 4 then ParsePrimary(s)
    else
      match ParseLevel(k + 1, s)
      case None => None
      case Some(p) => ParseTail(k, p.operand, p.rest)
  }

  /** Operators of precedence exactly `k`, each followed by an operand of higher precedence, folded to the left onto `acc`. */
  function ParseTail(k: nat, acc: Operand, s: string): (r: Option<Parsed>)
    requires 1 <= k <= 4
    ensures r.Some? ==> |r.value.rest| <= |s|
    decreases |s|, 0
  {
    if k < 4 && |s| >= 3 && s[0] == ' ' && s[2] == ' ' && OpOf(s[1]).Some? && Precedence(OpOf(s[1]).value) == k then
      match ParseLevel(k + 1, s[3..])
      case None => None
      case Some(p) => ParseTail(k, ExprOp(Node(OpOf(s[1]).value, acc, p.operand)), p.rest)
    else Some(Parsed(acc, s))
  }

  /** The whole text as one expression: a bare operand reads as a leaf. */
  function Parse(s: string): Option<Expr>
  {
    match ParseLevel(1, s)
    case Some(Parsed(o, rest)) => if rest == [] then Some(if o.ExprOp? then o.e else Leaf(o)) else None
    case None => None
  }

  // ---- The rendering reads back ----

  /**
   * What may follow an operand read at precedence `j - 1`: nothing, a closing parenthesis, or an
   * operator of precedence below `j` with its two spaces.
   */
  predicate Stops(j: nat, rest: string)
  {
    || rest == []
    || rest[0] == ')'
    || (|rest| >= 3 && rest[0] == ' ' && rest[2] == ' ' && OpOf(rest[1]).Some? && Precedence(OpOf(rest[1]).value) < j)
  }

  lemma OpTextReads(op: Op)
    ensures |OpText(op)| == 1 && OpOf(OpText(op)[0]) == Some(op)
  {
  }

  /** A plain operand followed by a stop reads back as itself. */
  lemma AtomReads(o: Operand, rest: string)
    requires CanonicalAtom(o) && Stops(5, rest)
    ensures ParsePrimary(Show(o) + rest) == Some(Parsed(o, rest))
  {
    var t := Show(o);
    var s := t + rest;
    assert AllChars(t, IsAtomChar) by {
      if o.Num? {
        assert forall i :: 0 <= i < |t| ==> IsDigit(t[i]);
      }
    }
    assert t != [];
    AtomLengthOf(t, rest);
    assert s[..|t|] == t && s[|t|..] == rest;
    if o.Num? {
      NatToStringValue(o.n);
    }
  }

  lemma {:induction false} AtomLengthOf(t: string, rest: string)
    requires AllChars(t, IsAtomChar)
    requires rest == [] || !IsAtomChar(rest[0])
    ensures AtomLength(t + rest) == |t|
  {
    if t != [] {
      assert (t + rest)[1..] == t[1..] + rest;
      AtomLengthOf(t[1..], rest);
    } else {
      assert t + rest == rest;
    }
  }

  /** A reading that ends in a primary followed by a stop is that primary at every lower level. */
  lemma {:induction false} Descend(k: nat, s: string, o: Operand, rest: string)
    requires 1 <= k <= 4
    requires ParsePrimary(s) == Some(Parsed(o, rest)) && Stops(k + 1, rest)
    ensures ParseLevel(k, s) == ParseTail(k, o, rest)
    decreases 4 - k
  {
    if k < 4 {
      Descend(k + 1, s, o, rest);
    }
  }

  /** An expression in parentheses, whatever follows, reads back as itself. */
  lemma {:induction false} ParenReads(o: Operand, rest: string)
    requires o.ExprOp? && CanonicalOperand(o)
    ensures ParsePrimary("(" + Show(o) + ")" + rest) == Some(Parsed(o, rest))
    decreases o, 1
  {
    var s := "(" + Show(o) + ")" + rest;
    assert s[1..] == Show(o) + (")" + rest);
    match o.e
    case Node(_, _, _) =>
      assert Fits(o, 1);
      Reads(1, o, ")" + rest);
    case Leaf(a) =>
      assert Show(o) == Wrap(a, !Fits(a, 1));
      Reads(1, a, ")" + rest);
  }

  /**
   * The central step: an operand written as the renderer writes it at precedence `k` (in
   * parentheses exactly when it does not fit there), followed by anything that cannot continue
   * it, reads as that operand, and the reader carries on folding operators of precedence `k`.
   */
  lemma {:induction false} Reads(k: nat, o: Operand, rest: string)
    requires 1 <= k <= 4 && CanonicalOperand(o) && Stops(k + 1, rest)
    ensures ParseLevel(k, Wrap(o, !Fits(o, k)) + rest) == ParseTail(k, o, rest)
    decreases o, if Fits(o, k) then 0 else 2, 4 - k, 1
  {
    var s := Wrap(o, !Fits(o, k)) + rest;
    if !Fits(o, k) {
      ParenReads(o, rest);
      Descend(k, s, o, rest);
    } else if CanonicalAtom(o) {
      AtomReads(o, rest);
      Descend(k, s, o, rest);
    } else if Precedence(o.e.op) > k {
      Reads(k + 1, o, rest);
    } else {
      NodeReads(k, o, rest);
    }
  }

  /** A node of precedence exactly `k`: its left operand is read at `k`, its right one above `k`. */
  lemma {:induction false} NodeReads(k: nat, o: Operand, rest: string)
    requires 1 <= k <= 4 && CanonicalOperand(o) && Stops(k + 1, rest)
    requires o.ExprOp? && o.e.Node? && Precedence(o.e.op) == k
    ensures ParseLevel(k, Show(o) + rest) == ParseTail(k, o, rest)
    decreases o, 0, 0, 0
  {
    var op, l, r := o.e.op, o.e.left, o.e.right;
    NeedsParensFits(l, op);
    NeedsParensFits(r, op);
    OpTextReads(op);
    var a := Wrap(l, !Fits(l, k));
    var b := Wrap(r, !Fits(r, k + 1));
    var rest1 := " " + OpText(op) + " " + b + rest;
    assert Show(o) == a + " " + OpText(op) + " " + b;
    assert Show(o) + rest == a + rest1;
    assert rest1[3..] == b + rest;
    Reads(k, l, rest1);
    Reads(k + 1, r, rest);
  }

  /** The rendering of every canonical expression reads back as that expression. */
  lemma RenderParses(e: Expr)
    requires CanonicalExpr(e)
    ensures Parse(Render(e)) == Some(e)
  {
    var o := if e.Node? then ExprOp(e) else e.value;
    assert Render(e) == Wrap(o, !Fits(o, 1));
    assert Render(e) + "" == Render(e);
    Reads(1, o, "");
  }

  /** So the minimal parenthesisation is unambiguous: distinct canonical expressions render differently. */
  lemma RenderInjective(e1: Expr, e2: Expr)
    requires CanonicalExpr(e1) && CanonicalExpr(e2) && Render(e1) == Render(e2)
    ensures e1 == e2
  {
    RenderParses(e1);
    RenderParses(e2);
  }

  /** Composing canonical expressions loses nothing: the rendering of the new node reads back as it. */
  lemma ComposeReadsBack(op: Op, e: Expr, other: Operand)
    requires CanonicalExpr(e) && CanonicalOperand(other)
    ensures Parse(Render(Compose(op, e, other))) == Some(Node(op, ExprOp(e), other))
  {
    RenderParses(Node(op, ExprOp(e), other));
  }
}
