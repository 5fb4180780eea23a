/**
 * `Term` of gpts_examples/algterm.py: the same variable and constant patterns as the library, a
 * function pattern whose arguments must be plain variables or constants separated by commas with
 * optional whitespace, and the arity read off as the number of comma-separated pieces.
 */
module GptsTerm {
  import opened Wrappers
  import opened Text
  import LibTerm
  import opened GptsExpression

  // ---- The function pattern ----

  /** Length of the longest run of `[a-zA-Z0-9]` at the front of `t`. */
  function AlnumLength(t: string): (n: nat)
    ensures n <= |t|
    ensures forall i :: 0 <= i < n ==> IsAlnum(t[i])
    ensures n < |t| ==> !IsAlnum(t[n])
  {
    if t != [] && IsAlnum(t[0]) then 1 + AlnumLength(t[1..]) else 0
  }

  /** Length of the longest run of whitespace (`\s*`) at the front of `t`. */
  function SpaceLength(t: string): (n: nat)
    ensures n <= |t|
    ensures forall i :: 0 <= i < n ==> IsSpace(t[i])
    ensures n < |t| ==> !IsSpace(t[n])
  {
    if t != [] && IsSpace(t[0]) then 1 + SpaceLength(t[1..]) else 0
  }

  /**
   * Length of `[a-zα-ω](_[a-zA-Z0-9]+)?` at the front of `t`, 0 when it does not match there. No
   * character that may follow a name in the pattern (whitespace, `,`, `)`) is `_` or alphanumeric,
   * so the longest match is the only one that can lead to an overall match.
   */
  function NameLength(t: string): (n: nat)
    ensures n <= |t|
  {
    if t != [] && (IsLowerLatin(t[0]) || IsGreekLower(t[0])) then
      if |t| >= 3 && t[1] == '_' && IsAlnum(t[2]) then 2 + AlnumLength(t[2..]) else 1
    else 0
  }

  /** What `NameLength` measures is a variable or constant name. */
  lemma NameCore(t: string)
    requires NameLength(t) > 0
    ensures LibTerm.VarConstCore(t[..NameLength(t)])
  {
    var n := NameLength(t);
    var name := t[..n];
    if n > 1 {
      var m := AlnumLength(t[2..]);
      assert name[1..] == "_" + t[2..][..m];
      assert name[1..][1..] == t[2..][..m];
    } else {
      assert name[1..] == [];
    }
  }

  /**
   * `[a-zα-ω](_[a-zA-Z0-9]+)?(\s*,\s*[a-zα-ω](_[a-zA-Z0-9]+)?)*` matched against all of `s`:
   * the names it lists, or `None`.
   */
  function Arguments(s: string): (r: Option<seq<string>>)
    ensures r.Some? ==> |r.value| >= 1
    decreases |s|
  {
    var n := NameLength(s);
    if n == 0 then None
    else if n == |s| then Some([s])
    else
      var b := n + SpaceLength(s[n..]);
      if b < |s| && s[b] == ',' then
        match Arguments(s[b + 1 + SpaceLength(s[b + 1..])..])
        case None => None
        case Some(more) => Some([s[..n]] + more)
      else None
  }

  /**
   * `[a-zA-Z](_[a-zA-Z0-9]+)?\(...\)` matched against all of `s`: the argument names. The name
   * part cannot contain `(`, so the argument list starts after the first `(`.
   */
  function FunctionArguments(s: string): Option<seq<string>>
  {
    var k := IndexOf(s, '(');
    if 1 <= k < |s| - 1 && IsLatin(s[0]) && IsSubscript(s[1..k]) && s[|s| - 1] == ')' then
      Arguments(s[k + 1..|s| - 1])
    else None
  }

  /** `re.match(func_pattern, s)`, with `$` also accepting one final newline. */
  function MatchFunction(s: string): Option<seq<string>>
  {
    FunctionArguments(Chomp(s))
  }

  /** The arity line 40 computes: the pieces between the first `(` and the first `)`, split at commas. */
  function CountedArity(s: string): nat
  {
    var k := IndexOf(s, '(');
    var j := IndexOf(s, ')');
    if k + 1 <= j then |Split(s[k + 1..j], ',')| else 0
  }

  /** set_symbol's decision: arity 0 for a constant or variable, the counted arity for a function, or the error. */
  function Classify(s: string): Result<nat, Error>
  {
    if LibTerm.IsConstant(s) || LibTerm.IsVariable(s) then Ok(0)
    else if MatchFunction(s).Some? then Ok(CountedArity(s))
    else Err(ValueError("Invalid term name"))
  }

  // ---- What the argument list means ----

  /** `s` split at its commas is one piece per name, each piece its name with surrounding whitespace. */
  predicate PiecesAre(s: string, names: seq<string>)
  {
    Maps(Split(s, ','), Strip, names)
  }

  /**
   * A matched argument list splits at its commas into one piece per name, each piece being its
   * name with surrounding whitespace.
   */
  lemma {:induction false} ArgumentsMeaning(s: string)
    requires Arguments(s).Some?
    ensures PiecesAre(s, Arguments(s).value)
    decreases |s|
  {
    if NameLength(s) == |s| {
      NameCore(s);
      assert s[..NameLength(s)] == s;
      NameCharacters(s);
      SplitNone(s, ',');
      StripTrimmed(s);
    } else {
      var name, sp1, sp2, s' := Decompose(s);
      ArgumentsMeaning(s');
      NameCharacters(name);
      PiecesStep(name, sp1, sp2, s', Arguments(s').value);
    }
  }

  /** Every name a matched argument list lists is a variable or a constant. */
  lemma {:induction false} ArgumentNames(s: string)
    requires Arguments(s).Some?
    ensures forall i :: 0 <= i < |Arguments(s).value| ==> LibTerm.VarConstCore(Arguments(s).value[i])
    decreases |s|
  {
    if NameLength(s) < |s| {
      var name, sp1, sp2, s' := Decompose(s);
      ArgumentNames(s');
    } else {
      NameCore(s);
      assert s[..NameLength(s)] == s;
    }
  }

  /** A matched argument list holds no `)`: only names, whitespace and commas. */
  lemma {:induction false} ArgumentsNoClose(s: string)
    requires Arguments(s).Some?
    ensures ')' !in s
    decreases |s|
  {
    if NameLength(s) == |s| {
      NameCore(s);
      assert s[..NameLength(s)] == s;
      NameCharacters(s);
    } else {
      var name, sp1, sp2, s' := Decompose(s);
      ArgumentsNoClose(s');
      NameCharacters(name);
      NoCloseStep(name, sp1, sp2, s');
    }
  }

  /** A matched argument list has one comma-separated piece per name. */
  lemma ArgumentCount(s: string)
    requires Arguments(s).Some?
    ensures |Split(s, ',')| == |Arguments(s).value| == Count(s, ',') + 1
  {
    ArgumentsMeaning(s);
    SplitLength(s, ',');
  }

  /** A list of several arguments is a name, whitespace, a comma, whitespace and the remaining list. */
  lemma Decompose(s: string) returns (name: string, sp1: string, sp2: string, s': string)
    requires Arguments(s).Some? && NameLength(s) < |s|
    ensures s == name + sp1 + [','] + sp2 + s' && |s'| < |s|
    ensures AllChars(sp1, IsSpace) && AllChars(sp2, IsSpace) && LibTerm.VarConstCore(name)
    ensures Arguments(s').Some? && Arguments(s).value == [name] + Arguments(s').value
  {
    var n, w, v := ArgumentsUnfold(s);
    NameCore(s);
    SpaceRun(s, n);
    SpaceRun(s, n + w + 1);
    name, sp1, sp2, s' := Pieces(s, n, w, v);
  }

  /** The pieces of `s` cut after a name of length `n`, `w` spaces, a comma and `v` spaces. */
  lemma Pieces(s: string, n: nat, w: nat, v: nat) returns (name: string, sp1: string, sp2: string, s': string)
    requires 0 < n && n + w < |s| && s[n + w] == ',' && n + w + 1 + v <= |s|
    requires forall i :: n <= i < n + w ==> IsSpace(s[i])
    requires forall i :: n + w + 1 <= i < n + w + 1 + v ==> IsSpace(s[i])
    ensures name == s[..n] && s' == s[n + w + 1 + v..]
    ensures s == name + sp1 + [','] + sp2 + s'
    ensures AllChars(sp1, IsSpace) && AllChars(sp2, IsSpace)
  {
    name, sp1, sp2, s' := s[..n], s[n..n + w], s[n + w + 1..n + w + 1 + v], s[n + w + 1 + v..];
    Reassemble(s, n, n + w, n + w + 1 + v);
    forall i | 0 <= i < |sp1| ensures IsSpace(sp1[i]) {
      assert sp1[i] == s[n + i];
    }
    forall i | 0 <= i < |sp2| ensures IsSpace(sp2[i]) {
      assert sp2[i] == s[n + w + 1 + i];
    }
  }

  lemma ArgumentsUnfold(s: string) returns (n: nat, w: nat, v: nat)
    requires Arguments(s).Some? && NameLength(s) < |s|
    ensures n == NameLength(s) && w == SpaceLength(s[n..]) && v == SpaceLength(s[n + w + 1..])
    ensures n > 0 && n + w < |s| && s[n + w] == ',' && n + w + 1 + v <= |s|
    ensures Arguments(s[n + w + 1 + v..]).Some? && Arguments(s).value == [s[..n]] + Arguments(s[n + w + 1 + v..]).value
  {
    n := NameLength(s);
    w := SpaceLength(s[n..]);
    assert n + w < |s| && s[n + w] == ',';
    v := SpaceLength(s[n + w + 1..]);
    var more := Arguments(s[n + w + 1 + v..]);
    assert Arguments(s) == if more.Some? then Some([s[..n]] + more.value) else None;
  }

  /** The whitespace run at position `i` of `s`, in positions of `s`. */
  lemma SpaceRun(s: string, i: nat)
    requires i <= |s|
    ensures i + SpaceLength(s[i..]) <= |s|
    ensures forall j :: i <= j < i + SpaceLength(s[i..]) ==> IsSpace(s[j])
  {
    var w := SpaceLength(s[i..]);
    forall j | i <= j < i + w ensures IsSpace(s[j]) {
      assert s[j] == s[i..][j - i];
    }
  }

  /** Cutting `s` at `a`, around the character at `b`, and at `c`. */
  lemma Reassemble(s: string, a: nat, b: nat, c: nat)
    requires a <= b < c <= |s|
    ensures s == s[..a] + s[a..b] + [s[b]] + s[b + 1..c] + s[c..]
  {
    assert s[..b] == s[..a] + s[a..b];
    assert s[..b + 1] == s[..b] + [s[b]];
    assert s[..c] == s[..b + 1] + s[b + 1..c];
    assert s == s[..c] + s[c..];
  }

  lemma NoCloseStep(name: string, sp1: string, sp2: string, s': string)
    requires AllChars(sp1, IsSpace) && AllChars(sp2, IsSpace)
    requires ')' !in name && ')' !in s'
    ensures ')' !in name + sp1 + [','] + sp2 + s'
  {
    assert ')' !in sp1 && ')' !in sp2;
  }

  /** The pieces of a list with one more name in front. */
  lemma PiecesStep(name: string, sp1: string, sp2: string, s': string, more: seq<string>)
    requires AllChars(sp1, IsSpace) && AllChars(sp2, IsSpace)
    requires name != [] && !IsSpace(name[0]) && !IsSpace(name[|name| - 1]) && ',' !in name
    requires PiecesAre(s', more)
    ensures PiecesAre(name + sp1 + [','] + sp2 + s', [name] + more)
  {
    NamePiece(name, sp1);
    PiecesCons(name, name + sp1, sp2, s', more);
  }

  /** The piece a name forms with the whitespace after it. */
  lemma NamePiece(name: string, sp1: string)
    requires AllChars(sp1, IsSpace)
    requires name != [] && !IsSpace(name[0]) && !IsSpace(name[|name| - 1]) && ',' !in name
    ensures forall i :: 0 <= i < |name + sp1| ==> (name + sp1)[i] != ','
    ensures Strip(name + sp1) == name
  {
    StripPadding([], name, sp1);
    assert [] + name + sp1 == name + sp1;
    NoCommaPiece(name, sp1);
  }

  lemma NoCommaPiece(name: string, sp1: string)
    requires AllChars(sp1, IsSpace) && ',' !in name
    ensures forall i :: 0 <= i < |name + sp1| ==> (name + sp1)[i] != ','
  {
    forall i | 0 <= i < |name + sp1| ensures (name + sp1)[i] != ',' {
      if i < |name| {
        assert (name + sp1)[i] == name[i];
      } else {
        assert (name + sp1)[i] == sp1[i - |name|];
      }
    }
  }

  lemma PiecesCons(name: string, pre: string, sp2: string, s': string, more: seq<string>)
    requires PiecesAre(s', more) && Strip(pre) == name && AllChars(sp2, IsSpace)
    requires forall i :: 0 <= i < |pre| ==> pre[i] != ','
    ensures PiecesAre(pre + [','] + sp2 + s', [name] + more)
  {
    SplitStep(pre, sp2, s');
    StripLeadingSpace(sp2, Split(s', ',')[0]);
    MapsCons(Strip, pre, sp2, Split(s', ','), more, name);
  }

  lemma SplitStep(pre: string, sp2: string, s': string)
    requires forall i :: 0 <= i < |pre| ==> pre[i] != ','
    requires AllChars(sp2, IsSpace)
    ensures Split(pre + [','] + sp2 + s', ',') == [pre] + ([sp2 + Split(s', ',')[0]] + Split(s', ',')[1..])
  {
    assert forall i :: 0 <= i < |sp2| ==> sp2[i] != ',';
    SplitAfter(pre, sp2 + s', ',');
    SplitPrefix(sp2, s', ',');
    assert pre + [','] + sp2 + s' == pre + [','] + (sp2 + s');
  }

  /** A name is a letter and alphanumerics after an underscore, so neither whitespace nor a comma. */
  lemma NameCharacters(name: string)
    requires LibTerm.VarConstCore(name)
    ensures !IsSpace(name[0]) && !IsSpace(name[|name| - 1]) && ',' !in name && ')' !in name
  {
    forall i | 1 <= i < |name| ensures IsAlnum(name[i]) || name[i] == '_' {
      var t := name[1..];
      assert name[i] == t[i - 1];
      if i > 1 {
        assert t[1..][i - 2] == t[i - 1];
      }
    }
  }

  // ---- What set_symbol decides ----

  /** A function symbol, decomposed: the chomped text `c`, the position `k` of its first `(`, the name and the argument list. */
  lemma FunctionParts(s: string) returns (c: string, k: nat)
    requires MatchFunction(s).Some?
    ensures c == Chomp(s) && k == IndexOf(c, '(') && 1 <= k < |c| - 1
    ensures IsLatin(c[0]) && c[k] == '(' && c[|c| - 1] == ')' && IsSubscript(c[1..k])
    ensures Arguments(c[k + 1..|c| - 1]) == MatchFunction(s)
  {
    c := Chomp(s);
    k := IndexOf(c, '(');
  }

  /** In a function symbol the first `)` comes after the first `(` and closes the argument list. */
  lemma FunctionBounds(s: string)
    requires MatchFunction(s).Some?
    ensures IndexOf(s, '(') < IndexOf(s, ')') == |Chomp(s)| - 1
  {
    var c, k := FunctionParts(s);
    FirstOpen(s, c, k);
    FirstClose(s, c, k);
  }

  /** The first `(` of the chomped text is the first `(` of the symbol. */
  lemma FirstOpen(s: string, c: string, k: nat)
    requires c <= s && k == IndexOf(c, '(') && k < |c|
    ensures IndexOf(s, '(') == k
  {
    forall i | 0 <= i < k ensures s[i] != '(' {
      assert s[i] == c[i];
    }
    IndexOfAt(s, '(', k);
  }

  /** Neither the name nor the arguments hold a `)`, so the final one is the first. */
  lemma FirstClose(s: string, c: string, k: nat)
    requires c <= s && 1 <= k < |c| - 1
    requires IsLatin(c[0]) && c[k] == '(' && c[|c| - 1] == ')' && IsSubscript(c[1..k])
    requires Arguments(c[k + 1..|c| - 1]).Some?
    ensures IndexOf(s, ')') == |c| - 1
  {
    var args := c[k + 1..|c| - 1];
    ArgumentsNoClose(args);
    NameNoClose(c[1..k]);
    var x := c[..|c| - 1];
    assert x == [c[0]] + c[1..k] + ['('] + args;
    assert ')' !in x;
    var y := s[|x|..];
    assert s == x + y && y[0] == ')';
    IndexOfAfter(x, y, ')');
  }

  lemma NameNoClose(t: string)
    requires IsSubscript(t)
    ensures ')' !in t
  {
    if t != [] {
      assert forall i :: 1 <= i < |t| ==> t[i] == t[1..][i - 1];
    }
  }

  /** Line 40 counts exactly the names the pattern matched. */
  lemma CountedArityIsNames(s: string)
    requires MatchFunction(s).Some?
    ensures CountedArity(s) == |MatchFunction(s).value|
  {
    var c, k := FunctionParts(s);
    FirstOpen(s, c, k);
    FirstClose(s, c, k);
    CountBetween(s, c, k, |c| - 1);
    ArgumentCount(c[k + 1..|c| - 1]);
  }

  lemma CountBetween(s: string, c: string, k: nat, j: nat)
    requires c <= s && k < j <= |c| && IndexOf(s, '(') == k && IndexOf(s, ')') == j
    ensures CountedArity(s) == |Split(c[k + 1..j], ',')|
  {
    assert s[k + 1..j] == c[k + 1..j];
  }

  /** A variable or constant has no `(`, so it never has the shape of a function. */
  lemma VarConstNotFunction(s: string)
    requires LibTerm.IsVariable(s) || LibTerm.IsConstant(s)
    ensures MatchFunction(s).None?
  {
    LibTerm.SymbolCharacters(Chomp(s));
  }

  /**
   * set_symbol accepts exactly variables, constants (arity 0) and function symbols whose arguments
   * are all variables or constants (arity: the number of arguments); everything else is refused
   * with "Invalid term name".
   */
  lemma ClassifyMeaning(s: string)
    ensures (LibTerm.IsVariable(s) || LibTerm.IsConstant(s)) ==> Classify(s) == Ok(0)
    ensures MatchFunction(s).Some? ==> Classify(s) == Ok(|MatchFunction(s).value|)
    ensures MatchFunction(s).Some? ==>
              forall i :: 0 <= i < |MatchFunction(s).value| ==> LibTerm.VarConstCore(MatchFunction(s).value[i])
    ensures Classify(s).Err? <==> !LibTerm.IsVariable(s) && !LibTerm.IsConstant(s) && MatchFunction(s).None?
    ensures Classify(s).Err? ==> Classify(s).error == ValueError("Invalid term name")
  {
    if LibTerm.IsVariable(s) || LibTerm.IsConstant(s) {
      VarConstNotFunction(s);
    } else if MatchFunction(s).Some? {
      ClassifyFunction(s);
    }
  }

  lemma ClassifyFunction(s: string)
    requires !LibTerm.IsVariable(s) && !LibTerm.IsConstant(s) && MatchFunction(s).Some?
    ensures Classify(s) == Ok(|MatchFunction(s).value|)
    ensures forall i :: 0 <= i < |MatchFunction(s).value| ==> LibTerm.VarConstCore(MatchFunction(s).value[i])
  {
    CountedArityIsNames(s);
    var c, k := FunctionParts(s);
    ArgumentNames(c[k + 1..|c| - 1]);
  }

  /** A two-argument list with whitespace after the comma. */
  lemma ArgumentsExample()
    ensures Arguments("x, \U{03B1}") == Some(["x", "\U{03B1}"])
  {
    var s := "x, \U{03B1}";
    assert NameLength(s) == 1;
    assert s[1..] == ", \U{03B1}" && SpaceLength(s[1..]) == 0 && s[1] == ',';
    assert s[2..] == " \U{03B1}" && SpaceLength(s[2..]) == 1 by {
      assert s[2..][1..] == "\U{03B1}";
    }
    assert s[3..] == "\U{03B1}";
    assert NameLength("\U{03B1}") == 1;
    assert Arguments("\U{03B1}") == Some(["\U{03B1}"]);
    assert s[..1] == "x";
    assert [s[..1]] + ["\U{03B1}"] == ["x", "\U{03B1}"];
  }

  lemma MatchExample()
    ensures MatchFunction("f(x, \U{03B1})") == Some(["x", "\U{03B1}"])
  {
    var s := "f(x, \U{03B1})";
    assert Chomp(s) == s;
    IndexOfAt(s, '(', 1);
    assert IsLatin(s[0]) && s[1..1] == [] && s[|s| - 1] == ')';
    assert s[2..|s| - 1] == "x, \U{03B1}";
    ArgumentsExample();
    assert FunctionArguments(s) == Arguments(s[2..|s| - 1]);
  }

  /** `f(x, α)` is a function of arity 2. */
  lemma ClassifyExample()
    ensures Classify("f(x, \U{03B1})") == Ok(2)
  {
    var s := "f(x, \U{03B1})";
    MatchExample();
    assert !LibTerm.VariableCore(s) && !LibTerm.ConstantCore(s);
    assert Chomp(s) == s;
    ClassifyFunction(s);
  }

  /** Unlike the library, this pattern takes no nested function as an argument. */
  lemma NestedRefused()
    ensures Classify("f(g(x))") == Err(ValueError("Invalid term name"))
  {
    var s := "f(g(x))";
    assert Chomp(s) == s;
    IndexOfAt(s, '(', 1);
    assert s[2..|s| - 1] == "g(x)";
    assert NameLength("g(x)") == 1;
    assert "g(x)"[1..] == "(x)";
    assert SpaceLength("(x)") == 0;
  }

  // ---- The Term object ----

  /** `if expr:` on what the constructor is given: only the number 0 is falsy among the values modelled. */
  predicate Truthy(n: Node)
  {
    !(n.NumN? && n.n == 0)
  }

  class Term {
    var symbol: string
    var arity: nat
    var expression: Option<Node>

    /** `symbol` and `arity` agree with the grammar, as set_symbol leaves them. */
    ghost predicate Valid()
      reads this
    {
      Classify(symbol) == Ok(arity)
    }

    /** The object as `__init__` has it before set_symbol runs (every attribute still `None`). */
    constructor Blank()
      ensures symbol == "" && arity == 0 && expression == None
    {
      symbol := "";
      arity := 0;
      expression := None;
    }

    /** `set_arity`. */
    method SetArity(n: int) returns (outcome: Outcome<Error>)
      modifies this`arity
      ensures n < 0 ==> outcome == Fail(ValueError("Arity must be non-negative")) && arity == old(arity)
      ensures n >= 0 ==> outcome == Pass && arity == n
    {
      if n < 0 {
        return Fail(ValueError("Arity must be non-negative"));
      }
      arity := n;
      outcome := Pass;
    }

    /** `set_symbol`: on success both fields are replaced, on failure neither. */
    method SetSymbol(s: string) returns (outcome: Outcome<Error>)
      modifies this`symbol, this`arity
      ensures outcome == OutcomeOf(Classify(s))
      ensures Classify(s).Ok? ==> symbol == s && arity == Classify(s).value && Valid()
      ensures Classify(s).Err? ==> symbol == old(symbol) && arity == old(arity)
    {
      if LibTerm.IsConstant(s) || LibTerm.IsVariable(s) {
        symbol := s;
        outcome := SetArity(0);
      } else if MatchFunction(s).Some? {
        symbol := s;
        var k := IndexOf(s, '(');
        var j := IndexOf(s, ')');
        FunctionBounds(s);
        outcome := SetArity(|Split(s[k + 1..j], ',')|);
      } else {
        outcome := Fail(ValueError("Invalid term name"));
      }
    }

    /** `set_expression`: refused on arity 0, otherwise the value is wrapped in an `Expression`. */
    method SetExpression(expr: Node) returns (outcome: Outcome<Error>)
      modifies this`expression
      ensures arity == 0 ==> outcome == Fail(ValueError("Constants or variables cannot have expressions"))
                             && expression == old(expression)
      ensures arity != 0 ==> outcome == Pass && expression == Some(ExprN(expr))
    {
      if arity == 0 {
        return Fail(ValueError("Constants or variables cannot have expressions"));
      }
      expression := Some(ExprN(expr));
      outcome := Pass;
    }

    /**
     * `self + other`, `self * other`, `self ** other`: a new `Expression` holding the tuple; it
     * renders as this symbol and `other` in parentheses around the operator.
     */
    function Operate(op: OpName, other: Node): (r: Node)
      reads this
      requires !op.Other?
      ensures ToString(r) == "(" + symbol + Separator(op) + ToString(other) + ")"
      ensures Unwrap(r) == Tuple(op, TermN(symbol), Unwrap(other))
    {
      GptsExpression.Operate(op, TermN(symbol), other)
    }
  }

  /**
   * `Term(symbol, expr)`: set_symbol, then set_expression when `expr` is truthy; the first
   * `ValueError` ends the construction.
   */
  method NewTerm(s: string, expr: Option<Node>) returns (r: Result<Term, Error>)
    ensures Classify(s).Err? ==> r == Err(Classify(s).error)
    ensures Classify(s).Ok? && expr.Some? && Truthy(expr.value) && Classify(s).value == 0 ==>
      r == Err(ValueError("Constants or variables cannot have expressions"))
    ensures r.Ok? ==> fresh(r.value) && r.value.Valid() && r.value.symbol == s
    ensures r.Ok? ==> r.value.expression == (if expr.Some? && Truthy(expr.value) then Some(ExprN(expr.value)) else None)
    ensures r.Ok? <==> Classify(s).Ok? && !(expr.Some? && Truthy(expr.value) && Classify(s).value == 0)
  {
    var t := new Term.Blank();
    var outcome := t.SetSymbol(s);
    if outcome.Fail? {
      return Err(outcome.error);
    }
    if expr.Some? && Truthy(expr.value) {
      outcome := t.SetExpression(expr.value);
      if outcome.Fail? {
        return Err(outcome.error);
      }
    }
    r := Ok(t);
  }
}
