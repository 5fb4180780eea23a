/**
 * algterm/algterm.py: an arity-first `Term`. The arity is fixed before the symbol and decides which
 * symbols are accepted, whether an expression may be attached (arity at least 1) and whether a
 * value may be (arity 0). `sympy.Symbol` is modelled as keeping the name, so a symbol is its
 * string, and `sympy.simplify` is an engine passed in as a function.
 */
module ArityTerm {
  import opened Wrappers
  import opened Text

  // ---- str.isalpha and str.islower over Latin and Greek letters ----

  /** An upper-case Greek letter, U+0391 to U+03A9 (U+03A2 is unassigned). */
  predicate IsGreekUpper(c: char)
  {
    '\U{0391}' <= c <= '\U{03A9}' && c != '\U{03A2}'
  }

  predicate IsAlphaChar(c: char)
  {
    IsLatin(c) || IsGreekLower(c) || IsGreekUpper(c)
  }

  predicate IsLowerChar(c: char)
  {
    IsLowerLatin(c) || IsGreekLower(c)
  }

  predicate IsUpperChar(c: char)
  {
    IsUpperLatin(c) || IsGreekUpper(c)
  }

  predicate IsCased(c: char)
  {
    IsLowerChar(c) || IsUpperChar(c)
  }

  /** `s.isalpha()`: not empty, and every character is a letter. */
  predicate StrIsAlpha(s: string)
  {
    |s| > 0 && forall i :: 0 <= i < |s| ==> IsAlphaChar(s[i])
  }

  /** `s.islower()`: at least one cased character, and every cased character is lower-case. */
  predicate StrIsLower(s: string)
  {
    (exists i :: 0 <= i < |s| && IsCased(s[i])) && forall i :: 0 <= i < |s| && IsCased(s[i]) ==> IsLowerChar(s[i])
  }

  /** A letter string that is lower-case is a non-empty string of lower-case letters, and conversely. */
  lemma LowerAlpha(s: string)
    ensures StrIsAlpha(s) && StrIsLower(s) <==> |s| > 0 && forall i :: 0 <= i < |s| ==> IsLowerChar(s[i])
  {
    if |s| > 0 && forall i :: 0 <= i < |s| ==> IsLowerChar(s[i]) {
      assert IsCased(s[0]);
    }
  }

  // ---- The symbol rules ----

  /**
   * `set_symbol(s)` for a term of arity `arity`. Arity 0: a one-letter lower-case string, or else
   * a string whose first character is a lower-case letter (`s[0]` raises on the empty string).
   * Arity 1 and above: a lower-case string of letters.
   */
  function SymbolCheck(arity: nat, s: string): Outcome<Error>
  {
    if arity == 0 then
      if |s| == 1 && StrIsLower(s) && StrIsAlpha(s) then Pass
      else if |s| == 0 then Fail(IndexError("string index out of range"))
      else if IsAlphaChar(s[0]) && IsLowerChar(s[0]) then Pass
      else Fail(ValueError("Invalid symbol for a constant or variable."))
    else if StrIsAlpha(s) && StrIsLower(s) then Pass
    else Fail(ValueError("Function symbols must be lowercase Latin letters."))
  }

  /**
   * Arity 0: the one-letter branch adds nothing, a symbol is accepted exactly when it starts with a
   * lower-case letter, the empty string raises `IndexError` and every other refusal is `ValueError`.
   */
  lemma ConstantSymbolMeaning(s: string)
    ensures SymbolCheck(0, s).Pass? <==> |s| > 0 && IsLowerChar(s[0])
    ensures |s| == 0 ==> SymbolCheck(0, s) == Fail(IndexError("string index out of range"))
    ensures |s| > 0 && !IsLowerChar(s[0]) ==> SymbolCheck(0, s) == Fail(ValueError("Invalid symbol for a constant or variable."))
  {
    if |s| == 1 && StrIsLower(s) && StrIsAlpha(s) {
      assert IsLowerChar(s[0]);
    }
  }

  /** Arity 1 and above: a symbol is accepted exactly when it is a non-empty string of lower-case letters. */
  lemma FunctionSymbolMeaning(arity: nat, s: string)
    requires arity >= 1
    ensures SymbolCheck(arity, s).Pass? <==> |s| > 0 && forall i :: 0 <= i < |s| ==> IsLowerChar(s[i])
    ensures SymbolCheck(arity, s).Fail? ==> SymbolCheck(arity, s) == Fail(ValueError("Function symbols must be lowercase Latin letters."))
  {
    LowerAlpha(s);
  }

  /**
   * Despite its message, the function rule accepts Greek letters, and the two rules differ: a
   * subscripted variable name is refused once the arity is raised.
   */
  lemma SymbolRuleExamples()
    ensures SymbolCheck(1, "\U{03B1}\U{03B2}").Pass?
    ensures SymbolCheck(0, "x_1").Pass? && SymbolCheck(1, "x_1").Fail?
    ensures SymbolCheck(0, "\U{03C0}").Pass? && SymbolCheck(0, "X").Fail?
  {
    FunctionSymbolMeaning(1, "\U{03B1}\U{03B2}");
    FunctionSymbolMeaning(1, "x_1");
    assert !IsLowerChar("x_1"[1]);
    ConstantSymbolMeaning("x_1");
    ConstantSymbolMeaning("\U{03C0}");
    ConstantSymbolMeaning("X");
  }

  // ---- Attached values ----

  /** An expression or a value: a string, an integer, or anything else with its `str` and truth value. */
  datatype Value = Text(text: string) | Number(n: int) | Other(shown: string, truthy: bool)

  function Show(v: Value): string
  {
    match v
    case Text(t) => t
    case Number(n) => IntToString(n)
    case Other(t, _) => t
  }

  /** `f'{x}'` of an optional value: `None` when absent. */
  function ShowOption(x: Option<Value>): string
  {
    if x.Some? then Show(x.value) else "None"
  }

  predicate Truthy(v: Value)
  {
    match v
    case Text(t) => t != ""
    case Number(n) => n != 0
    case Other(_, b) => b
  }

  /** `expression if expression else None`: a falsy expression is dropped. */
  function KeepTruthy(x: Option<Value>): (r: Option<Value>)
    ensures r.Some? <==> x.Some? && Truthy(x.value)
    ensures r.Some? ==> r == x
  {
    if x.Some? && Truthy(x.value) then x else None
  }

  // ---- The rendering ----

  /** `__repr__`: a constant with its value, a variable, or a function with its arity and expression. */
  function Describe(arity: nat, symbol: string, expression: Option<Value>, value: Option<Value>): string
  {
    if arity == 0 then
      if value.Some? then "Constant(" + symbol + ", value=" + Show(value.value) + ")"
      else "Variable(" + symbol + ")"
    else "Function(" + symbol + ", arity=" + NatToString(arity) + ", expression=" + ShowOption(expression) + ")"
  }

  /**
   * The three forms are told apart by their first nine characters, each naming exactly one kind of
   * term, and a variable's name is what stands between the parentheses.
   */
  lemma DescribeKind(arity: nat, symbol: string, expression: Option<Value>, value: Option<Value>)
    ensures var r := Describe(arity, symbol, expression, value);
      |r| >= 10
      && (r[..9] == "Constant(" <==> arity == 0 && value.Some?)
      && (r[..9] == "Variable(" <==> arity == 0 && value.None?)
      && (r[..9] == "Function(" <==> arity != 0)
      && (arity == 0 && value.None? ==> r[9..|r| - 1] == symbol)
  {
    var r := Describe(arity, symbol, expression, value);
    if arity == 0 && value.Some? {
      assert r[..9] == "Constant(";
    } else if arity == 0 {
      assert r[..9] == "Variable(";
      assert r[9..|r| - 1] == symbol;
    } else {
      assert r[..9] == "Function(";
    }
    assert "Constant("[0] != "Variable("[0] && "Constant("[0] != "Function("[0] && "Variable("[0] != "Function("[0];
  }

  // ---- The term ----

  class Term {
    var arity: nat
    var symbol: string
    var expression: Option<Value>
    var value: Option<Value>

    /** The symbol fits the arity, as set_symbol would check it now. */
    predicate Valid()
      reads this
    {
      SymbolCheck(arity, symbol).Pass?
    }

    /** The object before `__init__` runs its setters. */
    constructor Blank()
      ensures arity == 0 && symbol == [] && expression == None && value == None
    {
      arity := 0;
      symbol := [];
      expression := None;
      value := None;
    }

    /** `set_arity`: a negative arity is refused; nothing else is checked, not even the symbol. */
    method SetArity(n: int) returns (outcome: Outcome<Error>)
      modifies this`arity
      ensures n < 0 ==> outcome == Fail(ValueError("Arity must be non-negative.")) && arity == old(arity)
      ensures n >= 0 ==> outcome == Pass && arity == n
    {
      if n < 0 {
        return Fail(ValueError("Arity must be non-negative."));
      }
      arity := n;
      outcome := Pass;
    }

    /** `set_symbol`: the rule of the current arity decides; an accepted symbol makes the term valid. */
    method SetSymbol(s: string) returns (outcome: Outcome<Error>)
      modifies this`symbol
      ensures outcome == SymbolCheck(arity, s)
      ensures symbol == if outcome.Pass? then s else old(symbol)
      ensures outcome.Pass? ==> Valid()
    {
      if arity == 0 {
        if |s| == 1 && StrIsLower(s) && StrIsAlpha(s) {
          symbol := s;
          return Pass;
        }
        if |s| == 0 {
          return Fail(IndexError("string index out of range"));
        }
        if IsAlphaChar(s[0]) && IsLowerChar(s[0]) {
          symbol := s;
          return Pass;
        }
        return Fail(ValueError("Invalid symbol for a constant or variable."));
      }
      if StrIsAlpha(s) && StrIsLower(s) {
        symbol := s;
        return Pass;
      }
      outcome := Fail(ValueError("Function symbols must be lowercase Latin letters."));
    }

    /** `set_expression`: only a function may have an expression; whatever is given is stored as is. */
    method SetExpression(e: Option<Value>) returns (outcome: Outcome<Error>)
      modifies this`expression
      ensures outcome.Pass? <==> arity != 0
      ensures outcome.Fail? ==> outcome.error == ValueError("Constants or variables cannot have expressions.")
      ensures expression == if outcome.Pass? then e else old(expression)
    {
      if arity == 0 {
        return Fail(ValueError("Constants or variables cannot have expressions."));
      }
      expression := e;
      outcome := Pass;
    }

    /** `set_value`: only a constant or variable may have a value. */
    method SetValue(v: Option<Value>) returns (outcome: Outcome<Error>)
      modifies this`value
      ensures outcome.Pass? <==> arity == 0
      ensures outcome.Fail? ==> outcome.error == ValueError("Only constants can have values.")
      ensures value == if outcome.Pass? then v else old(value)
    {
      if arity != 0 {
        return Fail(ValueError("Only constants can have values."));
      }
      value := v;
      outcome := Pass;
    }

    /** `simplify`, with `sympy.simplify` as `engine`: refused when no expression is attached. */
    function Simplify(engine: Value -> Value): (r: Result<Value, Error>)
      reads this
      ensures r.Err? <==> expression.None?
      ensures r.Err? ==> r.error == ValueError("No expression to simplify.")
      ensures r.Ok? ==> r.value == engine(expression.value)
    {
      if expression.None? then Err(ValueError("No expression to simplify.")) else Ok(engine(expression.value))
    }

    /** `__repr__`. */
    function Repr(): (r: string)
      reads this
      ensures |r| >= 10
      ensures r[..9] == "Constant(" <==> arity == 0 && value.Some?
      ensures r[..9] == "Variable(" <==> arity == 0 && value.None?
      ensures r[..9] == "Function(" <==> arity != 0
      ensures arity == 0 && value.None? ==> r[9..|r| - 1] == symbol
      ensures arity == 0 && value.Some? ==> r == "Constant(" + symbol + ", value=" + Show(value.value) + ")"
      ensures arity == 0 && value.None? ==> r == "Variable(" + symbol + ")"
      ensures arity != 0 ==>
        r == "Function(" + symbol + ", arity=" + NatToString(arity) + ", expression=" + ShowOption(expression) + ")"
    {
      DescribeKind(arity, symbol, expression, value);
      Describe(arity, symbol, expression, value)
    }

    /**
     * `copy`: a new `Term` built from the arity, the symbol's name, the expression and the value, so
     * the symbol is checked again and a falsy expression is dropped.
     */
    method Copy() returns (r: Result<Term, Error>)
      ensures Valid() ==> r.Ok? && fresh(r.value) && r.value.arity == arity && r.value.symbol == symbol
                          && r.value.expression == KeepTruthy(expression) && r.value.value == value
      ensures !Valid() ==> r == Err(SymbolCheck(arity, symbol).error)
    {
      r := NewTerm(arity, symbol, expression, value);
    }
  }

  /**
   * `Term(arity, symbol, expression, value)`: the arity is set first, then the symbol is checked
   * against it; the expression (falsy ones dropped) and the value are stored without the setters'
   * guards, so a constant may hold an expression and a function a value.
   */
  method NewTerm(arity: int, s: string, expression: Option<Value>, value: Option<Value>) returns (r: Result<Term, Error>)
    ensures arity < 0 ==> r == Err(ValueError("Arity must be non-negative."))
    ensures arity >= 0 && SymbolCheck(arity, s).Fail? ==> r == Err(SymbolCheck(arity, s).error)
    ensures r.Ok? <==> arity >= 0 && SymbolCheck(arity, s).Pass?
    ensures r.Ok? ==> fresh(r.value) && r.value.Valid() && r.value.arity == arity && r.value.symbol == s
                      && r.value.expression == KeepTruthy(expression) && r.value.value == value
  {
    var t := new Term.Blank();
    var outcome := t.SetArity(arity);
    if outcome.Fail? {
      return Err(outcome.error);
    }
    outcome := t.SetSymbol(s);
    if outcome.Fail? {
      return Err(outcome.error);
    }
    t.expression := KeepTruthy(expression);
    t.value := value;
    r := Ok(t);
  }
}
