/**
 * algterm/core.py: a `Term` with the same symbol patterns as gpts_examples/algterm.py, whose
 * arity starts as `None` and is guarded against being overwritten, and an `Expression` that only
 * checks the type of its value and builds strings.
 */
module DraftCore {
  import opened Wrappers
  import opened Text
  import LibTerm
  import GptsTerm

  // ---- Expression ----

  /**
   * A value the draft formats: a `Term` (by its symbol, `None` before one is stored), an integer,
   * a string, an `Expression` wrapping a value, or a value of another type, shown by its own `str`
   * and with its own truth value (an empty list is false, for instance).
   */
  datatype Value = TermV(symbol: Option<string>) | IntV(n: int) | StrV(text: string) | ExprV(value: Value)
                 | OtherV(typeName: string, shown: string, truthy: bool)

  /** `str(v)`, which is also what an f-string inserts; a `Term` shows `f'{self.symbol}'`. */
  function Show(v: Value): string
  {
    match v
    case TermV(s) => if s.Some? then s.value else "None"
    case IntV(n) => IntToString(n)
    case StrV(t) => t
    case ExprV(inner) => Show(inner)
    case OtherV(_, t, _) => t
  }

  /** The types the constructor accepts (floats are not modelled). */
  predicate Accepted(v: Value)
  {
    !v.OtherV?
  }

  /** `Expression(value)`: the value is kept when its type is accepted, otherwise `TypeError`. */
  function NewExpression(v: Value): (r: Result<Value, Error>)
    ensures r.Ok? <==> Accepted(v)
    ensures r.Ok? ==> r.value.ExprV? && r.value.value == v && Show(r.value) == Show(v)
    ensures r.Err? ==> r.error == TypeError("Expression must be initialized with Term, Expression, int, float, or str")
  {
    if Accepted(v) then Ok(ExprV(v))
    else Err(TypeError("Expression must be initialized with Term, Expression, int, float, or str"))
  }

  /** The operators this draft builds text for. */
  datatype StringOp = Add | Mul | Pow

  /**
   * `Expression.__add__`, `__mul__`, `__pow__`: a new `Expression` holding a string. The sum is
   * wrapped in parentheses, the base of a power is, the product is not.
   */
  function ExpressionOperate(op: StringOp, e: Value, other: Value): (r: Value)
    requires e.ExprV?
    ensures r.ExprV? && r.value.StrV?
    ensures op == Add ==> Show(r) == "(" + Show(e) + " + " + Show(other) + ")"
    ensures op == Mul ==> Show(r) == Show(e) + " * " + Show(other)
    ensures op == Pow ==> Show(r) == "(" + Show(e) + ")^" + Show(other)
  {
    var v := Show(e.value);
    var o := Show(other);
    match op
    case Add => ExprV(StrV("(" + v + " + " + o + ")"))
    case Mul => ExprV(StrV(v + " * " + o))
    case Pow => ExprV(StrV("(" + v + ")^" + o))
  }

  /** `Term.__add__`, `__mul__`, `__pow__`: the term's text and the other's, joined by the operator. */
  function TermOperate(op: StringOp, t: Value, other: Value): (r: Value)
    requires t.TermV?
    ensures r.ExprV? && r.value.StrV?
    ensures op == Add ==> Show(r) == Show(t) + " + " + Show(other)
    ensures op == Mul ==> Show(r) == Show(t) + " * " + Show(other)
    ensures op == Pow ==> Show(r) == Show(t) + "^" + Show(other)
  {
    var o := Show(other);
    match op
    case Add => ExprV(StrV(Show(t) + " + " + o))
    case Mul => ExprV(StrV(Show(t) + " * " + o))
    case Pow => ExprV(StrV(Show(t) + "^" + o))
  }

  /**
   * Because the product adds no parentheses, `(x + y) * z` and `x + y * z` produce the same text,
   * while the sum of an `Expression` keeps its grouping: `(x * y) + z` shows as `(x * y + z)`.
   */
  lemma ProductKeepsNoGrouping()
    ensures var x, y, z := TermV(Some("x")), TermV(Some("y")), TermV(Some("z"));
      Show(ExpressionOperate(Mul, TermOperate(Add, x, y), z)) == "x + y * z"
      && Show(TermOperate(Add, x, TermOperate(Mul, y, z))) == "x + y * z"
      && Show(ExpressionOperate(Add, TermOperate(Mul, x, y), z)) == "(x * y + z)"
  {
  }

  // ---- The symbol grammar ----

  /**
   * What set_symbol would store: arity 0 for a variable or a constant, `len(s[1:-1].split(','))`
   * for a function symbol, or the `ValueError`.
   */
  function Classify(s: string): Result<nat, Error>
  {
    if LibTerm.IsConstant(s) || LibTerm.IsVariable(s) then Ok(0)
    else if GptsTerm.MatchFunction(s).Some? then Ok(|Split(s[1..|s| - 1], ',')|)
    else Err(ValueError("Invalid term name"))
  }

  /** Line 44 counts the arguments: the name part holds no comma, so `s[1:-1]` has the argument list's commas. */
  lemma ArityIsArguments(s: string)
    requires GptsTerm.MatchFunction(s).Some?
    ensures Classify(s) == Ok(|GptsTerm.MatchFunction(s).value|)
  {
    SliceArity(s);
    if LibTerm.IsVariable(s) || LibTerm.IsConstant(s) {
      GptsTerm.VarConstNotFunction(s);
    }
  }

  lemma SliceArity(s: string)
    requires GptsTerm.MatchFunction(s).Some?
    ensures |Split(s[1..|s| - 1], ',')| == |GptsTerm.MatchFunction(s).value|
  {
    var c, k := GptsTerm.FunctionParts(s);
    var args := c[k + 1..|c| - 1];
    GptsTerm.ArgumentCount(args);
    SplitLength(s[1..|s| - 1], ',');
    SliceCommas(s, c, k, args);
  }

  /** `s[1:-1]` of a function symbol holds exactly the commas of its argument list. */
  lemma SliceCommas(s: string, c: string, k: nat, args: string)
    requires c == s || s == c + "\n"
    requires 1 <= k < |c| - 1 && c[k] == '(' && c[|c| - 1] == ')' && IsSubscript(c[1..k])
    requires args == c[k + 1..|c| - 1]
    ensures Count(s[1..|s| - 1], ',') == Count(args, ',')
  {
    CommasOfName(c[1..k]);
    var tail := if c == s then "" else ")";
    assert s[1..|s| - 1] == c[1..k] + "(" + args + tail;
    CountConcat(c[1..k] + "(" + args, tail, ',');
    CountConcat(c[1..k] + "(", args, ',');
    CountConcat(c[1..k], "(", ',');
  }

  lemma CommasOfName(t: string)
    requires IsSubscript(t)
    ensures Count(t, ',') == 0
  {
    if t != [] {
      assert forall i :: 1 <= i < |t| ==> t[i] == t[1..][i - 1];
    }
    CountAbsent(t, ',');
  }

  // ---- The arity guard ----

  /**
   * How `__set_arity` tests the current arity before storing `n`: as written (`self.arity > 0`,
   * which raises for `None`), or treating `None` as not yet set.
   */
  datatype Guard = AsWritten | NoneAware

  /** The outcome of `__set_arity(n)` on a term whose arity is `current`. */
  function ArityCheck(guard: Guard, current: Option<int>, n: int): Outcome<Error>
  {
    if n < 0 then Fail(ValueError("Arity must be non-negative"))
    else if current.None? then
      (match guard
       case AsWritten => Fail(TypeError("'>' not supported between instances of 'NoneType' and 'int'"))
       case NoneAware => Pass)
    else if current.value > 0 then Fail(Warning("Setting arity 0 to a function"))
    else Pass
  }

  /**
   * As written, a term whose arity was never set cannot receive one, and once set, an arity above
   * 0 can never be replaced: the guard passes only for a current arity of at most 0.
   */
  lemma ArityCheckMeaning(guard: Guard, current: Option<int>, n: int)
    ensures ArityCheck(guard, current, n).Pass? <==>
      n >= 0 && (if current.None? then guard == NoneAware else current.value <= 0)
  {
  }

  class Term {
    var symbol: Option<string>
    var arity: Option<int>
    var expression: Option<Value>

    /** `__init__` before set_symbol: every attribute `None`. */
    constructor Blank()
      ensures symbol == None && arity == None && expression == None
    {
      symbol := None;
      arity := None;
      expression := None;
    }

    /** `__set_arity`. */
    method SetArity(guard: Guard, n: int) returns (outcome: Outcome<Error>)
      modifies this`arity
      ensures outcome == ArityCheck(guard, old(arity), n)
      ensures arity == if outcome.Pass? then Some(n) else old(arity)
    {
      if n < 0 {
        return Fail(ValueError("Arity must be non-negative"));
      }
      if arity.None? && guard == AsWritten {
        return Fail(TypeError("'>' not supported between instances of 'NoneType' and 'int'"));
      }
      if arity.Some? && arity.value > 0 {
        return Fail(Warning("Setting arity 0 to a function"));
      }
      arity := Some(n);
      outcome := Pass;
    }

    /**
     * `set_symbol`: an accepted symbol is stored first, then `__set_arity` runs and may raise; a
     * refused one changes nothing.
     */
    method SetSymbol(guard: Guard, s: string) returns (outcome: Outcome<Error>)
      modifies this`symbol, this`arity
      ensures Classify(s).Err? ==> outcome == Fail(Classify(s).error) && symbol == old(symbol) && arity == old(arity)
      ensures Classify(s).Ok? ==> symbol == Some(s) && outcome == ArityCheck(guard, old(arity), Classify(s).value)
      ensures Classify(s).Ok? ==> arity == if outcome.Pass? then Some(Classify(s).value) else old(arity)
    {
      if LibTerm.IsConstant(s) || LibTerm.IsVariable(s) {
        symbol := Some(s);
        outcome := SetArity(guard, 0);
      } else if GptsTerm.MatchFunction(s).Some? {
        symbol := Some(s);
        outcome := SetArity(guard, |Split(s[1..|s| - 1], ',')|);
      } else {
        outcome := Fail(ValueError("Invalid term name"));
      }
    }

    /** `set_expression`: refused on arity 0; otherwise the value must be of an accepted type. */
    method SetExpression(v: Value) returns (outcome: Outcome<Error>)
      modifies this`expression
      ensures arity == Some(0) ==> outcome == Fail(ValueError("Constants or variables cannot have expressions"))
      ensures arity != Some(0) ==> outcome == OutcomeOf(NewExpression(v))
      ensures expression == if outcome.Pass? then Some(ExprV(v)) else old(expression)
    {
      if arity == Some(0) {
        return Fail(ValueError("Constants or variables cannot have expressions"));
      }
      var e := NewExpression(v);
      if e.Err? {
        return Fail(e.error);
      }
      expression := Some(e.value);
      outcome := Pass;
    }

    /** `copy`: a new object with equal fields. */
    method Copy() returns (t: Term)
      ensures fresh(t)
      ensures t.symbol == symbol && t.arity == arity && t.expression == expression
    {
      t := new Term.Blank();
      t.symbol, t.arity, t.expression := symbol, arity, expression;
    }

    /** `__repr__`: the symbol, or `None` when there is none. */
    function Repr(): (r: string)
      reads this
      ensures Show(TermV(symbol)) == r
      ensures symbol.Some? ==> r == symbol.value
    {
      if symbol.Some? then symbol.value else "None"
    }
  }

  /** Python truthiness of the `expr` argument. */
  predicate Truthy(v: Value)
  {
    match v
    case IntV(n) => n != 0
    case StrV(t) => t != ""
    case OtherV(_, _, b) => b
    case _ => true
  }

  /** `Term(symbol, expr)` with the given arity guard. */
  method NewTerm(guard: Guard, s: string, expr: Option<Value>) returns (r: Result<Term, Error>)
    ensures Classify(s).Err? ==> r == Err(Classify(s).error)
    ensures Classify(s).Ok? && guard == AsWritten ==>
      r == Err(TypeError("'>' not supported between instances of 'NoneType' and 'int'"))
    ensures guard == NoneAware && r.Ok? ==>
      fresh(r.value) && r.value.symbol == Some(s) && r.value.arity == Some(Classify(s).value)
    ensures guard == NoneAware && r.Ok? ==>
      r.value.expression == (if expr.Some? && Truthy(expr.value) then Some(ExprV(expr.value)) else None)
    ensures guard == NoneAware ==>
      (r.Ok? <==> Classify(s).Ok? && !(expr.Some? && Truthy(expr.value) && (Classify(s).value == 0 || !Accepted(expr.value))))
  {
    var t := new Term.Blank();
    var outcome := t.SetSymbol(guard, s);
    if outcome.Fail? {
      return Err(outcome.error);
    }
    if expr.Some? && Truthy(expr.value) {
      outcome := t.SetExpression(expr.value);
      if outcome.Fail? {
        return Err(outcome.error);
      }
    }
    r := Ok(t);
  }

  /** As written, no `Term` can be constructed: every symbol ends in an error. */
  lemma NoTermAsWritten(s: string)
    ensures Classify(s).Ok? ==> ArityCheck(AsWritten, None, Classify(s).value).Fail?
  {
  }

  /**
   * With `None` read as "no arity yet", construction stores every accepted symbol with its arity:
   * 0 for a variable or constant, the number of arguments for a function symbol.
   */
  lemma ConstructionFixed(s: string)
    ensures Classify(s).Ok? ==> ArityCheck(NoneAware, None, Classify(s).value) == Pass
    ensures GptsTerm.MatchFunction(s).Some? ==> Classify(s) == Ok(|GptsTerm.MatchFunction(s).value|)
    ensures (LibTerm.IsVariable(s) || LibTerm.IsConstant(s)) ==> Classify(s) == Ok(0)
  {
    if GptsTerm.MatchFunction(s).Some? {
      ArityIsArguments(s);
    }
  }
}
