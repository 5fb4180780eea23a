/**
 * `Term` of algtermlib/core.py: the symbol grammar (variable, Greek constant, function with an
 * argument list), the character scanner that validates and splits the argument list at top-level
 * commas, and the `Term` object whose setters keep `symbol` and `arity` in step.
 */
module LibTerm {
  import opened Wrappers
  import opened Text
  import opened LibExpression

  // ---- The three patterns of set_symbol, checked in this order ----

  /** `[a-z](_[a-zA-Z0-9]+)?` matched as a whole. */
  predicate VariableCore(s: string)
  {
    |s| >= 1 && IsLowerLatin(s[0]) && IsSubscript(s[1..])
  }

  /** `[α-ω](_[a-zA-Z0-9]+)?` matched as a whole. */
  predicate ConstantCore(s: string)
  {
    |s| >= 1 && IsGreekLower(s[0]) && IsSubscript(s[1..])
  }

  /** `[a-zα-ω](_[a-zA-Z0-9]+)?` matched as a whole: the pattern for a plain argument. */
  predicate VarConstCore(s: string)
  {
    |s| >= 1 && (IsLowerLatin(s[0]) || IsGreekLower(s[0])) && IsSubscript(s[1..])
  }

  /**
   * `[a-zA-Z](_[a-zA-Z0-9]+)?\((.*)\)` matched as a whole, giving the text of group 2. The name
   * part cannot contain `(`, so the list opens at the first `(`; `.` does not match a newline.
   */
  function FunctionParts(s: string): Option<string>
  {
    var k := IndexOf(s, '(');
    if 1 <= k < |s| - 1 && IsLatin(s[0]) && IsSubscript(s[1..k]) && s[|s| - 1] == ')'
       && '\n' !in s[k + 1..|s| - 1]
    then Some(s[k + 1..|s| - 1])
    else None
  }

  predicate FunctionCore(s: string)
  {
    FunctionParts(s).Some?
  }

  /** `re.match(var_pattern, s)`. */
  predicate IsVariable(s: string)
  {
    VariableCore(Chomp(s))
  }

  /** `re.match(const_pattern, s)`. */
  predicate IsConstant(s: string)
  {
    ConstantCore(Chomp(s))
  }

  /** `re.match(func_pattern, s).group(2)`, or `None` when the pattern does not match. */
  function MatchFunction(s: string): Option<string>
  {
    FunctionParts(Chomp(s))
  }

  /**
   * The test `_validate_arguments` applies to one stripped argument: it is not empty, and it is a
   * variable or constant, or has the shape `name(...)` (whose inside is not looked at again).
   */
  predicate ArgumentOk(a: string)
  {
    a != [] && (VarConstCore(Chomp(a)) || FunctionCore(Chomp(a)))
  }

  // ---- The character scanner shared by _validate_arguments and _split_arguments ----

  /**
   * Where a left-to-right reading of an argument list stands: how many parentheses are open
   * (the length of `stack`), the text of the current argument (`buffer`), and the raw text of
   * the arguments already closed by a top-level comma.
   */
  datatype Scan = Scan(depth: nat, buffer: string, done: seq<string>)

  /** One character; `None` when a `)` has no open `(` to close. */
  function Step(st: Scan, c: char): Option<Scan>
  {
    if c == ',' && st.depth == 0 then Some(Scan(0, "", st.done + [st.buffer]))
    else if c == '(' then Some(Scan(st.depth + 1, st.buffer + [c], st.done))
    else if c == ')' then
      (if st.depth == 0 then None else Some(Scan(st.depth - 1, st.buffer + [c], st.done)))
    else Some(Scan(st.depth, st.buffer + [c], st.done))
  }

  /** The reading of the whole of `s`. */
  function ScanText(s: string): Option<Scan>
  {
    if s == [] then Some(Scan(0, "", []))
    else
      match ScanText(s[..|s| - 1])
      case None => None
      case Some(st) => Step(st, s[|s| - 1])
  }

  function StripAll(parts: seq<string>): (r: seq<string>)
    ensures |r| == |parts| && forall i :: 0 <= i < |parts| ==> r[i] == Strip(parts[i])
  {
    seq(|parts|, i requires 0 <= i < |parts| => Strip(parts[i]))
  }

  lemma StripAllSnoc(parts: seq<string>, p: string)
    ensures StripAll(parts + [p]) == StripAll(parts) + [Strip(p)]
  {
    assert StripAll(parts + [p])[|parts|] == Strip(p);
  }

  predicate AllArgumentsOk(parts: seq<string>)
  {
    Every(parts, ArgumentOk)
  }

  lemma AllArgumentsOkSnoc(parts: seq<string>, p: string)
    ensures AllArgumentsOk(StripAll(parts + [p])) <==> AllArgumentsOk(StripAll(parts)) && ArgumentOk(Strip(p))
  {
    StripAllSnoc(parts, p);
    EverySnoc(StripAll(parts), Strip(p), ArgumentOk);
  }

  /** What `_validate_arguments` returns. */
  predicate ArgumentsValid(s: string)
  {
    match ScanText(s)
    case None => false
    case Some(st) => st.depth == 0 && AllArgumentsOk(StripAll(st.done + [st.buffer]))
  }

  /** What `_split_arguments` returns; `stack.pop()` on an empty list raises `IndexError`. */
  function ArgumentPieces(s: string): Result<seq<string>, Error>
  {
    match ScanText(s)
    case None => Err(IndexError("pop from empty list"))
    case Some(st) => Ok(StripAll(st.done + [st.buffer]))
  }

  /**
   * `set_symbol`'s verdict on `s`: arity 0 for a variable or constant, the number of top-level
   * arguments for a function whose arguments validate, and the `ValueError` it raises otherwise.
   */
  function Classify(s: string): Result<nat, Error>
  {
    if IsConstant(s) || IsVariable(s) then Ok(0)
    else
      match MatchFunction(s)
      case None => Err(ValueError("Invalid term name"))
      case Some(args) =>
        if ArgumentsValid(args) then Ok(|ArgumentPieces(args).value|)
        else Err(ValueError("Invalid arguments in function"))
  }

  // ---- The two helpers, as the loops they are ----

  /** `_validate_arguments`. */
  method ValidateArguments(arguments: string) returns (ok: bool)
    ensures ok == ArgumentsValid(arguments)
  {
    var stack: seq<char> := [];
    var buffer := "";
    ghost var done: seq<string> := [];
    for i := 0 to |arguments|
      invariant ScanText(arguments[..i]) == Some(Scan(|stack|, buffer, done))
      invariant AllArgumentsOk(StripAll(done))
    {
      var c := arguments[i];
      ScanNext(arguments, i);
      if c == ',' && stack == [] {
        var b := Strip(buffer);
        if b == [] || !(VarConstCore(Chomp(b)) || FunctionCore(Chomp(b))) {
          ScanPrefix(arguments, i + 1);
          if ScanText(arguments).Some? {
            var full := ScanText(arguments).value;
            assert full.done[|done|] == buffer;
            assert StripAll(full.done + [full.buffer])[|done|] == b;
          }
          return false;
        }
        AllArgumentsOkSnoc(done, buffer);
        done := done + [buffer];
        buffer := "";
      } else {
        buffer := buffer + [c];
        if c == '(' {
          stack := stack + ['('];
        } else if c == ')' {
          if stack != [] {
            stack := stack[..|stack| - 1];
          } else {
            ScanPrefix(arguments, i + 1);
            return false;
          }
        }
      }
    }
    assert arguments[..|arguments|] == arguments;
    AllArgumentsOkSnoc(done, buffer);
    var b := Strip(buffer);
    ok := stack == [] && (VarConstCore(Chomp(b)) || FunctionCore(Chomp(b)));
  }

  /** `_split_arguments`. */
  method SplitArguments(arguments: string) returns (r: Result<seq<string>, Error>)
    ensures r == ArgumentPieces(arguments)
  {
    var stack: seq<char> := [];
    var buffer := "";
    var result: seq<string> := [];
    ghost var done: seq<string> := [];
    for i := 0 to |arguments|
      invariant ScanText(arguments[..i]) == Some(Scan(|stack|, buffer, done))
      invariant result == StripAll(done)
    {
      var c := arguments[i];
      ScanNext(arguments, i);
      if c == ',' && stack == [] {
        StripAllSnoc(done, buffer);
        result := result + [Strip(buffer)];
        done := done + [buffer];
        buffer := "";
      } else {
        buffer := buffer + [c];
        if c == '(' {
          stack := stack + ['('];
        } else if c == ')' {
          if stack == [] {
            ScanPrefix(arguments, i + 1);
            return Err(IndexError("pop from empty list"));
          }
          stack := stack[..|stack| - 1];
        }
      }
    }
    assert arguments[..|arguments|] == arguments;
    StripAllSnoc(done, buffer);
    result := result + [Strip(buffer)];
    r := Ok(result);
  }

  /** Reading one more character is one more `Step`. */
  lemma ScanNext(s: string, i: nat)
    requires i < |s|
    ensures ScanText(s[..i + 1]) == (match ScanText(s[..i]) case None => None case Some(st) => Step(st, s[i]))
  {
    assert s[..i + 1][..i] == s[..i];
  }

  /** Reading further only ever adds completed arguments, and a reading that failed stays failed. */
  lemma {:induction false} ScanPrefix(s: string, i: nat)
    requires i <= |s|
    ensures ScanText(s).Some? ==> ScanText(s[..i]).Some? && ScanText(s[..i]).value.done <= ScanText(s).value.done
  {
    if i < |s| {
      var init := s[..|s| - 1];
      assert init[..i] == s[..i];
      ScanPrefix(init, i);
    } else {
      assert s[..i] == s;
    }
  }

  // ---- What the scanner computes, stated without it ----

  /** Open minus closed parentheses. */
  function Depth(s: string): int
  {
    Count(s, '(') - Count(s, ')')
  }

  /** No prefix of `s` closes more parentheses than it opened. */
  predicate NeverUnbalanced(s: string)
  {
    forall i :: 0 <= i <= |s| ==> Depth(s[..i]) >= 0
  }

  /** The commas of `s` that stand outside every parenthesis. */
  function TopLevelCommas(s: string): nat
  {
    if s == [] then 0
    else
      var init := s[..|s| - 1];
      TopLevelCommas(init) + (if s[|s| - 1] == ',' && Depth(init) == 0 then 1 else 0)
  }

  lemma DepthSnoc(s: string, c: char)
    ensures Depth(s + [c]) == Depth(s) + (if c == '(' then 1 else if c == ')' then -1 else 0)
  {
    CountConcat(s, [c], '(');
    CountConcat(s, [c], ')');
  }

  /** A text stays balanced one character longer exactly when its new depth is not negative. */
  lemma NeverUnbalancedSnoc(init: string, c: char)
    ensures NeverUnbalanced(init + [c]) <==> NeverUnbalanced(init) && Depth(init + [c]) >= 0
  {
    var s := init + [c];
    if NeverUnbalanced(s) {
      forall i | 0 <= i <= |init| ensures Depth(init[..i]) >= 0 {
        assert init[..i] == s[..i];
      }
      assert s[..|s|] == s;
    }
    if NeverUnbalanced(init) && Depth(s) >= 0 {
      forall i | 0 <= i <= |s| ensures Depth(s[..i]) >= 0 {
        if i < |s| {
          assert s[..i] == init[..i];
        } else {
          assert s[..i] == s;
        }
      }
    }
  }

  /**
   * The scanner succeeds exactly on text that never closes an unopened parenthesis; it then ends
   * at the text's depth, has closed one argument per top-level comma, and the arguments joined
   * with commas give back the text.
   */
  lemma {:induction false} ScanMeaning(s: string)
    ensures ScanText(s).Some? <==> NeverUnbalanced(s)
    ensures ScanText(s).Some? ==>
      var st := ScanText(s).value;
      st.depth == Depth(s) && |st.done| == TopLevelCommas(s) && Join(st.done + [st.buffer], ',') == s
  {
    if s == [] {
      assert s[..0] == s;
    } else {
      var init := s[..|s| - 1];
      var c := s[|s| - 1];
      ScanMeaning(init);
      assert s == init + [c];
      DepthSnoc(init, c);
      NeverUnbalancedSnoc(init, c);
      if ScanText(init).Some? {
        var st := ScanText(init).value;
        if c == ',' && st.depth == 0 {
          JoinSnoc(st.done + [st.buffer], "", ',');
          assert st.done + [st.buffer] + [""] == (st.done + [st.buffer]) + [""];
        } else if st.done == [] {
          assert [st.buffer + [c]] == st.done + [st.buffer + [c]];
        } else {
          JoinSnoc(st.done, st.buffer + [c], ',');
          JoinSnoc(st.done, st.buffer, ',');
        }
      }
    }
  }

  /**
   * `_validate_arguments` accepts exactly the argument lists that never close an unopened
   * parenthesis, leave none open, and whose stripped top-level pieces are each a variable, a
   * constant or `name(...)`; there are then one more pieces than top-level commas.
   */
  lemma ArgumentsValidMeaning(s: string)
    ensures ArgumentsValid(s) <==>
      NeverUnbalanced(s) && Depth(s) == 0 && ArgumentPieces(s).Ok? && AllArgumentsOk(ArgumentPieces(s).value)
    ensures ArgumentsValid(s) ==> |ArgumentPieces(s).value| == TopLevelCommas(s) + 1
  {
    ScanMeaning(s);
  }

  /** A variable or constant never has the shape of a function, so the order of the tests does not matter. */
  lemma VarConstNotFunction(s: string)
    requires IsVariable(s) || IsConstant(s)
    ensures MatchFunction(s).None?
  {
    SymbolCharacters(Chomp(s));
  }

  /** Every character of a symbol is a letter, a digit or `_`. */
  lemma SymbolCharacters(s: string)
    requires VariableCore(s) || ConstantCore(s)
    ensures forall i :: 0 <= i < |s| ==> s[i] != '(' && s[i] != ')' && s[i] != '\n'
  {
    forall i | 1 <= i < |s| ensures s[i] != '(' && s[i] != ')' && s[i] != '\n' {
      var t := s[1..];
      assert s[i] == t[i - 1];
      if i > 1 {
        assert t[1..][i - 2] == t[i - 1];
      }
    }
  }

  /** A symbol gets arity 0 exactly when it is a variable or a constant. */
  lemma ArityZeroIffVarConst(s: string)
    ensures Classify(s) == Ok(0) <==> IsVariable(s) || IsConstant(s)
  {
  }

  /** A function symbol whose arguments validate gets one argument per top-level comma, plus one. */
  lemma FunctionArity(s: string, args: string)
    requires MatchFunction(s) == Some(args) && ArgumentsValid(args)
    ensures Classify(s) == Ok(TopLevelCommas(args) + 1)
  {
    if IsVariable(s) || IsConstant(s) {
      VarConstNotFunction(s);
    }
    ArgumentsValidMeaning(args);
  }

  lemma ScanSnoc(s: string, c: char)
    ensures ScanText(s + [c]) == (match ScanText(s) case None => None case Some(st) => Step(st, c))
  {
    assert (s + [c])[..|s|] == s;
  }

  /** A Latin letter, `(`, a list without newline and `)`: the function pattern matches, the others do not. */
  lemma FunctionText(s: string, args: string)
    requires |s| >= 3 && IsLatin(s[0]) && s[1] == '(' && s[|s| - 1] == ')'
    requires args == s[2..|s| - 1] && '\n' !in args
    ensures MatchFunction(s) == Some(args) && !IsVariable(s) && !IsConstant(s)
  {
    assert Chomp(s) == s;
    IndexOfAt(s, '(', 1);
    assert s[1..1] == [];
    assert s[1..][0] == '(';
  }

  /** How `Classify` treats text of the function shape, given its argument list. */
  lemma ClassifyFunctionShape(s: string, args: string)
    requires !IsVariable(s) && !IsConstant(s) && MatchFunction(s) == Some(args)
    ensures ArgumentsValid(args) ==> Classify(s) == Ok(|ArgumentPieces(args).value|)
    ensures !ArgumentsValid(args) ==> Classify(s) == Err(ValueError("Invalid arguments in function"))
  {
  }

  /** Variables and constants have arity 0. */
  lemma ClassifyVarConst()
    ensures Classify("x") == Ok(0) && Classify("y_1") == Ok(0) && Classify("α") == Ok(0)
  {
    assert IsSubscript("y_1"[1..]) by {
      assert "y_1"[1..] == "_1";
    }
  }

  /** How `x, α` is read. */
  lemma ScanTwoArguments()
    ensures ScanText("x, α") == Some(Scan(0, " α", ["x"]))
  {
    ScanSnoc("", 'x');
    assert "" + ['x'] == "x";
    assert ScanText("x") == Some(Scan(0, "x", []));
    ScanSnoc("x", ',');
    assert "x" + [','] == "x,";
    assert [] + ["x"] == ["x"];
    assert ScanText("x,") == Some(Scan(0, "", ["x"]));
    ScanSnoc("x,", ' ');
    assert "x," + [' '] == "x, ";
    assert "" + [' '] == " ";
    assert ScanText("x, ") == Some(Scan(0, " ", ["x"]));
    ScanSnoc("x, ", 'α');
    assert "x, " + ['α'] == "x, α";
    assert " " + ['α'] == " α";
  }

  lemma TwoArgumentsValid()
    ensures ArgumentsValid("x, α") && |ArgumentPieces("x, α").value| == 2
  {
    ScanTwoArguments();
    assert ArgumentOk("x") && ArgumentOk("α");
    assert Strip("x") == "x" by {
      StripTrimmed("x");
    }
    assert Strip(" α") == "α" by {
      assert " α"[1..] == "α";
      assert LStrip(" α") == "α";
    }
    AllArgumentsOkSnoc([], "x");
    AllArgumentsOkSnoc(["x"], " α");
    assert [] + ["x"] == ["x"];
    assert StripAll([]) == [];
  }

  /** A function of two arguments, with the space after the comma stripped. */
  lemma ClassifyAccepts()
    ensures Classify("f(x, α)") == Ok(2)
  {
    var s, args := "f(x, α)", "x, α";
    FunctionText(s, args);
    TwoArgumentsValid();
    ClassifyFunctionShape(s, args);
  }

  /** How `x,,y` is read. */
  lemma ScanEmptyArgument()
    ensures ScanText("x,,y") == Some(Scan(0, "y", ["x", ""]))
  {
    ScanSnoc("", 'x');
    assert "" + ['x'] == "x";
    assert ScanText("x") == Some(Scan(0, "x", []));
    ScanSnoc("x", ',');
    assert "x" + [','] == "x,";
    assert [] + ["x"] == ["x"];
    assert ScanText("x,") == Some(Scan(0, "", ["x"]));
    ScanSnoc("x,", ',');
    assert "x," + [','] == "x,,";
    assert ["x"] + [""] == ["x", ""];
    assert ScanText("x,,") == Some(Scan(0, "", ["x", ""]));
    ScanSnoc("x,,", 'y');
    assert "x,," + ['y'] == "x,,y";
    assert "" + ['y'] == "y";
  }

  lemma EmptyArgumentInvalid()
    ensures !ArgumentsValid("x,,y")
  {
    ScanEmptyArgument();
    AllArgumentsOkSnoc(["x", ""], "y");
    AllArgumentsOkSnoc(["x"], "");
    assert ["x"] + [""] == ["x", ""];
  }

  /** Empty arguments are refused. */
  lemma ClassifyEmptyArgument()
    ensures Classify("f(x,,y)") == Err(ValueError("Invalid arguments in function"))
    ensures Classify("f()") == Err(ValueError("Invalid arguments in function"))
  {
    var s, args := "f(x,,y)", "x,,y";
    FunctionText(s, args);
    EmptyArgumentInvalid();
    ClassifyFunctionShape(s, args);
    var t := "f()";
    FunctionText(t, "");
    assert !ArgumentsValid("") by {
      AllArgumentsOkSnoc([], "");
      assert [] + [""] == [""];
    }
    ClassifyFunctionShape(t, "");
  }

  /** How `x)` is read: the `)` closes nothing. */
  lemma ScanExtraClose()
    ensures ScanText("x)") == None
  {
    ScanSnoc("", 'x');
    assert "" + ['x'] == "x";
    assert ScanText("x") == Some(Scan(0, "x", []));
    ScanSnoc("x", ')');
    assert "x" + [')'] == "x)";
  }

  /** How `(x` is read: a parenthesis stays open. */
  lemma ScanUnclosed()
    ensures ScanText("(x") == Some(Scan(1, "(x", []))
  {
    ScanSnoc("", '(');
    assert "" + ['('] == "(";
    assert ScanText("(") == Some(Scan(1, "(", []));
    ScanSnoc("(", 'x');
    assert "(" + ['x'] == "(x";
  }

  /** Unbalanced parentheses inside the list are refused. */
  lemma ClassifyUnbalanced()
    ensures Classify("f(x))") == Err(ValueError("Invalid arguments in function"))
    ensures Classify("f((x)") == Err(ValueError("Invalid arguments in function"))
  {
    var s := "f(x))";
    FunctionText(s, "x)");
    ScanExtraClose();
    ClassifyFunctionShape(s, "x)");
    var t := "f((x)";
    FunctionText(t, "(x");
    ScanUnclosed();
    ClassifyFunctionShape(t, "(x");
  }

  /** A symbol of no known shape. */
  lemma ClassifyBadName()
    ensures Classify("f(x") == Err(ValueError("Invalid term name"))
    ensures Classify("1x") == Err(ValueError("Invalid term name"))
  {
    assert "f(x"[2] != ')';
  }

  /** How `g(,),y` is read: the inner comma stays in the first argument. */
  lemma ScanNested()
    ensures ScanText("g(,),y") == Some(Scan(0, "y", ["g(,)"]))
  {
    ScanSnoc("", 'g');
    assert "" + ['g'] == "g";
    assert ScanText("g") == Some(Scan(0, "g", []));
    ScanSnoc("g", '(');
    assert "g" + ['('] == "g(";
    assert ScanText("g(") == Some(Scan(1, "g(", []));
    ScanSnoc("g(", ',');
    assert "g(" + [','] == "g(,";
    assert ScanText("g(,") == Some(Scan(1, "g(,", []));
    ScanSnoc("g(,", ')');
    assert "g(," + [')'] == "g(,)";
    assert ScanText("g(,)") == Some(Scan(0, "g(,)", []));
    ScanSnoc("g(,)", ',');
    assert "g(,)" + [','] == "g(,),";
    assert [] + ["g(,)"] == ["g(,)"];
    assert ScanText("g(,),") == Some(Scan(0, "", ["g(,)"]));
    ScanSnoc("g(,),", 'y');
    assert "g(,)," + ['y'] == "g(,),y";
    assert "" + ['y'] == "y";
  }

  lemma NestedArgumentsValid()
    ensures ArgumentsValid("g(,),y") && |ArgumentPieces("g(,),y").value| == 2
  {
    ScanNested();
    NestedPiecesOk(["g(,)"] + ["y"]);
  }

  lemma NestedPiecesOk(parts: seq<string>)
    requires parts == ["g(,)"] + ["y"]
    ensures AllArgumentsOk(StripAll(parts)) && |StripAll(parts)| == 2
  {
    NestedArgumentOk();
    assert ArgumentOk("y");
    assert Strip("g(,)") == "g(,)" by {
      StripTrimmed("g(,)");
    }
    assert Strip("y") == "y" by {
      StripTrimmed("y");
    }
    AllArgumentsOkSnoc([], "g(,)");
    AllArgumentsOkSnoc(["g(,)"], "y");
    assert [] + ["g(,)"] == ["g(,)"];
    assert StripAll([]) == [];
  }

  /** The nested argument has the function shape, so it passes without its own list being read. */
  lemma NestedArgumentOk()
    ensures ArgumentOk("g(,)")
  {
    IndexOfAt("g(,)", '(', 1);
    assert "g(,)"[2..3] == ",";
    assert FunctionParts("g(,)") == Some(",");
  }

  /** Commas inside a nested argument do not separate arguments, and that argument is not checked further. */
  lemma ClassifyNested()
    ensures Classify("f(g(,),y)") == Ok(2)
  {
    var s, args := "f(g(,),y)", "g(,),y";
    FunctionText(s, args);
    NestedArgumentsValid();
    ClassifyFunctionShape(s, args);
  }

  // ---- The Term object ----

  class Term {
    var symbol: string
    var arity: nat
    var expression: Option<Expr>

    /** `symbol` and `arity` agree with the grammar, as set_symbol leaves them. */
    ghost predicate Valid()
      reads this
    {
      Classify(symbol) == Ok(arity)
    }

    /** The object as `__init__` has it before set_symbol runs (every attribute still `None`). */
    constructor Blank()
      ensures symbol == "" && arity == 0 && expression == None
    {
      symbol := "";
      arity := 0;
      expression := None;
    }

    /** `__set_arity`. */
    method SetArity(n: int) returns (outcome: Outcome<Error>)
      modifies this`arity
      ensures n < 0 ==> outcome == Fail(ValueError("Arity must be non-negative")) && arity == old(arity)
      ensures n >= 0 ==> outcome == Pass && arity == n
    {
      if n < 0 {
        return Fail(ValueError("Arity must be non-negative"));
      }
      arity := n;
      outcome := Pass;
    }

    /** `set_symbol`: on success both fields are replaced, on failure neither. */
    method SetSymbol(s: string) returns (outcome: Outcome<Error>)
      modifies this`symbol, this`arity
      ensures outcome == OutcomeOf(Classify(s))
      ensures Classify(s).Ok? ==> symbol == s && arity == Classify(s).value && Valid()
      ensures Classify(s).Err? ==> symbol == old(symbol) && arity == old(arity)
    {
      if IsConstant(s) || IsVariable(s) {
        symbol := s;
        outcome := SetArity(0);
      } else {
        var m := MatchFunction(s);
        if m.Some? {
          var ok := ValidateArguments(m.value);
          if ok {
            symbol := s;
            var pieces := SplitArguments(m.value);
            assert pieces.Ok?;
            outcome := SetArity(|pieces.value|);
          } else {
            outcome := Fail(ValueError("Invalid arguments in function"));
          }
        } else {
          outcome := Fail(ValueError("Invalid term name"));
        }
      }
    }

    /** `set_expression`: refused on arity 0, otherwise the value is wrapped in a leaf `Expression`. */
    method SetExpression(expr: Operand) returns (outcome: Outcome<Error>)
      modifies this`expression
      ensures arity == 0 ==> outcome == Fail(ValueError("Constants or variables cannot have expressions"))
                             && expression == old(expression)
      ensures arity != 0 ==> outcome == Pass && expression == Some(Leaf(expr))
    {
      if arity == 0 {
        return Fail(ValueError("Constants or variables cannot have expressions"));
      }
      expression := Some(Leaf(expr));
      outcome := Pass;
    }

    /** `copy`: `copy.deepcopy` of a Term is a new object with equal fields (expressions are values). */
    method Copy() returns (t: Term)
      ensures fresh(t)
      ensures t.symbol == symbol && t.arity == arity && t.expression == expression
    {
      t := new Term.Blank();
      t.symbol, t.arity, t.expression := symbol, arity, expression;
    }

    /**
     * `self op other` for each of `+ - * / **`: a new node with this term on the left. A term is
     * not an `Expression`, so it is never parenthesised; `other` is, when it is an `Expression`
     * that binds no tighter than `op`.
     */
    function Compose(op: Op, other: Operand): (e: Expr)
      reads this
      ensures Render(e) == symbol + " " + OpText(op) + " " + Wrap(other, RightNeedsParens(other, op))
    {
      assert Wrap(TermOp(symbol), LeftNeedsParens(TermOp(symbol), op)) == symbol;
      Node(op, TermOp(symbol), other)
    }
  }

  /**
   * `Term(symbol, expr)`: set_symbol, then set_expression when `expr` is truthy; the first
   * `ValueError` ends the construction.
   */
  method NewTerm(s: string, expr: Option<Operand>) returns (r: Result<Term, Error>)
    ensures Classify(s).Err? ==> r == Err(Classify(s).error)
    ensures Classify(s).Ok? && expr.Some? && Truthy(expr.value) && Classify(s).value == 0 ==>
      r == Err(ValueError("Constants or variables cannot have expressions"))
    ensures r.Ok? ==> fresh(r.value) && r.value.Valid() && r.value.symbol == s
    ensures r.Ok? ==> r.value.expression == (if expr.Some? && Truthy(expr.value) then Some(Leaf(expr.value)) else None)
    ensures r.Ok? <==> Classify(s).Ok? && !(expr.Some? && Truthy(expr.value) && Classify(s).value == 0)
  {
    var t := new Term.Blank();
    var outcome := t.SetSymbol(s);
    if outcome.Fail? {
      return Err(outcome.error);
    }
    if expr.Some? && Truthy(expr.value) {
      outcome := t.SetExpression(expr.value);
      if outcome.Fail? {
        return Err(outcome.error);
      }
    }
    r := Ok(t);
  }
}
