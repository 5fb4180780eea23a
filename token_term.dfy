/**
 * algterm/gpts_examples/algterm_v2.py: a `Term` whose expression is a string, a tokenizer for
 * that string (`re.findall` over identifiers, single operator characters and decimal numbers) and
 * the list of nullary terms, the identifiers among the tokens.
 */
module TokenTerm {
  import opened Wrappers
  import opened Text

  // ---- Character classes of the token pattern ----

  predicate IsIdentStart(c: char)
  {
    IsLatin(c) || c == '_'
  }

  predicate IsIdentChar(c: char)
  {
    IsIdentStart(c) || IsDigit(c)
  }

  /** One of the seven operator characters: plus, minus, times, slash, caret and the parentheses. */
  predicate IsOperatorChar(c: char)
  {
    c == '+' || c == '-' || c == '*' || c == '/' || c == '^' || c == '(' || c == ')'
  }

  /** The number of identifier characters `s` starts with. */
  function IdentRun(s: string): (r: nat)
    ensures r <= |s|
    ensures forall i :: 0 <= i < r ==> IsIdentChar(s[i])
    ensures r < |s| ==> !IsIdentChar(s[r])
  {
    if s == [] || !IsIdentChar(s[0]) then 0 else 1 + IdentRun(s[1..])
  }

  /** The number of decimal digits `s` starts with. */
  function DigitRun(s: string): (r: nat)
    ensures r <= |s|
    ensures forall i :: 0 <= i < r ==> IsDigit(s[i])
    ensures r < |s| ==> !IsDigit(s[r])
  {
    if s == [] || !IsDigit(s[0]) then 0 else 1 + DigitRun(s[1..])
  }

  // ---- The three kinds of token ----

  /** `[a-zA-Z_][a-zA-Z_0-9]*` matches all of `t`. */
  predicate IsIdentifier(t: string)
  {
    |t| >= 1 && IsIdentStart(t[0]) && forall i :: 1 <= i < |t| ==> IsIdentChar(t[i])
  }

  /** `\d+(?:\.\d+)?` matches all of `t`: digits, then possibly a point and more digits. */
  predicate IsNumber(t: string)
  {
    var d := DigitRun(t);
    d >= 1 && (d == |t| || (t[d] == '.' && d + 1 < |t| && DigitRun(t[d + 1..]) == |t| - d - 1))
  }

  predicate IsToken(t: string)
  {
    IsIdentifier(t) || (|t| == 1 && IsOperatorChar(t[0])) || IsNumber(t)
  }

  /** The characters a token can start with. */
  predicate StartsToken(c: char)
  {
    IsIdentStart(c) || IsOperatorChar(c) || IsDigit(c)
  }

  // ---- The tokenizer ----

  function IdentLength(s: string): (n: nat)
    ensures n <= |s|
  {
    if s != [] && IsIdentStart(s[0]) then 1 + IdentRun(s[1..]) else 0
  }

  /** The greedy number match: the fraction is taken only when a digit follows the point. */
  function NumberLength(s: string): (n: nat)
    ensures n <= |s|
  {
    var d := DigitRun(s);
    if d == 0 then 0
    else if d < |s| && s[d] == '.' && DigitRun(s[d + 1..]) > 0 then d + 1 + DigitRun(s[d + 1..])
    else d
  }

  /** The length of the token pattern's match at the start of `s`, 0 when it does not match there. */
  function MatchLength(s: string): (n: nat)
    ensures n <= |s|
    ensures n > 0 ==> IsToken(s[..n])
  {
    if s == [] then 0
    else if IsIdentStart(s[0]) then
      IdentityPrefix(s);
      IdentLength(s)
    else if IsOperatorChar(s[0]) then 1
    else
      var n := NumberLength(s);
      assert n > 0 ==> IsToken(s[..n]) by {
        if n > 0 {
          NumberPrefix(s);
        }
      }
      n
  }

  /** The pattern matches wherever some token starts, and what it takes is the longest token there. */
  lemma MatchLongest(s: string)
    ensures (exists k :: 0 < k <= |s| && IsToken(s[..k])) ==> MatchLength(s) > 0
    ensures forall k :: MatchLength(s) < k <= |s| ==> !IsToken(s[..k])
  {
    if s != [] {
      if IsIdentStart(s[0]) {
        IdentLongest(s);
      } else if IsOperatorChar(s[0]) {
        OtherStartLongest(s, 1);
      } else {
        NumberLongest(s);
        OtherStartLongest(s, NumberLength(s));
      }
    }
  }

  /** No token is longer than the identifier an identifier character starts. */
  lemma IdentLongest(s: string)
    requires s != [] && IsIdentStart(s[0])
    ensures forall k :: IdentLength(s) < k <= |s| ==> !IsToken(s[..k])
  {
    var n := IdentLength(s);
    forall k | n < k <= |s| ensures !IsToken(s[..k]) {
      var t := s[..k];
      assert !IsIdentChar(s[1..][n - 1]);
      assert !IsIdentChar(t[n]);
      assert !IsDigit(t[0]);
    }
  }

  /** No number is longer than the greedy number match. */
  lemma NumberLongest(s: string)
    requires s != [] && !IsIdentStart(s[0]) && !IsOperatorChar(s[0])
    ensures forall k :: NumberLength(s) < k <= |s| ==> !IsNumber(s[..k])
  {
    var d, n := DigitRun(s), NumberLength(s);
    forall k | n < k <= |s| ensures !IsNumber(s[..k]) {
      var t := s[..k];
      if d > 0 {
        DigitRunPrefix(s, k);
        if t[d] == '.' && d + 1 < k {
          var v := s[d + 1..];
          assert t[d + 1..] == v[..k - d - 1];
          DigitRunPrefix(v, k - d - 1);
        }
      }
    }
  }

  /**
   * Past a non-identifier start, only a number can be longer than one character, and a single
   * character is a token only when it is an operator.
   */
  lemma OtherStartLongest(s: string, n: nat)
    requires s != [] && !IsIdentStart(s[0]) && (1 <= n || !IsOperatorChar(s[0]))
    requires forall k :: n < k <= |s| ==> !IsNumber(s[..k])
    ensures forall k :: n < k <= |s| ==> !IsToken(s[..k])
  {
  }

  lemma IdentityPrefix(s: string)
    requires s != [] && IsIdentStart(s[0])
    ensures IsIdentifier(s[..IdentLength(s)])
  {
    var t := s[..IdentLength(s)];
    forall i | 1 <= i < |t| ensures IsIdentChar(t[i]) {
      assert t[i] == s[1..][i - 1];
    }
  }

  lemma NumberPrefix(s: string)
    requires NumberLength(s) > 0
    ensures IsNumber(s[..NumberLength(s)])
  {
    var d := DigitRun(s);
    var n := NumberLength(s);
    var t := s[..n];
    DigitRunPrefix(s, n);
    if n > d {
      var f := DigitRun(s[d + 1..]);
      assert t[d + 1..] == s[d + 1..][..f];
      DigitRunPrefix(s[d + 1..], f);
    }
  }

  /** Cutting `s` anywhere after its leading digits keeps them. */
  lemma {:induction false} DigitRunPrefix(s: string, m: nat)
    requires DigitRun(s) <= m <= |s|
    ensures DigitRun(s[..m]) == DigitRun(s)
  {
    if s != [] && IsDigit(s[0]) {
      assert s[..m][1..] == s[1..][..m - 1];
      DigitRunPrefix(s[1..], m - 1);
    }
  }

  /** `re.findall(token_pattern, s)`: matches are taken left to right; an unmatched character is skipped. */
  function Tokenize(s: string): (r: seq<string>)
    ensures forall i :: 0 <= i < |r| ==> IsToken(r[i])
    decreases |s|
  {
    if s == [] then []
    else
      var n := MatchLength(s);
      if n == 0 then Tokenize(s[1..]) else [s[..n]] + Tokenize(s[n..])
  }

  /** `re.findall` finds nothing exactly when no character of the text can start a token. */
  lemma {:induction false} TokenizeEmpty(s: string)
    ensures Tokenize(s) == [] <==> forall i :: 0 <= i < |s| ==> !StartsToken(s[i])
    decreases |s|
  {
    if s != [] {
      var n := MatchLength(s);
      if n == 0 {
        assert Tokenize(s) == Tokenize(s[1..]);
        TokenizeEmpty(s[1..]);
        assert forall i :: 1 <= i < |s| ==> s[i] == s[1..][i - 1];
      } else {
        assert Tokenize(s) == [s[..n]] + Tokenize(s[n..]);
      }
    }
  }

  // ---- Spaces separate tokens ----

  /** A run stops at a character that cannot continue it, whatever follows. */
  lemma {:induction false} IdentRunStops(s: string, rest: string)
    requires rest != [] && !IsIdentChar(rest[0])
    ensures IdentRun(s + rest) == IdentRun(s)
  {
    if s != [] {
      assert (s + rest)[1..] == s[1..] + rest;
      IdentRunStops(s[1..], rest);
    } else {
      assert s + rest == rest;
    }
  }

  lemma {:induction false} DigitRunStops(s: string, rest: string)
    requires rest != [] && !IsDigit(rest[0])
    ensures DigitRun(s + rest) == DigitRun(s)
  {
    if s != [] {
      assert (s + rest)[1..] == s[1..] + rest;
      DigitRunStops(s[1..], rest);
    } else {
      assert s + rest == rest;
    }
  }

  /** No match runs on into a space. */
  lemma MatchStops(s: string, rest: string)
    requires s != [] && rest != [] && rest[0] == ' '
    ensures MatchLength(s + rest) == MatchLength(s)
  {
    var t := s + rest;
    assert t[0] == s[0];
    if IsIdentStart(s[0]) {
      assert t[1..] == s[1..] + rest;
      IdentRunStops(s[1..], rest);
      assert MatchLength(t) == 1 + IdentRun(t[1..]);
    } else if !IsOperatorChar(s[0]) {
      NumberStops(s, rest);
      assert MatchLength(t) == NumberLength(t);
    }
  }

  lemma NumberStops(s: string, rest: string)
    requires rest != [] && rest[0] == ' '
    ensures NumberLength(s + rest) == NumberLength(s)
  {
    DigitRunStops(s, rest);
    var d := DigitRun(s);
    if d < |s| {
      assert (s + rest)[d + 1..] == s[d + 1..] + rest;
      DigitRunStops(s[d + 1..], rest);
    }
  }

  /** Text that starts with a space tokenizes as the text after it. */
  lemma TokenizeSpace(s: string)
    requires s != [] && s[0] == ' '
    ensures Tokenize(s) == Tokenize(s[1..])
  {
  }

  /** Tokenizing text followed by a space and more text gives the tokens of each part, in order. */
  lemma {:induction false} TokenizeAppend(s: string, rest: string)
    requires rest != [] && rest[0] == ' '
    ensures Tokenize(s + rest) == Tokenize(s) + Tokenize(rest)
    decreases |s|
  {
    if s == [] {
      assert s + rest == rest;
    } else {
      MatchStops(s, rest);
      var n, t := MatchLength(s), s + rest;
      if n == 0 {
        assert t[1..] == s[1..] + rest;
        assert Tokenize(t) == Tokenize(t[1..]);
        TokenizeAppend(s[1..], rest);
      } else {
        assert t[..n] == s[..n];
        assert t[n..] == s[n..] + rest;
        assert Tokenize(t) == [t[..n]] + Tokenize(t[n..]);
        TokenizeAppend(s[n..], rest);
      }
    }
  }

  /** A token on its own is one token. */
  lemma TokenizeToken(t: string)
    requires IsToken(t)
    ensures Tokenize(t) == [t]
  {
    if IsIdentifier(t) {
      IdentRunAll(t[1..]);
    } else if !(|t| == 1 && IsOperatorChar(t[0])) {
      assert !IsIdentStart(t[0]) && !IsOperatorChar(t[0]);
    }
    assert MatchLength(t) == |t|;
    assert t[..|t|] == t && t[|t|..] == [];
  }

  lemma {:induction false} IdentRunAll(s: string)
    requires forall i :: 0 <= i < |s| ==> IsIdentChar(s[i])
    ensures IdentRun(s) == |s|
  {
    if s != [] {
      IdentRunAll(s[1..]);
    }
  }

  /** Tokens written out with single spaces between them tokenize back to the same tokens. */
  lemma {:induction false} Retokenize(ts: seq<string>)
    requires forall i :: 0 <= i < |ts| ==> IsToken(ts[i])
    ensures Tokenize(Join(ts, ' ')) == ts
  {
    if |ts| == 1 {
      TokenizeToken(ts[0]);
    } else if |ts| > 1 {
      var rest := [' '] + Join(ts[1..], ' ');
      assert Join(ts, ' ') == ts[0] + rest;
      TokenizeAppend(ts[0], rest);
      TokenizeToken(ts[0]);
      TokenizeSpace(rest);
      assert rest[1..] == Join(ts[1..], ' ');
      Retokenize(ts[1..]);
    }
  }

  // ---- Nullary terms ----

  /** `is_nullary`: `re.match` of the identifier pattern anchored by `^` and `$`. */
  predicate IsNullary(t: string)
  {
    IsIdentifier(Chomp(t))
  }

  /** Among tokens, the nullary ones are exactly the identifiers: numbers and operators never are. */
  lemma NullaryToken(t: string)
    requires IsToken(t)
    ensures IsNullary(t) <==> IsIdentifier(t)
    ensures IsNumber(t) ==> !IsNullary(t)
    ensures |t| == 1 && IsOperatorChar(t[0]) ==> !IsNullary(t)
  {
    assert t[|t| - 1] != '\n' by {
      if IsNumber(t) {
        var d := DigitRun(t);
        if d < |t| {
          assert t[|t| - 1] == t[d + 1..][|t| - d - 2];
        }
      }
    }
  }

  /** `[token for token in tokens if is_nullary(token)]`. */
  function NullaryTerms(tokens: seq<string>): (r: seq<string>)
    ensures forall t :: t in r ==> t in tokens && IsNullary(t)
    ensures forall t :: t in tokens && IsNullary(t) ==> t in r
  {
    if tokens == [] then []
    else (if IsNullary(tokens[0]) then [tokens[0]] else []) + NullaryTerms(tokens[1..])
  }

  /** The filter keeps order and duplicates: it distributes over concatenation. */
  lemma {:induction false} NullaryConcat(a: seq<string>, b: seq<string>)
    ensures NullaryTerms(a + b) == NullaryTerms(a) + NullaryTerms(b)
  {
    if a != [] {
      assert (a + b)[1..] == a[1..] + b;
      NullaryConcat(a[1..], b);
    } else {
      assert a + b == b;
    }
  }

  /** The nullary terms parse_expression extracts from an expression string. */
  function NullaryOf(expr: string): seq<string>
  {
    NullaryTerms(Tokenize(expr))
  }

  /** The nullary terms of two texts joined by a space are those of the first, then those of the second. */
  lemma NullaryOfAppend(s: string, rest: string)
    requires rest != [] && rest[0] == ' '
    ensures NullaryOf(s + rest) == NullaryOf(s) + NullaryOf(rest)
  {
    TokenizeAppend(s, rest);
    NullaryConcat(Tokenize(s), Tokenize(rest));
  }

  /** Tokens separated by spaces come out in order, with the spaces dropped. */
  lemma SpacedExample()
    ensures Tokenize("x + y - y") == ["x", "+", "y", "-", "y"]
  {
    var ts := ["x", "+", "y", "-", "y"];
    SpacedTokens(ts);
    Retokenize(ts);
    SpacedJoin(ts);
  }

  lemma SpacedTokens(ts: seq<string>)
    requires ts == ["x", "+", "y", "-", "y"]
    ensures forall i :: 0 <= i < |ts| ==> IsToken(ts[i])
  {
    assert IsIdentifier("x") && IsIdentifier("y");
    assert IsToken(ts[0]) && IsToken(ts[1]) && IsToken(ts[2]) && IsToken(ts[3]) && IsToken(ts[4]);
  }

  lemma SpacedJoin(ts: seq<string>)
    requires ts == ["x", "+", "y", "-", "y"]
    ensures Join(ts, ' ') == "x + y - y"
  {
    assert Join(ts[4..], ' ') == "y";
    assert Join(ts[3..], ' ') == "- y";
    assert Join(ts[2..], ' ') == "y - y";
    assert Join(ts[1..], ' ') == "+ y - y";
  }

  /** Without spaces, a number, an operator and an identifier still come out as three tokens. */
  lemma ProductTokens()
    ensures Tokenize("2*y") == ["2", "*", "y"]
  {
    assert IsIdentifier("y");
    TokenizeToken("y");
    assert MatchLength("*y") == 1 && "*y"[..1] == "*" && "*y"[1..] == "y";
    assert Tokenize("*y") == ["*"] + Tokenize("y");
    assert DigitRun("2*y") == 1;
    assert MatchLength("2*y") == 1 && "2*y"[..1] == "2" && "2*y"[1..] == "*y";
    assert Tokenize("2*y") == ["2"] + Tokenize("*y");
  }

  /** The nullary terms are the identifiers, with the repeated `y` kept. */
  lemma NullaryExample()
    ensures NullaryOf("x + y - y") == ["x", "y", "y"]
  {
    SpacedExample();
    NullaryList(Tokenize("x + y - y"));
  }

  lemma NullaryList(ts: seq<string>)
    requires ts == ["x", "+", "y", "-", "y"]
    ensures NullaryTerms(ts) == ["x", "y", "y"]
  {
    var p, q := ["x", "+", "y"], ["-", "y"];
    NullaryConcat(p, q);
    assert p + q == ts;
    NullaryFirst(p);
    NullaryRest(q);
  }

  lemma NullaryFirst(a: seq<string>)
    requires a == ["x", "+", "y"]
    ensures NullaryTerms(a) == ["x", "y"]
  {
    assert IsNullary("x") && !IsNullary("+") && IsNullary("y");
    assert a[1..] == ["+", "y"] && a[1..][1..] == ["y"] && a[1..][1..][1..] == [];
    assert NullaryTerms(["y"]) == ["y"];
    assert NullaryTerms(["+", "y"]) == ["y"];
  }

  lemma NullaryRest(b: seq<string>)
    requires b == ["-", "y"]
    ensures NullaryTerms(b) == ["y"]
  {
    assert !IsNullary("-") && IsNullary("y");
    assert b[1..] == ["y"] && b[1..][1..] == [];
    assert NullaryTerms(["y"]) == ["y"];
  }

  /** A decimal fraction is one token. */
  lemma FractionExample()
    ensures Tokenize("1.5") == ["1.5"]
  {
    assert DigitRun("1.5") == 1;
    assert "1.5"[2..] == "5";
    assert DigitRun("5") == 1;
    TokenizeToken("1.5");
  }

  /** A point not followed by a digit ends the number and is skipped. */
  lemma PointExample()
    ensures Tokenize("1.x") == ["1", "x"]
  {
    var s := "1.x";
    assert DigitRun(s) == 1 && s[2..] == "x" && DigitRun("x") == 0;
    assert MatchLength(s) == 1 && s[..1] == "1" && s[1..] == ".x";
    assert MatchLength(".x") == 0 && ".x"[1..] == "x";
    TokenizeToken("x");
  }

  /** `$` also lets a final newline through `is_nullary`. */
  lemma NullaryNewline()
    ensures IsNullary("x\n") && !IsNullary("2")
  {
    assert Chomp("x\n") == "x";
  }

  // ---- The term ----

  class Term<V> {
    var arity: nat
    var symbol: string
    var expression: Option<string>
    var value: Option<V>
    var nullaryTerms: seq<string>

    /** `if self.expression`: an expression is attached and is not the empty string. */
    predicate HasExpression()
      reads this
    {
      expression.Some? && expression.value != ""
    }

    /** Whenever an expression is attached, the nullary terms are its identifiers, in order. */
    predicate Valid()
      reads this
    {
      HasExpression() ==> nullaryTerms == NullaryOf(expression.value)
    }

    /** The object before `__init__` assigns its attributes. */
    constructor Blank()
      ensures arity == 0 && symbol == [] && expression == None && value == None && nullaryTerms == []
    {
      arity := 0;
      symbol := [];
      expression := None;
      value := None;
      nullaryTerms := [];
    }

    /** `set_arity`: a negative arity is refused. */
    method SetArity(n: int) returns (outcome: Outcome<Error>)
      modifies this`arity
      ensures n < 0 ==> outcome == Fail(ValueError("Arity must be non-negative.")) && arity == old(arity)
      ensures n >= 0 ==> outcome == Pass && arity == n
    {
      if n < 0 {
        return Fail(ValueError("Arity must be non-negative."));
      }
      arity := n;
      outcome := Pass;
    }

    /** `parse_expression`: refused without an expression; otherwise the nullary terms are recomputed. */
    method ParseExpression() returns (outcome: Outcome<Error>)
      modifies this`nullaryTerms
      ensures outcome.Pass? <==> HasExpression()
      ensures outcome.Fail? ==> outcome == Fail(ValueError("Expression is empty.")) && nullaryTerms == old(nullaryTerms)
      ensures outcome.Pass? ==> nullaryTerms == NullaryOf(expression.value)
      ensures Valid()
    {
      if !HasExpression() {
        return Fail(ValueError("Expression is empty."));
      }
      var tokens := Tokenize(expression.value);
      nullaryTerms := NullaryTerms(tokens);
      outcome := Pass;
    }

    /**
     * `set_expression`: refused on arity 0; otherwise the expression is stored and then parsed, so
     * an empty one is stored before the parse refuses it.
     */
    method SetExpression(e: Option<string>) returns (outcome: Outcome<Error>)
      modifies this`expression, this`nullaryTerms
      ensures arity == 0 ==> outcome == Fail(ValueError("Constants or variables cannot have expressions."))
                             && expression == old(expression) && nullaryTerms == old(nullaryTerms)
      ensures arity != 0 ==> expression == e && (outcome.Pass? <==> HasExpression())
      ensures arity != 0 && outcome.Fail? ==> outcome == Fail(ValueError("Expression is empty.")) && nullaryTerms == old(nullaryTerms)
      ensures outcome.Pass? ==> nullaryTerms == NullaryOf(e.value)
      ensures old(Valid()) ==> Valid()
    {
      if arity == 0 {
        return Fail(ValueError("Constants or variables cannot have expressions."));
      }
      expression := e;
      outcome := ParseExpression();
    }

    /** `__repr__`: the symbol, followed by the arity and the expression when there is one. */
    function Repr(): (r: string)
      reads this
      ensures |r| >= |symbol| && r[..|symbol|] == symbol
      ensures HasExpression() <==> |r| > |symbol|
      ensures HasExpression() ==> r[|symbol|..] == "^(" + NatToString(arity) + ") = " + expression.value
    {
      if HasExpression() then symbol + ("^(" + NatToString(arity) + ") = " + expression.value) else symbol
    }
  }

  /**
   * `Term(arity, symbol, expression, value)`: only the arity is checked; the symbol is stored as
   * given, the value only on arity 0, and a non-empty expression is parsed without the arity-0 guard.
   */
  method NewTerm<V>(arity: int, symbol: string, expression: Option<string>, value: Option<V>) returns (r: Result<Term<V>, Error>)
    ensures r.Ok? <==> arity >= 0
    ensures r.Err? ==> r.error == ValueError("Arity must be non-negative.")
    ensures r.Ok? ==> fresh(r.value) && r.value.Valid() && r.value.arity == arity && r.value.symbol == symbol
                      && r.value.expression == expression && r.value.value == (if arity == 0 then value else None)
    ensures r.Ok? ==> r.value.nullaryTerms == if r.value.HasExpression() then NullaryOf(expression.value) else []
  {
    var t := new Term<V>.Blank();
    var outcome := t.SetArity(arity);
    if outcome.Fail? {
      return Err(outcome.error);
    }
    t.symbol := symbol;
    t.expression := expression;
    t.value := if arity == 0 then value else None;
    t.nullaryTerms := [];
    if t.HasExpression() {
      outcome := t.ParseExpression();
    }
    r := Ok(t);
  }
}
