/**
 * Character classes and the few Python string operations the library relies on:
 * `str.strip()`, `str.split(c)`, `str(int)` and the end anchor `$` of `re.match`.
 */
module Text {

  /** `[a-z]` in a Python pattern. */
  predicate IsLowerLatin(c: char) { 'a' <= c <= 'z' }

  /** `[A-Z]` in a Python pattern. */
  predicate IsUpperLatin(c: char) { 'A' <= c <= 'Z' }

  /** `[a-zA-Z]`. */
  predicate IsLatin(c: char) { IsLowerLatin(c) || IsUpperLatin(c) }

  /** `[0-9]`. */
  predicate IsDigit(c: char) { '0' <= c <= '9' }

  /** `[a-zA-Z0-9]`. */
  predicate IsAlnum(c: char) { IsLatin(c) || IsDigit(c) }

  /** `[α-ω]`: the lower-case Greek letters alpha to omega. */
  predicate IsGreekLower(c: char) { '\U{03B1}' <= c <= '\U{03C9}' }

  /**
   * Python's whitespace (`str.isspace`, `str.strip` and `\s` in a `str` pattern):
   * the ASCII controls 9-13 and 28-31, the space, U+0085, U+00A0, U+1680,
   * U+2000-U+200A, U+2028, U+2029, U+202F, U+205F and U+3000.
   */
  predicate IsSpace(c: char)
  {
    || '\t' <= c <= '\r'
    || '\U{001C}' <= c <= ' '
    || c == '\U{0085}' || c == '\U{00A0}' || c == '\U{1680}'
    || '\U{2000}' <= c <= '\U{200A}'
    || c == '\U{2028}' || c == '\U{2029}' || c == '\U{202F}' || c == '\U{205F}' || c == '\U{3000}'
  }

  predicate AllChars(s: string, p: char -> bool)
  {
    forall i :: 0 <= i < |s| ==> p(s[i])
  }

  /** Leading whitespace removed. */
  function LStrip(s: string): (r: string)
    ensures |r| <= |s| && r == s[|s| - |r|..]
    ensures forall k :: 0 <= k < |s| - |r| ==> IsSpace(s[k])
    ensures r == [] || !IsSpace(r[0])
  {
    if s != [] && IsSpace(s[0]) then LStrip(s[1..]) else s
  }

  /** Trailing whitespace removed. */
  function RStrip(s: string): (r: string)
    ensures |r| <= |s| && r == s[..|r|]
    ensures forall k :: |r| <= k < |s| ==> IsSpace(s[k])
    ensures r == [] || !IsSpace(r[|r| - 1])
  {
    if s != [] && IsSpace(s[|s| - 1]) then RStrip(s[..|s| - 1]) else s
  }

  /** Python `s.strip()`. */
  function Strip(s: string): (r: string)
    ensures r == [] || (!IsSpace(r[0]) && !IsSpace(r[|r| - 1]))
  {
    RStrip(LStrip(s))
  }

  /** A string without whitespace at either end is its own `strip()`. */
  lemma StripTrimmed(s: string)
    requires s == [] || (!IsSpace(s[0]) && !IsSpace(s[|s| - 1]))
    ensures Strip(s) == s
  {
  }

  /** Whitespace added at either end is removed again by `strip()`. */
  lemma {:induction false} StripPadding(pre: string, s: string, post: string)
    requires AllChars(pre, IsSpace) && AllChars(post, IsSpace)
    requires s == [] || (!IsSpace(s[0]) && !IsSpace(s[|s| - 1]))
    ensures Strip(pre + s + post) == s
  {
    if s == [] {
      assert pre + s + post == pre + post;
      forall i | 0 <= i < |pre + post| ensures IsSpace((pre + post)[i]) {
        if i >= |pre| { assert (pre + post)[i] == post[i - |pre|]; }
      }
      LStripAllSpace(pre + post);
    } else {
      LStripPadding(pre, s + post);
      assert pre + s + post == pre + (s + post);
      RStripPadding(s, post);
    }
  }

  lemma {:induction false} LStripAllSpace(s: string)
    requires AllChars(s, IsSpace)
    ensures LStrip(s) == []
  {
    if s != [] {
      LStripAllSpace(s[1..]);
    }
  }

  lemma {:induction false} LStripPadding(pre: string, s: string)
    requires AllChars(pre, IsSpace)
    requires s == [] || !IsSpace(s[0])
    ensures LStrip(pre + s) == s
  {
    if pre != [] {
      assert (pre + s)[1..] == pre[1..] + s;
      LStripPadding(pre[1..], s);
    } else {
      assert pre + s == s;
    }
  }

  lemma {:induction false} RStripPadding(s: string, post: string)
    requires AllChars(post, IsSpace)
    requires s != [] && !IsSpace(s[|s| - 1])
    ensures RStrip(s + post) == s
  {
    if post != [] {
      assert (s + post)[..|s + post| - 1] == s + post[..|post| - 1];
      RStripPadding(s, post[..|post| - 1]);
    } else {
      assert s + post == s;
    }
  }

  lemma {:induction false} RStripAllSpace(s: string)
    requires AllChars(s, IsSpace)
    ensures RStrip(s) == []
  {
    if s != [] {
      RStripAllSpace(s[..|s| - 1]);
    }
  }

  /** Every string of `parts` satisfies `p`. */
  predicate Every(parts: seq<string>, p: string -> bool)
  {
    forall i :: 0 <= i < |parts| ==> p(parts[i])
  }

  lemma EverySnoc(parts: seq<string>, x: string, p: string -> bool)
    ensures Every(parts + [x], p) <==> Every(parts, p) && p(x)
  {
    var q := parts + [x];
    assert forall i :: 0 <= i < |parts| ==> q[i] == parts[i];
    assert q[|parts|] == x;
  }

  /** `f` takes each of `parts` to the string at the same place in `out`. */
  predicate Maps(parts: seq<string>, f: string -> string, out: seq<string>)
  {
    |parts| == |out| && forall i :: 0 <= i < |parts| ==> f(parts[i]) == out[i]
  }

  /** `Maps` for a sequence whose first element is replaced and that gains one in front. */
  lemma MapsCons(f: string -> string, x: string, y: string, rest: seq<string>, out: seq<string>, z: string)
    requires rest != [] && f(y + rest[0]) == f(rest[0]) && f(x) == z
    requires Maps(rest, f, out)
    ensures Maps([x] + ([y + rest[0]] + rest[1..]), f, [z] + out)
  {
    var parts := [x] + ([y + rest[0]] + rest[1..]);
    forall i | 0 <= i < |parts| ensures f(parts[i]) == ([z] + out)[i] {
      if i >= 2 {
        assert parts[i] == rest[i - 1];
      }
    }
  }

  /** Number of occurrences of `c` in `s`. */
  function Count(s: string, c: char): nat
  {
    if s == [] then 0 else (if s[0] == c then 1 else 0) + Count(s[1..], c)
  }

  lemma {:induction false} CountConcat(a: string, b: string, c: char)
    ensures Count(a + b, c) == Count(a, c) + Count(b, c)
  {
    if a != [] {
      assert (a + b)[1..] == a[1..] + b;
      CountConcat(a[1..], b, c);
    } else {
      assert a + b == b;
    }
  }

  lemma {:induction false} CountAbsent(s: string, c: char)
    requires forall i :: 0 <= i < |s| ==> s[i] != c
    ensures Count(s, c) == 0
  {
    if s != [] {
      CountAbsent(s[1..], c);
    }
  }

  /** Python `s.split(c)` for a one-character separator. */
  function Split(s: string, c: char): (r: seq<string>)
    ensures |r| >= 1
  {
    if s == [] then [""]
    else
      var rest := Split(s[1..], c);
      if s[0] == c then [""] + rest else [[s[0]] + rest[0]] + rest[1..]
  }

  /** Python `c.join(parts)` for a one-character separator. */
  function Join(parts: seq<string>, c: char): string
  {
    if parts == [] then ""
    else if |parts| == 1 then parts[0]
    else parts[0] + [c] + Join(parts[1..], c)
  }

  /** `s.split(c)` has one piece more than `s` has separators. */
  lemma {:induction false} SplitLength(s: string, c: char)
    ensures |Split(s, c)| == Count(s, c) + 1
  {
    if s != [] {
      SplitLength(s[1..], c);
    }
  }

  /** Joining the pieces of `s.split(c)` with `c` gives back `s`, and no piece contains `c`. */
  lemma {:induction false} SplitJoin(s: string, c: char)
    ensures Join(Split(s, c), c) == s
    ensures forall p :: p in Split(s, c) ==> c !in p
  {
    if s != [] {
      var rest := Split(s[1..], c);
      SplitJoin(s[1..], c);
      if s[0] == c {
        assert Split(s, c) == [""] + rest;
        assert ([""] + rest)[1..] == rest;
        assert Join(Split(s, c), c) == "" + [c] + Join(rest, c);
      } else {
        var r := [[s[0]] + rest[0]] + rest[1..];
        assert Split(s, c) == r;
        assert r[1..] == rest[1..];
        if |rest| == 1 {
          assert Join(r, c) == [s[0]] + rest[0];
          assert Join(rest, c) == rest[0];
        } else {
          assert Join(r, c) == [s[0]] + rest[0] + [c] + Join(rest[1..], c);
          assert Join(rest, c) == rest[0] + [c] + Join(rest[1..], c);
        }
        assert s == [s[0]] + s[1..];
      }
    }
  }

  /** Joining one more piece appends the separator and the piece. */
  lemma {:induction false} JoinSnoc(parts: seq<string>, x: string, c: char)
    requires parts != []
    ensures Join(parts + [x], c) == Join(parts, c) + [c] + x
  {
    if |parts| > 1 {
      assert (parts + [x])[1..] == parts[1..] + [x];
      JoinSnoc(parts[1..], x, c);
    }
  }

  /** A prefix without the separator joins the first piece of the split. */
  lemma {:induction false} SplitPrefix(x: string, y: string, c: char)
    requires forall i :: 0 <= i < |x| ==> x[i] != c
    ensures Split(x + y, c) == [x + Split(y, c)[0]] + Split(y, c)[1..]
  {
    if x != [] {
      assert (x + y)[1..] == x[1..] + y;
      SplitPrefix(x[1..], y, c);
      assert [x[0]] + (x[1..] + Split(y, c)[0]) == x + Split(y, c)[0];
    } else {
      var r := Split(y, c);
      assert x + y == y && x + r[0] == r[0];
      assert [r[0]] + r[1..] == r;
    }
  }

  /** Text without the separator is one piece. */
  lemma SplitNone(x: string, c: char)
    requires forall i :: 0 <= i < |x| ==> x[i] != c
    ensures Split(x, c) == [x]
  {
    SplitPrefix(x, "", c);
    assert x + "" == x;
  }

  /** A piece without the separator, the separator, then the rest. */
  lemma SplitAfter(x: string, y: string, c: char)
    requires forall i :: 0 <= i < |x| ==> x[i] != c
    ensures Split(x + [c] + y, c) == [x] + Split(y, c)
  {
    SplitPrefix(x, [c] + y, c);
    assert x + [c] + y == x + ([c] + y);
    assert ([c] + y)[1..] == y;
    assert x + "" == x;
  }

  /** Leading whitespace does not change `strip()`. */
  lemma {:induction false} StripLeadingSpace(pre: string, x: string)
    requires AllChars(pre, IsSpace)
    ensures Strip(pre + x) == Strip(x)
  {
    if pre != [] {
      assert (pre + x)[1..] == pre[1..] + x;
      StripLeadingSpace(pre[1..], x);
    } else {
      assert pre + x == x;
    }
  }

  /** `s.index(c)` when `c` occurs, `|s|` when it does not. */
  function IndexOf(s: string, c: char): (k: nat)
    ensures k <= |s|
    ensures forall i :: 0 <= i < k ==> s[i] != c
    ensures k < |s| ==> s[k] == c
  {
    if s == [] || s[0] == c then 0 else 1 + IndexOf(s[1..], c)
  }

  /** `IndexOf` is the first position holding `c`. */
  lemma {:induction false} IndexOfAt(s: string, c: char, k: nat)
    requires k < |s| && s[k] == c && forall i :: 0 <= i < k ==> s[i] != c
    ensures IndexOf(s, c) == k
  {
    if k > 0 {
      IndexOfAt(s[1..], c, k - 1);
    }
  }

  /** The first `c` of `x + y` is the one `y` starts with when `x` holds none. */
  lemma {:induction false} IndexOfAfter(x: string, y: string, c: char)
    requires c !in x && y != [] && y[0] == c
    ensures IndexOf(x + y, c) == |x|
  {
    if x != [] {
      assert (x + y)[1..] == x[1..] + y;
      IndexOfAfter(x[1..], y, c);
    } else {
      assert x + y == y;
    }
  }

  /** The digit character for `d`. */
  function DigitChar(d: nat): (c: char)
    requires d < 10
    ensures IsDigit(c)
  {
    ('0' as int + d) as char
  }

  function DigitValue(c: char): nat
    requires IsDigit(c)
  {
    c as int - '0' as int
  }

  /** Python `str(n)` for a natural number: its decimal digits without leading zeros. */
  function NatToString(n: nat): (r: string)
    ensures |r| >= 1 && AllChars(r, IsDigit)
    ensures |r| > 1 ==> r[0] != '0'
  {
    if n < 10 then [DigitChar(n)] else NatToString(n / 10) + [DigitChar(n % 10)]
  }

  /** Python `str(i)` for an integer. */
  function IntToString(i: int): (r: string)
    ensures |r| >= 1
    ensures r[0] == '-' <==> i < 0
  {
    if i < 0 then "-" + NatToString(-i) else NatToString(i)
  }

  /** The number a string of decimal digits denotes. */
  function DigitsValue(s: string): nat
    requires AllChars(s, IsDigit)
  {
    if s == [] then 0 else DigitsValue(s[..|s| - 1]) * 10 + DigitValue(s[|s| - 1])
  }

  /** Reading back the decimal form gives the number. */
  lemma {:induction false} NatToStringValue(n: nat)
    ensures DigitsValue(NatToString(n)) == n
  {
    if n >= 10 {
      var r := NatToString(n);
      NatToStringValue(n / 10);
      assert r[..|r| - 1] == NatToString(n / 10);
    }
  }

  /**
   * `s` without one final newline. `$` in a Python pattern matches at the end of the string and
   * also just before a final newline, so for a pattern `p` none of whose matches ends in a
   * newline, `re.match(p + "$", s)` succeeds exactly when `p` matches all of `Chomp(s)`.
   */
  function Chomp(s: string): (r: string)
    ensures r == s || (s == r + "\n")
    ensures r <= s
  {
    if |s| > 0 && s[|s| - 1] == '\n' then s[..|s| - 1] else s
  }

  /** `(_[a-zA-Z0-9]+)?`, the optional subscript of every symbol, matched as a whole. */
  predicate IsSubscript(t: string)
  {
    t == [] || (|t| >= 2 && t[0] == '_' && AllChars(t[1..], IsAlnum))
  }
}
