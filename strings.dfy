/** The JavaScript string operations the core relies on: `split` on one character,
    `join`, `trim`, and prefix / suffix / infix tests. */
module Strings {

  /** Number of times `c` occurs in `s`. */
  function Occurrences(s: string, c: char): (n: nat)
    ensures n <= |s|
    ensures n == 0 <==> c !in s
  {
    if s == [] then 0 else (if s[0] == c then 1 else 0) + Occurrences(s[1..], c)
  }

  lemma {:induction false} OccurrencesAppend(a: string, b: string, c: char)
    ensures Occurrences(a + b, c) == Occurrences(a, c) + Occurrences(b, c)
  {
    if a == [] {
      assert a + b == b;
    } else {
      assert (a + b)[1..] == a[1..] + b;
      OccurrencesAppend(a[1..], b, c);
    }
  }

  /** Index of the first `c` in `s`, or `|s|` when `s` has none. */
  function IndexOf(s: string, c: char): (i: nat)
    ensures i <= |s|
    ensures i < |s| ==> s[i] == c
    ensures forall k :: 0 <= k < i ==> s[k] != c
  {
    if s == [] then 0
    else if s[0] == c then 0
    else IndexOf(s[1..], c) + 1
  }

  /** `s.split(c)` for a one-character separator: the maximal pieces between separators,
      always at least one. */
  function Split(s: string, c: char): (parts: seq<string>)
    ensures |parts| >= 1
    decreases |s|
  {
    var i := IndexOf(s, c);
    if i == |s| then [s] else [s[..i]] + Split(s[i + 1..], c)
  }

  /** `parts.join(c)` for a one-character separator. */
  function Join(parts: seq<string>, c: char): string
  {
    if |parts| == 0 then ""
    else if |parts| == 1 then parts[0]
    else parts[0] + [c] + Join(parts[1..], c)
  }

  /** `parts.join('')`. */
  function Concat(parts: seq<string>): string
  {
    if parts == [] then "" else parts[0] + Concat(parts[1..])
  }

  /** Splitting yields one piece more than there are separators. */
  lemma {:induction false} SplitLength(s: string, c: char)
    ensures |Split(s, c)| == Occurrences(s, c) + 1
    decreases |s|
  {
    var i := IndexOf(s, c);
    if i < |s| {
      assert s == s[..i] + ([s[i]] + s[i + 1..]);
      OccurrencesAppend(s[..i], [s[i]] + s[i + 1..], c);
      OccurrencesAppend([s[i]], s[i + 1..], c);
      SplitLength(s[i + 1..], c);
    }
  }

  /** No piece contains the separator. */
  lemma {:induction false} SplitPiecesSeparatorFree(s: string, c: char)
    ensures forall k :: 0 <= k < |Split(s, c)| ==> c !in Split(s, c)[k]
    decreases |s|
  {
    var i := IndexOf(s, c);
    if i < |s| {
      SplitPiecesSeparatorFree(s[i + 1..], c);
      SplitAtFirst(s, c, i);
    }
  }

  /** Joining the pieces with the separator gives back the original string. */
  lemma {:induction false} JoinSplit(s: string, c: char)
    ensures Join(Split(s, c), c) == s
    decreases |s|
  {
    var i := IndexOf(s, c);
    if i < |s| {
      var rest := s[i + 1..];
      calc {
        Join(Split(s, c), c);
        { SplitAtFirst(s, c, i); }
        Join([s[..i]] + Split(rest, c), c);
        { JoinCons(s[..i], Split(rest, c), c); }
        s[..i] + [c] + Join(Split(rest, c), c);
        { JoinSplit(rest, c); }
        s[..i] + [c] + rest;
        { CutAt(s, i); }
        s;
      }
    }
  }

  lemma CutAt(s: string, i: nat)
    requires i < |s|
    ensures s == s[..i] + [s[i]] + s[i + 1..]
  {
  }

  lemma SplitAtFirst(s: string, c: char, i: nat)
    requires i == IndexOf(s, c) && i < |s|
    ensures Split(s, c) == [s[..i]] + Split(s[i + 1..], c)
  {
  }

  lemma JoinCons(p: string, parts: seq<string>, c: char)
    requires parts != []
    ensures Join([p] + parts, c) == p + [c] + Join(parts, c)
  {
    assert ([p] + parts)[1..] == parts;
  }

  /** Splitting a string that starts with a separator-free piece and a separator. */
  lemma SplitAfterPiece(a: string, b: string, c: char)
    requires c !in a
    ensures Split(a + [c] + b, c) == [a] + Split(b, c)
  {
    var s := a + [c] + b;
    var i := IndexOf(s, c);
    assert s[..|a|] == a;
    assert s[|a|] == c;
    assert s[..i] == a && s[i + 1..] == b;
  }

  /** The inverse round trip: splitting a join of separator-free pieces gives the pieces. */
  lemma {:induction false} SplitJoin(parts: seq<string>, c: char)
    requires |parts| >= 1
    requires forall k :: 0 <= k < |parts| ==> c !in parts[k]
    ensures Split(Join(parts, c), c) == parts
  {
    if |parts| == 1 {
      assert IndexOf(parts[0], c) == |parts[0]|;
    } else {
      SplitJoin(parts[1..], c);
      SplitAfterPiece(parts[0], Join(parts[1..], c), c);
      assert parts == [parts[0]] + parts[1..];
    }
  }

  lemma {:induction false} ConcatAppend(a: seq<string>, b: seq<string>)
    ensures Concat(a + b) == Concat(a) + Concat(b)
  {
    if a == [] {
      assert a + b == b;
    } else {
      assert (a + b)[1..] == a[1..] + b;
      ConcatAppend(a[1..], b);
    }
  }

  predicate StartsWith(s: string, p: string)
  {
    |p| <= |s| && s[..|p|] == p
  }

  predicate EndsWith(s: string, p: string)
  {
    |p| <= |s| && s[|s| - |p|..] == p
  }

  /** `x` occurs in `s` starting at index `i`. */
  predicate InfixAt(x: string, s: string, i: int)
  {
    0 <= i <= |s| - |x| && s[i..i + |x|] == x
  }

  predicate IsInfix(x: string, s: string)
  {
    exists i :: 0 <= i <= |s| && InfixAt(x, s, i)
  }

  lemma InfixTransitive(x: string, y: string, z: string)
    requires IsInfix(x, y) && IsInfix(y, z)
    ensures IsInfix(x, z)
  {
    var i :| 0 <= i <= |y| && InfixAt(x, y, i);
    var k :| 0 <= k <= |z| && InfixAt(y, z, k);
    InfixAtTransitive(x, y, z, i, k);
  }

  lemma InfixAtTransitive(x: string, y: string, z: string, i: int, k: int)
    requires InfixAt(x, y, i) && InfixAt(y, z, k)
    ensures InfixAt(x, z, k + i)
  {
    forall m | 0 <= m < |x| ensures z[k + i + m] == x[m] {
      assert y[i + m] == x[m];
      assert z[k + i + m] == y[i + m];
    }
    assert z[k + i..k + i + |x|] == x;
  }

  /** Each piece of a concatenation occurs in it. */
  lemma {:induction false} ConcatContainsPiece(parts: seq<string>, i: nat)
    requires i < |parts|
    ensures IsInfix(parts[i], Concat(parts))
  {
    var rest := Concat(parts[1..]);
    if i == 0 {
      assert InfixAt(parts[0], parts[0] + rest, 0);
    } else {
      ConcatContainsPiece(parts[1..], i - 1);
      var k :| 0 <= k <= |rest| && InfixAt(parts[i], rest, k);
      assert InfixAt(rest, parts[0] + rest, |parts[0]|);
      InfixAtTransitive(parts[i], rest, parts[0] + rest, k, |parts[0]|);
    }
  }

  /** Appending a last piece to a list joined with `c`. */
  lemma {:induction false} JoinAppend(parts: seq<string>, last: string, c: char)
    ensures Join(parts + [last], c) == if parts == [] then last else Join(parts, c) + [c] + last
  {
    if |parts| > 1 {
      assert (parts + [last])[1..] == parts[1..] + [last];
      JoinAppend(parts[1..], last, c);
    } else if |parts| == 1 {
      assert (parts + [last])[1..] == [last];
    }
  }

  lemma InfixOfConcatenation(a: string, x: string, b: string)
    ensures IsInfix(x, a + x + b)
  {
    var s := a + x + b;
    assert InfixAt(x, s, |a|);
  }

  /** ECMAScript WhiteSpace and LineTerminator code points: what `String.prototype.trim`
      removes (section 22.1.3.32 of ECMA-262). */
  predicate IsJsWhitespace(c: char)
  {
    var n := c as int;
    n == 0x09 || n == 0x0A || n == 0x0B || n == 0x0C || n == 0x0D || n == 0x20
    || n == 0xA0 || n == 0x1680 || (0x2000 <= n <= 0x200A)
    || n == 0x2028 || n == 0x2029 || n == 0x202F || n == 0x205F || n == 0x3000 || n == 0xFEFF
  }

  predicate AllWhitespace(s: string)
  {
    forall k :: 0 <= k < |s| ==> IsJsWhitespace(s[k])
  }

  /** Neither the first nor the last character is whitespace. */
  predicate Trimmed(s: string)
  {
    s == [] || (!IsJsWhitespace(s[0]) && !IsJsWhitespace(s[|s| - 1]))
  }

  function TrimStart(s: string): (r: string)
    ensures |r| <= |s| && r == s[|s| - |r|..]
    ensures AllWhitespace(s[..|s| - |r|])
    ensures r == [] || !IsJsWhitespace(r[0])
  {
    if s != [] && IsJsWhitespace(s[0]) then
      var r := TrimStart(s[1..]);
      assert s[..|s| - |r|] == [s[0]] + s[1..][..|s| - 1 - |r|];
      r
    else s
  }

  function TrimEnd(s: string): (r: string)
    ensures |r| <= |s| && r == s[..|r|]
    ensures AllWhitespace(s[|r|..])
    ensures r == [] || !IsJsWhitespace(r[|r| - 1])
  {
    if s != [] && IsJsWhitespace(s[|s| - 1]) then
      var r := TrimEnd(s[..|s| - 1]);
      assert s[|r|..] == s[..|s| - 1][|r|..] + [s[|s| - 1]];
      r
    else s
  }

  /** `s.trim()`: the infix of `s` left once leading and trailing whitespace is removed. */
  function Trim(s: string): (r: string)
    ensures Trimmed(r)
    ensures |r| <= |s|
  {
    var r := TrimEnd(TrimStart(s));
    assert r != [] ==> r[0] == TrimStart(s)[0];
    r
  }

  /** `trim` only removes characters from the two ends. */
  lemma TrimIsInfix(s: string)
    ensures InfixAt(Trim(s), s, |s| - |TrimStart(s)|)
  {
    var t := TrimStart(s);
    TrimStartIsSuffix(s);
    TrimEndIsPrefix(t);
    InfixAtTransitive(TrimEnd(t), t, s, 0, |s| - |t|);
  }

  lemma TrimStartIsSuffix(s: string)
    ensures InfixAt(TrimStart(s), s, |s| - |TrimStart(s)|)
  {
  }

  lemma TrimEndIsPrefix(s: string)
    ensures InfixAt(TrimEnd(s), s, 0)
  {
  }

  /** `trim` is characterised independently of how it is computed: any split of `s` into
      whitespace, a trimmed middle and whitespace has `Trim(s)` as its middle. */
  lemma TrimUnique(s: string, i: nat, j: nat)
    requires i <= j <= |s|
    requires AllWhitespace(s[..i]) && AllWhitespace(s[j..])
    requires Trimmed(s[i..j])
    ensures Trim(s) == s[i..j]
  {
    if i == j {
      WhitespaceAroundNothing(s, i);
      TrimStartOfWhitespace(s);
    } else {
      TrimAroundMiddle(s, i, j);
    }
  }

  lemma WhitespaceAroundNothing(s: string, i: nat)
    requires i <= |s| && AllWhitespace(s[..i]) && AllWhitespace(s[i..])
    ensures AllWhitespace(s)
  {
    forall m | 0 <= m < |s| ensures IsJsWhitespace(s[m]) {
      if m < i { assert s[..i][m] == s[m]; } else { assert s[i..][m - i] == s[m]; }
    }
  }

  lemma TrimAroundMiddle(s: string, i: nat, j: nat)
    requires i < j <= |s|
    requires AllWhitespace(s[..i]) && AllWhitespace(s[j..])
    requires !IsJsWhitespace(s[i]) && !IsJsWhitespace(s[j - 1])
    ensures Trim(s) == s[i..j]
  {
    var t := s[i..];
    SuffixKeepsEnd(s, i, j);
    calc {
      Trim(s);
      { TrimIsEndOfStart(s); }
      TrimEnd(TrimStart(s));
      { TrimStartSkips(s, i); }
      TrimEnd(t);
      { TrimEndSkips(t, j - i); }
      t[..j - i];
      s[i..j];
    }
  }

  lemma TrimIsEndOfStart(s: string)
    ensures Trim(s) == TrimEnd(TrimStart(s))
  {
  }

  lemma SuffixKeepsEnd(s: string, i: nat, j: nat)
    requires i < j <= |s| && AllWhitespace(s[j..]) && !IsJsWhitespace(s[j - 1])
    ensures AllWhitespace(s[i..][j - i..]) && !IsJsWhitespace(s[i..][j - i - 1])
    ensures s[i..][..j - i] == s[i..j]
  {
    assert s[i..][j - i..] == s[j..];
  }

  lemma {:induction false} TrimStartOfWhitespace(s: string)
    requires AllWhitespace(s)
    ensures TrimStart(s) == []
  {
    if s != [] {
      assert AllWhitespace(s[1..]) by {
        forall m | 0 <= m < |s| - 1 ensures IsJsWhitespace(s[1..][m]) {
          assert s[1..][m] == s[m + 1];
        }
      }
      TrimStartOfWhitespace(s[1..]);
    }
  }

  /** Leading whitespace up to a non-whitespace character at `i` is what `TrimStart` drops. */
  lemma {:induction false} TrimStartSkips(s: string, i: nat)
    requires i < |s| && AllWhitespace(s[..i]) && !IsJsWhitespace(s[i])
    ensures TrimStart(s) == s[i..]
  {
    if i > 0 {
      assert IsJsWhitespace(s[..i][0]);
      var u := s[1..][..i - 1];
      assert AllWhitespace(u) by {
        forall m | 0 <= m < |u| ensures IsJsWhitespace(u[m]) {
          assert u[m] == s[..i][m + 1];
        }
      }
      assert s[1..][i - 1] == s[i];
      TrimStartSkips(s[1..], i - 1);
      assert s[1..][i - 1..] == s[i..];
    }
  }

  /** Trailing whitespace after a non-whitespace character at `j - 1` is what `TrimEnd` drops. */
  lemma {:induction false} TrimEndSkips(s: string, j: nat)
    requires 0 < j <= |s| && AllWhitespace(s[j..]) && !IsJsWhitespace(s[j - 1])
    ensures TrimEnd(s) == s[..j]
    decreases |s|
  {
    if j < |s| {
      var init := s[..|s| - 1];
      assert IsJsWhitespace(s[j..][|s| - 1 - j]);
      assert AllWhitespace(init[j..]) by {
        forall m | 0 <= m < |init| - j ensures IsJsWhitespace(init[j..][m]) {
          assert init[j..][m] == s[j..][m];
        }
      }
      assert init[j - 1] == s[j - 1];
      TrimEndSkips(init, j);
      assert init[..j] == s[..j];
    }
  }
}
