/** Models of the few functions of Go's `strings` package that the reader uses,
    over `string == seq<char>`. Each function is defined by its recursion alone; what
    it computes is stated in the lemmas after it. */
module GoStrings {

  /** The ASCII part of `unicode.IsSpace`: the characters `strings.TrimSpace` removes. */
  predicate IsSpace(c: char) {
    c == ' ' || c == '\t' || c == '\n' || c == '\r' || c == '\U{000B}' || c == '\U{000C}'
  }

  /** The cut set `"\""` of `strings.Trim(value, "\"")`. */
  predicate IsQuote(c: char) {
    c == '"'
  }

  /** True when every character of `s` satisfies `f`. */
  predicate All(s: string, f: char -> bool) {
    forall k :: 0 <= k < |s| ==> f(s[k])
  }

  /** `strings.TrimLeftFunc`: drops the longest prefix whose characters satisfy `f`. */
  function TrimLeftFunc(s: string, f: char -> bool): string
    decreases |s|
  {
    if |s| > 0 && f(s[0]) then TrimLeftFunc(s[1..], f) else s
  }

  /** `strings.TrimRightFunc`: drops the longest suffix whose characters satisfy `f`. */
  function TrimRightFunc(s: string, f: char -> bool): string
    decreases |s|
  {
    if |s| > 0 && f(s[|s| - 1]) then TrimRightFunc(s[..|s| - 1], f) else s
  }

  /** `strings.TrimFunc`: both ends. */
  function TrimFunc(s: string, f: char -> bool): string {
    TrimRightFunc(TrimLeftFunc(s, f), f)
  }

  /** `strings.TrimSpace`, with the ASCII white-space set. */
  function TrimSpace(s: string): string {
    TrimFunc(s, IsSpace)
  }

  /** `strings.Trim(s, "\"")`: strips the leading and trailing runs of `"`. */
  function TrimQuotes(s: string): string {
    TrimFunc(s, IsQuote)
  }

  /** Position of the first `c` in `s`, or `|s|` when there is none
      (`strings.IndexByte`, with `|s|` in place of -1). */
  function IndexOf(s: string, c: char): (i: nat)
    ensures i <= |s|
    decreases |s|
  {
    if |s| == 0 then 0
    else if s[0] == c then 0
    else 1 + IndexOf(s[1..], c)
  }

  /** `strings.Split(s, string(sep))`: the pieces of `s` between occurrences of `sep`. */
  function Split(s: string, sep: char): (parts: seq<string>)
    ensures |parts| >= 1
    decreases |s|
  {
    var i := IndexOf(s, sep);
    if i == |s| then [s] else [s[..i]] + Split(s[i + 1..], sep)
  }

  /** `strings.Join(parts, string(sep))`. */
  function Join(parts: seq<string>, sep: char): string
    decreases |parts|
  {
    if |parts| == 0 then []
    else if |parts| == 1 then parts[0]
    else parts[0] + [sep] + Join(parts[1..], sep)
  }

  // ---------------------------------------------------------------------------
  // Trimming

  lemma AllAppend(u: string, v: string, f: char -> bool)
    requires All(u, f) && All(v, f)
    ensures All(u + v, f)
  {
    forall k | 0 <= k < |u + v| ensures f((u + v)[k]) {
      if k >= |u| { assert (u + v)[k] == v[k - |u|]; }
    }
  }

  /** TrimLeftFunc keeps a suffix, drops only `f` characters, and stops at the first
      character that is not one. */
  lemma {:induction false} TrimLeftSpec(s: string, f: char -> bool)
    ensures var r := TrimLeftFunc(s, f);
            |r| <= |s| && r == s[|s| - |r|..] &&
            (forall k :: 0 <= k < |s| - |r| ==> f(s[k])) &&
            (r == [] || !f(r[0]))
    decreases |s|
  {
    if |s| > 0 && f(s[0]) {
      var t := s[1..];
      TrimLeftSpec(t, f);
      var r := TrimLeftFunc(t, f);
      assert t[|t| - |r|..] == s[|s| - |r|..];
      forall k | 0 <= k < |s| - |r| ensures f(s[k]) {
        if k > 0 { assert s[k] == t[k - 1]; }
      }
    }
  }

  /** The mirror image of TrimLeftSpec. */
  lemma {:induction false} TrimRightSpec(s: string, f: char -> bool)
    ensures var r := TrimRightFunc(s, f);
            |r| <= |s| && r == s[..|r|] &&
            (forall k :: |r| <= k < |s| ==> f(s[k])) &&
            (r == [] || !f(r[|r| - 1]))
    decreases |s|
  {
    if |s| > 0 && f(s[|s| - 1]) {
      var p := s[..|s| - 1];
      TrimRightSpec(p, f);
      var r := TrimRightFunc(p, f);
      assert p[..|r|] == s[..|r|];
      forall k | |r| <= k < |s| ensures f(s[k]) {
        if k < |s| - 1 { assert s[k] == p[k]; }
      }
    }
  }

  /** A prefix of `f` characters in front of a piece that does not start with one is
      exactly what TrimLeftFunc removes. */
  lemma {:induction false} TrimLeftExact(a: string, rest: string, f: char -> bool)
    requires All(a, f)
    requires rest == [] || !f(rest[0])
    ensures TrimLeftFunc(a + rest, f) == rest
    decreases |a|
  {
    if |a| > 0 {
      assert (a + rest)[1..] == a[1..] + rest;
      TrimLeftExact(a[1..], rest, f);
    }
  }

  /** The mirror image of TrimLeftExact. */
  lemma {:induction false} TrimRightExact(rest: string, b: string, f: char -> bool)
    requires All(b, f)
    requires rest == [] || !f(rest[|rest| - 1])
    ensures TrimRightFunc(rest + b, f) == rest
    decreases |b|
  {
    if |b| > 0 {
      assert (rest + b)[..|rest + b| - 1] == rest + b[..|b| - 1];
      TrimRightExact(rest, b[..|b| - 1], f);
    }
  }

  /** TrimFunc's result is determined: whatever the `f` runs `a` and `b` around a piece
      `m` whose ends are not `f` characters, trimming `a + m + b` yields `m`. */
  lemma TrimFuncExact(a: string, m: string, b: string, f: char -> bool)
    requires All(a, f) && All(b, f)
    requires m == [] || (!f(m[0]) && !f(m[|m| - 1]))
    ensures TrimFunc(a + m + b, f) == m
  {
    if m == [] {
      assert a + m + b == (a + b) + [];
      assert All(a + b, f) by { AllAppend(a, b, f); }
      TrimLeftExact(a + b, [], f);
    } else {
      assert a + m + b == a + (m + b);
      TrimLeftExact(a, m + b, f);
      TrimRightExact(m, b, f);
    }
  }

  lemma SplitAt(s: string, i: nat)
    requires i <= |s|
    ensures s == s[..i] + s[i..]
  {
  }

  lemma Regroup(a: string, l: string, m: string, b: string)
    requires l == m + b
    ensures a + l == a + m + b
  {
  }

  /** A piece whose ends are not `f` characters is left as it is. */
  lemma TrimFuncId(m: string, f: char -> bool)
    requires m == [] || (!f(m[0]) && !f(m[|m| - 1]))
    ensures TrimFunc(m, f) == m
  {
    TrimFuncExact([], m, [], f);
    assert [] + m + [] == m;
  }

  /** Only an `f` run at the end is removed. */
  lemma TrimFuncTail(m: string, b: string, f: char -> bool)
    requires All(b, f)
    requires m == [] || (!f(m[0]) && !f(m[|m| - 1]))
    ensures TrimFunc(m + b, f) == m
  {
    TrimFuncExact([], m, b, f);
    assert [] + m + b == m + b;
  }

  /** Only an `f` run in front is removed. */
  lemma TrimFuncHead(a: string, m: string, f: char -> bool)
    requires All(a, f)
    requires m == [] || (!f(m[0]) && !f(m[|m| - 1]))
    ensures TrimFunc(a + m, f) == m
  {
    TrimFuncExact(a, m, [], f);
    assert a + m + [] == a + m;
  }

  /** A string is the run TrimLeftFunc drops followed by what it keeps. */
  lemma TrimLeftParts(s: string, f: char -> bool) returns (a: string, l: string)
    ensures s == a + l && l == TrimLeftFunc(s, f) && All(a, f)
    ensures l == [] || !f(l[0])
  {
    l := TrimLeftFunc(s, f);
    TrimLeftSpec(s, f);
    a := s[..|s| - |l|];
    assert All(a, f) by {
      forall k | 0 <= k < |a| ensures f(a[k]) { assert a[k] == s[k]; }
    }
    SplitAt(s, |s| - |l|);
  }

  /** A string is what TrimRightFunc keeps followed by the run it drops. */
  lemma TrimRightParts(l: string, f: char -> bool) returns (m: string, b: string)
    ensures l == m + b && m == TrimRightFunc(l, f) && All(b, f)
    ensures m == [] || !f(m[|m| - 1])
  {
    m := TrimRightFunc(l, f);
    TrimRightSpec(l, f);
    b := l[|m|..];
    assert All(b, f) by {
      forall k | 0 <= k < |b| ensures f(b[k]) { assert b[k] == l[|m| + k]; }
    }
    SplitAt(l, |m|);
  }

  /** Every string is its trimmed part with an `f` run on each side; the trimmed part
      neither starts nor ends with an `f` character. */
  lemma TrimFuncParts(s: string, f: char -> bool) returns (a: string, m: string, b: string)
    ensures s == a + m + b && m == TrimFunc(s, f)
    ensures All(a, f) && All(b, f)
    ensures m == [] || (!f(m[0]) && !f(m[|m| - 1]))
  {
    var l;
    a, l := TrimLeftParts(s, f);
    m, b := TrimRightParts(l, f);
    assert m == [] || m[0] == l[0];
    Regroup(a, l, m, b);
  }

  /** The trimmed part neither starts nor ends with an `f` character. */
  lemma TrimFuncEnds(s: string, f: char -> bool)
    ensures var m := TrimFunc(s, f); m == [] || (!f(m[0]) && !f(m[|m| - 1]))
  {
    var a, m, b := TrimFuncParts(s, f);
  }

  /** Trimming keeps only characters of its input. */
  lemma TrimFuncWithin(s: string, f: char -> bool)
    ensures forall c :: c in TrimFunc(s, f) ==> c in s
  {
    var a, m, b := TrimFuncParts(s, f);
  }

  /** Trimming a string that starts with a character outside `f` keeps that character
      in front. */
  lemma TrimFuncKeepsHead(s: string, f: char -> bool)
    requires s != [] && !f(s[0])
    ensures TrimFunc(s, f) != [] && TrimFunc(s, f)[0] == s[0]
  {
    assert TrimLeftFunc(s, f) == s;
    TrimRightSpec(s, f);
    var r := TrimRightFunc(s, f);
    assert r != [];
    assert r[0] == s[..|r|][0];
  }

  /** White space added at the end of a line does not change what TrimSpace leaves,
      so `"...\r\n"`, `"...\n"` and `"..."` trim alike. */
  lemma TrimSpaceTrailing(s: string, w: string)
    requires All(w, IsSpace)
    ensures TrimSpace(s + w) == TrimSpace(s)
  {
    var a, m, b := TrimFuncParts(s, IsSpace);
    AllAppend(b, w, IsSpace);
    assert s + w == a + m + (b + w);
    TrimFuncExact(a, m, b + w, IsSpace);
  }

  // ---------------------------------------------------------------------------
  // Searching and splitting

  /** IndexOf finds the first `c`, and finds none exactly when there is none. */
  lemma {:induction false} IndexOfSpec(s: string, c: char)
    ensures var i := IndexOf(s, c);
            (i < |s| ==> s[i] == c) &&
            (forall k :: 0 <= k < i ==> s[k] != c) &&
            (i == |s| <==> c !in s)
    decreases |s|
  {
    if |s| > 0 && s[0] != c {
      IndexOfSpec(s[1..], c);
      var j := IndexOf(s[1..], c);
      forall k | 0 <= k < 1 + j ensures s[k] != c {
        if k > 0 { assert s[k] == s[1..][k - 1]; }
      }
      if c in s {
        var k :| 0 <= k < |s| && s[k] == c;
        assert s[1..][k - 1] == c;
      }
    }
  }

  /** The first `c` of `a + [c] + b` is the one after `a` when `a` has none. */
  lemma IndexOfCons(a: string, c: char, b: string)
    requires c !in a
    ensures IndexOf(a + [c] + b, c) == |a|
  {
    var s := a + [c] + b;
    IndexOfSpec(s, c);
    assert s[|a|] == c;
    assert forall k :: 0 <= k < |a| ==> s[k] == a[k];
  }

  /** Split's first piece is the text before the first separator, no piece holds the
      separator, and there is a single piece exactly when there is no separator. */
  lemma {:induction false} SplitSpec(s: string, sep: char)
    ensures var parts := Split(s, sep);
            parts[0] == s[..IndexOf(s, sep)] &&
            (forall i :: 0 <= i < |parts| ==> sep !in parts[i]) &&
            (|parts| == 1 <==> sep !in s)
    decreases |s|
  {
    var i := IndexOf(s, sep);
    IndexOfSpec(s, sep);
    if i < |s| {
      SplitSpec(s[i + 1..], sep);
      var rest := Split(s[i + 1..], sep);
      var parts := Split(s, sep);
      assert parts == [s[..i]] + rest;
      assert sep !in s[..i];
      forall j | 0 <= j < |parts| ensures sep !in parts[j] {
        if j > 0 { assert parts[j] == rest[j - 1]; }
      }
    } else {
      assert s[..|s|] == s;
    }
  }

  /** `Split` finds the first separator: a piece free of `c`, then `c`, splits there. */
  lemma SplitCons(a: string, c: char, b: string)
    requires c !in a
    ensures Split(a + [c] + b, c) == [a] + Split(b, c)
  {
    var s := a + [c] + b;
    IndexOfCons(a, c, b);
    assert s[..|a|] == a && s[|a| + 1..] == b;
  }

  /** Join undoes Split: the pieces with the separators put back are the input. */
  lemma {:induction false} JoinSplit(s: string, sep: char)
    ensures Join(Split(s, sep), sep) == s
    decreases |s|
  {
    var i := IndexOf(s, sep);
    IndexOfSpec(s, sep);
    if i < |s| {
      var rest := Split(s[i + 1..], sep);
      JoinSplit(s[i + 1..], sep);
      assert Split(s, sep) == [s[..i]] + rest;
      assert ([s[..i]] + rest)[1..] == rest;
      assert Join(Split(s, sep), sep) == s[..i] + [sep] + s[i + 1..];
    }
  }

  /** Split undoes Join when no piece contains the separator. */
  lemma {:induction false} SplitJoin(parts: seq<string>, sep: char)
    requires |parts| >= 1
    requires forall i :: 0 <= i < |parts| ==> sep !in parts[i]
    ensures Split(Join(parts, sep), sep) == parts
    decreases |parts|
  {
    if |parts| > 1 {
      SplitJoin(parts[1..], sep);
      SplitCons(parts[0], sep, Join(parts[1..], sep));
      assert parts == [parts[0]] + parts[1..];
    } else {
      IndexOfSpec(parts[0], sep);
    }
  }
}
