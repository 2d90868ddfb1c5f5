/** String helpers with the meaning JavaScript gives them in the dashboard:
    `String.prototype.trim`, `String.prototype.includes`, and a plain
    code-point order standing in for `localeCompare`. */
module Text {

  /** ECMAScript WhiteSpace and LineTerminator code points: exactly what
      `trim` strips from both ends of a string. */
  const Whitespace: set<char> := {
    '\t', '\n', '\U{000B}', '\U{000C}', '\r', ' ', '\U{00A0}', '\U{1680}',
    '\U{2000}', '\U{2001}', '\U{2002}', '\U{2003}', '\U{2004}', '\U{2005}',
    '\U{2006}', '\U{2007}', '\U{2008}', '\U{2009}', '\U{200A}',
    '\U{2028}', '\U{2029}', '\U{202F}', '\U{205F}', '\U{3000}', '\U{FEFF}'
  }

  predicate IsWhitespace(c: char) {
    c in Whitespace
  }

  /** Every character of `s` is whitespace (the empty string included). */
  predicate AllWhitespace(s: string) {
    forall i :: 0 <= i < |s| ==> IsWhitespace(s[i])
  }

  /** Drops the leading whitespace of `s`. */
  function TrimStart(s: string): (r: string)
    ensures |r| <= |s| && r == s[|s| - |r|..]
    ensures AllWhitespace(s[..|s| - |r|])
    ensures |r| > 0 ==> !IsWhitespace(r[0])
  {
    if |s| > 0 && IsWhitespace(s[0]) then
      var r := TrimStart(s[1..]);
      TrimStartStep(s, r);
      r
    else s
  }

  /** Dropping one more leading whitespace character keeps `TrimStart`'s
      contract. */
  lemma TrimStartStep(s: string, r: string)
    requires |s| > 0 && IsWhitespace(s[0])
    requires |r| <= |s| - 1 && r == s[1..][|s| - 1 - |r|..]
    requires AllWhitespace(s[1..][..|s| - 1 - |r|])
    ensures r == s[|s| - |r|..] && AllWhitespace(s[..|s| - |r|])
  {
    var k := |s| - |r|;
    assert s[1..][k - 1..] == s[k..];
    forall i | 0 <= i < k ensures IsWhitespace(s[..k][i]) {
      if i > 0 {
        assert s[1..][..k - 1][i - 1] == s[..k][i];
      }
    }
  }

  /** Drops the trailing whitespace of `s`. */
  function TrimEnd(s: string): (r: string)
    ensures |r| <= |s| && r == s[..|r|]
    ensures AllWhitespace(s[|r|..])
    ensures |r| > 0 ==> !IsWhitespace(r[|r| - 1])
  {
    if |s| > 0 && IsWhitespace(s[|s| - 1]) then
      var r := TrimEnd(s[..|s| - 1]);
      TrimEndStep(s, r);
      r
    else s
  }

  /** Dropping one more trailing whitespace character keeps `TrimEnd`'s
      contract. */
  lemma TrimEndStep(s: string, r: string)
    requires |s| > 0 && IsWhitespace(s[|s| - 1])
    requires |r| <= |s| - 1 && r == s[..|s| - 1][..|r|]
    requires AllWhitespace(s[..|s| - 1][|r|..])
    ensures r == s[..|r|] && AllWhitespace(s[|r|..])
  {
    var k := |r|;
    forall i | 0 <= i < |s| - k ensures IsWhitespace(s[k..][i]) {
      if i < |s| - 1 - k {
        assert s[..|s| - 1][k..][i] == s[k..][i];
      }
    }
  }

  /** `s.trim()`: the longest infix of `s` that neither starts nor ends with
      whitespace, once the whitespace around it is removed. */
  function Trim(s: string): (r: string)
    ensures exists lo :: TrimmedAt(s, r, lo)
  {
    TrimSplit(s);
    TrimEnd(TrimStart(s))
  }

  lemma TrimSplit(s: string)
    ensures TrimmedAt(s, TrimEnd(TrimStart(s)), |s| - |TrimStart(s)|)
  {
    TrimmedAtSplit(s, TrimStart(s), TrimEnd(TrimStart(s)));
  }

  /** Stripping the front of `s` to get `a`, then the back of `a` to get `r`,
      leaves `r` trimmed out of `s`. */
  lemma TrimmedAtSplit(s: string, a: string, r: string)
    requires |a| <= |s| && a == s[|s| - |a|..] && AllWhitespace(s[..|s| - |a|])
    requires |a| > 0 ==> !IsWhitespace(a[0])
    requires |r| <= |a| && r == a[..|r|] && AllWhitespace(a[|r|..])
    requires |r| > 0 ==> !IsWhitespace(r[|r| - 1])
    ensures TrimmedAt(s, r, |s| - |a|)
  {
    var lo := |s| - |a|;
    assert r == s[lo..lo + |r|];
    assert a[|r|..] == s[lo + |r|..];
    assert |r| > 0 ==> r[0] == a[0];
  }

  /** `r` is `s` with whitespace-only text removed before position `lo` and
      after `r`, and `r` itself is free of whitespace at both ends. */
  predicate TrimmedAt(s: string, r: string, lo: int) {
    && 0 <= lo <= lo + |r| <= |s|
    && r == s[lo..lo + |r|]
    && AllWhitespace(s[..lo])
    && AllWhitespace(s[lo + |r|..])
    && (|r| > 0 ==> !IsWhitespace(r[0]) && !IsWhitespace(r[|r| - 1]))
  }

  /** A string trims to nothing exactly when it consists of whitespace only:
      those are the values `if (orientClaim)` treats as blank. */
  lemma TrimIsBlankIff(s: string)
    ensures Trim(s) == [] <==> AllWhitespace(s)
  {
    var lo :| TrimmedAt(s, Trim(s), lo);
    if Trim(s) == [] {
      forall i | 0 <= i < |s| ensures IsWhitespace(s[i]) {
        if i < lo {
          assert s[..lo][i] == s[i];
        } else {
          assert s[lo..][i - lo] == s[i];
        }
      }
    } else {
      assert s[lo] == Trim(s)[0];
    }
  }

  /** Text that neither starts nor ends with whitespace trims to itself. */
  lemma TrimUnpadded(s: string)
    requires |s| > 0 && !IsWhitespace(s[0]) && !IsWhitespace(s[|s| - 1])
    ensures Trim(s) == s
  {
    assert TrimStart(s) == s;
    assert TrimEnd(s) == s;
  }

  /** A leading whitespace character does not survive trimming. */
  lemma TrimLeadingWhitespace(c: char, s: string)
    requires IsWhitespace(c)
    ensures Trim([c] + s) == Trim(s)
  {
    assert ([c] + s)[1..] == s;
  }

  /** `sub` occurs in `s` starting at index `i`. */
  predicate OccursAt(s: string, sub: string, i: int) {
    0 <= i && i + |sub| <= |s| && s[i..i + |sub|] == sub
  }

  /** `s.includes(sub)`. */
  predicate Contains(s: string, sub: string) {
    exists i | 0 <= i <= |s| - |sub| :: OccursAt(s, sub, i)
  }

  /** Every string includes itself. */
  lemma ContainsSelf(s: string)
    ensures Contains(s, s)
  {
    assert OccursAt(s, s, 0);
  }

  /** Inclusion is transitive: text that includes a label includes every
      string the label includes. */
  lemma ContainsTransitive(a: string, b: string, c: string)
    requires Contains(a, b) && Contains(b, c)
    ensures Contains(a, c)
  {
    var i :| 0 <= i <= |a| - |b| && OccursAt(a, b, i);
    var j :| 0 <= j <= |b| - |c| && OccursAt(b, c, j);
    forall k | 0 <= k < |c| ensures a[i + j..i + j + |c|][k] == c[k] {
      assert b[j..j + |c|][k] == c[k];
      assert a[i..i + |b|][j + k] == b[j + k];
    }
    assert OccursAt(a, c, i + j);
  }

  /** Code-point lexicographic order: `a` sorts no later than `b`. */
  predicate LexLe(a: string, b: string) {
    |a| == 0 || (|b| > 0 && (a[0] < b[0] || (a[0] == b[0] && LexLe(a[1..], b[1..]))))
  }

  lemma {:induction false} LexLeTotal(a: string, b: string)
    ensures LexLe(a, b) || LexLe(b, a)
  {
    if |a| > 0 && |b| > 0 && a[0] == b[0] {
      LexLeTotal(a[1..], b[1..]);
    }
  }

  lemma {:induction false} LexLeTransitive(a: string, b: string, c: string)
    requires LexLe(a, b) && LexLe(b, c)
    ensures LexLe(a, c)
  {
    if |a| > 0 && a[0] == b[0] && b[0] == c[0] {
      LexLeTransitive(a[1..], b[1..], c[1..]);
    }
  }

  lemma {:induction false} LexLeAntisymmetric(a: string, b: string)
    requires LexLe(a, b) && LexLe(b, a)
    ensures a == b
  {
    if |a| > 0 {
      LexLeAntisymmetric(a[1..], b[1..]);
      assert a == [a[0]] + a[1..];
      assert b == [b[0]] + b[1..];
    }
  }
}
