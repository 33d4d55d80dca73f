/**
 * The parts of Go's `strings` package (and `unicode.IsSpace`) that the CLI
 * relies on, over `string` = `seq<char>` (one char per Unicode code point).
 */
module GoStrings {

  /** unicode.IsSpace: the Latin-1 spaces plus the White_Space property table. */
  predicate IsSpace(c: char)
  {
    c == '\t' || c == '\n' || c == '\U{0B}' || c == '\U{0C}' || c == '\r' || c == ' '
    || c == '\U{85}' || c == '\U{A0}' || c == '\U{1680}'
    || ('\U{2000}' <= c <= '\U{200A}')
    || c == '\U{2028}' || c == '\U{2029}' || c == '\U{202F}' || c == '\U{205F}' || c == '\U{3000}'
  }

  /** The string is empty or made of white space only. */
  predicate AllSpace(s: string)
  {
    forall i :: 0 <= i < |s| ==> IsSpace(s[i])
  }

  /** t occurs in s as a contiguous block (strings.Contains(s, t)). */
  ghost predicate IsInfix(t: string, s: string)
  {
    exists k :: InfixAt(t, s, k)
  }

  /** t occurs in s starting at position k. */
  predicate InfixAt(t: string, s: string, k: int)
  {
    0 <= k <= |s| - |t| && s[k..k + |t|] == t
  }

  /** strings.TrimLeftFunc(s, unicode.IsSpace); TrimLeftCut says what it removes. */
  function TrimLeft(s: string): (r: string)
    ensures |r| <= |s|
    ensures r != [] ==> !IsSpace(r[0])
  {
    if |s| > 0 && IsSpace(s[0]) then TrimLeft(s[1..]) else s
  }

  /** TrimLeft leaves a suffix of s and removes only white space. */
  lemma {:induction false} TrimLeftCut(s: string)
    ensures var r := TrimLeft(s); r == s[|s| - |r|..] && AllSpace(s[..|s| - |r|])
  {
    if |s| > 0 && IsSpace(s[0]) {
      TrimLeftCut(s[1..]);
      var r := TrimLeft(s);
      assert s[1..][|s| - 1 - |r|..] == s[|s| - |r|..];
      assert s[..|s| - |r|] == [s[0]] + s[1..][..|s| - 1 - |r|];
    }
  }

  /** strings.TrimRightFunc(s, unicode.IsSpace); TrimRightCut says what it removes. */
  function TrimRight(s: string): (r: string)
    ensures |r| <= |s|
    ensures r != [] ==> !IsSpace(r[|r| - 1])
  {
    if |s| > 0 && IsSpace(s[|s| - 1]) then TrimRight(s[..|s| - 1]) else s
  }

  /** TrimRight leaves a prefix of s and removes only white space. */
  lemma {:induction false} TrimRightCut(s: string)
    ensures var r := TrimRight(s); r == s[..|r|] && AllSpace(s[|r|..])
  {
    if |s| > 0 && IsSpace(s[|s| - 1]) {
      TrimRightCut(s[..|s| - 1]);
      var r := TrimRight(s);
      assert s[..|s| - 1][..|r|] == s[..|r|];
      assert s[|r|..] == s[..|s| - 1][|r|..] + [s[|s| - 1]];
    }
  }

  /**
   * strings.TrimSpace: s with its leading and trailing white space removed.
   * The result neither starts nor ends with white space, and it is empty
   * exactly when s is all white space; TrimSpaceBlock says where it sits in s.
   */
  function TrimSpace(s: string): (r: string)
    ensures r != [] ==> !IsSpace(r[0]) && !IsSpace(r[|r| - 1])
    ensures r == [] <==> AllSpace(s)
  {
    var l := TrimLeft(s);
    var r := TrimRight(l);
    TrimLeftCut(s);
    TrimRightCut(l);
    TrimSpaceParts(s, l, r);
    r
  }

  /** The trimmed string is the block s[k..k + |r|], and everything around it is white space. */
  lemma TrimSpaceBlock(s: string)
    ensures var r := TrimSpace(s);
      exists k :: 0 <= k <= |s| - |r| && s[k..k + |r|] == r && AllSpace(s[..k]) && AllSpace(s[k + |r|..])
  {
    var l := TrimLeft(s);
    var r := TrimRight(l);
    TrimLeftCut(s);
    TrimRightCut(l);
    TrimSpaceParts(s, l, r);
    assert r == TrimSpace(s);
  }

  /**
   * Cutting white space off the left of s (leaving l) and then off the right
   * of l (leaving r) leaves a block of s with only white space around it.
   */
  lemma TrimSpaceParts(s: string, l: string, r: string)
    requires |l| <= |s| && l == s[|s| - |l|..] && AllSpace(s[..|s| - |l|])
    requires l != [] ==> !IsSpace(l[0])
    requires |r| <= |l| && r == l[..|r|] && AllSpace(l[|r|..])
    requires r != [] ==> !IsSpace(r[|r| - 1])
    ensures var k := |s| - |l|; 0 <= k <= |s| - |r| && s[k..k + |r|] == r
                                && AllSpace(s[..k]) && AllSpace(s[k + |r|..])
    ensures r == [] <==> AllSpace(s)
  {
    var k := |s| - |l|;
    assert l == s[k..];
    assert r == l[..|r|];
    assert s[k..k + |r|] == r;
    assert s[k + |r|..] == l[|r|..];
    if r == [] {
      AllSpaceConcat(s[..k], l);
      assert s == s[..k] + l;
    } else {
      assert s[k] == r[0];
    }
  }

  /** White space followed by white space is white space. */
  lemma AllSpaceConcat(a: string, b: string)
    requires AllSpace(a) && AllSpace(b)
    ensures AllSpace(a + b)
  {
    forall i | 0 <= i < |a + b| ensures IsSpace((a + b)[i]) {
      if i >= |a| { assert (a + b)[i] == b[i - |a|]; }
    }
  }

  /** TrimLeft removes exactly a white-space prefix that stops at a non-space. */
  lemma {:induction false} TrimLeftOf(pre: string, t: string)
    requires AllSpace(pre) && (t != [] ==> !IsSpace(t[0]))
    ensures TrimLeft(pre + t) == t
  {
    if pre != [] {
      assert (pre + t)[1..] == pre[1..] + t;
      TrimLeftOf(pre[1..], t);
    } else {
      assert pre + t == t;
    }
  }

  /** TrimRight removes exactly a white-space suffix that follows a non-space. */
  lemma {:induction false} TrimRightOf(t: string, post: string)
    requires AllSpace(post) && (t != [] ==> !IsSpace(t[|t| - 1]))
    ensures TrimRight(t + post) == t
  {
    if post != [] {
      var u := t + post;
      assert u[..|u| - 1] == t + post[..|post| - 1];
      TrimRightOf(t, post[..|post| - 1]);
    } else {
      assert t + post == t;
    }
  }

  /** Trimming a block that has only white space around it gives the block. */
  lemma TrimSpaceOf(pre: string, s: string, post: string)
    requires AllSpace(pre) && AllSpace(post)
    requires s != [] && !IsSpace(s[0]) && !IsSpace(s[|s| - 1])
    ensures TrimSpace(pre + s + post) == s
  {
    assert pre + s + post == pre + (s + post);
    TrimLeftOf(pre, s + post);
    TrimRightOf(s, post);
  }

  /** Trimming a string with no white space at either end changes nothing. */
  lemma TrimSpaceOfTrimmed(s: string)
    requires s != [] ==> !IsSpace(s[0]) && !IsSpace(s[|s| - 1])
    ensures TrimSpace(s) == s
  {
  }

  /** strings.TrimSpace is idempotent. */
  lemma TrimSpaceIdempotent(s: string)
    ensures TrimSpace(TrimSpace(s)) == TrimSpace(s)
  {
    TrimSpaceOfTrimmed(TrimSpace(s));
  }

  /** strings.HasPrefix. */
  predicate HasPrefix(s: string, prefix: string)
  {
    |prefix| <= |s| && s[..|prefix|] == prefix
  }

  /** strings.TrimPrefix: s without prefix when it starts with it, else s. */
  function TrimPrefix(s: string, prefix: string): (r: string)
    ensures HasPrefix(s, prefix) ==> prefix + r == s
    ensures !HasPrefix(s, prefix) ==> r == s
  {
    if HasPrefix(s, prefix) then s[|prefix|..] else s
  }

  /** strings.Index(s, string([c])): the first position of c in s, or -1. */
  function Index(s: string, c: char): (r: int)
    ensures -1 <= r < |s|
    ensures r == -1 <==> c !in s
    ensures r >= 0 ==> s[r] == c && c !in s[..r]
  {
    if |s| == 0 then -1
    else if s[0] == c then 0
    else
      var k := Index(s[1..], c);
      assert s[1..][..k + 1] == s[1..k + 2] by { }
      if k == -1 then -1 else k + 1
  }

  /**
   * Simple case folding of one code point: ASCII letters, plus the two
   * non-ASCII code points that Unicode folds onto ASCII letters
   * (U+017F LONG S onto 's', U+212A KELVIN SIGN onto 'k').
   */
  function Fold(c: char): char
  {
    if 'A' <= c <= 'Z' then (c as int + 32) as char
    else if c == '\U{017F}' then 's'
    else if c == '\U{212A}' then 'k'
    else c
  }

  /** strings.EqualFold, restricted to the folding of Fold. */
  predicate EqualFold(a: string, b: string)
  {
    |a| == |b| && forall i :: 0 <= i < |a| ==> Fold(a[i]) == Fold(b[i])
  }

  /** strings.ToUpper, on ASCII letters. */
  function ToUpper(s: string): (r: string)
    ensures |r| == |s|
    ensures forall i :: 0 <= i < |s| ==> r[i] == (if 'a' <= s[i] <= 'z' then (s[i] as int - 32) as char else s[i])
  {
    seq(|s|, i requires 0 <= i < |s| => if 'a' <= s[i] <= 'z' then (s[i] as int - 32) as char else s[i])
  }

  /** Upper-casing twice is upper-casing once. */
  lemma ToUpperIdempotent(s: string)
    ensures ToUpper(ToUpper(s)) == ToUpper(s)
  {
    var u := ToUpper(s);
    forall i | 0 <= i < |u| ensures ToUpper(u)[i] == u[i] {
      if 'a' <= s[i] <= 'z' {
        assert u[i] == (s[i] as int - 32) as char;
      }
    }
  }

  /** Upper-casing is invisible to EqualFold. */
  lemma EqualFoldToUpper(v: string, t: string)
    ensures EqualFold(ToUpper(v), t) <==> EqualFold(v, t)
  {
    var u := ToUpper(v);
    forall i | 0 <= i < |v| ensures Fold(u[i]) == Fold(v[i]) {
      if 'a' <= v[i] <= 'z' {
        assert u[i] == (v[i] as int - 32) as char;
      } else {
        assert u[i] == v[i];
      }
    }
  }

  /** Upper-casing leaves white space where it was. */
  lemma AllSpaceToUpper(v: string)
    ensures AllSpace(ToUpper(v)) <==> AllSpace(v)
  {
    var u := ToUpper(v);
    forall i | 0 <= i < |v| ensures IsSpace(u[i]) <==> IsSpace(v[i]) {
      if 'a' <= v[i] <= 'z' {
        assert !IsSpace(v[i]) && !IsSpace(u[i]);
      }
    }
  }

  /** strings.Join. */
  function Join(parts: seq<string>, sep: string): string
  {
    if |parts| == 0 then ""
    else if |parts| == 1 then parts[0]
    else parts[0] + sep + Join(parts[1..], sep)
  }

  /** Joining one more part adds the separator and the part at the end. */
  lemma {:induction false} JoinSnoc(parts: seq<string>, p: string, sep: string)
    requires |parts| > 0
    ensures Join(parts + [p], sep) == Join(parts, sep) + sep + p
  {
    if |parts| > 1 {
      assert (parts + [p])[1..] == parts[1..] + [p];
      JoinSnoc(parts[1..], p, sep);
    }
  }

  /** Every part occurs in the joined string. */
  lemma {:induction false} JoinContainsPart(parts: seq<string>, sep: string, i: nat)
    requires i < |parts|
    ensures IsInfix(parts[i], Join(parts, sep))
  {
    var s := Join(parts, sep);
    if |parts| == 1 || i == 0 {
      assert InfixAt(parts[i], s, 0);
    } else {
      JoinContainsPart(parts[1..], sep, i - 1);
      var rest := Join(parts[1..], sep);
      var k :| InfixAt(parts[i], rest, k);
      var off := |parts[0]| + |sep|;
      assert s == parts[0] + sep + rest;
      assert s[off + k..off + k + |parts[i]|] == rest[k..k + |parts[i]|];
      assert InfixAt(parts[i], s, off + k);
    }
  }

  /** An infix of an infix is an infix. */
  lemma InfixTransitive(a: string, b: string, c: string)
    requires IsInfix(a, b) && IsInfix(b, c)
    ensures IsInfix(a, c)
  {
    var k1 :| InfixAt(a, b, k1);
    var k2 :| InfixAt(b, c, k2);
    forall j | 0 <= j < |a| ensures c[k2 + k1 + j] == a[j] {
      assert a[j] == b[k1..k1 + |a|][j] == b[k1 + j];
      assert b[k1 + j] == c[k2..k2 + |b|][k1 + j];
    }
    assert c[k2 + k1..k2 + k1 + |a|] == a;
    assert InfixAt(a, c, k2 + k1);
  }
}
