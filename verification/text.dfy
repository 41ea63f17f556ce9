/**
 * String operations the source gets from JavaScript's runtime: the `\s`
 * whitespace class, `trim`, `replace(/\s+/g, " ")`, `slice(0, n)` and ASCII
 * case conversion.
 */
module Text {
  import Seqs

  /** A character matched by `\s` and removed by `trim` (the ASCII ones). */
  predicate IsSpace(c: char) {
    c == ' ' || c == '\t' || c == '\n' || c == '\r' || c == '\U{000B}' || c == '\U{000C}'
  }

  predicate IsLowerLetter(c: char) {
    'a' <= c <= 'z'
  }

  predicate IsUpperLetter(c: char) {
    'A' <= c <= 'Z'
  }

  function UpperChar(c: char): (u: char)
    ensures !IsLowerLetter(u)
    ensures IsSpace(u) <==> IsSpace(c)
    ensures u == ' ' <==> c == ' '
    ensures !IsLowerLetter(c) ==> u == c
  {
    if IsLowerLetter(c) then (c as int - 32) as char else c
  }

  function LowerChar(c: char): (l: char)
    ensures !IsUpperLetter(l)
    ensures IsSpace(l) <==> IsSpace(c)
    ensures !IsUpperLetter(c) ==> l == c
  {
    if IsUpperLetter(c) then (c as int + 32) as char else c
  }

  /** `toUpperCase`, restricted to ASCII letters. */
  function ToUpper(s: string): (r: string)
    ensures |r| == |s|
    ensures forall i :: 0 <= i < |s| ==> r[i] == UpperChar(s[i])
  {
    seq(|s|, i requires 0 <= i < |s| => UpperChar(s[i]))
  }

  /** `toLowerCase`, restricted to ASCII letters. */
  function ToLower(s: string): (r: string)
    ensures |r| == |s|
    ensures forall i :: 0 <= i < |s| ==> r[i] == LowerChar(s[i])
  {
    seq(|s|, i requires 0 <= i < |s| => LowerChar(s[i]))
  }

  predicate NoLowerLetter(s: string) {
    forall i :: 0 <= i < |s| ==> !IsLowerLetter(s[i])
  }

  lemma ToUpperNoLowerIsIdentity(s: string)
    requires NoLowerLetter(s)
    ensures ToUpper(s) == s
  {
  }

  lemma ToUpperAppend(a: string, b: string)
    ensures ToUpper(a + b) == ToUpper(a) + ToUpper(b)
  {
  }

  lemma ToLowerAppend(a: string, b: string)
    ensures ToLower(a + b) == ToLower(a) + ToLower(b)
  {
  }

  /** Lower-casing forgets the case the text was written in. */
  lemma ToLowerOfToUpper(s: string)
    ensures ToLower(ToUpper(s)) == ToLower(s)
  {
    forall i | 0 <= i < |s|
      ensures ToLower(ToUpper(s))[i] == ToLower(s)[i]
    {
      var c := s[i];
      if IsLowerLetter(c) {
        assert UpperChar(c) as int == c as int - 32;
        assert LowerChar(UpperChar(c)) as int == c as int;
      }
    }
  }

  predicate AllSpace(s: string) {
    forall i :: 0 <= i < |s| ==> IsSpace(s[i])
  }

  /** Number of whitespace characters `s` starts with. */
  function LeadingSpaces(s: string): (k: nat)
    ensures k <= |s|
    ensures AllSpace(s[..k])
    ensures k < |s| ==> !IsSpace(s[k])
  {
    if |s| > 0 && IsSpace(s[0]) then
      var k := 1 + LeadingSpaces(s[1..]);
      assert forall i :: 1 <= i < k ==> s[..k][i] == s[1..][..k - 1][i - 1];
      k
    else 0
  }

  /** Where the whitespace `s` ends with begins. */
  function TrailingSpacesStart(s: string): (k: nat)
    ensures k <= |s|
    ensures AllSpace(s[k..])
    ensures k > 0 ==> !IsSpace(s[k - 1])
  {
    if |s| > 0 && IsSpace(s[|s| - 1]) then
      var k := TrailingSpacesStart(s[..|s| - 1]);
      assert s[k..] == s[..|s| - 1][k..] + [s[|s| - 1]];
      k
    else |s|
  }

  /** `replace(/^\s+/, "")`: drops the leading whitespace. */
  function TrimStart(s: string): (r: string)
    ensures r == [] || !IsSpace(r[0])
    ensures |s| > 0 && IsSpace(s[0]) ==> |r| < |s|
  {
    s[LeadingSpaces(s)..]
  }

  /** Drops the trailing whitespace. */
  function TrimEnd(s: string): (r: string)
    ensures r == [] || !IsSpace(r[|r| - 1])
  {
    s[..TrailingSpacesStart(s)]
  }

  /** `trim`: the text between the leading and the trailing whitespace. */
  function Trim(s: string): (r: string)
    ensures |r| <= |s|
    ensures r == [] || (!IsSpace(r[0]) && !IsSpace(r[|r| - 1]))
  {
    var t := TrimStart(s);
    var r := TrimEnd(t);
    assert r != [] ==> r[0] == t[0];
    r
  }

  /** `trim` keeps a contiguous slice and drops only whitespace around it. */
  lemma TrimIsSlice(s: string)
    ensures var a := LeadingSpaces(s);
      && a + |Trim(s)| <= |s|
      && Trim(s) == s[a..a + |Trim(s)|]
      && AllSpace(s[..a])
      && AllSpace(s[a + |Trim(s)|..])
  {
    var a := LeadingSpaces(s);
    var b := TrailingSpacesStart(s[a..]);
    TrimUnfolds(s);
    SliceOfSlice(s, a, b);
    TailSpaces(s, a, b);
  }

  lemma SliceOfSlice(s: string, a: nat, b: nat)
    requires a + b <= |s|
    ensures s[a..][..b] == s[a..a + b]
  {
  }

  lemma TailSpaces(s: string, a: nat, b: nat)
    requires a + b <= |s| && AllSpace(s[a..][b..])
    ensures AllSpace(s[a + b..])
  {
    assert s[a..][b..] == s[a + b..];
  }

  lemma TrimUnfolds(s: string)
    ensures Trim(s) == s[LeadingSpaces(s)..][..TrailingSpacesStart(s[LeadingSpaces(s)..])]
  {
  }

  lemma TrimStartOfNonSpace(s: string)
    requires s == [] || !IsSpace(s[0])
    ensures TrimStart(s) == s
  {
  }

  lemma TrimEndOfNonSpace(s: string)
    requires s == [] || !IsSpace(s[|s| - 1])
    ensures TrimEnd(s) == s
  {
  }

  lemma {:induction false} TrimStartSkipsSpaces(pre: string, s: string)
    requires AllSpace(pre)
    ensures TrimStart(pre + s) == TrimStart(s)
    decreases |pre|
  {
    if |pre| > 0 {
      assert (pre + s)[1..] == pre[1..] + s;
      TrimStartSkipsSpaces(pre[1..], s);
    } else {
      assert pre + s == s;
    }
  }

  lemma {:induction false} TrimEndSkipsSpaces(s: string, post: string)
    requires AllSpace(post)
    ensures TrimEnd(s + post) == TrimEnd(s)
    decreases |post|
  {
    if |post| > 0 {
      assert (s + post)[..|s + post| - 1] == s + post[..|post| - 1];
      TrimEndSkipsSpaces(s, post[..|post| - 1]);
    } else {
      assert s + post == s;
    }
  }

  lemma {:induction false} TrimStartAppend(s: string, post: string)
    ensures TrimStart(s + post) == if TrimStart(s) == [] then TrimStart(post) else TrimStart(s) + post
    decreases |s|
  {
    if |s| == 0 {
      assert s + post == post;
    } else if IsSpace(s[0]) {
      assert (s + post)[1..] == s[1..] + post;
      TrimStartAppend(s[1..], post);
    }
  }

  /** Whitespace around a text does not survive `trim`. */
  lemma TrimIgnoresPadding(pre: string, s: string, post: string)
    requires AllSpace(pre) && AllSpace(post)
    ensures Trim(pre + s + post) == Trim(s)
  {
    assert pre + s + post == pre + (s + post);
    TrimStartSkipsSpaces(pre, s + post);
    TrimStartAppend(s, post);
    if TrimStart(s) == [] {
      assert TrimStart(post) == [] by {
        TrimStartSkipsSpaces(post, []);
        assert post + [] == post;
      }
    } else {
      TrimEndSkipsSpaces(TrimStart(s), post);
    }
  }

  /** Every whitespace character is a plain space and no two spaces are adjacent. */
  predicate SingleSpaced(s: string) {
    && (forall i :: 0 <= i < |s| && IsSpace(s[i]) ==> s[i] == ' ')
    && (forall i :: 0 <= i < |s| - 1 ==> !(s[i] == ' ' && s[i + 1] == ' '))
  }

  /** `replace(/\s+/g, " ")`: every run of whitespace becomes one space. */
  function Collapse(s: string): (r: string)
    ensures SingleSpaced(r)
    ensures |r| <= |s|
    ensures (|r| > 0 && r[0] == ' ') <==> (|s| > 0 && IsSpace(s[0]))
    ensures |r| == 0 <==> |s| == 0
    decreases |s|
  {
    if |s| == 0 then []
    else if IsSpace(s[0]) then [' '] + Collapse(TrimStart(s))
    else [s[0]] + Collapse(s[1..])
  }

  /** Collapsing already single-spaced text changes nothing. */
  lemma {:induction false} CollapseOfSingleSpaced(s: string)
    requires SingleSpaced(s)
    ensures Collapse(s) == s
    decreases |s|
  {
    if |s| > 0 {
      assert SingleSpaced(s[1..]);
      if IsSpace(s[0]) {
        assert s[0] == ' ';
        assert TrimStart(s) == TrimStart(s[1..]);
        TrimStartOfNonSpace(s[1..]);
        CollapseOfSingleSpaced(s[1..]);
        assert s == [' '] + s[1..];
      } else {
        CollapseOfSingleSpaced(s[1..]);
        assert s == [s[0]] + s[1..];
      }
    }
  }

  /** `trim` leaves nothing exactly when the text is all whitespace. */
  lemma TrimEmptyIffAllSpace(s: string)
    ensures Trim(s) == [] <==> AllSpace(s)
  {
    TrimIsSlice(s);
    var a := LeadingSpaces(s);
    if Trim(s) == [] {
      AllSpaceJoin(s, a);
    }
  }

  lemma AllSpaceJoin(s: string, a: nat)
    requires a <= |s| && AllSpace(s[..a]) && AllSpace(s[a..])
    ensures AllSpace(s)
  {
    assert s == s[..a] + s[a..];
  }

  /** Collapsing whitespace keeps a text all whitespace, or not. */
  lemma {:induction false} CollapseAllSpace(s: string)
    ensures AllSpace(Collapse(s)) <==> AllSpace(s)
    decreases |s|
  {
    if |s| > 0 {
      if IsSpace(s[0]) {
        var k := LeadingSpaces(s);
        var c := Collapse(TrimStart(s));
        CollapseAllSpace(TrimStart(s));
        assert Collapse(s) == [' '] + c;
        assert forall i :: 0 <= i < |c| ==> ([' '] + c)[i + 1] == c[i];
        assert forall i :: 0 <= i < |s| - k ==> s[k + i] == TrimStart(s)[i];
        assert forall i :: 0 <= i < k ==> s[i] == s[..k][i];
      } else {
        assert Collapse(s)[0] == s[0];
      }
    }
  }

  /** Single-spaced text ends with at most one space, which `TrimEnd` drops. */
  lemma SingleSpacedTrimEnd(t: string)
    requires SingleSpaced(t)
    ensures t == TrimEnd(t) || t == TrimEnd(t) + " "
  {
    var k := TrailingSpacesStart(t);
    if |t| - k >= 2 {
      SpaceInTail(t, k, k);
      SpaceInTail(t, k, k + 1);
      assert false;
    } else if |t| - k == 1 {
      assert IsSpace(t[k..][0]);
      assert t == t[..k] + [t[k]];
    }
  }

  lemma SpaceInTail(t: string, k: nat, j: nat)
    requires SingleSpaced(t) && k <= j < |t| && AllSpace(t[k..])
    ensures t[j] == ' '
  {
    assert t[j] == t[k..][j - k];
  }

  lemma SingleSpacedSlice(s: string, i: nat, j: nat)
    requires SingleSpaced(s) && i <= j <= |s|
    ensures SingleSpaced(s[i..j])
  {
  }

  /** `String(s ?? "").trim().slice(0, max)` */
  function CleanString(s: string, max: nat): (r: string)
    ensures |r| <= max
    ensures r == [] || !IsSpace(r[0])
    ensures LeadingSpaces(s) + |r| <= |s|
    ensures r == s[LeadingSpaces(s)..LeadingSpaces(s) + |r|]
    ensures max > 0 ==> (r == [] <==> Trim(s) == [])
    ensures |r| == if |Trim(s)| <= max then |Trim(s)| else max
  {
    var t := Trim(s);
    var r := Seqs.Take(t, max);
    TrimIsSlice(s);
    var k := LeadingSpaces(s);
    assert r == s[k..k + |r|];
    r
  }

  /** Whitespace around a text changes nothing `cleanString` keeps. */
  lemma CleanStringIgnoresPadding(pre: string, s: string, post: string, max: nat)
    requires AllSpace(pre) && AllSpace(post)
    ensures CleanString(pre + s + post, max) == CleanString(s, max)
  {
    TrimIgnoresPadding(pre, s, post);
  }

  /** A trimmed text that fits is kept whole. */
  lemma CleanStringKeepsFittingText(s: string, max: nat)
    requires s == [] || (!IsSpace(s[0]) && !IsSpace(s[|s| - 1]))
    requires |s| <= max
    ensures CleanString(s, max) == s
  {
    TrimStartOfNonSpace(s);
    TrimEndOfNonSpace(s);
  }
}
