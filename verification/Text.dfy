/** The string operations the configuration parser relies on. */
module Text {
  /** `char::is_whitespace`: the Unicode White_Space property. */
  predicate IsWhitespace(c: char) {
    || '\t' <= c <= '\r' || c == ' ' || c == '\U{85}' || c == '\U{A0}' || c == '\U{1680}'
    || '\U{2000}' <= c <= '\U{200A}' || c == '\U{2028}' || c == '\U{2029}' || c == '\U{202F}'
    || c == '\U{205F}' || c == '\U{3000}'
  }

  predicate Blank(s: string) {
    forall c :: c in s ==> IsWhitespace(c)
  }

  function TrimStart(s: string): string {
    if s == "" || !IsWhitespace(s[0]) then s else TrimStart(s[1..])
  }

  function TrimEnd(s: string): string {
    if s == "" || !IsWhitespace(s[|s| - 1]) then s else TrimEnd(s[..|s| - 1])
  }

  function Trim(s: string): string {
    TrimEnd(TrimStart(s))
  }

  /** `strip_prefix` succeeds. */
  predicate StartsWith(s: string, prefix: string) {
    prefix <= s
  }

  /** Where `needle` first occurs in `s`, or -1: `str::find`. */
  function Find(s: string, needle: string): (k: int)
    ensures -1 <= k <= |s|
    ensures k >= 0 ==> k + |needle| <= |s| && s[k..k + |needle|] == needle
  {
    if StartsWith(s, needle) then 0
    else if s == "" then -1
    else
      var k := Find(s[1..], needle);
      if k < 0 then -1 else k + 1
  }

  lemma {:induction false} TrimStartVisible(s: string)
    ensures TrimStart(s) != "" ==> !IsWhitespace(TrimStart(s)[0])
  {
    if s != "" && IsWhitespace(s[0]) {
      TrimStartVisible(s[1..]);
    }
  }

  lemma {:induction false} TrimEndPrefix(s: string)
    ensures TrimEnd(s) <= s
  {
    if s != "" && IsWhitespace(s[|s| - 1]) {
      TrimEndPrefix(s[..|s| - 1]);
    }
  }

  lemma {:induction false} TrimStartBlank(w: string, s: string)
    requires Blank(w)
    ensures TrimStart(w + s) == TrimStart(s)
  {
    if w == "" {
      assert w + s == s;
    } else {
      assert w[0] in w && (w + s)[1..] == w[1..] + s;
      assert Blank(w[1..]);
      TrimStartBlank(w[1..], s);
    }
  }

  lemma {:induction false} TrimEndBlank(s: string, w: string)
    requires Blank(w)
    ensures TrimEnd(s + w) == TrimEnd(s)
  {
    if w == "" {
      assert s + w == s;
    } else {
      var n := |w| - 1;
      assert w[n] in w && (s + w)[..|s + w| - 1] == s + w[..n];
      assert Blank(w[..n]);
      TrimEndBlank(s, w[..n]);
    }
  }

  lemma {:induction false} TrimStartAppend(s: string, t: string)
    requires TrimStart(s) != ""
    ensures TrimStart(s + t) == TrimStart(s) + t
  {
    if IsWhitespace(s[0]) {
      assert (s + t)[1..] == s[1..] + t;
      TrimStartAppend(s[1..], t);
    }
  }

  lemma {:induction false} BlankTrims(s: string)
    ensures Blank(s) <==> TrimStart(s) == ""
  {
    if s != "" && IsWhitespace(s[0]) {
      BlankTrims(s[1..]);
      assert s == [s[0]] + s[1..];
    } else if s != "" {
      assert s[0] in s;
    }
  }

  lemma {:induction false} TrimEndEmpty(s: string)
    requires s != "" && !IsWhitespace(s[0])
    ensures TrimEnd(s) != ""
  {
    if IsWhitespace(s[|s| - 1]) {
      TrimEndEmpty(s[..|s| - 1]);
    }
  }

  lemma TrimmedEmptyIffBlank(s: string)
    ensures Trim(s) == "" <==> Blank(s)
  {
    BlankTrims(s);
    if TrimStart(s) != "" {
      TrimStartVisible(s);
      TrimEndEmpty(TrimStart(s));
    }
  }

  /** Surrounding white space never changes what trimming leaves. */
  lemma TrimPadded(left: string, s: string, right: string)
    requires Blank(left) && Blank(right)
    ensures Trim(left + s + right) == Trim(s)
  {
    assert left + s + right == left + (s + right);
    TrimStartBlank(left, s + right);
    BlankTrims(s);
    if TrimStart(s) == "" {
      assert Blank(s + right);
      BlankTrims(s + right);
    } else {
      TrimStartAppend(s, right);
      TrimEndBlank(TrimStart(s), right);
    }
  }

  /** `needle` occurs at k and nowhere before. */
  predicate FirstAt(s: string, needle: string, k: nat) {
    && k + |needle| <= |s| && s[k..k + |needle|] == needle
    && forall i :: 0 <= i < k ==> !Occurs(s, needle, i)
  }

  predicate Occurs(s: string, needle: string, i: nat) {
    i + |needle| <= |s| && s[i..i + |needle|] == needle
  }

  /** `Find` finds the first occurrence. */
  lemma {:induction false} FindFirst(s: string, needle: string, k: nat)
    requires FirstAt(s, needle, k)
    ensures Find(s, needle) == k
    decreases |s|
  {
    assert Occurs(s, needle, 0) <==> StartsWith(s, needle) by {
      assert |needle| <= |s| ==> s[0..|needle|] == s[..|needle|];
    }
    if k > 0 {
      assert !Occurs(s, needle, 0);
      assert s[1..][k - 1..k - 1 + |needle|] == s[k..k + |needle|];
      forall i | 0 <= i < k - 1 ensures !Occurs(s[1..], needle, i) {
        assert !Occurs(s, needle, i + 1);
        assert i + 1 + |needle| <= |s| ==> s[1..][i..i + |needle|] == s[i + 1..i + 1 + |needle|];
      }
      FindFirst(s[1..], needle, k - 1);
    }
  }

  /** And nothing where there is none. */
  lemma FindNothing(s: string, needle: string)
    requires forall i :: 0 <= i <= |s| ==> !Occurs(s, needle, i)
    ensures Find(s, needle) < 0
  {
    assert Find(s, needle) >= 0 ==> Occurs(s, needle, Find(s, needle));
  }

  /** What comes after an occurrence does not matter. */
  lemma FirstAtExtends(s: string, t: string, needle: string, k: nat)
    requires FirstAt(s, needle, k) && k + |needle| == |s|
    ensures FirstAt(s + t, needle, k)
  {
    assert (s + t)[k..k + |needle|] == s[k..k + |needle|];
    forall i | 0 <= i < k ensures !Occurs(s + t, needle, i) {
      assert !Occurs(s, needle, i);
      assert (s + t)[i..i + |needle|] == s[i..i + |needle|];
    }
  }

  lemma {:induction false} TrimEndAfter(p: string, s: string)
    requires p != "" && !IsWhitespace(p[|p| - 1])
    ensures TrimEnd(p + s) == p + TrimEnd(s)
  {
    if s == "" {
      assert p + s == p;
    } else if IsWhitespace(s[|s| - 1]) {
      assert (p + s)[..|p + s| - 1] == p + s[..|s| - 1];
      TrimEndAfter(p, s[..|s| - 1]);
    }
  }

  /** A text with no white space at either end is its own trim. */
  lemma NothingToTrim(s: string)
    requires s != "" && !IsWhitespace(s[0]) && !IsWhitespace(s[|s| - 1])
    ensures Trim(s) == s
  {
  }
}
