/** The two string operations the catalog query relies on, with the meaning
    ECMAScript gives them: `String.prototype.trim` and
    `String.prototype.includes`. Strings are sequences of Unicode scalar
    values. */
module Text {

  /** WhiteSpace and LineTerminator code points of ECMA-262 (sections 12.2
      and 12.3): TAB, VT, FF, ZWNBSP, the space separators (category Zs) and
      LF, CR, LS, PS. ZWNJ (U+200C), common inside Persian words, is not one. */
  predicate IsWhitespace(c: char) {
    || c == '\t' || c == '\U{000B}' || c == '\U{000C}' || c == '\U{FEFF}'
    || c == ' ' || c == '\U{00A0}' || c == '\U{1680}'
    || ('\U{2000}' <= c <= '\U{200A}')
    || c == '\U{202F}' || c == '\U{205F}' || c == '\U{3000}'
    || c == '\n' || c == '\r' || c == '\U{2028}' || c == '\U{2029}'
  }

  predicate AllWhitespace(s: string) {
    forall i :: 0 <= i < |s| ==> IsWhitespace(s[i])
  }

  /** Drops leading whitespace: what remains is a suffix of `s`, and what was
      dropped is all whitespace. */
  function TrimStart(s: string): (r: string)
    ensures |r| <= |s| && r == s[|s| - |r|..] && AllWhitespace(s[..|s| - |r|])
    ensures r == [] || !IsWhitespace(r[0])
  {
    if s != [] && IsWhitespace(s[0]) then
      var r := TrimStart(s[1..]);
      ghost var n := |s| - |r|;
      assert r == s[n..] by { assert s[1..][n - 1..] == s[n..]; }
      assert AllWhitespace(s[..n]) by {
        assert forall k :: 0 < k < n ==> s[..n][k] == s[1..][..n - 1][k - 1];
      }
      r
    else
      s
  }

  /** Drops trailing whitespace: what remains is a prefix of `s`, and what
      was dropped is all whitespace. */
  function TrimEnd(s: string): (r: string)
    ensures |r| <= |s| && r == s[..|r|] && AllWhitespace(s[|r|..])
    ensures r == [] || !IsWhitespace(r[|r| - 1])
  {
    if s != [] && IsWhitespace(s[|s| - 1]) then
      var init := s[..|s| - 1];
      var r := TrimEnd(init);
      ghost var n := |r|;
      assert r == s[..n];
      assert AllWhitespace(s[n..]) by {
        assert forall k :: 0 <= k < |s| - 1 - n ==> s[n..][k] == init[n..][k];
      }
      r
    else
      s
  }

  /** `String.prototype.trim`: whitespace removed from both ends. */
  function Trim(s: string): (r: string)
    ensures exists i, j :: 0 <= i <= j <= |s| && r == s[i..j]
                        && AllWhitespace(s[..i]) && AllWhitespace(s[j..])
    ensures r == [] || (!IsWhitespace(r[0]) && !IsWhitespace(r[|r| - 1]))
  {
    var t := TrimStart(s);
    var r := TrimEnd(t);
    ghost var i := |s| - |t|;
    assert r == s[i..i + |r|];
    assert s[i + |r|..] == t[|r|..];
    r
  }

  /** The whole string is whitespace exactly when trimming leaves nothing, so
      a query made only of spaces becomes the empty search. */
  lemma TrimEmptyIff(s: string)
    ensures Trim(s) == [] <==> AllWhitespace(s)
  {
    var r := Trim(s);
    var i, j :| 0 <= i <= j <= |s| && r == s[i..j]
             && AllWhitespace(s[..i]) && AllWhitespace(s[j..]);
    if r == [] {
      forall k | 0 <= k < |s| ensures IsWhitespace(s[k]) {
        if k < i { assert s[k] == s[..i][k]; } else { assert s[k] == s[j..][k - j]; }
      }
    }
  }

  /** A string with no whitespace at either end is its own trim. */
  lemma TrimUnpadded(s: string)
    requires s != [] ==> !IsWhitespace(s[0]) && !IsWhitespace(s[|s| - 1])
    ensures Trim(s) == s
  {
  }

  /** Trimming a trimmed string changes nothing. */
  lemma TrimIdempotent(s: string)
    ensures Trim(Trim(s)) == Trim(s)
  {
    var r := Trim(s);
    var r2 := Trim(r);
    var i, j :| 0 <= i <= j <= |r| && r2 == r[i..j]
             && AllWhitespace(r[..i]) && AllWhitespace(r[j..]);
  }

  /** `q` occurs in `s` starting at index `i`. */
  predicate OccursAt(s: string, q: string, i: int) {
    0 <= i && i + |q| <= |s| && s[i..i + |q|] == q
  }

  /** `String.prototype.includes`, as a left-to-right search for `q`. */
  function Includes(s: string, q: string): bool
  {
    if |q| > |s| then false
    else if s[..|q|] == q then true
    else Includes(s[1..], q)
  }

  /** The search finds `q` exactly when `q` occurs at some index of `s`; in
      particular every string includes the empty string. */
  lemma {:induction false} IncludesIff(s: string, q: string)
    ensures Includes(s, q) <==> exists i :: OccursAt(s, q, i)
  {
    if |q| > |s| {
    } else if s[..|q|] == q {
      assert OccursAt(s, q, 0);
    } else {
      IncludesIff(s[1..], q);
      if Includes(s[1..], q) {
        var i :| OccursAt(s[1..], q, i);
        assert s[i + 1..i + 1 + |q|] == s[1..][i..i + |q|];
        assert OccursAt(s, q, i + 1);
      } else {
        forall i | OccursAt(s, q, i) ensures false {
          assert i != 0;
          assert s[1..][i - 1..i - 1 + |q|] == s[i..i + |q|];
          assert OccursAt(s[1..], q, i - 1);
        }
      }
    }
  }

  /** A string lacking one of the characters of `q` does not include `q`. */
  lemma IncludesNeedsChar(s: string, q: string, k: nat)
    requires k < |q| && q[k] !in s
    ensures !Includes(s, q)
  {
    IncludesIff(s, q);
  }

  lemma IncludesEmpty(s: string)
    ensures Includes(s, "")
  {
    IncludesIff(s, "");
    assert OccursAt(s, "", 0);
  }
}
