/** String helpers the sidebar relies on: JavaScript's `endsWith` and `trim`,
    over strings modelled as sequences of characters. */
module Text {

  type String = seq<char>

  /** `s.endsWith(suffix)`: the last |suffix| characters of s are suffix,
      character by character. */
  predicate IsSuffix(suffix: String, s: String)
    ensures IsSuffix(suffix, s) <==>
              |suffix| <= |s| && forall k :: 0 <= k < |suffix| ==> s[|s| - |suffix| + k] == suffix[k]
  {
    |suffix| <= |s| && s[|s| - |suffix|..] == suffix
  }

  /** prefix is the first |prefix| characters of s (used to state what
      `TrimEnd` and `Combine` keep). */
  predicate IsPrefix(prefix: String, s: String)
  {
    |prefix| <= |s| && s[..|prefix|] == prefix
  }

  /** Two suffixes of one string nest: the shorter is a suffix of the longer. */
  lemma SuffixesNest(a: String, b: String, s: String)
    requires IsSuffix(a, s) && IsSuffix(b, s) && |a| <= |b|
    ensures IsSuffix(a, b)
  {
    forall k | 0 <= k < |a|
      ensures b[|b| - |a| + k] == a[k]
    {
      assert b[|b| - |a| + k] == s[|s| - |a| + k];
      assert s[|s| - |a| + k] == a[k];
    }
  }

  /** The characters ECMAScript's `String.prototype.trim` removes: the WhiteSpace
      code points (TAB, VT, FF, SPACE, NO-BREAK SPACE, ZERO WIDTH NO-BREAK SPACE
      and the other space separators of category Zs) and the LineTerminator code
      points (LF, CR, LINE SEPARATOR, PARAGRAPH SEPARATOR). */
  predicate IsWhitespace(c: char)
  {
    c == '\t' || c == '\n' || c == '\U{000B}' || c == '\U{000C}' || c == '\r' ||
    c == ' ' || c == '\U{00A0}' || c == '\U{1680}' ||
    ('\U{2000}' <= c <= '\U{200A}') ||
    c == '\U{2028}' || c == '\U{2029}' || c == '\U{202F}' || c == '\U{205F}' ||
    c == '\U{3000}' || c == '\U{FEFF}'
  }

  /** Positions lo up to hi of s hold only whitespace. */
  predicate WhitespaceBetween(s: String, lo: nat, hi: nat)
  {
    lo <= hi <= |s| && forall k :: lo <= k < hi ==> IsWhitespace(s[k])
  }

  predicate AllWhitespace(s: String)
  {
    WhitespaceBetween(s, 0, |s|)
  }

  /** Leading whitespace removed: what is left is a suffix of s that does not
      start with whitespace, and everything cut off was whitespace. */
  function TrimStart(s: String): (r: String)
    ensures IsSuffix(r, s)
    ensures WhitespaceBetween(s, 0, |s| - |r|)
    ensures r == [] || !IsWhitespace(r[0])
  {
    if |s| > 0 && IsWhitespace(s[0]) then TrimStart(s[1..]) else s
  }

  /** Trailing whitespace removed: what is left is a prefix of s that does not
      end with whitespace, and everything cut off was whitespace. */
  function TrimEnd(s: String): (r: String)
    ensures IsPrefix(r, s)
    ensures WhitespaceBetween(s, |r|, |s|)
    ensures r == [] || !IsWhitespace(r[|r| - 1])
  {
    if |s| > 0 && IsWhitespace(s[|s| - 1]) then TrimEnd(s[..|s| - 1]) else s
  }

  /** A piece s[i..j] with whitespace-only margins and no whitespace at
      either of its ends. */
  predicate IsTrimmedPiece(s: String, i: nat, j: nat)
  {
    WhitespaceBetween(s, 0, i) && WhitespaceBetween(s, j, |s|) && i <= j &&
    (i < j ==> !IsWhitespace(s[i]) && !IsWhitespace(s[j - 1]))
  }

  /** The number of whitespace characters s starts with. */
  function LeadingWhitespace(s: String): (n: nat)
    ensures WhitespaceBetween(s, 0, n)
    ensures n < |s| ==> !IsWhitespace(s[n])
  {
    var t := TrimStart(s);
    assert t != [] ==> t[0] == s[|s| - |t|];
    |s| - |t|
  }

  /** r is the piece of s that starts at i and has whitespace-only margins and
      non-whitespace ends. */
  predicate TrimmedAt(s: String, i: nat, r: String)
  {
    i + |r| <= |s| && IsTrimmedPiece(s, i, i + |r|) && r == s[i..i + |r|]
  }

  /** `s.trim()`: s with whitespace stripped from both ends. The result is
      the piece of s that starts after the leading whitespace and has
      whitespace-only margins and non-whitespace ends; it is empty exactly when
      s is all whitespace. */
  function Trim(s: String): (r: String)
    ensures TrimmedAt(s, LeadingWhitespace(s), r)
    ensures r == [] <==> AllWhitespace(s)
  {
    var t := TrimStart(s);
    var r := TrimEnd(t);
    TrimPieces(s, t, r);
    r
  }

  /** Cutting a whitespace margin off the front of s, leaving t, and then off
      the back of t, leaving r, leaves a trimmed piece of s. */
  lemma TrimPieces(s: String, t: String, r: String)
    requires IsSuffix(t, s) && WhitespaceBetween(s, 0, |s| - |t|)
    requires t == [] || !IsWhitespace(t[0])
    requires IsPrefix(r, t) && WhitespaceBetween(t, |r|, |t|)
    requires r == [] || !IsWhitespace(r[|r| - 1])
    ensures r == [] <==> AllWhitespace(s)
    ensures TrimmedAt(s, |s| - |t|, r)
  {
    var i := |s| - |t|;
    forall k | 0 <= k < |t| ensures t[k] == s[i + k] {
      assert t[k] == s[i..][k];
    }
    forall k | 0 <= k < |r| ensures r[k] == s[i + k] {
      assert r[k] == t[..|r|][k];
    }
    assert s[i..i + |r|] == r;
    if r == [] {
      assert t == [];
    }
  }

  /** Two non-empty trimmed pieces of one string are the same piece: a
      non-whitespace end of one cannot lie in a margin of the other. */
  lemma TrimmedPieceUnique(s: String, i: nat, j: nat, m: nat, n: nat)
    requires IsTrimmedPiece(s, i, j) && IsTrimmedPiece(s, m, n)
    requires i < j && m < n
    ensures i == m && j == n
  {
  }

  /** Trim is determined by its specification: any piece of s with
      whitespace-only margins and non-whitespace ends is what `trim` returns. */
  lemma TrimUnique(s: String, i: nat, j: nat)
    requires IsTrimmedPiece(s, i, j)
    ensures Trim(s) == s[i..j]
  {
    var r := Trim(s);
    var m := LeadingWhitespace(s);
    assert TrimmedAt(s, m, r);
    if i == j {
      assert AllWhitespace(s);
    } else {
      assert !IsWhitespace(s[i]);
      TrimmedPieceUnique(s, i, j, m, m + |r|);
    }
  }

  /** Trimming twice is trimming once. */
  lemma TrimIdempotent(s: String)
    ensures Trim(Trim(s)) == Trim(s)
  {
    var t := Trim(s);
    if t != [] {
      TrimUnique(t, 0, |t|);
    }
  }

  /** Whitespace appended to a string keeps each trimmed piece of it a
      trimmed piece. */
  lemma TrimmedPieceExtend(s: String, w: String, i: nat, j: nat)
    requires IsTrimmedPiece(s, i, j) && AllWhitespace(w)
    ensures IsTrimmedPiece(s + w, i, j) && (s + w)[i..j] == s[i..j]
  {
    var sw := s + w;
    forall k | |s| <= k < |sw| ensures IsWhitespace(sw[k]) {
      assert sw[k] == w[k - |s|];
    }
    assert sw[i..j] == s[i..j];
  }

  /** Whitespace appended at the end does not survive `trim`. */
  lemma TrimAppendWhitespace(s: String, w: String)
    requires AllWhitespace(w)
    ensures Trim(s + w) == Trim(s)
  {
    var r := Trim(s);
    var i := LeadingWhitespace(s);
    assert TrimmedAt(s, i, r);
    TrimmedPieceExtend(s, w, i, i + |r|);
    TrimUnique(s + w, i, i + |r|);
  }

}
