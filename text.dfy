/**
 * The string normalisation the services apply to e-mail addresses and names:
 * JavaScript's `String.prototype.toLowerCase` and `String.prototype.trim`,
 * and the `startsWith` test that recognises a bcrypt hash.
 */
module Text {

  /** The characters `trim` strips: ECMAScript WhiteSpace and LineTerminator. */
  predicate IsSpace(c: char) {
    || c == '\t' || c == '\n' || c == '\U{000B}' || c == '\U{000C}' || c == '\r'
    || c == ' ' || c == '\U{00A0}' || c == '\U{1680}'
    || ('\U{2000}' <= c <= '\U{200A}')
    || c == '\U{2028}' || c == '\U{2029}' || c == '\U{202F}' || c == '\U{205F}'
    || c == '\U{3000}' || c == '\U{FEFF}'
  }

  ghost predicate AllSpace(s: string) {
    forall i :: 0 <= i < |s| ==> IsSpace(s[i])
  }

  /** A string with no white space at either end: what `trim` produces. */
  ghost predicate Trimmed(s: string) {
    s == [] || (!IsSpace(s[0]) && !IsSpace(s[|s| - 1]))
  }

  function LowerChar(c: char): char {
    if 'A' <= c <= 'Z' then (c as int + 32) as char else c
  }

  /**
   * `toLowerCase`, character by character: no capital letter is left, and
   * only capital letters change.
   */
  function Lower(s: string): (r: string)
    ensures |r| == |s|
    ensures forall i :: 0 <= i < |r| ==> !('A' <= r[i] <= 'Z')
    ensures forall i :: 0 <= i < |r| && r[i] != s[i] ==> 'A' <= s[i] <= 'Z'
  {
    seq(|s|, i requires 0 <= i < |s| => LowerChar(s[i]))
  }

  /** The number of white-space characters at the start of `s`. */
  function LeadingSpaces(s: string): (n: nat)
    ensures n <= |s|
    ensures forall i :: 0 <= i < n ==> IsSpace(s[i])
    ensures n < |s| ==> !IsSpace(s[n])
  {
    if |s| > 0 && IsSpace(s[0]) then 1 + LeadingSpaces(s[1..]) else 0
  }

  /** The number of white-space characters at the end of `s`. */
  function TrailingSpaces(s: string): (n: nat)
    ensures n <= |s|
    ensures forall i :: |s| - n <= i < |s| ==> IsSpace(s[i])
    ensures n < |s| ==> !IsSpace(s[|s| - 1 - n])
  {
    if |s| > 0 && IsSpace(s[|s| - 1]) then 1 + TrailingSpaces(s[..|s| - 1]) else 0
  }

  /** `trim`: drop the white space at both ends. */
  function Trim(s: string): (r: string)
    ensures Trimmed(r)
    ensures |r| <= |s|
  {
    var t := s[LeadingSpaces(s)..];
    t[..|t| - TrailingSpaces(t)]
  }

  /**
   * `toLowerCase().trim()`: how e-mail addresses are stored and looked up.
   * The result is lower-case with no white space at either end.
   */
  function Normalize(s: string): (r: string)
    ensures Trimmed(r) && Lower(r) == r
    ensures |r| <= |s|
  {
    var y := Lower(s);
    LowerIdempotent(s);
    TrimIsSlice(y);
    LowerOfSlice(y, LeadingSpaces(y), LeadingSpaces(y) + |Trim(y)|);
    Trim(y)
  }

  predicate StartsWith(s: string, prefix: string) {
    |prefix| <= |s| && s[..|prefix|] == prefix
  }

  /** The prefix of a bcrypt (version 2b) hash. */
  const BcryptPrefix: string := "$2b$"

  // ---------------------------------------------------------------------
  // Trim is determined by its characterisation

  /**
   * Whatever white-space padding surrounds a string with no white space at
   * its ends, `Trim` recovers exactly that string.
   */
  lemma {:induction false} TrimOfPadded(a: string, r: string, b: string)
    requires AllSpace(a) && AllSpace(b) && Trimmed(r)
    ensures Trim(a + r + b) == r
  {
    var s := a + r + b;
    if r == [] {
      assert s == a + b;
      assert forall i :: 0 <= i < |s| ==> IsSpace(s[i]) by {
        forall i | 0 <= i < |s| ensures IsSpace(s[i]) {
          if i < |a| { assert s[i] == a[i]; } else { assert s[i] == b[i - |a|]; }
        }
      }
      LeadingSpacesExact(s, |s|);
    } else {
      assert forall i :: 0 <= i < |a| ==> s[i] == a[i];
      assert s[|a|] == r[0];
      LeadingSpacesExact(s, |a|);
      var t := s[|a|..];
      assert t == r + b;
      assert forall i :: |t| - |b| <= i < |t| ==> t[i] == b[i - (|t| - |b|)];
      assert t[|t| - 1 - |b|] == r[|r| - 1];
      TrailingSpacesExact(t, |b|);
      assert t[..|t| - |b|] == r;
    }
  }

  /** `LeadingSpaces` is the length of the white-space run that starts the string. */
  lemma {:induction false} LeadingSpacesExact(s: string, k: nat)
    requires k <= |s| && (forall i :: 0 <= i < k ==> IsSpace(s[i])) && (k < |s| ==> !IsSpace(s[k]))
    ensures LeadingSpaces(s) == k
  {
    if k > 0 {
      var u := s[1..];
      assert forall i :: 0 <= i < k - 1 ==> u[i] == s[i + 1];
      assert k - 1 < |u| ==> u[k - 1] == s[k];
      LeadingSpacesExact(u, k - 1);
    }
  }

  /** `TrailingSpaces` is the length of the white-space run that ends the string. */
  lemma {:induction false} TrailingSpacesExact(s: string, k: nat)
    requires k <= |s| && (forall i :: |s| - k <= i < |s| ==> IsSpace(s[i])) && (k < |s| ==> !IsSpace(s[|s| - 1 - k]))
    ensures TrailingSpaces(s) == k
  {
    if k > 0 {
      var u := s[..|s| - 1];
      assert forall i :: |u| - (k - 1) <= i < |u| ==> u[i] == s[i];
      assert k - 1 < |u| ==> u[|u| - 1 - (k - 1)] == s[|s| - 1 - k];
      TrailingSpacesExact(u, k - 1);
    }
  }

  lemma SplitThree(s: string, i: nat, m: nat)
    requires i <= |s| && m <= |s| - i
    ensures s == s[..i] + s[i..][..|s| - i - m] + s[i + (|s| - i - m)..]
  {
  }

  /** `Trim` removes only white space: the input is the result with white space around it. */
  lemma TrimSplits(s: string)
    ensures var i := LeadingSpaces(s);
            && i + |Trim(s)| <= |s|
            && s == s[..i] + Trim(s) + s[i + |Trim(s)|..]
            && AllSpace(s[..i]) && AllSpace(s[i + |Trim(s)|..])
  {
    var i := LeadingSpaces(s);
    var t := s[i..];
    var m := TrailingSpaces(t);
    SplitThree(s, i, m);
    assert AllSpace(s[..i]) by {
      forall k | 0 <= k < i ensures IsSpace(s[..i][k]) {
        assert s[..i][k] == s[k];
      }
    }
    var b := s[i + (|s| - i - m)..];
    assert AllSpace(b) by {
      forall k | 0 <= k < m ensures IsSpace(b[k]) {
        assert b[k] == t[|t| - m + k];
      }
    }
  }

  lemma TrimIdempotent(s: string)
    ensures Trim(Trim(s)) == Trim(s)
  {
    var r := Trim(s);
    assert [] + r + [] == r;
    TrimOfPadded([], r, []);
  }

  /** White space added around a string does not change its trimmed form. */
  lemma TrimIgnoresPadding(w1: string, s: string, w2: string)
    requires AllSpace(w1) && AllSpace(w2)
    ensures Trim(w1 + s + w2) == Trim(s)
  {
    var r := Trim(s);
    TrimSplits(s);
    var i := LeadingSpaces(s);
    var a, b := s[..i], s[i + |r|..];
    assert s == a + r + b;
    assert w1 + s + w2 == (w1 + a) + r + (b + w2);
    assert AllSpace(w1 + a) && AllSpace(b + w2);
    TrimOfPadded(w1 + a, r, b + w2);
  }

  // ---------------------------------------------------------------------
  // Lower

  /** Lower-casing never touches white space. */
  lemma LowerCharKeepsSpace(c: char)
    ensures IsSpace(LowerChar(c)) <==> IsSpace(c)
    ensures IsSpace(c) ==> LowerChar(c) == c
  {
  }

  lemma LowerIdempotent(s: string)
    ensures Lower(Lower(s)) == Lower(s)
  {
  }

  lemma LowerAppend(a: string, b: string)
    ensures Lower(a + b) == Lower(a) + Lower(b)
  {
  }

  lemma LowerOfSpace(w: string)
    requires AllSpace(w)
    ensures Lower(w) == w
  {
    forall i | 0 <= i < |w| ensures Lower(w)[i] == w[i] {
      LowerCharKeepsSpace(w[i]);
    }
  }

  // ---------------------------------------------------------------------
  // Normalize

  /** A slice of a lower-case string is lower-case. */
  lemma LowerOfSlice(y: string, i: nat, j: nat)
    requires Lower(y) == y && i <= j <= |y|
    ensures Lower(y[i..j]) == y[i..j]
  {
    forall k | 0 <= k < j - i ensures Lower(y[i..j])[k] == y[i..j][k] {
      assert Lower(y)[i + k] == LowerChar(y[i + k]);
    }
  }

  /** `Trim` keeps a contiguous slice of its input. */
  lemma TrimIsSlice(y: string)
    ensures var n := LeadingSpaces(y);
            n + |Trim(y)| <= |y| && Trim(y) == y[n..n + |Trim(y)|]
  {
    var n := LeadingSpaces(y);
    var t := y[n..];
    var m := TrailingSpaces(t);
    assert Trim(y) == t[..|t| - m];
    assert t[..|t| - m] == y[n..n + (|t| - m)];
  }

  /** An address stored in normal form stays the same when normalised again. */
  lemma NormalizeIdempotent(s: string)
    ensures Normalize(Normalize(s)) == Normalize(s)
  {
    TrimIdempotent(Lower(s));
  }

  /** Upper- and lower-case spellings of an address normalise alike. */
  lemma NormalizeIgnoresCase(s: string)
    ensures Normalize(Lower(s)) == Normalize(s)
  {
    LowerIdempotent(s);
  }

  /** White space around an address is ignored by normalisation. */
  lemma NormalizeIgnoresPadding(w1: string, s: string, w2: string)
    requires AllSpace(w1) && AllSpace(w2)
    ensures Normalize(w1 + s + w2) == Normalize(s)
  {
    LowerAppend(w1 + s, w2);
    LowerAppend(w1, s);
    LowerOfSpace(w1);
    LowerOfSpace(w2);
    TrimIgnoresPadding(w1, Lower(s), w2);
  }

  /** Normalised addresses are exactly the fixed points of `Normalize`. */
  predicate IsNormalEmail(e: string) {
    Normalize(e) == e
  }
}
