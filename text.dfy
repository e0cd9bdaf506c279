/**
 * String helpers the bot relies on: `str.strip()`, `str.lower()` and
 * substring search (`in`, `str.find`), over strings as sequences of code points.
 */
module Text {
  import opened Wrappers

  /** The characters Python's `str.isspace` accepts, which `str.strip()` removes. */
  predicate IsSpace(c: char) {
    || ('\t' <= c <= '\r')
    || ('\U{1C}' <= c <= '\U{1F}')
    || c == ' ' || c == '\U{85}' || c == '\U{A0}' || c == '\U{1680}'
    || ('\U{2000}' <= c <= '\U{200A}')
    || c == '\U{2028}' || c == '\U{2029}' || c == '\U{202F}' || c == '\U{205F}' || c == '\U{3000}'
  }

  /** Leading whitespace removed: a suffix of `s` that does not start with whitespace. */
  function TrimStart(s: string): (r: string)
    ensures |r| <= |s| && r == s[|s| - |r|..]
    ensures r == [] || !IsSpace(r[0])
  {
    if |s| > 0 && IsSpace(s[0]) then TrimStart(s[1..]) else s
  }

  /** Trailing whitespace removed: a prefix of `s` that does not end with whitespace. */
  function TrimEnd(s: string): (r: string)
    ensures |r| <= |s| && r == s[..|r|]
    ensures r == [] || !IsSpace(r[|r| - 1])
  {
    if |s| > 0 && IsSpace(s[|s| - 1]) then TrimEnd(s[..|s| - 1]) else s
  }

  /** Python's `s.strip()`. */
  function Trim(s: string): (r: string)
  {
    TrimEnd(TrimStart(s))
  }

  /** Only whitespace is dropped from the front. */
  lemma {:induction false} TrimStartDropsSpaces(s: string)
    ensures forall i :: 0 <= i < |s| - |TrimStart(s)| ==> IsSpace(s[i])
  {
    if |s| > 0 && IsSpace(s[0]) {
      TrimStartDropsSpaces(s[1..]);
      forall i | 1 <= i < |s| - |TrimStart(s)| ensures IsSpace(s[i]) {
        assert s[i] == s[1..][i - 1];
      }
    }
  }

  /** Only whitespace is dropped from the back. */
  lemma {:induction false} TrimEndDropsSpaces(s: string)
    ensures forall i :: |TrimEnd(s)| <= i < |s| ==> IsSpace(s[i])
  {
    if |s| > 0 && IsSpace(s[|s| - 1]) {
      TrimEndDropsSpaces(s[..|s| - 1]);
      forall i | |TrimEnd(s)| <= i < |s| - 1 ensures IsSpace(s[i]) {
        assert s[i] == s[..|s| - 1][i];
      }
    }
  }

  /**
   * `Trim(s)` is the middle `s[i..j]` of `s`, and everything cut off on either side is
   * whitespace: together with `TrimTrimmed` this pins `strip()` down exactly.
   */
  lemma TrimBounds(s: string) returns (i: int, j: int)
    ensures 0 <= i <= j <= |s| && Trim(s) == s[i..j]
    ensures forall k :: 0 <= k < i ==> IsSpace(s[k])
    ensures forall k :: j <= k < |s| ==> IsSpace(s[k])
  {
    var t := TrimStart(s);
    i := |s| - |t|;
    j := i + |TrimEnd(t)|;
    TrimStartDropsSpaces(s);
    TrimEndDropsSpaces(t);
    forall k | j <= k < |s| ensures IsSpace(s[k]) {
      assert s[k] == t[k - i];
    }
  }

  /** A trimmed string neither starts nor ends with whitespace, and trimming it again changes nothing. */
  lemma TrimTrimmed(s: string)
    ensures Trim(s) == [] || (!IsSpace(Trim(s)[0]) && !IsSpace(Trim(s)[|Trim(s)| - 1]))
    ensures Trim(Trim(s)) == Trim(s)
  {
    var t := TrimStart(s);
    var r := TrimEnd(t);
    if r != [] {
      assert r[0] == t[0];
    }
    assert TrimStart(r) == r;
    assert TrimEnd(r) == r;
  }

  /** The trimmed string is empty exactly when every character is whitespace. */
  /** A string with no whitespace at either end is its own `strip()`. */
  lemma TrimUnpadded(s: string)
    requires s != [] && !IsSpace(s[0]) && !IsSpace(s[|s| - 1])
    ensures Trim(s) == s
  {
    assert TrimStart(s) == s;
  }

  lemma TrimEmptyIff(s: string)
    ensures Trim(s) == [] <==> forall i :: 0 <= i < |s| ==> IsSpace(s[i])
  {
    var i, j := TrimBounds(s);
    if Trim(s) != [] {
      TrimTrimmed(s);
      assert !IsSpace(s[i]);
    }
  }

  /**
   * One code point of Python's `str.lower()`, restricted to the length-preserving
   * mappings that can produce ASCII: `A`-`Z`, and the Kelvin sign U+212A, which lowers to `k`.
   */
  function LowerChar(c: char): (r: char)
    ensures 'a' <= r <= 'z' && r != c ==> ('A' <= c <= 'Z' || c == '\U{212A}')
  {
    if 'A' <= c <= 'Z' then (c as int + 32) as char
    else if c == '\U{212A}' then 'k'
    else c
  }

  /** Python's `s.lower()`, code point by code point. */
  function Lower(s: string): (r: string)
    ensures |r| == |s|
    ensures forall i :: 0 <= i < |s| ==> r[i] == LowerChar(s[i])
  {
    seq(|s|, i requires 0 <= i < |s| => LowerChar(s[i]))
  }

  /** Lowering commutes with slicing and concatenation: `(a + b).lower() == a.lower() + b.lower()`. */
  lemma LowerConcat(a: string, b: string)
    ensures Lower(a + b) == Lower(a) + Lower(b)
  {
  }

  /** `p` occurs in `s` at position `i`. */
  predicate OccursAt(s: string, p: string, i: int) {
    0 <= i && i + |p| <= |s| && s[i..i + |p|] == p
  }

  /** Python's `p in s`. */
  predicate Occurs(s: string, p: string) {
    exists i | 0 <= i <= |s| :: OccursAt(s, p, i)
  }

  /** The first occurrence of `p` in `s` at or after `from`, as Python's `s.find(p, from)` would report it. */
  function FindFrom(s: string, p: string, from: nat): (r: Option<nat>)
    requires from <= |s|
    ensures r.Some? ==> from <= r.value && OccursAt(s, p, r.value)
    ensures forall i :: from <= i && (r.None? || i < r.value) ==> !OccursAt(s, p, i)
    decreases |s| - from
  {
    if from + |p| > |s| then None
    else if s[from..from + |p|] == p then Some(from)
    else if from == |s| then None
    else FindFrom(s, p, from + 1)
  }

  /** Python's `s.find(p)`, with `None` for -1. */
  function Find(s: string, p: string): (r: Option<nat>)
    ensures r.Some? <==> Occurs(s, p)
    ensures r.Some? ==> OccursAt(s, p, r.value) && forall i :: 0 <= i < r.value ==> !OccursAt(s, p, i)
  {
    FindFrom(s, p, 0)
  }

  /** Lowering commutes with slicing. */
  lemma LowerSlice(s: string, i: int, j: int)
    requires 0 <= i <= j <= |s|
    ensures Lower(s[i..j]) == Lower(s)[i..j]
  {
  }

  /** Trimming cannot create an occurrence, even case-insensitively. */
  lemma TrimKeepsNoOccurrence(s: string, p: string)
    requires !Occurs(Lower(s), p)
    ensures !Occurs(Lower(Trim(s)), p)
  {
    var i, j := TrimBounds(s);
    NoOccurrenceInSlice(Lower(s), p, i, j);
    LowerSlice(s, i, j);
  }

  /** A pattern that does not occur in a string does not occur in any slice of it. */
  lemma NoOccurrenceInSlice(s: string, p: string, i: int, j: int)
    requires 0 <= i <= j <= |s|
    requires !Occurs(s, p)
    ensures !Occurs(s[i..j], p)
  {
    forall k | 0 <= k <= j - i
      ensures !OccursAt(s[i..j], p, k)
    {
      if k + |p| <= j - i {
        if s[i..j][k..k + |p|] == p {
          forall m | 0 <= m < |p| ensures p[m] == s[i + k + m] {
            assert p[m] == s[i..j][k..k + |p|][m];
          }
          assert OccursAt(s, p, i + k);
        }
      }
    }
  }

  /** `a` is `b` with some characters deleted: every character of `a` appears in `b`, in order. */
  predicate IsSubsequence(a: string, b: string)
    decreases |b|
  {
    a == [] || (b != [] && ((a[0] == b[0] && IsSubsequence(a[1..], b[1..])) || IsSubsequence(a, b[1..])))
  }

  lemma {:induction false} SubsequenceRefl(a: string)
    ensures IsSubsequence(a, a)
  {
    if a != [] {
      SubsequenceRefl(a[1..]);
    }
  }

  /** Cutting the window `s[i..j]` out of `s` leaves a subsequence of `s`. */
  lemma {:induction false} CutIsSubsequence(s: string, i: int, j: int)
    requires 0 <= i <= j <= |s|
    ensures IsSubsequence(s[..i] + s[j..], s)
    decreases |s|
  {
    if i > 0 {
      assert (s[..i] + s[j..])[1..] == s[1..][..i - 1] + s[1..][j - 1..];
      CutIsSubsequence(s[1..], i - 1, j - 1);
    } else if j > 0 {
      assert s[..i] + s[j..] == s[1..][..0] + s[1..][j - 1..];
      CutIsSubsequence(s[1..], 0, j - 1);
    } else {
      assert s[..i] + s[j..] == s;
      SubsequenceRefl(s);
    }
  }

  lemma {:induction false} SubsequenceTrans(a: string, b: string, c: string)
    requires IsSubsequence(a, b) && IsSubsequence(b, c)
    ensures IsSubsequence(a, c)
    decreases |c|
  {
    if a != [] {
      assert b != [] && c != [];
      if IsSubsequence(b, c[1..]) {
        SubsequenceTrans(a, b, c[1..]);
      } else if a[0] == b[0] && IsSubsequence(a[1..], b[1..]) {
        SubsequenceTrans(a[1..], b[1..], c[1..]);
      } else {
        SubsequenceTrans(a, b[1..], c[1..]);
      }
    }
  }
}
