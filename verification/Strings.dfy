/** The two string facilities the services rely on: Go's `<` on strings and `strings.TrimSpace`. */
module Strings {

  // Go compares strings byte by byte. On valid UTF-8 that is the order of code points.
  predicate LexLess(a: string, b: string) {
    if b == [] then false
    else if a == [] then true
    else if a[0] != b[0] then a[0] < b[0]
    else LexLess(a[1..], b[1..])
  }

  /** The order in other words: a is a proper prefix of b, or at the first place where they differ a has
      the smaller character. */
  ghost predicate FirstDifference(a: string, b: string, k: nat) {
    && k <= |a| && k < |b| && a[..k] == b[..k]
    && (k == |a| || a[k] < b[k])
  }

  lemma {:induction false} LexLessIff(a: string, b: string)
    ensures LexLess(a, b) <==> exists k: nat :: FirstDifference(a, b, k)
  {
    if b != [] && a != [] && a[0] == b[0] {
      LexLessIff(a[1..], b[1..]);
      if k: nat :| FirstDifference(a[1..], b[1..], k) {
        assert a[..k + 1] == [a[0]] + a[1..][..k] && b[..k + 1] == [b[0]] + b[1..][..k];
        assert FirstDifference(a, b, k + 1);
      }
      if k: nat :| FirstDifference(a, b, k) {
        assert k > 0;
        assert a[1..][..k - 1] == a[..k][1..] && b[1..][..k - 1] == b[..k][1..];
        assert FirstDifference(a[1..], b[1..], k - 1);
      }
    } else {
      if b != [] && LexLess(a, b) { assert FirstDifference(a, b, 0); }
      if k: nat :| FirstDifference(a, b, k) {
        if k > 0 { assert a[..k][0] == b[..k][0]; }
      }
    }
  }

  lemma {:induction false} LexTotal(a: string, b: string)
    ensures LexLess(a, b) || LexLess(b, a) || a == b
    ensures LexLess(a, b) ==> !LexLess(b, a)
  {
    if a != [] && b != [] && a[0] == b[0] {
      LexTotal(a[1..], b[1..]);
      assert a == [a[0]] + a[1..] && b == [b[0]] + b[1..];
    }
  }

  lemma {:induction false} LexTransitive(a: string, b: string, c: string)
    requires LexLess(a, b) && LexLess(b, c)
    ensures LexLess(a, c)
  {
    if a != [] && a[0] == b[0] == c[0] {
      LexTransitive(a[1..], b[1..], c[1..]);
    }
  }

  /** unicode.IsSpace: the characters with the White_Space property. */
  predicate IsSpace(c: char) {
    || '\t' <= c <= '\r' || c == ' ' || c == '\U{85}' || c == '\U{A0}' || c == '\U{1680}'
    || '\U{2000}' <= c <= '\U{200A}' || c == '\U{2028}' || c == '\U{2029}' || c == '\U{202F}'
    || c == '\U{205F}' || c == '\U{3000}'
  }

  const SPACES: set<int> := {
    0x09, 0x0A, 0x0B, 0x0C, 0x0D, 0x20, 0x85, 0xA0, 0x1680, 0x2000, 0x2001, 0x2002, 0x2003, 0x2004, 0x2005,
    0x2006, 0x2007, 0x2008, 0x2009, 0x200A, 0x2028, 0x2029, 0x202F, 0x205F, 0x3000 }

  /** The 25 characters, one by one. */
  lemma SpacesAre(c: char)
    ensures IsSpace(c) <==> c as int in SPACES
  {
  }

  function TrimLeft(s: string): string {
    if s != [] && IsSpace(s[0]) then TrimLeft(s[1..]) else s
  }

  function TrimRight(s: string): string {
    if s != [] && IsSpace(s[|s| - 1]) then TrimRight(s[..|s| - 1]) else s
  }

  function TrimSpace(s: string): string { TrimRight(TrimLeft(s)) }

  ghost predicate IsTrimmed(s: string) {
    s != [] ==> !IsSpace(s[0]) && !IsSpace(s[|s| - 1])
  }

  lemma {:induction false} TrimLeftCut(s: string) returns (n: nat)
    ensures n <= |s| && TrimLeft(s) == s[n..] && forall i | 0 <= i < n :: IsSpace(s[i])
    ensures n < |s| ==> !IsSpace(s[n])
  {
    if s != [] && IsSpace(s[0]) {
      var k := TrimLeftCut(s[1..]);
      n := k + 1;
      assert s[1..][k..] == s[n..];
      forall i | 0 <= i < n ensures IsSpace(s[i]) { if i > 0 { assert s[i] == s[1..][i - 1]; } }
    } else {
      n := 0;
    }
  }

  lemma {:induction false} TrimRightCut(s: string) returns (n: nat)
    ensures n <= |s| && TrimRight(s) == s[..n] && forall i | n <= i < |s| :: IsSpace(s[i])
    ensures n > 0 ==> !IsSpace(s[n - 1])
  {
    if s != [] && IsSpace(s[|s| - 1]) {
      n := TrimRightCut(s[..|s| - 1]);
      assert s[..|s| - 1][..n] == s[..n];
      forall i | n <= i < |s| ensures IsSpace(s[i]) {
        if i < |s| - 1 { assert s[i] == s[..|s| - 1][i]; }
      }
    } else {
      n := |s|;
    }
  }

  /** Trimming removes exactly the white space at both ends: the cut points, what is cut and
      what is kept. */
  lemma TrimSpaceCut(s: string) returns (lo: nat, hi: nat)
    ensures lo <= hi <= |s| && TrimSpace(s) == s[lo..hi]
    ensures forall i | 0 <= i < lo || hi <= i < |s| :: IsSpace(s[i])
    ensures IsTrimmed(TrimSpace(s))
  {
    lo := TrimLeftCut(s);
    var n := TrimRightCut(s[lo..]);
    hi := lo + n;
    forall i | hi <= i < |s| ensures IsSpace(s[i]) { assert s[i] == s[lo..][i - lo]; }
    assert s[lo..][..n] == s[lo..hi];
    if n > 0 { assert s[lo..hi][0] == s[lo] && s[lo..hi][n - 1] == s[lo..][n - 1]; }
  }
}
