/** NUL-terminated strings, the two ASCII case folds, and the comparisons of
    src/strcasecmp.c. */
module CaseFold {
  import opened Bytes

  /** tolower in the C locale. */
  function Lower(c: byte): byte
  {
    if 'A' as int <= c <= 'Z' as int then c + 32 else c
  }

  /** toupper in the C locale. */
  function Upper(c: byte): byte
  {
    if 'a' as int <= c <= 'z' as int then c - 32 else c
  }

  /** The same character, or the capital and the small form of one ASCII letter. */
  predicate SameLetter(a: byte, b: byte)
  {
    || a == b
    || ('A' as int <= a <= 'Z' as int && b == a + ('a' as int - 'A' as int))
    || ('A' as int <= b <= 'Z' as int && a == b + ('a' as int - 'A' as int))
  }

  /** Both folds identify exactly the two forms of each letter; one yields no capitals, the
      other no small letters. */
  lemma FoldsIdentifySamePairs(a: byte, b: byte)
    ensures Lower(a) == Lower(b) <==> SameLetter(a, b)
    ensures Upper(a) == Upper(b) <==> SameLetter(a, b)
    ensures SameLetter(a, Lower(a)) && !('A' as int <= Lower(a) <= 'Z' as int)
    ensures SameLetter(a, Upper(a)) && !('a' as int <= Upper(a) <= 'z' as int)
  {
  }

  /** Equal up to the case of ASCII letters, byte by byte. */
  predicate SameText(s: seq<byte>, t: seq<byte>)
  {
    |s| == |t| && forall i :: 0 <= i < |s| ==> SameLetter(s[i], t[i])
  }

  function Fold(s: seq<byte>): (x: seq<int>)
    ensures |x| == |s|
    ensures forall i :: 0 <= i < |s| ==> x[i] == Lower(s[i])
  {
    seq(|s|, i requires 0 <= i < |s| => Lower(s[i]))
  }

  lemma FoldIsSameText(s: seq<byte>, t: seq<byte>)
    ensures Fold(s) == Fold(t) <==> SameText(s, t)
  {
    forall i | 0 <= i < |s| && i < |t|
      ensures Fold(s)[i] == Fold(t)[i] <==> SameLetter(s[i], t[i])
    {
      FoldsIdentifySamePairs(s[i], t[i]);
    }
    if Fold(s) == Fold(t) {
      assert |s| == |Fold(s)| == |Fold(t)| == |t|;
    }
  }

  /** A buffer holding one C string: its only NUL is the last element. */
  predicate IsCString(b: seq<byte>)
  {
    |b| > 0 && b[|b| - 1] == 0 && forall i :: 0 <= i < |b| - 1 ==> b[i] != 0
  }

  function Text(b: seq<byte>): seq<byte>
    requires IsCString(b)
  {
    b[..|b| - 1]
  }

  function FoldedText(b: seq<byte>): seq<int>
    requires IsCString(b)
  {
    Fold(Text(b))
  }

  /** The characters k places on are the first that differ, and r is the difference. */
  ghost predicate DiffersAt(s: seq<byte>, a: nat, t: seq<byte>, b: nat, k: nat, r: int)
  {
    a + k < |s| && b + k < |t| && SameText(s[a..a + k], t[b..b + k]) && r == Lower(s[a + k]) - Lower(t[b + k])
  }

  lemma AgreeBefore(s: seq<byte>, a: nat, t: seq<byte>, b: nat, k: nat)
    requires a + k < |s| && b + k < |t| && Fold(s)[a..a + k] == Fold(t)[b..b + k]
    ensures DiffersAt(s, a, t, b, k, Lower(s[a + k]) - Lower(t[b + k]))
  {
    assert Fold(s[a..a + k]) == Fold(s)[a..a + k] && Fold(t[b..b + k]) == Fold(t)[b..b + k];
    FoldIsSameText(s[a..a + k], t[b..b + k]);
  }

  /** strcasecmp: zero exactly for strings equal up to case; otherwise the difference of
      the folded characters at the first position where they differ. */
  method Strcasecmp(s: seq<byte>, t: seq<byte>) returns (r: int)
    requires IsCString(s) && IsCString(t)
    ensures r == 0 <==> SameText(Text(s), Text(t))
    ensures r == 0 <==> FoldedText(s) == FoldedText(t)
    ensures r != 0 ==> exists k: nat :: DiffersAt(s, 0, t, 0, k, r)
  {
    FoldIsSameText(Text(s), Text(t));
    hide SameText, DiffersAt, IsCString, FoldedText;
    NulIsLast(s, 0);
    NulIsLast(t, 0);
    var k := 0;
    while Lower(s[k]) == Lower(t[k])
      invariant 0 <= k < |s| && k < |t|
      invariant Fold(s)[0..k] == Fold(t)[0..k]
      decreases |s| - k
    {
      NulIsLast(s, k);
      NulIsLast(t, k);
      if s[k] == 0 {
        WholeTexts(s, t, k);
        return 0;
      }
      OneMore(Fold(s), 0, k);
      OneMore(Fold(t), 0, k);
      k := k + 1;
    }
    TextsDiffer(s, t, k);
    AgreeBefore(s, 0, t, 0, k);
    return Lower(s[k]) - Lower(t[k]);
  }

  lemma NulIsLast(b: seq<byte>, k: nat)
    requires IsCString(b)
    ensures |b| > 0 && (k < |b| ==> (b[k] == 0 <==> k == |b| - 1))
  {
  }

  lemma WholeTexts(s: seq<byte>, t: seq<byte>, k: nat)
    requires IsCString(s) && IsCString(t) && k == |s| - 1 == |t| - 1 && Fold(s)[0..k] == Fold(t)[0..k]
    ensures FoldedText(s) == FoldedText(t)
  {
    assert FoldedText(s) == Fold(s)[0..k] && FoldedText(t) == Fold(t)[0..k];
  }

  lemma TextsDiffer(s: seq<byte>, t: seq<byte>, k: nat)
    requires IsCString(s) && IsCString(t) && k < |s| && k < |t| && Lower(s[k]) != Lower(t[k])
    ensures FoldedText(s) != FoldedText(t)
  {
    if k < |s| - 1 && k < |t| - 1 {
      assert FoldedText(s)[k] != FoldedText(t)[k];
    }
  }

  function Min(a: nat, b: nat): nat
  {
    if a < b then a else b
  }

  /** What strncasecmp looks at: at most n characters, never past the NUL. */
  function Prefix(b: seq<byte>, from: nat, n: nat): seq<byte>
    requires IsCString(b) && from < |b|
  {
    b[from..Min(from + n, |b| - 1)]
  }

  function Head(b: seq<byte>, from: nat, n: nat): seq<int>
    requires IsCString(b) && from < |b|
  {
    Fold(b)[from..Min(from + n, |b| - 1)]
  }

  lemma HeadIsPrefix(b: seq<byte>, from: nat, n: nat)
    requires IsCString(b) && from < |b|
    ensures Head(b, from, n) == Fold(Prefix(b, from, n))
  {
  }

  lemma HeadsDiffer(s: seq<byte>, a: nat, t: seq<byte>, b: nat, n: nat, k: nat)
    requires IsCString(s) && IsCString(t) && k < n && a + k < |s| && b + k < |t|
    requires Lower(s[a + k]) != Lower(t[b + k])
    ensures Head(s, a, n) != Head(t, b, n)
  {
    if a + k < |s| - 1 && b + k < |t| - 1 {
      assert Head(s, a, n)[k] != Head(t, b, n)[k];
    }
  }

  lemma WholeHeads(s: seq<byte>, a: nat, t: seq<byte>, b: nat, n: nat, k: nat)
    requires IsCString(s) && IsCString(t) && a + k < |s| && b + k < |t| && k <= n
    requires Fold(s)[a..a + k] == Fold(t)[b..b + k] && (k == n || (s[a + k] == 0 && t[b + k] == 0))
    ensures Head(s, a, n) == Head(t, b, n)
  {
  }

  lemma OneMore(x: seq<int>, a: nat, k: nat)
    requires a + k < |x|
    ensures x[a..a + k + 1] == x[a..a + k] + [x[a + k]]
  {
  }

  /** strncasecmp on the strings starting at s + a and t + b: zero exactly if the heads are
      equal up to case; otherwise the difference of the folded characters at the first
      position where they differ. */
  method Strncasecmp(s: seq<byte>, a: nat, t: seq<byte>, b: nat, n: nat) returns (r: int, ghost comparisons: nat)
    requires IsCString(s) && IsCString(t) && a < |s| && b < |t|
    ensures r == 0 <==> SameText(Prefix(s, a, n), Prefix(t, b, n))
    ensures r == 0 <==> Head(s, a, n) == Head(t, b, n)
    ensures r != 0 ==> exists k: nat :: k < n && DiffersAt(s, a, t, b, k, r)
    ensures comparisons <= n
  {
    HeadIsPrefix(s, a, n);
    HeadIsPrefix(t, b, n);
    FoldIsSameText(Prefix(s, a, n), Prefix(t, b, n));
    hide SameText, Prefix, Head, DiffersAt, IsCString;
    var k := 0;
    comparisons := 0;
    while k < n
      invariant 0 <= k <= n && a + k < |s| && b + k < |t| && comparisons == k
      invariant Fold(s)[a..a + k] == Fold(t)[b..b + k]
    {
      comparisons := comparisons + 1;
      NulIsLast(s, a + k);
      NulIsLast(t, b + k);
      if Lower(s[a + k]) != Lower(t[b + k]) {
        HeadsDiffer(s, a, t, b, n, k);
        AgreeBefore(s, a, t, b, k);
        return Lower(s[a + k]) - Lower(t[b + k]), comparisons;
      }
      if s[a + k] == 0 {
        WholeHeads(s, a, t, b, n, k);
        return 0, comparisons;
      }
      OneMore(Fold(s), a, k);
      OneMore(Fold(t), b, k);
      k := k + 1;
    }
    WholeHeads(s, a, t, b, n, k);
    return 0, comparisons;
  }
}
