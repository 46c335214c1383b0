/**
 Strings as the Go source sees them: white space, trimming, searching and UTF-8
 length.

 A string is a sequence of Unicode scalar values.  Every character the handlers
 test for is ASCII, so positions in this model correspond one to one to the byte
 positions of the source.
 */
module Text {

  /** unicode.IsSpace: the White_Space property. */
  predicate IsSpace(c: char) {
    || c == '\t' || c == '\n' || c == '\U{0B}' || c == '\U{0C}' || c == '\r' || c == ' '
    || c == '\U{85}' || c == '\U{A0}' || c == '\U{1680}'
    || '\U{2000}' <= c <= '\U{200A}'
    || c == '\U{2028}' || c == '\U{2029}' || c == '\U{202F}' || c == '\U{205F}' || c == '\U{3000}'
  }

  const LATIN_SPACES := "\t\n\U{0B}\U{0C}\r \U{85}\U{A0}"
  const OTHER_SPACES := "\U{1680}\U{2000}\U{2001}\U{2002}\U{2003}\U{2004}"
    + "\U{2005}\U{2006}\U{2007}\U{2008}\U{2009}\U{200A}"
  const LATE_SPACES := "\U{2028}\U{2029}\U{202F}\U{205F}\U{3000}"

  /** The 25 characters of the White_Space property. */
  lemma WhiteSpace(c: char)
    ensures IsSpace(c) <==> c in LATIN_SPACES || c in OTHER_SPACES || c in LATE_SPACES
  {
  }

  /** How many leading characters of s are white space. */
  function LeadingSpaces(s: string): (k: nat)
    ensures k <= |s|
  {
    if s == "" || !IsSpace(s[0]) then 0 else 1 + LeadingSpaces(s[1..])
  }

  /** How many characters of s remain once trailing white space is dropped. */
  function KeptLength(s: string): (k: nat)
    ensures k <= |s|
  {
    if s == "" || !IsSpace(s[|s| - 1]) then |s| else KeptLength(s[..|s| - 1])
  }

  function TrimLeft(s: string): string {
    s[LeadingSpaces(s)..]
  }

  function TrimRight(s: string): string {
    s[..KeptLength(s)]
  }

  /** strings.TrimSpace */
  function Trim(s: string): string {
    TrimRight(TrimLeft(s))
  }

  predicate Trimmed(s: string) {
    s == "" || (!IsSpace(s[0]) && !IsSpace(s[|s| - 1]))
  }

  predicate AllSpaces(s: string) {
    forall i :: 0 <= i < |s| ==> IsSpace(s[i])
  }

  lemma {:induction false} LeadingSpacesSpec(s: string)
    ensures AllSpaces(s[..LeadingSpaces(s)])
    ensures TrimLeft(s) != "" ==> !IsSpace(TrimLeft(s)[0])
  {
    if s != "" && IsSpace(s[0]) {
      LeadingSpacesSpec(s[1..]);
      assert s[..LeadingSpaces(s)] == [s[0]] + s[1..][..LeadingSpaces(s[1..])];
      assert TrimLeft(s) == TrimLeft(s[1..]);
    }
  }

  lemma {:induction false} KeptLengthSpec(s: string)
    ensures AllSpaces(s[KeptLength(s)..])
    ensures TrimRight(s) != "" ==> !IsSpace(TrimRight(s)[|TrimRight(s)| - 1])
  {
    if s != "" && IsSpace(s[|s| - 1]) {
      var init := s[..|s| - 1];
      KeptLengthSpec(init);
      assert s[KeptLength(s)..] == init[KeptLength(init)..] + [s[|s| - 1]];
      assert TrimRight(s) == TrimRight(init);
    }
  }

  lemma TrimRightKeepsFirst(s: string)
    requires s != "" && !IsSpace(s[0])
    ensures TrimRight(s) != ""
  {
    KeptLengthSpec(s);
    var tail := s[KeptLength(s)..];
    assert s == TrimRight(s) + tail;
    assert TrimRight(s) == "" ==> s == tail;
  }

  lemma {:induction false} TrimLeftOfPadded(pad: string, s: string)
    requires AllSpaces(pad)
    requires s == "" || !IsSpace(s[0])
    ensures LeadingSpaces(pad + s) == |pad|
    ensures TrimLeft(pad + s) == s
  {
    if pad == "" {
      assert pad + s == s;
    } else {
      assert (pad + s)[1..] == pad[1..] + s;
      assert (pad + s)[0] == pad[0];
      TrimLeftOfPadded(pad[1..], s);
    }
  }

  lemma {:induction false} TrimRightOfPadded(s: string, pad: string)
    requires AllSpaces(pad)
    requires s == "" || !IsSpace(s[|s| - 1])
    ensures KeptLength(s + pad) == |s|
    ensures TrimRight(s + pad) == s
  {
    if pad == "" {
      assert s + pad == s;
    } else {
      var init := pad[..|pad| - 1];
      assert (s + pad)[..|s + pad| - 1] == s + init;
      assert (s + pad)[|s + pad| - 1] == pad[|pad| - 1];
      TrimRightOfPadded(s, init);
    }
  }

  /** Trimming reaches past white space on both sides to a trimmed middle. */
  lemma TrimOfPadded(left: string, mid: string, right: string)
    requires Trimmed(mid) && mid != ""
    requires AllSpaces(left) && AllSpaces(right)
    ensures Trim(left + mid + right) == mid
  {
    assert left + mid + right == left + (mid + right);
    assert (mid + right)[0] == mid[0];
    TrimLeftOfPadded(left, mid + right);
    TrimRightOfPadded(mid, right);
  }

  lemma TrimOfTrimmed(s: string)
    requires Trimmed(s)
    ensures Trim(s) == s
  {
    assert "" + s == s && s + "" == s;
    TrimLeftOfPadded("", s);
    TrimRightOfPadded(s, "");
  }

  /** Where Trim(s) sits inside s. */
  lemma TrimSplits(s: string) returns (left: string, right: string)
    ensures AllSpaces(left) && AllSpaces(right)
    ensures s == left + Trim(s) + right
    ensures Trimmed(Trim(s))
  {
    LeadingSpacesSpec(s);
    var t := TrimLeft(s);
    KeptLengthSpec(t);
    left, right := s[..LeadingSpaces(s)], t[KeptLength(t)..];
    assert t == Trim(s) + right;
    if Trim(s) != "" { assert Trim(s)[0] == t[0]; }
  }

  lemma TrimYieldsTrimmed(s: string)
    ensures Trimmed(Trim(s))
    ensures Trim(s) == s <==> Trimmed(s)
    ensures |Trim(s)| == |s| ==> Trim(s) == s
    ensures Trim(Trim(s)) == Trim(s)
  {
    var left, right := TrimSplits(s);
    TrimOfTrimmed(Trim(s));
    if Trimmed(s) { TrimOfTrimmed(s); }
  }

  lemma TrimKeepsFirst(s: string)
    requires s != "" && !IsSpace(s[0])
    ensures Trim(s) != "" && Trim(s)[0] == s[0]
  {
    var left, right := TrimSplits(s);
    assert s[0] == (left + Trim(s) + right)[0];
  }

  lemma TrimAddsNothing(s: string, c: char)
    requires c !in s
    ensures c !in Trim(s)
  {
    var left, right := TrimSplits(s);
  }

  /** strings.IndexByte: the first position of c in s, or -1. */
  function IndexOf(s: string, c: char): (i: int)
    ensures -1 <= i < |s|
    ensures i >= 0 ==> s[i] == c
    ensures i == -1 <==> c !in s
  {
    if s == "" then -1
    else if s[0] == c then 0
    else
      var r := IndexOf(s[1..], c);
      if r == -1 then -1 else r + 1
  }

  lemma {:induction false} IndexOfSpec(s: string, c: char)
    ensures IndexOf(s, c) >= 0 ==> c !in s[..IndexOf(s, c)]
  {
    if s != "" && s[0] != c {
      IndexOfSpec(s[1..], c);
      assert s == [s[0]] + s[1..];
      var r := IndexOf(s[1..], c);
      if r != -1 { assert s[..r + 1] == [s[0]] + s[1..][..r]; }
    }
  }

  lemma {:induction false} IndexOfFirst(before: string, c: char, after: string)
    requires c !in before
    ensures IndexOf(before + [c] + after, c) == |before|
  {
    var s := before + [c] + after;
    if before != "" {
      assert s[1..] == before[1..] + [c] + after;
      assert s[0] == before[0];
      IndexOfFirst(before[1..], c, after);
    }
  }

  /** Length of s in bytes once encoded as UTF-8. */
  function Utf8Length(s: string): nat {
    if s == "" then 0 else CharBytes(s[0]) + Utf8Length(s[1..])
  }

  function CharBytes(c: char): (n: nat)
    ensures 1 <= n <= 4
  {
    if c < '\U{80}' then 1 else if c < '\U{800}' then 2 else if c < '\U{10000}' then 3 else 4
  }

  /** One to four bytes, as the planes of Unicode go. */
  lemma Utf8Examples()
    ensures CharBytes('~') == 1 && CharBytes('\U{7F}') == 1 && CharBytes('\U{80}') == 2 && CharBytes('\U{7FF}') == 2
    ensures CharBytes('\U{800}') == 3 && CharBytes('\U{FFFF}') == 3 && CharBytes('\U{10000}') == 4
  {
  }

  lemma {:induction false} Utf8LengthConcat(a: string, b: string)
    ensures Utf8Length(a + b) == Utf8Length(a) + Utf8Length(b)
  {
    if a == "" {
      assert a + b == b;
    } else {
      assert (a + b)[1..] == a[1..] + b;
      Utf8LengthConcat(a[1..], b);
    }
  }

  lemma Utf8LengthOfParts(s: string, k: nat)
    requires k <= |s|
    ensures Utf8Length(s) == Utf8Length(s[..k]) + Utf8Length(s[k..])
  {
    assert s == s[..k] + s[k..];
    Utf8LengthConcat(s[..k], s[k..]);
  }

  lemma Utf8LengthOfTrim(s: string)
    ensures Utf8Length(Trim(s)) <= Utf8Length(s)
  {
    Utf8LengthOfParts(s, LeadingSpaces(s));
    Utf8LengthOfParts(TrimLeft(s), KeptLength(TrimLeft(s)));
  }
}
