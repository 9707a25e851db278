/**
 * The choice of what part of an uploaded paper is summarised
 * (app.py:138-145): the text from the first "abstract" up to the first
 * "conclusion", matched without regard to case, or else the first 3000
 * characters.
 */
module Sections {
  import opened Common

  const AbstractMarker: string := "abstract"
  const ConclusionMarker: string := "conclusion"

  /** Characters summarised when a marker is missing (app.py:145). */
  const FallbackLength: nat := 3000

  /** ASCII lower-casing of one character; every other character is kept. */
  function LowerChar(c: char): char {
    if 'A' <= c <= 'Z' then (c as int + 32) as char else c
  }

  /** `text.lower()`, restricted to ASCII letters so that lengths and indices are kept. */
  function Lower(s: string): (r: string)
    ensures |r| == |s|
    ensures forall i | 0 <= i < |s| :: r[i] == LowerChar(s[i])
  {
    seq(|s|, i requires 0 <= i < |s| => LowerChar(s[i]))
  }

  /** `pat` occurs in `s` starting at index `i`. */
  predicate OccursAt(s: string, pat: string, i: int) {
    0 <= i && i + |pat| <= |s| && s[i..i + |pat|] == pat
  }

  /** The first occurrence of `pat` at or after `from`, or -1. */
  function FindFrom(s: string, pat: string, from: nat): (r: int)
    ensures r == -1 || (from <= r && OccursAt(s, pat, r))
    ensures forall j | from <= j && (r == -1 || j < r) :: !OccursAt(s, pat, j)
    decreases |s| - from
  {
    if from + |pat| > |s| then -1
    else if s[from..from + |pat|] == pat then from
    else FindFrom(s, pat, from + 1)
  }

  /**
   * `s.find(pat)`: -1 exactly when `pat` occurs nowhere in `s`, and otherwise
   * the index of its first occurrence.
   */
  function Find(s: string, pat: string): (r: int)
    ensures r == -1 <==> forall j :: !OccursAt(s, pat, j)
    ensures r != -1 ==> OccursAt(s, pat, r) && forall j | j < r :: !OccursAt(s, pat, j)
  {
    FindFrom(s, pat, 0)
  }

  /**
   * The text handed to the summariser for an uploaded paper (app.py:138-145):
   * always one contiguous piece of the extracted text, of at most 3000
   * characters when a marker is missing.
   */
  function SelectSection(extracted: string): (r: string)
    ensures |r| <= |extracted|
    ensures exists i :: OccursAt(extracted, r, i)
    ensures (Find(Lower(extracted), AbstractMarker) == -1 || Find(Lower(extracted), ConclusionMarker) == -1)
      ==> |r| <= FallbackLength
  {
    var lower := Lower(extracted);
    var a := Find(lower, AbstractMarker);
    var c := Find(lower, ConclusionMarker);
    if a != -1 && c != -1 then
      var r := PySlice(extracted, a, c);
      if a <= c then
        assert extracted[a..a + |r|] == r;
        assert OccursAt(extracted, r, a);
        r
      else
        assert OccursAt(extracted, r, 0);
        r
    else
      var r := Take(extracted, FallbackLength);
      assert OccursAt(extracted, r, 0);
      r
  }

  /** Lower-casing commutes with taking a slice. */
  lemma LowerSlice(s: string, lo: nat, hi: nat)
    requires lo <= hi <= |s|
    ensures Lower(s[lo..hi]) == Lower(s)[lo..hi]
  {
  }

  /**
   * An occurrence of "conclusion" never starts inside an occurrence of
   * "abstract": the only 'c' of "abstract" is followed by 't', not 'o'.
   */
  lemma MarkersDoNotOverlap(s: string, a: int, c: int)
    requires OccursAt(s, AbstractMarker, a) && OccursAt(s, ConclusionMarker, c)
    requires a < c
    ensures a + |AbstractMarker| <= c
  {
    assert s[c] == ConclusionMarker[0] == 'c';
    assert s[c + 1] == ConclusionMarker[1] == 'o';
    assert forall k | 0 <= k < |AbstractMarker| :: s[a + k] == AbstractMarker[k];
  }

  /**
   * With both markers present and "abstract" first, the section is the text
   * from the first "abstract" up to the first "conclusion": it starts with
   * the abstract marker and holds no "conclusion" in any case.
   */
  lemma SectionRunsFromAbstractToConclusion(extracted: string, a: nat, c: nat)
    requires var lower := Lower(extracted);
      && OccursAt(lower, AbstractMarker, a) && (forall j | j < a :: !OccursAt(lower, AbstractMarker, j))
      && OccursAt(lower, ConclusionMarker, c) && (forall j | j < c :: !OccursAt(lower, ConclusionMarker, j))
    requires a < c
    ensures SelectSection(extracted) == extracted[a..c]
    ensures OccursAt(Lower(SelectSection(extracted)), AbstractMarker, 0)
    ensures forall j :: !OccursAt(Lower(SelectSection(extracted)), ConclusionMarker, j)
  {
    var lower := Lower(extracted);
    assert Find(lower, AbstractMarker) == a;
    assert Find(lower, ConclusionMarker) == c;
    assert SelectSection(extracted) == extracted[a..c];
    MarkersDoNotOverlap(lower, a, c);
    LowerSlice(extracted, a, c);
    SliceKeepsMarker(lower, a, c);
    SliceBeforeFirstHasNoMarker(lower, a, c);
  }

  /** A slice that begins at an occurrence long enough to hold it begins with the marker. */
  lemma SliceKeepsMarker(lower: string, a: nat, c: nat)
    requires OccursAt(lower, AbstractMarker, a) && a + |AbstractMarker| <= c <= |lower|
    ensures OccursAt(lower[a..c], AbstractMarker, 0)
  {
    assert lower[a..c][0..|AbstractMarker|] == lower[a..a + |AbstractMarker|];
  }

  /** A slice ending at the first occurrence of "conclusion" holds no occurrence of it. */
  lemma SliceBeforeFirstHasNoMarker(lower: string, a: nat, c: nat)
    requires a <= c <= |lower|
    requires forall j | j < c :: !OccursAt(lower, ConclusionMarker, j)
    ensures forall j :: !OccursAt(lower[a..c], ConclusionMarker, j)
  {
    var r := lower[a..c];
    forall j | OccursAt(r, ConclusionMarker, j)
      ensures false
    {
      var n := |ConclusionMarker|;
      assert 0 <= j && j + n <= c - a;
      var w := r[j..j + n];
      forall k | 0 <= k < n
        ensures w[k] == lower[a + j + k]
      {
        assert w[k] == r[j + k];
      }
      assert w == lower[a + j..a + j + n];
      assert OccursAt(lower, ConclusionMarker, a + j);
    }
  }

  /** When the first "conclusion" comes before the first "abstract", nothing is summarised. */
  lemma SectionEmptyWhenConclusionFirst(extracted: string, a: nat, c: nat)
    requires var lower := Lower(extracted);
      && OccursAt(lower, AbstractMarker, a) && (forall j | j < a :: !OccursAt(lower, AbstractMarker, j))
      && OccursAt(lower, ConclusionMarker, c) && (forall j | j < c :: !OccursAt(lower, ConclusionMarker, j))
    requires c < a
    ensures SelectSection(extracted) == ""
  {
    var lower := Lower(extracted);
    assert Find(lower, AbstractMarker) == a;
    assert Find(lower, ConclusionMarker) == c;
  }

  /** Without either marker, the first 3000 characters are summarised. */
  lemma SectionFallsBackToPrefix(extracted: string)
    requires var lower := Lower(extracted);
      || (forall j :: !OccursAt(lower, AbstractMarker, j))
      || (forall j :: !OccursAt(lower, ConclusionMarker, j))
    ensures SelectSection(extracted) == extracted[..Min(|extracted|, FallbackLength)]
    ensures |SelectSection(extracted)| == Min(|extracted|, FallbackLength)
  {
  }
}
