/** `calculateSimilarity` and `areSimilar`: both arguments are cleaned, their
    Levenshtein distance is divided by the longer cleaned length and
    subtracted from 1, and a guess is accepted when that ratio is at least 0.8. */
module StringMatch {
  import opened EditDistance
  import opened TitleCleaning

  /** A JavaScript number as far as the matcher produces one: `NaN` (from
      `0 / 0`, when both strings clean to the empty string) or a finite value,
      held exactly. */
  datatype Number = NaN | Finite(value: real)

  /** The fixed acceptance threshold of `areSimilar`. */
  const Threshold: real := 0.8

  /** `x >= bound` in JavaScript: false whenever `x` is `NaN`. */
  predicate AtLeast(x: Number, bound: real)
    ensures AtLeast(x, bound) ==> !x.NaN?
  {
    x.Finite? && x.value >= bound
  }

  /** The longer of the two cleaned lengths. */
  function MaxCleanLength(str1: seq<char>, str2: seq<char>): nat {
    Max(|CleanTitle(str1)|, |CleanTitle(str2)|)
  }

  /** `1 - distance / maxLength` in JavaScript arithmetic: `0 / 0` is `NaN`,
      and `NaN` minus anything stays `NaN`; a distance is never non-zero over
      a zero length, so no infinity arises. */
  function OneMinusRatio(distance: nat, maxLength: nat): (r: Number)
    ensures r.NaN? <==> maxLength == 0
    ensures r.Finite? ==> r.value <= 1.0
  {
    if maxLength == 0 then NaN else Finite(1.0 - distance as real / maxLength as real)
  }

  /** `calculateSimilarity`: `NaN` exactly when both arguments clean to the
      empty string, as `0 / 0` makes it. */
  function CalculateSimilarity(str1: seq<char>, str2: seq<char>): (r: Number)
    ensures r.NaN? <==> CleanTitle(str1) == [] && CleanTitle(str2) == []
  {
    var s1 := CleanTitle(str1);
    var s2 := CleanTitle(str2);
    var maxLength := Max(|s1|, |s2|);
    var distance := Distance(s1, s2);
    OneMinusRatio(distance, maxLength)
  }

  /** `areSimilar`: the similarity is at least the threshold; two strings
      that both clean to nothing are never similar. */
  predicate AreSimilar(str1: seq<char>, str2: seq<char>)
    ensures AreSimilar(str1, str2) ==> CleanTitle(str1) != [] || CleanTitle(str2) != []
  {
    AtLeast(CalculateSimilarity(str1, str2), Threshold)
  }

  /** The similarity is NaN exactly when both arguments clean to the empty
      string; otherwise it lies in [0, 1]. */
  lemma SimilarityRange(str1: seq<char>, str2: seq<char>)
    ensures CalculateSimilarity(str1, str2).NaN? <==> CleanTitle(str1) == [] && CleanTitle(str2) == []
    ensures CalculateSimilarity(str1, str2).Finite? ==>
              0.0 <= CalculateSimilarity(str1, str2).value <= 1.0
  {
    var s1, s2 := CleanTitle(str1), CleanTitle(str2);
    var m := Max(|s1|, |s2|);
    DistanceBounds(s1, s2);
    if m > 0 {
      RatioInUnitInterval(Distance(s1, s2), m);
    }
  }

  /** The similarity is exactly 1 when, and only when, the two arguments clean
      to the same non-empty string. */
  lemma SimilarityOneIffSameClean(str1: seq<char>, str2: seq<char>)
    ensures CalculateSimilarity(str1, str2) == Finite(1.0) <==>
              CleanTitle(str1) == CleanTitle(str2) && CleanTitle(str1) != []
  {
    RatioOneIffEqual(CleanTitle(str1), CleanTitle(str2));
  }

  /** The same on the cleaned strings themselves. */
  lemma RatioOneIffEqual(s1: seq<char>, s2: seq<char>)
    ensures OneMinusRatio(Distance(s1, s2), Max(|s1|, |s2|)) == Finite(1.0) <==> s1 == s2 && s1 != []
  {
    var m := Max(|s1|, |s2|);
    DistanceZeroIff(s1, s2);
    if m > 0 {
      RatioIsOne(Distance(s1, s2), m);
    }
  }

  /** The similarity does not depend on the order of the arguments. */
  lemma SimilaritySymmetric(str1: seq<char>, str2: seq<char>)
    ensures CalculateSimilarity(str1, str2) == CalculateSimilarity(str2, str1)
  {
    var s1, s2 := CleanTitle(str1), CleanTitle(str2);
    var d, m := Distance(s1, s2), Max(|s1|, |s2|);
    DistanceSymmetric(s1, s2);
    assert Distance(s2, s1) == d && Max(|s2|, |s1|) == m;
  }

  /** `areSimilar` does not depend on the order of its arguments. */
  lemma AreSimilarSymmetric(str1: seq<char>, str2: seq<char>)
    ensures AreSimilar(str1, str2) == AreSimilar(str2, str1)
  {
    SimilaritySymmetric(str1, str2);
  }

  /** `areSimilar` as an integer test: the cleaned strings are not both empty
      and five times their distance is at most the longer cleaned length. */
  lemma AreSimilarIff(str1: seq<char>, str2: seq<char>)
    ensures AreSimilar(str1, str2) <==>
              MaxCleanLength(str1, str2) > 0 &&
              5 * Distance(CleanTitle(str1), CleanTitle(str2)) <= MaxCleanLength(str1, str2)
  {
    var m := MaxCleanLength(str1, str2);
    if m > 0 {
      RatioAtLeastThreshold(Distance(CleanTitle(str1), CleanTitle(str2)), m);
    }
  }

  /** A guess that cleans to the empty string (no answer, or only brackets,
      punctuation and non-ASCII text) is never similar to anything, and nothing
      is similar to a reference that cleans to the empty string. */
  lemma EmptyCleanNeverSimilar(answer: seq<char>, reference: seq<char>)
    requires CleanTitle(answer) == []
    ensures !AreSimilar(answer, reference)
    ensures !AreSimilar(reference, answer)
  {
    DistanceBounds(CleanTitle(answer), CleanTitle(reference));
    AreSimilarIff(answer, reference);
    AreSimilarSymmetric(answer, reference);
  }

  /** Guesses that differ from the reference only in letter case match it,
      provided the reference does not clean to the empty string. */
  lemma CaseInsensitive(answer: seq<char>, reference: seq<char>)
    requires ToLower(answer) == ToLower(reference)
    requires CleanTitle(reference) != []
    ensures CalculateSimilarity(answer, reference) == Finite(1.0)
    ensures AreSimilar(answer, reference)
  {
    SimilarityOneIffSameClean(answer, reference);
  }

  /** A lower-case guess without the annotation matches the annotated title
      exactly: both clean to `song`. */
  lemma LiveAnnotationMatchExample()
    ensures CalculateSimilarity("song", "Song (Live)") == Finite(1.0)
    ensures AreSimilar("song", "Song (Live)")
  {
    SongCleansToSong();
    CleanIsFixpoint("song");
    LiveAnnotationExample();
    SimilarityOneIffSameClean("song", "Song (Live)");
  }

  // ---------------------------------------------------------------------
  // The ratio 1 - d/m for 0 <= d <= m, m > 0
  // ---------------------------------------------------------------------

  lemma RatioInUnitInterval(d: nat, m: nat)
    requires 0 < m && d <= m
    ensures 0.0 <= 1.0 - d as real / m as real <= 1.0
  {
    var q := d as real / m as real;
    assert q * m as real == d as real;
  }

  lemma RatioIsOne(d: nat, m: nat)
    requires 0 < m
    ensures 1.0 - d as real / m as real == 1.0 <==> d == 0
  {
    var q := d as real / m as real;
    assert q * m as real == d as real;
  }

  lemma RatioAtLeastThreshold(d: nat, m: nat)
    requires 0 < m
    ensures 1.0 - d as real / m as real >= Threshold <==> 5 * d <= m
  {
    var q, mr := d as real / m as real, m as real;
    assert q * mr == d as real;
    assert (5 * d) as real == 5.0 * d as real;
    if q <= 0.2 {
      ScaleByPositive(q, 0.2, mr);
      assert d as real <= 0.2 * mr;
      assert 5.0 * d as real <= mr;
    } else {
      ScaleByPositive(0.2, q, mr);
      assert 0.2 * mr < d as real;
      assert mr < 5.0 * d as real;
    }
  }

  /** Multiplying both sides by a positive factor keeps the order. */
  lemma ScaleByPositive(x: real, y: real, c: real)
    requires x <= y && 0.0 < c
    ensures x * c <= y * c
    ensures x < y ==> x * c < y * c
  {
  }
}
