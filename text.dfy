/**
 * The two string operations the discovery filters use: lower-casing and
 * the substring test of the `in` operator on strings.
 */
module Text {

  predicate IsUpper(c: char) {
    'A' <= c <= 'Z'
  }

  /** Lower-cases one character; only the 26 ASCII capitals change. */
  function LowerChar(c: char): (r: char)
    ensures !IsUpper(r)
    ensures IsUpper(c) ==> r as int - c as int == 'a' as int - 'A' as int
    ensures !IsUpper(c) ==> r == c
  {
    if IsUpper(c) then (c as int - 'A' as int + 'a' as int) as char else c
  }

  /**
   * Lower-cases a string character by character: the result holds no ASCII
   * capital, and a character without a capital in `s` is kept.
   */
  function Lower(s: string): (r: string)
    ensures |r| == |s|
    ensures forall i :: 0 <= i < |s| ==> r[i] == LowerChar(s[i])
    ensures forall i :: 0 <= i < |r| ==> !IsUpper(r[i])
    ensures (forall i :: 0 <= i < |s| ==> !IsUpper(s[i])) ==> r == s
  {
    seq(|s|, i requires 0 <= i < |s| => LowerChar(s[i]))
  }

  /** Lower-casing a lower-cased string changes nothing. */
  lemma LowerIdempotent(s: string)
    ensures Lower(Lower(s)) == Lower(s)
  {
  }

  /**
   * Two strings are equal once lower-cased exactly when they have the same
   * length and agree position by position up to ASCII case.
   */
  lemma LowerEqualIff(s: string, u: string)
    ensures Lower(s) == Lower(u) <==>
              |s| == |u| && forall i :: 0 <= i < |s| ==> LowerChar(s[i]) == LowerChar(u[i])
  {
    if |s| == |u| && forall i :: 0 <= i < |s| ==> LowerChar(s[i]) == LowerChar(u[i]) {
      assert forall i :: 0 <= i < |s| ==> Lower(s)[i] == Lower(u)[i];
    }
  }

  /**
   * The substring test `needle in hay`: `needle` is a prefix of `hay` or of
   * one of its suffixes. The empty string is in every string.
   */
  predicate Contains(hay: string, needle: string)
    decreases |hay|
  {
    needle <= hay || (hay != [] && Contains(hay[1..], needle))
  }

  /** `needle` occurs in `hay` starting at index `i`. */
  predicate OccursAt(hay: string, needle: string, i: int) {
    0 <= i <= |hay| - |needle| && hay[i..i + |needle|] == needle
  }

  /** A slice of the tail of `hay` is the slice of `hay` one position further on. */
  lemma TailSlice(hay: string, j: int, n: int)
    requires hay != [] && 0 <= j && 0 <= n && j + n <= |hay| - 1
    ensures hay[1..][j..j + n] == hay[j + 1..j + 1 + n]
  {
  }

  /** An occurrence at index `i` makes `Contains` hold. */
  lemma {:induction false} OccursContains(hay: string, needle: string, i: int)
    requires OccursAt(hay, needle, i)
    ensures Contains(hay, needle)
    decreases i
  {
    var n := |needle|;
    if i == 0 {
      assert hay[..n] == needle;
    } else {
      TailSlice(hay, i - 1, n);
      OccursContains(hay[1..], needle, i - 1);
    }
  }

  /** `Contains` holds exactly when `needle` occurs at some position of `hay`. */
  lemma {:induction false} ContainsIffOccurs(hay: string, needle: string)
    ensures Contains(hay, needle) <==> exists i :: OccursAt(hay, needle, i)
    decreases |hay|
  {
    var n := |needle|;
    if needle <= hay {
      assert OccursAt(hay, needle, 0);
    } else if hay != [] {
      ContainsIffOccurs(hay[1..], needle);
      if Contains(hay[1..], needle) {
        var j :| OccursAt(hay[1..], needle, j);
        TailSlice(hay, j, n);
        assert OccursAt(hay, needle, j + 1);
      }
    }
    forall i | OccursAt(hay, needle, i)
      ensures Contains(hay, needle)
    {
      OccursContains(hay, needle, i);
    }
  }
}
