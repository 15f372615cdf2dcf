/** The text normalisation the blank-answer grader applies to both sides:
    Python's `s.strip().lower()`, restricted to ASCII. */
module Text {

  /** Python's `str.isspace()` on ASCII: space, the controls \t \n \v \f \r
      (9..13) and the separators \x1c..\x1f (28..31). */
  predicate IsSpace(c: char) {
    c == ' ' || (9 <= c as int <= 13) || (28 <= c as int <= 31)
  }

  /** The ASCII whitespace of `str.isspace()`, listed one by one: space,
      tab, newline, vertical tab, form feed, carriage return and the four
      separators. No letter or digit is whitespace, so strip never removes
      any of an answer's text. */
  lemma {:induction false} SpaceCharacters(c: char)
    ensures IsSpace(c) <==> c in {' ', '\t', '\n', '\U{0B}', '\U{0C}', '\r', '\U{1C}', '\U{1D}', '\U{1E}', '\U{1F}'}
    ensures IsSpace(c) ==> !('A' <= c <= 'Z') && !('a' <= c <= 'z') && !('0' <= c <= '9')
  {
  }

  predicate IsUpper(c: char) {
    'A' <= c <= 'Z'
  }

  /** True iff every character of `w` is whitespace. */
  predicate AllSpace(w: string) {
    forall i :: 0 <= i < |w| ==> IsSpace(w[i])
  }

  /** Python's `str.lower()` on one ASCII character. */
  function LowerChar(c: char): (d: char)
    ensures !IsUpper(d)
    ensures IsSpace(d) == IsSpace(c)
    ensures !IsUpper(c) ==> d == c
    ensures IsUpper(c) ==> 'a' <= d <= 'z' && d as int - 'a' as int == c as int - 'A' as int
  {
    if IsUpper(c) then (c as int + 32) as char else c
  }

  /** `s.lower()`: the same length, no upper-case letter left, and every
      other character kept where it was. */
  function Lower(s: string): (r: string)
    ensures |r| == |s|
    ensures forall i :: 0 <= i < |r| ==> !IsUpper(r[i])
    ensures forall i :: 0 <= i < |s| && !IsUpper(s[i]) ==> r[i] == s[i]
    ensures forall i :: 0 <= i < |s| && IsUpper(s[i]) ==> r[i] as int == s[i] as int + 32
  {
    seq(|s|, i requires 0 <= i < |s| => LowerChar(s[i]))
  }

  /** `s.lstrip()`: the longest suffix of `s` that does not start with
      whitespace; everything dropped is whitespace. */
  function LStrip(s: string): (r: string)
    ensures |r| <= |s| && r == s[|s| - |r|..]
    ensures AllSpace(s[..|s| - |r|])
    ensures r == [] || !IsSpace(r[0])
  {
    if s != [] && IsSpace(s[0]) then
      var r := LStrip(s[1..]);
      assert s[1..][..|s| - 1 - |r|] == s[1..|s| - |r|];
      r
    else
      s
  }

  /** `s.rstrip()`: the longest prefix of `s` that does not end with
      whitespace; everything dropped is whitespace. */
  function RStrip(s: string): (r: string)
    ensures |r| <= |s| && r == s[..|r|]
    ensures AllSpace(s[|r|..])
    ensures r == [] || !IsSpace(r[|r| - 1])
  {
    if s != [] && IsSpace(s[|s| - 1]) then
      var r := RStrip(s[..|s| - 1]);
      assert s[|r|..] == s[..|s| - 1][|r|..] + [s[|s| - 1]];
      r
    else
      s
  }

  /** `s.strip()`: neither end of the result is whitespace. */
  function Strip(s: string): (r: string)
    ensures |r| <= |s|
    ensures r == [] || (!IsSpace(r[0]) && !IsSpace(r[|r| - 1]))
  {
    var t := LStrip(s);
    var r := RStrip(t);
    assert r != [] ==> r[0] == t[0];
    r
  }

  /** `s.strip().lower()`, the canonical form compared by blank questions:
      the lower-cased piece of `s` left after removing the whitespace on
      both sides. */
  function Normalize(s: string): (r: string)
    ensures |r| <= |s|
    ensures forall i :: 0 <= i < |r| ==> !IsUpper(r[i])
    ensures r == [] || (!IsSpace(r[0]) && !IsSpace(r[|r| - 1]))
  {
    LowerOfStrip(s);
    Lower(Strip(s))
  }

  /** Lower-casing keeps the first and the last character whitespace or not. */
  lemma {:induction false} LowerKeepsEnds(t: string)
    ensures t != [] ==> IsSpace(Lower(t)[0]) == IsSpace(t[0])
                        && IsSpace(Lower(t)[|t| - 1]) == IsSpace(t[|t| - 1])
  {
  }

  /** Lower-casing the strip of `s` leaves no upper-case letter and no
      whitespace at either end, and is no longer than `s`. */
  lemma {:induction false} LowerOfStrip(s: string)
    ensures |Lower(Strip(s))| <= |s|
    ensures forall i :: 0 <= i < |Lower(Strip(s))| ==> !IsUpper(Lower(Strip(s))[i])
    ensures Lower(Strip(s)) == [] || (!IsSpace(Lower(Strip(s))[0]) && !IsSpace(Lower(Strip(s))[|Lower(Strip(s))| - 1]))
  {
    LowerKeepsEnds(Strip(s));
  }

  /** A piece `r` at the front of a suffix `t` of `s`, with whitespace
      before `t` and after `r`, is a piece of `s` with whitespace around it. */
  lemma {:induction false} InfixOfSuffix(s: string, t: string, r: string, i: nat)
    requires i <= |s| && s[i..] == t && AllSpace(s[..i])
    requires |r| <= |t| && r == t[..|r|] && AllSpace(t[|r|..])
    ensures i + |r| <= |s| && s[i..i + |r|] == r
    ensures AllSpace(s[..i]) && AllSpace(s[i + |r|..])
  {
    assert s[i + |r|..] == t[|r|..];
  }

  /** Where the kept piece starts: only whitespace lies before and after it. */
  lemma {:induction false} StripSplit(s: string) returns (i: nat)
    ensures i + |Strip(s)| <= |s| && s[i..i + |Strip(s)|] == Strip(s)
    ensures AllSpace(s[..i]) && AllSpace(s[i + |Strip(s)|..])
  {
    var t := LStrip(s);
    var r := RStrip(t);
    i := |s| - |t|;
    InfixOfSuffix(s, t, r, i);
  }

  /** What strip removes is whitespace on both sides, and what it keeps is a
      contiguous piece of the input. */
  lemma {:induction false} StripIsTrimmedInfix(s: string)
    ensures exists i :: 0 <= i <= i + |Strip(s)| <= |s|
                        && s[i..i + |Strip(s)|] == Strip(s)
                        && AllSpace(s[..i]) && AllSpace(s[i + |Strip(s)|..])
  {
    var i := StripSplit(s);
  }

  /** Lower-casing a piece `p` of `s` that has only whitespace around it
      gives a string `n` that is the lower-cased slice of `s` of the same
      length, with the same whitespace around it. */
  lemma {:induction false} LowerPiece(s: string, i: nat, p: string, n: string)
    requires i + |p| <= |s| && s[i..i + |p|] == p
    requires AllSpace(s[..i]) && AllSpace(s[i + |p|..])
    requires n == Lower(p)
    ensures i + |n| <= |s| && n == Lower(s[i..i + |n|])
    ensures AllSpace(s[..i]) && AllSpace(s[i + |n|..])
  {
  }

  lemma {:induction false} NormalizeUnfold(s: string)
    ensures Normalize(s) == Lower(Strip(s))
  {
  }

  /** Where the normal form comes from: only whitespace lies before and
      after the piece of `s` it lower-cases. */
  lemma {:induction false} NormalizeSplit(s: string) returns (i: nat)
    ensures i + |Normalize(s)| <= |s| && Normalize(s) == Lower(s[i..i + |Normalize(s)|])
    ensures AllSpace(s[..i]) && AllSpace(s[i + |Normalize(s)|..])
  {
    NormalizeUnfold(s);
    i := StripSplit(s);
    LowerPiece(s, i, Strip(s), Normalize(s));
  }

  /** The normal form is exactly the lower-cased piece of the input that
      is left once the whitespace on both sides is removed. */
  lemma {:induction false} NormalizeIsLoweredTrimmedInfix(s: string)
    ensures exists i :: 0 <= i <= i + |Normalize(s)| <= |s|
                        && Normalize(s) == Lower(s[i..i + |Normalize(s)|])
                        && AllSpace(s[..i]) && AllSpace(s[i + |Normalize(s)|..])
  {
    var i := NormalizeSplit(s);
  }

  lemma {:induction false} LowerIdempotent(s: string)
    ensures Lower(Lower(s)) == Lower(s)
  {
  }

  /** Lower-casing works character by character, so it commutes with slicing. */
  lemma {:induction false} LowerSlices(s: string, n: nat)
    requires n <= |s|
    ensures Lower(s)[..n] == Lower(s[..n]) && Lower(s)[n..] == Lower(s[n..])
  {
  }

  lemma {:induction false} LStripLower(s: string)
    ensures LStrip(Lower(s)) == Lower(LStrip(s))
    decreases |s|
  {
    if s != [] {
      assert Lower(s)[0] == LowerChar(s[0]);
      if IsSpace(s[0]) {
        LowerSlices(s, 1);
        LStripLower(s[1..]);
        assert LStrip(Lower(s)) == LStrip(Lower(s)[1..]);
      } else {
        assert LStrip(Lower(s)) == Lower(s);
      }
    }
  }

  lemma {:induction false} RStripLower(s: string)
    ensures RStrip(Lower(s)) == Lower(RStrip(s))
    decreases |s|
  {
    if s != [] {
      assert Lower(s)[|s| - 1] == LowerChar(s[|s| - 1]);
      if IsSpace(s[|s| - 1]) {
        LowerSlices(s, |s| - 1);
        RStripLower(s[..|s| - 1]);
        assert RStrip(Lower(s)) == RStrip(Lower(s)[..|s| - 1]);
      } else {
        assert RStrip(Lower(s)) == Lower(s);
      }
    }
  }

  /** Stripping and lower-casing commute, because lower-casing never turns a
      character into whitespace or whitespace into something else. */
  lemma {:induction false} StripLower(s: string)
    ensures Strip(Lower(s)) == Lower(Strip(s))
  {
    LStripLower(s);
    RStripLower(LStrip(s));
  }

  /** Two texts that differ only in the case of ASCII letters normalise alike. */
  lemma {:induction false} NormalizeIgnoresCase(u: string, v: string)
    requires Lower(u) == Lower(v)
    ensures Normalize(u) == Normalize(v)
  {
    StripLower(u);
    StripLower(v);
  }

  lemma {:induction false} LStripSpacePrefix(w: string, t: string)
    requires AllSpace(w)
    ensures LStrip(w + t) == LStrip(t)
    decreases |w|
  {
    if w != [] {
      assert IsSpace(w[0]) && (w + t)[0] == w[0];
      assert (w + t)[1..] == w[1..] + t;
      var rest := w[1..];
      assert AllSpace(rest) by {
        forall i | 0 <= i < |rest| ensures IsSpace(rest[i]) { assert rest[i] == w[i + 1]; }
      }
      LStripSpacePrefix(rest, t);
      assert LStrip(w + t) == LStrip(rest + t);
    } else {
      assert w + t == t;
    }
  }

  lemma {:induction false} RStripSpaceSuffix(t: string, w: string)
    requires AllSpace(w)
    ensures RStrip(t + w) == RStrip(t)
    decreases |w|
  {
    if w != [] {
      assert IsSpace(w[|w| - 1]) && (t + w)[|t + w| - 1] == w[|w| - 1];
      var rest := w[..|w| - 1];
      assert (t + w)[..|t + w| - 1] == t + rest;
      assert AllSpace(rest) by {
        forall i | 0 <= i < |rest| ensures IsSpace(rest[i]) { assert rest[i] == w[i]; }
      }
      RStripSpaceSuffix(t, rest);
      assert RStrip(t + w) == RStrip(t + rest);
    } else {
      assert t + w == t;
    }
  }

  /** Left-stripping `t + w` either strips into `w` (when `t` is all
      whitespace) or stops inside `t` and keeps `w` whole. */
  lemma {:induction false} LStripAppend(t: string, w: string)
    ensures LStrip(t + w) == if AllSpace(t) then LStrip(w) else LStrip(t) + w
    decreases |t|
  {
    if AllSpace(t) {
      LStripSpacePrefix(t, w);
    } else {
      assert t != [];
      if IsSpace(t[0]) {
        assert (t + w)[1..] == t[1..] + w;
        assert !AllSpace(t[1..]) by {
          var k :| 0 <= k < |t| && !IsSpace(t[k]);
          assert t[1..][k - 1] == t[k];
        }
        LStripAppend(t[1..], w);
      }
    }
  }

  /** A text made only of whitespace strips to nothing. */
  lemma {:induction false} LStripAllSpace(w: string)
    requires AllSpace(w)
    ensures LStrip(w) == []
  {
    LStripSpacePrefix(w, []);
    assert w + [] == w;
  }

  /** Strip ignores whitespace added on the left. */
  lemma {:induction false} StripIgnoresSpacePrefix(w: string, t: string)
    requires AllSpace(w)
    ensures Strip(w + t) == Strip(t)
  {
    LStripSpacePrefix(w, t);
  }

  /** Strip ignores whitespace added on the right. */
  lemma {:induction false} StripIgnoresSpaceSuffix(s: string, w: string)
    requires AllSpace(w)
    ensures Strip(s + w) == Strip(s)
  {
    LStripAppend(s, w);
    if AllSpace(s) {
      LStripAllSpace(s);
      LStripAllSpace(w);
    } else {
      RStripSpaceSuffix(LStrip(s), w);
    }
  }

  /** Strip ignores whitespace added on either side. */
  lemma {:induction false} StripIgnoresSurroundingSpace(w1: string, s: string, w2: string)
    requires AllSpace(w1) && AllSpace(w2)
    ensures Strip(w1 + s + w2) == Strip(s)
  {
    assert w1 + s + w2 == w1 + (s + w2);
    StripIgnoresSpacePrefix(w1, s + w2);
    assert Strip(w1 + (s + w2)) == Strip(s + w2);
    StripIgnoresSpaceSuffix(s, w2);
  }

  /** Normalisation ignores surrounding whitespace. */
  lemma {:induction false} NormalizeIgnoresSurroundingSpace(w1: string, s: string, w2: string)
    requires AllSpace(w1) && AllSpace(w2)
    ensures Normalize(w1 + s + w2) == Normalize(s)
  {
    StripIgnoresSurroundingSpace(w1, s, w2);
  }

  /** Normalising twice is normalising once. */
  lemma {:induction false} NormalizeIdempotent(s: string)
    ensures Normalize(Normalize(s)) == Normalize(s)
  {
    var t := Strip(s);
    StripLower(t);
    assert LStrip(t) == t;
    assert RStrip(t) == t;
    LowerIdempotent(t);
  }
}
