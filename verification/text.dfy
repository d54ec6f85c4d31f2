/**
 String helpers for the path manipulation done by the output-name
 expressions: Python's `str.split` with a one-character separator, the first
 and the last field of such a split, and the substring test `pat in s`.
 Strings are sequences of Unicode code points, as Python's `str` is.
 */
module Text {

  /** Python's `s.split(sep)` for a one-character separator: the maximal
      runs of non-separator characters, including empty runs at either end
      and between adjacent separators. There is always at least one field. */
  function Split(s: string, sep: char): (fields: seq<string>)
    ensures |fields| >= 1
    ensures forall k :: 0 <= k < |fields| ==> sep !in fields[k]
  {
    if s == [] then [[]]
    else
      var rest := Split(s[1..], sep);
      if s[0] == sep then [[]] + rest
      else [[s[0]] + rest[0]] + rest[1..]
  }

  /** Python's `sep.join(fields)` for a one-character separator. */
  function Join(fields: seq<string>, sep: char): string
  {
    if |fields| == 0 then []
    else if |fields| == 1 then fields[0]
    else fields[0] + [sep] + Join(fields[1..], sep)
  }

  /** Splitting and joining again gives back the original text. */
  lemma {:induction false} JoinSplit(s: string, sep: char)
    ensures Join(Split(s, sep), sep) == s
  {
    if s != [] {
      var rest := Split(s[1..], sep);
      JoinSplit(s[1..], sep);
      if s[0] == sep {
        assert Split(s, sep) == [[]] + rest;
      } else {
        var fields := Split(s, sep);
        assert fields == [[s[0]] + rest[0]] + rest[1..];
        if |rest| == 1 {
          assert Join(rest, sep) == rest[0];
        } else {
          assert fields[1..] == rest[1..];
          assert Join(rest, sep) == rest[0] + [sep] + Join(rest[1..], sep);
        }
      }
    }
  }

  /** The text before the first `sep`, or all of `s` when there is none:
      Python's `s.split(sep)[0]`. */
  function FirstField(s: string, sep: char): (r: string)
    ensures r <= s
    ensures sep !in r
    ensures r == s || s[|r|] == sep
  {
    if s == [] || s[0] == sep then [] else [s[0]] + FirstField(s[1..], sep)
  }

  /** The text after the last `sep`, or all of `s` when there is none:
      Python's `s.split(sep)[-1]`. */
  function LastField(s: string, sep: char): (r: string)
    ensures |r| <= |s| && r == s[|s| - |r|..]
    ensures sep !in r
    ensures r == s || s[|s| - |r| - 1] == sep
  {
    if s == [] || s[|s| - 1] == sep then []
    else LastField(s[..|s| - 1], sep) + [s[|s| - 1]]
  }

  /** The three properties FirstField promises determine its result. */
  lemma {:induction false} FirstFieldUnique(s: string, sep: char, r: string)
    requires r <= s && sep !in r && (r == s || s[|r|] == sep)
    ensures r == FirstField(s, sep)
  {
  }

  /** The three properties LastField promises determine its result. */
  lemma {:induction false} LastFieldUnique(s: string, sep: char, r: string)
    requires |r| <= |s| && r == s[|s| - |r|..] && sep !in r
    requires r == s || s[|s| - |r| - 1] == sep
    ensures r == LastField(s, sep)
  {
  }

  /** The first field of a split is FirstField. */
  lemma {:induction false} SplitFirst(s: string, sep: char)
    ensures Split(s, sep)[0] == FirstField(s, sep)
  {
    if s != [] && s[0] != sep {
      SplitFirst(s[1..], sep);
    }
  }

  /** The last field of a split is LastField. */
  lemma {:induction false} SplitLast(s: string, sep: char)
    ensures Split(s, sep)[|Split(s, sep)| - 1] == LastField(s, sep)
  {
    var fields := Split(s, sep);
    var last := fields[|fields| - 1];
    JoinSplit(s, sep);
    JoinLast(fields, sep);
    LastFieldUnique(s, sep, last);
  }

  /** The last field of a join is a suffix of the joined text, preceded by
      a separator unless it is the whole text. */
  lemma {:induction false} JoinLast(fields: seq<string>, sep: char)
    requires |fields| >= 1
    ensures var j := Join(fields, sep); var last := fields[|fields| - 1];
      |last| <= |j| && last == j[|j| - |last|..] &&
      (|fields| == 1 || (|last| < |j| && j[|j| - |last| - 1] == sep))
  {
    if |fields| > 1 {
      JoinLast(fields[1..], sep);
      var j := Join(fields, sep);
      var tail := Join(fields[1..], sep);
      assert j == fields[0] + [sep] + tail;
      assert fields[|fields| - 1] == fields[1..][|fields[1..]| - 1];
    }
  }

  /** `pat` occurs in `s` starting at index `i`. */
  ghost predicate OccursAt(s: string, pat: string, i: int)
  {
    0 <= i && i + |pat| <= |s| && s[i..i + |pat|] == pat
  }

  /** A text without the first character of `pat` does not contain `pat`. */
  lemma {:induction false} MissingFirstCharacter(s: string, pat: string)
    requires pat != [] && pat[0] !in s
    ensures !Contains(s, pat)
  {
  }

  /** Python's `pat in s`: true exactly when `pat` occurs as a contiguous
      substring of `s` somewhere. */
  function Contains(s: string, pat: string): (b: bool)
    ensures b <==> exists i :: OccursAt(s, pat, i)
  {
    if pat <= s then
      assert OccursAt(s, pat, 0);
      true
    else if s == [] then
      false
    else
      var b := Contains(s[1..], pat);
      assert b ==> exists i :: OccursAt(s, pat, i) by {
        if b {
          var i :| OccursAt(s[1..], pat, i);
          assert s[i + 1..i + 1 + |pat|] == s[1..][i..i + |pat|];
          assert OccursAt(s, pat, i + 1);
        }
      }
      assert (exists i :: OccursAt(s, pat, i)) ==> b by {
        if exists i :: OccursAt(s, pat, i) {
          var i :| OccursAt(s, pat, i);
          assert s[1..][i - 1..i - 1 + |pat|] == s[i..i + |pat|];
          assert OccursAt(s[1..], pat, i - 1);
        }
      }
      b
  }
}
