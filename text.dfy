/** The string operations the puzzle reader applies to its input lines:
    Python's `str.strip()`, `str.split(sep)`, the substitution that deletes
    every ASCII digit, `str.replace(old, '')` and `int()` on a digit string. */
module Text {
  import opened Wrappers

  /** The ASCII characters that `str.strip()` removes. */
  predicate IsWhitespace(ch: char)
  {
    ch == ' ' || 9 <= ch as int <= 13 || 28 <= ch as int <= 31
  }

  predicate IsDigit(ch: char)
  {
    '0' <= ch <= '9'
  }

  predicate AllDigits(s: string)
  {
    forall k :: 0 <= k < |s| ==> IsDigit(s[k])
  }

  predicate NoDigits(s: string)
  {
    forall k :: 0 <= k < |s| ==> !IsDigit(s[k])
  }

  /** `s.lstrip()`: the longest suffix of `s` that does not start with whitespace. */
  function StripLeft(s: string): (r: string)
    ensures |r| <= |s| && r == s[|s| - |r|..]
    ensures forall k :: 0 <= k < |s| - |r| ==> IsWhitespace(s[k])
    ensures r != [] ==> !IsWhitespace(r[0])
  {
    if |s| > 0 && IsWhitespace(s[0]) then StripLeft(s[1..]) else s
  }

  /** `s.rstrip()`: the longest prefix of `s` that does not end with whitespace. */
  function StripRight(s: string): (r: string)
    ensures |r| <= |s| && r == s[..|r|]
    ensures forall k :: |r| <= k < |s| ==> IsWhitespace(s[k])
    ensures r != [] ==> !IsWhitespace(r[|r| - 1])
  {
    if |s| > 0 && IsWhitespace(s[|s| - 1]) then StripRight(s[..|s| - 1]) else s
  }

  /** r is s with a leading whitespace run of length a and a trailing
      whitespace run cut off. */
  predicate TrimmedAt(s: string, r: string, a: int)
  {
    && 0 <= a <= |s| - |r| && r == s[a..a + |r|]
    && (forall k :: 0 <= k < a ==> IsWhitespace(s[k]))
    && (forall k :: a + |r| <= k < |s| ==> IsWhitespace(s[k]))
  }

  /** `s.strip()`: the result is the piece of `s` left once a leading and a
      trailing run of whitespace are cut off; it has no whitespace at either
      end, and a string with none there is left as it is. */
  function Strip(s: string): (r: string)
    ensures |r| <= |s|
    ensures exists a :: TrimmedAt(s, r, a)
    ensures r != [] ==> !IsWhitespace(r[0]) && !IsWhitespace(r[|r| - 1])
    ensures (s == [] || (!IsWhitespace(s[0]) && !IsWhitespace(s[|s| - 1]))) ==> r == s
  {
    StripParts(s);
    StripRight(StripLeft(s))
  }

  /** A suffix after a whitespace run, then a prefix of it before another
      whitespace run, is s trimmed at both ends. */
  lemma TrimBoth(s: string, l: string, r: string)
    requires |l| <= |s| && l == s[|s| - |l|..]
    requires forall k :: 0 <= k < |s| - |l| ==> IsWhitespace(s[k])
    requires |r| <= |l| && r == l[..|r|]
    requires forall k :: |r| <= k < |l| ==> IsWhitespace(l[k])
    requires l != [] ==> !IsWhitespace(l[0])
    ensures TrimmedAt(s, r, |s| - |l|)
    ensures r != [] ==> !IsWhitespace(r[0])
  {
    var a := |s| - |l|;
    if r != [] {
      assert r[0] == l[0];
    }
    forall k | 0 <= k < |r|
      ensures r[k] == s[a + k]
    {
      assert r[k] == l[k];
    }
    assert r == s[a..a + |r|];
    forall k | a + |r| <= k < |s|
      ensures IsWhitespace(s[k])
    {
      assert s[k] == l[k - a];
    }
  }

  /** The two halves of `strip()` cut a leading and a trailing run. */
  lemma StripParts(s: string)
    ensures TrimmedAt(s, StripRight(StripLeft(s)), |s| - |StripLeft(s)|)
    ensures var r := StripRight(StripLeft(s));
      r != [] ==> !IsWhitespace(r[0]) && !IsWhitespace(r[|r| - 1])
  {
    var l := StripLeft(s);
    var r := StripRight(l);
    TrimBoth(s, l, r);
  }

  /** Stripping twice is stripping once. */
  lemma StripIdempotent(s: string)
    ensures Strip(Strip(s)) == Strip(s)
  {
  }

  /** `s.split(sep)`: the pieces between separators, at least one. */
  function Split(s: string, sep: char): (pieces: seq<string>)
    ensures |pieces| >= 1
    ensures forall k :: 0 <= k < |pieces| ==> sep !in pieces[k]
    decreases |s|
  {
    if s == [] then [""]
    else
      var rest := Split(s[1..], sep);
      if s[0] == sep then [""] + rest
      else [[s[0]] + rest[0]] + rest[1..]
  }

  /** `sep.join(pieces)`, the inverse of Split. */
  function Join(pieces: seq<string>, sep: char): string
    requires |pieces| >= 1
  {
    if |pieces| == 1 then pieces[0] else pieces[0] + [sep] + Join(pieces[1..], sep)
  }

  /** Splitting and joining again gives back the original string. */
  lemma {:induction false} SplitJoin(s: string, sep: char)
    ensures Join(Split(s, sep), sep) == s
    decreases |s|
  {
    if s != [] {
      var rest := Split(s[1..], sep);
      SplitJoin(s[1..], sep);
      if s[0] == sep {
        assert Split(s, sep) == [""] + rest;
        assert ([""] + rest)[1..] == rest;
      } else {
        var pieces := [[s[0]] + rest[0]] + rest[1..];
        assert Split(s, sep) == pieces;
        if |rest| == 1 {
          assert Join(rest, sep) == rest[0];
        } else {
          assert pieces[1..] == rest[1..];
          assert Join(rest, sep) == rest[0] + [sep] + Join(rest[1..], sep);
        }
      }
    }
  }

  /** There is a second piece exactly when the separator occurs. */
  lemma {:induction false} SplitCount(s: string, sep: char)
    ensures |Split(s, sep)| >= 2 <==> sep in s
    decreases |s|
  {
    if s != [] {
      SplitCount(s[1..], sep);
      assert sep in s <==> s[0] == sep || sep in s[1..];
    }
  }

  /** A string free of the separator is one piece. */
  lemma {:induction false} SplitWithout(s: string, sep: char)
    requires sep !in s
    ensures Split(s, sep) == [s]
    decreases |s|
  {
    if s != [] {
      SplitWithout(s[1..], sep);
      assert [s[0]] + s[1..] == s;
    }
  }

  /** The first piece ends at the first separator. */
  lemma {:induction false} SplitAtFirst(x: string, sep: char, y: string)
    requires sep !in x
    ensures Split(x + [sep] + y, sep) == [x] + Split(y, sep)
    decreases |x|
  {
    var s := x + [sep] + y;
    if x == [] {
      assert s[1..] == y;
    } else {
      assert s[1..] == x[1..] + [sep] + y;
      SplitAtFirst(x[1..], sep, y);
      assert [x[0]] + x[1..] == x;
    }
  }

  /** `re.sub('[0-9]', '', s)`. */
  function RemoveDigits(s: string): (r: string)
    ensures NoDigits(r)
    ensures NoDigits(s) ==> r == s
    ensures AllDigits(s) ==> r == []
  {
    if s == [] then []
    else (if IsDigit(s[0]) then [] else [s[0]]) + RemoveDigits(s[1..])
  }

  lemma {:induction false} RemoveDigitsAppend(s: string, t: string)
    ensures RemoveDigits(s + t) == RemoveDigits(s) + RemoveDigits(t)
    decreases |s|
  {
    if s != [] {
      var head := if IsDigit(s[0]) then [] else [s[0]];
      assert (s + t)[0] == s[0] && (s + t)[1..] == s[1..] + t;
      assert RemoveDigits(s + t) == head + RemoveDigits(s[1..] + t);
      RemoveDigitsAppend(s[1..], t);
      assert RemoveDigits(s) == head + RemoveDigits(s[1..]);
    } else {
      assert s + t == t;
    }
  }

  /** `pat` occurs in `s` at index i. */
  predicate OccursAt(s: string, pat: string, i: int)
  {
    0 <= i && i + |pat| <= |s| && s[i..i + |pat|] == pat
  }

  /** `pat` occurs nowhere in `s`. */
  predicate Absent(s: string, pat: string)
  {
    forall i :: 0 <= i <= |s| - |pat| ==> !OccursAt(s, pat, i)
  }

  /** An occurrence in the tail of `s` is an occurrence in `s`, one place on. */
  lemma AbsentTail(s: string, pat: string)
    requires s != []
    ensures Absent(s, pat) ==> Absent(s[1..], pat)
  {
    if Absent(s, pat) {
      forall i | 0 <= i <= |s[1..]| - |pat|
        ensures !OccursAt(s[1..], pat, i)
      {
        assert s[1..][i..i + |pat|] == s[i + 1..i + 1 + |pat|];
        assert !OccursAt(s, pat, i + 1);
      }
    }
  }

  /** `s.replace(pat, '')`: occurrences of `pat` are deleted left to right
      without overlap; an empty `pat`, or one that does not occur, leaves `s`
      unchanged. */
  function RemoveAll(s: string, pat: string): (r: string)
    ensures |r| <= |s|
    ensures pat == [] ==> r == s
    ensures Absent(s, pat) ==> r == s
    decreases |s|
  {
    if pat == [] || |s| < |pat| then s
    else if s[..|pat|] == pat then
      assert OccursAt(s, pat, 0);
      RemoveAll(s[|pat|..], pat)
    else
      AbsentTail(s, pat);
      [s[0]] + RemoveAll(s[1..], pat)
  }

  /** Where `pat` does not start the string, its first character is kept. */
  lemma RemoveAllKeep(s: string, pat: string)
    requires pat != [] && s != [] && !OccursAt(s, pat, 0)
    ensures RemoveAll(s, pat) == [s[0]] + RemoveAll(s[1..], pat)
  {
    if |s| >= |pat| {
      assert s[..|pat|] == s[0..|pat|];
    }
  }

  /** No occurrence in the first |x| places of x + pat + y means none in
      the first |x| - 1 places of its tail. */
  lemma NoEarlyOccurrenceTail(x: string, pat: string, y: string)
    requires x != []
    requires forall i :: 0 <= i < |x| ==> !OccursAt(x + pat + y, pat, i)
    ensures forall i :: 0 <= i < |x[1..]| ==> !OccursAt(x[1..] + pat + y, pat, i)
  {
    var s, t := x + pat + y, x[1..] + pat + y;
    assert s[1..] == t;
    forall i | 0 <= i < |x[1..]|
      ensures !OccursAt(t, pat, i)
    {
      assert !OccursAt(s, pat, i + 1);
      if i + |pat| <= |t| {
        assert t[i..i + |pat|] == s[i + 1..i + 1 + |pat|];
      }
    }
  }

  lemma ConsAppend(x: string, z: string)
    requires x != []
    ensures [x[0]] + (x[1..] + z) == x + z
  {
    assert [x[0]] + x[1..] == x;
  }

  /** The leftmost occurrence is the first deleted: what precedes it is kept
      and the deletion goes on after it. */
  lemma {:induction false} RemoveAllLeftmost(x: string, pat: string, y: string)
    requires pat != []
    requires forall i :: 0 <= i < |x| ==> !OccursAt(x + pat + y, pat, i)
    ensures RemoveAll(x + pat + y, pat) == x + RemoveAll(y, pat)
    decreases |x|
  {
    var s := x + pat + y;
    if x == [] {
      assert s == pat + y;
      assert s[..|pat|] == pat && s[|pat|..] == y;
      assert RemoveAll(s, pat) == RemoveAll(y, pat);
      assert x + RemoveAll(y, pat) == RemoveAll(y, pat);
    } else {
      var t := x[1..] + pat + y;
      assert s[0] == x[0] && s[1..] == t;
      RemoveAllKeep(s, pat);
      NoEarlyOccurrenceTail(x, pat, y);
      RemoveAllLeftmost(x[1..], pat, y);
      var z := RemoveAll(y, pat);
      assert RemoveAll(s, pat) == [x[0]] + (x[1..] + z);
      ConsAppend(x, z);
    }
  }

  /** Deleting a pattern that starts with a non-digit from a digit string
      followed by that pattern leaves the digits. */
  lemma {:induction false} RemoveTrailingPattern(d: string, pat: string)
    requires AllDigits(d) && pat != [] && !IsDigit(pat[0])
    ensures RemoveAll(d + pat, pat) == d
    decreases |d|
  {
    var s := d + pat;
    if d == [] {
      assert s == pat && s[..|pat|] == pat && s[|pat|..] == [];
    } else {
      assert s[0] == d[0];
      assert s[..|pat|] != pat by {
        assert s[..|pat|][0] == d[0];
      }
      assert s[1..] == d[1..] + pat;
      RemoveTrailingPattern(d[1..], pat);
      assert [d[0]] + d[1..] == d;
    }
  }

  function DigitValue(ch: char): (v: nat)
    requires IsDigit(ch)
    ensures v < 10
  {
    ch as int - '0' as int
  }

  function DigitChar(v: nat): (ch: char)
    requires v < 10
    ensures IsDigit(ch) && DigitValue(ch) == v
  {
    ('0' as int + v) as char
  }

  /** The number a digit string denotes, most significant digit first. */
  function DigitsValue(s: string): nat
    requires AllDigits(s)
  {
    if s == [] then 0 else DigitsValue(s[..|s| - 1]) * 10 + DigitValue(s[|s| - 1])
  }

  /** `int(s)` on the strings it is given here: a non-empty run of ASCII
      digits is a number, anything else is the `ValueError`. */
  function ParseInt(s: string): (r: Option<int>)
    ensures r.Some? <==> s != [] && AllDigits(s)
    ensures r.Some? ==> r.value >= 0
  {
    if s != [] && AllDigits(s) then Some(DigitsValue(s)) else None
  }

  /** `str(g)` for a natural number. */
  function DecimalString(g: nat): (s: string)
    ensures s != [] && AllDigits(s)
  {
    if g < 10 then [DigitChar(g)] else DecimalString(g / 10) + [DigitChar(g % 10)]
  }

  /** `int(str(g)) == g`. */
  lemma {:induction false} DecimalRoundTrip(g: nat)
    ensures ParseInt(DecimalString(g)) == Some(g)
  {
    var s := DecimalString(g);
    if g < 10 {
      assert s[..|s| - 1] == [];
    } else {
      DecimalRoundTrip(g / 10);
      assert s[..|s| - 1] == DecimalString(g / 10);
      assert DigitsValue(s) == DigitsValue(DecimalString(g / 10)) * 10 + g % 10;
    }
  }
}
