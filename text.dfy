/** Character and string helpers, with the meaning Python's `str` methods and
    the `re` module give them in update-reading.py. */
module Text {

  datatype Option<T> = None | Some(value: T)

  /** The characters Python's `str.isspace()` accepts; `\s` in a `str` pattern
      and `str.strip()` with no argument use the same set. '\t'..'\r' are tab,
      line feed, vertical tab, form feed and carriage return. */
  predicate IsSpace(c: char) {
    c == ' ' || ('\t' <= c <= '\r') || ('\U{1C}' <= c <= '\U{1F}')
    || c == '\U{85}' || c == '\U{A0}' || c == '\U{1680}' || ('\U{2000}' <= c <= '\U{200A}')
    || c == '\U{2028}' || c == '\U{2029}' || c == '\U{202F}' || c == '\U{205F}' || c == '\U{3000}'
  }

  predicate StartsWith(s: string, prefix: string) {
    |prefix| <= |s| && s[..|prefix|] == prefix
  }

  predicate EndsWith(s: string, suffix: string) {
    |suffix| <= |s| && s[|s| - |suffix|..] == suffix
  }

  /** No leading and no trailing whitespace: what `str.strip()` returns. */
  predicate IsTrimmed(s: string) {
    s == [] || (!IsSpace(s[0]) && !IsSpace(s[|s| - 1]))
  }

  /** The index of the first non-whitespace character of `s` at or after `i`, or |s|. */
  function SkipSpaces(s: string, i: nat): (j: nat)
    requires i <= |s|
    ensures i <= j <= |s| && (j < |s| ==> !IsSpace(s[j]))
    decreases |s| - i
  {
    if i < |s| && IsSpace(s[i]) then SkipSpaces(s, i + 1) else i
  }

  /** The end of `s[..j]` once its trailing whitespace is dropped. */
  function DropTrailing(s: string, j: nat): (k: nat)
    requires j <= |s|
    ensures k <= j && (k > 0 ==> !IsSpace(s[k - 1]))
  {
    if j > 0 && IsSpace(s[j - 1]) then DropTrailing(s, j - 1) else j
  }

  /** Every character from `i` up to SkipSpaces(s, i) is whitespace. */
  lemma {:induction false} SkippedSpaces(s: string, i: nat)
    requires i <= |s|
    ensures forall k :: i <= k < SkipSpaces(s, i) ==> IsSpace(s[k])
    decreases |s| - i
  {
    if i < |s| && IsSpace(s[i]) {
      SkippedSpaces(s, i + 1);
    }
  }

  /** Every character DropTrailing(s, j) drops is whitespace. */
  lemma {:induction false} DroppedSpaces(s: string, j: nat)
    requires j <= |s|
    ensures forall k :: DropTrailing(s, j) <= k < j ==> IsSpace(s[k])
  {
    if j > 0 && IsSpace(s[j - 1]) {
      DroppedSpaces(s, j - 1);
    }
  }

  /** `r` occurs in `s` at `i`, and everything around it is whitespace. */
  predicate Strips(s: string, r: string, i: int) {
    Occurs(s, r, i)
    && (forall k :: 0 <= k < i ==> IsSpace(s[k]))
    && (forall k :: i + |r| <= k < |s| ==> IsSpace(s[k]))
  }

  /** `str.strip()`: `s` with whitespace removed at both ends and nowhere else. */
  function Trim(s: string): (r: string)
    ensures IsTrimmed(r)
    ensures exists i :: Strips(s, r, i)
    ensures IsTrimmed(s) ==> r == s
  {
    var i := SkipSpaces(s, 0);
    var j := DropTrailing(s, |s|);
    SkippedSpaces(s, 0);
    DroppedSpaces(s, |s|);
    if j <= i then
      assert Strips(s, "", i);
      ""
    else
      assert Strips(s, s[i..j], i);
      s[i..j]
  }

  /** `s.split(c)`: the pieces between occurrences of `c`, always at least one. */
  function Split(s: string, c: char): (r: seq<string>)
    ensures |r| >= 1
    ensures forall i :: 0 <= i < |r| ==> c !in r[i]
  {
    if |s| == 0 then [""]
    else
      var rest := Split(s[1..], c);
      if s[0] == c then [""] + rest else [[s[0]] + rest[0]] + rest[1..]
  }

  /** `sep.join(xs)`. */
  function Join(xs: seq<string>, sep: string): string {
    if |xs| == 0 then ""
    else if |xs| == 1 then xs[0]
    else xs[0] + sep + Join(xs[1..], sep)
  }

  /** Splitting at `c` loses nothing: joining the pieces with `c` gives `s` back. */
  lemma {:induction false} JoinSplit(s: string, c: char)
    ensures Join(Split(s, c), [c]) == s
  {
    if |s| > 0 {
      JoinSplit(s[1..], c);
      var rest := Split(s[1..], c);
      if s[0] == c {
        assert s == [c] + s[1..];
      } else if |rest| == 1 {
        assert s == [s[0]] + s[1..];
      } else {
        assert rest == [rest[0]] + rest[1..];
        assert s == [s[0]] + s[1..];
      }
    }
  }

  /** Splitting a piece free of `c`, followed by `c` and more text. */
  lemma {:induction false} SplitAfterPiece(a: string, c: char, tail: string)
    requires c !in a
    ensures Split(a + [c] + tail, c) == [a] + Split(tail, c)
  {
    if |a| > 0 {
      SplitAfterPiece(a[1..], c, tail);
      assert (a + [c] + tail)[1..] == a[1..] + [c] + tail;
      assert a == [a[0]] + a[1..];
    } else {
      assert (a + [c] + tail)[1..] == tail;
    }
  }

  /** A string without `c` is one piece. */
  lemma {:induction false} SplitNone(a: string, c: char)
    requires c !in a
    ensures Split(a, c) == [a]
  {
    if |a| > 0 {
      SplitNone(a[1..], c);
      assert a == [a[0]] + a[1..];
    }
  }

  /** Joining pieces free of `c` with `c` and splitting again gives the pieces back. */
  lemma {:induction false} SplitJoin(xs: seq<string>, c: char)
    requires |xs| >= 1
    requires forall i :: 0 <= i < |xs| ==> c !in xs[i]
    ensures Split(Join(xs, [c]), c) == xs
  {
    if |xs| == 1 {
      SplitNone(xs[0], c);
    } else {
      SplitJoin(xs[1..], c);
      SplitAfterPiece(xs[0], c, Join(xs[1..], [c]));
      assert xs == [xs[0]] + xs[1..];
    }
  }

  /** `pat` occurs in `s` at index `k`. */
  predicate Occurs(s: string, pat: string, k: int) {
    0 <= k && k + |pat| <= |s| && s[k..k + |pat|] == pat
  }

  /** `s.find(pat, from)`: the first index at or after `from` where `pat` occurs. */
  function Find(s: string, pat: string, from: nat): (r: Option<nat>)
    ensures r.Some? ==> from <= r.value && Occurs(s, pat, r.value)
    ensures r.Some? ==> forall k :: from <= k < r.value ==> !Occurs(s, pat, k)
    ensures r.None? ==> forall k :: from <= k ==> !Occurs(s, pat, k)
    decreases |s| - from
  {
    if |s| < from + |pat| then None
    else if s[from..from + |pat|] == pat then Some(from)
    else Find(s, pat, from + 1)
  }

  /** The index of the last `c` in `s` (`s.rfind(c)`). */
  function LastIndex(s: string, c: char): (r: Option<nat>)
    ensures r.Some? ==> r.value < |s| && s[r.value] == c && c !in s[r.value + 1..]
    ensures r.None? ==> c !in s
  {
    if |s| == 0 then None
    else if s[|s| - 1] == c then Some(|s| - 1)
    else
      var r := LastIndex(s[..|s| - 1], c);
      assert s == s[..|s| - 1] + [s[|s| - 1]];
      r
  }

  /** `y` occurs in `x + y + z` right after `x`. */
  lemma OccursBetween(x: string, y: string, z: string)
    ensures Occurs(x + y + z, y, |x|)
  {
    assert (x + y + z)[|x|..|x| + |y|] == y;
  }

  /** An occurrence stays where it is when text is appended. */
  lemma OccursExtend(s: string, t: string, pat: string, k: int)
    requires Occurs(s, pat, k)
    ensures Occurs(s + t, pat, k)
  {
    assert (s + t)[k..k + |pat|] == s[k..k + |pat|];
  }

  /** An occurrence moves on by `|s|` when `s` is put in front. */
  lemma OccursShift(s: string, t: string, pat: string, k: int)
    requires Occurs(t, pat, k)
    ensures Occurs(s + t, pat, |s| + k)
  {
    assert (s + t)[|s| + k..|s| + k + |pat|] == t[k..k + |pat|];
  }

  /** An occurrence inside an occurrence. */
  lemma OccursWithin(s: string, t: string, i: int, pat: string, j: int)
    requires Occurs(s, t, i) && Occurs(t, pat, j)
    ensures Occurs(s, pat, i + j)
  {
    var u := s[i..i + |t|];
    assert u[j..j + |pat|] == pat;
    forall m | 0 <= m < |pat|
      ensures s[i + j + m] == pat[m]
    {
      assert s[i + j + m] == u[j + m];
    }
    assert s[i + j..i + j + |pat|] == pat;
  }

  /** Every piece can be found in the joined text. */
  lemma {:induction false} OccursInJoin(xs: seq<string>, sep: string, k: nat)
    requires k < |xs|
    ensures exists i :: Occurs(Join(xs, sep), xs[k], i)
    decreases |xs|
  {
    if k == 0 {
      assert Join(xs, sep)[..|xs[0]|] == xs[0];
      assert Occurs(Join(xs, sep), xs[0], 0);
    } else {
      OccursInJoin(xs[1..], sep, k - 1);
      var i :| Occurs(Join(xs[1..], sep), xs[1..][k - 1], i);
      OccursShift(xs[0] + sep, Join(xs[1..], sep), xs[k], i);
      assert Occurs(Join(xs, sep), xs[k], |xs[0] + sep| + i);
    }
  }

  /** `[pad + x for x in xs]`. */
  function Prefixed(xs: seq<string>, pad: string): (ys: seq<string>)
    ensures |ys| == |xs|
    ensures forall k :: 0 <= k < |xs| ==> ys[k] == pad + xs[k]
  {
    if |xs| == 0 then [] else [pad + xs[0]] + Prefixed(xs[1..], pad)
  }

  /** Joining with a line break and an indentation is joining the indented
      pieces with line breaks. */
  lemma {:induction false} JoinIndented(xs: seq<string>, pad: string)
    requires |xs| >= 1
    ensures pad + Join(xs, "\n" + pad) == Join(Prefixed(xs, pad), "\n")
    decreases |xs|
  {
    if |xs| > 1 {
      JoinIndented(xs[1..], pad);
      var rest := Join(xs[1..], "\n" + pad);
      assert Prefixed(xs, pad)[1..] == Prefixed(xs[1..], pad);
      assert pad + (xs[0] + ("\n" + pad) + rest) == (pad + xs[0]) + "\n" + (pad + rest);
    }
  }

  /** The lines of a text joined with a line break and an indentation: the
      first piece as it is, every later one after the indentation. */
  lemma {:induction false} SplitIndented(xs: seq<string>, pad: string)
    requires |xs| >= 1 && '\n' !in pad
    requires forall k :: 0 <= k < |xs| ==> '\n' !in xs[k]
    ensures Split(Join(xs, "\n" + pad), '\n') == [xs[0]] + Prefixed(xs[1..], pad)
  {
    var lines := [xs[0]] + Prefixed(xs[1..], pad);
    if |xs| > 1 {
      JoinIndented(xs[1..], pad);
      var rest := Join(xs[1..], "\n" + pad);
      assert Join(xs, "\n" + pad) == xs[0] + "\n" + (pad + rest);
      assert lines[1..] == Prefixed(xs[1..], pad);
      assert Join(lines, "\n") == xs[0] + "\n" + Join(Prefixed(xs[1..], pad), "\n");
    }
    forall k | 0 <= k < |lines|
      ensures '\n' !in lines[k]
    {
      if k > 0 {
        assert lines[k] == pad + xs[k];
      }
    }
    SplitJoin(lines, '\n');
  }

  /** The same, line by line: one line per piece, the first as it is, every
      later one after the indentation. */
  lemma {:induction false} IndentedLines(xs: seq<string>, pad: string)
    requires |xs| >= 1 && '\n' !in pad
    requires forall k :: 0 <= k < |xs| ==> '\n' !in xs[k]
    ensures var lines := Split(Join(xs, "\n" + pad), '\n');
      |lines| == |xs| && lines[0] == xs[0] && forall k :: 1 <= k < |xs| ==> lines[k] == pad + xs[k]
  {
    SplitIndented(xs, pad);
    var lines := [xs[0]] + Prefixed(xs[1..], pad);
    forall k | 1 <= k < |xs|
      ensures lines[k] == pad + xs[k]
    {
      assert lines[k] == Prefixed(xs[1..], pad)[k - 1];
    }
  }

  /** Where the three holes of a template `s0 h1 s1 h2 s2 h3 s3` are. */
  lemma ThreeHoles(s0: string, h1: string, s1: string, h2: string, s2: string, h3: string, s3: string)
    ensures var t := s0 + h1 + s1 + h2 + s2 + h3 + s3;
      Occurs(t, h1, |s0|) && Occurs(t, h2, |s0 + h1 + s1|) && Occurs(t, h3, |s0 + h1 + s1 + h2 + s2|)
  {
    var t := s0 + h1 + s1 + h2 + s2 + h3 + s3;
    OccursBetween(s0, h1, s1 + h2 + s2 + h3 + s3);
    assert t == s0 + h1 + (s1 + h2 + s2 + h3 + s3);
    OccursBetween(s0 + h1 + s1, h2, s2 + h3 + s3);
    assert t == s0 + h1 + s1 + h2 + (s2 + h3 + s3);
    OccursBetween(s0 + h1 + s1 + h2 + s2, h3, s3);
  }

  /** Where the two holes of a template `s0 h1 s1 h2 s2` are. */
  lemma TwoHoles(s0: string, h1: string, s1: string, h2: string, s2: string)
    ensures var t := s0 + h1 + s1 + h2 + s2;
      Occurs(t, h1, |s0|) && Occurs(t, h2, |s0 + h1 + s1|)
  {
    var t := s0 + h1 + s1 + h2 + s2;
    OccursBetween(s0, h1, s1 + h2 + s2);
    assert t == s0 + h1 + (s1 + h2 + s2);
    OccursBetween(s0 + h1 + s1, h2, s2);
  }

  /** Where the four holes of a template `s0 h1 s1 h2 s2 h3 s3 h4 s4` are. */
  lemma FourHoles(s0: string, h1: string, s1: string, h2: string, s2: string, h3: string, s3: string,
                  h4: string, s4: string)
    ensures var t := s0 + h1 + s1 + h2 + s2 + h3 + s3 + h4 + s4;
      Occurs(t, h1, |s0|) && Occurs(t, h2, |s0 + h1 + s1|) && Occurs(t, h3, |s0 + h1 + s1 + h2 + s2|)
      && Occurs(t, h4, |s0 + h1 + s1 + h2 + s2 + h3 + s3|)
  {
    var t := s0 + h1 + s1 + h2 + s2 + h3 + s3 + h4 + s4;
    ThreeHoles(s0, h1, s1, h2, s2, h3, s3 + h4 + s4);
    assert t == s0 + h1 + s1 + h2 + s2 + h3 + (s3 + h4 + s4);
    OccursBetween(s0 + h1 + s1 + h2 + s2 + h3 + s3, h4, s4);
  }

  /** `x + y + z` opens with `x` and closes with `z`. */
  lemma Framed(x: string, y: string, z: string)
    ensures StartsWith(x + y + z, x) && EndsWith(x + y + z, z)
  {
    var t := x + y + z;
    assert t[..|x|] == x;
    assert t[|t| - |z|..] == z;
  }
}
