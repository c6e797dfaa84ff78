/** `update_html` of scripts/update-reading.py: the Reading Now section of
    index.html, from its start marker to the end marker that follows it, is
    replaced by a new card, after the old page has been copied to a backup. */
module Patch {
  import opened Text

  const StartMarker: string := "<!-- Reading Now -->"
  const EndMarker: string := "<!-- Latest Creative Work -->"

  /** Where a pattern matches: the index of its first character and the index
      just after its last. */
  datatype Region = NoRegion | Region(start: nat, stop: nat)

  /** The first match of `opener.*?closer` with DOTALL, both markers taken
      literally: it begins at the first `opener` and ends with the first
      `closer` after it; with no `closer` after the first `opener` there is no
      match at all, since a later `opener` has even less text after it. */
  function FirstRegion(doc: string, opener: string, closer: string): (r: Region)
    ensures r.Region? ==> r.start + |opener| + |closer| <= r.stop <= |doc|
    ensures r.Region? ==> Occurs(doc, opener, r.start) && Occurs(doc, closer, r.stop - |closer|)
    ensures r.Region? ==> forall k :: 0 <= k < r.start ==> !Occurs(doc, opener, k)
    ensures r.Region? ==> forall k :: r.start + |opener| <= k < r.stop - |closer| ==> !Occurs(doc, closer, k)
    ensures r.NoRegion? ==> forall p, e :: Occurs(doc, opener, p) && p + |opener| <= e ==> !Occurs(doc, closer, e)
  {
    var p := Find(doc, opener, 0);
    if p.None? then NoRegion
    else
      var e := Find(doc, closer, p.value + |opener|);
      if e.None? then NoRegion else Region(p.value, e.value + |closer|)
  }

  /** FirstRegion from the two searches it makes. */
  lemma {:induction false} RegionOfFinds(doc: string, opener: string, closer: string, p: nat, n: nat, e: nat)
    requires n == |opener|
    requires Find(doc, opener, 0) == Some(p) && Find(doc, closer, p + n) == Some(e)
    ensures FirstRegion(doc, opener, closer) == Region(p, e + |closer|)
  {
  }

  /** `re.sub(pattern, frag, doc, flags=re.DOTALL)`: the regions are replaced
      one after the other, the search for the next one starting where the
      previous one ended; `frag` is inserted as it is. */
  function Substitute(doc: string, opener: string, closer: string, frag: string): (r: string)
    requires closer != []
    ensures FirstRegion(doc, opener, closer).NoRegion? ==> r == doc
    decreases |doc|
  {
    var region := FirstRegion(doc, opener, closer);
    if region.NoRegion? then doc
    else doc[..region.start] + frag + Substitute(doc[region.stop..], opener, closer, frag)
  }

  /** The Reading Now section replaced by `card`, as update_html does. */
  function ReplaceSection(doc: string, card: string): string {
    Substitute(doc, StartMarker, EndMarker, card)
  }

  /** A card: it opens with `opener`, and the first `closer` after that is the
      one that ends it. */
  predicate IsCard(frag: string, opener: string, closer: string) {
    StartsWith(frag, opener) && |frag| >= |opener| + |closer|
    && Find(frag, closer, |opener|) == Some(|frag| - |closer|)
  }

  /** A page with one section gets the card in its place; the text before and
      after it is kept. */
  lemma {:induction false} OneRegion(doc: string, opener: string, closer: string, frag: string)
    requires closer != []
    requires FirstRegion(doc, opener, closer).Region?
    requires FirstRegion(doc[FirstRegion(doc, opener, closer).stop..], opener, closer).NoRegion?
    ensures var r := FirstRegion(doc, opener, closer);
      Substitute(doc, opener, closer, frag) == doc[..r.start] + frag + doc[r.stop..]
  {
  }

  /** The text before the first section is kept as it is, and the card
      follows it. */
  lemma PatchKeepsPrefix(doc: string, opener: string, closer: string, frag: string)
    requires closer != []
    requires FirstRegion(doc, opener, closer).Region?
    ensures var r := FirstRegion(doc, opener, closer);
      StartsWith(Substitute(doc, opener, closer, frag), doc[..r.start] + frag)
  {
    var r := FirstRegion(doc, opener, closer);
    var rest := Substitute(doc[r.stop..], opener, closer, frag);
    Framed(doc[..r.start] + frag, rest, "");
    assert doc[..r.start] + frag + rest + "" == doc[..r.start] + frag + rest;
  }

  /** `Find` gives the first occurrence: one at `p` and none between `from`
      and `p` fix its result. */
  lemma {:induction false} FindIs(s: string, pat: string, from: nat, p: nat)
    requires from <= p && Occurs(s, pat, p)
    requires forall k :: from <= k < p ==> !Occurs(s, pat, k)
    ensures Find(s, pat, from) == Some(p)
  {
  }

  /** The first occurrence of `pat` depends only on the text up to its end. */
  lemma {:induction false} FindSamePrefix(a: string, b: string, pat: string, from: nat, p: nat)
    requires Find(a, pat, from) == Some(p)
    requires p + |pat| <= |b| && a[..p + |pat|] == b[..p + |pat|]
    ensures Find(b, pat, from) == Some(p)
  {
    var m := p + |pat|;
    SameSlice(a, b, m, p, m);
    forall k | from <= k < p
      ensures !Occurs(b, pat, k)
    {
      assert !Occurs(a, pat, k);
      SameSlice(a, b, m, k, k + |pat|);
    }
    FindIs(b, pat, from, p);
  }

  /** Two texts that agree up to `m` agree on every slice inside it. */
  lemma {:induction false} SameSlice(a: string, b: string, m: nat, i: nat, j: nat)
    requires i <= j <= m <= |a| && m <= |b| && a[..m] == b[..m]
    ensures a[i..j] == b[i..j]
  {
    forall t | 0 <= t < j - i
      ensures a[i..j][t] == b[i..j][t]
    {
      assert a[..m][i + t] == b[..m][i + t];
    }
  }

  /** A slice of a copy of `frag` is the slice of `frag`. */
  lemma {:induction false} SliceInside(s: string, frag: string, p: nat, i: nat, j: nat)
    requires p + |frag| <= |s| && s[p..p + |frag|] == frag
    requires i <= j <= |frag|
    ensures s[p + i..p + j] == frag[i..j]
  {
    forall t | 0 <= t < j - i
      ensures s[p + i..p + j][t] == frag[i..j][t]
    {
      assert s[p..p + |frag|][i + t] == frag[i + t];
    }
  }

  /** An occurrence inside a copy of `frag` is an occurrence in `frag`. */
  lemma {:induction false} OccursInside(s: string, frag: string, p: nat, pat: string, i: nat)
    requires p + |frag| <= |s| && s[p..p + |frag|] == frag
    requires i + |pat| <= |frag|
    ensures Occurs(s, pat, p + i) <==> Occurs(frag, pat, i)
  {
    SliceInside(s, frag, p, i, i + |pat|);
  }

  /** No occurrence of `pat` in `frag` before `j` means none in its copy. */
  lemma {:induction false} NoneBeforeInside(s: string, frag: string, p: nat, pat: string, from: nat, j: nat)
    requires p + |frag| <= |s| && s[p..p + |frag|] == frag
    requires j + |pat| <= |frag|
    requires forall k :: from <= k < j ==> !Occurs(frag, pat, k)
    ensures forall k :: p + from <= k < p + j ==> !Occurs(s, pat, k)
  {
    forall k | p + from <= k < p + j
      ensures !Occurs(s, pat, k)
    {
      OccursInside(s, frag, p, pat, k - p);
    }
  }

  /** Searching inside a copy of `frag` finds what searching `frag` finds. */
  lemma {:induction false} FindInside(s: string, frag: string, p: nat, pat: string, from: nat, j: nat)
    requires p + |frag| <= |s| && s[p..p + |frag|] == frag
    requires Find(frag, pat, from) == Some(j)
    ensures Find(s, pat, p + from) == Some(p + j)
  {
    OccursInside(s, frag, p, pat, j);
    NoneBeforeInside(s, frag, p, pat, from, j);
    FindIs(s, pat, p + from, p + j);
  }

  /** After the patch, the first section is exactly the card. */
  lemma {:induction false} RegionAfterPatch(doc: string, opener: string, closer: string, frag: string)
    requires closer != [] && IsCard(frag, opener, closer)
    requires FirstRegion(doc, opener, closer).Region?
    ensures var p := FirstRegion(doc, opener, closer).start;
      FirstRegion(Substitute(doc, opener, closer, frag), opener, closer) == Region(p, p + |frag|)
  {
    var p := FirstRegion(doc, opener, closer).start;
    var q := FirstRegion(doc, opener, closer).stop;
    assert Find(doc, opener, 0) == Some(p);
    var rest := Substitute(doc[q..], opener, closer, frag);
    assert Substitute(doc, opener, closer, frag) == doc[..p] + frag + rest;
    RegionAfterSplice(doc, p, frag, rest, opener, closer);
  }

  /** A card put in at the first `opener` of `doc` is the first region of the
      result, whatever follows it. */
  lemma {:induction false} RegionAfterSplice(doc: string, p: nat, frag: string, rest: string, opener: string, closer: string)
    requires IsCard(frag, opener, closer) && Find(doc, opener, 0) == Some(p)
    ensures FirstRegion(doc[..p] + frag + rest, opener, closer) == Region(p, p + |frag|)
  {
    var n := |opener|;
    assert doc[p..p + n] == frag[..n];
    Spliced(doc, p, frag, rest, n);
    RegionOfSplice(doc, doc[..p] + frag + rest, p, frag, opener, closer);
  }

  /** `s` agrees with `doc` up to the end of its first `opener`, and holds the
      card from there: its first region is the card. */
  lemma {:induction false} RegionOfSplice(doc: string, s: string, p: nat, frag: string, opener: string, closer: string)
    requires Find(doc, opener, 0) == Some(p)
    requires |opener| <= |frag| - |closer| && Find(frag, closer, |opener|) == Some(|frag| - |closer|)
    requires p + |frag| <= |s| && s[..p + |opener|] == doc[..p + |opener|] && s[p..p + |frag|] == frag
    ensures FirstRegion(s, opener, closer) == Region(p, p + |frag|)
  {
    var n, j := |opener|, |frag| - |closer|;
    SearchAfterSplice(doc, s, p, frag, opener, closer, n, j);
    RegionOfFinds(s, opener, closer, p, n, p + j);
  }

  /** The two searches of FirstRegion on `s`, which is `doc` with a card put
      in at the first `start`: the start is where it was, the end is the
      card's own. */
  lemma {:induction false} SearchAfterSplice(doc: string, s: string, p: nat, frag: string, start: string, end: string, n: nat, j: nat)
    requires n == |start| && j == |frag| - |end| && n <= j
    requires Find(doc, start, 0) == Some(p)
    requires p + |frag| <= |s| && s[..p + n] == doc[..p + n] && s[p..p + |frag|] == frag
    requires Find(frag, end, n) == Some(j)
    ensures Find(s, start, 0) == Some(p) && Find(s, end, p + n) == Some(p + j)
  {
    FindSamePrefix(doc, s, start, 0, p);
    FindInside(s, frag, p, end, n, j);
  }

  /** Splicing `frag` in at `p`, when `doc` and `frag` agree on their next `n`
      characters, keeps the first `p + n` characters of `doc`. */
  lemma {:induction false} Spliced(doc: string, p: nat, frag: string, rest: string, n: nat)
    requires p + n <= |doc| && n <= |frag| && doc[p..p + n] == frag[..n]
    ensures var s := doc[..p] + frag + rest;
      s[..p + n] == doc[..p + n] && s[p..p + |frag|] == frag
  {
    var s := doc[..p] + frag + rest;
    assert s[..p + n] == doc[..p] + frag[..n];
    assert doc[..p + n] == doc[..p] + doc[p..p + n];
  }

  /** Patching twice with the same card changes nothing more: update_html can
      be run again with the same reading list. */
  lemma {:induction false} PatchIdempotent(doc: string, opener: string, closer: string, frag: string)
    requires closer != [] && IsCard(frag, opener, closer)
    ensures var once := Substitute(doc, opener, closer, frag);
      Substitute(once, opener, closer, frag) == once
    decreases |doc|
  {
    var region := FirstRegion(doc, opener, closer);
    if region.Region? {
      var p := region.start;
      var q := region.stop;
      var rest := Substitute(doc[q..], opener, closer, frag);
      var patched := Substitute(doc, opener, closer, frag);
      assert patched == doc[..p] + frag + rest;
      PatchIdempotent(doc[q..], opener, closer, frag);
      RegionAfterPatch(doc, opener, closer, frag);
      assert patched[..p] == doc[..p];
      assert patched[p + |frag|..] == rest;
    }
  }

  /** update_html run a second time with the same card leaves the page as the
      first run left it. */
  lemma ReplaceTwice(doc: string, card: string)
    requires IsCard(card, StartMarker, EndMarker)
    ensures ReplaceSection(ReplaceSection(doc, card), card) == ReplaceSection(doc, card)
  {
    PatchIdempotent(doc, StartMarker, EndMarker, card);
  }

  /** index.html and its `.bak` copy. */
  class Homepage {
    var index: string
    var backup: Option<string>

    constructor (index: string)
      ensures this.index == index && backup.None?
    {
      this.index := index;
      backup := None;
    }

    /** The page as read is saved to the backup before the section is replaced,
        so the backup always holds the page as it was before this update. */
    method UpdateHtml(card: string)
      modifies this
      ensures backup == Some(old(index))
      ensures index == ReplaceSection(old(index), card)
    {
      var content := index;
      backup := Some(content);
      index := ReplaceSection(content, card);
    }
  }
}
