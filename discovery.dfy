/** Which entries of the directory tree the slideshow picks up as images.
 *
 *  The walk of the tree itself is an input here: `tree` lists every entry
 *  below the root directory, each as its sequence of segments. A recursive
 *  glob for `*<pattern>` keeps the entries whose last segment ends with
 *  `<pattern>`, compared character by character (case-sensitive), in the
 *  order of the listing.
 */
module Discovery {
  import opened PathOrder

  /** The supported extensions, all lower case. */
  const ImageExtensions: set<string> :=
    {".jpg", ".jpeg", ".png", ".gif", ".bmp", ".webp", ".tiff", ".tif"}

  /** `order` is one iteration order of the extension set: every
   *  extension exactly once. */
  predicate IsEnumeration(order: seq<string>)
  {
    (forall e :: e in order ==> e in ImageExtensions) &&
    (forall e :: e in ImageExtensions ==> e in order) &&
    (forall i, j :: 0 <= i < j < |order| ==> order[i] != order[j])
  }

  function UpperChar(c: char): (u: char)
    ensures 'a' <= c <= 'z' ==> 'A' <= u <= 'Z' && u as int == c as int - 32
    ensures !('a' <= c <= 'z') ==> u == c
  {
    if 'a' <= c <= 'z' then (c as int - 32) as char else c
  }

  /** `str.upper()` restricted to ASCII letters, which is all the
   *  extensions contain. */
  function Upper(s: string): (u: string)
    ensures |u| == |s|
    ensures forall i :: 0 <= i < |s| ==> u[i] == UpperChar(s[i])
  {
    if |s| == 0 then [] else [UpperChar(s[0])] + Upper(s[1..])
  }

  /** The last segment of a path (its file or directory name). */
  function Name(p: Path): string
  {
    if |p| == 0 then "" else p[|p| - 1]
  }

  predicate EndsWith(s: string, suffix: string)
  {
    |suffix| <= |s| && s[|s| - |suffix|..] == suffix
  }

  /** The glob pattern `*<pattern>` matches the entry's name. */
  predicate Matches(p: Path, pattern: string)
  {
    EndsWith(Name(p), pattern)
  }

  /** The entry ends with a supported extension, either exactly as listed
   *  (lower case) or entirely in upper case. */
  predicate IsImagePath(p: Path)
  {
    exists e :: e in ImageExtensions && (Matches(p, e) || Matches(p, Upper(e)))
  }

  /** One recursive glob over the listing: the matching entries in listing
   *  order. */
  function Glob(tree: seq<Path>, pattern: string): (r: seq<Path>)
    ensures forall p :: p in r <==> p in tree && Matches(p, pattern)
  {
    if |tree| == 0 then []
    else (if Matches(tree[0], pattern) then [tree[0]] else []) + Glob(tree[1..], pattern)
  }

  /** The list after the first `k` extensions of `order` have each been
   *  globbed in lower case and then in upper case. */
  function Collected(tree: seq<Path>, order: seq<string>, k: nat): seq<Path>
    requires k <= |order|
  {
    if k == 0 then []
    else Collected(tree, order, k - 1) + Glob(tree, order[k - 1]) + Glob(tree, Upper(order[k - 1]))
  }

  /** The entry matches one of the two patterns of one of the first `k`
   *  extensions of `order`. */
  predicate MatchesAmong(p: Path, order: seq<string>, k: nat)
    requires k <= |order|
  {
    k > 0 &&
    (MatchesAmong(p, order, k - 1) || Matches(p, order[k - 1]) || Matches(p, Upper(order[k - 1])))
  }

  /** A dot followed by lower-case letters only. */
  predicate LowerDotWord(s: string)
  {
    |s| >= 2 && s[0] == '.' && forall i :: 1 <= i < |s| ==> 'a' <= s[i] <= 'z'
  }

  /** A dot followed by no further dot. */
  predicate DotWord(s: string)
  {
    |s| >= 1 && s[0] == '.' && forall i :: 1 <= i < |s| ==> s[i] != '.'
  }

  function Pattern(e: string, upper: bool): string
  {
    if upper then Upper(e) else e
  }

  lemma ExtensionsAreLowerDotWords()
    ensures forall e :: e in ImageExtensions ==> LowerDotWord(e)
  {
  }

  /** Pairwise different dot-and-lower-case words: what the discovery
   *  loop's correctness needs of the extensions it iterates over. */
  predicate DistinctLowerDotWords(order: seq<string>)
  {
    (forall i :: 0 <= i < |order| ==> LowerDotWord(order[i])) &&
    (forall i, j :: 0 <= i < j < |order| ==> order[i] != order[j])
  }

  lemma EnumerationIsDistinctLowerDotWords(order: seq<string>)
    requires IsEnumeration(order)
    ensures DistinctLowerDotWords(order)
  {
    ExtensionsAreLowerDotWords();
    forall i | 0 <= i < |order|
      ensures LowerDotWord(order[i])
    {
      assert order[i] in ImageExtensions;
    }
  }

  /** Each entry's multiplicity in a glob is its multiplicity in the
   *  listing when it matches, and zero otherwise. */
  lemma {:induction false} GlobCount(tree: seq<Path>, pattern: string, q: Path)
    ensures multiset(Glob(tree, pattern))[q] ==
            if Matches(q, pattern) then multiset(tree)[q] else 0
  {
    if |tree| > 0 {
      GlobCount(tree[1..], pattern, q);
      assert tree == [tree[0]] + tree[1..];
    }
  }

  /** A name ends with at most one dot-word. */
  lemma DotWordSuffixUnique(p: Path, a: string, b: string)
    requires DotWord(a) && DotWord(b)
    requires Matches(p, a) && Matches(p, b)
    ensures a == b
  {
  }

  /** The sixteen glob patterns are dot-words and pairwise different. */
  lemma PatternsDistinct(e1: string, u1: bool, e2: string, u2: bool)
    requires LowerDotWord(e1) && LowerDotWord(e2)
    ensures Pattern(e1, u1) == Pattern(e2, u2) ==> e1 == e2 && u1 == u2
  {
    if u1 != u2 {
      assert Pattern(e1, u1)[1] != Pattern(e2, u2)[1];
    } else if u1 && Upper(e1) == Upper(e2) {
      forall i | 0 <= i < |e1|
        ensures e1[i] == e2[i]
      {
        assert UpperChar(e1[i]) == Upper(e1)[i] == Upper(e2)[i] == UpperChar(e2[i]);
      }
    }
  }

  lemma PatternIsDotWord(e: string, upper: bool)
    requires LowerDotWord(e)
    ensures DotWord(Pattern(e, upper))
  {
    var s := Pattern(e, upper);
    forall i | 1 <= i < |s|
      ensures s[i] != '.'
    {
      if upper {
        assert s[i] == UpperChar(e[i]);
      }
    }
  }

  /** An entry matches at most one of the sixteen patterns. */
  lemma MatchesOnePattern(p: Path, e1: string, u1: bool, e2: string, u2: bool)
    requires LowerDotWord(e1) && LowerDotWord(e2)
    requires Matches(p, Pattern(e1, u1)) && Matches(p, Pattern(e2, u2))
    ensures e1 == e2 && u1 == u2
  {
    PatternIsDotWord(e1, u1);
    PatternIsDotWord(e2, u2);
    DotWordSuffixUnique(p, Pattern(e1, u1), Pattern(e2, u2));
    PatternsDistinct(e1, u1, e2, u2);
  }

  /** An entry matched among the first `k` extensions matches a
   *  particular one of them. */
  lemma {:induction false} AmongWitness(q: Path, order: seq<string>, k: nat) returns (i: nat)
    requires k <= |order| && MatchesAmong(q, order, k)
    ensures i < k && (Matches(q, order[i]) || Matches(q, Upper(order[i])))
  {
    if MatchesAmong(q, order, k - 1) {
      i := AmongWitness(q, order, k - 1);
    } else {
      i := k - 1;
    }
  }

  /** An entry matching one of the first `k` extensions is matched among
   *  them. */
  lemma {:induction false} AmongFromWitness(q: Path, order: seq<string>, k: nat, i: nat)
    requires i < k <= |order|
    requires Matches(q, order[i]) || Matches(q, Upper(order[i]))
    ensures MatchesAmong(q, order, k)
  {
    if i < k - 1 {
      AmongFromWitness(q, order, k - 1, i);
    }
  }

  /** Round `k` of the discovery loop collects only entries that no
   *  earlier round or pattern collected. */
  lemma RoundIsDisjoint(q: Path, order: seq<string>, k: nat)
    requires DistinctLowerDotWords(order) && 0 < k <= |order|
    ensures !(Matches(q, order[k - 1]) && Matches(q, Upper(order[k - 1])))
    ensures MatchesAmong(q, order, k - 1) ==>
              !Matches(q, order[k - 1]) && !Matches(q, Upper(order[k - 1]))
  {
    var e := order[k - 1];
    if Matches(q, e) && Matches(q, Upper(e)) {
      MatchesOnePattern(q, e, false, e, true);
    }
    if MatchesAmong(q, order, k - 1) {
      var i := AmongWitness(q, order, k - 1);
      var ei := order[i];
      assert LowerDotWord(ei) && ei != e;
      var ui := !Matches(q, ei);
      assert Matches(q, Pattern(ei, ui));
      if Matches(q, e) {
        MatchesOnePattern(q, ei, ui, e, false);
      }
      if Matches(q, Upper(e)) {
        MatchesOnePattern(q, ei, ui, e, true);
      }
    }
  }

  /** Adding up an entry's count over three disjoint rounds. */
  lemma AddDisjointCounts(c0: int, c1: int, c2: int, m: int, b0: bool, b1: bool, b2: bool, b: bool)
    requires c0 == (if b0 then m else 0)
    requires c1 == (if b1 then m else 0)
    requires c2 == (if b2 then m else 0)
    requires !(b1 && b2) && !(b0 && (b1 || b2))
    requires b <==> b0 || b1 || b2
    ensures c0 + c1 + c2 == if b then m else 0
  {
  }

  /** After `k` rounds of the discovery loop every entry occurs as often
   *  as in the listing if it matches one of the patterns used so far, and
   *  not at all otherwise: no entry is collected twice. */
  lemma {:induction false} CollectedCount(tree: seq<Path>, order: seq<string>, k: nat, q: Path)
    requires DistinctLowerDotWords(order) && k <= |order|
    ensures multiset(Collected(tree, order, k))[q] ==
            if MatchesAmong(q, order, k) then multiset(tree)[q] else 0
  {
    if k > 0 {
      var e := order[k - 1];
      var before, lower, upper := Collected(tree, order, k - 1), Glob(tree, e), Glob(tree, Upper(e));
      CollectedCount(tree, order, k - 1, q);
      GlobCount(tree, e, q);
      GlobCount(tree, Upper(e), q);
      RoundIsDisjoint(q, order, k);
      assert multiset(before + lower + upper)[q] ==
        multiset(before)[q] + multiset(lower)[q] + multiset(upper)[q];
      AddDisjointCounts(multiset(before)[q], multiset(lower)[q], multiset(upper)[q], multiset(tree)[q],
        MatchesAmong(q, order, k - 1), Matches(q, e), Matches(q, Upper(e)), MatchesAmong(q, order, k));
    }
  }

  /** Globbing every extension of an enumeration finds exactly the image
   *  entries. */
  lemma MatchesAllIsImage(q: Path, order: seq<string>)
    requires IsEnumeration(order)
    ensures MatchesAmong(q, order, |order|) <==> IsImagePath(q)
  {
    if IsImagePath(q) {
      var e :| e in ImageExtensions && (Matches(q, e) || Matches(q, Upper(e)));
      assert e in order;
      var i :| 0 <= i < |order| && order[i] == e;
      AmongFromWitness(q, order, |order|, i);
    }
    if MatchesAmong(q, order, |order|) {
      var i := AmongWitness(q, order, |order|);
      assert order[i] in ImageExtensions;
    }
  }

  /** What discovery must return for a listing: the image entries, each as
   *  often as listed, in ascending path order. */
  ghost predicate IsDiscoveryOf(r: seq<Path>, tree: seq<Path>)
  {
    Sorted(r) &&
    forall q :: multiset(r)[q] == if IsImagePath(q) then multiset(tree)[q] else 0
  }

  /** Discovery has one possible result, whichever order the extension set
   *  is iterated in: re-running it on an unchanged tree gives the same
   *  list. */
  lemma DiscoveryDeterministic(tree: seq<Path>, r1: seq<Path>, r2: seq<Path>)
    requires IsDiscoveryOf(r1, tree) && IsDiscoveryOf(r2, tree)
    ensures r1 == r2
  {
    assert forall q :: multiset(r1)[q] == multiset(r2)[q];
    assert multiset(r1) == multiset(r2);
    SortedUnique(r1, r2);
  }

  /** Matching is case-sensitive: a mixed-case extension is not found. */
  lemma MixedCaseNotFound()
    ensures !IsImagePath(["holiday", "beach.Jpg"])
  {
    var p: Path := ["holiday", "beach.Jpg"];
    ExtensionsAreLowerDotWords();
    forall e | e in ImageExtensions
      ensures !Matches(p, e) && !Matches(p, Upper(e))
    {
      var n := Name(p);
      assert |e| >= 4;
      assert n[|n| - 3] == 'J' != e[|e| - 3];
      assert n[|n| - 2] == 'p' != Upper(e)[|e| - 2];
    }
  }

  /** An all-upper-case extension is found. */
  lemma UpperCaseFound()
    ensures IsImagePath(["holiday", "beach.JPG"])
  {
    var p: Path := ["holiday", "beach.JPG"];
    assert Upper(".jpg") == ".JPG";
    assert Matches(p, Upper(".jpg"));
  }
}
