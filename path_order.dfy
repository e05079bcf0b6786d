/** The order in which the slideshow lists its images.
 *
 *  A path is the sequence of its segments. Two paths compare segment by
 *  segment, and two segments compare character by character by code point,
 *  so a path that is a proper prefix of another comes first. This module
 *  defines both orders, proves that the path order is a strict total order,
 *  and proves that a sorted arrangement of a multiset of paths is unique.
 */
module PathOrder {

  /** A file-system path, one string per segment. */
  type Path = seq<string>

  /** Strict lexicographic order of strings by code point. */
  predicate TextLess(a: string, b: string)
    ensures TextLess(a, b) ==> a != b
  {
    if |a| == 0 then |b| > 0
    else if |b| == 0 then false
    else a[0] < b[0] || (a[0] == b[0] && TextLess(a[1..], b[1..]))
  }

  /** Strict lexicographic order of paths, segment by segment. */
  predicate PathLess(p: Path, q: Path)
    ensures PathLess(p, q) ==> p != q
  {
    if |p| == 0 then |q| > 0
    else if |q| == 0 then false
    else TextLess(p[0], q[0]) || (p[0] == q[0] && PathLess(p[1..], q[1..]))
  }

  predicate PathAtMost(p: Path, q: Path)
  {
    p == q || PathLess(p, q)
  }

  /** Ascending order, as a list sort leaves it. */
  predicate Sorted(s: seq<Path>)
  {
    forall i, j :: 0 <= i < j < |s| ==> PathAtMost(s[i], s[j])
  }

  lemma {:induction false} TextLessIrreflexive(a: string)
    ensures !TextLess(a, a)
  {
    if |a| > 0 {
      TextLessIrreflexive(a[1..]);
    }
  }

  lemma {:induction false} TextLessTransitive(a: string, b: string, c: string)
    requires TextLess(a, b) && TextLess(b, c)
    ensures TextLess(a, c)
  {
    if |a| > 0 && |b| > 0 && |c| > 0 && a[0] == b[0] == c[0] {
      TextLessTransitive(a[1..], b[1..], c[1..]);
    }
  }

  lemma {:induction false} TextLessTotal(a: string, b: string)
    ensures a == b || TextLess(a, b) || TextLess(b, a)
  {
    if |a| > 0 && |b| > 0 && a[0] == b[0] {
      TextLessTotal(a[1..], b[1..]);
      if a[1..] == b[1..] {
        assert a == [a[0]] + a[1..] && b == [b[0]] + b[1..];
      }
    }
  }

  lemma {:induction false} PathLessIrreflexive(p: Path)
    ensures !PathLess(p, p)
  {
    if |p| > 0 {
      TextLessIrreflexive(p[0]);
      PathLessIrreflexive(p[1..]);
    }
  }

  lemma {:induction false} PathLessTransitive(p: Path, q: Path, r: Path)
    requires PathLess(p, q) && PathLess(q, r)
    ensures PathLess(p, r)
  {
    if |p| > 0 && |q| > 0 && |r| > 0 {
      if TextLess(p[0], q[0]) && TextLess(q[0], r[0]) {
        TextLessTransitive(p[0], q[0], r[0]);
      } else if p[0] == q[0] == r[0] {
        PathLessTransitive(p[1..], q[1..], r[1..]);
      }
    }
  }

  lemma {:induction false} PathLessTotal(p: Path, q: Path)
    ensures p == q || PathLess(p, q) || PathLess(q, p)
  {
    if |p| > 0 && |q| > 0 {
      TextLessTotal(p[0], q[0]);
      if p[0] == q[0] {
        PathLessTotal(p[1..], q[1..]);
        if p[1..] == q[1..] {
          assert p == [p[0]] + p[1..] && q == [q[0]] + q[1..];
        }
      }
    }
  }

  lemma PathAtMostTransitive(p: Path, q: Path, r: Path)
    requires PathAtMost(p, q) && PathAtMost(q, r)
    ensures PathAtMost(p, r)
  {
    if p != q && q != r {
      PathLessTransitive(p, q, r);
    }
  }

  lemma PathAtMostAntisymmetric(p: Path, q: Path)
    requires PathAtMost(p, q) && PathAtMost(q, p)
    ensures p == q
  {
    if p != q {
      PathLessTransitive(p, q, p);
      PathLessIrreflexive(p);
    }
  }

  /** The first element of a sorted sequence is at most each element. */
  lemma SortedHeadIsLeast(a: seq<Path>, x: Path)
    requires Sorted(a) && x in a
    ensures PathAtMost(a[0], x)
  {
    var i :| 0 <= i < |a| && a[i] == x;
    if i > 0 {
      assert PathAtMost(a[0], a[i]);
    }
  }

  lemma SortedTail(a: seq<Path>)
    requires Sorted(a) && |a| > 0
    ensures Sorted(a[1..])
  {
    forall i, j | 0 <= i < j < |a| - 1
      ensures PathAtMost(a[1..][i], a[1..][j])
    {
      assert a[1..][i] == a[i + 1] && a[1..][j] == a[j + 1];
    }
  }

  lemma TailMultiset(a: seq<Path>)
    requires |a| > 0
    ensures multiset(a[1..]) == multiset(a) - multiset{a[0]}
  {
    assert a == [a[0]] + a[1..];
  }

  /** Two non-empty sorted sequences holding the same paths start alike. */
  lemma SortedHeadsEqual(a: seq<Path>, b: seq<Path>)
    requires Sorted(a) && Sorted(b) && |a| > 0
    requires multiset(a) == multiset(b)
    ensures |b| > 0 && a[0] == b[0]
  {
    assert a[0] in multiset(b);
    assert b[0] in multiset(a);
    SortedHeadIsLeast(b, a[0]);
    SortedHeadIsLeast(a, b[0]);
    PathAtMostAntisymmetric(a[0], b[0]);
  }

  /** Two sorted sequences holding the same paths the same number of times
   *  are equal: the sorted order of a collection of paths is unique. */
  lemma {:induction false} SortedUnique(a: seq<Path>, b: seq<Path>)
    requires Sorted(a) && Sorted(b)
    requires multiset(a) == multiset(b)
    ensures a == b
    decreases |a|
  {
    if |a| == 0 {
      assert |multiset(b)| == 0;
    } else {
      SortedHeadsEqual(a, b);
      SortedTail(a);
      SortedTail(b);
      TailMultiset(a);
      TailMultiset(b);
      SortedUnique(a[1..], b[1..]);
      assert a == [a[0]] + a[1..] && b == [b[0]] + b[1..];
    }
  }

  /** Inserting `x` into a sorted sequence just before the first element
   *  greater than it keeps the sequence sorted. */
  lemma InsertKeepsSorted(r: seq<Path>, k: nat, x: Path)
    requires Sorted(r) && k <= |r|
    requires forall m :: 0 <= m < k ==> PathAtMost(r[m], x)
    requires k < |r| ==> PathLess(x, r[k])
    ensures Sorted(r[..k] + [x] + r[k..])
  {
    var s := r[..k] + [x] + r[k..];
    forall i, j | 0 <= i < j < |s|
      ensures PathAtMost(s[i], s[j])
    {
      if j < k {
        assert s[i] == r[i] && s[j] == r[j];
      } else if i < k && j == k {
      } else if i < k && j > k {
        assert s[i] == r[i] && s[j] == r[j - 1];
      } else if i == k {
        assert s[j] == r[j - 1];
        if j - 1 > k {
          assert PathAtMost(r[k], r[j - 1]);
          PathAtMostTransitive(x, r[k], r[j - 1]);
        }
      } else {
        assert s[i] == r[i - 1] && s[j] == r[j - 1];
      }
    }
  }

  lemma InsertMultiset(r: seq<Path>, k: nat, x: Path)
    requires k <= |r|
    ensures multiset(r[..k] + [x] + r[k..]) == multiset(r) + multiset{x}
  {
    assert r == r[..k] + r[k..];
  }

  /** The position before the first element of `r` greater than `x`. */
  method InsertionPoint(r: seq<Path>, x: Path) returns (k: nat)
    ensures k <= |r|
    ensures forall m :: 0 <= m < k ==> PathAtMost(r[m], x)
    ensures k < |r| ==> PathLess(x, r[k])
  {
    k := 0;
    while k < |r| && PathAtMost(r[k], x)
      invariant k <= |r|
      invariant forall m :: 0 <= m < k ==> PathAtMost(r[m], x)
    {
      k := k + 1;
    }
    if k < |r| {
      PathLessTotal(r[k], x);
    }
  }

  /** Sorts a list of paths ascending, as `list.sort()` does; by
   *  SortedUnique the result does not depend on the sorting algorithm. */
  method SortPaths(s: seq<Path>) returns (r: seq<Path>)
    ensures Sorted(r)
    ensures multiset(r) == multiset(s)
  {
    r := [];
    var i := 0;
    while i < |s|
      invariant i <= |s|
      invariant Sorted(r)
      invariant multiset(r) == multiset(s[..i])
    {
      var x := s[i];
      var k := InsertionPoint(r, x);
      InsertKeepsSorted(r, k, x);
      InsertMultiset(r, k, x);
      assert s[..i + 1] == s[..i] + [x];
      r := r[..k] + [x] + r[k..];
      i := i + 1;
    }
    assert s[..i] == s;
  }
}
