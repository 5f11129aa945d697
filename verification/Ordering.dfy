/** Comparators in the convention of src/simclist.h and rearrangements of a stretch of a sequence. */
module Ordering {

  /** Always true: naming three values asks for the order laws between them. */
  ghost predicate Among<T>(x: T, y: T, z: T) { true }

  /** A comparator's sign is < 0, 0, > 0 when its first argument is greater, equal, smaller. */
  ghost predicate TotalPreorder<T(!new)>(cmp: (T, T) -> int) {
    forall x, y, z {:trigger Among(x, y, z)} :: Among(x, y, z) ==>
      && (cmp(x, y) > 0 <==> cmp(y, x) < 0)
      && (cmp(x, y) >= 0 && cmp(y, z) >= 0 ==> cmp(x, z) >= 0)
  }

  /** The product list_sort compares with zero: positive when y has to come before x. */
  function Sign<T>(cmp: (T, T) -> int, versus: int, x: T, y: T): int {
    cmp(x, y) * -versus
  }

  /** The comparator and the direction make an order. */
  ghost predicate Lawful<T(!new)>(cmp: (T, T) -> int, versus: int) {
    TotalPreorder(cmp) && (versus == 1 || versus == -1)
  }

  /** x may stand before y, if there is an order. The sort only permutes when there is none. */
  ghost predicate Goes<T(!new)>(cmp: (T, T) -> int, versus: int, x: T, y: T) {
    Lawful(cmp, versus) ==> Sign(cmp, versus, x, y) <= 0
  }

  /** In the requested direction: ascending for versus = 1, descending for -1. */
  ghost predicate SortedBetween<T(!new)>(cmp: (T, T) -> int, versus: int, s: seq<T>, a: nat, b: nat) {
    b <= |s| && forall i, j :: a <= i < j < b ==> Goes(cmp, versus, s[i], s[j])
  }

  lemma GoesAfter<T(!new)>(cmp: (T, T) -> int, versus: int, x: T, y: T)
    ensures Sign(cmp, versus, x, y) >= 0 ==> Goes(cmp, versus, y, x)
    ensures Goes(cmp, versus, x, y) || Goes(cmp, versus, y, x)
  {
    assert Among(x, y, y) && Among(y, x, x);
  }

  lemma GoesTransitive<T(!new)>(cmp: (T, T) -> int, versus: int, x: T, y: T, z: T)
    requires Goes(cmp, versus, x, y) && Goes(cmp, versus, y, z)
    ensures Goes(cmp, versus, x, z)
  {
    assert Among(x, y, z) && Among(y, z, x) && Among(z, x, y) && Among(z, y, x) && Among(x, z, y) && Among(y, x, z);
  }

  /** t permutes the stretch [a, b) of s and leaves everything else in place. */
  ghost predicate Rearranged<T>(s: seq<T>, t: seq<T>, a: nat, b: nat) {
    && |s| == |t| && a <= b <= |s|
    && s[..a] == t[..a] && s[b..] == t[b..]
    && multiset(s[a..b]) == multiset(t[a..b])
  }

  lemma SwapRearranges<T>(s: seq<T>, i: nat, j: nat, a: nat, b: nat)
    requires a <= i < b <= |s| && a <= j < b
    ensures Rearranged(s, s[i := s[j]][j := s[i]], a, b)
  {
    var t := s[i := s[j]][j := s[i]];
    var w, x, y := s[a..b], i - a, j - a;
    assert t[a..b] == w[x := w[y]][y := w[x]];
    assert multiset(w[x := w[y]]) == multiset(w) - multiset{w[x]} + multiset{w[y]};
    assert multiset(w[x := w[y]][y := w[x]]) == multiset(w[x := w[y]]) - multiset{w[x := w[y]][y]} + multiset{w[x]};
  }

  /** The three-way move of the uneven phases: the entry at i goes to p, the one at p to m, the one at m to i. */
  function Rotated<T>(s: seq<T>, i: nat, m: nat, p: nat): (t: seq<T>)
    requires i < |s| && m < |s| && p < |s|
    ensures |t| == |s|
  {
    s[i := s[m]][m := s[p]][p := s[i]]
  }

  lemma RotateRearranges<T>(s: seq<T>, i: nat, m: nat, p: nat, a: nat, b: nat)
    requires a <= i < b <= |s| && a <= m < b && a <= p < b && i != p && m != p
    ensures Rearranged(s, Rotated(s, i, m, p), a, b)
  {
    hide Rearranged;
    var u := s[m := s[p]][p := s[m]];
    SwapRearranges(s, m, p, a, b);
    if i == m {
      assert Rotated(s, i, m, p) == u;
    } else {
      var v := u[i := u[p]][p := u[i]];
      SwapRearranges(u, i, p, a, b);
      TwoSwaps(s, i, m, p);
      RearrangedTwice(s, u, v, a, b);
    }
  }

  lemma TwoSwaps<T>(s: seq<T>, i: nat, m: nat, p: nat)
    requires i < |s| && m < |s| && p < |s| && i != p && m != p && i != m
    ensures var u := s[m := s[p]][p := s[m]]; Rotated(s, i, m, p) == u[i := u[p]][p := u[i]]
  {
    var u := s[m := s[p]][p := s[m]];
    assert u[p] == s[m] && u[i] == s[i] && u[m] == s[p];
  }

  lemma RearrangedTwice<T>(s: seq<T>, t: seq<T>, u: seq<T>, a: nat, b: nat)
    requires a <= b <= |t| && Rearranged(s, t, a, b) && Rearranged(t, u, a, b)
    ensures Rearranged(s, u, a, b)
  {
  }

  lemma RearrangedWiden<T>(s: seq<T>, t: seq<T>, a: nat, b: nat, c: nat, d: nat)
    requires Rearranged(s, t, a, b) && c <= a && b <= d <= |s|
    ensures Rearranged(s, t, c, d)
  {
    assert s[c..d] == s[..a][c..] + s[a..b] + s[b..][..d - b];
    assert t[c..d] == t[..a][c..] + t[a..b] + t[b..][..d - b];
    assert s[..c] == s[..a][..c] && t[..c] == t[..a][..c];
    assert s[d..] == s[b..][d - b..] && t[d..] == t[b..][d - b..];
  }

  /** What a rearrangement leaves alone, element by element. */
  lemma RearrangedOutside<T>(s: seq<T>, t: seq<T>, a: nat, b: nat, k: nat)
    requires Rearranged(s, t, a, b) && k < |s| && (k < a || b <= k)
    ensures s[k] == t[k]
  {
    if k < a {
      assert s[..a][k] == t[..a][k];
    } else {
      assert s[b..][k - b] == t[b..][k - b];
    }
  }

  /** Every element of the stretch of t stood somewhere in the stretch of s. */
  lemma RearrangedOrigin<T>(s: seq<T>, t: seq<T>, a: nat, b: nat, k: nat) returns (j: nat)
    requires Rearranged(s, t, a, b) && a <= k < b
    ensures a <= j < b && s[j] == t[k]
  {
    assert t[a..b][k - a] in multiset(t[a..b]);
    assert t[k] in s[a..b];
    var x :| 0 <= x < |s[a..b]| && s[a..b][x] == t[k];
    j := a + x;
  }

  ghost predicate AllBefore<T(!new)>(cmp: (T, T) -> int, versus: int, s: seq<T>, a: nat, b: nat, p: T) {
    b <= |s| && forall k :: a <= k < b ==> Goes(cmp, versus, s[k], p)
  }

  ghost predicate AllAfter<T(!new)>(cmp: (T, T) -> int, versus: int, s: seq<T>, a: nat, b: nat, p: T) {
    b <= |s| && forall k :: a <= k < b ==> Goes(cmp, versus, p, s[k])
  }

  lemma RearrangedKeepsBounds<T(!new)>(cmp: (T, T) -> int, versus: int, s: seq<T>, t: seq<T>, a: nat, b: nat, p: T)
    requires Rearranged(s, t, a, b)
    ensures AllBefore(cmp, versus, s, a, b, p) ==> AllBefore(cmp, versus, t, a, b, p)
    ensures AllAfter(cmp, versus, s, a, b, p) ==> AllAfter(cmp, versus, t, a, b, p)
  {
    forall k | a <= k < b
      ensures AllBefore(cmp, versus, s, a, b, p) ==> Goes(cmp, versus, t[k], p)
      ensures AllAfter(cmp, versus, s, a, b, p) ==> Goes(cmp, versus, p, t[k])
    {
      var j := RearrangedOrigin(s, t, a, b, k);
    }
  }

  /** Two sorted stretches around a pivot that bounds both make one sorted stretch. */
  lemma SortedAroundPivot<T(!new)>(cmp: (T, T) -> int, versus: int, s: seq<T>, a: nat, p: nat, b: nat)
    requires a <= p < b <= |s|
    requires SortedBetween(cmp, versus, s, a, p) && SortedBetween(cmp, versus, s, p + 1, b)
    requires AllBefore(cmp, versus, s, a, p, s[p]) && AllAfter(cmp, versus, s, p + 1, b, s[p])
    ensures SortedBetween(cmp, versus, s, a, b)
  {
    forall i, j | a <= i < j < b
      ensures Goes(cmp, versus, s[i], s[j])
    {
      if i < p < j {
        GoesTransitive(cmp, versus, s[i], s[p], s[j]);
      }
    }
  }

  /** The selection sort has put the right elements in [a, f), in order. */
  ghost predicate Settled<T(!new)>(cmp: (T, T) -> int, versus: int, s: seq<T>, a: nat, f: nat, b: nat) {
    f <= b <= |s| && forall i, j :: a <= i < f && i < j < b ==> Goes(cmp, versus, s[i], s[j])
  }

  lemma SettleOne<T(!new)>(cmp: (T, T) -> int, versus: int, s: seq<T>, a: nat, f: nat, b: nat, t: nat)
    requires a <= f <= t < b && Settled(cmp, versus, s, a, f, b)
    requires AllAfter(cmp, versus, s, f, b, s[t])
    ensures Settled(cmp, versus, s[f := s[t]][t := s[f]], a, f + 1, b)
  {
    var u := s[f := s[t]][t := s[f]];
    forall i, j | a <= i < f + 1 && i < j < b
      ensures Goes(cmp, versus, u[i], u[j])
    {
      var j' := if j == t then f else if j == f then t else j;
      assert u[j] == s[j'];
    }
  }

  /** s permutes [first, last] of s0, its pivot is at p, what may stay before the pivot is in
      [first, l) and what may stay after it in (r, last]. */
  ghost predicate Split<T(!new)>(cmp: (T, T) -> int, versus: int, s0: seq<T>, s: seq<T>,
                           first: nat, l: nat, p: nat, r: nat, last: nat)
  {
    && first <= l <= p <= r <= last < |s|
    && Rearranged(s0, s, first, last + 1)
    && AllBefore(cmp, versus, s, first, l, s[p]) && AllAfter(cmp, versus, s, r + 1, last + 1, s[p])
  }

  lemma SplitAtStart<T(!new)>(cmp: (T, T) -> int, versus: int, s: seq<T>, first: nat, p: nat, last: nat)
    requires first <= p <= last < |s|
    ensures Split(cmp, versus, s, s, first, first, p, last, last)
  {
  }

  /** One round of the main loop: both ends skip to l1 and r1, and are exchanged unless one is the pivot. */
  lemma SplitRound<T(!new)>(cmp: (T, T) -> int, versus: int, s0: seq<T>, s: seq<T>, u: seq<T>,
                            first: nat, l0: nat, l1: nat, l: nat, p: nat, r: nat, r1: nat, r0: nat, last: nat)
    requires Split(cmp, versus, s0, s, first, l0, p, r0, last)
    requires l0 <= l1 <= p <= r1 <= r0
    requires AllBefore(cmp, versus, s, l0, l1, s[p]) && AllAfter(cmp, versus, s, r1 + 1, r0 + 1, s[p])
    requires l1 < p ==> Sign(cmp, versus, s[l1], s[p]) > 0
    requires r1 > p ==> Sign(cmp, versus, s[r1], s[p]) < 0
    requires l1 < p < r1 ==> l == l1 + 1 && r == r1 - 1 && u == s[l1 := s[r1]][r1 := s[l1]]
    requires !(l1 < p < r1) ==> l == l1 && r == r1 && u == s
    ensures Split(cmp, versus, s0, u, first, l, p, r, last)
  {
    assert Split(cmp, versus, s0, s, first, l1, p, r1, last);
    if l1 < p < r1 {
      ExchangeAcross(cmp, versus, s0, s, u, first, l1, p, r1, last);
    }
  }

  /** Exchanging an element on each wrong side of the pivot settles both. */
  lemma ExchangeAcross<T(!new)>(cmp: (T, T) -> int, versus: int, s0: seq<T>, s: seq<T>, u: seq<T>,
                                first: nat, l: nat, p: nat, r: nat, last: nat)
    requires Split(cmp, versus, s0, s, first, l, p, r, last) && l < p < r
    requires u == s[l := s[r]][r := s[l]]
    requires Sign(cmp, versus, s[l], s[p]) > 0 && Sign(cmp, versus, s[r], s[p]) < 0
    ensures Split(cmp, versus, s0, u, first, l + 1, p, r - 1, last)
  {
    GoesAfter(cmp, versus, s[l], s[p]);
    SwapRearranges(s, l, r, first, last + 1);
    SplitMoved(cmp, versus, s, u, first, l, p, r, last);
  }

  lemma SplitMoved<T(!new)>(cmp: (T, T) -> int, versus: int, s: seq<T>, u: seq<T>, a: nat, l: nat, p: nat, r: nat, last: nat)
    requires a <= l < p < r <= last < |s| && u == s[l := s[r]][r := s[l]]
    requires AllBefore(cmp, versus, s, a, l, s[p]) && AllAfter(cmp, versus, s, r + 1, last + 1, s[p])
    requires Goes(cmp, versus, s[p], s[l]) && Goes(cmp, versus, s[r], s[p])
    ensures u[p] == s[p] && AllBefore(cmp, versus, u, a, l + 1, u[p]) && AllAfter(cmp, versus, u, r, last + 1, u[p])
  {
  }

  /** One step of the uneven phase on the left: a misplaced element moves right behind the pivot, from p0 to p0 - 1. */
  lemma SplitDrainLeft<T(!new)>(cmp: (T, T) -> int, versus: int, s0: seq<T>, s: seq<T>, u: seq<T>,
                                first: nat, l0: nat, l: nat, p: nat, p0: nat, last: nat)
    requires Split(cmp, versus, s0, s, first, l0, p0, p0, last) && l0 < p0
    requires Sign(cmp, versus, s[l0], s[p0]) > 0 ==> l == l0 && p == p0 - 1 && u == Rotated(s, l0, p, p0)
    requires Sign(cmp, versus, s[l0], s[p0]) <= 0 ==> l == l0 + 1 && p == p0 && u == s
    ensures Split(cmp, versus, s0, u, first, l, p, p, last)
  {
    if Sign(cmp, versus, s[l0], s[p0]) > 0 {
      ShiftPivotLeft(cmp, versus, s0, s, u, first, l0, p, last);
    }
  }

  lemma ShiftPivotLeft<T(!new)>(cmp: (T, T) -> int, versus: int, s0: seq<T>, s: seq<T>, u: seq<T>,
                                first: nat, l: nat, m: nat, last: nat)
    requires Split(cmp, versus, s0, s, first, l, m + 1, m + 1, last) && l <= m
    requires u == Rotated(s, l, m, m + 1) && Sign(cmp, versus, s[l], s[m + 1]) > 0
    ensures Split(cmp, versus, s0, u, first, l, m, m, last)
  {
    hide AllBefore, AllAfter, Rearranged, Rotated;
    RotateRearranges(s, l, m, m + 1, first, last + 1);
    RearrangedTwice(s0, s, u, first, last + 1);
    ShiftedLeft(cmp, versus, s, u, first, l, m, last + 1);
  }

  lemma ShiftedLeft<T(!new)>(cmp: (T, T) -> int, versus: int, s: seq<T>, u: seq<T>, a: nat, l: nat, m: nat, b: nat)
    requires a <= l <= m && m + 1 < b <= |s| && u == Rotated(s, l, m, m + 1)
    requires AllBefore(cmp, versus, s, a, l, s[m + 1]) && AllAfter(cmp, versus, s, m + 2, b, s[m + 1])
    requires Sign(cmp, versus, s[l], s[m + 1]) > 0
    ensures u[m] == s[m + 1]
    ensures AllBefore(cmp, versus, u, a, l, u[m]) && AllAfter(cmp, versus, u, m + 1, b, u[m])
  {
    GoesAfter(cmp, versus, s[l], s[m + 1]);
    assert u[m] == s[m + 1] && u[m + 1] == s[l];
    assert forall k :: 0 <= k < |s| && k != l && k != m && k != m + 1 ==> u[k] == s[k];
  }

  /** One step of the uneven phase on the right. */
  lemma SplitDrainRight<T(!new)>(cmp: (T, T) -> int, versus: int, s0: seq<T>, s: seq<T>, u: seq<T>,
                                 first: nat, p0: nat, p: nat, r: nat, r0: nat, last: nat)
    requires Split(cmp, versus, s0, s, first, p0, p0, r0, last) && p0 < r0
    requires Sign(cmp, versus, s[r0], s[p0]) < 0 ==> p == p0 + 1 && r == r0 && u == Rotated(s, r0, p, p0)
    requires Sign(cmp, versus, s[r0], s[p0]) >= 0 ==> p == p0 && r == r0 - 1 && u == s
    ensures Split(cmp, versus, s0, u, first, p, p, r, last)
  {
    if Sign(cmp, versus, s[r0], s[p0]) < 0 {
      ShiftPivotRight(cmp, versus, s0, s, u, first, p0, r0, last);
    } else {
      GoesAfter(cmp, versus, s[r0], s[p0]);
    }
  }

  lemma ShiftPivotRight<T(!new)>(cmp: (T, T) -> int, versus: int, s0: seq<T>, s: seq<T>, u: seq<T>,
                           first: nat, p: nat, r: nat, last: nat)
    requires Split(cmp, versus, s0, s, first, p, p, r, last) && p < r
    requires u == Rotated(s, r, p + 1, p) && Sign(cmp, versus, s[r], s[p]) < 0
    ensures Split(cmp, versus, s0, u, first, p + 1, p + 1, r, last)
  {
    hide AllBefore, AllAfter, Rearranged, Rotated;
    RotateRearranges(s, r, p + 1, p, first, last + 1);
    RearrangedTwice(s0, s, u, first, last + 1);
    ShiftedRight(cmp, versus, s, u, first, p, r, last + 1);
  }

  lemma ShiftedRight<T(!new)>(cmp: (T, T) -> int, versus: int, s: seq<T>, u: seq<T>, a: nat, p: nat, r: nat, b: nat)
    requires a <= p < r < b <= |s| && u == Rotated(s, r, p + 1, p)
    requires AllBefore(cmp, versus, s, a, p, s[p]) && AllAfter(cmp, versus, s, r + 1, b, s[p])
    requires Goes(cmp, versus, s[r], s[p])
    ensures u[p + 1] == s[p]
    ensures AllBefore(cmp, versus, u, a, p + 1, u[p + 1]) && AllAfter(cmp, versus, u, r + 1, b, u[p + 1])
  {
    assert u[p + 1] == s[p] && u[p] == s[r];
    assert forall k :: 0 <= k < |s| && k != r && k != p + 1 && k != p ==> u[k] == s[k];
  }

  /** Sorting each side of the pivot in turn sorts the whole stretch. */
  lemma SortSides<T(!new)>(cmp: (T, T) -> int, versus: int, s0: seq<T>, s: seq<T>, t: seq<T>, u: seq<T>,
                           first: nat, p: nat, last: nat)
    requires Split(cmp, versus, s0, s, first, p, p, p, last)
    requires Rearranged(s, t, first, p) && SortedBetween(cmp, versus, t, first, p)
    requires Rearranged(t, u, p + 1, last + 1) && SortedBetween(cmp, versus, u, p + 1, last + 1)
    ensures Rearranged(s0, u, first, last + 1) && SortedBetween(cmp, versus, u, first, last + 1)
  {
    var a, b := first, last + 1;
    RearrangedOutside(s, t, a, p, p);
    RearrangedOutside(t, u, p + 1, b, p);
    RearrangedKeepsBounds(cmp, versus, s, t, a, p, s[p]);
    forall k | p + 1 <= k < b ensures s[k] == t[k] { RearrangedOutside(s, t, a, p, k); }
    RearrangedKeepsBounds(cmp, versus, t, u, p + 1, b, s[p]);
    forall k | a <= k < p ensures t[k] == u[k] { RearrangedOutside(t, u, p + 1, b, k); }
    SortedAroundPivot(cmp, versus, u, a, p, b);
    RearrangedWiden(s, t, a, p, a, b);
    RearrangedWiden(t, u, p + 1, b, a, b);
  }
}
