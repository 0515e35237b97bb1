/** Periodic indexing on a ring of n cells, and sums of real-valued fields over the ring.

    Cell n - 1's right-hand neighbour is cell 0 and cell 0's left-hand neighbour is
    cell n - 1.  The shift lemmas at the end are what makes the conservative update
    rules telescope. */
module Periodic {

  /** Right-hand neighbour of cell i: i + 1, with the last cell patched to 0. */
  function Ip(i: int, n: int): (r: int)
    requires 0 <= i < n
    ensures 0 <= r < n
  {
    if i == n - 1 then 0 else i + 1
  }

  /** Left-hand neighbour of cell i: i - 1, with the first cell patched to n - 1. */
  function Im(i: int, n: int): (r: int)
    requires 0 <= i < n
    ensures 0 <= r < n
  {
    if i == 0 then n - 1 else i - 1
  }

  /** The patched tables are successor and predecessor modulo n; the last cell's
      right-hand neighbour is 0 and the first cell's left-hand neighbour is n - 1. */
  lemma NeighboursAreModular(n: int)
    requires n >= 1
    ensures Ip(n - 1, n) == 0 && Im(0, n) == n - 1
    ensures forall i :: 0 <= i < n ==> Ip(i, n) == (i + 1) % n && Im(i, n) == (i - 1 + n) % n
  {
  }

  /** The two neighbour maps undo each other, so each is a permutation of the cells. */
  lemma NeighboursInverse(n: int)
    requires n >= 1
    ensures forall i :: 0 <= i < n ==> Ip(Im(i, n), n) == i && Im(Ip(i, n), n) == i
  {
  }

  /** Total of a field. */
  function Sum(s: seq<real>): real
  {
    if s == [] then 0.0 else s[0] + Sum(s[1..])
  }

  lemma {:induction false} SumConcat(a: seq<real>, b: seq<real>)
    ensures Sum(a + b) == Sum(a) + Sum(b)
  {
    if a == [] {
      assert a + b == b;
    } else {
      assert (a + b)[1..] == a[1..] + b;
      SumConcat(a[1..], b);
    }
  }

  /** The field read through the right-hand neighbour map: cell i holds s[ip[i]]. */
  function Next(s: seq<real>): (r: seq<real>)
    ensures |r| == |s|
  {
    seq(|s|, i requires 0 <= i < |s| => s[Ip(i, |s|)])
  }

  /** The field read through the left-hand neighbour map: cell i holds s[im[i]]. */
  function Prev(s: seq<real>): (r: seq<real>)
    ensures |r| == |s|
  {
    seq(|s|, i requires 0 <= i < |s| => s[Im(i, |s|)])
  }

  /** Pointwise linear combination x * a + y * b of two fields. */
  function Lin(x: real, a: seq<real>, y: real, b: seq<real>): (r: seq<real>)
    requires |a| == |b|
    ensures |r| == |a|
  {
    seq(|a|, i requires 0 <= i < |a| => x * a[i] + y * b[i])
  }

  lemma LinAt(x: real, a: seq<real>, y: real, b: seq<real>, i: int)
    requires |a| == |b| && 0 <= i < |a|
    ensures Lin(x, a, y, b)[i] == x * a[i] + y * b[i]
  {
  }

  /** Reading through ip is a rotation, so it keeps the total. */
  lemma SumNext(s: seq<real>)
    ensures Sum(Next(s)) == Sum(s)
  {
    if s != [] {
      assert Next(s) == s[1..] + [s[0]];
      SumConcat(s[1..], [s[0]]);
      assert Sum([s[0]]) == s[0] + Sum([]);
    }
  }

  /** Reading through im is a rotation, so it keeps the total. */
  lemma SumPrev(s: seq<real>)
    ensures Sum(Prev(s)) == Sum(s)
  {
    if s != [] {
      var n := |s|;
      assert Prev(s) == [s[n - 1]] + s[..n - 1];
      assert s[..n - 1] + [s[n - 1]] == s;
      SumConcat([s[n - 1]], s[..n - 1]);
      SumConcat(s[..n - 1], [s[n - 1]]);
      assert Sum([s[n - 1]]) == s[n - 1] + Sum([]);
    }
  }

  /** The total is linear. */
  lemma {:induction false} SumLin(x: real, a: seq<real>, y: real, b: seq<real>)
    requires |a| == |b|
    ensures Sum(Lin(x, a, y, b)) == x * Sum(a) + y * Sum(b)
  {
    if a != [] {
      var r, tail := Lin(x, a, y, b), Lin(x, a[1..], y, b[1..]);
      LinTail(x, a, y, b);
      SumLin(x, a[1..], y, b[1..]);
      Regroup(x, y, a[0], Sum(a[1..]), Sum(a), b[0], Sum(b[1..]), Sum(b), r[0], Sum(tail));
    }
  }

  lemma LinTail(x: real, a: seq<real>, y: real, b: seq<real>)
    requires |a| == |b| && a != []
    ensures Lin(x, a, y, b)[1..] == Lin(x, a[1..], y, b[1..])
    ensures Lin(x, a, y, b)[0] == x * a[0] + y * b[0]
  {
    var r, tail := Lin(x, a, y, b), Lin(x, a[1..], y, b[1..]);
    forall k | 0 <= k < |tail|
      ensures r[1..][k] == tail[k]
    {
      assert r[1..][k] == r[k + 1];
    }
  }

  lemma Regroup(x: real, y: real, a0: real, sa: real, sA: real, b0: real, sb: real, sB: real,
                r0: real, st: real)
    requires sA == a0 + sa && sB == b0 + sb
    requires r0 == x * a0 + y * b0 && st == x * sa + y * sb
    ensures r0 + st == x * sA + y * sB
  {
  }

  /** Adding a multiple of a field whose total is zero leaves the total unchanged. */
  lemma SumLinNull(x: real, a: seq<real>, y: real, b: seq<real>)
    requires |a| == |b| && Sum(b) == 0.0
    ensures Sum(Lin(x, a, y, b)) == x * Sum(a)
  {
    SumLin(x, a, y, b);
  }

  /** A centred difference s[ip[i]] - s[im[i]] telescopes to zero around the ring. */
  lemma CentredDifferenceSumsToZero(s: seq<real>)
    ensures Sum(Lin(1.0, Next(s), -1.0, Prev(s))) == 0.0
  {
    SumLin(1.0, Next(s), -1.0, Prev(s));
    SumNext(s);
    SumPrev(s);
  }

  /** Subtracting any multiple of a centred difference keeps the total. */
  lemma CentredUpdateKeepsSum(c: real, a: seq<real>, s: seq<real>)
    requires |a| == |s|
    ensures Sum(Lin(1.0, a, -c, Lin(1.0, Next(s), -1.0, Prev(s)))) == Sum(a)
  {
    CentredDifferenceSumsToZero(s);
    SumLinNull(1.0, a, -c, Lin(1.0, Next(s), -1.0, Prev(s)));
  }

  /** A backward difference s[i] - s[im[i]] telescopes to zero around the ring. */
  lemma BackwardDifferenceSumsToZero(s: seq<real>)
    ensures Sum(Lin(1.0, s, -1.0, Prev(s))) == 0.0
  {
    SumLin(1.0, s, -1.0, Prev(s));
    SumPrev(s);
  }

  /** Adding any multiple of a backward difference keeps the total. */
  lemma BackwardUpdateKeepsSum(c: real, a: seq<real>, s: seq<real>)
    requires |a| == |s|
    ensures Sum(Lin(1.0, a, c, Lin(1.0, s, -1.0, Prev(s)))) == Sum(a)
  {
    BackwardDifferenceSumsToZero(s);
    SumLinNull(1.0, a, c, Lin(1.0, s, -1.0, Prev(s)));
  }

  /** The average of the two neighbours of every cell has the same total as the field. */
  lemma NeighbourAverageKeepsSum(s: seq<real>)
    ensures Sum(Lin(0.5, Next(s), 0.5, Prev(s))) == Sum(s)
  {
    SumLin(0.5, Next(s), 0.5, Prev(s));
    SumNext(s);
    SumPrev(s);
  }
}
