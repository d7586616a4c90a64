/** Distances between host addresses and prefix tests (pkt_handle.c). */
module Metric {
  import opened Hypercube

  /** Number of positions in lo..hi-1 where two addresses differ. */
  function Diff(a: Host, b: Host, lo: nat, hi: nat): nat
    requires lo <= hi <= 64
    decreases hi - lo
  {
    if lo == hi then 0 else (if a[hi - 1] != b[hi - 1] then 1 else 0) + Diff(a, b, lo, hi - 1)
  }

  /** The hypercube distance. */
  function Dist(a: Host, b: Host): nat {
    Diff(a, b, 0, |a|)
  }

  lemma {:induction false} DiffSplit(a: Host, b: Host, lo: nat, mid: nat, hi: nat)
    requires lo <= mid <= hi <= 64
    ensures Diff(a, b, lo, hi) == Diff(a, b, lo, mid) + Diff(a, b, mid, hi)
    decreases hi
  {
    if mid < hi {
      DiffSplit(a, b, lo, mid, hi - 1);
    }
  }

  lemma {:induction false} DiffZero(a: Host, b: Host, lo: nat, hi: nat)
    requires lo <= hi <= 64
    ensures Diff(a, b, lo, hi) == 0 <==> forall i | lo <= i < hi :: a[i] == b[i]
    decreases hi
  {
    if lo < hi {
      DiffZero(a, b, lo, hi - 1);
    }
  }

  lemma {:induction false} DiffSymmetric(a: Host, b: Host, lo: nat, hi: nat)
    requires lo <= hi <= 64
    ensures Diff(a, b, lo, hi) == Diff(b, a, lo, hi)
    decreases hi
  {
    if lo < hi {
      DiffSymmetric(a, b, lo, hi - 1);
    }
  }

  lemma {:induction false} DiffTriangle(a: Host, b: Host, c: Host, lo: nat, hi: nat)
    requires lo <= hi <= 64
    ensures Diff(a, c, lo, hi) <= Diff(a, b, lo, hi) + Diff(b, c, lo, hi)
    decreases hi
  {
    if lo < hi {
      DiffTriangle(a, b, c, lo, hi - 1);
    }
  }

  lemma {:induction false} DiffFlip(a: Host, b: Host, k: nat, lo: nat, hi: nat)
    requires lo <= hi <= 64 && k < 64
    ensures lo <= k < hi ==>
              Diff(a[k := !a[k]], b, lo, hi) == Diff(a, b, lo, hi) + (if a[k] == b[k] then 1 else -1)
    ensures !(lo <= k < hi) ==> Diff(a[k := !a[k]], b, lo, hi) == Diff(a, b, lo, hi)
    decreases hi
  {
    if lo < hi {
      DiffFlip(a, b, k, lo, hi - 1);
    }
  }

  /** The hypercube distance is a metric on host addresses. */
  lemma {:induction false} DistIsMetric(a: Host, b: Host, c: Host)
    ensures Dist(a, b) == 0 <==> a == b
    ensures Dist(a, b) == Dist(b, a)
    ensures Dist(a, c) <= Dist(a, b) + Dist(b, c)
  {
    DiffZero(a, b, 0, 64);
    DiffSymmetric(a, b, 0, 64);
    DiffTriangle(a, b, c, 0, 64);
  }

  /** Distance one is exactly one flipped bit. */
  lemma {:induction false} DistOne(a: Host, b: Host)
    ensures Dist(a, b) == 1 <==> exists k | 0 <= k < 64 :: b == Flip(a, k)
  {
    if Dist(a, b) == 1 {
      DiffZero(a, b, 0, 64);
      var k :| 0 <= k < 64 && a[k] != b[k];
      DiffFlip(a, b, k, 0, 64);
      DiffZero(Flip(a, k), b, 0, 64);
      assert b == Flip(a, k);
    }
    if k :| 0 <= k < 64 && b == Flip(a, k) {
      DiffZero(a, a, 0, 64);
      DiffFlip(a, a, k, 0, 64);
      DiffSymmetric(a, b, 0, 64);
    }
  }

  lemma {:induction false} DistFlip(a: Host, k: nat)
    requires k < 64
    ensures Dist(a, Flip(a, k)) == 1 && Dist(Flip(a, k), a) == 1
  {
    DistOne(a, Flip(a, k));
    DiffSymmetric(a, Flip(a, k), 0, 64);
  }

  /** The masked distance never exceeds the distance, and it is zero exactly inside the space. */
  lemma {:induction false} MaskedDistance(a: Host, b: Host, m: nat)
    requires m <= 64
    ensures Diff(a, b, 0, m) <= Dist(a, b)
    ensures Diff(a, b, 0, m) == 0 <==> Covers(Space(b, m), a)
  {
    DiffSplit(a, b, 0, m, 64);
    DiffZero(a, b, 0, m);
  }

  /** The positions before m where two addresses differ. */
  function Differing(a: Host, b: Host, m: nat): set<nat>
    requires m <= 64
  {
    set i: nat | i < m && a[i] != b[i]
  }

  /** The distance counts them. */
  lemma {:induction false} DiffCounts(a: Host, b: Host, m: nat)
    requires m <= 64
    ensures Diff(a, b, 0, m) == |Differing(a, b, m)|
  {
    if m == 0 {
      assert Differing(a, b, m) == {};
    } else {
      DiffCounts(a, b, m - 1);
      var before := Differing(a, b, m - 1);
      assert Differing(a, b, m) == if a[m - 1] != b[m - 1] then before + {m - 1} else before;
    }
  }
}
