/** Host addresses of the 64-dimensional hypercube, the address spaces (addr, mask) that nodes own,
    and the two measures under which every step of the protocol conserves space. */
module Hypercube {
  const DIM: nat := 64

  /** The 64 host bits of an IPv6 address, most significant first. */
  type Host = h: seq<bool> | |h| == 64 witness seq(64, _ => false)

  function Zeros(n: nat): (s: seq<bool>)
    ensures |s| == n && forall i | 0 <= i < n :: !s[i]
  {
    seq(n, _ => false)
  }

  /** Host part of the root address: only the last bit is set. */
  const ROOT: Host := Zeros(63) + [true]

  /** All host addresses that agree with addr on the first mask bits. */
  datatype Space = Space(addr: Host, mask: nat)

  predicate Agree(a: Host, b: Host, m: nat) {
    forall i | 0 <= i < 64 && i < m :: a[i] == b[i]
  }

  predicate Covers(e: Space, h: Host) {
    Agree(e.addr, h, e.mask)
  }

  /** Toggle bit k, as the parent does to name a new child. */
  function Flip(a: Host, k: nat): Host
    requires k < 64
  {
    a[k := !a[k]]
  }

  /** Bits m..62 are zero and, when the mask leaves room for it, the last bit is the root's. */
  predicate Shaped(a: Host, m: nat) {
    && (forall i | m <= i < 63 :: !a[i])
    && (m <= 63 ==> a[63])
  }

  function Pow2(n: nat): (r: nat)
    ensures r >= 1
  {
    if n == 0 then 1 else 2 * Pow2(n - 1)
  }

  /** What is conserved: membership of one host address, or the number of addresses. */
  datatype Measure = At(h: Host) | Volume

  function Value(v: Measure, e: Space): nat {
    match v
    case At(h) => if Covers(e, h) then 1 else 0
    case Volume => if e.mask <= 64 then Pow2(64 - e.mask) else 0
  }

  function Sum(v: Measure, s: seq<Space>): nat {
    if s == [] then 0 else Value(v, s[0]) + Sum(v, s[1..])
  }

  lemma {:induction false} SumConcat(v: Measure, s: seq<Space>, t: seq<Space>)
    ensures Sum(v, s + t) == Sum(v, s) + Sum(v, t)
  {
    if s == [] {
      assert s + t == t;
    } else {
      SumConcat(v, s[1..], t);
      assert (s + t)[1..] == s[1..] + t;
    }
  }

  lemma {:induction false} SumSnoc(v: Measure, s: seq<Space>, e: Space)
    ensures Sum(v, s + [e]) == Sum(v, s) + Value(v, e)
  {
    SumConcat(v, s, [e]);
  }

  lemma {:induction false} SumRemove(v: Measure, s: seq<Space>, i: nat)
    requires i < |s|
    ensures Sum(v, s[..i] + s[i + 1..]) + Value(v, s[i]) == Sum(v, s)
  {
    SumConcat(v, s[..i], s[i + 1..]);
    SumConcat(v, s[..i], s[i..]);
    assert s == s[..i] + s[i..];
    assert s[i..][1..] == s[i + 1..];
  }

  lemma {:induction false} SumMember(v: Measure, s: seq<Space>, i: nat)
    requires i < |s|
    ensures Value(v, s[i]) <= Sum(v, s)
  {
    SumRemove(v, s, i);
  }

  lemma {:induction false} SumPositive(s: seq<Space>, h: Host)
    ensures Sum(At(h), s) > 0 <==> exists e | e in s :: Covers(e, h)
  {
    if s != [] {
      SumPositive(s[1..], h);
      assert s == [s[0]] + s[1..];
    }
  }

  /** Two distinct positions of a list weigh at most the whole list. */
  lemma {:induction false} SumTwo(v: Measure, s: seq<Space>, i: nat, j: nat)
    requires i < j < |s|
    ensures Value(v, s[i]) + Value(v, s[j]) <= Sum(v, s)
  {
    SumRemove(v, s, i);
    var t := s[..i] + s[i + 1..];
    assert t[j - 1] == s[j];
    SumMember(v, t, j - 1);
  }

  /** A buddy split conserves every measure. */
  lemma {:induction false} SplitConserves(v: Measure, a: Host, m: nat)
    requires m < 64
    ensures Value(v, Space(a, m)) == Value(v, Space(a, m + 1)) + Value(v, Space(Flip(a, m), m + 1))
  {
    match v
    case Volume =>
    case At(h) =>
      if Agree(a, h, m) {
        if a[m] == h[m] {
          assert Agree(a, h, m + 1);
        } else {
          assert Agree(Flip(a, m), h, m + 1);
        }
      } else {
        var i :| 0 <= i < 64 && i < m && a[i] != h[i];
        assert Flip(a, m)[i] != h[i];
      }
  }

  /** The buddies split off when the mask grows from m to k. */
  function Splits(a: Host, m: nat, k: nat): (s: seq<Space>)
    requires m <= k <= 64
    ensures |s| == k - m
    ensures forall i | 0 <= i < |s| :: s[i] == Space(Flip(a, m + i), m + i + 1)
    decreases k - m
  {
    if m == k then [] else [Space(Flip(a, m), m + 1)] + Splits(a, m + 1, k)
  }

  lemma {:induction false} SplitsConserve(v: Measure, a: Host, m: nat, k: nat)
    requires m <= k <= 64
    ensures Value(v, Space(a, m)) == Value(v, Space(a, k)) + Sum(v, Splits(a, m, k))
    decreases k - m
  {
    if m < k {
      SplitConserves(v, a, m);
      SplitsConserve(v, a, m + 1, k);
      var s := Splits(a, m, k);
      assert s[1..] == Splits(a, m + 1, k);
    }
  }

  lemma {:induction false} Pow2Monotone(i: nat, j: nat)
    requires i < j
    ensures Pow2(i) < Pow2(j)
    decreases j
  {
    if i + 1 < j {
      Pow2Monotone(i, j - 1);
    }
  }
}
