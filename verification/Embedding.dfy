/** shift_mezcla (mezcla.c): the address a node of a merged network gets below its new parent. */
module Embedding {
  import opened Hypercube
  import opened Metric
  import opened Words
  import opened AddressWords
  import opened Relabelling
  import opened RelabelledTree
  import opened Allocation
  import opened AllocationRun

  /** A host part whose first bit alone is set. */
  function Top(): (r: Host)
    ensures forall i | 0 <= i < 64 :: r[i] == (i == 0)
  {
    seq(64, i => i == 0)
  }

  /** The two branches of shift_mezcla on host parts, for a given root. */
  function Mezcla(root: Host, src: Host, s: nat, mf: nat, a: Host): Host {
    if mf >= 1 then Or(Shifted(false, s, root, Shifted(true, mf - 1, root, a)), src)
    else Or(Or(Shifted(false, s + 1, root, a), Shr(Top(), s)), src)
  }

  /** shift_mezcla. */
  method ShiftMezcla(root: Addr, src: Addr, addr: array<Word>, srcMask: nat, mf: nat)
    requires addr.Length == 8
    modifies addr
    ensures HostOf(addr[..]) == Mezcla(HostOf(root), HostOf(src), srcMask, mf, old(HostOf(addr[..])))
  {
    if mf >= 1 {
      DeepShift(root, src, addr, srcMask, mf);
    } else {
      TopShift(root, src, addr, srcMask);
    }
  }

  method DeepShift(root: Addr, src: Addr, aux: array<Word>, srcMask: nat, mf: nat)
    requires aux.Length == 8 && mf >= 1
    modifies aux
    ensures HostOf(aux[..]) == Mezcla(HostOf(root), HostOf(src), srcMask, mf, old(HostOf(aux[..])))
  {
    ShiftHost(true, mf - 1, root, aux);
    ShiftHost(false, srcMask, root, aux);
    OrHost(aux, src);
  }

  method TopShift(root: Addr, src: Addr, aux: array<Word>, srcMask: nat)
    requires aux.Length == 8
    modifies aux
    ensures HostOf(aux[..]) == Mezcla(HostOf(root), HostOf(src), srcMask, 0, old(HostOf(aux[..])))
  {
    var uno := ShiftedOne(srcMask);
    ShiftHost(false, srcMask + 1, root, aux);
    OrHost(aux, uno);
    OrHost(aux, src);
  }

  method ShiftHost(left: bool, count: nat, root: Addr, addr: array<Word>)
    requires addr.Length == 8
    modifies addr
    ensures HostOf(addr[..]) == Shifted(left, count, HostOf(root), old(HostOf(addr[..])))
  {
    Shift(left, count, root, addr);
  }

  method OrHost(addr: array<Word>, src: Addr)
    requires addr.Length == 8
    modifies addr
    ensures HostOf(addr[..]) == Or(old(HostOf(addr[..])), HostOf(src))
  {
    HostOr(addr[..], src);
    OrInto(addr, src);
  }

  /** The single bit that marks the new subtree, at host position srcMask. */
  method ShiftedOne(srcMask: nat) returns (one: Addr)
    ensures HostOf(one) == Shr(Top(), srcMask)
  {
    var uno := new Word[8](_ => Zeros(16));
    uno[0] := OneAt(8);
    TopBit(uno[..]);
    ShiftUnos(false, (128 - DIM) + srcMask, uno);
    one := uno[..];
  }

  lemma {:induction false} HostOr(a: Addr, b: Addr)
    ensures Or(AddrBits(a), AddrBits(b))[64..] == Or(HostOf(a), HostOf(b))
  {
  }

  /** The word pattern 0x0080 in front is the first bit of the address. */
  lemma {:induction false} TopBit(uno: Addr)
    requires uno[0] == OneAt(8) && forall i | 1 <= i < 8 :: uno[i] == Zeros(16)
    ensures forall k | 0 <= k < 128 :: AddrBits(uno)[k] == (k == 0)
    ensures forall s: nat :: Shr(AddrBits(uno), 64 + s)[64..] == Shr(Top(), s)
  {
    forall k | 0 <= k < 128
      ensures AddrBits(uno)[k] == (k == 0)
    {
      AddrBitsAt(uno, k);
    }
    forall s: nat
      ensures Shr(AddrBits(uno), 64 + s)[64..] == Shr(Top(), s)
    {
      var x, y := Shr(AddrBits(uno), 64 + s)[64..], Shr(Top(), s);
      forall i | 0 <= i < 64
        ensures x[i] == y[i]
      {
      }
    }
  }

  /** The subtree's bits behind the first s bits of src and a set bit s. */
  function Embed(src: Host, s: nat, mf: nat): Relabel {
    Relabel(if s < 64 then src[s := true] else src, s + 1, mf)
  }

  lemma {:induction false} ShiftedAt(left: bool, k: nat, root: Host, a: Host, i: nat)
    requires i < 64 && forall j | 0 <= j < 64 :: root[j] == (j == 63)
    ensures Shifted(left, k, root, a)[i] ==
            (i == 63 || if left then i + k < 63 && a[i + k] else i >= k && a[i - k])
  {
  }

  /** Bit i of the new address: with mf >= 1 the bit before the subtree's own bits moves to position s. */
  predicate Branch(src: Host, s: nat, mf: nat, a: Host, i: nat)
    requires i < 64 && mf <= 63
  {
    if i == s <= 62 && mf >= 1 then a[mf - 1] else To(Embed(src, s, mf), a)[i]
  }

  lemma {:induction false} DeepBranch(root: Host, src: Host, s: nat, mf: nat, a: Host, i: nat)
    requires forall j | 0 <= j < 64 :: root[j] == (j == 63)
    requires 1 <= mf <= 63 && Shaped(src, s) && i < 64
    ensures Mezcla(root, src, s, mf, a)[i] == Branch(src, s, mf, a, i)
  {
    var b := Shifted(true, mf - 1, root, a);
    ShiftedAt(false, s, root, b, i);
    if i >= s {
      ShiftedAt(true, mf - 1, root, a, i - s);
    }
  }

  lemma {:induction false} RootBranch(root: Host, src: Host, s: nat, a: Host, i: nat)
    requires forall j | 0 <= j < 64 :: root[j] == (j == 63)
    requires Shaped(src, s) && i < 64
    ensures Mezcla(root, src, s, 0, a)[i] == Branch(src, s, 0, a, i)
  {
    ShiftedAt(false, s + 1, root, a, i);
  }

  /** Both branches compute the same embedding of the receiver's subtree below (src, bit s); for a receiver
      that is not a root, exactly on the addresses with the bit that the receiver's parent set for it. From
      mask 63 on there is no place left: every address becomes src. */
  lemma {:induction false} BothBranchesEmbed(src: Host, s: nat, mf: nat, a: Host)
    requires mf <= 63 && Shaped(src, s)
    ensures s <= 62 ==> (Mezcla(ROOT, src, s, mf, a) == To(Embed(src, s, mf), a) <==> mf == 0 || a[mf - 1])
    ensures s >= 63 ==> Mezcla(ROOT, src, s, mf, a) == To(Embed(src, s, mf), a) == src[63 := true]
  {
    forall j | 0 <= j < 64
      ensures ROOT[j] == (j == 63)
    {
      RootBits(j);
    }
    Branches(ROOT, src, s, mf, a);
  }

  lemma {:induction false} Branches(root: Host, src: Host, s: nat, mf: nat, a: Host)
    requires forall j | 0 <= j < 64 :: root[j] == (j == 63)
    requires mf <= 63 && Shaped(src, s)
    ensures s <= 62 ==> (Mezcla(root, src, s, mf, a) == To(Embed(src, s, mf), a) <==> mf == 0 || a[mf - 1])
    ensures s >= 63 ==> Mezcla(root, src, s, mf, a) == To(Embed(src, s, mf), a) == src[63 := true]
  {
    var x := Mezcla(root, src, s, mf, a);
    if mf >= 1 {
      forall i | 0 <= i < 64
        ensures x[i] == Branch(src, s, mf, a, i)
      {
        DeepBranch(root, src, s, mf, a, i);
      }
    } else {
      forall i | 0 <= i < 64
        ensures x[i] == Branch(src, s, mf, a, i)
      {
        RootBranch(root, src, s, a, i);
      }
    }
    FromBits(x, src, s, mf, a);
  }

  lemma {:induction false} FromBits(x: Host, src: Host, s: nat, mf: nat, a: Host)
    requires mf <= 63 && Shaped(src, s)
    requires forall i | 0 <= i < 64 :: x[i] == Branch(src, s, mf, a, i)
    ensures s <= 62 ==> (x == To(Embed(src, s, mf), a) <==> mf == 0 || a[mf - 1])
    ensures s >= 63 ==> x == To(Embed(src, s, mf), a) == src[63 := true]
  {
    var y := To(Embed(src, s, mf), a);
    assert s <= 62 ==> y[s] && x[s] == Branch(src, s, mf, a, s);
    if mf == 0 || a[mf - 1] || s >= 63 {
      assert x == y;
    }
    assert s >= 63 ==> y == src[63 := true];
  }

  // ----- Distances -----

  lemma {:induction false} DiffMoved(a: Host, b: Host, lo: nat, x: Host, y: Host, at: nat, n: nat)
    requires lo + n <= 64 && at + n <= 64
    requires forall i | at <= i < at + n :: x[i] == a[i - at + lo] && y[i] == b[i - at + lo]
    ensures Diff(x, y, at, at + n) == Diff(a, b, lo, lo + n)
    decreases n
  {
    if n > 0 {
      DiffMoved(a, b, lo, x, y, at, n - 1);
    }
  }

  /** An address of the space (base, m0) whose bits behind position m are all zero. */
  predicate Carries(g: Relabel, base: Host, m: nat, a: Host) {
    g.m0 <= m && Carried(g, m) && Agree(base, a, g.m0) && Shaped(a, m)
  }

  /** A relabelling keeps distances between addresses that are carried over whole. */
  lemma {:induction false} RelabelKeepsDistances(g: Relabel, base: Host, m: nat, a: Host, b: Host)
    requires Carries(g, base, m, a) && Carries(g, base, m, b)
    ensures Dist(To(g, a), To(g, b)) == Dist(a, b)
    ensures To(g, a) == To(g, b) ==> a == b
  {
    var x, y, p, q := To(g, a), To(g, b), g.p, m - g.m0 + g.p;
    assert forall i | 0 <= i < p :: x[i] == y[i];
    assert forall i | q <= i < 64 :: x[i] == y[i];
    assert forall i | p <= i < q :: x[i] == a[i - p + g.m0] && y[i] == b[i - p + g.m0];
    SameDistance(a, b, g.m0, x, y, p, m - g.m0);
  }

  lemma {:induction false} SameDistance(a: Host, b: Host, lo: nat, x: Host, y: Host, at: nat, n: nat)
    requires lo + n <= 64 && at + n <= 64
    requires forall i | at <= i < at + n :: x[i] == a[i - at + lo] && y[i] == b[i - at + lo]
    requires forall i | 0 <= i < 64 && !(lo <= i < lo + n) :: a[i] == b[i]
    requires forall i | 0 <= i < 64 && !(at <= i < at + n) :: x[i] == y[i]
    ensures Dist(x, y) == Dist(a, b)
    ensures x == y ==> a == b
  {
    DiffMoved(a, b, lo, x, y, at, n);
    MiddleDist(a, b, lo, lo + n);
    MiddleDist(x, y, at, at + n);
    DistIsMetric(a, b, a);
    DistIsMetric(x, y, x);
  }

  lemma {:induction false} MiddleDist(a: Host, b: Host, lo: nat, hi: nat)
    requires lo <= hi <= 64
    requires forall i | 0 <= i < lo :: a[i] == b[i]
    requires forall i | hi <= i < 64 :: a[i] == b[i]
    ensures Dist(a, b) == Diff(a, b, lo, hi)
  {
    DiffZero(a, b, 0, lo);
    DiffZero(a, b, hi, 64);
    DiffSplit(a, b, 0, lo, 64);
    DiffSplit(a, b, lo, hi, 64);
  }

  // ----- Detaching and merging back -----

  /** Moving a subtree to the front and then back behind the same prefix restores every address. */
  lemma {:induction false} ThereAndBack(g: Relabel, m0: nat, a: Host)
    requires g.p == m0 <= 63 && g.m0 == 0 && Agree(g.pre, a, m0) && a[63]
    ensures To(g, To(Detach(m0), a)) == a
  {
    var b := To(Detach(m0), a);
    forall i | 0 <= i < 64
      ensures To(g, b)[i] == a[i]
    {
      if m0 <= i < 63 {
        assert b[i - m0] == a[i];
      }
    }
  }

  lemma {:induction false} SpaceThereAndBack(g: Relabel, m0: nat, e: Space)
    requires g.p == m0 <= 63 && g.m0 == 0 && Agree(g.pre, e.addr, m0) && e.addr[63] && m0 <= e.mask
    ensures ToSpace(g, ToSpace(Detach(m0), e)) == e
  {
    ThereAndBack(g, m0, e.addr);
  }

  lemma {:induction false} SpacesThereAndBack(g: Relabel, m0: nat, s: seq<Space>)
    requires g.p == m0 <= 63 && g.m0 == 0
    requires forall e | e in s :: m0 <= e.mask && Agree(g.pre, e.addr, m0) && e.addr[63]
    ensures ToSpaces(g, ToSpaces(Detach(m0), s)) == s
  {
    var r := ToSpaces(Detach(m0), s);
    forall i | 0 <= i < |s|
      ensures ToSpace(g, r[i]) == s[i]
    {
      assert s[i] in s;
      SpaceThereAndBack(g, m0, s[i]);
    }
  }

  /** Bit 63 of a buddy split off above the root's bit. */
  lemma {:induction false} ChildBits(n: Node, e: Space)
    requires NodeOk(n) && Child(n, e) && e.mask <= 63
    ensures e.addr[63]
  {
  }

  lemma {:induction false} RcvdBits(pre: Host, m0: nat, n: Node)
    requires Agree(pre, n.addr, m0) && NodeAbove(m0, n) && NodeOk(n) && forall e | e in n.rcvd :: e.mask <= 63
    ensures forall e | e in n.rcvd :: m0 <= e.mask && Agree(pre, e.addr, m0) && e.addr[63]
  {
    forall e | e in n.rcvd
      ensures m0 <= e.mask && Agree(pre, e.addr, m0) && e.addr[63]
    {
      ChildBits(n, e);
    }
  }

  lemma {:induction false} NodeThereAndBack(g: Relabel, m0: nat, n: Node)
    requires g.p == m0 <= 63 && g.m0 == 0 && Agree(g.pre, n.addr, m0) && n.maskIni <= 63
    requires NodeAbove(m0, n) && NodeOk(n) && forall e | e in n.rcvd :: e.mask <= 63
    ensures ToNode(g, ToNode(Detach(m0), n)) == n
  {
    ThereAndBack(g, m0, n.addr);
    RcvdBits(g.pre, m0, n);
    SpacesThereAndBack(g, m0, n.rcvd);
  }

  /** Every daemon of t gets its labels back. */
  predicate RoundTrip(g: Relabel, m0: nat, t: Net)
    requires Above(m0, t) && g.m0 == 0
  {
    && ToNode(g, ToNode(Detach(m0), t.val.node)) == t.val.node
    && forall k | k in t.kids :: RoundTrip(g, m0, k)
  }

  lemma {:induction false} SubtreeThereAndBack(g: Relabel, m0: nat, t: Net)
    requires g.p == m0 <= 63 && g.m0 == 0 && Agree(g.pre, t.val.node.addr, m0)
    requires Above(m0, t) && Ok(t) && Shallow(t)
    ensures RoundTrip(g, m0, t)
  {
    NodeThereAndBack(g, m0, t.val.node);
    forall k | k in t.kids
      ensures RoundTrip(g, m0, k)
    {
      SubtreeThereAndBack(g, m0, k);
    }
  }

  /** A child subtree that detaches and is then merged back under the same parent, which proposes the mask
      just above the child's, gets back all its addresses, masks and recovered entries. */
  lemma {:induction false} FragmentThenMergeRestores(parent: Node, t: Net)
    requires NodeOk(parent) && Child(parent, Init(t.val.node)) && Ok(t) && Shallow(t)
    ensures var m0 := t.val.node.maskIni;
            && 1 <= m0 <= 63
            && Above(m0, t)
            && RoundTrip(Embed(parent.addr, m0 - 1, 0), m0, t)
  {
    var m0 := t.val.node.maskIni;
    OkAbove(m0, t);
    SubtreeThereAndBack(Embed(parent.addr, m0 - 1, 0), m0, t);
  }
}
