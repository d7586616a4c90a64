/** Moving the addresses of a subtree: to the front when it detaches (fragmentacion.c) and below a node of
    another network when it is merged (mezcla.c). */
module Relabelling {
  import opened Hypercube
  import opened Allocation
  import opened AllocationRun
  import opened AddressWords

  /** The bits from m0 on move to position p, behind the first p bits of pre; the root's bit stays. */
  datatype Relabel = Relabel(pre: Host, p: nat, m0: nat)

  function To(g: Relabel, h: Host): (r: Host)
    ensures forall i | 0 <= i < 64 ::
              r[i] == (i == 63 || if i < g.p then g.pre[i] else i - g.p + g.m0 < 63 && h[i - g.p + g.m0])
  {
    seq(64, i requires 0 <= i < 64 =>
      i == 63 || if i < g.p then g.pre[i] else i - g.p + g.m0 < 63 && h[i - g.p + g.m0])
  }

  /** The relabelling of fragmentacion and process_far. */
  function Detach(m0: nat): Relabel {
    Relabel(Zeros(64), 0, m0)
  }

  lemma {:induction false} RootBits(i: nat)
    requires i < 64
    ensures ROOT[i] == (i == 63)
  {
  }

  /** The shift routine, which strips the root's bit before shifting and sets it again after, moves the
      host part up and leaves the root's bit in place. */
  lemma {:induction false} ShiftDetaches(k: nat, h: Host)
    ensures Shifted(true, k, ROOT, h) == To(Detach(k), h)
  {
    forall i | 0 <= i < 64
      ensures Shifted(true, k, ROOT, h)[i] == To(Detach(k), h)[i]
    {
      RootBits(i);
      if i + k < 64 {
        RootBits(i + k);
      }
    }
  }

  function ToSpace(g: Relabel, e: Space): Space
    requires g.m0 <= e.mask
  {
    Space(To(g, e.addr), e.mask - g.m0 + g.p)
  }

  function ToSpaces(g: Relabel, s: seq<Space>): (r: seq<Space>)
    requires forall e | e in s :: g.m0 <= e.mask
    ensures |r| == |s| && forall i | 0 <= i < |s| :: r[i] == ToSpace(g, s[i])
  {
    if s == [] then [] else [ToSpace(g, s[0])] + ToSpaces(g, s[1..])
  }

  function ToLimbo(g: Relabel, s: seq<Limbo>): (r: seq<Limbo>)
    requires forall l | l in s :: g.m0 <= l.space.mask
    ensures |r| == |s| && forall i | 0 <= i < |s| :: r[i] == s[i].(space := ToSpace(g, s[i].space))
  {
    if s == [] then [] else [s[0].(space := ToSpace(g, s[0].space))] + ToLimbo(g, s[1..])
  }

  /** What the arithmetic on unsigned char masks needs: every mask is at least the shift. */
  predicate NodeAbove(m0: nat, n: Node) {
    m0 <= n.maskIni <= n.mask && forall e | e in n.rcvd :: m0 <= e.mask
  }

  /** The new labels of a daemon. rcvd_offered is not part of them. */
  function ToNode(g: Relabel, n: Node): Node
    requires NodeAbove(g.m0, n)
  {
    n.(addr := To(g, n.addr), mask := n.mask - g.m0 + g.p, maskIni := n.maskIni - g.m0 + g.p,
       rcvd := ToSpaces(g, n.rcvd))
  }

  predicate Above(m0: nat, t: Net) {
    && NodeAbove(m0, t.val.node)
    && (forall l | l in t.val.limbo :: m0 <= l.space.mask)
    && forall k | k in t.kids :: Above(m0, k)
  }

  function ToCell(g: Relabel, c: Cell): Cell
    requires NodeAbove(g.m0, c.node) && forall l | l in c.limbo :: g.m0 <= l.space.mask
  {
    Cell(ToNode(g, c.node), ToLimbo(g, c.limbo), [], Unlinked())
  }

  function ToNet(g: Relabel, t: Net): Net
    requires Above(g.m0, t)
  {
    Tree(ToCell(g, t.val), ToNets(g, t.kids))
  }

  function ToNets(g: Relabel, ts: seq<Net>): (r: seq<Net>)
    requires forall k | k in ts :: Above(g.m0, k)
    ensures |r| == |ts| && forall i | 0 <= i < |ts| :: r[i] == ToNet(g, ts[i])
  {
    if ts == [] then [] else [ToNet(g, ts[0])] + ToNets(g, ts[1..])
  }

  // ----- The space (base, m0) becomes the space (pre, p) -----

  /** The mask touches the root's bit neither before nor after. */
  predicate Carried(g: Relabel, mask: nat) {
    mask <= 63 && mask + g.p <= 63 + g.m0
  }

  /** e lies in the space (base, m0) and is carried over whole. */
  predicate Inside(g: Relabel, base: Host, e: Space) {
    g.m0 <= e.mask && Carried(g, e.mask) && Agree(base, e.addr, g.m0)
  }

  /** The old address that the new address h stands for. */
  function Lift(g: Relabel, base: Host, h: Host): (r: Host)
    ensures forall j | 0 <= j < 64 ::
              r[j] == if j < g.m0 then base[j] else j - g.m0 + g.p < 64 && h[j - g.m0 + g.p]
  {
    seq(64, j requires 0 <= j < 64 => if j < g.m0 then base[j] else j - g.m0 + g.p < 64 && h[j - g.m0 + g.p])
  }

  lemma {:induction false} ToCovers(g: Relabel, base: Host, e: Space, h: Host)
    requires Inside(g, base, e)
    ensures Covers(ToSpace(g, e), h) <==> Agree(g.pre, h, g.p) && Covers(e, Lift(g, base, h))
  {
    var f, x := ToSpace(g, e), Lift(g, base, h);
    forall j | g.m0 <= j < e.mask
      ensures f.addr[j - g.m0 + g.p] == e.addr[j] && x[j] == h[j - g.m0 + g.p]
    {
    }
    if Covers(f, h) {
      forall j | 0 <= j < 64 && j < e.mask
        ensures e.addr[j] == x[j]
      {
        if j >= g.m0 {
          assert f.addr[j - g.m0 + g.p] == h[j - g.m0 + g.p];
        }
      }
      forall i | 0 <= i < 64 && i < g.p
        ensures g.pre[i] == h[i]
      {
        assert f.addr[i] == h[i];
      }
    }
    if Agree(g.pre, h, g.p) && Covers(e, x) {
      forall i | 0 <= i < 64 && i < f.mask
        ensures f.addr[i] == h[i]
      {
        if i >= g.p {
          assert e.addr[i - g.p + g.m0] == x[i - g.p + g.m0];
        }
      }
    }
  }

  function Back(g: Relabel, base: Host, v: Measure): Measure {
    match v
    case At(h) => At(Lift(g, base, h))
    case Volume => Volume
  }

  /** New values times New equal old values times Old. */
  function New(g: Relabel, v: Measure): (r: nat)
    ensures r >= 1
  {
    match v
    case At(_) => 1
    case Volume => Pow2(g.p)
  }

  function Old(g: Relabel, v: Measure): nat {
    match v
    case At(h) => if Agree(g.pre, h, g.p) then 1 else 0
    case Volume => Pow2(g.m0)
  }

  lemma {:induction false} Pow2Sum(i: nat, j: nat)
    ensures Pow2(i + j) == Pow2(i) * Pow2(j)
    decreases i
  {
    if i > 0 {
      Pow2Sum(i - 1, j);
      assert 2 * (Pow2(i - 1) * Pow2(j)) == (2 * Pow2(i - 1)) * Pow2(j);
    }
  }

  lemma {:induction false} ToVolume(g: Relabel, e: Space)
    requires g.m0 <= e.mask <= 64 && e.mask - g.m0 + g.p <= 64
    ensures Pow2(g.p) * Value(Volume, ToSpace(g, e)) == Pow2(g.m0) * Value(Volume, e)
  {
    var m := e.mask - g.m0 + g.p;
    Pow2Sum(g.p, 64 - m);
    Pow2Sum(g.m0, 64 - e.mask);
    assert g.p + (64 - m) == g.m0 + (64 - e.mask);
  }

  lemma {:induction false} ToValue(g: Relabel, base: Host, v: Measure, e: Space)
    requires Inside(g, base, e)
    ensures New(g, v) * Value(v, ToSpace(g, e)) == Old(g, v) * Value(Back(g, base, v), e)
  {
    match v
    case At(h) => ToCovers(g, base, e, h);
    case Volume => ToVolume(g, e);
  }

  lemma {:induction false} ToSum(g: Relabel, base: Host, v: Measure, s: seq<Space>)
    requires forall e | e in s :: g.m0 <= e.mask && Inside(g, base, e)
    ensures New(g, v) * Sum(v, ToSpaces(g, s)) == Old(g, v) * Sum(Back(g, base, v), s)
  {
    if s != [] {
      assert s[0] in s;
      ToValue(g, base, v, s[0]);
      ToSum(g, base, v, s[1..]);
      assert ToSpaces(g, s)[1..] == ToSpaces(g, s[1..]);
      AddScaled(New(g, v), Value(v, ToSpace(g, s[0])), Sum(v, ToSpaces(g, s[1..])), Sum(v, ToSpaces(g, s)),
                Old(g, v), Value(Back(g, base, v), s[0]), Sum(Back(g, base, v), s[1..]), Sum(Back(g, base, v), s));
    }
  }

  lemma {:induction false} AddScaled(f: nat, x: nat, y: nat, z: nat, f': nat, x': nat, y': nat, z': nat)
    requires f * x == f' * x' && f * y == f' * y' && z == x + y && z' == x' + y'
    ensures f * z == f' * z'
  {
    Distribute(f, x, y);
    Distribute(f', x', y');
  }

  lemma {:induction false} Distribute(f: nat, x: nat, y: nat)
    ensures f * (x + y) == f * x + f * y
  {
  }

  // ----- Exactly when nothing is lost or doubled -----

  /** s splits the space e without gap or overlap. */
  ghost predicate Partitions(s: seq<Space>, e: Space) {
    forall h :: Sum(At(h), s) == Value(At(h), e)
  }

  lemma {:induction false} PartsInside(base: Host, m0: nat, s: seq<Space>)
    requires Partitions(s, Space(base, m0))
    requires forall e | e in s :: m0 <= e.mask <= 64
    ensures forall e | e in s :: Agree(base, e.addr, m0)
  {
    forall e | e in s
      ensures Agree(base, e.addr, m0)
    {
      var i :| 0 <= i < |s| && s[i] == e;
      SumMember(At(e.addr), s, i);
      assert Covers(e, e.addr);
      assert Sum(At(e.addr), s) == Value(At(e.addr), Space(base, m0));
    }
  }

  /** Two claims of one address leave no partition. */
  lemma {:induction false} TwiceCovered(s: seq<Space>, e: Space, i: nat, j: nat, h: Host)
    requires i < |s| && j < |s| && i != j
    requires Covers(s[i], h) && Covers(s[j], h)
    ensures !Partitions(s, e)
  {
    SumTwo(At(h), s, if i < j then i else j, if i < j then j else i);
    assert Sum(At(h), s) > Value(At(h), e);
  }

  lemma {:induction false} Coverer(s: seq<Space>, h: Host) returns (j: nat)
    requires Sum(At(h), s) > 0
    ensures j < |s| && Covers(s[j], h)
  {
    if Covers(s[0], h) {
      j := 0;
    } else {
      j := Coverer(s[1..], h);
      j := j + 1;
    }
  }

  lemma {:induction false} Deepest(s: seq<Space>) returns (i: nat)
    requires s != []
    ensures i < |s| && forall e | e in s :: e.mask <= s[i].mask
  {
    if |s| == 1 {
      i := 0;
    } else {
      i := Deepest(s[1..]);
      i := if s[0].mask > s[1..][i].mask then 0 else i + 1;
    }
  }

  /** In a partition, a deepest entry below the top has its buddy beside it. */
  lemma {:induction false} DeepestHasTwin(base: Host, m0: nat, s: seq<Space>, i: nat) returns (j: nat)
    requires Partitions(s, Space(base, m0)) && i < |s| && m0 < s[i].mask
    requires forall e | e in s :: m0 <= e.mask <= 64
    requires forall e | e in s :: e.mask <= s[i].mask
    ensures j < |s| && j != i && s[j].mask == s[i].mask
    ensures Agree(Flip(s[i].addr, s[i].mask - 1), s[j].addr, s[i].mask)
  {
    assert s[i] in s;
    var a, b, m := s[i].addr, Flip(s[i].addr, s[i].mask - 1), s[i].mask;
    PartsInside(base, m0, s);
    assert Covers(Space(base, m0), b);
    assert Sum(At(b), s) == Value(At(b), Space(base, m0));
    assert a[m - 1] != b[m - 1];
    assert !Covers(s[i], b);
    j := Coverer(s, b);
    if s[j].mask < m {
      assert Covers(s[j], a) && Covers(s[i], a);
      TwiceCovered(s, Space(base, m0), i, j, a);
    }
    assert s[j] in s;
  }

  /** Buddies whose distinguishing bit is not carried over become the same space. */
  lemma {:induction false} TwinsMerge(g: Relabel, a: Host, b: Host, m: nat)
    requires g.m0 < m <= 64 && !Carried(g, m) && Agree(Flip(a, m - 1), b, m)
    ensures To(g, a) == To(g, b)
  {
    forall i | 0 <= i < 64
      ensures To(g, a)[i] == To(g, b)[i]
    {
      if g.p <= i < 63 && i - g.p + g.m0 < 63 {
        var j := i - g.p + g.m0;
        assert j < m - 1;
        assert Flip(a, m - 1)[j] == a[j];
      }
    }
  }

  /** Relabelling a partition of (base, m0) gives a partition of (pre, p) exactly when every entry is
      carried over whole, or the only entry is (base, m0) itself. */
  lemma {:induction false} RelabelPartitionsExactly(g: Relabel, base: Host, s: seq<Space>)
    requires g.m0 <= 64 && g.p <= 63 && Partitions(s, Space(base, g.m0))
    requires forall e | e in s :: g.m0 <= e.mask <= 64
    ensures Partitions(ToSpaces(g, s), Space(g.pre, g.p)) <==>
            forall e | e in s :: e.mask == g.m0 || Carried(g, e.mask)
  {
    PartsInside(base, g.m0, s);
    if e :| e in s && e.mask != g.m0 && !Carried(g, e.mask) {
      var i := Deepest(s);
      assert s[i] in s;
      var j := DeepestHasTwin(base, g.m0, s, i);
      TwinsMerge(g, s[i].addr, s[j].addr, s[i].mask);
      var r := ToSpaces(g, s);
      assert r[i] == ToSpace(g, s[i]) && r[j] == ToSpace(g, s[j]);
      TwiceCovered(r, Space(g.pre, g.p), i, j, r[i].addr);
    } else if e :| e in s && e.mask == g.m0 {
      RelabelSingle(g, base, s);
    } else {
      RelabelKeepsPartition(g, base, s);
    }
  }

  lemma {:induction false} RelabelledOnce(g: Relabel, base: Host, s: seq<Space>, h: Host)
    requires forall e | e in s :: g.m0 <= e.mask && Inside(g, base, e)
    requires var x := At(Lift(g, base, h)); Sum(x, s) == Value(x, Space(base, g.m0))
    ensures Sum(At(h), ToSpaces(g, s)) == Value(At(h), Space(g.pre, g.p))
  {
    ToSumAt(g, base, s, h);
    assert Covers(Space(base, g.m0), Lift(g, base, h));
  }

  lemma {:induction false} ToSumAt(g: Relabel, base: Host, s: seq<Space>, h: Host)
    requires forall e | e in s :: g.m0 <= e.mask && Inside(g, base, e)
    ensures Sum(At(h), ToSpaces(g, s)) == if Agree(g.pre, h, g.p) then Sum(At(Lift(g, base, h)), s) else 0
  {
    ToSum(g, base, At(h), s);
    Scaled(Sum(At(h), ToSpaces(g, s)), if Agree(g.pre, h, g.p) then 1 else 0, Sum(Back(g, base, At(h)), s));
  }

  lemma {:induction false} Scaled(x: nat, f: nat, y: nat)
    requires f <= 1 && 1 * x == f * y
    ensures x == if f == 1 then y else 0
  {
  }

  lemma {:induction false} RelabelKeepsPartition(g: Relabel, base: Host, s: seq<Space>)
    requires Partitions(s, Space(base, g.m0))
    requires forall e | e in s :: g.m0 <= e.mask && Inside(g, base, e)
    ensures Partitions(ToSpaces(g, s), Space(g.pre, g.p))
  {
    forall h
      ensures Sum(At(h), ToSpaces(g, s)) == Value(At(h), Space(g.pre, g.p))
    {
      assert Sum(At(Lift(g, base, h)), s) == Value(At(Lift(g, base, h)), Space(base, g.m0));
      RelabelledOnce(g, base, s, h);
    }
  }

  /** A space held by one daemon alone is relabelled as a whole. */
  lemma {:induction false} RelabelSingle(g: Relabel, base: Host, s: seq<Space>)
    requires g.p <= 63 && Partitions(s, Space(base, g.m0))
    requires forall e | e in s :: g.m0 <= e.mask && Agree(base, e.addr, g.m0)
    requires exists e | e in s :: e.mask == g.m0
    ensures Partitions(ToSpaces(g, s), Space(g.pre, g.p))
  {
    var i :| 0 <= i < |s| && s[i].mask == g.m0;
    if |s| > 1 {
      var j := if i == 0 then 1 else 0;
      assert s[j] in s && s[i] in s;
      TwiceCovered(s, Space(base, g.m0), i, j, s[j].addr);
    }
    var r := ToSpaces(g, s);
    assert |r| == 1 && r[0] == ToSpace(g, s[0]) && r[1..] == [];
    forall h
      ensures Sum(At(h), r) == Value(At(h), Space(g.pre, g.p))
    {
      assert Covers(r[0], h) <==> Agree(g.pre, h, g.p);
    }
  }
}
