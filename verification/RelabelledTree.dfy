/** What a relabelling does to a whole subtree: the ledgers of every daemon survive. */
module RelabelledTree {
  import opened Wrappers
  import opened Hypercube
  import opened Allocation
  import opened AllocationRun
  import opened AllocationResults
  import opened Relabelling

  /** No secondary space, and every mask is carried over whole. */
  predicate CellFits(g: Relabel, c: Cell) {
    && c.node.sec == None
    && Carried(g, c.node.mask)
    && (forall e | e in c.node.rcvd :: Carried(g, e.mask))
    && forall l | l in c.limbo :: Carried(g, l.space.mask)
  }

  predicate Fits(g: Relabel, t: Net) {
    CellFits(g, t.val) && forall k | k in t.kids :: Fits(g, k)
  }

  /** Masks only grow down the tree, so the unsigned subtraction never wraps. */
  lemma {:induction false} OkAbove(m0: nat, t: Net)
    requires Ok(t) && m0 <= t.val.node.maskIni
    ensures Above(m0, t)
  {
    forall k | k in t.kids
      ensures Above(m0, k)
    {
      OkAbove(m0, k);
    }
  }

  lemma {:induction false} ToFlip(g: Relabel, a: Host, k: nat)
    requires g.m0 <= k < 63 && k + g.p < 63 + g.m0
    ensures To(g, Flip(a, k)) == Flip(To(g, a), k - g.m0 + g.p)
  {
    var x, y := To(g, Flip(a, k)), Flip(To(g, a), k - g.m0 + g.p);
    forall i | 0 <= i < 64
      ensures x[i] == y[i]
    {
    }
  }

  /** Buddies stay buddies. */
  lemma {:induction false} ToChild(g: Relabel, n: Node, e: Space)
    requires NodeAbove(g.m0, n) && Child(n, e) && Carried(g, e.mask)
    ensures Child(ToNode(g, n), ToSpace(g, e))
  {
    ToFlip(g, n.addr, e.mask - 1);
  }

  lemma {:induction false} ToChildren(g: Relabel, n: Node, s: seq<Space>)
    requires NodeAbove(g.m0, n) && forall e | e in s :: Child(n, e) && Carried(g, e.mask)
    ensures forall e | e in s :: g.m0 <= e.mask
    ensures forall f | f in ToSpaces(g, s) :: Child(ToNode(g, n), f)
  {
    forall i | 0 <= i < |s|
      ensures g.m0 <= s[i].mask && Child(ToNode(g, n), ToSpace(g, s[i]))
    {
      assert s[i] in s;
      ToChild(g, n, s[i]);
    }
  }

  lemma {:induction false} ToShaped(g: Relabel, a: Host, m: nat)
    requires g.m0 <= m && Shaped(a, m)
    ensures Shaped(To(g, a), m - g.m0 + g.p)
  {
  }

  lemma {:induction false} ToNodeOk(g: Relabel, n: Node)
    requires NodeAbove(g.m0, n) && NodeOk(n) && n.sec == None && Carried(g, n.mask)
    requires forall e | e in n.rcvd :: Carried(g, e.mask)
    ensures NodeOk(ToNode(g, n))
  {
    ToChildren(g, n, n.rcvd);
    ToShaped(g, n.addr, n.maskIni);
  }

  /** Limbo spaces are buddies of their daemon and stay clear of the root's bit. */
  lemma {:induction false} LimboChildren(g: Relabel, c: Cell, kids: seq<Net>)
    requires LocalOk(c, kids) && CellFits(g, c)
    ensures forall e | e in Spaces(c.limbo) :: Child(c.node, e) && Carried(g, e.mask)
  {
    forall e | e in Spaces(c.limbo)
      ensures Child(c.node, e) && Carried(g, e.mask)
    {
      var i :| 0 <= i < |c.limbo| && Spaces(c.limbo)[i] == e;
      assert c.limbo[i] in c.limbo;
    }
  }

  lemma {:induction false} KidsChildren(g: Relabel, t: Net)
    requires Ok(t) && Fits(g, t)
    ensures forall e | e in Inits(t.kids) :: Child(t.val.node, e) && Carried(g, e.mask)
  {
    forall e | e in Inits(t.kids)
      ensures Child(t.val.node, e) && Carried(g, e.mask)
    {
      var i :| 0 <= i < |t.kids| && Inits(t.kids)[i] == e;
      assert t.kids[i] in t.kids;
    }
  }

  lemma {:induction false} ToLimboSpaces(g: Relabel, s: seq<Limbo>)
    requires forall l | l in s :: g.m0 <= l.space.mask
    ensures forall e | e in Spaces(s) :: g.m0 <= e.mask
    ensures Spaces(ToLimbo(g, s)) == ToSpaces(g, Spaces(s))
  {
    forall i | 0 <= i < |s|
      ensures g.m0 <= Spaces(s)[i].mask
    {
      assert s[i] in s;
    }
  }

  lemma {:induction false} ToInits(g: Relabel, ts: seq<Net>)
    requires forall t | t in ts :: Above(g.m0, t)
    ensures forall e | e in Inits(ts) :: g.m0 <= e.mask
    ensures Inits(ToNets(g, ts)) == ToSpaces(g, Inits(ts))
  {
    forall i | 0 <= i < |ts|
      ensures g.m0 <= Inits(ts)[i].mask
      ensures Inits(ToNets(g, ts))[i] == ToSpace(g, Inits(ts)[i])
    {
      assert ts[i] in ts;
    }
  }

  lemma {:induction false} ToLocalOk(g: Relabel, t: Net)
    requires Above(g.m0, t) && Ok(t) && Fits(g, t)
    ensures LocalOk(ToNet(g, t).val, ToNet(g, t).kids)
  {
    var l, ks := ToLimbo(g, t.val.limbo), ToNets(g, t.kids);
    ToNodeOk(g, t.val.node);
    LimboChildren(g, t.val, t.kids);
    KidsChildren(g, t);
    ToChildren(g, t.val.node, Spaces(t.val.limbo));
    ToChildren(g, t.val.node, Inits(t.kids));
    ToLimboSpaces(g, t.val.limbo);
    ToInits(g, t.kids);
    forall i | 0 <= i < |l| ensures Child(ToNode(g, t.val.node), l[i].space) {
      assert Spaces(l)[i] in Spaces(l);
    }
    forall i | 0 <= i < |ks| ensures Child(ToNode(g, t.val.node), Init(ks[i].val.node)) {
      assert Inits(ks)[i] in Inits(ks);
    }
  }

  lemma {:induction false} ToOk(g: Relabel, t: Net)
    requires Above(g.m0, t) && Ok(t) && Fits(g, t)
    ensures Ok(ToNet(g, t))
  {
    ToLocalOk(g, t);
    var ks := ToNets(g, t.kids);
    forall i | 0 <= i < |ks|
      ensures Ok(ks[i])
    {
      assert t.kids[i] in t.kids;
      ToOk(g, t.kids[i]);
    }
  }

  // ----- The ledgers -----

  lemma {:induction false} ChildInside(g: Relabel, base: Host, n: Node, e: Space)
    requires g.m0 <= n.maskIni && Agree(base, n.addr, g.m0) && Child(n, e) && Carried(g, e.mask)
    ensures Inside(g, base, e)
  {
  }

  lemma {:induction false} ChildrenInside(g: Relabel, base: Host, n: Node, s: seq<Space>)
    requires g.m0 <= n.maskIni && Agree(base, n.addr, g.m0)
    requires forall e | e in s :: Child(n, e) && Carried(g, e.mask)
    ensures forall e | e in s :: g.m0 <= e.mask && Inside(g, base, e)
  {
    forall e | e in s
      ensures g.m0 <= e.mask && Inside(g, base, e)
    {
      ChildInside(g, base, n, e);
    }
  }

  lemma {:induction false} ToLedger(g: Relabel, base: Host, v: Measure, t: Net)
    requires Above(g.m0, t) && Ok(t) && Fits(g, t) && Agree(base, t.val.node.addr, g.m0)
    requires Ledger(Back(g, base, v), t.val, t.kids)
    ensures Ledger(v, ToNet(g, t).val, ToNet(g, t).kids)
  {
    var n := t.val.node;
    var l, i := Spaces(t.val.limbo), Inits(t.kids);
    LimboChildren(g, t.val, t.kids);
    KidsChildren(g, t);
    ChildrenInside(g, base, n, l);
    ChildrenInside(g, base, n, i);
    ToSum(g, base, v, l);
    ToSum(g, base, v, i);
    ToLimboSpaces(g, t.val.limbo);
    ToInits(g, t.kids);
    ToHolds(g, base, v, n);
    ToValue(g, base, v, Init(n));
    var w := Back(g, base, v);
    Scale(New(g, v), Old(g, v), Holds(w, n), Sum(w, l), Sum(w, i), Value(w, Init(n)),
          Holds(v, ToNode(g, n)), Sum(v, ToSpaces(g, l)), Sum(v, ToSpaces(g, i)), Value(v, ToSpace(g, Init(n))));
    LedgerOf(g, v, t);
  }

  /** Four quantities that are scaled alike keep their balance. */
  lemma {:induction false} Scale(f: nat, k: nat, a: nat, b: nat, c: nat, d: nat, a': nat, b': nat, c': nat, d': nat)
    requires f >= 1 && a + b + c == d
    requires f * a' == k * a && f * b' == k * b && f * c' == k * c && f * d' == k * d
    ensures a' + b' + c' == d'
  {
    ThreeTimes(k, a, b, c);
    ThreeTimes(f, a', b', c');
    var s := a' + b' + c';
    if s != d' {
      Larger(f, if s < d' then s else d', if s < d' then d' else s);
    }
  }

  lemma {:induction false} Larger(f: nat, x: nat, y: nat)
    requires f >= 1 && x < y
    ensures f * x < f * y
  {
    assert f * y == f * x + f * (y - x);
  }

  /** The relabelled ledger, put together from its four parts. */
  lemma {:induction false} ThreeTimes(f: nat, a: nat, b: nat, c: nat)
    ensures f * (a + b + c) == f * a + f * b + f * c
  {
  }

  lemma {:induction false} LedgerOf(g: Relabel, v: Measure, t: Net)
    requires Above(g.m0, t)
    requires Holds(v, ToNode(g, t.val.node)) + Sum(v, Spaces(ToLimbo(g, t.val.limbo))) + Sum(v, Inits(ToNets(g, t.kids)))
             == Value(v, Init(ToNode(g, t.val.node)))
    ensures Ledger(v, ToNet(g, t).val, ToNet(g, t).kids)
  {
  }

  lemma {:induction false} ToHolds(g: Relabel, base: Host, v: Measure, n: Node)
    requires NodeAbove(g.m0, n) && NodeOk(n) && Carried(g, n.mask) && n.sec == None
    requires Agree(base, n.addr, g.m0) && forall e | e in n.rcvd :: Carried(g, e.mask)
    ensures New(g, v) * Holds(v, ToNode(g, n)) == Old(g, v) * Holds(Back(g, base, v), n)
  {
    ChildrenInside(g, base, n, n.rcvd);
    ToValue(g, base, v, Own(n));
    ToSum(g, base, v, n.rcvd);
    var w := Back(g, base, v);
    AddScaled(New(g, v), Value(v, Own(ToNode(g, n))), Sum(v, ToSpaces(g, n.rcvd)), Holds(v, ToNode(g, n)),
              Old(g, v), Value(w, Own(n)), Sum(w, n.rcvd), Holds(w, n));
  }

  lemma {:induction false} ToBalanced(g: Relabel, base: Host, v: Measure, t: Net)
    requires Above(g.m0, t) && Ok(t) && Fits(g, t) && Agree(base, t.val.node.addr, g.m0)
    requires Balanced(Back(g, base, v), t)
    ensures Balanced(v, ToNet(g, t))
  {
    ToLedger(g, base, v, t);
    var ks := ToNets(g, t.kids);
    forall i | 0 <= i < |ks|
      ensures Balanced(v, ks[i])
    {
      assert t.kids[i] in t.kids;
      ChildInside(g, base, t.val.node, Init(t.kids[i].val.node));
      ToBalanced(g, base, v, t.kids[i]);
    }
  }

  /** A subtree that is carried over whole keeps all its ledgers, and its top gets the space (pre, p). */
  lemma {:induction false} RelabelKeepsInv(g: Relabel, t: Net)
    requires Inv(t) && Fits(g, t) && g.m0 == t.val.node.maskIni
    ensures Above(g.m0, t)
    ensures Inv(ToNet(g, t))
    ensures ToNet(g, t).val.node.maskIni == g.p
    ensures forall i | 0 <= i < 64 :: ToNet(g, t).val.node.addr[i] == (i == 63 || (i < g.p && g.pre[i]))
  {
    var a := t.val.node.addr;
    OkAbove(g.m0, t);
    ToOk(g, t);
    forall v
      ensures Balanced(v, ToNet(g, t))
    {
      assert Balanced(Back(g, a, v), t);
      ToBalanced(g, a, v, t);
    }
  }

  // ----- Exactly when the network partitions the hypercube -----

  /** Every space that some daemon of the subtree holds or that is in limbo below one. */
  function Claims(t: Net): seq<Space> {
    CellClaims(t.val) + ClaimsAll(t.kids)
  }

  function CellClaims(c: Cell): seq<Space> {
    [Own(c.node)] + c.node.rcvd + Spaces(c.limbo)
  }

  function ClaimsAll(ts: seq<Net>): seq<Space> {
    if ts == [] then [] else Claims(ts[0]) + ClaimsAll(ts[1..])
  }

  lemma {:induction false} SumClaims(v: Measure, t: Net)
    requires NoSecondary(t)
    ensures Sum(v, Claims(t)) == Live(v, t) + InLimbo(v, t)
  {
    var n := t.val.node;
    SumClaimsAll(v, t.kids);
    SumConcat(v, [Own(n)] + n.rcvd + Spaces(t.val.limbo), ClaimsAll(t.kids));
    SumConcat(v, [Own(n)] + n.rcvd, Spaces(t.val.limbo));
    assert ([Own(n)] + n.rcvd)[1..] == n.rcvd;
  }

  lemma {:induction false} SumClaimsAll(v: Measure, ts: seq<Net>)
    requires forall t | t in ts :: NoSecondary(t)
    ensures Sum(v, ClaimsAll(ts)) == LiveAll(v, ts) + InLimboAll(v, ts)
  {
    if ts != [] {
      assert ts[0] in ts;
      SumClaims(v, ts[0]);
      SumClaimsAll(v, ts[1..]);
      SumConcat(v, Claims(ts[0]), ClaimsAll(ts[1..]));
    }
  }

  lemma {:induction false} ToConcat(g: Relabel, s: seq<Space>, u: seq<Space>)
    requires forall e | e in s + u :: g.m0 <= e.mask
    ensures (forall e | e in s :: g.m0 <= e.mask) && (forall e | e in u :: g.m0 <= e.mask)
    ensures ToSpaces(g, s + u) == ToSpaces(g, s) + ToSpaces(g, u)
  {
    assert forall e | e in s :: e in s + u;
    assert forall e | e in u :: e in s + u;
  }

  lemma {:induction false} ClaimsAbove(m0: nat, t: Net)
    requires Above(m0, t) && Ok(t)
    ensures forall e | e in Claims(t) :: m0 <= e.mask <= 64
  {
    forall e | e in Spaces(t.val.limbo) ensures m0 <= e.mask <= 64 {
      assert exists x | x in t.val.limbo :: x.space == e;
    }
    ClaimsAllAbove(m0, t.kids);
  }

  lemma {:induction false} ClaimsAllAbove(m0: nat, ts: seq<Net>)
    requires forall t | t in ts :: Above(m0, t) && Ok(t)
    ensures forall e | e in ClaimsAll(ts) :: m0 <= e.mask <= 64
  {
    if ts != [] {
      assert ts[0] in ts;
      ClaimsAbove(m0, ts[0]);
      ClaimsAllAbove(m0, ts[1..]);
    }
  }

  lemma {:induction false} CellClaimsTo(g: Relabel, c: Cell)
    requires NodeAbove(g.m0, c.node) && forall l | l in c.limbo :: g.m0 <= l.space.mask
    ensures forall e | e in CellClaims(c) :: g.m0 <= e.mask
    ensures ToSpaces(g, CellClaims(c)) ==
            CellClaims(Cell(ToNode(g, c.node), ToLimbo(g, c.limbo), [], Unlinked()))
  {
    var n, d := c.node, Cell(ToNode(g, c.node), ToLimbo(g, c.limbo), [], Unlinked());
    ToLimboSpaces(g, c.limbo);
    ToParts(g, Own(n), n.rcvd, Spaces(c.limbo));
    assert Own(d.node) == ToSpace(g, Own(n)) && d.node.rcvd == ToSpaces(g, n.rcvd);
  }

  lemma {:induction false} ToParts(g: Relabel, e: Space, s: seq<Space>, u: seq<Space>)
    requires g.m0 <= e.mask && (forall x | x in s :: g.m0 <= x.mask) && (forall x | x in u :: g.m0 <= x.mask)
    ensures forall x | x in [e] + s + u :: g.m0 <= x.mask
    ensures ToSpaces(g, [e] + s + u) == [ToSpace(g, e)] + ToSpaces(g, s) + ToSpaces(g, u)
  {
    assert ([e] + s)[1..] == s;
    ToJoined(g, [e] + s, u);
  }

  lemma {:induction false} ToJoined(g: Relabel, s: seq<Space>, u: seq<Space>)
    requires (forall e | e in s :: g.m0 <= e.mask) && (forall e | e in u :: g.m0 <= e.mask)
    ensures forall e | e in s + u :: g.m0 <= e.mask
    ensures ToSpaces(g, s + u) == ToSpaces(g, s) + ToSpaces(g, u)
  {
    ToConcat(g, s, u);
  }

  /** Relabelling the daemons relabels exactly their claims. */
  lemma {:induction false} ClaimsTo(g: Relabel, t: Net)
    requires Above(g.m0, t) && Ok(t)
    ensures forall e | e in Claims(t) :: g.m0 <= e.mask
    ensures Claims(ToNet(g, t)) == ToSpaces(g, Claims(t))
  {
    CellClaimsTo(g, t.val);
    ClaimsAllTo(g, t.kids);
    ToConcat(g, CellClaims(t.val), ClaimsAll(t.kids));
  }

  lemma {:induction false} ClaimsAllTo(g: Relabel, ts: seq<Net>)
    requires forall t | t in ts :: Above(g.m0, t) && Ok(t)
    ensures forall e | e in ClaimsAll(ts) :: g.m0 <= e.mask
    ensures ClaimsAll(ToNets(g, ts)) == ToSpaces(g, ClaimsAll(ts))
  {
    ClaimsAllAbove(g.m0, ts);
    if ts != [] {
      assert ts[0] in ts;
      ClaimsTo(g, ts[0]);
      ClaimsAllTo(g, ts[1..]);
      ToConcat(g, Claims(ts[0]), ClaimsAll(ts[1..]));
      assert ToNets(g, ts)[1..] == ToNets(g, ts[1..]);
    }
  }

  /** The relabelled claims partition (pre, p) exactly when every claim is carried over whole, or the top
      daemon holds its whole space. */
  lemma {:induction false} RelabelExact(g: Relabel, t: Net)
    requires Inv(t) && NoSecondary(t) && g.m0 == t.val.node.maskIni && g.p <= 63
    ensures Above(g.m0, t)
    ensures Partitions(Claims(ToNet(g, t)), Space(g.pre, g.p)) <==>
            forall e | e in Claims(t) :: e.mask == g.m0 || Carried(g, e.mask)
  {
    var a := t.val.node.addr;
    OkAbove(g.m0, t);
    ClaimsAbove(g.m0, t);
    ClaimsTo(g, t);
    forall h
      ensures Sum(At(h), Claims(t)) == Value(At(h), Space(a, g.m0))
    {
      assert Balanced(At(h), t);
      TotalConserved(At(h), t);
      SumClaims(At(h), t);
    }
    RelabelPartitionsExactly(g, a, Claims(t));
  }

  // ----- Detaching -----

  /** No secondary space anywhere and no mask that reaches the root's bit. */
  predicate Shallow(t: Net) {
    Fits(Detach(0), t)
  }

  lemma {:induction false} ShallowFits(m0: nat, t: Net)
    requires Shallow(t)
    ensures Fits(Detach(m0), t)
  {
    forall k | k in t.kids
      ensures Fits(Detach(m0), k)
    {
      ShallowFits(m0, k);
    }
  }

  /** A detached subtree whose masks leave the root's bit alone becomes a network of its own: all the
      ledgers hold in it, its space is the whole hypercube, and the detached daemon is its root. */
  lemma {:induction false} FragmentKeepsInv(t: Net)
    requires Inv(t) && Shallow(t)
    ensures var g := Detach(t.val.node.maskIni);
            && Above(g.m0, t)
            && Inv(ToNet(g, t))
            && Init(ToNet(g, t).val.node) == Space(ROOT, 0)
  {
    var g := Detach(t.val.node.maskIni);
    ShallowFits(g.m0, t);
    RelabelKeepsInv(g, t);
    var a := ToNet(g, t).val.node.addr;
    forall i | 0 <= i < 64
      ensures a[i] == ROOT[i]
    {
      RootBits(i);
    }
  }
}
