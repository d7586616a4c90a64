/** Exactly when the labels of a merge keep addresses distinct, and what its ledgers say about the receiver. */
module MergeFit {
  import opened Hypercube
  import opened Allocation
  import opened AllocationRun
  import opened AllocationResults
  import opened Relabelling
  import opened RelabelledTree
  import opened RelabelFit
  import opened MergeNode
  import opened MergeTree

  // ----- Ledgers -----

  /** The receiver's further child and its lost list do not mend that. */
  lemma {:induction false} GraftBuddied(r: Net, ups: seq<Up>, lost: bool)
    requires Ok(Graft(r, ups, lost))
    ensures Buddied(r)
  {
    var u := Graft(r, ups, lost);
    OkBuddied(u);
    forall e | e in r.val.node.rcvd
      ensures Child(r.val.node, e)
    {
      var i :| 0 <= i < |r.val.node.rcvd| && r.val.node.rcvd[i] == e;
      if lost {
        assert Lost(r.val.node.rcvd)[i] in u.val.limbo;
      }
    }
    forall l | l in r.val.limbo
      ensures Child(r.val.node, l.space)
    {
      assert l in u.val.limbo;
    }
    forall k | k in r.kids
      ensures Child(r.val.node, Init(k.val.node)) && Buddied(k)
    {
      assert k in u.kids;
    }
  }

  lemma {:induction false} SubtreeOk(t: Net, path: seq<nat>)
    requires Ok(t) && OnPath(t, path)
    ensures Ok(SubtreeAt(t, path))
    decreases path
  {
    if path != [] {
      assert t.kids[path[0]] in t.kids;
      SubtreeOk(t.kids[path[0]], path[1..]);
    }
  }

  // ----- Addresses -----

  /** The daemons below t have addresses of their own after the relabelling. */
  predicate Placed(g: Relabel, t: Net) {
    forall k | k in t.kids :: Carried(g, k.val.node.maskIni) && Placed(g, k)
  }

  lemma {:induction false} FitsPlaced(g: Relabel, t: Net)
    requires Fits(g, t) && Ok(t)
    ensures Placed(g, t)
  {
    forall k | k in t.kids
      ensures Carried(g, k.val.node.maskIni) && Placed(g, k)
    {
      FitsPlaced(g, k);
    }
  }

  lemma {:induction false} KidAddress(t: Net, i: nat, a: Host)
    requires i < |t.kids|
    ensures Addresses(t.kids[i])[a] + (if t.val.node.addr == a then 1 else 0) <= Addresses(t)[a]
  {
    KidAddresses(t.kids, i, a);
  }

  lemma {:induction false} OwnAddress(t: Net)
    ensures Addresses(t)[t.val.node.addr] >= 1
  {
  }

  /** A child whose own bit reaches the root's gets its parent's address. */
  lemma {:induction false} NotCarriedSame(g: Relabel, a: Host, k: nat)
    requires k < 63 && g.m0 <= k && k + g.p >= 63 + g.m0
    ensures To(g, Flip(a, k)) == To(g, a)
  {
    var x, y := To(g, Flip(a, k)), To(g, a);
    forall i | 0 <= i < 64
      ensures x[i] == y[i]
    {
    }
  }

  lemma {:induction false} UnplacedDoubles(g: Relabel, t: Net) returns (a: Host)
    requires Ok(t) && Shallow(t) && Above(g.m0, t) && !Placed(g, t)
    ensures Addresses(ToNet(g, t))[a] >= 2
  {
    var i := UnplacedKid(g, t);
    var u, k := ToNet(g, t), t.kids[i];
    assert u.kids[i] == ToNet(g, k);
    if Carried(g, k.val.node.maskIni) {
      a := UnplacedDoubles(g, k);
      KidAddress(u, i, a);
    } else {
      UncarriedSame(g, t, k);
      a := u.val.node.addr;
      OwnAddress(u.kids[i]);
      KidAddress(u, i, a);
    }
  }

  lemma {:induction false} UnplacedKid(g: Relabel, t: Net) returns (i: nat)
    requires Ok(t) && Shallow(t) && Above(g.m0, t) && !Placed(g, t)
    ensures i < |t.kids| && t.kids[i] in t.kids
    ensures var k := t.kids[i];
            Ok(k) && Shallow(k) && Above(g.m0, k) && !(Carried(g, k.val.node.maskIni) && Placed(g, k))
  {
    var k :| k in t.kids && !(Carried(g, k.val.node.maskIni) && Placed(g, k));
    i :| 0 <= i < |t.kids| && t.kids[i] == k;
  }

  lemma {:induction false} UncarriedSame(g: Relabel, t: Net, k: Net)
    requires Ok(t) && Shallow(t) && Above(g.m0, t) && k in t.kids && !Carried(g, k.val.node.maskIni)
    ensures ToNet(g, k).val.node.addr == ToNet(g, t).val.node.addr
  {
    assert Child(t.val.node, Init(k.val.node)) && Shallow(k) && Ok(k);
    NotCarriedSame(g, t.val.node.addr, k.val.node.maskIni - 1);
  }

  /** A daemon split off at the root's bit, and something put in its place that has its parent's address. */
  lemma {:induction false} ParentTwice(t: Net, path: seq<nat>, u: Net, a: Host)
    requires Ok(t) && OnPath(t, path) && t.val.node.maskIni <= 63
    requires SubtreeAt(t, path).val.node.maskIni == 64 && a == Flip(SubtreeAt(t, path).val.node.addr, 63)
    requires Addresses(u)[a] >= 1
    ensures Addresses(PutAt(t, path, u))[a] >= 2
    decreases path
  {
    var i, rest := path[0], path[1..];
    var k := t.kids[i];
    assert k in t.kids && Child(t.val.node, Init(k.val.node));
    var x := PutAt(k, rest, u);
    var r := t.(kids := t.kids[i := x]);
    assert r.kids[i] == x;
    if k.val.node.maskIni <= 63 {
      ParentTwice(k, rest, u, a);
    } else {
      DeepIsLeaf(k, rest);
      assert t.val.node.addr == a;
    }
    KidAddress(r, i, a);
  }

  lemma {:induction false} KidsDeeper(t: Net)
    requires Ok(t)
    ensures forall i | 0 <= i < |t.kids| :: t.val.node.maskIni < t.kids[i].val.node.maskIni <= 64
  {
    forall i | 0 <= i < |t.kids|
      ensures t.val.node.maskIni < t.kids[i].val.node.maskIni <= 64
    {
      assert t.kids[i] in t.kids;
    }
  }

  /** Nothing is split off below a single address. */
  lemma {:induction false} DeepIsLeaf(k: Net, path: seq<nat>)
    requires Ok(k) && OnPath(k, path) && k.val.node.maskIni >= 64
    ensures path == []
  {
    KidsDeeper(k);
  }

  /** No address twice, and none outside the initial space. */
  ghost predicate Separate(t: Net) {
    forall a :: Addresses(t)[a] <= Value(At(a), Init(t.val.node))
  }

  /** The children's spaces and the daemon's own address do not overlap. */
  ghost predicate Apart(n: Node, inits: seq<Space>) {
    forall a :: (if a == n.addr then 1 else 0) + Sum(At(a), inits) <= Value(At(a), Init(n))
  }

  lemma {:induction false} SeparateKids(kids: seq<Net>, a: Host)
    requires forall k | k in kids :: Separate(k)
    ensures AddressesAll(kids)[a] <= Sum(At(a), Inits(kids))
  {
    if kids != [] {
      assert kids[0] in kids;
      SeparateKids(kids[1..], a);
      assert Inits(kids)[1..] == Inits(kids[1..]);
    }
  }

  lemma {:induction false} SeparateTree(c: Cell, kids: seq<Net>)
    requires Apart(c.node, Inits(kids)) && forall k | k in kids :: Separate(k)
    ensures Separate(Tree(c, kids))
  {
    forall a
      ensures Addresses(Tree(c, kids))[a] <= Value(At(a), Init(c.node))
    {
      SeparateKids(kids, a);
    }
  }

  lemma {:induction false} LedgerApart(c: Cell, kids: seq<Net>)
    requires forall v :: Ledger(v, c, kids)
    ensures Apart(c.node, Inits(kids))
  {
    forall a
      ensures (if a == c.node.addr then 1 else 0) + Sum(At(a), Inits(kids)) <= Value(At(a), Init(c.node))
    {
      assert Ledger(At(a), c, kids);
      assert a == c.node.addr ==> Covers(Own(c.node), a);
    }
  }

  lemma {:induction false} InvSeparate(t: Net)
    requires Inv(t)
    ensures Separate(t)
  {
    InvLedger(t);
    LedgerApart(t.val, t.kids);
    forall k | k in t.kids
      ensures Separate(k)
    {
      KidInv(t, k);
      InvSeparate(k);
    }
    SeparateTree(t.val, t.kids);
  }

  lemma {:induction false} ChildrenAway(n: Node, s: seq<Space>)
    requires forall e | e in s :: Child(n, e)
    ensures Sum(At(n.addr), s) == 0
    ensures forall a | Sum(At(a), s) > 0 :: Covers(Init(n), a)
  {
    SumPositive(s, n.addr);
    forall e | e in s
      ensures !Covers(e, n.addr)
    {
      assert e.addr[e.mask - 1] != n.addr[e.mask - 1];
    }
    forall a | Sum(At(a), s) > 0
      ensures Covers(Init(n), a)
    {
      SumPositive(s, a);
    }
  }

  /** Buddies that overlap nowhere. */
  lemma {:induction false} ChildrenApart(n: Node, s: seq<Space>)
    requires forall e | e in s :: Child(n, e)
    requires forall a :: Sum(At(a), s) <= 1
    ensures Apart(n, s)
  {
    ChildrenAway(n, s);
    forall a
      ensures (if a == n.addr then 1 else 0) + Sum(At(a), s) <= Value(At(a), Init(n))
    {
      assert Covers(Init(n), n.addr);
      assert Sum(At(a), s) <= 1;
    }
  }

  lemma {:induction false} PlacedInits(g: Relabel, t: Net)
    requires Inv(t) && Above(g.m0, t) && Placed(g, t)
    ensures forall e | e in Inits(t.kids) :: Child(t.val.node, e) && Carried(g, e.mask)
  {
    forall i | 0 <= i < |t.kids|
      ensures Child(t.val.node, Inits(t.kids)[i]) && Carried(g, Inits(t.kids)[i].mask)
    {
      assert t.kids[i] in t.kids;
    }
  }

  /** No two children's spaces overlap, nor does one overlap the daemon's own. */
  lemma {:induction false} LedgerBound(v: Measure, c: Cell, kids: seq<Net>)
    requires v.At? && Ledger(v, c, kids)
    ensures Value(v, Own(c.node)) + Sum(v, Inits(kids)) <= 1
  {
  }

  lemma {:induction false} ToOwn(g: Relabel, n: Node, a: Host)
    requires NodeAbove(g.m0, n) && Carried(g, n.mask)
    ensures Value(At(a), Own(ToNode(g, n))) ==
            if Agree(g.pre, a, g.p) then Value(At(Lift(g, n.addr, a)), Own(n)) else 0
  {
    ToCovers(g, n.addr, Own(n), a);
  }

  /** ToSum for one address. */
  lemma {:induction false} ToSumAt(g: Relabel, base: Host, a: Host, s: seq<Space>)
    requires forall e | e in s :: g.m0 <= e.mask && Inside(g, base, e)
    ensures Sum(At(a), ToSpaces(g, s)) == if Agree(g.pre, a, g.p) then Sum(At(Lift(g, base, a)), s) else 0
  {
    if s != [] {
      assert s[0] in s;
      ToCovers(g, base, s[0], a);
      ToSumAt(g, base, a, s[1..]);
      assert ToSpaces(g, s)[1..] == ToSpaces(g, s[1..]);
    }
  }

  lemma {:induction false} ToInitsSum(g: Relabel, t: Net, a: Host)
    requires Inv(t) && Above(g.m0, t) && Placed(g, t)
    ensures Sum(At(a), Inits(ToNet(g, t).kids)) ==
            if Agree(g.pre, a, g.p) then Sum(At(Lift(g, t.val.node.addr, a)), Inits(t.kids)) else 0
  {
    PlacedInits(g, t);
    ChildrenInside(g, t.val.node.addr, t.val.node, Inits(t.kids));
    ToSumAt(g, t.val.node.addr, a, Inits(t.kids));
    ToInits(g, t.kids);
  }

  /** That is still so after the relabelling, if the own space is carried over whole. */
  lemma {:induction false} PlacedSum(g: Relabel, t: Net, a: Host)
    requires Inv(t) && Above(g.m0, t) && Placed(g, t)
    ensures Sum(At(a), Inits(ToNet(g, t).kids)) <= 1
    ensures Carried(g, t.val.node.mask) ==>
              Value(At(a), Own(ToNet(g, t).val.node)) + Sum(At(a), Inits(ToNet(g, t).kids)) <= 1
  {
    var w := At(Lift(g, t.val.node.addr, a));
    assert Ledger(w, t.val, t.kids) by {
      assert Balanced(w, t);
    }
    LedgerBound(w, t.val, t.kids);
    ToInitsSum(g, t, a);
    if Carried(g, t.val.node.mask) {
      ToOwn(g, t.val.node, a);
    }
  }

  lemma {:induction false} PlacedChildren(g: Relabel, t: Net)
    requires Inv(t) && Above(g.m0, t) && Placed(g, t)
    ensures forall e | e in Inits(ToNet(g, t).kids) :: Child(ToNet(g, t).val.node, e)
  {
    PlacedInits(g, t);
    ToChildren(g, t.val.node, Inits(t.kids));
    ToInits(g, t.kids);
  }

  lemma {:induction false} PlacedSeparate(g: Relabel, t: Net)
    requires Inv(t) && Above(g.m0, t) && Placed(g, t)
    ensures Separate(ToNet(g, t))
    decreases t, 1
  {
    var u := ToNet(g, t);
    PlacedChildren(g, t);
    forall a
      ensures Sum(At(a), Inits(u.kids)) <= 1
    {
      PlacedSum(g, t, a);
    }
    ChildrenApart(u.val.node, Inits(u.kids));
    PlacedKids(g, t);
    SeparateTree(u.val, u.kids);
  }

  lemma {:induction false} PlacedKids(g: Relabel, t: Net)
    requires Inv(t) && Above(g.m0, t) && Placed(g, t)
    ensures forall k | k in ToNet(g, t).kids :: Separate(k)
    decreases t, 0
  {
    var u := ToNet(g, t);
    forall i | 0 <= i < |t.kids|
      ensures Separate(u.kids[i])
    {
      assert t.kids[i] in t.kids;
      KidInv(t, t.kids[i]);
      PlacedSeparate(g, t.kids[i]);
    }
  }

  /** The receiver's subtree with its former parent as a further child. */
  lemma {:induction false} GraftSeparate(g: Relabel, t: Net, ups: seq<Up>, lost: bool)
    requires Inv(t) && Shallow(t) && Above(g.m0, t) && Placed(g, t) && |ups| <= 1
    requires ups != [] ==> RoomAll(t.val.node.mask - g.m0 + g.p, ups)
    ensures Separate(Graft(ToNet(g, t), ups, lost))
  {
    var r := ToNet(g, t);
    if ups == [] {
      PlacedSeparate(g, t);
      GraftNothing(r, lost);
    } else {
      var u := Graft(r, ups, lost);
      ToShaped(g, t.val.node.addr, t.val.node.mask);
      GraftApart(g, t, ups);
      PlacedKids(g, t);
      ReallocSeparate(r.val.node.addr, r.val.node.mask, ups);
      SeparateTree(u.val, u.kids);
    }
  }

  lemma {:induction false} GraftNothing(r: Net, lost: bool)
    requires Separate(r)
    ensures Separate(Graft(r, [], lost))
  {
    assert r.kids + [] == r.kids;
    assert Addresses(Graft(r, [], lost)) == Addresses(r);
  }

  lemma {:induction false} ReallocSeparate(addr: Host, k: nat, ups: seq<Up>)
    requires Shaped(addr, k) && RoomAll(k, ups)
    ensures forall i | 0 <= i < |ups| :: Separate(ReallocKids(addr, k, ups)[i])
  {
    forall i | 0 <= i < |ups|
      ensures Separate(ReallocKids(addr, k, ups)[i])
    {
      SetIsFlip(addr, k, k + i);
      ReallocInv(SetBit(addr, k + i), k + i + 1, ups[i]);
      InvSeparate(ReallocKids(addr, k, ups)[i]);
    }
  }

  lemma {:induction false} GraftApart(g: Relabel, t: Net, ups: seq<Up>)
    requires Inv(t) && Shallow(t) && Above(g.m0, t) && Placed(g, t)
    requires RoomAll(t.val.node.mask - g.m0 + g.p, ups) && ups != []
    ensures var n := ToNet(g, t).val.node;
            Shaped(n.addr, n.mask) && Apart(n, Inits(ToNet(g, t).kids + ReallocKids(n.addr, n.mask, ups)))
  {
    var r := ToNet(g, t);
    ToShaped(g, t.val.node.addr, t.val.node.mask);
    PlacedChildren(g, t);
    forall a
      ensures Value(At(a), Own(r.val.node)) + Sum(At(a), Inits(r.kids)) <= 1
    {
      PlacedSum(g, t, a);
    }
    SplitApart(r.val.node, r.kids, ups);
  }

  /** Buddies split off the own space stay apart from the children. */
  lemma {:induction false} SplitApart(n: Node, kids: seq<Net>, ups: seq<Up>)
    requires n.maskIni <= n.mask && Shaped(n.addr, n.mask) && n.mask + |ups| <= 63
    requires forall e | e in Inits(kids) :: Child(n, e)
    requires forall a :: Value(At(a), Own(n)) + Sum(At(a), Inits(kids)) <= 1
    ensures Apart(n, Inits(kids + ReallocKids(n.addr, n.mask, ups)))
  {
    ReallocInits(n.addr, n.mask, ups);
    InitsConcat(kids, ReallocKids(n.addr, n.mask, ups));
    SpacesApart(n, Inits(kids), |ups|);
  }

  lemma {:induction false} SpacesApart(n: Node, s: seq<Space>, k: nat)
    requires n.maskIni <= n.mask && n.mask + k <= 63 && forall e | e in s :: Child(n, e)
    requires forall a :: Value(At(a), Own(n)) + Sum(At(a), s) <= 1
    ensures Apart(n, s + Splits(n.addr, n.mask, n.mask + k))
  {
    var x := Splits(n.addr, n.mask, n.mask + k);
    forall a
      ensures Sum(At(a), s + x) <= 1
    {
      assert Value(At(a), Own(n)) + Sum(At(a), s) <= 1;
      SplitsOnce(n, s, k, a);
    }
    BothChildren(n, s, x);
    ChildrenApart(n, s + x);
  }

  lemma {:induction false} SplitsOnce(n: Node, s: seq<Space>, k: nat, a: Host)
    requires n.mask + k <= 63 && Value(At(a), Own(n)) + Sum(At(a), s) <= 1
    ensures Sum(At(a), s + Splits(n.addr, n.mask, n.mask + k)) <= 1
  {
    SplitsConserve(At(a), n.addr, n.mask, n.mask + k);
    SumConcat(At(a), s, Splits(n.addr, n.mask, n.mask + k));
  }

  lemma {:induction false} BothChildren(n: Node, s: seq<Space>, x: seq<Space>)
    requires n.maskIni <= n.mask && n.mask + |x| <= 64 && x == Splits(n.addr, n.mask, n.mask + |x|)
    requires forall e | e in s :: Child(n, e)
    ensures forall e | e in s + x :: Child(n, e)
  {
  }

  // ----- Inside the proposer's network -----

  lemma {:induction false} HostingSeparate(t: Net, k: Net)
    requires Inv(t) && Separate(k) && Init(k.val.node) == Proposed(t.val.node) && ProposedMask(t.val.node) <= 62
    ensures Separate(Hosting(t, k)) && Init(Hosting(t, k).val.node) == Init(t.val.node)
  {
    var u := Hosting(t, k);
    InvLedger(t);
    HostNodeOk(t.val, t.kids);
    forall v
      ensures Ledger(v, u.val, u.kids)
    {
      HostHoldings(v, t.val, t.kids);
      InitsConcat(t.kids, [k]);
      SumSnoc(v, Inits(t.kids), Init(k.val.node));
      assert Inits([k]) == [Init(k.val.node)] && Ledger(v, t.val, t.kids);
    }
    LedgerApart(u.val, u.kids);
    InvSeparateKids(t);
    SeparateTree(u.val, u.kids);
  }

  lemma {:induction false} InvSeparateKids(t: Net)
    requires Inv(t)
    ensures forall k | k in t.kids :: Separate(k)
  {
    forall k | k in t.kids
      ensures Separate(k)
    {
      KidInv(t, k);
      InvSeparate(k);
    }
  }

  lemma {:induction false} PutSeparate(t: Net, path: seq<nat>, u: Net)
    requires Inv(t) && OnPath(t, path) && Separate(u) && Init(u.val.node) == Init(SubtreeAt(t, path).val.node)
    ensures Separate(PutAt(t, path, u)) && Init(PutAt(t, path, u).val.node) == Init(t.val.node)
    decreases path
  {
    if path != [] {
      var i := path[0];
      KidInv(t, t.kids[i]);
      PutSeparate(t.kids[i], path[1..], u);
      var k := PutAt(t.kids[i], path[1..], u);
      InvLedger(t);
      LedgerApart(t.val, t.kids);
      InvSeparateKids(t);
      assert Inits(t.kids[i := k]) == Inits(t.kids);
      SeparateTree(t.val, t.kids[i := k]);
    }
  }
}
