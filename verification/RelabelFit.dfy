/** Exactly when a relabelled subtree keeps its ledgers: when no space of it reaches the root's bit, before or
    after. */
module RelabelFit {
  import opened Wrappers
  import opened Hypercube
  import opened Allocation
  import opened AllocationRun
  import opened Relabelling
  import opened RelabelledTree

  /** Everything that the cell accounts for, apart from its own space, is a buddy of its daemon. */
  predicate BuddiesOk(c: Cell, kids: seq<Net>) {
    && (forall e | e in c.node.rcvd :: Child(c.node, e))
    && (forall l | l in c.limbo :: Child(c.node, l.space))
    && (forall k | k in kids :: Child(c.node, Init(k.val.node)))
  }

  predicate Buddied(t: Net) {
    BuddiesOk(t.val, t.kids) && forall k | k in t.kids :: Buddied(k)
  }

  lemma {:induction false} OkBuddied(t: Net)
    requires Ok(t)
    ensures Buddied(t)
  {
    forall k | k in t.kids
      ensures Buddied(k)
    {
      OkBuddied(k);
    }
  }

  /** The root's bit of an address has no part in the relabelling. */
  lemma {:induction false} RootBitIgnored(g: Relabel, a: Host)
    ensures To(g, Flip(a, 63)) == To(g, a)
  {
    var x, y := To(g, Flip(a, 63)), To(g, a);
    forall i | 0 <= i < 64
      ensures x[i] == y[i]
    {
    }
  }

  /** A buddy that is not carried over whole is no buddy any more. */
  lemma {:induction false} NotCarriedNotChild(g: Relabel, n: Node, e: Space)
    requires NodeAbove(g.m0, n) && Child(n, e) && g.m0 <= e.mask && !Carried(g, e.mask)
    ensures !Child(ToNode(g, n), ToSpace(g, e))
  {
    var x, f := ToNode(g, n), ToSpace(g, e);
    if f.mask <= 64 {
      RootBitIgnored(g, n.addr);
      var i := if f.mask >= 1 then f.mask - 1 else 0;
      assert Flip(x.addr, i)[i] != x.addr[i];
    }
  }

  lemma {:induction false} BuddyMask(n: Node, e: Space)
    requires n.maskIni < n.mask <= 64 && Child(n, e) && Covers(e, Flip(n.addr, n.mask - 1))
    ensures e.mask == n.mask
  {
    var b := Flip(n.addr, n.mask - 1);
    assert e.addr[e.mask - 1] == b[e.mask - 1];
  }

  /** A daemon that has split its space still accounts for the last buddy split off. */
  lemma {:induction false} LastBuddy(c: Cell, kids: seq<Net>) returns (e: Space)
    requires LocalOk(c, kids) && c.node.sec == None && c.node.maskIni < c.node.mask
    requires Ledger(At(Flip(c.node.addr, c.node.mask - 1)), c, kids)
    ensures e.mask == c.node.mask
    ensures e in c.node.rcvd || e in Spaces(c.limbo) || e in Inits(kids)
  {
    var n := c.node;
    var b := Flip(n.addr, n.mask - 1);
    assert b[n.mask - 1] != n.addr[n.mask - 1];
    assert !Covers(Own(n), b) && Covers(Init(n), b);
    SumPositive(n.rcvd, b);
    SumPositive(Spaces(c.limbo), b);
    SumPositive(Inits(kids), b);
    assert Sum(At(b), n.rcvd) + Sum(At(b), Spaces(c.limbo)) + Sum(At(b), Inits(kids)) == 1;
    var s := if Sum(At(b), n.rcvd) > 0 then n.rcvd else if Sum(At(b), Spaces(c.limbo)) > 0 then Spaces(c.limbo) else Inits(kids);
    e :| e in s && Covers(e, b);
    AllBuddies(c, kids);
    BuddyMask(n, e);
  }

  lemma {:induction false} AllBuddies(c: Cell, kids: seq<Net>)
    requires LocalOk(c, kids)
    ensures forall e | e in c.node.rcvd || e in Spaces(c.limbo) || e in Inits(kids) :: Child(c.node, e)
  {
    forall i | 0 <= i < |c.limbo|
      ensures Child(c.node, Spaces(c.limbo)[i])
    {
      assert c.limbo[i] in c.limbo;
    }
    forall i | 0 <= i < |kids|
      ensures Child(c.node, Inits(kids)[i])
    {
      assert kids[i] in kids;
    }
  }

  /** One buddy of the cell is not carried over whole. */
  lemma {:induction false} BuddyLost(g: Relabel, t: Net, e: Space)
    requires Ok(t) && Above(g.m0, t) && g.m0 <= e.mask && !Carried(g, e.mask)
    requires e in t.val.node.rcvd || e in Spaces(t.val.limbo) || e in Inits(t.kids)
    ensures !BuddiesOk(ToNet(g, t).val, ToNet(g, t).kids)
  {
    var u := ToNet(g, t);
    AllBuddies(t.val, t.kids);
    NotCarriedNotChild(g, t.val.node, e);
    if e in t.val.node.rcvd {
      var i :| 0 <= i < |t.val.node.rcvd| && t.val.node.rcvd[i] == e;
      assert u.val.node.rcvd[i] in u.val.node.rcvd;
    } else if e in Spaces(t.val.limbo) {
      var i :| 0 <= i < |t.val.limbo| && t.val.limbo[i].space == e;
      assert u.val.limbo[i] in u.val.limbo;
    } else {
      var i :| 0 <= i < |t.kids| && Inits(t.kids)[i] == e;
      assert u.kids[i] in u.kids && Init(u.kids[i].val.node) == ToSpace(g, e);
    }
  }

  /** What the subtree's spaces say about its cell. */
  lemma {:induction false} UnfitCell(g: Relabel, t: Net) returns (e: Space)
    requires Inv(t) && NoSecondary(t) && Above(g.m0, t) && Carried(g, t.val.node.maskIni) && !CellFits(g, t.val)
    ensures g.m0 <= e.mask && !Carried(g, e.mask)
    ensures e in t.val.node.rcvd || e in Spaces(t.val.limbo) || e in Inits(t.kids)
  {
    var c := t.val;
    if x :| x in c.node.rcvd && !Carried(g, x.mask) {
      e := x;
    } else if l :| l in c.limbo && !Carried(g, l.space.mask) {
      var i :| 0 <= i < |c.limbo| && c.limbo[i] == l;
      e := Spaces(c.limbo)[i];
    } else {
      var b := Flip(c.node.addr, c.node.mask - 1);
      assert Balanced(At(b), t);
      e := LastBuddy(c, t.kids);
    }
  }

  /** A subtree that is not carried over whole does not become a network. */
  lemma {:induction false} UnfitNotBuddied(g: Relabel, t: Net)
    requires Inv(t) && NoSecondary(t) && Above(g.m0, t) && Carried(g, t.val.node.maskIni) && !Fits(g, t)
    ensures !Buddied(ToNet(g, t))
  {
    if !CellFits(g, t.val) {
      var e := UnfitCell(g, t);
      BuddyLost(g, t, e);
    } else {
      var i := UnfitKid(g, t);
      var k := t.kids[i];
      KidInv(t, k);
      if Carried(g, k.val.node.maskIni) {
        UnfitNotBuddied(g, k);
        assert ToNet(g, t).kids[i] in ToNet(g, t).kids;
      } else {
        assert Inits(t.kids)[i] == Init(k.val.node);
        BuddyLost(g, t, Init(k.val.node));
      }
    }
  }

  lemma {:induction false} UnfitKid(g: Relabel, t: Net) returns (i: nat)
    requires CellFits(g, t.val) && !Fits(g, t)
    ensures i < |t.kids| && t.kids[i] in t.kids && !Fits(g, t.kids[i])
  {
    var k :| k in t.kids && !Fits(g, k);
    i :| 0 <= i < |t.kids| && t.kids[i] == k;
  }

  /** A subtree keeps all its ledgers if and only if it is carried over whole. */
  lemma {:induction false} RelabelInvExact(g: Relabel, t: Net)
    requires Inv(t) && NoSecondary(t) && g.m0 == t.val.node.maskIni <= 63 && g.p <= 63
    ensures Above(g.m0, t)
    ensures Inv(ToNet(g, t)) <==> Fits(g, t)
  {
    OkAbove(g.m0, t);
    if Fits(g, t) {
      RelabelKeepsInv(g, t);
    } else {
      UnfitNotBuddied(g, t);
      if Ok(ToNet(g, t)) {
        OkBuddied(ToNet(g, t));
      }
    }
  }
}
