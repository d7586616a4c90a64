/** The network that a merge is meant to produce: the receiver's subtree embedded below the proposer, and
    everything above the receiver re-allocated by buddy splits. */
module MergeTree {
  import opened Wrappers
  import opened Hypercube
  import opened Allocation
  import opened AllocationRun
  import opened AllocationResults
  import opened Relabelling
  import opened RelabelledTree
  import opened MergeNode

  /** The receiver's old network as seen from the receiver: its parent, the parent's other neighbours
      below it in table order, and so on. */
  type Up = Tree<Node>

  function SetBit(a: Host, i: nat): Host {
    if i < 64 then a[i := true] else a
  }

  lemma {:induction false} BuddySetsBit(src: Host, k: nat)
    requires k >= 1
    ensures BuddyOf(src, k) == SetBit(src, k - 1)
  {
    forall i | 0 <= i < 64
      ensures BuddyOf(src, k)[i] == SetBit(src, k - 1)[i]
    {
    }
  }

  lemma {:induction false} SetIsFlip(a: Host, m: nat, i: nat)
    requires Shaped(a, m) && m <= i < 63
    ensures SetBit(a, i) == Flip(a, i) && Shaped(SetBit(a, i), i + 1)
  {
  }

  /** The new labels above the receiver: the i-th neighbour of a daemon with space (addr, k) gets the buddy
      that splits off at bit k + i. */
  function Realloc(addr: Host, k: nat, u: Up): Net
    decreases u
  {
    Tree(Cell(u.val.(addr := addr, mask := k + |u.kids|, maskIni := k, rcvd := []), [], [], Unlinked()),
         ReallocKids(addr, k, u.kids))
  }

  function ReallocKids(addr: Host, k: nat, us: seq<Up>): (r: seq<Net>)
    ensures |r| == |us|
    ensures forall i | 0 <= i < |us| :: r[i] == Realloc(SetBit(addr, k + i), k + i + 1, us[i])
    decreases us
  {
    if us == [] then [] else [Realloc(SetBit(addr, k), k + 1, us[0])] + ReallocKids(addr, k + 1, us[1..])
  }

  /** No buddy split reaches the root's bit. */
  predicate Room(k: nat, u: Up)
    decreases u
  {
    k + |u.kids| <= 63 && forall i | 0 <= i < |u.kids| :: Room(k + i + 1, u.kids[i])
  }

  /** No mask above the receiver reaches 255, so that the unsigned chars do not wrap around. */
  predicate Narrow(k: nat, u: Up)
    decreases u
  {
    k + |u.kids| <= 254 && forall i | 0 <= i < |u.kids| :: Narrow(k + i + 1, u.kids[i])
  }

  lemma {:induction false} RoomIsNarrow(k: nat, u: Up)
    requires Room(k, u)
    ensures Narrow(k, u)
    decreases u
  {
    forall i | 0 <= i < |u.kids|
      ensures Narrow(k + i + 1, u.kids[i])
    {
      RoomIsNarrow(k + i + 1, u.kids[i]);
    }
  }

  predicate PlainUp(u: Up) {
    u.val.sec == None && forall i | 0 <= i < |u.kids| :: PlainUp(u.kids[i])
  }

  lemma {:induction false} ReallocInits(addr: Host, k: nat, us: seq<Up>)
    requires Shaped(addr, k) && k + |us| <= 63
    ensures Inits(ReallocKids(addr, k, us)) == Splits(addr, k, k + |us|)
  {
    var x, y := Inits(ReallocKids(addr, k, us)), Splits(addr, k, k + |us|);
    forall i | 0 <= i < |us|
      ensures x[i] == y[i]
    {
      SetIsFlip(addr, k, k + i);
    }
  }

  lemma {:induction false} ReallocOk(addr: Host, k: nat, u: Up)
    requires Shaped(addr, k) && Room(k, u) && PlainUp(u)
    ensures Ok(Realloc(addr, k, u))
    decreases u
  {
    var ks := ReallocKids(addr, k, u.kids);
    forall i | 0 <= i < |ks|
      ensures Ok(ks[i]) && Child(Realloc(addr, k, u).val.node, Init(ks[i].val.node))
    {
      SetIsFlip(addr, k, k + i);
      ReallocOk(SetBit(addr, k + i), k + i + 1, u.kids[i]);
    }
  }

  lemma {:induction false} ReallocBalanced(v: Measure, addr: Host, k: nat, u: Up)
    requires Shaped(addr, k) && Room(k, u) && PlainUp(u)
    ensures Balanced(v, Realloc(addr, k, u))
    decreases u
  {
    var ks := ReallocKids(addr, k, u.kids);
    ReallocLedger(v, addr, k, u);
    forall i | 0 <= i < |ks|
      ensures Balanced(v, ks[i])
    {
      SetIsFlip(addr, k, k + i);
      ReallocBalanced(v, SetBit(addr, k + i), k + i + 1, u.kids[i]);
    }
  }

  lemma {:induction false} ReallocLedger(v: Measure, addr: Host, k: nat, u: Up)
    requires Shaped(addr, k) && k + |u.kids| <= 63 && u.val.sec == None
    ensures Ledger(v, Realloc(addr, k, u).val, Realloc(addr, k, u).kids)
  {
    ReallocInits(addr, k, u.kids);
    SplitsConserve(v, addr, k, k + |u.kids|);
  }

  /** Re-allocation splits (addr, k) among all daemons above the receiver. */
  lemma {:induction false} ReallocInv(addr: Host, k: nat, u: Up)
    requires Shaped(addr, k) && Room(k, u) && PlainUp(u)
    ensures Inv(Realloc(addr, k, u))
  {
    ReallocOk(addr, k, u);
    forall v
      ensures Balanced(v, Realloc(addr, k, u))
    {
      ReallocBalanced(v, addr, k, u);
    }
  }

  lemma {:induction false} KidAddresses(ts: seq<Net>, i: nat, a: Host)
    requires i < |ts|
    ensures Addresses(ts[i])[a] <= AddressesAll(ts)[a]
  {
    if i > 0 {
      KidAddresses(ts[1..], i - 1, a);
    }
  }

  /** Without room, some daemon gets the address of its new parent. */
  lemma {:induction false} NoRoomDoubles(addr: Host, k: nat, u: Up) returns (a: Host)
    requires k <= 63 && addr[63] && !Room(k, u)
    ensures Addresses(Realloc(addr, k, u))[a] >= 2
    decreases u
  {
    if k + |u.kids| > 63 {
      a := addr;
      DoubledKid(addr, k, u);
    } else {
      var i :| 0 <= i < |u.kids| && !Room(k + i + 1, u.kids[i]);
      a := NoRoomDoubles(SetBit(addr, k + i), k + i + 1, u.kids[i]);
      DoubledBelow(addr, k, u, i, a);
    }
  }

  lemma {:induction false} DoubledBelow(addr: Host, k: nat, u: Up, i: nat, a: Host)
    requires i < |u.kids| && Addresses(Realloc(SetBit(addr, k + i), k + i + 1, u.kids[i]))[a] >= 2
    ensures Addresses(Realloc(addr, k, u))[a] >= 2
  {
    KidAddresses(ReallocKids(addr, k, u.kids), i, a);
  }

  lemma {:induction false} DoubledKid(addr: Host, k: nat, u: Up)
    requires k <= 63 < k + |u.kids| && addr[63]
    ensures Addresses(Realloc(addr, k, u))[addr] >= 2
  {
    var ks, i := ReallocKids(addr, k, u.kids), 63 - k;
    assert SetBit(addr, k + i) == addr;
    assert ks[i].val.node.addr == addr;
    KidAddresses(ks, i, addr);
  }

  /** The re-allocated daemons have distinct addresses exactly when there is room for all their masks. */
  lemma {:induction false} ReallocExact(addr: Host, k: nat, u: Up)
    requires k <= 63 && Shaped(addr, k) && PlainUp(u)
    ensures (forall a :: Addresses(Realloc(addr, k, u))[a] <= 1) <==> Room(k, u)
  {
    var t := Realloc(addr, k, u);
    if Room(k, u) {
      ReallocInv(addr, k, u);
      forall a
        ensures Addresses(t)[a] <= 1
      {
        assert Balanced(At(a), t);
        TotalConserved(At(a), t);
        AddressesAreOwned(t, a);
      }
    } else {
      var a := NoRoomDoubles(addr, k, u);
      assert Addresses(t)[a] > 1;
    }
  }

  // ----- The receiver -----

  predicate RoomAll(k: nat, ups: seq<Up>) {
    k + |ups| <= 63 && forall i | 0 <= i < |ups| :: Room(k + i + 1, ups[i]) && PlainUp(ups[i])
  }

  function GraftedCell(c: Cell, splits: nat, lost: bool): Cell {
    c.(node := c.node.(mask := c.node.mask + splits, rcvd := if lost then [] else c.node.rcvd),
       limbo := c.limbo + if lost then Lost(c.node.rcvd) else [])
  }

  /** The receiver r, relabelled, with its former parent (if any) as a further child. When the parent's
      MAN2 arrives before every child's MAN1, the recovered entries are lost. */
  function Graft(r: Net, ups: seq<Up>, lost: bool): Net {
    Tree(GraftedCell(r.val, |ups|, lost), r.kids + ReallocKids(r.val.node.addr, r.val.node.mask, ups))
  }

  lemma {:induction false} InitsConcat(s: seq<Net>, u: seq<Net>)
    ensures Inits(s + u) == Inits(s) + Inits(u)
  {
  }

  /** Splitting buddies off for new children, and losing the recovered list, keeps the books balanced. */
  lemma {:induction false} GraftedLedger(v: Measure, c: Cell, kids: seq<Net>, ups: seq<Up>, lost: bool)
    requires Ledger(v, c, kids) && NodeOk(c.node) && c.node.sec == None && c.node.mask + |ups| <= 63
    ensures Ledger(v, GraftedCell(c, |ups|, lost), kids + ReallocKids(c.node.addr, c.node.mask, ups))
  {
    var us := ReallocKids(c.node.addr, c.node.mask, ups);
    InitsSum(v, kids, us);
    GraftedBooks(v, c, ups, lost);
  }

  lemma {:induction false} InitsSum(v: Measure, s: seq<Net>, u: seq<Net>)
    ensures Sum(v, Inits(s + u)) == Sum(v, Inits(s)) + Sum(v, Inits(u))
  {
    InitsConcat(s, u);
    SumConcat(v, Inits(s), Inits(u));
  }

  lemma {:induction false} GraftedBooks(v: Measure, c: Cell, ups: seq<Up>, lost: bool)
    requires NodeOk(c.node) && c.node.sec == None && c.node.mask + |ups| <= 63
    ensures var d := GraftedCell(c, |ups|, lost);
            && Holds(v, d.node) + Sum(v, Spaces(d.limbo)) + Sum(v, Inits(ReallocKids(c.node.addr, c.node.mask, ups))) ==
               Holds(v, c.node) + Sum(v, Spaces(c.limbo))
            && Init(d.node) == Init(c.node)
  {
    SecSum(v, c.node);
    SplitOff(v, c.node, ups);
    GraftedHolds(v, c, |ups|, lost);
  }

  lemma {:induction false} SplitOff(v: Measure, n: Node, ups: seq<Up>)
    requires NodeOk(n) && n.mask + |ups| <= 63
    ensures Value(v, Own(n)) == Value(v, Space(n.addr, n.mask + |ups|)) + Sum(v, Inits(ReallocKids(n.addr, n.mask, ups)))
  {
    ReallocInits(n.addr, n.mask, ups);
    SplitsConserve(v, n.addr, n.mask, n.mask + |ups|);
  }

  lemma {:induction false} GraftedHolds(v: Measure, c: Cell, splits: nat, lost: bool)
    requires c.node.sec == None
    ensures var d := GraftedCell(c, splits, lost);
            && Holds(v, d.node) + Sum(v, Spaces(d.limbo)) ==
               Value(v, Space(c.node.addr, c.node.mask + splits)) + Sum(v, c.node.rcvd) + Sum(v, Spaces(c.limbo))
            && Init(d.node) == Init(c.node)
  {
    LimboLost(v, c.limbo, c.node.rcvd);
    assert c.limbo + [] == c.limbo;
  }

  lemma {:induction false} GraftedLocalOk(c: Cell, kids: seq<Net>, ups: seq<Up>, lost: bool)
    requires LocalOk(c, kids) && c.offers == [] && c.node.mask + |ups| <= 63
    ensures LocalOk(GraftedCell(c, |ups|, lost), kids + ReallocKids(c.node.addr, c.node.mask, ups))
  {
    var n, us := c.node, ReallocKids(c.node.addr, c.node.mask, ups);
    GraftedLimboOk(c, |ups|, lost);
    forall i | 0 <= i < |us|
      ensures Child(n, Init(us[i].val.node))
    {
      SetIsFlip(n.addr, n.mask, n.mask + i);
    }
  }

  lemma {:induction false} GraftedLimboOk(c: Cell, splits: nat, lost: bool)
    requires NodeOk(c.node) && c.node.mask + splits <= 64
    requires forall l | l in c.limbo :: Child(c.node, l.space)
    ensures NodeOk(GraftedCell(c, splits, lost).node)
    ensures forall l | l in GraftedCell(c, splits, lost).limbo :: Child(c.node, l.space)
  {
    var x := Lost(c.node.rcvd);
    forall i | 0 <= i < |x|
      ensures Child(c.node, x[i].space)
    {
      assert c.node.rcvd[i] in c.node.rcvd;
    }
  }

  /** The receiver's old network, merged, keeps all its ledgers inside the space that was proposed. */
  lemma {:induction false} GraftedInv(g: Relabel, t: Net, ups: seq<Up>, lost: bool)
    requires Inv(t) && Fits(g, t) && g.m0 == t.val.node.maskIni
    requires RoomAll(t.val.node.mask - g.m0 + g.p, ups)
    ensures Above(g.m0, t)
    ensures var r := Graft(ToNet(g, t), ups, lost);
            Inv(r) && Init(r.val.node) == Space(To(g, t.val.node.addr), g.p)
  {
    RelabelKeepsInv(g, t);
    GraftInv(ToNet(g, t), ups, lost);
  }

  lemma {:induction false} GraftInv(r: Net, ups: seq<Up>, lost: bool)
    requires Inv(r) && r.val.offers == [] && r.val.node.sec == None && RoomAll(r.val.node.mask, ups)
    ensures Inv(Graft(r, ups, lost)) && Init(Graft(r, ups, lost).val.node) == Init(r.val.node)
  {
    GraftedLocalOk(r.val, r.kids, ups, lost);
    GraftedKids(r, ups);
    forall v
      ensures Balanced(v, Graft(r, ups, lost))
    {
      assert Balanced(v, r);
      GraftedLedger(v, r.val, r.kids, ups, lost);
    }
  }

  lemma {:induction false} GraftedKids(r: Net, ups: seq<Up>)
    requires Inv(r) && RoomAll(r.val.node.mask, ups)
    ensures forall k | k in r.kids + ReallocKids(r.val.node.addr, r.val.node.mask, ups) :: Inv(k)
  {
    var n, us := r.val.node, ReallocKids(r.val.node.addr, r.val.node.mask, ups);
    forall i | 0 <= i < |us|
      ensures Inv(us[i])
    {
      SetIsFlip(n.addr, n.mask, n.mask + i);
      ReallocInv(SetBit(n.addr, n.mask + i), n.mask + i + 1, ups[i]);
    }
    forall k | k in r.kids
      ensures Inv(k)
    {
      KidInv(r, k);
    }
  }

  /** Without room, the receiver's new address or one above it is given twice. */
  lemma {:induction false} GraftDoubles(r: Net, ups: seq<Up>, lost: bool) returns (a: Host)
    requires |ups| == 1 && r.val.node.addr[63] && PlainUps(ups)
    requires !RoomAll(r.val.node.mask, ups)
    ensures Addresses(Graft(r, ups, lost))[a] >= 2
  {
    var n := r.val.node;
    var ks := ReallocKids(n.addr, n.mask, ups);
    if n.mask >= 63 {
      a := n.addr;
      assert ks[0].val.node.addr == a;
    } else {
      a := NoRoomDoubles(SetBit(n.addr, n.mask), n.mask + 1, ups[0]);
    }
    assert (r.kids + ks)[|r.kids|] == ks[0];
    KidAddresses(r.kids + ks, |r.kids|, a);
  }

  predicate PlainUps(ups: seq<Up>) {
    forall i | 0 <= i < |ups| :: PlainUp(ups[i])
  }

  /** What is given twice below a daemon is given twice in its network. */
  lemma {:induction false} PutAddresses(t: Net, path: seq<nat>, u: Net, a: Host)
    requires OnPath(t, path)
    ensures Addresses(u)[a] <= Addresses(PutAt(t, path, u))[a]
    decreases path
  {
    if path != [] {
      var k := PutAt(t.kids[path[0]], path[1..], u);
      PutAddresses(t.kids[path[0]], path[1..], u, a);
      assert t.kids[path[0] := k][path[0]] == k;
      KidAddresses(t.kids[path[0] := k], path[0], a);
    }
  }

  // ----- The proposer -----

  function Proposed(n: Node): Space {
    Space(SetBit(n.addr, ProposedMask(n)), ProposedMask(n) + 1)
  }

  /** The proposer after its proposal was accepted. */
  function HostNode(n: Node): Node {
    var i := FirstMasked(n.rcvd);
    n.(mask := if ProposedMask(n) == n.mask then n.mask + 1 else n.mask,
       rcvd := if i < |n.rcvd| then Unlist(n.rcvd, n.rcvd[i].addr) else n.rcvd)
  }

  /** A recovered space was split off before the daemon's present mask. */
  lemma {:induction false} RecoveredAbove(c: Cell, kids: seq<Net>, i: nat)
    requires LocalOk(c, kids) && i < |c.node.rcvd| && forall v :: Ledger(v, c, kids)
    ensures c.node.rcvd[i].mask <= c.node.mask
  {
    var n, e := c.node, c.node.rcvd[i];
    assert e in n.rcvd;
    assert Ledger(At(e.addr), c, kids);
    SumMember(At(e.addr), n.rcvd, i);
    assert Covers(e, e.addr);
    if e.mask > n.mask {
      assert Covers(Own(n), e.addr);
    }
  }

  /** What the proposer gives away is exactly the space it proposed. */
  lemma {:induction false} HostHoldings(v: Measure, c: Cell, kids: seq<Net>)
    requires LocalOk(c, kids) && (forall w :: Ledger(w, c, kids)) && ProposedMask(c.node) <= 62
    ensures Child(c.node, Proposed(c.node))
    ensures Holds(v, HostNode(c.node)) + Value(v, Proposed(c.node)) == Holds(v, c.node)
  {
    var n, i := c.node, FirstMasked(c.node.rcvd);
    if i < |n.rcvd| {
      var e := n.rcvd[i];
      assert e in n.rcvd;
      RecoveredAbove(c, kids, i);
      SetIsFlip(n.addr, n.maskIni, e.mask - 1);
      ListedSame(n, e);
      UnlistSum(v, n.rcvd, e.addr);
    } else {
      SetIsFlip(n.addr, n.maskIni, n.mask);
      SplitConserves(v, n.addr, n.mask);
    }
  }

  lemma {:induction false} ProposedMaskBounds(n: Node)
    requires NodeOk(n)
    ensures n.maskIni <= ProposedMask(n) <= 64
  {
    var i := FirstMasked(n.rcvd);
    if i < |n.rcvd| {
      assert n.rcvd[i] in n.rcvd;
    }
  }

  /** The books balance exactly for proposed masks of at most 62: from 63 on the space that is proposed contains
      the proposer's own address. */
  lemma {:induction false} HostHoldingsExact(c: Cell, kids: seq<Net>)
    requires LocalOk(c, kids) && forall w :: Ledger(w, c, kids)
    ensures (forall v :: Holds(v, HostNode(c.node)) + Value(v, Proposed(c.node)) == Holds(v, c.node))
            <==> ProposedMask(c.node) <= 62
  {
    if ProposedMask(c.node) <= 62 {
      forall v
        ensures Holds(v, HostNode(c.node)) + Value(v, Proposed(c.node)) == Holds(v, c.node)
      {
        HostHoldings(v, c, kids);
      }
    } else {
      ProposedMaskBounds(c.node);
      assert Ledger(At(c.node.addr), c, kids);
      HostOwnsItself(c, kids);
    }
  }

  /** The proposer's address lies in what it proposes as well as in what it keeps. */
  lemma {:induction false} HostOwnsItself(c: Cell, kids: seq<Net>)
    requires LocalOk(c, kids) && ProposedMask(c.node) >= 63 && Ledger(At(c.node.addr), c, kids)
    requires c.node.addr[63] || ProposedMask(c.node) >= 64
    ensures var v := At(c.node.addr);
            Holds(v, HostNode(c.node)) + Value(v, Proposed(c.node)) > Holds(v, c.node)
  {
    var n := c.node;
    assert Covers(Own(n), n.addr) && Covers(Own(HostNode(n)), n.addr) && Covers(Proposed(n), n.addr);
    assert SetBit(n.addr, ProposedMask(n)) == n.addr;
  }

  lemma {:induction false} ListedSame(n: Node, e: Space)
    requires (forall f | f in n.rcvd :: Child(n, f)) && e in n.rcvd
    ensures Listed(n.rcvd, e.addr) && n.rcvd[IndexOf(n.rcvd, e.addr)] == e
  {
    ListedIff(n.rcvd, e.addr);
    var f := n.rcvd[IndexOf(n.rcvd, e.addr)];
    assert f in n.rcvd;
    SameBuddy(n, f, e);
  }

  /** The proposer with the merged network as its new child. */
  function Hosting(t: Net, k: Net): Net {
    Tree(t.val.(node := HostNode(t.val.node)), t.kids + [k])
  }

  lemma {:induction false} HostingInv(t: Net, k: Net)
    requires Inv(t) && Inv(k) && Init(k.val.node) == Proposed(t.val.node) && ProposedMask(t.val.node) <= 62
    ensures Inv(Hosting(t, k)) && Init(Hosting(t, k).val.node) == Init(t.val.node)
  {
    forall v ensures Ledger(v, t.val, t.kids) {
      assert Balanced(v, t);
    }
    HostingOk(t, k);
    forall v
      ensures Balanced(v, Hosting(t, k))
    {
      assert Balanced(v, t) && Balanced(v, k);
      HostHoldings(v, t.val, t.kids);
      InitsConcat(t.kids, [k]);
      SumSnoc(v, Inits(t.kids), Init(k.val.node));
      assert Inits([k]) == [Init(k.val.node)];
    }
  }

  lemma {:induction false} HostingOk(t: Net, k: Net)
    requires Ok(t) && Ok(k) && (forall v :: Ledger(v, t.val, t.kids))
    requires Init(k.val.node) == Proposed(t.val.node) && ProposedMask(t.val.node) <= 62
    ensures Ok(Hosting(t, k))
  {
    HostHoldings(Volume, t.val, t.kids);
    HostNodeOk(t.val, t.kids);
    HostingLocalOk(t.val, t.kids, k);
  }

  lemma {:induction false} HostNodeOk(c: Cell, kids: seq<Net>)
    requires LocalOk(c, kids) && (forall v :: Ledger(v, c, kids)) && ProposedMask(c.node) <= 62
    ensures NodeOk(HostNode(c.node)) && Init(HostNode(c.node)) == Init(c.node)
  {
    var n := c.node;
    var i := FirstMasked(n.rcvd);
    if i < |n.rcvd| {
      RecoveredAbove(c, kids, i);
      UnlistMembers(n.rcvd, n.rcvd[i].addr);
    }
  }

  lemma {:induction false} HostingLocalOk(c: Cell, kids: seq<Net>, k: Net)
    requires LocalOk(c, kids) && Child(c.node, Init(k.val.node))
    requires NodeOk(HostNode(c.node)) && Init(HostNode(c.node)) == Init(c.node)
    ensures LocalOk(c.(node := HostNode(c.node)), kids + [k])
  {
  }

  // ----- Inside the proposer's network -----

  lemma {:induction false} PutInv(t: Net, path: seq<nat>, u: Net)
    requires Inv(t) && OnPath(t, path) && Inv(u) && Init(u.val.node) == Init(SubtreeAt(t, path).val.node)
    ensures Inv(PutAt(t, path, u)) && Init(PutAt(t, path, u).val.node) == Init(t.val.node)
    decreases path
  {
    if path != [] {
      var i := path[0];
      KidInv(t, t.kids[i]);
      PutInv(t.kids[i], path[1..], u);
      var k := PutAt(t.kids[i], path[1..], u);
      var r := t.(kids := t.kids[i := k]);
      forall v ensures Balanced(v, r) {
        assert Balanced(v, t) && Balanced(v, k);
        ReplaceKid(v, t, i, k);
      }
      assert Inits(t.kids)[i] == Init(t.kids[i].val.node);
    }
  }
}
