/** The outcome of a merge for the two networks as wholes. */
module MergeResults {
  import opened Hypercube
  import opened Allocation
  import opened AllocationRun
  import opened AllocationResults
  import opened Relabelling
  import opened RelabelledTree
  import opened RelabelFit
  import opened MergeNode
  import opened MergeTree
  import opened MergeFit
  import opened MergeReact
  import opened MergeRun
  import opened MergeSteps
  import opened MergeOutcome
  import opened MergeNetworks

  function SceneOf(root: Host, n: Node, receiver: Node, red: nat): Scene {
    Scene(root, n.addr, ProposedMask(n), receiver.maskIni, red)
  }

  /** mezcla at the proposer, towards the receiver at the top of w. */
  function Start(m: Merger, w: Surge): Surge {
    var (p, mar) := Proposal(m, w.val.member.node.addr);
    Tree(Site(p, [], 0, 0), [w.(val := w.val.(inbox := w.val.inbox + [mar]))])
  }

  /** No mask above the receiver wraps around. */
  predicate Feasible(c: Scene, t: Net, ups: seq<Up>) {
    forall i | 0 <= i < |ups| :: Narrow(FirstGrant(c, t.val.node) + i, ups[i])
  }

  /** There is room for one buddy split per neighbour above the receiver. */
  predicate RoomFor(c: Scene, t: Net, ups: seq<Up>) {
    forall i | 0 <= i < |ups| :: Room(FirstGrant(c, t.val.node) + i, ups[i])
  }

  lemma {:induction false} CanMerge(root: Host, n: Node, t: Net, ups: seq<Up>, red: nat)
    requires forall j | 0 <= j < 64 :: root[j] == (j == 63)
    requires NodeOk(n) && Inv(t) && Shallow(t) && ParentOk(ups, t)
    requires Feasible(SceneOf(root, n, t.val.node, red), t, ups)
    ensures Mergeable(SceneOf(root, n, t.val.node, red), n, t, ups)
  {
    ProposedMaskBounds(n);
    var c := SceneOf(root, n, t.val.node, red);
    assert Sound(c, t.val.node);
  }

  lemma {:induction false} StartsOnCourse(c: Scene, n: Node, t: Net, ups: seq<Up>, m: Merger, w: Surge)
    requires c.src == n.addr && c.s == ProposedMask(n) && m.node == n && m.red == c.red
    requires ReceiverIdle(c, t, ups, w, [])
    ensures TopStage(c, n, t, ups, Start(m, w))
    ensures Owing(Start(m, w)) == 2 * Daemons(w)
  {
    var s := Start(m, w);
    assert w.val.inbox + [FirstMar(c, t.val.node.addr)] == [FirstMar(c, t.val.node.addr)];
    ReceiverSilent(c, t, ups, w, []);
    SilentOwing(w);
    TopOwing(s, s.kids[0], s.val);
  }

  /** The receiver gets exactly the space that was proposed to it. */
  lemma {:induction false} TopLabel(c: Scene, n: Node, t: Net)
    requires SceneOk(c) && c.src == n.addr && c.s == ProposedMask(n) && NodeOk(n)
    requires NodeOk(t.val.node) && t.val.node.maskIni == c.mf && c.s <= 62
    ensures Space(To(G(c), t.val.node.addr), c.s + 1) == Proposed(n)
  {
    var x, y := To(G(c), t.val.node.addr), SetBit(n.addr, c.s);
    forall i | 0 <= i < 64
      ensures x[i] == y[i]
    {
    }
  }

  /** The proposer's network with the receiver's network below the proposer. */
  function Union(host: Net, path: seq<nat>, c: Scene, t: Net, ups: seq<Up>, lost: bool): Net
    requires OnPath(host, path) && Above(c.mf, t)
  {
    PutAt(host, path, Hosting(SubtreeAt(host, path), Graft(ToNet(G(c), t), ups, lost)))
  }

  lemma {:induction false} UnionInv(host: Net, path: seq<nat>, c: Scene, t: Net, ups: seq<Up>, lost: bool)
    requires Inv(host) && OnPath(host, path)
    requires Mergeable(c, SubtreeAt(host, path).val.node, t, ups) && RoomFor(c, t, ups) && Fits(G(c), t)
    ensures Above(c.mf, t)
    ensures Inv(Union(host, path, c, t, ups, lost))
  {
    var s := SubtreeAt(host, path);
    SubtreeInv(host, path);
    RoomIs(c, t, ups);
    GraftedInv(G(c), t, ups, lost);
    TopLabel(c, s.val.node, t);
    HostingInv(s, Graft(ToNet(G(c), t), ups, lost));
    PutInv(host, path, Hosting(s, Graft(ToNet(G(c), t), ups, lost)));
  }

  lemma {:induction false} RoomIs(c: Scene, t: Net, ups: seq<Up>)
    requires Whole(c, t) && ParentOk(ups, t) && NodeAbove(c.mf, t.val.node)
    ensures RoomFor(c, t, ups) <==> ups == [] || RoomAll(t.val.node.mask - c.mf + c.s + 1, ups)
    ensures Fits(G(c), t) ==> t.val.node.mask - c.mf + c.s + 1 <= 63 && c.s <= 62
  {
  }

  /** Ledgers that are exact after the merge mean that the receiver's subtree was carried over whole. */
  lemma {:induction false} UnionFits(host: Net, path: seq<nat>, c: Scene, t: Net, ups: seq<Up>, lost: bool)
    requires OnPath(host, path) && Above(c.mf, t) && Mergeable(c, SubtreeAt(host, path).val.node, t, ups)
    requires Ok(Union(host, path, c, t, ups, lost))
    ensures Fits(G(c), t)
  {
    var s, u := SubtreeAt(host, path), Graft(ToNet(G(c), t), ups, lost);
    PutTwice(host, path, Hosting(s, u), Hosting(s, u));
    SubtreeOk(Union(host, path, c, t, ups, lost), path);
    assert Ok(Hosting(s, u)) && u in Hosting(s, u).kids;
    assert Child(HostNode(s.val.node), Init(u.val.node));
    ProposedInside(c, s.val.node, t, ups, lost);
    GraftBuddied(ToNet(G(c), t), ups, lost);
    if !Fits(G(c), t) {
      ShallowPlain(t);
      UnfitNotBuddied(G(c), t);
    }
  }

  lemma {:induction false} ProposedInside(c: Scene, n: Node, t: Net, ups: seq<Up>, lost: bool)
    requires SceneOk(c) && c.src == n.addr && Above(c.mf, t) && t.val.node.maskIni == c.mf
    requires Child(HostNode(n), Init(Graft(ToNet(G(c), t), ups, lost).val.node))
    ensures c.s <= 62
  {
    var e := Init(Graft(ToNet(G(c), t), ups, lost).val.node);
    assert e.mask == c.s + 1 && e.addr == To(G(c), t.val.node.addr) && e.addr[63];
    assert Flip(n.addr, 63)[63] == !n.addr[63];
  }

  /** The labels that a merge gives make one network with exact ledgers if and only if there is room above the
      receiver and its subtree is carried over whole; they have distinct addresses if and only if there is room,
      the proposed mask is at most 62, and no child in the subtree is split off where the root's bit comes to
      lie. */
  lemma {:induction false} UnionExact(host: Net, path: seq<nat>, c: Scene, t: Net, ups: seq<Up>, lost: bool)
    requires Inv(host) && OnPath(host, path)
    requires Mergeable(c, SubtreeAt(host, path).val.node, t, ups)
    ensures Above(c.mf, t)
    ensures Inv(Union(host, path, c, t, ups, lost)) <==> RoomFor(c, t, ups) && Fits(G(c), t)
    ensures c.s <= 62 || host.val.node.maskIni <= 63 ==>
              ((forall a :: Addresses(Union(host, path, c, t, ups, lost))[a] <= 1) <==>
               RoomFor(c, t, ups) && c.s <= 62 && Placed(G(c), t))
    ensures Init(Union(host, path, c, t, ups, lost).val.node) == Init(host.val.node)
  {
    OkAbove(c.mf, t);
    UnionInit(host, path, Hosting(SubtreeAt(host, path), Graft(ToNet(G(c), t), ups, lost)));
    UnionLedgers(host, path, c, t, ups, lost);
    if c.s <= 62 || host.val.node.maskIni <= 63 {
      UnionAddresses(host, path, c, t, ups, lost);
    }
  }

  lemma {:induction false} UnionLedgers(host: Net, path: seq<nat>, c: Scene, t: Net, ups: seq<Up>, lost: bool)
    requires Inv(host) && OnPath(host, path) && Above(c.mf, t)
    requires Mergeable(c, SubtreeAt(host, path).val.node, t, ups)
    ensures Inv(Union(host, path, c, t, ups, lost)) <==> RoomFor(c, t, ups) && Fits(G(c), t)
  {
    var u := Union(host, path, c, t, ups, lost);
    if RoomFor(c, t, ups) && Fits(G(c), t) {
      UnionInv(host, path, c, t, ups, lost);
    }
    if Inv(u) {
      UnionFits(host, path, c, t, ups, lost);
      if !RoomFor(c, t, ups) {
        var a := UnionDoubles(host, path, c, t, ups, lost);
        OwnedOnce(u, a);
      }
    }
  }

  lemma {:induction false} UnionAddresses(host: Net, path: seq<nat>, c: Scene, t: Net, ups: seq<Up>, lost: bool)
    requires Inv(host) && OnPath(host, path) && Above(c.mf, t)
    requires Mergeable(c, SubtreeAt(host, path).val.node, t, ups)
    requires c.s <= 62 || host.val.node.maskIni <= 63
    ensures (forall a :: Addresses(Union(host, path, c, t, ups, lost))[a] <= 1) <==>
            RoomFor(c, t, ups) && c.s <= 62 && Placed(G(c), t)
  {
    var u := Union(host, path, c, t, ups, lost);
    if !RoomFor(c, t, ups) || c.s >= 63 || !Placed(G(c), t) {
      var a := UnionTwice(host, path, c, t, ups, lost);
      assert Addresses(u)[a] > 1;
    } else {
      UnionSeparate(host, path, c, t, ups, lost);
      forall a
        ensures Addresses(u)[a] <= 1
      {
        assert Addresses(u)[a] <= Value(At(a), Init(u.val.node));
      }
    }
  }

  lemma {:induction false} UnionTwice(host: Net, path: seq<nat>, c: Scene, t: Net, ups: seq<Up>, lost: bool) returns (a: Host)
    requires Inv(host) && OnPath(host, path) && Above(c.mf, t)
    requires Mergeable(c, SubtreeAt(host, path).val.node, t, ups)
    requires !RoomFor(c, t, ups) || c.s >= 63 || !Placed(G(c), t)
    requires c.s <= 62 || host.val.node.maskIni <= 63
    ensures Addresses(Union(host, path, c, t, ups, lost))[a] > 1
  {
    if !RoomFor(c, t, ups) {
      a := UnionDoubles(host, path, c, t, ups, lost);
    } else if c.s >= 63 {
      a := ProposerDoubled(host, path, c, t, ups, lost);
    } else {
      a := UnplacedDoubles(G(c), t);
      UnionHas(host, path, c, t, ups, lost, a);
    }
  }

  /** Addresses given in the receiver's subtree are given in the whole network. */
  lemma {:induction false} UnionHas(host: Net, path: seq<nat>, c: Scene, t: Net, ups: seq<Up>, lost: bool, a: Host)
    requires OnPath(host, path) && Above(c.mf, t)
    ensures Addresses(ToNet(G(c), t))[a] <= Addresses(Union(host, path, c, t, ups, lost))[a]
  {
    var s, r := SubtreeAt(host, path), ToNet(G(c), t);
    var u := Graft(r, ups, lost);
    MoreAddresses(r.kids, ReallocKids(r.val.node.addr, r.val.node.mask, ups), a);
    HostingAddresses(s, u, a);
    PutAddresses(host, path, Hosting(s, u), a);
  }

  lemma {:induction false} MoreAddresses(s: seq<Net>, u: seq<Net>, a: Host)
    ensures AddressesAll(s)[a] <= AddressesAll(s + u)[a]
  {
    if s != [] {
      MoreAddresses(s[1..], u, a);
      assert (s + u)[1..] == s[1..] + u;
    }
  }

  lemma {:induction false} GraftedAlongside(c: Scene, n: Node, t: Net, ups: seq<Up>, lost: bool)
    requires Mergeable(c, n, t, ups) && Above(c.mf, t)
    requires RoomFor(c, t, ups) && c.s <= 62 && Placed(G(c), t)
    ensures var u := Graft(ToNet(G(c), t), ups, lost);
            Separate(u) && Init(u.val.node) == Proposed(n)
  {
    RoomIs(c, t, ups);
    GraftSeparate(G(c), t, ups, lost);
    TopLabel(c, n, t);
  }

  lemma {:induction false} UnionSeparate(host: Net, path: seq<nat>, c: Scene, t: Net, ups: seq<Up>, lost: bool)
    requires Inv(host) && OnPath(host, path) && Above(c.mf, t)
    requires Mergeable(c, SubtreeAt(host, path).val.node, t, ups)
    requires RoomFor(c, t, ups) && c.s <= 62 && Placed(G(c), t)
    ensures Separate(Union(host, path, c, t, ups, lost))
  {
    var s, u := SubtreeAt(host, path), Graft(ToNet(G(c), t), ups, lost);
    SubtreeInv(host, path);
    GraftedAlongside(c, s.val.node, t, ups, lost);
    HostingSeparate(s, u);
    PutSeparate(host, path, Hosting(s, u));
  }

  /** From a proposed mask of 63 on, the receiver gets the address of the proposer, or of its parent if the
      proposer's own address lacks the root's bit. */
  lemma {:induction false} ProposerDoubled(host: Net, path: seq<nat>, c: Scene, t: Net, ups: seq<Up>, lost: bool) returns (a: Host)
    requires Inv(host) && OnPath(host, path) && Above(c.mf, t) && host.val.node.maskIni <= 63
    requires Mergeable(c, SubtreeAt(host, path).val.node, t, ups) && c.s >= 63
    ensures Addresses(Union(host, path, c, t, ups, lost))[a] >= 2
  {
    var s, u := SubtreeAt(host, path), Graft(ToNet(G(c), t), ups, lost);
    a := c.src[63 := true];
    assert u.val.node.addr == a;
    OwnAddress(u);
    HostingAddresses(s, u, a);
    if c.src[63] {
      assert (s.kids + [u])[|s.kids|] == u;
      KidAddress(Hosting(s, u), |s.kids|, a);
      PutAddresses(host, path, Hosting(s, u), a);
    } else {
      ParentTwice(host, path, Hosting(s, u), a);
    }
  }

  /** Exact ledgers mean distinct addresses. */
  lemma {:induction false} OwnedOnce(t: Net, a: Host)
    requires Inv(t)
    ensures Addresses(t)[a] <= 1
  {
    assert Balanced(At(a), t);
    TotalConserved(At(a), t);
    AddressesAreOwned(t, a);
  }

  lemma {:induction false} UnionInit(host: Net, path: seq<nat>, u: Net)
    requires OnPath(host, path) && Init(u.val.node) == Init(SubtreeAt(host, path).val.node)
    ensures Init(PutAt(host, path, u).val.node) == Init(host.val.node)
  {
  }

  lemma {:induction false} MergedDoubles(c: Scene, t: Net, ups: seq<Up>, lost: bool) returns (a: Host)
    requires Whole(c, t) && ParentOk(ups, t) && Above(c.mf, t) && !RoomFor(c, t, ups)
    ensures Addresses(Graft(ToNet(G(c), t), ups, lost))[a] >= 2
  {
    RoomIs(c, t, ups);
    var r := ToNet(G(c), t);
    assert r.val.node.mask == t.val.node.mask - c.mf + c.s + 1 && r.val.node.addr[63];
    a := GraftDoubles(r, ups, lost);
  }

  lemma {:induction false} HostingAddresses(t: Net, k: Net, a: Host)
    ensures Addresses(k)[a] <= Addresses(Hosting(t, k))[a]
  {
    assert (t.kids + [k])[|t.kids|] == k;
    KidAddresses(t.kids + [k], |t.kids|, a);
  }

  lemma {:induction false} UnionDoubles(host: Net, path: seq<nat>, c: Scene, t: Net, ups: seq<Up>, lost: bool) returns (a: Host)
    requires OnPath(host, path) && Above(c.mf, t)
    requires Whole(c, t) && ParentOk(ups, t) && !RoomFor(c, t, ups)
    ensures Addresses(Union(host, path, c, t, ups, lost))[a] >= 2
  {
    var s, g := SubtreeAt(host, path), Graft(ToNet(G(c), t), ups, lost);
    a := MergedDoubles(c, t, ups, lost);
    HostingAddresses(s, g, a);
    PutAddresses(host, path, Hosting(s, g), a);
  }

  /** Whatever the order of deliveries, a merge processes at most one MAR and one MAN for every daemon of
      the receiver's network, and it never gets stuck while a packet is due. */
  lemma {:induction false} MergeTerminates(c: Scene, n: Node, t: Net, ups: seq<Up>, m: Merger, w: Surge, run: seq<Delivery>)
    requires Mergeable(c, n, t, ups) && m.node == n && m.red == c.red
    requires ReceiverIdle(c, t, ups, w, []) && CanRun(c.root, Start(m, w), run)
    ensures var r := Reached(c.root, Start(m, w), run);
            && TopStage(c, n, t, ups, r)
            && |run| + Owing(r) <= 2 * Daemons(w)
            && (Owing(r) > 0 <==> CanGoOn(r))
  {
    StartsOnCourse(c, n, t, ups, m, w);
    RunKeepsStage(c, n, t, ups, Start(m, w), run);
    StuckExactly(c, n, t, ups, Reached(c.root, Start(m, w), run));
  }

  /** The state in which a merge ends. */
  predicate Finished(c: Scene, n: Node, t: Net, ups: seq<Up>, lost: bool, r: Surge)
    requires Above(c.mf, t)
  {
    && r.val.member.node == HostNode(n) && !r.val.member.busy && r.val.moves == 1
    && |r.kids| == 1 && Merged(Graft(ToNet(G(c), t), ups, lost), r.kids[0], c.red)
  }

  lemma {:induction false} StuckIsFinished(c: Scene, n: Node, t: Net, ups: seq<Up>, r: Surge) returns (lost: bool)
    requires Mergeable(c, n, t, ups) && TopStage(c, n, t, ups, r) && Owing(r) == 0
    ensures Above(c.mf, t) && Finished(c, n, t, ups, lost, r)
    ensures ups == [] || t.val.node.rcvd == [] ==> !lost
  {
    OkAbove(c.mf, t);
    TopOwing(r, r.kids[0], r.val);
    lost := ReceiverMerged(c, t, ups, r.kids[0]);
  }

  /** Two networks with intact ledgers: when a complete run of the merge is over, every daemon of the
      receiver's network has accepted exactly one MAR and changed its address exactly once, and the daemons
      carry the labels of one network. All ledgers are intact in it exactly when there was room above the receiver
      and its subtree was carried over whole, and no address is given twice exactly when there was room and all
      daemons of the subtree kept addresses of their own. Nothing but the receiver's own recovered list can depend
      on the order of deliveries. */
  lemma {:induction false} MergeMakesOneNetwork(host: Net, path: seq<nat>, rec: Net, way: seq<nat>, at: seq<nat>, m: Merger, w: Surge, run: seq<Delivery>)
    returns (lost: bool)
    requires Inv(host) && OnPath(host, path) && m.node == SubtreeAt(host, path).val.node
    requires Inv(rec) && Shallow(rec) && rec.val.node.maskIni == 0 && OnPath(rec, way) && |at| == |way|
    requires var (t, ups) := Reroot(rec, way, at, []);
             var c := SceneOf(ROOT, m.node, t.val.node, m.red);
             && Feasible(c, t, ups) && ReceiverIdle(c, t, ups, w, [])
             && CanRun(ROOT, Start(m, w), run) && !CanGoOn(Reached(ROOT, Start(m, w), run))
    ensures var (t, ups) := Reroot(rec, way, at, []);
            var c := SceneOf(ROOT, m.node, t.val.node, m.red);
            && Above(c.mf, t)
            && Finished(c, m.node, t, ups, lost, Reached(ROOT, Start(m, w), run))
            && (Inv(Union(host, path, c, t, ups, lost)) <==> RoomFor(c, t, ups) && Fits(G(c), t))
            && (c.s <= 62 || host.val.node.maskIni <= 63 ==>
                  ((forall a :: Addresses(Union(host, path, c, t, ups, lost))[a] <= 1) <==>
                   RoomFor(c, t, ups) && c.s <= 62 && Placed(G(c), t)))
            && Init(Union(host, path, c, t, ups, lost).val.node) == Init(host.val.node)
            && (ups == [] || t.val.node.rcvd == [] ==> !lost)
  {
    SubtreeInv(host, path);
    RerootOk(rec, way, at, []);
    forall j | 0 <= j < 64 ensures ROOT[j] == (j == 63) {
      RootBits(j);
    }
    lost := MergeOf(ROOT, host, path, Reroot(rec, way, at, []).0, Reroot(rec, way, at, []).1, m, w, run);
  }

  lemma {:induction false} MergeOf(root: Host, host: Net, path: seq<nat>, t: Net, ups: seq<Up>, m: Merger, w: Surge, run: seq<Delivery>)
    returns (lost: bool)
    requires forall j | 0 <= j < 64 :: root[j] == (j == 63)
    requires Inv(host) && OnPath(host, path) && m.node == SubtreeAt(host, path).val.node && NodeOk(m.node)
    requires Inv(t) && Shallow(t) && ParentOk(ups, t)
    requires var c := SceneOf(root, m.node, t.val.node, m.red);
             && Feasible(c, t, ups) && ReceiverIdle(c, t, ups, w, [])
             && CanRun(root, Start(m, w), run) && !CanGoOn(Reached(root, Start(m, w), run))
    ensures var c := SceneOf(root, m.node, t.val.node, m.red);
            && Above(c.mf, t)
            && Finished(c, m.node, t, ups, lost, Reached(root, Start(m, w), run))
            && (Inv(Union(host, path, c, t, ups, lost)) <==> RoomFor(c, t, ups) && Fits(G(c), t))
            && (c.s <= 62 || host.val.node.maskIni <= 63 ==>
                  ((forall a :: Addresses(Union(host, path, c, t, ups, lost))[a] <= 1) <==>
                   RoomFor(c, t, ups) && c.s <= 62 && Placed(G(c), t)))
            && Init(Union(host, path, c, t, ups, lost).val.node) == Init(host.val.node)
            && (ups == [] || t.val.node.rcvd == [] ==> !lost)
  {
    var c := SceneOf(root, m.node, t.val.node, m.red);
    CanMerge(root, m.node, t, ups, m.red);
    MergeTerminates(c, m.node, t, ups, m, w, run);
    lost := StuckIsFinished(c, m.node, t, ups, Reached(root, Start(m, w), run));
    UnionExact(host, path, c, t, ups, lost);
  }

  /** In a network whose top has the whole hypercube, intact ledgers mean distinct addresses and disjoint
      spaces. */
  lemma {:induction false} IntactLedgers(t: Net, a: Host)
    requires Inv(t) && t.val.node.maskIni == 0
    ensures Addresses(t)[a] <= 1 && Live(At(a), t) + InLimbo(At(a), t) == 1
    ensures LinksAdjacent(t)
  {
    InvPartitions(t, a);
    OwnedOnce(t, a);
    OkLinksAdjacent(t);
  }
}
