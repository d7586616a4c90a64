/** A subtree that detaches and is then merged back under its old parent, over two whole runs. */
module MergeBack {
  import opened Hypercube
  import opened Allocation
  import opened AllocationRun
  import opened Relabelling
  import opened RelabelledTree
  import opened Embedding
  import F = FragmentationRun
  import opened MergeNode
  import opened MergeTree
  import opened MergeReact
  import opened MergeRun
  import opened MergeOutcome
  import opened MergeNetworks
  import opened MergeResults

  /** Every daemon has the labels it has in t. */
  predicate Restored(t: Net, w: Surge)
    decreases t
  {
    && w.val.member.node == t.val.node && !w.val.member.busy
    && |w.kids| == |t.kids|
    && forall i | 0 <= i < |t.kids| :: Restored(t.kids[i], w.kids[i])
  }

  /** The daemons of the merge are those that the fragmentation left behind. */
  predicate SameDaemons(r: F.Wave, w: Surge)
    decreases r
  {
    && w.val.member.node == r.val.member.node
    && |w.kids| == |r.kids|
    && forall i | 0 <= i < |r.kids| :: SameDaemons(r.kids[i], w.kids[i])
  }

  /** The subtree as a network of its own. */
  function Alone(t: Net): Net
    requires Above(t.val.node.maskIni, t)
  {
    ToNet(Detach(t.val.node.maskIni), t)
  }

  lemma {:induction false} IdleIsWhole(c: Scene, u: Net, w: Surge, p: Host, r: F.Wave, red: nat)
    requires DownIdle(c, u, w, p, []) && F.Relabelled(u, r, red)
    ensures SameDaemons(r, w)
    decreases u
  {
    forall i | 0 <= i < |r.kids|
      ensures SameDaemons(r.kids[i], w.kids[i])
    {
      IdleIsWhole(c, u.kids[i], w.kids[i], u.val.node.addr, r.kids[i], red);
    }
  }

  /** A relabelled subtree can be carried over again, and is a network whose masks spare the root's bit. */
  lemma {:induction false} FitsAgain(g: Relabel, m0: nat, t: Net)
    requires Above(m0, t) && Shallow(t) && g.m0 == 0 && g.p <= m0
    ensures Fits(g, ToNet(Detach(m0), t))
  {
    var u := ToNet(Detach(m0), t);
    CellFitsAgain(g, m0, t.val);
    forall i | 0 <= i < |u.kids|
      ensures Fits(g, u.kids[i])
    {
      assert t.kids[i] in t.kids;
      FitsAgain(g, m0, t.kids[i]);
    }
  }

  lemma {:induction false} CellFitsAgain(g: Relabel, m0: nat, c: Cell)
    requires NodeAbove(m0, c.node) && (forall l | l in c.limbo :: m0 <= l.space.mask)
    requires CellFits(Detach(0), c) && g.m0 == 0 && g.p <= m0
    ensures CellFits(g, ToCell(Detach(m0), c))
  {
    var s, l := ToSpaces(Detach(m0), c.node.rcvd), ToLimbo(Detach(m0), c.limbo);
    forall i | 0 <= i < |s|
      ensures Carried(g, s[i].mask)
    {
      assert c.node.rcvd[i] in c.node.rcvd;
    }
    forall i | 0 <= i < |l|
      ensures Carried(g, l[i].space.mask)
    {
      assert c.limbo[i] in c.limbo;
    }
  }

  lemma {:induction false} MergedIsRestored(g: Relabel, m0: nat, t: Net, w: Surge, red: nat)
    requires Above(m0, t) && g.m0 == 0 && Above(0, ToNet(Detach(m0), t)) && RoundTrip(g, m0, t)
    requires Merged(ToNet(g, ToNet(Detach(m0), t)), w, red)
    ensures Restored(t, w)
    decreases t
  {
    var u := ToNet(Detach(m0), t);
    assert ToNet(g, u).val.node == ToNode(g, u.val.node);
    forall i | 0 <= i < |t.kids|
      ensures Restored(t.kids[i], w.kids[i])
    {
      assert t.kids[i] in t.kids && u.kids[i] in u.kids;
      assert ToNets(g, u.kids)[i] == ToNet(g, u.kids[i]);
      MergedIsRestored(g, m0, t.kids[i], w.kids[i], red);
    }
  }

  /** Without a tree above it, the receiver's labels are those of the embedded network. */
  lemma {:induction false} GraftedAlone(u: Net, w: Surge, red: nat)
    requires Merged(Graft(u, [], false), w, red)
    ensures Merged(u, w, red)
  {
    assert u.kids + [] == u.kids;
  }

  /** What the merge with the detached network starts from. */
  lemma {:induction false} BackIsMergeable(root: Host, parent: Node, t: Net, m: Merger)
    requires forall j | 0 <= j < 64 :: root[j] == (j == 63)
    requires NodeOk(parent) && Child(parent, Init(t.val.node)) && Inv(t) && Shallow(t)
    requires NodeOk(m.node) && m.node.addr == parent.addr && ProposedMask(m.node) == t.val.node.maskIni - 1
    ensures Above(t.val.node.maskIni, t)
    ensures var c := SceneOf(root, m.node, Alone(t).val.node, m.red);
            && c.mf == 0 && c.s == t.val.node.maskIni - 1 && c.src == parent.addr && c.s <= 62
            && Mergeable(c, m.node, Alone(t), [])
  {
    var m0 := t.val.node.maskIni;
    FragmentKeepsInv(t);
    var u := Alone(t);
    var c := SceneOf(root, m.node, u.val.node, m.red);
    FitsAgain(Detach(0), m0, t);
    FitsAgain(G(c), m0, t);
    CanMerge(root, m.node, u, [], m.red);
  }

  /** A subtree detaches, and its FAR/FAN flood runs to the end; then the parent, which has come to propose the
      mask just above the subtree's, merges it back, and that run ends too. All daemons of the subtree then
      have their old addresses, masks, initial masks and recovered entries. */
  lemma {:induction false} DetachedAndMergedBack(parent: Node, t: Net, w: F.Wave, red: nat, fars: seq<F.Step>,
                                                 m: Merger, v: Surge, run: seq<Delivery>)
    requires NodeOk(parent) && Child(parent, Init(t.val.node)) && Inv(t) && Shallow(t)
    requires F.Detached(t, w) && NodeAbove(t.val.node.maskIni, t.val.node)
    requires F.Possible(F.Break(w, red), fars) && !F.CanGoOn(F.After(F.Break(w, red), fars))
    requires NodeOk(m.node) && m.node.addr == parent.addr && ProposedMask(m.node) == t.val.node.maskIni - 1
    requires Above(t.val.node.maskIni, t)
    requires var c := SceneOf(ROOT, m.node, Alone(t).val.node, m.red);
             ReceiverIdle(c, Alone(t), [], v, [])
    requires CanRun(ROOT, Start(m, v), run) && !CanGoOn(Reached(ROOT, Start(m, v), run))
    ensures SameDaemons(F.After(F.Break(w, red), fars), v)
    ensures var r := Reached(ROOT, Start(m, v), run);
            |r.kids| == 1 && Restored(t, r.kids[0]) && r.val.member.node == HostNode(m.node)
  {
    forall j | 0 <= j < 64 ensures ROOT[j] == (j == 63) {
      RootBits(j);
    }
    FloodOver(t, w, red, fars);
    WaveResumes(SceneOf(ROOT, m.node, Alone(t).val.node, m.red), Alone(t), v, F.After(F.Break(w, red), fars), red);
    BackAgain(ROOT, parent, t, m, v, run);
  }

  lemma {:induction false} FloodOver(t: Net, w: F.Wave, red: nat, fars: seq<F.Step>)
    requires Inv(t) && Shallow(t) && F.Detached(t, w) && NodeAbove(t.val.node.maskIni, t.val.node)
    requires F.Possible(F.Break(w, red), fars) && !F.CanGoOn(F.After(F.Break(w, red), fars))
    requires Above(t.val.node.maskIni, t)
    ensures F.Relabelled(Alone(t), F.After(F.Break(w, red), fars), red)
  {
    ShallowPlain(t);
    F.FloodTerminates(t, w, red, fars);
    F.FloodRelabels(t, w, red, fars);
  }

  lemma {:induction false} WaveResumes(c: Scene, u: Net, v: Surge, r: F.Wave, red: nat)
    requires ReceiverIdle(c, u, [], v, []) && F.Relabelled(u, r, red)
    ensures SameDaemons(r, v)
  {
    forall i | 0 <= i < |r.kids|
      ensures SameDaemons(r.kids[i], v.kids[i])
    {
      IdleIsWhole(c, u.kids[i], v.kids[i], u.val.node.addr, r.kids[i], red);
    }
  }

  lemma {:induction false} BackAgain(root: Host, parent: Node, t: Net, m: Merger, v: Surge, run: seq<Delivery>)
    requires forall j | 0 <= j < 64 :: root[j] == (j == 63)
    requires NodeOk(parent) && Child(parent, Init(t.val.node)) && Inv(t) && Shallow(t)
    requires NodeOk(m.node) && m.node.addr == parent.addr && ProposedMask(m.node) == t.val.node.maskIni - 1
    requires Above(t.val.node.maskIni, t)
    requires ReceiverIdle(SceneOf(root, m.node, Alone(t).val.node, m.red), Alone(t), [], v, [])
    requires CanRun(root, Start(m, v), run) && !CanGoOn(Reached(root, Start(m, v), run))
    ensures var r := Reached(root, Start(m, v), run);
            |r.kids| == 1 && Restored(t, r.kids[0]) && r.val.member.node == HostNode(m.node)
  {
    var m0, u := t.val.node.maskIni, Alone(t);
    var c, r := SceneOf(root, m.node, u.val.node, m.red), Reached(root, Start(m, v), run);
    BackIsMergeable(root, parent, t, m);
    MergeTerminates(c, m.node, u, [], m, v, run);
    var lost := StuckIsFinished(c, m.node, u, [], r);
    GraftedAlone(ToNet(G(c), u), r.kids[0], c.red);
    FragmentThenMergeRestores(parent, t);
    MergedIsRestored(G(c), m0, t, r.kids[0], c.red);
  }

  /** If nothing else was recovered, the parent also has its own labels back: its child's space was recovered
      when the child was gone, and is the one it proposes. */
  lemma {:induction false} ParentIsBack(n: Node, e: Space)
    requires NodeOk(n) && n.rcvd == [] && Child(n, e) && e.mask <= n.mask
    ensures ProposedMask(n.(rcvd := [e])) == e.mask - 1 && HostNode(n.(rcvd := [e])) == n
  {
    var x := n.(rcvd := [e]);
    assert FirstMasked(x.rcvd) == 0;
    assert Unlist([e], e.addr) == [];
  }
}
