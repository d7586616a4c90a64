/** What every complete run of a merge leaves behind. */
module MergeOutcome {
  import opened Hypercube
  import opened Allocation
  import opened AllocationRun
  import opened Relabelling
  import opened MergeNode
  import opened MergeTree
  import opened MergeReact
  import opened MergeRun
  import opened MergeSteps
  import opened MergeProgress

  /** Every daemon of the surge carries the labels of the network u, accepted exactly one MAR, changed its
      address exactly once, and waits for nothing. */
  predicate Merged(u: Net, w: Surge, red: nat) {
    && SiteMerged(u.val.node, w.val, red)
    && |w.kids| == |u.kids|
    && forall i | 0 <= i < |u.kids| :: Merged(u.kids[i], w.kids[i], red)
  }

  predicate SiteMerged(n: Node, s: Site, red: nat) {
    s.member.node == n && s.member.red == red && !s.member.busy && s.inbox == [] && s.heard == 1 && s.moves == 1
  }

  lemma {:induction false} OwingMember(ws: seq<Surge>, i: nat)
    requires i < |ws|
    ensures OwingKid(ws[i]) <= OwingAll(ws)
  {
    if i > 0 {
      OwingMember(ws[1..], i - 1);
    }
  }

  lemma {:induction false} AllHeard(ws: seq<Surge>)
    requires OwingAll(ws) == 0
    ensures CountHeard(ws) == |ws|
  {
    if ws != [] {
      AllHeard(ws[1..]);
    }
  }

  /** Nobody waits when nothing is due. */
  lemma {:induction false} NobodyWaits(s: Site, ws: seq<Surge>)
    requires |s.inbox| + OwingAll(ws) == 0
    ensures !Owed(s, ws)
  {
    AllHeard(ws);
  }

  lemma {:induction false} UpMerged(c: Scene, u: Up, w: Surge, addr: Host, k: nat)
    requires UpDone(c, u, w, addr, k) && Owing(w) == 0
    ensures Merged(Realloc(addr, k, u), w, c.red)
    decreases u, 1
  {
    NobodyWaits(w.val, w.kids);
    forall i | 0 <= i < |u.kids|
      ensures Merged(ReallocKids(addr, k, u.kids)[i], w.kids[i], c.red)
    {
      UpKidMerged(c, u, w, addr, k, i);
    }
    MergedParts(Realloc(addr, k, u), w, c.red);
  }

  lemma {:induction false} UpKidMerged(c: Scene, u: Up, w: Surge, addr: Host, k: nat, i: nat)
    requires UpDone(c, u, w, addr, k) && Owing(w) == 0 && i < |u.kids|
    ensures Merged(ReallocKids(addr, k, u.kids)[i], w.kids[i], c.red)
    decreases u, 0
  {
    UpStageSplit(c, u.kids[i], w.kids[i], u.val.addr, addr, k + i + 1);
    OwingMember(w.kids, i);
    UpMerged(c, u.kids[i], w.kids[i], SetBit(addr, k + i), k + i + 1);
  }

  lemma {:induction false} ParentMerged(c: Scene, n: Node, u: Up, v: Surge)
    requires NodeAbove(c.mf, n) && Owing(v) == 0 && v.val.heard != 0
    requires UpStage(c, u, v, n.addr, To(G(c), n.addr), FirstGrant(c, n))
    ensures var x := ToNode(G(c), n);
            Merged(Realloc(SetBit(x.addr, x.mask), x.mask + 1, u), v, c.red)
  {
    var x := ToNode(G(c), n);
    UpStageSplit(c, u, v, n.addr, x.addr, FirstGrant(c, n));
    UpMerged(c, u, v, SetBit(x.addr, x.mask), x.mask + 1);
  }

  lemma {:induction false} DownMerged(c: Scene, t: Net, w: Surge)
    requires Above(c.mf, t) && DownDone(c, t, [], w) && Owing(w) == 0
    ensures Merged(ToNet(G(c), t), w, c.red)
    decreases t
  {
    NobodyWaits(w.val, w.kids);
    KidsMerged(c, t, w.kids);
    MergedParts(ToNet(G(c), t), w, c.red);
  }

  lemma {:induction false} MergedParts(u: Net, w: Surge, red: nat)
    requires SiteMerged(u.val.node, w.val, red) && |w.kids| == |u.kids|
    requires forall i | 0 <= i < |u.kids| :: Merged(u.kids[i], w.kids[i], red)
    ensures Merged(u, w, red)
  {
  }

  lemma {:induction false} KidsMerged(c: Scene, t: Net, ws: seq<Surge>)
    requires Above(c.mf, t) && KidsStage(c, t, ws) && OwingAll(ws) == 0
    ensures forall i | 0 <= i < |t.kids| :: Merged(ToNets(G(c), t.kids)[i], ws[i], c.red)
    decreases t, 0
  {
    forall i | 0 <= i < |t.kids|
      ensures Merged(ToNets(G(c), t.kids)[i], ws[i], c.red)
    {
      assert t.kids[i] in t.kids;
      DownStageSplit(c, t.kids[i], ws[i], t.val.node.addr);
      OwingMember(ws, i);
      DownMerged(c, t.kids[i], ws[i]);
    }
  }

  lemma {:induction false} UpsMerged(c: Scene, t: Net, ups: seq<Up>, ws: seq<Surge>)
    requires NodeAbove(c.mf, t.val.node) && SceneOk(c)
    requires UpsStage(c, t.val.node, ups, ws, |t.kids|) && OwingAll(ws) == 0 && |ups| <= 1
    ensures var n := ToNode(G(c), t.val.node);
            forall i | 0 <= i < |ups| :: Merged(ReallocKids(n.addr, n.mask, ups)[i], ws[|t.kids| + i], c.red)
  {
    var n := ToNode(G(c), t.val.node);
    if ups != [] {
      var v := ws[|t.kids| + 0];
      OwingMember(ws, |t.kids|);
      ParentMerged(c, t.val.node, ups[0], v);
      assert ReallocKids(n.addr, n.mask, ups)[0] == Realloc(SetBit(n.addr, n.mask + 0), n.mask + 1, ups[0]);
    }
  }

  /** The receiver's whole network is merged; its recovered entries may have been wiped by a MAN2. */
  lemma {:induction false} ReceiverMerged(c: Scene, t: Net, ups: seq<Up>, w: Surge) returns (lost: bool)
    requires SceneOk(c) && Above(c.mf, t) && DownDone(c, t, ups, w) && Owing(w) == 0 && |ups| <= 1
    ensures Merged(Graft(ToNet(G(c), t), ups, lost), w, c.red)
    ensures ups == [] || t.val.node.rcvd == [] ==> !lost
  {
    NobodyWaits(w.val, w.kids);
    KidsMerged(c, t, w.kids);
    UpsMerged(c, t, ups, w.kids);
    lost := w.val.member.node != Settled(G(c), t.val.node, |ups|);
    var u := Graft(ToNet(G(c), t), ups, lost);
    forall i | 0 <= i < |u.kids|
      ensures Merged(u.kids[i], w.kids[i], c.red)
    {
      if i >= |t.kids| {
        assert w.kids[i] == w.kids[|t.kids| + (i - |t.kids|)];
      }
    }
    MergedParts(u, w, c.red);
  }

  // ----- Which answer comes first -----

  /** The receiver ends with the same address and masks whichever answer comes first, and no later answer
      changes anything; its recovered entries survive a first MAN2 exactly when there are none. */
  lemma {:induction false} AnswersCommuteExactly(c: Scene, n: Node, m: Merger, p1: Packet, p2: Packet)
    requires SceneOk(c) && Sound(c, n) && m.busy && m.red == c.red && m.mf == c.mf && m.node == Halfway(G(c), n, 1)
    requires IsMan1(c, p1) && IsMan2(c.red, To(G(c), n.addr), p2)
    ensures var a, b := HearMan2(HearMan1(c.root, m, p1), p2), HearMan1(c.root, HearMan2(m, p2), p1);
            && a == HearMan1(c.root, m, p1) && b == HearMan2(m, p2)
            && a == m.(node := Settled(G(c), n, 1), busy := false)
            && b == a.(node := a.node.(rcvd := []))
            && (a == b <==> n.rcvd == [])
  {
    HasRootBit(c, n);
    SettleIs(c, m, p1, n, 1);
  }
}
