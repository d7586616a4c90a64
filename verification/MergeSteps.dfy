/** Every packet of a merge that is processed keeps the flood on course. */
module MergeSteps {
  import opened Wrappers
  import opened Hypercube
  import opened Allocation
  import opened AllocationRun
  import opened Relabelling
  import opened RelabelledTree
  import opened FragmentationRun
  import opened MergeNode
  import opened MergeTree
  import opened MergeFlood
  import opened MergeReact
  import opened MergeRun

  /** What a merge needs of the receiver's subtree. */
  predicate Whole(c: Scene, t: Net) {
    SceneOk(c) && Ok(t) && Shallow(t) && Sound(c, t.val.node)
  }

  /** What it needs of the daemons above the receiver. */
  predicate Spacious(k: nat, u: Up) {
    k >= 1 && UpOk(u) && Narrow(k, u) && PlainUp(u)
  }

  lemma {:induction false} HasRootBit(c: Scene, n: Node)
    requires Sound(c, n)
    ensures n.maskIni <= 63 && n.addr[63] && n.addr != Default()
  {
    DefaultIsNoHost(n.addr);
  }

  // ----- A MAR is accepted -----

  lemma {:induction false} AcceptsMar1(root: Host, m: Merger, p: Packet)
    requires p.kind == MAR1 && p.red != m.red && p.dst == m.node.addr
    ensures var (r, mars, man) := HearMar1(root, m, p);
            Process(root, m, p) == (r, mars, Some(man))
  {
  }

  lemma {:induction false} AcceptsMar2(root: Host, m: Merger, p: Packet)
    requires p.kind == MAR2 && p.red != m.red
    ensures var (r, mars, man) := HearMar2(m, p);
            Process(root, m, p) == (r, mars, Some(man))
  {
  }

  lemma {:induction false} TakeOnly(root: Host, w: Surge, p: Packet, m: Merger, mars: seq<Packet>, man: Packet)
    requires w.val.inbox == [p] && w.val.heard == 0 && w.val.moves == 0 && p.kind in {MAR1, MAR2}
    requires Process(root, w.val.member, p) == (m, mars, Some(man))
    ensures Take(root, w, 0) ==
            (Tree(Site(m, [], 1, if mars == [] then 1 else 0), Arrive(w.kids, mars)), Some(man))
  {
    assert Without(w.val.inbox, 0) == [];
  }

  lemma {:induction false} IdleKidsUnheard(c: Scene, t: Net, ups: seq<Up>, ws: seq<Surge>)
    requires KidsIdle(c, t, ups, ws)
    ensures forall i | 0 <= i < |ws| :: ws[i].val.heard == 0
  {
    forall i | 0 <= i < |ws|
      ensures ws[i].val.heard == 0
    {
      if i < |t.kids| {
        assert DownIdle(c, t.kids[i], ws[i], t.val.node.addr, []);
      } else {
        assert UpIdle(c, ups[i - |t.kids|], ws[|t.kids| + (i - |t.kids|)], t.val.node.addr, []);
      }
    }
  }

  lemma {:induction false} DownCalled(c: Scene, t: Net, w: Surge, p: Host, v: Surge, q: Packet)
    requires DownIdle(c, t, w, p, []) && v == w.(val := w.val.(inbox := w.val.inbox + [q]))
    ensures DownIdle(c, t, v, p, [q])
  {
    assert w.val.inbox + [q] == [q];
  }

  lemma {:induction false} UpCalled(c: Scene, u: Up, w: Surge, p: Host, v: Surge, q: Packet)
    requires UpIdle(c, u, w, p, []) && v == w.(val := w.val.(inbox := w.val.inbox + [q]))
    ensures UpIdle(c, u, v, p, [q])
  {
    assert w.val.inbox + [q] == [q];
  }

  /** The children are called by the packets sent to them. */
  lemma {:induction false} KidsCalled(c: Scene, t: Net, ups: seq<Up>, ws: seq<Surge>, mars: seq<Packet>)
    requires KidsIdle(c, t, ups, ws)
    requires forall i | 0 <= i < |t.kids| ::
               Select(mars, Addrs(t.kids)[i]) == [Mar1For(c, t.val.node.addr, Addrs(t.kids)[i])]
    ensures KidsStage(c, t, Arrive(ws, mars))
  {
    forall i | 0 <= i < |t.kids|
      ensures DownStage(c, t.kids[i], Arrive(ws, mars)[i], t.val.node.addr)
    {
      assert Addrs(t.kids)[i] == t.kids[i].val.node.addr;
      KidCalled(c, t.kids[i], ws, mars, i, t.val.node.addr);
    }
  }

  lemma {:induction false} KidCalled(c: Scene, k: Net, ws: seq<Surge>, mars: seq<Packet>, i: nat, p: Host)
    requires i < |ws| && DownIdle(c, k, ws[i], p, [])
    requires Select(mars, k.val.node.addr) == [Mar1For(c, p, k.val.node.addr)]
    ensures DownStage(c, k, Arrive(ws, mars)[i], p)
  {
    DownCalled(c, k, ws[i], p, Arrive(ws, mars)[i], Mar1For(c, p, k.val.node.addr));
  }

  lemma {:induction false} ParentCalled(c: Scene, u: Up, ws: seq<Surge>, mars: seq<Packet>, i: nat, p: Host, a: Host, k: nat)
    requires i < |ws| && k >= 1 && UpIdle(c, u, ws[i], p, [])
    requires Select(mars, u.val.addr) == [Mar2For(c.red, p, a, k, u.val.addr)]
    ensures UpStage(c, u, Arrive(ws, mars)[i], p, a, k)
  {
    UpCalled(c, u, ws[i], p, Arrive(ws, mars)[i], Mar2For(c.red, p, a, k, u.val.addr));
  }

  lemma {:induction false} UpsCalled(c: Scene, n: Node, ups: seq<Up>, ws: seq<Surge>, start: nat, mars: seq<Packet>)
    requires |ups| <= 1 && NodeAbove(c.mf, n) && |ws| == start + |ups|
    requires forall i | 0 <= i < |ups| :: UpIdle(c, ups[i], ws[start + i], n.addr, [])
    requires forall i | 0 <= i < |ups| ::
               Select(mars, UpAddrs(ups)[i]) == [Mar2For(c.red, n.addr, To(G(c), n.addr), FirstGrant(c, n), UpAddrs(ups)[i])]
    ensures UpsStage(c, n, ups, Arrive(ws, mars), start)
  {
    if ups != [] {
      assert ws[start + 0] == ws[start] && UpAddrs(ups)[0] == ups[0].val.addr;
      ParentCalled(c, ups[0], ws, mars, start, n.addr, To(G(c), n.addr), FirstGrant(c, n));
      OneUp(c, n, ups, Arrive(ws, mars), start);
    }
  }

  lemma {:induction false} OneUp(c: Scene, n: Node, ups: seq<Up>, ws: seq<Surge>, start: nat)
    requires |ups| == 1 && |ws| == start + 1
    requires UpStage(c, ups[0], ws[start], n.addr, To(G(c), n.addr), FirstGrant(c, n))
    ensures UpsStage(c, n, ups, ws, start)
  {
    assert ws[start + 0] == ws[start];
  }

  lemma {:induction false} NowDownSite(c: Scene, t: Net, ups: seq<Up>, m: Merger, mars: seq<Packet>, man: Packet, to: Host, ws: seq<Surge>)
    requires NodeAbove(c.mf, t.val.node) && |ws| == |t.kids| + |ups| && CountHeard(ws) == 0
    requires Reacted1(c, t.val.node, Addrs(t.kids), UpAddrs(ups), to, m, mars, man)
    ensures DownSite(c, t.val.node, |ups|, Site(m, [], 1, if mars == [] then 1 else 0), ws)
  {
  }

  /** A daemon with its MAR1 processed, and its children called. */
  lemma {:induction false} NowDown(c: Scene, t: Net, ups: seq<Up>, m: Merger, mars: seq<Packet>, man: Packet, to: Host, ws: seq<Surge>)
    requires NodeAbove(c.mf, t.val.node) && |ups| <= 1 && KidsIdle(c, t, ups, ws)
    requires Reacted1(c, t.val.node, Addrs(t.kids), UpAddrs(ups), to, m, mars, man)
    ensures var r := Tree(Site(m, [], 1, if mars == [] then 1 else 0), Arrive(ws, mars));
            DownDone(c, t, ups, r) && Owing(r) == OwingAll(ws)
  {
    var s := Site(m, [], 1, if mars == [] then 1 else 0);
    IdleKidsUnheard(c, t, ups, ws);
    ArriveOwing(ws, mars);
    AllKidsCalled(c, t, ups, m, mars, man, to, ws);
    AllUpsCalled(c, t, ups, m, mars, man, to, ws);
    NowDownSite(c, t, ups, m, mars, man, to, Arrive(ws, mars));
    DownParts(c, t, ups, Tree(s, Arrive(ws, mars)));
    EmptyOwing(s, Arrive(ws, mars));
  }

  lemma {:induction false} EmptyOwing(s: Site, ws: seq<Surge>)
    requires s.inbox == []
    ensures Owing(Tree(s, ws)) == OwingAll(ws)
  {
  }

  lemma {:induction false} AllKidsCalled(c: Scene, t: Net, ups: seq<Up>, m: Merger, mars: seq<Packet>, man: Packet, to: Host, ws: seq<Surge>)
    requires NodeAbove(c.mf, t.val.node) && KidsIdle(c, t, ups, ws)
    requires Reacted1(c, t.val.node, Addrs(t.kids), UpAddrs(ups), to, m, mars, man)
    ensures KidsStage(c, t, Arrive(ws, mars))
  {
    KidsCalled(c, t, ups, ws, mars);
  }

  lemma {:induction false} AllUpsCalled(c: Scene, t: Net, ups: seq<Up>, m: Merger, mars: seq<Packet>, man: Packet, to: Host, ws: seq<Surge>)
    requires NodeAbove(c.mf, t.val.node) && |ups| <= 1 && KidsIdle(c, t, ups, ws)
    requires Reacted1(c, t.val.node, Addrs(t.kids), UpAddrs(ups), to, m, mars, man)
    ensures UpsStage(c, t.val.node, ups, Arrive(ws, mars), |t.kids|)
  {
    UpsCalled(c, t.val.node, ups, ws, |t.kids|, mars);
  }

  lemma {:induction false} DownParts(c: Scene, t: Net, ups: seq<Up>, w: Surge)
    requires DownSite(c, t.val.node, |ups|, w.val, w.kids) && KidsStage(c, t, w.kids)
    requires UpsStage(c, t.val.node, ups, w.kids, |t.kids|)
    ensures DownDone(c, t, ups, w)
  {
  }

  /** A daemon below the receiver accepts its MAR1. */
  lemma {:induction false} DownTakes(c: Scene, t: Net, w: Surge, p: Host)
    requires Whole(c, t) && Inv(t) && Below(p, 0, t.val.node) && p[63]
    requires DownIdle(c, t, w, p, [Mar1For(c, p, t.val.node.addr)])
    ensures var (r, man) := Take(c.root, w, 0);
            && DownDone(c, t, [], r) && Owing(r) == OwingAll(w.kids)
            && man.Some? && IsMan1(c, man.value) && man.value.dst == p
  {
    var q := Mar1For(c, p, t.val.node.addr);
    DownReacts(c, t, p, w.val.member);
    var (m, mars, man) := HearMar1(c.root, w.val.member, q);
    AcceptsMar1(c.root, w.val.member, q);
    TakeOnly(c.root, w, q, m, mars, man);
    DownKidsIdle(c, t, w, p, [q]);
    NowDown(c, t, [], m, mars, man, p, w.kids);
  }

  lemma {:induction false} DownKidsIdle(c: Scene, t: Net, w: Surge, p: Host, inbox: seq<Packet>)
    requires DownIdle(c, t, w, p, inbox)
    ensures KidsIdle(c, t, [], w.kids)
  {
  }

  /** The receiver accepts the proposer's MAR1. */
  lemma {:induction false} ReceiverTakes(c: Scene, t: Net, ups: seq<Up>, w: Surge)
    requires Whole(c, t) && Inv(t) && t.val.node.maskIni == c.mf && ParentOf(ups, t.val.node)
    requires ReceiverIdle(c, t, ups, w, [FirstMar(c, t.val.node.addr)])
    ensures var (r, man) := Take(c.root, w, 0);
            && DownDone(c, t, ups, r) && Owing(r) == OwingAll(w.kids)
            && man.Some? && IsMan1(c, man.value) && man.value.dst == Default()
  {
    var q := FirstMar(c, t.val.node.addr);
    ReceiverReacts(c, t, ups, w.val.member);
    var (m, mars, man) := HearMar1(c.root, w.val.member, q);
    AcceptsMar1(c.root, w.val.member, q);
    TakeOnly(c.root, w, q, m, mars, man);
    NowDown(c, t, ups, m, mars, man, Default(), w.kids);
  }

  lemma {:induction false} UpKidsCalled(c: Scene, u: Up, ws: seq<Surge>, mars: seq<Packet>, addr: Host, k: nat)
    requires |ws| == |u.kids| && forall i | 0 <= i < |u.kids| :: UpIdle(c, u.kids[i], ws[i], u.val.addr, [])
    requires forall i | 0 <= i < |u.kids| ::
               Select(mars, u.kids[i].val.addr) == [Mar2For(c.red, u.val.addr, addr, k + i + 1, u.kids[i].val.addr)]
    ensures forall i | 0 <= i < |u.kids| ::
              UpStage(c, u.kids[i], Arrive(ws, mars)[i], u.val.addr, addr, k + i + 1)
    ensures CountHeard(Arrive(ws, mars)) == 0 && OwingAll(Arrive(ws, mars)) == OwingAll(ws)
  {
    forall i | 0 <= i < |u.kids|
      ensures UpStage(c, u.kids[i], Arrive(ws, mars)[i], u.val.addr, addr, k + i + 1) && ws[i].val.heard == 0
    {
      assert UpIdle(c, u.kids[i], ws[i], u.val.addr, []);
      UpCalled(c, u.kids[i], ws[i], u.val.addr, Arrive(ws, mars)[i],
               Mar2For(c.red, u.val.addr, addr, k + i + 1, u.kids[i].val.addr));
    }
    ArriveOwing(ws, mars);
  }

  /** A daemon above the receiver accepts its MAR2. */
  lemma {:induction false} UpTakes(c: Scene, u: Up, w: Surge, p: Host, a: Host, k: nat)
    requires Spacious(k, u) && UpIdle(c, u, w, p, [Mar2For(c.red, p, a, k, u.val.addr)])
    ensures var (r, man) := Take(c.root, w, 0);
            && UpDone(c, u, r, SetBit(a, k - 1), k) && Owing(r) == OwingAll(w.kids)
            && man.Some? && IsMan2(c.red, a, man.value) && man.value.dst == p
  {
    var q := Mar2For(c.red, p, a, k, u.val.addr);
    Mar2Reacts(u, w.val.member, c.red, a, k, p);
    var (m, mars, man) := HearMar2(w.val.member, q);
    AcceptsMar2(c.root, w.val.member, q);
    TakeOnly(c.root, w, q, m, mars, man);
    UpKidsCalled(c, u, w.kids, mars, SetBit(a, k - 1), k);
    NowUp(c, u, m, mars, man, p, a, k, Arrive(w.kids, mars));
  }

  lemma {:induction false} NowUp(c: Scene, u: Up, m: Merger, mars: seq<Packet>, man: Packet, p: Host, a: Host, k: nat, ws: seq<Surge>)
    requires k >= 1 && Reacted2(u, c.red, a, k, p, m, mars, man) && |ws| == |u.kids| && CountHeard(ws) == 0
    requires forall i | 0 <= i < |u.kids| ::
               UpStage(c, u.kids[i], ws[i], u.val.addr, SetBit(a, k - 1), k + i + 1)
    ensures UpDone(c, u, Tree(Site(m, [], 1, if mars == [] then 1 else 0), ws), SetBit(a, k - 1), k)
  {
  }
}
