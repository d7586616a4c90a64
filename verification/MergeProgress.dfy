/** Answers that arrive, and whole runs of a merge. */
module MergeProgress {
  import opened Wrappers
  import opened Hypercube
  import opened Allocation
  import opened AllocationRun
  import opened Relabelling
  import opened RelabelledTree
  import opened FragmentationRun
  import opened MergeNode
  import opened MergeTree
  import opened MergeReact
  import opened MergeRun
  import opened MergeSteps

  // ----- A MAN is processed -----

  lemma {:induction false} AnswersMan1(c: Scene, m: Merger, p: Packet, n: Node, splits: nat)
    requires SceneOk(c) && Sound(c, n) && IsMan1(c, p) && m.red == c.red && m.mf == c.mf
    requires m.busy ==> m.node == Halfway(G(c), n, splits)
    ensures var r := if m.busy then m.(node := Settled(G(c), n, splits), busy := false) else m;
            Process(c.root, m, p) == (r, [], None)
  {
    HasRootBit(c, n);
    if m.busy {
      SettleIs(c, m, p, n, splits);
    }
  }

  lemma {:induction false} AnswersMan2(root: Host, m: Merger, p: Packet, red: nat, a: Host)
    requires IsMan2(red, a, p) && m.red == red
    ensures var r := if m.busy then m.(node := m.node.(addr := a, rcvd := []), busy := false) else m;
            Process(root, m, p) == (r, [], None)
  {
  }

  lemma {:induction false} TakeMan(root: Host, w: Surge, i: nat, r: Merger)
    requires i < |w.val.inbox| && w.val.inbox[i].kind in {MAN1, MAN2} && w.val.inbox[i].red == w.val.member.red
    requires Process(root, w.val.member, w.val.inbox[i]) == (r, [], None)
    ensures Take(root, w, i) ==
            (Tree(Site(r, Without(w.val.inbox, i), w.val.heard, w.val.moves + if w.val.member.busy then 1 else 0),
                  w.kids), None)
  {
    ArriveNone(w.kids);
  }

  lemma {:induction false} ArriveNone(ws: seq<Surge>)
    ensures Arrive(ws, []) == ws
  {
    var r := Arrive(ws, []);
    forall i | 0 <= i < |ws|
      ensures r[i] == ws[i]
    {
      assert ws[i].val.inbox + [] == ws[i].val.inbox;
    }
  }

  lemma {:induction false} WithoutAnswers(c: Scene, n: Node, splits: nat, ps: seq<Packet>, i: nat)
    requires i < |ps| && Answers(c, n, splits, ps)
    ensures Answers(c, n, splits, Without(ps, i))
  {
  }

  /** The member after a MAN at the receiver or below it. */
  function DownAnswered(c: Scene, n: Node, splits: nat, m: Merger, p: Packet): Merger
    requires NodeAbove(c.mf, n)
  {
    if !m.busy then m
    else if p.kind == MAN1 then m.(node := Settled(G(c), n, splits), busy := false)
    else m.(node := Settled(G(c), n, splits).(rcvd := []), busy := false)
  }

  lemma {:induction false} DownProcesses(c: Scene, n: Node, splits: nat, s: Site, ws: seq<Surge>, i: nat)
    requires SceneOk(c) && Sound(c, n) && DownSite(c, n, splits, s, ws) && i < |s.inbox|
    ensures Process(c.root, s.member, s.inbox[i]) == (DownAnswered(c, n, splits, s.member, s.inbox[i]), [], None)
    ensures s.inbox[i].kind in {MAN1, MAN2} && s.inbox[i].red == c.red
  {
    var p := s.inbox[i];
    if IsMan1(c, p) {
      AnswersMan1(c, s.member, p, n, splits);
    } else {
      AnswersMan2(c.root, s.member, p, c.red, To(G(c), n.addr));
    }
  }

  lemma {:induction false} DownSiteAnswered(c: Scene, n: Node, splits: nat, s: Site, ws: seq<Surge>, i: nat)
    requires SceneOk(c) && Sound(c, n) && DownSite(c, n, splits, s, ws) && i < |s.inbox|
    ensures DownSite(c, n, splits,
                     Site(DownAnswered(c, n, splits, s.member, s.inbox[i]), Without(s.inbox, i), s.heard,
                          s.moves + if s.member.busy then 1 else 0), ws)
  {
    WithoutAnswers(c, n, splits, s.inbox, i);
  }

  /** The receiver, or a daemon below it, processes an answer. */
  lemma {:induction false} DownAck(c: Scene, t: Net, ups: seq<Up>, w: Surge, i: nat)
    requires Whole(c, t) && DownDone(c, t, ups, w) && i < |w.val.inbox|
    ensures var (r, man) := Take(c.root, w, i);
            man == None && DownDone(c, t, ups, r) && Owing(r) + 1 == Owing(w)
  {
    var n := t.val.node;
    DownProcesses(c, n, |ups|, w.val, w.kids, i);
    DownSiteAnswered(c, n, |ups|, w.val, w.kids, i);
    TakeMan(c.root, w, i, DownAnswered(c, n, |ups|, w.val.member, w.val.inbox[i]));
  }

  function UpAnswered(u: Up, addr: Host, k: nat, m: Merger): Merger {
    if !m.busy then m else m.(node := UpSettled(u.val, addr, k, |u.kids|), busy := false)
  }

  lemma {:induction false} UpProcesses(c: Scene, u: Up, addr: Host, k: nat, s: Site, ws: seq<Surge>, i: nat)
    requires UpSite(c, u, addr, k, s, ws) && i < |s.inbox|
    ensures Process(c.root, s.member, s.inbox[i]) == (UpAnswered(u, addr, k, s.member), [], None)
    ensures UpSite(c, u, addr, k, Site(UpAnswered(u, addr, k, s.member), Without(s.inbox, i), s.heard,
                                       s.moves + if s.member.busy then 1 else 0), ws)
  {
    AnswersMan2(c.root, s.member, s.inbox[i], c.red, addr);
  }

  /** A daemon above the receiver processes an answer. */
  lemma {:induction false} UpAck(c: Scene, u: Up, w: Surge, addr: Host, k: nat, i: nat)
    requires UpDone(c, u, w, addr, k) && i < |w.val.inbox|
    ensures var (r, man) := Take(c.root, w, i);
            man == None && UpDone(c, u, r, addr, k) && Owing(r) + 1 == Owing(w)
  {
    UpProcesses(c, u, addr, k, w.val, w.kids, i);
    TakeMan(c.root, w, i, UpAnswered(u, addr, k, w.val.member));
  }

  // ----- Something happens below a daemon that has heard -----

  /** How one neighbour's subtree may change: it hears and answers, or goes on without an answer. */
  predicate Change(was: Surge, now: Surge, man: Option<Packet>, to: Host) {
    && now.val.heard == 1
    && (if was.val.heard == 0 then man.Some? && man.value.dst == to && Owing(now) + 2 == OwingKid(was)
        else man == None && Owing(now) + 1 <= OwingKid(was))
  }

  lemma {:induction false} OwedStays(s: Site, ws: seq<Surge>, i: nat, k: Surge, man: Option<Packet>, to: Host)
    requires i < |ws| && Change(ws[i], k, man, to)
    requires s.member.busy ==> Owed(s, ws) && s.member.node.addr == to
    ensures s.member.busy ==> Owed(Answer(s, man), ws[i := k])
    ensures |Answer(s, man).inbox| + OwingAll(ws[i := k]) + 1 <= |s.inbox| + OwingAll(ws)
  {
    ReplaceOwing(ws, i, k);
  }

  lemma {:induction false} DownSiteGoesOn(c: Scene, n: Node, splits: nat, s: Site, ws: seq<Surge>, i: nat, k: Surge, man: Option<Packet>)
    requires DownSite(c, n, splits, s, ws) && i < |ws| && Change(ws[i], k, man, n.addr)
    requires man.Some? ==> Answers(c, n, splits, [man.value])
    ensures DownSite(c, n, splits, Answer(s, man), ws[i := k])
    ensures |Answer(s, man).inbox| + OwingAll(ws[i := k]) + 1 <= |s.inbox| + OwingAll(ws)
  {
    OwedStays(s, ws, i, k, man, n.addr);
    if man.Some? {
      assert [man.value][0] == man.value;
    }
  }

  /** A child of the receiver, or of a daemon below it, has changed. */
  lemma {:induction false} KidGoesOn(c: Scene, t: Net, ups: seq<Up>, w: Surge, i: nat, k: Surge, man: Option<Packet>)
    requires DownDone(c, t, ups, w) && i < |t.kids| && Change(w.kids[i], k, man, t.val.node.addr)
    requires man.Some? ==> Answers(c, t.val.node, |ups|, [man.value])
    requires DownDone(c, t.kids[i], [], k)
    ensures var r := Tree(Answer(w.val, man), w.kids[i := k]);
            DownDone(c, t, ups, r) && Owing(r) + 1 <= Owing(w)
  {
    var ws := w.kids[i := k];
    DownSiteGoesOn(c, t.val.node, |ups|, w.val, w.kids, i, k, man);
    assert DownStage(c, t.kids[i], k, t.val.node.addr);
    assert KidsStage(c, t, ws);
    assert UpsStage(c, t.val.node, ups, ws, |t.kids|);
  }

  /** The receiver's former parent has changed. */
  lemma {:induction false} ParentGoesOn(c: Scene, t: Net, ups: seq<Up>, w: Surge, k: Surge, man: Option<Packet>)
    requires DownDone(c, t, ups, w) && |ups| == 1 && Change(w.kids[|t.kids|], k, man, t.val.node.addr)
    requires man.Some? ==> Answers(c, t.val.node, 1, [man.value])
    requires UpStage(c, ups[0], k, t.val.node.addr, To(G(c), t.val.node.addr), FirstGrant(c, t.val.node))
    ensures var r := Tree(Answer(w.val, man), w.kids[|t.kids| := k]);
            DownDone(c, t, ups, r) && Owing(r) + 1 <= Owing(w)
  {
    DownSiteGoesOn(c, t.val.node, 1, w.val, w.kids, |t.kids|, k, man);
    KidsUntouched(c, t, w.kids, |t.kids|, k);
    ParentReplaced(c, t.val.node, ups, w.kids, |t.kids|, k);
  }

  lemma {:induction false} KidsUntouched(c: Scene, t: Net, ws: seq<Surge>, i: nat, k: Surge)
    requires KidsStage(c, t, ws) && |t.kids| <= i < |ws|
    ensures KidsStage(c, t, ws[i := k])
  {
  }

  lemma {:induction false} ParentReplaced(c: Scene, n: Node, ups: seq<Up>, ws: seq<Surge>, start: nat, k: Surge)
    requires |ups| == 1 && |ws| == start + 1
    requires UpStage(c, ups[0], k, n.addr, To(G(c), n.addr), FirstGrant(c, n))
    ensures UpsStage(c, n, ups, ws[start := k], start)
  {
    OneUp(c, n, ups, ws[start := k], start);
  }

  lemma {:induction false} UpSiteGoesOn(c: Scene, u: Up, addr: Host, k: nat, s: Site, ws: seq<Surge>, i: nat, x: Surge, man: Option<Packet>)
    requires UpSite(c, u, addr, k, s, ws) && i < |ws| && Change(ws[i], x, man, u.val.addr)
    requires man.Some? ==> IsMan2(c.red, addr, man.value)
    ensures UpSite(c, u, addr, k, Answer(s, man), ws[i := x])
    ensures |Answer(s, man).inbox| + OwingAll(ws[i := x]) + 1 <= |s.inbox| + OwingAll(ws)
  {
    OwedStays(s, ws, i, x, man, u.val.addr);
  }

  lemma {:induction false} UpGoesOn(c: Scene, u: Up, w: Surge, addr: Host, k: nat, i: nat, x: Surge, man: Option<Packet>)
    requires UpDone(c, u, w, addr, k) && i < |w.kids| && Change(w.kids[i], x, man, u.val.addr)
    requires man.Some? ==> IsMan2(c.red, addr, man.value)
    requires UpDone(c, u.kids[i], x, SetBit(addr, k + i), k + i + 1)
    ensures var r := Tree(Answer(w.val, man), w.kids[i := x]);
            UpDone(c, u, r, addr, k) && Owing(r) + 1 <= Owing(w)
  {
    UpSiteGoesOn(c, u, addr, k, w.val, w.kids, i, x, man);
    UpKidReplaced(c, u, w.kids, addr, k, i, x);
  }

  lemma {:induction false} UpKidReplaced(c: Scene, u: Up, ws: seq<Surge>, addr: Host, k: nat, i: nat, x: Surge)
    requires |ws| == |u.kids| && i < |ws| && UpDone(c, u.kids[i], x, SetBit(addr, k + i), k + i + 1)
    requires forall j | 0 <= j < |ws| :: UpStage(c, u.kids[j], ws[j], u.val.addr, addr, k + j + 1)
    ensures forall j | 0 <= j < |ws| :: UpStage(c, u.kids[j], ws[i := x][j], u.val.addr, addr, k + j + 1)
  {
  }

  // ----- Any packet anywhere -----

  lemma {:induction false} UpStageSplit(c: Scene, u: Up, w: Surge, p: Host, a: Host, k: nat)
    requires UpStage(c, u, w, p, a, k)
    ensures w.val.heard == 0 ==> UpIdle(c, u, w, p, [Mar2For(c.red, p, a, k, u.val.addr)])
    ensures w.val.heard != 0 ==> w.val.heard == 1 && UpDone(c, u, w, SetBit(a, k - 1), k)
  {
    if UpDone(c, u, w, SetBit(a, k - 1), k) {
      assert UpSite(c, u, SetBit(a, k - 1), k, w.val, w.kids);
    } else {
      assert Idle(c, w.val, [Mar2For(c.red, p, a, k, u.val.addr)]);
    }
  }

  lemma {:induction false} DownStageSplit(c: Scene, t: Net, w: Surge, p: Host)
    requires DownStage(c, t, w, p)
    ensures w.val.heard == 0 ==> DownIdle(c, t, w, p, [Mar1For(c, p, t.val.node.addr)])
    ensures w.val.heard != 0 ==> w.val.heard == 1 && DownDone(c, t, [], w)
  {
    if DownDone(c, t, [], w) {
      assert DownSite(c, t.val.node, 0, w.val, w.kids);
    } else {
      assert Idle(c, w.val, [Mar1For(c, p, t.val.node.addr)]);
    }
  }

  lemma {:induction false} UpNeighbourTakes(c: Scene, u: Up, w: Surge, addr: Host, k: nat, j: nat)
    requires Spacious(k, u) && UpDone(c, u, w, addr, k) && j < |u.kids|
    requires UpIdle(c, u.kids[j], w.kids[j], u.val.addr, [Mar2For(c.red, u.val.addr, addr, k + j + 1, u.kids[j].val.addr)])
    ensures var (x, man) := Take(c.root, w.kids[j], 0);
            var r := Tree(Answer(w.val, man), w.kids[j := x]);
            UpDone(c, u, r, addr, k) && Owing(r) + 1 <= Owing(w)
  {
    UpTakes(c, u.kids[j], w.kids[j], u.val.addr, addr, k + j + 1);
    var (x, man) := Take(c.root, w.kids[j], 0);
    UpGoesOn(c, u, w, addr, k, j, x, man);
  }

  lemma {:induction false} AdvanceUp(c: Scene, u: Up, w: Surge, addr: Host, k: nat, path: seq<nat>, i: nat)
    requires Spacious(k, u) && UpDone(c, u, w, addr, k) && Ready(w, path, i)
    ensures var (r, man) := Advance(c.root, w, path, i);
            man == None && UpDone(c, u, r, addr, k) && Owing(r) + 1 <= Owing(w)
    decreases path
  {
    if path == [] {
      UpAck(c, u, w, addr, k, i);
    } else {
      var j, rest := path[0], path[1..];
      var v := w.kids[j];
      UpStageSplit(c, u.kids[j], v, u.val.addr, addr, k + j + 1);
      if v.val.heard == 0 {
        var inbox := [Mar2For(c.red, u.val.addr, addr, k + j + 1, u.kids[j].val.addr)];
        if rest != [] {
          UpQuiet(c, u.kids[j], v, u.val.addr, inbox, rest, i);
        }
        assert i == 0;
        UpNeighbourTakes(c, u, w, addr, k, j);
      } else {
        AdvanceUp(c, u.kids[j], v, SetBit(addr, k + j), k + j + 1, rest, i);
        var (x, man) := Advance(c.root, v, rest, i);
        UpGoesOn(c, u, w, addr, k, j, x, man);
      }
    }
  }

  lemma {:induction false} KidWhole(c: Scene, t: Net, i: nat)
    requires Whole(c, t) && Inv(t) && i < |t.kids|
    ensures Whole(c, t.kids[i]) && Inv(t.kids[i])
    ensures Below(t.val.node.addr, 0, t.kids[i].val.node) && t.val.node.addr[63]
  {
    var k := t.kids[i];
    assert k in t.kids;
    KidInv(t, k);
    HasRootBit(c, t.val.node);
    assert Shallow(k);
  }

  lemma {:induction false} Hears(was: Surge, x: Surge, man: Option<Packet>, to: Host)
    requires was.val.heard == 0 && x.val.heard == 1 && Owing(x) == OwingAll(was.kids)
    requires man.Some? && man.value.dst == to
    ensures Change(was, x, man, to)
  {
  }

  lemma {:induction false} DownHeard(c: Scene, t: Net, x: Surge)
    requires DownDone(c, t, [], x)
    ensures x.val.heard == 1
  {
    assert DownSite(c, t.val.node, 0, x.val, x.kids);
  }

  lemma {:induction false} KidTakes(c: Scene, t: Net, ups: seq<Up>, w: Surge, j: nat)
    requires Whole(c, t) && Inv(t) && DownDone(c, t, ups, w) && j < |t.kids|
    requires DownIdle(c, t.kids[j], w.kids[j], t.val.node.addr, [Mar1For(c, t.val.node.addr, t.kids[j].val.node.addr)])
    ensures var (x, man) := Take(c.root, w.kids[j], 0);
            var r := Tree(Answer(w.val, man), w.kids[j := x]);
            DownDone(c, t, ups, r) && Owing(r) + 1 <= Owing(w)
  {
    KidWhole(c, t, j);
    DownTakes(c, t.kids[j], w.kids[j], t.val.node.addr);
    var (x, man) := Take(c.root, w.kids[j], 0);
    KidHeard(c, t, ups, w, j, x, man);
  }

  lemma {:induction false} KidHeard(c: Scene, t: Net, ups: seq<Up>, w: Surge, j: nat, x: Surge, man: Option<Packet>)
    requires DownDone(c, t, ups, w) && j < |t.kids| && w.kids[j].val.heard == 0
    requires DownDone(c, t.kids[j], [], x) && Owing(x) == OwingAll(w.kids[j].kids)
    requires man.Some? && IsMan1(c, man.value) && man.value.dst == t.val.node.addr
    ensures var r := Tree(Answer(w.val, man), w.kids[j := x]);
            DownDone(c, t, ups, r) && Owing(r) + 1 <= Owing(w)
  {
    DownHeard(c, t.kids[j], x);
    Hears(w.kids[j], x, man, t.val.node.addr);
    KidGoesOn(c, t, ups, w, j, x, man);
  }

  /** The parent's buddy is the one that follows the receiver's own new space. */
  predicate Roomy(c: Scene, n: Node, ups: seq<Up>) {
    |ups| <= 1 && forall i | 0 <= i < |ups| :: Spacious(FirstGrant(c, n) + i, ups[i])
  }

  lemma {:induction false} FirstSpacious(c: Scene, n: Node, ups: seq<Up>)
    requires Roomy(c, n, ups) && ups != []
    ensures Spacious(FirstGrant(c, n), ups[0])
  {
    assert Spacious(FirstGrant(c, n) + 0, ups[0]);
  }

  lemma {:induction false} UpHears(c: Scene, u: Up, v: Surge, p: Host, a: Host, k: nat)
    requires Spacious(k, u) && UpIdle(c, u, v, p, [Mar2For(c.red, p, a, k, u.val.addr)])
    ensures var (x, man) := Take(c.root, v, 0);
            && Change(v, x, man, p) && man.Some? && IsMan2(c.red, a, man.value)
            && UpStage(c, u, x, p, a, k)
  {
    UpTakes(c, u, v, p, a, k);
    var (x, man) := Take(c.root, v, 0);
    HeardOnce(c, u, x, SetBit(a, k - 1), k);
    Hears(v, x, man, p);
  }

  lemma {:induction false} ParentTakes(c: Scene, t: Net, ups: seq<Up>, w: Surge)
    requires DownDone(c, t, ups, w) && ups != [] && Roomy(c, t.val.node, ups)
    requires UpIdle(c, ups[0], w.kids[|t.kids|], t.val.node.addr,
                    [Mar2For(c.red, t.val.node.addr, To(G(c), t.val.node.addr), FirstGrant(c, t.val.node), ups[0].val.addr)])
    ensures var (x, man) := Take(c.root, w.kids[|t.kids|], 0);
            var r := Tree(Answer(w.val, man), w.kids[|t.kids| := x]);
            DownDone(c, t, ups, r) && Owing(r) + 1 <= Owing(w)
  {
    var n, v := t.val.node, w.kids[|t.kids|];
    FirstSpacious(c, n, ups);
    UpHears(c, ups[0], v, n.addr, To(G(c), n.addr), FirstGrant(c, n));
    var (x, man) := Take(c.root, v, 0);
    ParentGoesOn(c, t, ups, w, x, man);
  }

  lemma {:induction false} ParentAdvanced(c: Scene, t: Net, ups: seq<Up>, w: Surge, x: Surge, a: Host, k: nat)
    requires DownDone(c, t, ups, w) && |ups| == 1 && w.kids[|t.kids|].val.heard == 1
    requires k >= 1 && a == To(G(c), t.val.node.addr) && k == FirstGrant(c, t.val.node)
    requires UpDone(c, ups[0], x, SetBit(a, k - 1), k) && x.val.heard == 1
    requires Owing(x) + 1 <= Owing(w.kids[|t.kids|])
    ensures var r := Tree(w.val, w.kids[|t.kids| := x]);
            DownDone(c, t, ups, r) && Owing(r) + 1 <= Owing(w)
  {
    ParentGoesOn(c, t, ups, w, x, None);
  }

  lemma {:induction false} HeardOnce(c: Scene, u: Up, x: Surge, addr: Host, k: nat)
    requires UpDone(c, u, x, addr, k)
    ensures x.val.heard == 1
  {
    assert UpSite(c, u, addr, k, x.val, x.kids);
  }

  lemma {:induction false} ParentStage(c: Scene, t: Net, ups: seq<Up>, w: Surge)
    requires DownDone(c, t, ups, w) && |ups| == 1
    ensures UpStage(c, ups[0], w.kids[|t.kids|], t.val.node.addr, To(G(c), t.val.node.addr), FirstGrant(c, t.val.node))
  {
    assert w.kids[|t.kids| + 0] == w.kids[|t.kids|];
  }

  lemma {:induction false} AdvanceParent(c: Scene, t: Net, ups: seq<Up>, w: Surge, path: seq<nat>, i: nat)
    requires Whole(c, t) && DownDone(c, t, ups, w) && ups != [] && Roomy(c, t.val.node, ups)
    requires path != [] && path[0] == |t.kids| && Ready(w, path, i)
    ensures var (r, man) := Advance(c.root, w, path, i);
            man == None && DownDone(c, t, ups, r) && Owing(r) + 1 <= Owing(w)
  {
    var n, v, rest := t.val.node, w.kids[|t.kids|], path[1..];
    var a, k := To(G(c), n.addr), FirstGrant(c, n);
    ParentStage(c, t, ups, w);
    UpStageSplit(c, ups[0], v, n.addr, a, k);
    assert Spacious(k + 0, ups[0]);
    if v.val.heard == 0 {
      if rest != [] {
        UpQuiet(c, ups[0], v, n.addr, [Mar2For(c.red, n.addr, a, k, ups[0].val.addr)], rest, i);
      }
      assert i == 0;
      ParentTakes(c, t, ups, w);
    } else {
      AdvanceUp(c, ups[0], v, SetBit(a, k - 1), k, rest, i);
      var x := Advance(c.root, v, rest, i).0;
      HeardOnce(c, ups[0], x, SetBit(a, k - 1), k);
      ParentAdvanced(c, t, ups, w, x, a, k);
    }
  }

  /** Every packet processed by the receiver's network keeps the merge on course and is one of the packets
      that are due. */
  lemma {:induction false} AdvanceDown(c: Scene, t: Net, ups: seq<Up>, w: Surge, path: seq<nat>, i: nat)
    requires Whole(c, t) && Inv(t) && DownDone(c, t, ups, w) && Roomy(c, t.val.node, ups) && Ready(w, path, i)
    ensures var (r, man) := Advance(c.root, w, path, i);
            man == None && DownDone(c, t, ups, r) && Owing(r) + 1 <= Owing(w)
    decreases path
  {
    if path == [] {
      DownAck(c, t, ups, w, i);
    } else if path[0] < |t.kids| {
      var j, rest := path[0], path[1..];
      var v := w.kids[j];
      DownStageSplit(c, t.kids[j], v, t.val.node.addr);
      if v.val.heard == 0 {
        var inbox := [Mar1For(c, t.val.node.addr, t.kids[j].val.node.addr)];
        if rest != [] {
          DownQuiet(c, t.kids[j], v, t.val.node.addr, inbox, rest, i);
        }
        assert i == 0;
        KidTakes(c, t, ups, w, j);
      } else {
        KidWhole(c, t, j);
        AdvanceDown(c, t.kids[j], [], v, rest, i);
        var (x, man) := Advance(c.root, v, rest, i);
        KidGoesOn(c, t, ups, w, j, x, man);
      }
    } else {
      AdvanceParent(c, t, ups, w, path, i);
    }
  }
}
