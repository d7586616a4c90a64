/** When the receiver of a merge keeps its recovered list. */
module MergeLoss {
  import opened Hypercube
  import opened Allocation
  import opened AllocationRun
  import opened Relabelling
  import opened RelabelledTree
  import opened MergeNode
  import opened MergeTree
  import opened MergeReact
  import opened MergeRun
  import opened MergeSteps
  import opened MergeProgress
  import opened MergeNetworks
  import opened MergeResults

  lemma {:induction false} Prefixed(root: Host, w: Surge, d: Delivery, rest: seq<Delivery>)
    requires Ready(w, d.path, d.i) && CanRun(root, Advance(root, w, d.path, d.i).0, rest)
    ensures CanRun(root, w, [d] + rest)
    ensures Reached(root, w, [d] + rest) == Reached(root, Advance(root, w, d.path, d.i).0, rest)
  {
    assert ([d] + rest)[1..] == rest;
  }

  /** Every run can be completed. */
  lemma {:induction false} Completes(c: Scene, n: Node, t: Net, ups: seq<Up>, w: Surge) returns (run: seq<Delivery>)
    requires Mergeable(c, n, t, ups) && TopStage(c, n, t, ups, w)
    ensures CanRun(c.root, w, run) && !CanGoOn(Reached(c.root, w, run))
    decreases Owing(w)
  {
    run := [];
    if CanGoOn(w) {
      var path: seq<nat>, i: nat :| Ready(w, path, i);
      AdvanceTop(c, n, t, ups, w, path, i);
      run := Completes(c, n, t, ups, Advance(c.root, w, path, i).0);
      Prefixed(c.root, w, Delivery(path, i), run);
      run := [Delivery(path, i)] + run;
    }
  }

  // ----- Once it has moved, the receiver does not change -----

  /** The receiver has accepted its MAR1 and moved. */
  predicate Moved(w: Surge, x: Merger) {
    |w.kids| == 1 && w.kids[0].val.heard == 1 && w.kids[0].val.member == x && !x.busy
  }

  lemma {:induction false} StaysMoved(c: Scene, n: Node, t: Net, ups: seq<Up>, w: Surge, x: Merger, path: seq<nat>, i: nat)
    requires Mergeable(c, n, t, ups) && TopStage(c, n, t, ups, w) && Moved(w, x) && Ready(w, path, i)
    ensures Moved(Advance(c.root, w, path, i).0, x)
  {
    var v := w.kids[0];
    if path == [] {
      TopAnswered(c, n, w, i);
    } else {
      assert w.kids == [v];
      var y := Advance(c.root, v, path[1..], i).0;
      assert w.kids[0 := y] == [y];
      if path[1..] == [] {
        DownProcesses(c, t.val.node, |ups|, v.val, v.kids, i);
        TakeMan(c.root, v, i, x);
      }
    }
  }

  lemma {:induction false} RunStaysMoved(c: Scene, n: Node, t: Net, ups: seq<Up>, w: Surge, x: Merger, run: seq<Delivery>)
    requires Mergeable(c, n, t, ups) && TopStage(c, n, t, ups, w) && Moved(w, x) && CanRun(c.root, w, run)
    ensures Moved(Reached(c.root, w, run), x)
    decreases run
  {
    if run != [] {
      StaysMoved(c, n, t, ups, w, x, run[0].path, run[0].i);
      AdvanceTop(c, n, t, ups, w, run[0].path, run[0].i);
      RunStaysMoved(c, n, t, ups, Advance(c.root, w, run[0].path, run[0].i).0, x, run[1..]);
    }
  }

  // ----- The parent's MAN2 comes first -----

  /** The receiver has accepted its MAR1 and waits; its parent has not heard anything yet. */
  predicate Asked(c: Scene, t: Net, ups: seq<Up>, v: Surge) {
    && DownDone(c, t, ups, v) && v.val.inbox == [] && v.val.member.busy
    && |v.kids| == |t.kids| + |ups| && ups != [] && v.kids[|t.kids|].val.heard == 0
  }

  lemma {:induction false} ReceiverAsks(c: Scene, t: Net, ups: seq<Up>, w: Surge)
    requires Whole(c, t) && Inv(t) && t.val.node.maskIni == c.mf && ParentOf(ups, t.val.node) && ups != []
    requires ReceiverIdle(c, t, ups, w, [FirstMar(c, t.val.node.addr)])
    ensures Asked(c, t, ups, Take(c.root, w, 0).0)
  {
    var q := FirstMar(c, t.val.node.addr);
    ReceiverTakes(c, t, ups, w);
    ReceiverReacts(c, t, ups, w.val.member);
    var (m, mars, man) := HearMar1(c.root, w.val.member, q);
    AcceptsMar1(c.root, w.val.member, q);
    TakeOnly(c.root, w, q, m, mars, man);
    IdleKidsUnheard(c, t, ups, w.kids);
  }

  /** The receiver's MAR1, then its parent's MAR2. */
  lemma {:induction false} ParentAnswers(c: Scene, t: Net, ups: seq<Up>, v: Surge)
    requires Whole(c, t) && Roomy(c, t.val.node, ups) && Asked(c, t, ups, v)
    ensures Ready(v, [|t.kids|], 0)
    ensures var x := Advance(c.root, v, [|t.kids|], 0).0;
            && x.val.member == v.val.member && |x.val.inbox| == 1
            && IsMan2(c.red, To(G(c), t.val.node.addr), x.val.inbox[0])
  {
    var n, u := t.val.node, v.kids[|t.kids|];
    var a, k := To(G(c), n.addr), FirstGrant(c, n);
    ParentStage(c, t, ups, v);
    UpStageSplit(c, ups[0], u, n.addr, a, k);
    assert Spacious(k + 0, ups[0]);
    UpTakes(c, ups[0], u, n.addr, a, k);
    assert [|t.kids|][1..] == [];
  }

  lemma {:induction false} ReceiverWiped(c: Scene, t: Net, ups: seq<Up>, x: Surge)
    requires Whole(c, t) && DownDone(c, t, ups, x) && x.val.member.busy && |x.val.inbox| == 1
    requires IsMan2(c.red, To(G(c), t.val.node.addr), x.val.inbox[0])
    ensures var m := Take(c.root, x, 0).0.val.member;
            !m.busy && m.node == Settled(G(c), t.val.node, |ups|).(rcvd := [])
  {
    var n := t.val.node;
    DownProcesses(c, n, |ups|, x.val, x.kids, 0);
    TakeMan(c.root, x, 0, DownAnswered(c, n, |ups|, x.val.member, x.val.inbox[0]));
  }

  /** One delivery at or below the receiver. */
  lemma {:induction false} BelowTop(c: Scene, n: Node, t: Net, ups: seq<Up>, w: Surge, path: seq<nat>, i: nat)
    requires Mergeable(c, n, t, ups) && TopStage(c, n, t, ups, w) && Ready(w.kids[0], path, i)
    ensures Ready(w, [0] + path, i)
    ensures var r := Advance(c.root, w, [0] + path, i).0;
            TopStage(c, n, t, ups, r) && r.kids[0] == Advance(c.root, w.kids[0], path, i).0
  {
    assert ([0] + path)[1..] == path;
    AdvanceTop(c, n, t, ups, w, [0] + path, i);
  }

  lemma {:induction false} FirstAsks(c: Scene, n: Node, t: Net, ups: seq<Up>, w: Surge)
    requires Mergeable(c, n, t, ups) && TopStage(c, n, t, ups, w) && w.kids[0].val.heard == 0 && ups != []
    ensures Ready(w, [0] + [], 0)
    ensures var r := Advance(c.root, w, [0] + [], 0).0;
            TopStage(c, n, t, ups, r) && Asked(c, t, ups, r.kids[0])
  {
    ReceiverAsks(c, t, ups, w.kids[0]);
    BelowTop(c, n, t, ups, w, [], 0);
  }

  /** The receiver has heard from its parent and nobody else. */
  predicate Answered(c: Scene, t: Net, ups: seq<Up>, v: Surge) {
    && DownDone(c, t, ups, v) && v.val.member.busy
    && |v.val.inbox| == 1 && IsMan2(c.red, To(G(c), t.val.node.addr), v.val.inbox[0])
  }

  lemma {:induction false} ThenAnswers(c: Scene, n: Node, t: Net, ups: seq<Up>, w: Surge)
    requires Mergeable(c, n, t, ups) && TopStage(c, n, t, ups, w) && Asked(c, t, ups, w.kids[0])
    ensures Ready(w, [0] + [|t.kids|], 0)
    ensures var r := Advance(c.root, w, [0] + [|t.kids|], 0).0;
            TopStage(c, n, t, ups, r) && Answered(c, t, ups, r.kids[0])
  {
    ParentAnswers(c, t, ups, w.kids[0]);
    BelowTop(c, n, t, ups, w, [|t.kids|], 0);
    HeardReceiver(c, n, t, ups, Advance(c.root, w, [0] + [|t.kids|], 0).0, w.kids[0], [|t.kids|], 0);
  }

  lemma {:induction false} ThenWiped(c: Scene, n: Node, t: Net, ups: seq<Up>, w: Surge)
    requires Mergeable(c, n, t, ups) && TopStage(c, n, t, ups, w) && Answered(c, t, ups, w.kids[0])
    ensures Ready(w, [0] + [], 0)
    ensures var r := Advance(c.root, w, [0] + [], 0).0;
            && TopStage(c, n, t, ups, r) && Moved(r, r.kids[0].val.member)
            && r.kids[0].val.member.node == Settled(G(c), t.val.node, |ups|).(rcvd := [])
  {
    ReceiverWiped(c, t, ups, w.kids[0]);
    BelowTop(c, n, t, ups, w, [], 0);
    HeardReceiver(c, n, t, ups, Advance(c.root, w, [0] + [], 0).0, w.kids[0], [], 0);
  }

  lemma {:induction false} EndsMoved(c: Scene, n: Node, t: Net, ups: seq<Up>, w: Surge, x: Merger) returns (run: seq<Delivery>)
    requires Mergeable(c, n, t, ups) && TopStage(c, n, t, ups, w) && Moved(w, x)
    ensures CanRun(c.root, w, run)
    ensures var r := Reached(c.root, w, run);
            !CanGoOn(r) && |r.kids| == 1 && r.kids[0].val.member == x
  {
    run := Completes(c, n, t, ups, w);
    RunStaysMoved(c, n, t, ups, w, x, run);
  }

  /** The receiver takes its MAR1, its parent takes the MAR2, and the receiver takes the parent's MAN2 before
      any MAN1. */
  lemma {:induction false} LosingRun(c: Scene, n: Node, t: Net, ups: seq<Up>, w: Surge) returns (run: seq<Delivery>)
    requires Mergeable(c, n, t, ups) && TopStage(c, n, t, ups, w) && w.kids[0].val.heard == 0 && ups != []
    ensures CanRun(c.root, w, run)
    ensures var r := Reached(c.root, w, run);
            !CanGoOn(r) && |r.kids| == 1 && r.kids[0].val.member.node == Settled(G(c), t.val.node, |ups|).(rcvd := [])
  {
    var d, up := Delivery([0] + [], 0), Delivery([0] + [|t.kids|], 0);
    FirstAsks(c, n, t, ups, w);
    var w1 := Advance(c.root, w, d.path, 0).0;
    ThenAnswers(c, n, t, ups, w1);
    var w2 := Advance(c.root, w1, up.path, 0).0;
    ThenWiped(c, n, t, ups, w2);
    var w3 := Advance(c.root, w2, d.path, 0).0;
    var rest := EndsMoved(c, n, t, ups, w3, w3.kids[0].val.member);
    Prefixed(c.root, w2, d, rest);
    Prefixed(c.root, w1, up, [d] + rest);
    Prefixed(c.root, w, d, [up] + ([d] + rest));
    run := [d] + ([up] + ([d] + rest));
  }

  /** What has heard stays so. */
  lemma {:induction false} HeardReceiver(c: Scene, n: Node, t: Net, ups: seq<Up>, r: Surge, v: Surge, path: seq<nat>, i: nat)
    requires TopStage(c, n, t, ups, r) && v.val.heard == 1
    requires Ready(v, path, i) && r.kids[0] == Advance(c.root, v, path, i).0
    ensures r.kids[0].val.heard == 1 && DownDone(c, t, ups, r.kids[0])
  {
    StaysHeard(c.root, v, path, i);
    assert DownSite(c, t.val.node, |ups|, r.kids[0].val, r.kids[0].kids);
  }

  lemma {:induction false} StaysHeard(root: Host, v: Surge, path: seq<nat>, i: nat)
    requires Ready(v, path, i)
    ensures Advance(root, v, path, i).0.val.heard >= v.val.heard
  {
  }

  /** Every complete run of a merge keeps the receiver's recovered list if and only if the receiver has no
      parent or nothing was recovered. */
  lemma {:induction false} ListKeptExactly(c: Scene, n: Node, t: Net, ups: seq<Up>, m: Merger, w: Surge)
    requires Mergeable(c, n, t, ups) && m.node == n && m.red == c.red && ReceiverIdle(c, t, ups, w, [])
    ensures Above(c.mf, t)
    ensures (forall run | CanRun(c.root, Start(m, w), run) && !CanGoOn(Reached(c.root, Start(m, w), run)) ::
               Finished(c, n, t, ups, false, Reached(c.root, Start(m, w), run))) <==>
            ups == [] || t.val.node.rcvd == []
  {
    OkAbove(c.mf, t);
    StartsOnCourse(c, n, t, ups, m, w);
    var s := Start(m, w);
    if ups == [] || t.val.node.rcvd == [] {
      forall run | CanRun(c.root, s, run) && !CanGoOn(Reached(c.root, s, run))
        ensures Finished(c, n, t, ups, false, Reached(c.root, s, run))
      {
        MergeTerminates(c, n, t, ups, m, w, run);
        var lost := StuckIsFinished(c, n, t, ups, Reached(c.root, s, run));
      }
    } else {
      var run := LosingRun(c, n, t, ups, s);
      var r := Reached(c.root, s, run);
      assert |Settled(G(c), t.val.node, |ups|).rcvd| == |t.val.node.rcvd|;
      assert !Finished(c, n, t, ups, false, r);
    }
  }
}
