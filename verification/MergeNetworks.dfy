/** Two networks become one: the proposer, the receiver's network seen from the receiver, and whole runs. */
module MergeNetworks {
  import opened Wrappers
  import opened Hypercube
  import opened Allocation
  import opened AllocationRun
  import opened Relabelling
  import opened RelabelledTree
  import opened FragmentationRun
  import opened MergeNode
  import opened MergeTree
  import opened MergeFlood
  import opened MergeReact
  import opened MergeRun
  import opened MergeSteps
  import opened MergeProgress

  // ----- The receiver's network, seen from the receiver -----

  function UpOf(t: Net): Up {
    Tree(t.val.node, UpsOf(t.kids))
  }

  function UpsOf(ts: seq<Net>): (r: seq<Up>)
    ensures |r| == |ts| && forall i | 0 <= i < |ts| :: r[i] == UpOf(ts[i])
  {
    if ts == [] then [] else [UpOf(ts[0])] + UpsOf(ts[1..])
  }

  /** A daemon above the receiver: its other children and, at position at among them, its own parent. */
  function FromBelow(t: Net, i: nat, at: nat, parent: seq<Up>): Up
    requires i < |t.kids|
  {
    var others := UpsOf(Without(t.kids, i));
    var p := if at <= |others| then at else |others|;
    Tree(t.val.node, others[..p] + parent + others[p..])
  }

  /** The subtree that the path leads to, and the rest of the network as a tree above it; at fixes where
      each daemon lists its parent among its neighbours. */
  function Reroot(t: Net, path: seq<nat>, at: seq<nat>, parent: seq<Up>): (Net, seq<Up>)
    requires OnPath(t, path) && |at| == |path|
    decreases path
  {
    if path == [] then (t, parent)
    else Reroot(t.kids[path[0]], path[1..], at[1..], [FromBelow(t, path[0], at[0], parent)])
  }

  lemma {:induction false} UpOfOk(t: Net)
    requires Inv(t) && NoSecondary(t)
    ensures UpOk(UpOf(t)) && PlainUp(UpOf(t))
  {
    forall i | 0 <= i < |t.kids|
      ensures UpOk(UpOf(t.kids[i])) && PlainUp(UpOf(t.kids[i]))
    {
      assert t.kids[i] in t.kids;
      KidInv(t, t.kids[i]);
      UpOfOk(t.kids[i]);
    }
    forall i, j | 0 <= i < j < |t.kids|
      ensures t.kids[i].val.node.addr != t.kids[j].val.node.addr
    {
      KidsDistinct(t, i, j);
      assert Addrs(t.kids)[i] == t.kids[i].val.node.addr;
    }
    if t.kids != [] {
      ParentHasSplit(t);
    }
  }

  /** What is known of the tree above a daemon. */
  predicate ParentOk(parent: seq<Up>, t: Net) {
    && |parent| <= 1
    && (parent == [] ==> t.val.node.maskIni == 0)
    && ParentOf(parent, t.val.node)
    && forall i | 0 <= i < |parent| :: UpOk(parent[i]) && PlainUp(parent[i])
  }

  lemma {:induction false} ParentApart(t: Net, i: nat, parent: seq<Up>)
    requires Ok(t) && i < |t.kids| && ParentOk(parent, t) && parent != []
    ensures parent[0].val.addr != t.kids[i].val.node.addr
  {
    var n, e := t.val.node, Init(t.kids[i].val.node);
    assert t.kids[i] in t.kids;
    assert Child(n, e);
    if Flip(n.addr, n.maskIni - 1) == Flip(n.addr, e.mask - 1) {
      FlipInjective(n.addr, n.maskIni - 1, e.mask - 1);
    }
  }

  /** Distinct lists of daemons, with one more daemon put in between. */
  predicate Apart(us: seq<Up>) {
    forall i, j | 0 <= i < j < |us| :: us[i].val.addr != us[j].val.addr
  }

  lemma {:induction false} ApartInsert(us: seq<Up>, p: nat, one: seq<Up>)
    requires p <= |us| && |one| <= 1 && Apart(us)
    requires forall i | 0 <= i < |us| :: one != [] ==> us[i].val.addr != one[0].val.addr
    ensures Apart(us[..p] + one + us[p..])
  {
    var r := us[..p] + one + us[p..];
    if one == [] {
      assert r == us;
    } else {
      forall i, j | 0 <= i < j < |r|
        ensures r[i].val.addr != r[j].val.addr
      {
        assert i < p ==> r[i] == us[i];
        assert j < p ==> r[j] == us[j];
        assert i > p ==> r[i] == us[i - 1];
        assert j > p ==> r[j] == us[j - 1];
        assert r[p] == one[0];
      }
    }
  }

  lemma {:induction false} OthersApart(t: Net, i: nat)
    requires Inv(t) && i < |t.kids|
    ensures Apart(UpsOf(Without(t.kids, i)))
  {
    var ts := Without(t.kids, i);
    forall j, k | 0 <= j < k < |ts|
      ensures UpsOf(ts)[j].val.addr != UpsOf(ts)[k].val.addr
    {
      var x, y := if j < i then j else j + 1, if k < i then k else k + 1;
      assert ts[j] == t.kids[x] && ts[k] == t.kids[y];
      KidsDistinct(t, x, y);
      assert Addrs(t.kids)[x] == t.kids[x].val.node.addr && Addrs(t.kids)[y] == t.kids[y].val.node.addr;
    }
  }

  lemma {:induction false} AboveOk(t: Net, i: nat, at: nat, parent: seq<Up>)
    requires Inv(t) && NoSecondary(t) && i < |t.kids| && ParentOk(parent, t)
    ensures UpOk(FromBelow(t, i, at, parent)) && PlainUp(FromBelow(t, i, at, parent))
  {
    var ts := Without(t.kids, i);
    var us := UpsOf(ts);
    var p := if at <= |us| then at else |us|;
    var u := FromBelow(t, i, at, parent);
    ParentHasSplit(t);
    OthersApart(t, i);
    forall j | 0 <= j < |us|
      ensures UpOk(us[j]) && PlainUp(us[j])
      ensures parent != [] ==> us[j].val.addr != parent[0].val.addr
    {
      var x := if j < i then j else j + 1;
      assert ts[j] == t.kids[x] && t.kids[x] in t.kids;
      KidInv(t, t.kids[x]);
      UpOfOk(t.kids[x]);
      if parent != [] {
        ParentApart(t, x, parent);
      }
    }
    ApartInsert(us, p, parent);
    Inserted(u, us, p, parent);
  }

  lemma {:induction false} Inserted(u: Up, us: seq<Up>, p: nat, one: seq<Up>)
    requires p <= |us| && |one| <= 1 && u.kids == us[..p] + one + us[p..]
    requires forall i | 0 <= i < |us| :: UpOk(us[i]) && PlainUp(us[i])
    requires forall i | 0 <= i < |one| :: UpOk(one[i]) && PlainUp(one[i])
    ensures forall i | 0 <= i < |u.kids| :: UpOk(u.kids[i]) && PlainUp(u.kids[i])
  {
    forall i | 0 <= i < |u.kids|
      ensures UpOk(u.kids[i]) && PlainUp(u.kids[i])
    {
      assert u.kids[i] == if i < p then us[i] else if i < p + |one| then one[i - p] else us[i - |one|];
    }
  }

  /** No mask reaches the root's bit, and no secondary space. */
  lemma {:induction false} PlainKid(t: Net, i: nat)
    requires Shallow(t) && i < |t.kids|
    ensures Shallow(t.kids[i])
  {
    assert t.kids[i] in t.kids;
  }

  lemma {:induction false} ShallowPlain(t: Net)
    requires Shallow(t)
    ensures NoSecondary(t)
  {
    forall k | k in t.kids
      ensures NoSecondary(k)
    {
      ShallowPlain(k);
    }
  }

  /** Seen from any of its daemons, a network is that daemon's subtree and a well-formed tree above it. */
  lemma {:induction false} RerootOk(t: Net, path: seq<nat>, at: seq<nat>, parent: seq<Up>)
    requires Inv(t) && Shallow(t) && OnPath(t, path) && |at| == |path| && ParentOk(parent, t)
    ensures var (r, ups) := Reroot(t, path, at, parent);
            Inv(r) && Shallow(r) && ParentOk(ups, r) && r == SubtreeAt(t, path)
    decreases path
  {
    if path != [] {
      var i := path[0];
      var k := t.kids[i];
      assert k in t.kids;
      PlainKid(t, i);
      ShallowPlain(t);
      KidInv(t, k);
      AboveOk(t, i, at[0], parent);
      KidOfAbove(t, i, at[0], parent);
      RerootOk(k, path[1..], at[1..], [FromBelow(t, i, at[0], parent)]);
    }
  }

  lemma {:induction false} KidOfAbove(t: Net, i: nat, at: nat, parent: seq<Up>)
    requires Ok(t) && Shallow(t) && i < |t.kids|
    ensures ParentOf([FromBelow(t, i, at, parent)], t.kids[i].val.node)
  {
    var n, k := t.val.node, t.kids[i].val.node;
    assert t.kids[i] in t.kids;
    assert Shallow(t.kids[i]) && Ok(t.kids[i]) && Child(n, Init(k));
    assert Flip(Flip(n.addr, k.maskIni - 1), k.maskIni - 1) == n.addr;
  }

  // ----- The proposer -----

  /** The proposer waits for the receiver's answer, or has taken its own address back. */
  predicate TopSite(c: Scene, n: Node, s: Site, heard: nat) {
    && s.member.red == c.red
    && (if s.member.busy then
          && s.moves == 0 && s.member.aux == n.addr
          && s.member.node == n.(addr := Default(), rcvd := HostNode(n).rcvd)
          && (if heard == 0 then s.inbox == [] else |s.inbox| == 1 && IsMan1(c, s.inbox[0]))
        else s.moves == 1 && s.member.node == HostNode(n) && s.inbox == [] && heard == 1)
  }

  predicate TopStage(c: Scene, n: Node, t: Net, ups: seq<Up>, w: Surge) {
    && |w.kids| == 1
    && TopSite(c, n, w.val, w.kids[0].val.heard)
    && (if w.kids[0].val.heard == 0 then ReceiverIdle(c, t, ups, w.kids[0], [FirstMar(c, t.val.node.addr)])
        else DownDone(c, t, ups, w.kids[0]))
  }

  /** What a merge starts from. */
  ghost predicate Mergeable(c: Scene, n: Node, t: Net, ups: seq<Up>) {
    && NodeOk(n) && n.mask <= 64 && c.src == n.addr && c.s == ProposedMask(n) && c.mf == t.val.node.maskIni
    && Whole(c, t) && Inv(t) && ParentOk(ups, t) && Roomy(c, t.val.node, ups)
  }

  lemma {:induction false} TopAnswered(c: Scene, n: Node, w: Surge, i: nat)
    requires c.s == ProposedMask(n) && n.mask <= 64
    requires |w.kids| == 1 && TopSite(c, n, w.val, w.kids[0].val.heard) && i < |w.val.inbox|
    requires w.kids[0].val.heard <= 1
    ensures var (r, man) := Take(c.root, w, i);
            && man == None && r.kids == w.kids && r.val.inbox == [] && |w.val.inbox| == 1
            && TopSite(c, n, r.val, w.kids[0].val.heard)
  {
    var s, p := w.val, w.val.inbox[i];
    assert p == s.inbox[0];
    var m := s.member.(node := HostNode(n), busy := false);
    assert Process(c.root, s.member, p) == (m, [], None);
    TakeMan(c.root, w, i, m);
    assert Without(s.inbox, i) == [];
  }

  lemma {:induction false} ReceiverQuiet(c: Scene, t: Net, ups: seq<Up>, w: Surge, inbox: seq<Packet>, path: seq<nat>, i: nat)
    requires ReceiverIdle(c, t, ups, w, inbox) && path != []
    ensures !Ready(w, path, i)
  {
    if path[0] < |t.kids| {
      DownQuiet(c, t.kids[path[0]], w.kids[path[0]], t.val.node.addr, [], path[1..], i);
    } else if path[0] < |w.kids| {
      var j := path[0] - |t.kids|;
      assert w.kids[path[0]] == w.kids[|t.kids| + j];
      UpQuiet(c, ups[j], w.kids[|t.kids| + j], t.val.node.addr, [], path[1..], i);
    }
  }

  lemma {:induction false} TopOwing(w: Surge, k: Surge, s: Site)
    requires |w.kids| == 1
    ensures Owing(w) == |w.val.inbox| + OwingKid(w.kids[0])
    ensures Owing(Tree(s, [k])) == |s.inbox| + OwingKid(k)
  {
    assert w.kids[1..] == [] && [k][1..] == [];
    assert OwingAll(w.kids) == OwingKid(w.kids[0]) + OwingAll([]);
    assert OwingAll([k]) == OwingKid(k) + OwingAll([]);
  }

  lemma {:induction false} TopReceiverTakes(c: Scene, n: Node, t: Net, ups: seq<Up>, w: Surge)
    requires Mergeable(c, n, t, ups) && TopStage(c, n, t, ups, w) && w.kids[0].val.heard == 0
    ensures var (x, man) := Take(c.root, w.kids[0], 0);
            var r := Tree(Answer(w.val, man), [x]);
            TopStage(c, n, t, ups, r) && Owing(r) + 1 <= Owing(w)
  {
    ReceiverTakes(c, t, ups, w.kids[0]);
    var (x, man) := Take(c.root, w.kids[0], 0);
    assert DownSite(c, t.val.node, |ups|, x.val, x.kids);
    TopOwing(w, x, Answer(w.val, man));
  }

  lemma {:induction false} TopReceiverAdvances(c: Scene, n: Node, t: Net, ups: seq<Up>, w: Surge, rest: seq<nat>, i: nat)
    requires Mergeable(c, n, t, ups) && TopStage(c, n, t, ups, w) && w.kids[0].val.heard != 0 && Ready(w.kids[0], rest, i)
    ensures var (x, man) := Advance(c.root, w.kids[0], rest, i);
            var r := Tree(Answer(w.val, man), [x]);
            TopStage(c, n, t, ups, r) && Owing(r) + 1 <= Owing(w)
  {
    assert DownSite(c, t.val.node, |ups|, w.kids[0].val, w.kids[0].kids);
    AdvanceDown(c, t, ups, w.kids[0], rest, i);
    var (x, man) := Advance(c.root, w.kids[0], rest, i);
    assert DownSite(c, t.val.node, |ups|, x.val, x.kids);
    TopOwing(w, x, w.val);
  }

  /** Every packet processed anywhere keeps the merge on course. */
  lemma {:induction false} AdvanceTop(c: Scene, n: Node, t: Net, ups: seq<Up>, w: Surge, path: seq<nat>, i: nat)
    requires Mergeable(c, n, t, ups) && TopStage(c, n, t, ups, w) && Ready(w, path, i)
    ensures var r := Advance(c.root, w, path, i).0;
            TopStage(c, n, t, ups, r) && Owing(r) + 1 <= Owing(w)
  {
    if path == [] {
      assert w.kids[0].val.heard != 0 ==> DownSite(c, t.val.node, |ups|, w.kids[0].val, w.kids[0].kids);
      TopAnswered(c, n, w, i);
    } else {
      var rest := path[1..];
      assert w.kids == [w.kids[0]];
      var (x, man) := Advance(c.root, w.kids[0], rest, i);
      assert w.kids[0 := x] == [x];
      if w.kids[0].val.heard == 0 {
        if rest != [] {
          ReceiverQuiet(c, t, ups, w.kids[0], [FirstMar(c, t.val.node.addr)], rest, i);
        }
        assert i == 0;
        TopReceiverTakes(c, n, t, ups, w);
      } else {
        TopReceiverAdvances(c, n, t, ups, w, rest, i);
      }
    }
  }

  // ----- Whole runs -----

  datatype Delivery = Delivery(path: seq<nat>, i: nat)

  predicate CanRun(root: Host, w: Surge, run: seq<Delivery>)
    decreases run
  {
    run == [] || (Ready(w, run[0].path, run[0].i) && CanRun(root, Advance(root, w, run[0].path, run[0].i).0, run[1..]))
  }

  function Reached(root: Host, w: Surge, run: seq<Delivery>): Surge
    requires CanRun(root, w, run)
    decreases run
  {
    if run == [] then w else Reached(root, Advance(root, w, run[0].path, run[0].i).0, run[1..])
  }

  lemma {:induction false} RunKeepsStage(c: Scene, n: Node, t: Net, ups: seq<Up>, w: Surge, run: seq<Delivery>)
    requires Mergeable(c, n, t, ups) && TopStage(c, n, t, ups, w) && CanRun(c.root, w, run)
    ensures TopStage(c, n, t, ups, Reached(c.root, w, run))
    ensures |run| + Owing(Reached(c.root, w, run)) <= Owing(w)
    decreases run
  {
    if run != [] {
      AdvanceTop(c, n, t, ups, w, run[0].path, run[0].i);
      RunKeepsStage(c, n, t, ups, Advance(c.root, w, run[0].path, run[0].i).0, run[1..]);
    }
  }

  /** Some packet can be processed. */
  ghost predicate CanGoOn(w: Surge) {
    exists path: seq<nat>, i: nat :: Ready(w, path, i)
  }

  lemma {:induction false} SomeUp(c: Scene, u: Up, w: Surge, addr: Host, k: nat) returns (path: seq<nat>, i: nat)
    requires UpDone(c, u, w, addr, k) && Owing(w) > 0
    ensures Ready(w, path, i)
    decreases u
  {
    i := 0;
    if w.val.inbox != [] {
      path := [];
    } else {
      var j := SomeOwing(w.kids);
      UpStageSplit(c, u.kids[j], w.kids[j], u.val.addr, addr, k + j + 1);
      if w.kids[j].val.heard == 0 {
        path := [j];
        assert path[1..] == [];
      } else {
        path, i := SomeUp(c, u.kids[j], w.kids[j], SetBit(addr, k + j), k + j + 1);
        assert ([j] + path)[1..] == path;
        path := [j] + path;
      }
    }
  }

  lemma {:induction false} SomeOwing(ws: seq<Surge>) returns (j: nat)
    requires OwingAll(ws) > 0
    ensures j < |ws| && OwingKid(ws[j]) > 0
  {
    if OwingKid(ws[0]) > 0 {
      j := 0;
    } else {
      j := SomeOwing(ws[1..]);
      j := j + 1;
    }
  }

  lemma {:induction false} ReadyBelow(w: Surge, j: nat, path: seq<nat>, i: nat)
    requires j < |w.kids| && Ready(w.kids[j], path, i)
    ensures Ready(w, [j] + path, i)
  {
    assert ([j] + path)[1..] == path;
  }

  lemma {:induction false} SomeDown(c: Scene, t: Net, ups: seq<Up>, w: Surge) returns (path: seq<nat>, i: nat)
    requires DownDone(c, t, ups, w) && Owing(w) > 0
    ensures Ready(w, path, i)
    decreases t
  {
    i := 0;
    if w.val.inbox != [] {
      path := [];
    } else {
      var j := SomeOwing(w.kids);
      if j < |t.kids| {
        DownStageSplit(c, t.kids[j], w.kids[j], t.val.node.addr);
        if w.kids[j].val.heard == 0 {
          path := [];
        } else {
          path, i := SomeDown(c, t.kids[j], [], w.kids[j]);
        }
      } else {
        path, i := SomeParent(c, t.val.node, ups, w.kids, |t.kids|, j - |t.kids|);
      }
      ReadyBelow(w, j, path, i);
      path := [j] + path;
    }
  }

  lemma {:induction false} SomeParent(c: Scene, n: Node, ups: seq<Up>, ws: seq<Surge>, start: nat, j: nat) returns (path: seq<nat>, i: nat)
    requires UpsStage(c, n, ups, ws, start) && j < |ups| && OwingKid(ws[start + j]) > 0
    ensures Ready(ws[start + j], path, i)
  {
    i := 0;
    var a, k, v := To(G(c), n.addr), FirstGrant(c, n) + j, ws[start + j];
    UpStageSplit(c, ups[j], v, n.addr, a, k);
    if v.val.heard == 0 {
      path := [];
    } else {
      path, i := SomeUp(c, ups[j], v, SetBit(a, k - 1), k);
    }
  }

  /** A merge is stuck exactly when nothing is due. */
  lemma {:induction false} StuckExactly(c: Scene, n: Node, t: Net, ups: seq<Up>, w: Surge)
    requires Mergeable(c, n, t, ups) && TopStage(c, n, t, ups, w)
    ensures Owing(w) > 0 <==> CanGoOn(w)
  {
    if Owing(w) == 0 {
      forall path: seq<nat>, i: nat
        ensures !Ready(w, path, i)
      {
        if Ready(w, path, i) {
          AdvanceTop(c, n, t, ups, w, path, i);
        }
      }
    } else {
      var path, i := SomeTop(c, n, t, ups, w);
      assert Ready(w, path, i);
    }
  }

  lemma {:induction false} SomeTop(c: Scene, n: Node, t: Net, ups: seq<Up>, w: Surge) returns (path: seq<nat>, i: nat)
    requires TopStage(c, n, t, ups, w) && Owing(w) > 0
    ensures Ready(w, path, i)
  {
    TopOwing(w, w.kids[0], w.val);
    path, i := [], 0;
    if w.val.inbox == [] {
      if w.kids[0].val.heard != 0 {
        path, i := SomeDown(c, t, ups, w.kids[0]);
      }
      ReadyBelow(w, 0, path, i);
      path := [0] + path;
    }
  }

  // ----- The number of packets -----

  function Daemons(w: Surge): nat {
    1 + DaemonsAll(w.kids)
  }

  function DaemonsAll(ws: seq<Surge>): nat {
    if ws == [] then 0 else Daemons(ws[0]) + DaemonsAll(ws[1..])
  }

  /** Nobody in the subtree has heard anything. */
  predicate Silent(w: Surge) {
    w.val.heard == 0 && forall i | 0 <= i < |w.kids| :: Silent(w.kids[i])
  }

  lemma {:induction false} SilentOwing(w: Surge)
    requires Silent(w)
    ensures OwingKid(w) == 2 * Daemons(w)
    decreases w, 1
  {
    SilentOwingAll(w.kids);
  }

  lemma {:induction false} SilentOwingAll(ws: seq<Surge>)
    requires forall i | 0 <= i < |ws| :: Silent(ws[i])
    ensures OwingAll(ws) == 2 * DaemonsAll(ws)
    decreases ws, 0
  {
    if ws != [] {
      SilentOwing(ws[0]);
      SilentOwingAll(ws[1..]);
    }
  }

  lemma {:induction false} DownSilent(c: Scene, t: Net, w: Surge, p: Host, inbox: seq<Packet>)
    requires DownIdle(c, t, w, p, inbox)
    ensures Silent(w)
  {
    forall i | 0 <= i < |w.kids|
      ensures Silent(w.kids[i])
    {
      DownSilent(c, t.kids[i], w.kids[i], t.val.node.addr, []);
    }
  }

  lemma {:induction false} UpSilent(c: Scene, u: Up, w: Surge, p: Host, inbox: seq<Packet>)
    requires UpIdle(c, u, w, p, inbox)
    ensures Silent(w)
  {
    forall i | 0 <= i < |w.kids|
      ensures Silent(w.kids[i])
    {
      UpSilent(c, u.kids[i], w.kids[i], u.val.addr, []);
    }
  }

  lemma {:induction false} ReceiverSilent(c: Scene, t: Net, ups: seq<Up>, w: Surge, inbox: seq<Packet>)
    requires ReceiverIdle(c, t, ups, w, inbox)
    ensures Silent(w)
  {
    forall i | 0 <= i < |w.kids|
      ensures Silent(w.kids[i])
    {
      if i < |t.kids| {
        DownSilent(c, t.kids[i], w.kids[i], t.val.node.addr, []);
      } else {
        var j := i - |t.kids|;
        assert w.kids[i] == w.kids[|t.kids| + j];
        UpSilent(c, ups[j], w.kids[|t.kids| + j], t.val.node.addr, []);
      }
    }
  }

  // ----- Every network can be in the state from which a merge starts -----

  function SiteOf(n: Node, table: seq<Host>, red: nat): Site {
    Site(Merger(n, table, red, false, 0, n.addr), [], 0, 0)
  }

  function DownSurge(t: Net, p: Host, red: nat): Surge {
    Tree(SiteOf(t.val.node, Addrs(t.kids) + [p], red), DownSurges(t.kids, t.val.node.addr, red))
  }

  function DownSurges(ts: seq<Net>, p: Host, red: nat): (r: seq<Surge>)
    ensures |r| == |ts| && forall i | 0 <= i < |ts| :: r[i] == DownSurge(ts[i], p, red)
  {
    if ts == [] then [] else [DownSurge(ts[0], p, red)] + DownSurges(ts[1..], p, red)
  }

  function UpSurge(u: Up, p: Host, red: nat): Surge {
    Tree(SiteOf(u.val, [p] + UpAddrs(u.kids), red), UpSurges(u.kids, u.val.addr, red))
  }

  function UpSurges(us: seq<Up>, p: Host, red: nat): (r: seq<Surge>)
    ensures |r| == |us| && forall i | 0 <= i < |us| :: r[i] == UpSurge(us[i], p, red)
  {
    if us == [] then [] else [UpSurge(us[0], p, red)] + UpSurges(us[1..], p, red)
  }

  lemma {:induction false} DownSurgeIdle(c: Scene, t: Net, p: Host, red: nat)
    requires red != c.red
    ensures DownIdle(c, t, DownSurge(t, p, red), p, [])
    decreases t
  {
    forall i | 0 <= i < |t.kids|
      ensures DownIdle(c, t.kids[i], DownSurges(t.kids, t.val.node.addr, red)[i], t.val.node.addr, [])
    {
      DownSurgeIdle(c, t.kids[i], t.val.node.addr, red);
    }
  }

  lemma {:induction false} OthersOf(s: seq<Host>, p: Host)
    requires p !in s
    ensures Others([p] + s, p) == s
  {
    var all := [p] + s;
    if s == [] {
      assert all[..0] == [];
    } else {
      var t := s[..|s| - 1];
      assert all[..|all| - 1] == [p] + t;
      OthersOf(t, p);
    }
  }

  /** No daemon above the receiver has the address of one it passes MAR2 on to. */
  predicate Sparse(u: Up, p: Host)
    decreases u
  {
    p !in UpAddrs(u.kids) && forall i | 0 <= i < |u.kids| :: Sparse(u.kids[i], u.val.addr)
  }

  predicate AllSparse(us: seq<Up>, p: Host) {
    forall i | 0 <= i < |us| :: Sparse(us[i], p)
  }

  lemma {:induction false} UpSurgeIdle(c: Scene, u: Up, p: Host, red: nat)
    requires red != c.red && Sparse(u, p)
    ensures UpIdle(c, u, UpSurge(u, p, red), p, [])
    decreases u
  {
    OthersOf(UpAddrs(u.kids), p);
    forall i | 0 <= i < |u.kids|
      ensures UpIdle(c, u.kids[i], UpSurges(u.kids, u.val.addr, red)[i], u.val.addr, [])
    {
      UpSurgeIdle(c, u.kids[i], u.val.addr, red);
    }
  }

  /** For every receiver there is a state in which nothing has happened yet. */
  lemma {:induction false} IdleExists(c: Scene, t: Net, ups: seq<Up>, red: nat) returns (w: Surge)
    requires red != c.red && AllSparse(ups, t.val.node.addr)
    ensures ReceiverIdle(c, t, ups, w, [])
  {
    var p := t.val.node.addr;
    w := Tree(SiteOf(t.val.node, Addrs(t.kids) + UpAddrs(ups), red), DownSurges(t.kids, p, red) + UpSurges(ups, p, red));
    forall i | 0 <= i < |t.kids|
      ensures DownIdle(c, t.kids[i], w.kids[i], p, [])
    {
      DownSurgeIdle(c, t.kids[i], p, red);
    }
    forall i | 0 <= i < |ups|
      ensures UpIdle(c, ups[i], w.kids[|t.kids| + i], p, [])
    {
      UpSurgeIdle(c, ups[i], p, red);
    }
  }

  lemma {:induction false} UpOfSparse(t: Net, p: Host)
    requires Inv(t) && 1 <= t.val.node.maskIni && t.val.node.addr == Flip(p, t.val.node.maskIni - 1)
    ensures Sparse(UpOf(t), p)
  {
    var n := t.val.node;
    forall i | 0 <= i < |t.kids|
      ensures UpAddrs(UpsOf(t.kids))[i] != p && Sparse(UpOf(t.kids[i]), n.addr)
    {
      var k := t.kids[i];
      assert k in t.kids;
      KidInv(t, k);
      UpOfSparse(k, n.addr);
      var j := k.val.node.maskIni - 1;
      assert j != n.maskIni - 1 && p[j] == n.addr[j] && Flip(n.addr, j)[j] != n.addr[j];
    }
  }

  lemma {:induction false} AboveSparse(t: Net, i: nat, at: nat, parent: seq<Up>)
    requires Inv(t) && i < |t.kids| && ParentOk(parent, t)
    requires AllSparse(parent, t.val.node.addr)
    ensures Sparse(FromBelow(t, i, at, parent), t.kids[i].val.node.addr)
  {
    var us := UpsOf(Without(t.kids, i));
    OthersSparse(t, i);
    if parent != [] {
      ParentApart(t, i, parent);
    }
    SparseInserted(FromBelow(t, i, at, parent), us, if at <= |us| then at else |us|, parent, t.kids[i].val.node.addr);
  }

  lemma {:induction false} OthersSparse(t: Net, i: nat)
    requires Inv(t) && i < |t.kids|
    ensures var us := UpsOf(Without(t.kids, i));
            AllSparse(us, t.val.node.addr) && forall j | 0 <= j < |us| :: us[j].val.addr != t.kids[i].val.node.addr
  {
    var us := UpsOf(Without(t.kids, i));
    forall j | 0 <= j < |us|
      ensures us[j].val.addr != t.kids[i].val.node.addr && Sparse(us[j], t.val.node.addr)
    {
      var x := if j < i then j else j + 1;
      assert Without(t.kids, i)[j] == t.kids[x];
      OtherSparse(t, i, x);
    }
  }

  lemma {:induction false} OtherSparse(t: Net, i: nat, x: nat)
    requires Inv(t) && i < |t.kids| && x < |t.kids| && i != x
    ensures t.kids[x].val.node.addr != t.kids[i].val.node.addr && Sparse(UpOf(t.kids[x]), t.val.node.addr)
  {
    var k := t.kids[x];
    assert k in t.kids;
    KidInv(t, k);
    assert Child(t.val.node, Init(k.val.node));
    UpOfSparse(k, t.val.node.addr);
    KidsDistinct(t, if x < i then x else i, if x < i then i else x);
    assert Addrs(t.kids)[x] == k.val.node.addr && Addrs(t.kids)[i] == t.kids[i].val.node.addr;
  }

  lemma {:induction false} SparseInserted(u: Up, us: seq<Up>, p: nat, one: seq<Up>, a: Host)
    requires p <= |us| && |one| <= 1 && u.kids == us[..p] + one + us[p..]
    requires AllSparse(us, u.val.addr) && forall i | 0 <= i < |us| :: us[i].val.addr != a
    requires AllSparse(one, u.val.addr) && forall i | 0 <= i < |one| :: one[i].val.addr != a
    ensures Sparse(u, a)
  {
    forall i | 0 <= i < |u.kids|
      ensures u.kids[i].val.addr != a && Sparse(u.kids[i], u.val.addr)
    {
      assert u.kids[i] == if i < p then us[i] else if i < p + |one| then one[i - p] else us[i - |one|];
    }
  }

  lemma {:induction false} RerootSparse(t: Net, path: seq<nat>, at: seq<nat>, parent: seq<Up>)
    requires Inv(t) && Shallow(t) && OnPath(t, path) && |at| == |path| && ParentOk(parent, t)
    requires AllSparse(parent, t.val.node.addr)
    ensures var r := Reroot(t, path, at, parent);
            AllSparse(r.1, r.0.val.node.addr)
    decreases path
  {
    if path != [] {
      var i := path[0];
      assert t.kids[i] in t.kids;
      PlainKid(t, i);
      ShallowPlain(t);
      KidInv(t, t.kids[i]);
      AboveOk(t, i, at[0], parent);
      AboveSparse(t, i, at[0], parent);
      KidOfAbove(t, i, at[0], parent);
      RerootSparse(t.kids[i], path[1..], at[1..], [FromBelow(t, i, at[0], parent)]);
    }
  }

  /** Every network, seen from any of its daemons, has a state from which a merge with another one starts. */
  lemma {:induction false} MergeCanStart(t: Net, path: seq<nat>, at: seq<nat>, c: Scene, red: nat) returns (w: Surge)
    requires Inv(t) && Shallow(t) && t.val.node.maskIni == 0 && OnPath(t, path) && |at| == |path| && red != c.red
    ensures var r := Reroot(t, path, at, []);
            ReceiverIdle(c, r.0, r.1, w, [])
  {
    RerootSparse(t, path, at, []);
    var r := Reroot(t, path, at, []);
    w := IdleExists(c, r.0, r.1, red);
  }
}
