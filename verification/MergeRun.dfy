/** The MAR/MAN flood over the receiver's whole network, for every order of deliveries. */
module MergeRun {
  import opened Wrappers
  import opened Hypercube
  import opened Allocation
  import opened AllocationRun
  import opened Relabelling
  import opened MergeNode
  import opened MergeTree
  import opened MergeFlood
  import opened MergeReact

  /** A daemon, the packets on their way to it, how many MARs it has accepted, and how often it has
      changed its address. */
  datatype Site = Site(member: Merger, inbox: seq<Packet>, heard: nat, moves: nat)

  /** The network seen from the proposer: every daemon's MAR comes from above. */
  type Surge = Tree<Site>

  /** Packets reach the neighbour that has their destination address. */
  function Arrive(ws: seq<Surge>, mars: seq<Packet>): (r: seq<Surge>)
    ensures |r| == |ws|
    ensures forall i | 0 <= i < |ws| ::
              r[i] == ws[i].(val := ws[i].val.(inbox := ws[i].val.inbox + Select(mars, ws[i].val.member.node.addr)))
  {
    if ws == [] then []
    else
      [ws[0].(val := ws[0].val.(inbox := ws[0].val.inbox + Select(mars, ws[0].val.member.node.addr)))]
      + Arrive(ws[1..], mars)
  }

  /** Whether the packet makes the daemon take its new address. */
  predicate Moves(m: Merger, p: Packet, mars: seq<Packet>, man: Option<Packet>) {
    (man.Some? && mars == []) || (p.kind in {MAN1, MAN2} && Accepted(m, p) && m.busy)
  }

  /** The daemon at the top processes packet i of its inbox. */
  function Take(root: Host, w: Surge, i: nat): (Surge, Option<Packet>)
    requires i < |w.val.inbox|
  {
    var s, p := w.val, w.val.inbox[i];
    var (m, mars, man) := Process(root, s.member, p);
    (Tree(Site(m, Without(s.inbox, i), s.heard + (if man.Some? then 1 else 0),
               s.moves + if Moves(s.member, p, mars, man) then 1 else 0),
          Arrive(w.kids, mars)),
     man)
  }

  /** The answer reaches the daemon above if that still has the address to which it was sent. */
  function Answer(s: Site, man: Option<Packet>): Site {
    if man.Some? && man.value.dst == s.member.node.addr then s.(inbox := s.inbox + [man.value]) else s
  }

  predicate Ready(w: Surge, path: seq<nat>, i: nat)
    decreases path
  {
    if path == [] then i < |w.val.inbox|
    else path[0] < |w.kids| && Ready(w.kids[path[0]], path[1..], i)
  }

  /** The daemon that the path leads to processes packet i of its inbox. */
  function Advance(root: Host, w: Surge, path: seq<nat>, i: nat): (Surge, Option<Packet>)
    requires Ready(w, path, i)
    decreases path
  {
    if path == [] then Take(root, w, i)
    else
      var (k, man) := Advance(root, w.kids[path[0]], path[1..], i);
      (Tree(Answer(w.val, man), w.kids[path[0] := k]), None)
  }

  // ----- How far the flood has come -----

  predicate Idle(c: Scene, s: Site, inbox: seq<Packet>) {
    s.member.red != c.red && !s.member.busy && s.inbox == inbox && s.heard == 0 && s.moves == 0
  }

  /** A subtree below the receiver that no MAR has entered yet. */
  predicate DownIdle(c: Scene, t: Net, w: Surge, p: Host, inbox: seq<Packet>)
    decreases t
  {
    && Idle(c, w.val, inbox) && Links(t, w.val.member, multiset{p})
    && |w.kids| == |t.kids|
    && forall i | 0 <= i < |t.kids| :: DownIdle(c, t.kids[i], w.kids[i], t.val.node.addr, [])
  }

  predicate UpIdle(c: Scene, u: Up, w: Surge, p: Host, inbox: seq<Packet>)
    decreases u
  {
    && Idle(c, w.val, inbox) && UpLinks(u, w.val.member, p)
    && |w.kids| == |u.kids|
    && forall i | 0 <= i < |u.kids| :: UpIdle(c, u.kids[i], w.kids[i], u.val.addr, [])
  }

  predicate ReceiverIdle(c: Scene, t: Net, ups: seq<Up>, w: Surge, inbox: seq<Packet>) {
    && Idle(c, w.val, inbox) && Links(t, w.val.member, multiset(UpAddrs(ups)))
    && KidsIdle(c, t, ups, w.kids)
  }

  predicate KidsIdle(c: Scene, t: Net, ups: seq<Up>, ws: seq<Surge>) {
    && |ws| == |t.kids| + |ups|
    && (forall i | 0 <= i < |t.kids| :: DownIdle(c, t.kids[i], ws[i], t.val.node.addr, []))
    && (forall i | 0 <= i < |ups| :: UpIdle(c, ups[i], ws[|t.kids| + i], t.val.node.addr, []))
  }

  function CountHeard(ws: seq<Surge>): (n: nat)
    ensures n <= |ws|
  {
    if ws == [] then 0 else (if ws[0].val.heard == 0 then 0 else 1) + CountHeard(ws[1..])
  }

  /** A waiting daemon still has the answers of all neighbours that have heard. */
  predicate Owed(s: Site, ws: seq<Surge>) {
    ws != [] && CountHeard(ws) <= |s.inbox|
  }

  /** The labels of a daemon that has moved; a MAN2 that came first has wiped the recovered list. */
  predicate SettledAs(c: Scene, n: Node, splits: nat, x: Node)
    requires NodeAbove(c.mf, n)
  {
    x == Settled(G(c), n, splits) || (splits > 0 && x == Settled(G(c), n, splits).(rcvd := []))
  }

  /** The answers on their way to the receiver or to a daemon below it. */
  predicate Answers(c: Scene, n: Node, splits: nat, ps: seq<Packet>) {
    forall i | 0 <= i < |ps| :: IsMan1(c, ps[i]) || (splits > 0 && IsMan2(c.red, To(G(c), n.addr), ps[i]))
  }

  predicate DownSite(c: Scene, n: Node, splits: nat, s: Site, ws: seq<Surge>) {
    && NodeAbove(c.mf, n)
    && s.heard == 1 && s.member.red == c.red && s.member.mf == c.mf
    && Answers(c, n, splits, s.inbox)
    && (if s.member.busy then s.moves == 0 && s.member.node == Halfway(G(c), n, splits) && Owed(s, ws)
        else s.moves == 1 && SettledAs(c, n, splits, s.member.node))
  }

  /** The receiver, or a daemon below it, has accepted its MAR1. */
  predicate DownDone(c: Scene, t: Net, ups: seq<Up>, w: Surge)
    decreases t, 1
  {
    && DownSite(c, t.val.node, |ups|, w.val, w.kids)
    && KidsStage(c, t, w.kids)
    && UpsStage(c, t.val.node, ups, w.kids, |t.kids|)
  }

  predicate KidsStage(c: Scene, t: Net, ws: seq<Surge>)
    decreases t, 0
  {
    |ws| >= |t.kids| && forall i | 0 <= i < |t.kids| :: DownStage(c, t.kids[i], ws[i], t.val.node.addr)
  }

  predicate UpsStage(c: Scene, n: Node, ups: seq<Up>, ws: seq<Surge>, start: nat) {
    && |ws| == start + |ups|
    && forall i | 0 <= i < |ups| ::
         UpStage(c, ups[i], ws[start + i], n.addr, To(G(c), n.addr), FirstGrant(c, n) + i)
  }

  /** The mask of the first buddy that the receiver splits off its new space. */
  function FirstGrant(c: Scene, n: Node): nat {
    if NodeAbove(c.mf, n) then n.mask - c.mf + c.s + 2 else 0
  }

  predicate DownStage(c: Scene, t: Net, w: Surge, p: Host)
    decreases t, 2
  {
    DownIdle(c, t, w, p, [Mar1For(c, p, t.val.node.addr)]) || DownDone(c, t, [], w)
  }

  predicate UpSite(c: Scene, u: Up, addr: Host, k: nat, s: Site, ws: seq<Surge>) {
    && s.heard == 1 && s.member.red == c.red
    && (forall i | 0 <= i < |s.inbox| :: IsMan2(c.red, addr, s.inbox[i]))
    && (if s.member.busy then s.moves == 0 && s.member.node == UpHalfway(u.val, k, |u.kids|) && Owed(s, ws)
        else s.moves == 1 && s.member.node == UpSettled(u.val, addr, k, |u.kids|))
  }

  /** A daemon above the receiver has accepted its MAR2 and owns, or will own, (addr, k). */
  predicate UpDone(c: Scene, u: Up, w: Surge, addr: Host, k: nat)
    decreases u, 0
  {
    && UpSite(c, u, addr, k, w.val, w.kids)
    && |w.kids| == |u.kids|
    && forall i | 0 <= i < |u.kids| :: UpStage(c, u.kids[i], w.kids[i], u.val.addr, addr, k + i + 1)
  }

  predicate UpStage(c: Scene, u: Up, w: Surge, p: Host, a: Host, k: nat)
    decreases u, 1
  {
    k >= 1 && (UpIdle(c, u, w, p, [Mar2For(c.red, p, a, k, u.val.addr)]) || UpDone(c, u, w, SetBit(a, k - 1), k))
  }

  // ----- Packets still due -----

  /** Answers on their way and, for each daemon that has not heard, its MAR and its answer. */
  function Owing(w: Surge): nat
    decreases w, 0
  {
    |w.val.inbox| + OwingAll(w.kids)
  }

  function OwingAll(ws: seq<Surge>): nat
    decreases ws, 0
  {
    if ws == [] then 0 else OwingKid(ws[0]) + OwingAll(ws[1..])
  }

  function OwingKid(w: Surge): nat
    decreases w, 1
  {
    if w.val.heard == 0 then 2 + OwingAll(w.kids) else Owing(w)
  }

  lemma {:induction false} ArriveOwing(ws: seq<Surge>, mars: seq<Packet>)
    requires forall i | 0 <= i < |ws| :: ws[i].val.heard == 0
    ensures OwingAll(Arrive(ws, mars)) == OwingAll(ws)
    ensures CountHeard(Arrive(ws, mars)) == 0
  {
    if ws != [] {
      assert ws[0].val.heard == 0;
      ArriveOwing(ws[1..], mars);
      assert Arrive(ws, mars)[1..] == Arrive(ws[1..], mars);
    }
  }

  lemma {:induction false} ReplaceOwing(ws: seq<Surge>, i: nat, k: Surge)
    requires i < |ws|
    ensures OwingAll(ws[i := k]) + OwingKid(ws[i]) == OwingAll(ws) + OwingKid(k)
    ensures CountHeard(ws[i := k]) + (if ws[i].val.heard == 0 then 0 else 1) ==
            CountHeard(ws) + if k.val.heard == 0 then 0 else 1
  {
    if i == 0 {
      assert ws[i := k][1..] == ws[1..];
    } else {
      ReplaceOwing(ws[1..], i - 1, k);
      assert ws[i := k][1..] == ws[1..][i - 1 := k];
    }
  }

  /** Nothing can happen in a subtree that no MAR has entered. */
  lemma {:induction false} DownQuiet(c: Scene, t: Net, w: Surge, p: Host, inbox: seq<Packet>, path: seq<nat>, i: nat)
    requires DownIdle(c, t, w, p, inbox) && (path == [] ==> inbox == [])
    ensures !Ready(w, path, i)
    decreases path
  {
    if path != [] && path[0] < |w.kids| {
      DownQuiet(c, t.kids[path[0]], w.kids[path[0]], t.val.node.addr, [], path[1..], i);
    }
  }

  lemma {:induction false} UpQuiet(c: Scene, u: Up, w: Surge, p: Host, inbox: seq<Packet>, path: seq<nat>, i: nat)
    requires UpIdle(c, u, w, p, inbox) && (path == [] ==> inbox == [])
    ensures !Ready(w, path, i)
    decreases path
  {
    if path != [] && path[0] < |w.kids| {
      UpQuiet(c, u.kids[path[0]], w.kids[path[0]], u.val.addr, [], path[1..], i);
    }
  }
}
