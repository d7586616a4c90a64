/** The FAR/FAN flood over a whole detached subtree, for every order of deliveries. */
module FragmentationRun {
  import opened Wrappers
  import opened Hypercube
  import opened Allocation
  import opened AllocationRun
  import opened Relabelling
  import opened RelabelledTree
  import opened RelabelFit
  import opened FragmentationFlood

  /** A daemon, the FAR packets and the number of FAN packets on their way to it, and how many FAR packets
      it has processed. */
  datatype Spot = Spot(member: Member, inbox: seq<Far>, fans: nat, heard: nat)

  type Wave = Tree<Spot>

  function Copies<M>(k: nat, m: M): (s: seq<M>)
    ensures |s| == k && forall i | 0 <= i < k :: s[i] == m
  {
    seq(k, _ => m)
  }

  /** A packet arrives at the child that has its destination address. */
  function Receive(w: Wave, out: Sends<Far>): Wave {
    w.(val := w.val.(inbox := w.val.inbox + Copies(multiset(out.dsts)[w.val.member.node.addr], out.msg)))
  }

  function Deliver(ws: seq<Wave>, out: Sends<Far>): (r: seq<Wave>)
    ensures |r| == |ws| && forall i | 0 <= i < |ws| :: r[i] == Receive(ws[i], out)
  {
    if ws == [] then [] else [Receive(ws[0], out)] + Deliver(ws[1..], out)
  }

  datatype Event = Hear(i: nat) | Ack

  predicate LocalEnabled(s: Spot, ev: Event) {
    match ev
    case Hear(i) => i < |s.inbox| && NodeAbove(s.inbox[i].mask, s.member.node)
    case Ack => s.fans > 0
  }

  predicate Enabled(w: Wave, path: seq<nat>, ev: Event)
    decreases path
  {
    if path == [] then LocalEnabled(w.val, ev)
    else path[0] < |w.kids| && Enabled(w.kids[path[0]], path[1..], ev)
  }

  function HearStep(w: Wave, i: nat): Wave
    requires LocalEnabled(w.val, Hear(i))
  {
    var (m, out) := Heard(w.val.member, w.val.inbox[i]);
    Tree(Spot(m, Without(w.val.inbox, i), w.val.fans, w.val.heard + 1), Deliver(w.kids, out))
  }

  function AckStep(w: Wave): Wave
    requires w.val.fans > 0
  {
    w.(val := w.val.(member := w.val.member.(busy := false), fans := w.val.fans - 1))
  }

  function Local(w: Wave, ev: Event): Wave
    requires LocalEnabled(w.val, ev)
  {
    match ev
    case Hear(i) => HearStep(w, i)
    case Ack => AckStep(w)
  }

  /** The FAN of a child arrives if the parent still has the address it was sent to. */
  function Acked(s: Spot, to: Host): Spot {
    s.(fans := s.fans + if s.member.node.addr == to then 1 else 0)
  }

  function Answered(s: Spot, k: Wave, path: seq<nat>, ev: Event): Spot
    requires Enabled(k, path, ev)
  {
    if path == [] && ev.Hear? then Acked(s, k.val.inbox[ev.i].prim) else s
  }

  function Apply(w: Wave, path: seq<nat>, ev: Event): Wave
    requires Enabled(w, path, ev)
    decreases path
  {
    if path == [] then Local(w, ev)
    else
      var k := w.kids[path[0]];
      Tree(Answered(w.val, k, path[1..], ev), w.kids[path[0] := Apply(k, path[1..], ev)])
  }

  // ----- How far the flood has come -----

  function Addrs(ts: seq<Net>): (r: seq<Host>)
    ensures |r| == |ts| && forall i | 0 <= i < |ts| :: r[i] == ts[i].val.node.addr
  {
    if ts == [] then [] else [ts[0].val.node.addr] + Addrs(ts[1..])
  }

  /** Nothing has reached this subtree; every daemon's neighbours are its parent and its children. */
  predicate Fresh(t: Net, w: Wave, parent: Host)
    decreases t, 1
  {
    FreshSpot(t, w.val, parent) && w.val.inbox == [] && FreshKids(t, w)
  }

  predicate FreshSpot(t: Net, s: Spot, parent: Host) {
    && s.member.node == t.val.node
    && multiset(s.member.table) == multiset(Addrs(t.kids)) + multiset{parent}
    && s.fans == 0 && s.heard == 0
  }

  predicate FreshKids(t: Net, w: Wave)
    decreases t, 0
  {
    && |w.kids| == |t.kids|
    && forall i | 0 <= i < |t.kids| :: Fresh(t.kids[i], w.kids[i], t.val.node.addr)
  }

  function FarFrom(parent: Host, m0: nat, red: nat): Far {
    Far(parent, To(Detach(m0), parent), m0, red)
  }

  /** One FAR is on its way to this subtree's top. */
  predicate Told(t: Net, w: Wave, parent: Host, m0: nat, red: nat) {
    FreshSpot(t, w.val, parent) && w.val.inbox == [FarFrom(parent, m0, red)] && FreshKids(t, w)
  }

  function CountTold(ws: seq<Wave>): (n: nat)
    ensures n <= |ws|
  {
    if ws == [] then 0 else (if ws[0].val.heard == 0 then 1 else 0) + CountTold(ws[1..])
  }

  /** The top is relabelled, and each child is relabelled or has exactly one FAR coming. The daemon waits
      for a FAN exactly as long as none of its children's has been processed. */
  predicate Done(t: Net, w: Wave, m0: nat, red: nat)
    decreases t, 1
  {
    DoneSpot(t, w, m0, red) && DoneKids(t, w, m0, red)
  }

  predicate DoneSpot(t: Net, w: Wave, m0: nat, red: nat) {
    var s := w.val;
    && NodeAbove(m0, t.val.node)
    && s.member.node == ToNode(Detach(m0), t.val.node)
    && s.member.red == red
    && s.inbox == []
    && s.fans + CountTold(w.kids) <= |w.kids|
    && (w.kids != [] ==> (s.member.busy <==> s.fans + CountTold(w.kids) == |w.kids|))
  }

  predicate DoneKids(t: Net, w: Wave, m0: nat, red: nat)
    decreases t, 0
  {
    && |w.kids| == |t.kids|
    && forall i | 0 <= i < |t.kids| :: DoneKid(t.kids[i], w.kids[i], t.val.node.addr, m0, red)
  }

  predicate DoneKid(t: Net, w: Wave, parent: Host, m0: nat, red: nat)
    decreases t, 2
  {
    || Told(t, w, parent, m0, red)
    || (w.val.heard == 1 && (w.kids == [] ==> !w.val.member.busy) && w.val.member.table == Left(t.val.node, parent, m0)
        && Done(t, w, m0, red))
  }

  /** The neighbours that a daemon lists when it has relabelled itself; parent is its parent's old address. A daemon that
      never split its space skips the loop and keeps both addresses of its parent, any other one the new address
      only, and not even that one if it is the old one. */
  function Left(n: Node, parent: Host, m0: nat): seq<Host> {
    var now := To(Detach(m0), parent);
    if n.mask == n.maskIni then [parent, now] else if now == parent then [] else [now]
  }

  /** Packets still to be processed: the FANs in flight and, for each daemon that has not heard a FAR, that
      FAR and the FAN it will cause. */
  function Due(w: Wave): nat
    decreases w, 0
  {
    w.val.fans + DueAll(w.kids)
  }

  function DueAll(ws: seq<Wave>): nat
    decreases ws, 0
  {
    if ws == [] then 0 else DueKid(ws[0]) + DueAll(ws[1..])
  }

  function DueKid(w: Wave): nat
    decreases w, 1
  {
    (if w.val.heard == 0 then 2 else 0) + Due(w)
  }

  function Size(t: Net): nat {
    1 + SizeAll(t.kids)
  }

  function SizeAll(ts: seq<Net>): nat {
    if ts == [] then 0 else Size(ts[0]) + SizeAll(ts[1..])
  }

  // ----- A FAR is forwarded to the children and to nobody else -----

  /** n is a child of a daemon at address p whose own labels are at least m0 bits long. */
  predicate Below(p: Host, m0: nat, n: Node) {
    && m0 < n.maskIni <= 64
    && n.addr == Flip(p, n.maskIni - 1)
    && forall i | n.maskIni - 1 <= i < 63 :: !p[i]
  }

  lemma {:induction false} TargetsCount(own: Host, far: Far, s: seq<Host>, x: Host)
    ensures multiset(Targets(own, far, s))[x] == if ForwardsTo(own, far, x) then multiset(s)[x] else 0
  {
    if s != [] {
      TargetsCount(own, far, s[1..], x);
      assert s == [s[0]] + s[1..];
    }
  }

  /** No child shares an address with its parent's new self or with its grandparent, old or new. */
  lemma {:induction false} KidIsForwardedTo(t: Net, p: Host, m0: nat, red: nat, i: nat)
    requires Ok(t) && Below(p, m0, t.val.node) && i < |t.kids|
    ensures ForwardsTo(To(Detach(m0), t.val.node.addr), FarFrom(p, m0, red), Addrs(t.kids)[i])
  {
    var n := t.val.node;
    assert t.kids[i] in t.kids;
    var k := t.kids[i].val.node.maskIni - 1;
    assert Addrs(t.kids)[i] == Flip(n.addr, k) && n.maskIni <= k < 64;
    assert Flip(n.addr, k)[k] == (k < 63);
    assert To(Detach(m0), n.addr)[k] == To(Detach(m0), p)[k] == p[k] == (k == 63);
  }

  lemma {:induction false} TargetsAreKids(t: Net, p: Host, m0: nat, red: nat, table: seq<Host>)
    requires Ok(t) && Below(p, m0, t.val.node)
    requires multiset(table) == multiset(Addrs(t.kids)) + multiset{p}
    ensures multiset(Targets(To(Detach(m0), t.val.node.addr), FarFrom(p, m0, red), table + [To(Detach(m0), p)])) ==
            multiset(Addrs(t.kids))
  {
    var own, far, all := To(Detach(m0), t.val.node.addr), FarFrom(p, m0, red), table + [To(Detach(m0), p)];
    var kids: seq<Host> := Addrs(t.kids);
    assert multiset(all) == multiset(kids) + multiset{p} + multiset{To(Detach(m0), p)};
    forall x: Host
      ensures multiset(Targets(own, far, all))[x] == multiset(kids)[x]
    {
      TargetsCount(own, far, all, x);
      AddrIsForwardedTo(t, p, m0, red, x);
    }
  }

  lemma {:induction false} AddrIsForwardedTo(t: Net, p: Host, m0: nat, red: nat, x: Host)
    requires Ok(t) && Below(p, m0, t.val.node)
    ensures x in Addrs(t.kids) ==> ForwardsTo(To(Detach(m0), t.val.node.addr), FarFrom(p, m0, red), x)
  {
    var kids := Addrs(t.kids);
    if x in kids {
      var i :| 0 <= i < |kids| && kids[i] == x;
      KidIsForwardedTo(t, p, m0, red, i);
    }
  }

  lemma {:induction false} KeptCount(own: Host, far: Far, s: seq<Host>, x: Host)
    ensures multiset(Kept(own, far, s))[x] == if !ForwardsTo(own, far, x) && x != far.src then multiset(s)[x] else 0
  {
    if s != [] {
      KeptCount(own, far, s[1..], x);
      assert s == [s[0]] + s[1..];
    }
  }

  /** For any table: a daemon that has split its space forwards a FAR to every neighbour once for each entry, except to the
      sender's old and new address and to its own new address; it keeps the last two, and nobody else. Another daemon
      forwards it to nobody and adds the sender's new address to its table. */
  lemma {:induction false} HeardExactly(m: Member, far: Far, x: Host)
    requires NodeAbove(far.mask, m.node)
    ensures var (r, out) := Heard(m, far);
            var all := multiset(m.table + [far.prim])[x];
            if m.node.mask == m.node.maskIni then out.dsts == [] && r.table == m.table + [far.prim]
            else
              && multiset(out.dsts)[x] == (if x == far.src || x == far.prim || x == r.node.addr then 0 else all)
              && multiset(r.table)[x] == (if x != far.src && (x == far.prim || x == r.node.addr) then all else 0)
  {
    var own, all := Heard(m, far).0.node.addr, m.table + [far.prim];
    KeptCount(own, far, all, x);
    TargetsCount(own, far, all, x);
  }

  lemma {:induction false} OnlyOne(s: seq<Host>, x: Host)
    requires multiset(s) == multiset{x}
    ensures s == [x]
  {
    assert |multiset(s)| == 1;
    assert s[0] in multiset(s);
  }

  /** Of the children, the sender's old address and its new one, the loop keeps the last unless it is the old one. */
  lemma {:induction false} SenderIsKept(own: Host, far: Far, kids: seq<Host>, all: seq<Host>)
    requires forall i | 0 <= i < |kids| :: ForwardsTo(own, far, kids[i])
    requires multiset(all) == multiset(kids) + multiset{far.src} + multiset{far.prim}
    ensures Kept(own, far, all) == if far.prim == far.src then [] else [far.prim]
  {
    var kept: seq<Host> := Kept(own, far, all);
    forall x: Host
      ensures multiset(kept)[x] == if x == far.prim && far.prim != far.src then 1 else 0
    {
      KeptCount(own, far, all, x);
      if x in kids {
        var i :| 0 <= i < |kids| && kids[i] == x;
      }
    }
    OneOrNone(kept, far.prim, far.prim != far.src);
  }

  lemma {:induction false} OneOrNone(s: seq<Host>, x: Host, one: bool)
    requires forall y: Host :: multiset(s)[y] == if y == x && one then 1 else 0
    ensures s == if one then [x] else []
  {
    if one {
      assert multiset(s) == multiset{x};
      OnlyOne(s, x);
    } else {
      assert multiset(s) == multiset{};
    }
  }

  /** The loop keeps the parent under its new address and nobody else. */
  lemma {:induction false} ParentIsKept(t: Net, p: Host, m0: nat, red: nat, table: seq<Host>)
    requires Ok(t) && Below(p, m0, t.val.node)
    requires multiset(table) == multiset(Addrs(t.kids)) + multiset{p}
    ensures var now := To(Detach(m0), p);
            Kept(To(Detach(m0), t.val.node.addr), FarFrom(p, m0, red), table + [now]) == if now == p then [] else [now]
  {
    var own, far, kids := To(Detach(m0), t.val.node.addr), FarFrom(p, m0, red), Addrs(t.kids);
    forall i | 0 <= i < |kids|
      ensures ForwardsTo(own, far, kids[i])
    {
      KidIsForwardedTo(t, p, m0, red, i);
    }
    SenderIsKept(own, far, kids, table + [far.prim]);
  }

  lemma {:induction false} TableLeft(t: Net, p: Host, m0: nat, red: nat, table: seq<Host>)
    requires Inv(t) && Below(p, m0, t.val.node)
    requires multiset(table) == multiset(Addrs(t.kids)) + multiset{p}
    ensures var own, all := To(Detach(m0), t.val.node.addr), table + [To(Detach(m0), p)];
            Left(t.val.node, p, m0) ==
            if t.val.node.mask != t.val.node.maskIni then Kept(own, FarFrom(p, m0, red), all) else all
  {
    if t.val.node.mask != t.val.node.maskIni {
      ParentIsKept(t, p, m0, red, table);
    } else {
      if t.kids != [] {
        ParentHasSplit(t);
      }
      assert multiset(table) == multiset{p};
      OnlyOne(table, p);
    }
  }

  /** Two children never have the same address, and a daemon with children has split its space. */
  lemma {:induction false} KidsDistinct(t: Net, i: nat, j: nat)
    requires Inv(t) && i < j < |t.kids|
    ensures Addrs(t.kids)[i] != Addrs(t.kids)[j]
  {
    var e, f := Inits(t.kids)[i], Inits(t.kids)[j];
    KidsOnce(t, e.addr);
    assert Covers(e, e.addr) && Covers(f, f.addr);
    SumTwo(At(e.addr), Inits(t.kids), i, j);
  }

  /** No address is given to two children. */
  lemma {:induction false} KidsOnce(t: Net, a: Host)
    requires Inv(t)
    ensures Sum(At(a), Inits(t.kids)) <= 1
  {
    assert Balanced(At(a), t);
  }

  lemma {:induction false} ParentHasSplit(t: Net)
    requires Inv(t) && t.kids != []
    ensures t.val.node.mask != t.val.node.maskIni
  {
    var e := Inits(t.kids)[0];
    assert t.kids[0] in t.kids;
    assert Balanced(At(e.addr), t);
    assert Covers(e, e.addr);
    SumMember(At(e.addr), Inits(t.kids), 0);
  }

  lemma {:induction false} KidCount(t: Net, i: nat)
    requires Inv(t) && i < |t.kids|
    ensures multiset(Addrs(t.kids))[Addrs(t.kids)[i]] == 1
  {
    var s := Addrs(t.kids);
    assert s == s[..i] + [s[i]] + s[i + 1..];
    forall j | 0 <= j < |s| && j != i
      ensures s[j] != s[i]
    {
      KidsDistinct(t, if i < j then i else j, if i < j then j else i);
    }
    assert s[i] !in s[..i] && s[i] !in s[i + 1..];
  }

  /** A packet sent to exactly the children puts one copy in each child's inbox. */
  lemma {:induction false} DeliveredOnce(t: Net, w: Wave, out: Sends<Far>, m0: nat, red: nat)
    requires Inv(t) && FreshKids(t, w)
    requires multiset(out.dsts) == multiset(Addrs(t.kids)) && out.msg == FarFrom(t.val.node.addr, m0, red)
    ensures |Deliver(w.kids, out)| == |t.kids|
    ensures forall i | 0 <= i < |t.kids| :: Told(t.kids[i], Deliver(w.kids, out)[i], t.val.node.addr, m0, red)
  {
    forall i | 0 <= i < |t.kids|
      ensures Told(t.kids[i], Receive(w.kids[i], out), t.val.node.addr, m0, red)
    {
      KidCount(t, i);
      assert Fresh(t.kids[i], w.kids[i], t.val.node.addr);
      ReceivedOnce(t.kids[i], w.kids[i], t.val.node.addr, out, m0, red);
    }
  }

  lemma {:induction false} ReceivedOnce(t: Net, w: Wave, p: Host, out: Sends<Far>, m0: nat, red: nat)
    requires Fresh(t, w, p) && multiset(out.dsts)[t.val.node.addr] == 1 && out.msg == FarFrom(p, m0, red)
    ensures Told(t, Receive(w, out), p, m0, red)
  {
    assert Receive(w, out).val.inbox == [out.msg];
  }

  lemma {:induction false} AllTold(ws: seq<Wave>)
    requires forall i | 0 <= i < |ws| :: ws[i].val.heard == 0
    ensures CountTold(ws) == |ws|
  {
    if ws != [] {
      assert ws[0].val.heard == 0;
      AllTold(ws[1..]);
    }
  }

  lemma {:induction false} DeliverDue(ws: seq<Wave>, out: Sends<Far>)
    ensures DueAll(Deliver(ws, out)) == DueAll(ws)
  {
    if ws != [] {
      DeliverDue(ws[1..], out);
      assert Due(Receive(ws[0], out)) == Due(ws[0]);
      assert Deliver(ws, out)[1..] == Deliver(ws[1..], out);
    }
  }

  // ----- One delivery -----

  lemma {:induction false} HearRelabels(t: Net, w: Wave, p: Host, m0: nat, red: nat)
    requires Inv(t) && Below(p, m0, t.val.node) && Told(t, w, p, m0, red)
    ensures LocalEnabled(w.val, Hear(0))
    ensures var r := HearStep(w, 0);
            && DoneKid(t, r, p, m0, red) && r.val.heard == 1
            && Due(r) == Due(w)
  {
    OkAbove(m0, t);
    TargetsAreKids(t, p, m0, red, w.val.member.table);
    if t.kids != [] {
      ParentHasSplit(t);
    }
    HeardTargets(t, w.val.member, p, m0, red);
    TableLeft(t, p, m0, red, w.val.member.table);
    var (m, out) := Heard(w.val.member, FarFrom(p, m0, red));
    assert m.table == Left(t.val.node, p, m0);
    DeliveredOnce(t, w, out, m0, red);
    DeliverDue(w.kids, out);
    HearStepIs(t, w, p, m0, red, m, out);
    NowDone(t, m, Deliver(w.kids, out), m0, red);
  }

  lemma {:induction false} HearStepIs(t: Net, w: Wave, p: Host, m0: nat, red: nat, m: Member, out: Sends<Far>)
    requires NodeAbove(m0, t.val.node) && Told(t, w, p, m0, red)
    requires (m, out) == Heard(w.val.member, FarFrom(p, m0, red))
    ensures HearStep(w, 0) == Tree(Spot(m, [], 0, 1), Deliver(w.kids, out))
    ensures Due(HearStep(w, 0)) == DueAll(Deliver(w.kids, out))
    ensures Due(w) == DueAll(w.kids)
  {
    assert w.val.heard == 0 && w.val.fans == 0 && w.val.inbox == [FarFrom(p, m0, red)];
    HeardSpot(w, FarFrom(p, m0, red));
  }

  lemma {:induction false} HeardSpot(w: Wave, far: Far)
    requires w.val.heard == 0 && w.val.fans == 0 && w.val.inbox == [far] && NodeAbove(far.mask, w.val.member.node)
    ensures var (m, out) := Heard(w.val.member, far); HearStep(w, 0) == Tree(Spot(m, [], 0, 1), Deliver(w.kids, out))
  {
    assert Without(w.val.inbox, 0) == [];
  }

  /** A daemon that has just relabelled itself and told all its children. */
  lemma {:induction false} NowDone(t: Net, m: Member, ks: seq<Wave>, m0: nat, red: nat)
    requires NodeAbove(m0, t.val.node) && m.node == ToNode(Detach(m0), t.val.node) && m.red == red
    requires m.busy <==> t.kids != []
    requires |ks| == |t.kids|
    requires forall i | 0 <= i < |t.kids| :: Told(t.kids[i], ks[i], t.val.node.addr, m0, red)
    ensures Done(t, Tree(Spot(m, [], 0, 1), ks), m0, red)
    ensures CountTold(ks) == |ks|
  {
    forall i | 0 <= i < |ks| ensures ks[i].val.heard == 0 {
      assert Told(t.kids[i], ks[i], t.val.node.addr, m0, red);
    }
    AllTold(ks);
  }

  lemma {:induction false} HeardTargets(t: Net, m: Member, p: Host, m0: nat, red: nat)
    requires NodeAbove(m0, t.val.node) && m.node == t.val.node
    requires t.kids != [] ==> m.node.mask != m.node.maskIni
    requires var all := Targets(To(Detach(m0), m.node.addr), FarFrom(p, m0, red), m.table + [To(Detach(m0), p)]);
             multiset(all) == multiset(Addrs(t.kids))
    ensures var (r, out) := Heard(m, FarFrom(p, m0, red));
            && multiset(out.dsts) == multiset(Addrs(t.kids))
            && out.msg == FarFrom(t.val.node.addr, m0, red)
            && r.node == ToNode(Detach(m0), t.val.node) && r.red == red
            && (r.busy <==> t.kids != [])
  {
    var all := Targets(To(Detach(m0), m.node.addr), FarFrom(p, m0, red), m.table + [To(Detach(m0), p)]);
    assert |multiset(all)| == |all| && |multiset(Addrs(t.kids))| == |t.kids|;
    if t.kids == [] {
      assert all == [];
    }
  }

  lemma {:induction false} AckKeepsDone(t: Net, w: Wave, m0: nat, red: nat)
    requires Done(t, w, m0, red) && w.val.fans > 0
    ensures Done(t, AckStep(w), m0, red) && Due(AckStep(w)) + 1 == Due(w)
    ensures w.kids != [] && AckStep(w).val.member.table == w.val.member.table
  {
  }

  lemma {:induction false} FreshQuiet(t: Net, w: Wave, p: Host, path: seq<nat>, ev: Event)
    requires FreshSpot(t, w.val, p) && FreshKids(t, w) && (path == [] ==> w.val.inbox == [])
    ensures !Enabled(w, path, ev)
    decreases path
  {
    if path != [] && path[0] < |w.kids| {
      FreshQuiet(t.kids[path[0]], w.kids[path[0]], t.val.node.addr, path[1..], ev);
    }
  }

  lemma {:induction false} ReplaceDue(ws: seq<Wave>, i: nat, k: Wave)
    requires i < |ws|
    ensures DueAll(ws[i := k]) + DueKid(ws[i]) == DueAll(ws) + DueKid(k)
    ensures CountTold(ws[i := k]) + (if ws[i].val.heard == 0 then 1 else 0) ==
            CountTold(ws) + if k.val.heard == 0 then 1 else 0
  {
    if i == 0 {
      assert ws[i := k][1..] == ws[1..];
    } else {
      ReplaceDue(ws[1..], i - 1, k);
      assert ws[i := k][1..] == ws[1..][i - 1 := k];
    }
  }

  lemma {:induction false} KidBelow(t: Net, m0: nat, i: nat)
    requires Ok(t) && m0 <= t.val.node.maskIni && i < |t.kids|
    ensures Below(t.val.node.addr, m0, t.kids[i].val.node)
  {
    assert t.kids[i] in t.kids;
  }

  /** A child of a relabelled daemon processes its FAR. */
  lemma {:induction false} KidHears(t: Net, w: Wave, m0: nat, red: nat, i: nat)
    requires Inv(t) && m0 <= t.val.node.maskIni && Done(t, w, m0, red) && i < |w.kids| == |t.kids|
    requires Told(t.kids[i], w.kids[i], t.val.node.addr, m0, red)
    ensures Enabled(w, [i], Hear(0))
    ensures var r := Apply(w, [i], Hear(0));
            && Done(t, r, m0, red)
            && Due(r) + 1 == Due(w)
            && r.val.heard == w.val.heard && r.val.member == w.val.member
  {
    var k := w.kids[i];
    KidDeeper(t, i);
    KidBelow(t, m0, i);
    HearRelabels(t.kids[i], w.kids[i], t.val.node.addr, m0, red);
    ApplyKid(w, i, To(Detach(m0), t.val.node.addr));
    KidHeard(t, w, m0, red, i, HearStep(w.kids[i], 0));
  }

  lemma {:induction false} ApplyKid(w: Wave, i: nat, to: Host)
    requires i < |w.kids| && LocalEnabled(w.kids[i].val, Hear(0))
    requires w.kids[i].val.inbox[0].prim == to == w.val.member.node.addr
    ensures Enabled(w, [i], Hear(0))
    ensures Apply(w, [i], Hear(0)) == Tree(w.val.(fans := w.val.fans + 1), w.kids[i := HearStep(w.kids[i], 0)])
  {
    assert [i][1..] == [];
  }

  lemma {:induction false} KidHeard(t: Net, w: Wave, m0: nat, red: nat, i: nat, k: Wave)
    requires Done(t, w, m0, red) && i < |w.kids| == |t.kids|
    requires Told(t.kids[i], w.kids[i], t.val.node.addr, m0, red)
    requires DoneKid(t.kids[i], k, t.val.node.addr, m0, red) && k.val.heard == 1 && Due(k) == Due(w.kids[i])
    ensures var r := Tree(w.val.(fans := w.val.fans + 1), w.kids[i := k]);
            Done(t, r, m0, red) && Due(r) + 1 == Due(w)
  {
    ReplaceDue(w.kids, i, k);
  }

  lemma {:induction false} KidDeeper(t: Net, i: nat)
    requires Inv(t) && i < |t.kids|
    ensures Inv(t.kids[i]) && t.val.node.maskIni < t.kids[i].val.node.maskIni
  {
    KidInv(t, t.kids[i]);
  }

  /** Something happens inside the subtree of a relabelled child. */
  lemma {:induction false} KidGoesOn(t: Net, w: Wave, m0: nat, red: nat, i: nat, k: Wave)
    requires Done(t, w, m0, red) && i < |w.kids| == |t.kids|
    requires w.kids[i].val.heard == 1 && Done(t.kids[i], w.kids[i], m0, red)
    requires DoneKid(t.kids[i], k, t.val.node.addr, m0, red)
    requires k.val.heard == 1 && Due(k) + 1 == Due(w.kids[i])
    ensures var r := Tree(w.val, w.kids[i := k]);
            Done(t, r, m0, red) && Due(r) + 1 == Due(w)
  {
    ReplaceDue(w.kids, i, k);
  }

  /** Every packet that can be delivered keeps the flood on course and brings it one packet nearer its end. */
  lemma {:induction false} ApplyKeepsDone(t: Net, w: Wave, m0: nat, red: nat, path: seq<nat>, ev: Event)
    requires Inv(t) && m0 <= t.val.node.maskIni
    requires Done(t, w, m0, red) && Enabled(w, path, ev)
    ensures var r := Apply(w, path, ev);
            && Done(t, r, m0, red)
            && Due(r) + 1 == Due(w)
            && r.val.heard == w.val.heard
            && |r.kids| == |w.kids|
            && r.val.member.table == w.val.member.table
            && (r.kids == [] ==> r.val.member == w.val.member)
    decreases path
  {
    if path == [] {
      AckKeepsDone(t, w, m0, red);
    } else {
      var i, rest := path[0], path[1..];
      var k := w.kids[i];
      assert DoneKid(t.kids[i], k, t.val.node.addr, m0, red);
      KidDeeper(t, i);
      if Told(t.kids[i], k, t.val.node.addr, m0, red) {
        if rest != [] {
          FreshQuiet(t.kids[i], k, t.val.node.addr, rest, ev);
        }
        assert path == [i] && ev == Hear(0);
        KidHears(t, w, m0, red, i);
      } else {
        ApplyKeepsDone(t.kids[i], k, m0, red, rest, ev);
        KidGoesOn(t, w, m0, red, i, Apply(k, rest, ev));
        DoneNeverHears(t.kids[i], k, m0, red, rest, ev);
      }
    }
  }

  lemma {:induction false} DoneNeverHears(t: Net, w: Wave, m0: nat, red: nat, path: seq<nat>, ev: Event)
    requires Done(t, w, m0, red) && Enabled(w, path, ev)
    ensures path == [] ==> ev == Ack
  {
  }

  // ----- Whole runs -----

  datatype Step = Step(path: seq<nat>, ev: Event)

  predicate Possible(w: Wave, run: seq<Step>)
    decreases run
  {
    run == [] || (Enabled(w, run[0].path, run[0].ev) && Possible(Apply(w, run[0].path, run[0].ev), run[1..]))
  }

  function After(w: Wave, run: seq<Step>): Wave
    requires Possible(w, run)
    decreases run
  {
    if run == [] then w else After(Apply(w, run[0].path, run[0].ev), run[1..])
  }

  /** The subtree before anything happens: its top no longer has its parent among its neighbours. */
  predicate Detached(t: Net, w: Wave) {
    && w.val.member.node == t.val.node
    && multiset(w.val.member.table) == multiset(Addrs(t.kids))
    && w.val.inbox == [] && w.val.fans == 0 && w.val.heard == 0
    && FreshKids(t, w)
  }

  /** fragmentacion at the top. */
  function Break(w: Wave, red: nat): Wave
    requires NodeAbove(w.val.member.node.maskIni, w.val.member.node)
  {
    var (m, out) := Started(w.val.member, red);
    Tree(w.val.(member := m), Deliver(w.kids, out))
  }

  lemma {:induction false} BreakIsDone(t: Net, w: Wave, red: nat)
    requires Inv(t) && NoSecondary(t) && Detached(t, w)
    ensures NodeAbove(t.val.node.maskIni, t.val.node)
    ensures var r := Break(w, red);
            && Done(t, r, t.val.node.maskIni, red)
            && r.val.heard == 0 && Due(r) == DueAll(w.kids)
            && r.val.member.busy && r.val.member.table == [] && |r.kids| == |w.kids|
  {
    var m0 := t.val.node.maskIni;
    OkAbove(m0, t);
    var (m, out) := Started(w.val.member, red);
    DeliveredOnce(t, w, out, m0, red);
    DeliverDue(w.kids, out);
    NowTop(t, m, Deliver(w.kids, out), m0, red);
  }

  lemma {:induction false} NowTop(t: Net, m: Member, ks: seq<Wave>, m0: nat, red: nat)
    requires NodeAbove(m0, t.val.node) && m.node == ToNode(Detach(m0), t.val.node) && m.red == red && m.busy
    requires |ks| == |t.kids|
    requires forall i | 0 <= i < |t.kids| :: Told(t.kids[i], ks[i], t.val.node.addr, m0, red)
    ensures Done(t, Tree(Spot(m, [], 0, 0), ks), m0, red)
  {
    forall i | 0 <= i < |ks| ensures ks[i].val.heard == 0 {
      assert Told(t.kids[i], ks[i], t.val.node.addr, m0, red);
    }
    AllTold(ks);
  }

  lemma {:induction false} FreshDue(t: Net, w: Wave)
    requires FreshKids(t, w)
    ensures DueAll(w.kids) == 2 * SizeAll(t.kids)
    decreases t, 1
  {
    forall i | 0 <= i < |t.kids|
      ensures FreshKids(t.kids[i], w.kids[i]) && w.kids[i].val.fans == 0 && w.kids[i].val.heard == 0
    {
      assert Fresh(t.kids[i], w.kids[i], t.val.node.addr);
    }
    FreshDueAll(t.kids, w.kids);
  }

  lemma {:induction false} FreshDueAll(ts: seq<Net>, ws: seq<Wave>)
    requires |ts| == |ws|
    requires forall i | 0 <= i < |ts| ::
               FreshKids(ts[i], ws[i]) && ws[i].val.fans == 0 && ws[i].val.heard == 0
    ensures DueAll(ws) == 2 * SizeAll(ts)
    decreases ts, 0
  {
    if ts != [] {
      assert FreshKids(ts[0], ws[0]);
      FreshDue(ts[0], ws[0]);
      forall i | 0 <= i < |ts[1..]|
        ensures FreshKids(ts[1..][i], ws[1..][i]) && ws[1..][i].val.fans == 0 && ws[1..][i].val.heard == 0
      {
        assert FreshKids(ts[i + 1], ws[i + 1]);
      }
      FreshDueAll(ts[1..], ws[1..]);
      assert Due(ws[0]) == DueAll(ws[0].kids);
      assert DueKid(ws[0]) == 2 * Size(ts[0]);
    } else {
      assert ws == [];
    }
  }

  /** The flood is over: every daemon carries the labels of the network u, has processed exactly one FAR
      and waits for nothing. */
  predicate Relabelled(u: Net, w: Wave, red: nat) {
    && w.val.member.node == u.val.node && w.val.member.red == red
    && w.val.inbox == [] && w.val.fans == 0
    && |w.kids| == |u.kids|
    && forall i | 0 <= i < |u.kids| ::
         Relabelled(u.kids[i], w.kids[i], red) && w.kids[i].val.heard == 1 && !w.kids[i].val.member.busy
  }

  /** The neighbour tables after the flood, below a daemon. */
  predicate Relisted(t: Net, w: Wave, m0: nat)
    decreases t
  {
    && |w.kids| == |t.kids|
    && forall i | 0 <= i < |t.kids| ::
         w.kids[i].val.member.table == Left(t.kids[i].val.node, t.val.node.addr, m0) && Relisted(t.kids[i], w.kids[i], m0)
  }

  lemma {:induction false} NothingDue(t: Net, w: Wave, m0: nat, red: nat)
    requires Done(t, w, m0, red) && Due(w) == 0 && Above(m0, t)
    ensures Relabelled(ToNet(Detach(m0), t), w, red) && (w.kids != [] ==> !w.val.member.busy)
    ensures Relisted(t, w, m0)
  {
    forall i | 0 <= i < |t.kids|
      ensures Relabelled(ToNets(Detach(m0), t.kids)[i], w.kids[i], red)
      ensures w.kids[i].val.heard == 1 && !w.kids[i].val.member.busy
      ensures w.kids[i].val.member.table == Left(t.kids[i].val.node, t.val.node.addr, m0)
      ensures Relisted(t.kids[i], w.kids[i], m0)
    {
      assert t.kids[i] in t.kids;
      assert DoneKid(t.kids[i], w.kids[i], t.val.node.addr, m0, red);
      DueMember(w.kids, i);
      NothingDue(t.kids[i], w.kids[i], m0, red);
    }
    NoneTold(w.kids);
  }

  lemma {:induction false} DueMember(ws: seq<Wave>, i: nat)
    requires i < |ws|
    ensures DueKid(ws[i]) <= DueAll(ws)
  {
    if i > 0 {
      DueMember(ws[1..], i - 1);
    }
  }

  lemma {:induction false} NoneTold(ws: seq<Wave>)
    requires DueAll(ws) == 0
    ensures CountTold(ws) == 0
  {
    if ws != [] {
      NoneTold(ws[1..]);
    }
  }

  /** While a packet is due, some delivery is possible. */
  lemma {:induction false} SomethingDue(t: Net, w: Wave, m0: nat, red: nat) returns (path: seq<nat>, ev: Event)
    requires Ok(t) && m0 <= t.val.node.maskIni && Done(t, w, m0, red) && Due(w) > 0
    ensures Enabled(w, path, ev)
  {
    if w.val.fans > 0 {
      path, ev := [], Ack;
    } else {
      var i := DueSome(w.kids);
      assert t.kids[i] in t.kids;
      assert DoneKid(t.kids[i], w.kids[i], t.val.node.addr, m0, red);
      if Told(t.kids[i], w.kids[i], t.val.node.addr, m0, red) {
        OkAbove(m0, t.kids[i]);
        path, ev := [i], Hear(0);
        assert path[1..] == [];
      } else {
        path, ev := SomethingDue(t.kids[i], w.kids[i], m0, red);
        assert ([i] + path)[1..] == path;
        path := [i] + path;
      }
    }
  }

  lemma {:induction false} DueSome(ws: seq<Wave>) returns (i: nat)
    requires DueAll(ws) > 0
    ensures i < |ws| && DueKid(ws[i]) > 0
  {
    if DueKid(ws[0]) > 0 {
      i := 0;
    } else {
      i := DueSome(ws[1..]);
      i := i + 1;
    }
  }

  lemma {:induction false} RunKeepsDone(t: Net, w: Wave, m0: nat, red: nat, run: seq<Step>)
    requires Inv(t) && m0 <= t.val.node.maskIni && Done(t, w, m0, red) && Possible(w, run)
    ensures var r := After(w, run);
            && Done(t, r, m0, red)
            && |run| + Due(r) == Due(w)
            && |r.kids| == |w.kids|
            && r.val.member.table == w.val.member.table
            && (r.kids == [] ==> r.val.member == w.val.member)
    decreases run
  {
    if run != [] {
      ApplyKeepsDone(t, w, m0, red, run[0].path, run[0].ev);
      RunKeepsDone(t, Apply(w, run[0].path, run[0].ev), m0, red, run[1..]);
    }
  }

  lemma {:induction false} FloodLength(t: Net, w: Wave, red: nat, run: seq<Step>)
    requires Inv(t) && NoSecondary(t) && Detached(t, w)
    requires NodeAbove(t.val.node.maskIni, t.val.node) && Possible(Break(w, red), run)
    ensures var r := After(Break(w, red), run);
            && Done(t, r, t.val.node.maskIni, red)
            && |run| + Due(r) == 2 * (Size(t) - 1)
            && r.val.member.table == []
            && (t.kids == [] ==> r.val.member.busy)
  {
    BreakIsDone(t, w, red);
    FreshDue(t, w);
    RunKeepsDone(t, Break(w, red), t.val.node.maskIni, red, run);
  }

  /** Some packet can be delivered. */
  ghost predicate CanGoOn(w: Wave) {
    exists path: seq<nat>, ev: Event :: Enabled(w, path, ev)
  }

  /** The flood is stuck exactly when nothing is due. */
  lemma {:induction false} StuckExactly(t: Net, r: Wave, m0: nat, red: nat)
    requires Inv(t) && m0 <= t.val.node.maskIni && Done(t, r, m0, red)
    ensures Due(r) > 0 <==> CanGoOn(r)
  {
    if Due(r) == 0 {
      forall path, ev
        ensures !Enabled(r, path, ev)
      {
        if Enabled(r, path, ev) {
          ApplyKeepsDone(t, r, m0, red, path, ev);
        }
      }
    } else {
      var path, ev := SomethingDue(t, r, m0, red);
      assert Enabled(r, path, ev);
    }
  }

  /** Whatever the order in which FAR and FAN packets arrive, the flood takes exactly one FAR and one FAN
      for every daemon below the detached one and never gets stuck before that. */
  lemma {:induction false} FloodTerminates(t: Net, w: Wave, red: nat, run: seq<Step>)
    requires Inv(t) && NoSecondary(t) && Detached(t, w)
    requires NodeAbove(t.val.node.maskIni, t.val.node) && Possible(Break(w, red), run)
    ensures |run| <= 2 * (Size(t) - 1)
    ensures |run| < 2 * (Size(t) - 1) <==> CanGoOn(After(Break(w, red), run))
  {
    FloodLength(t, w, red, run);
    StuckExactly(t, After(Break(w, red), run), t.val.node.maskIni, red);
  }

  /** What a complete flood leaves. */
  lemma {:induction false} FloodRelabels(t: Net, w: Wave, red: nat, run: seq<Step>)
    requires Inv(t) && NoSecondary(t) && Detached(t, w)
    requires NodeAbove(t.val.node.maskIni, t.val.node) && Possible(Break(w, red), run)
    requires |run| == 2 * (Size(t) - 1) && Above(t.val.node.maskIni, t)
    ensures var r := After(Break(w, red), run);
            && Relabelled(ToNet(Detach(t.val.node.maskIni), t), r, red) && (r.val.member.busy <==> t.kids == [])
            && r.val.member.table == [] && Relisted(t, r, t.val.node.maskIni)
  {
    FloodLength(t, w, red, run);
    NothingDue(t, After(Break(w, red), run), t.val.node.maskIni, red);
  }

  /** When the flood ends it has relabelled every daemon exactly once, and only a detached daemon without
      children still waits for a FAN. The daemons' spaces partition the hypercube, and the subtree is a network of
      its own with all ledgers intact, if and only if no mask has reached the root's bit, or the detached daemon
      has a single address. */
  lemma {:induction false} FloodMakesNetwork(t: Net, w: Wave, red: nat, run: seq<Step>)
    requires Inv(t) && NoSecondary(t) && Detached(t, w)
    requires NodeAbove(t.val.node.maskIni, t.val.node) && Possible(Break(w, red), run)
    requires |run| == 2 * (Size(t) - 1)
    ensures Above(t.val.node.maskIni, t)
    ensures var u, r := ToNet(Detach(t.val.node.maskIni), t), After(Break(w, red), run);
            && Relabelled(u, r, red)
            && Init(u.val.node) == Space(ROOT, 0)
            && (r.val.member.busy <==> t.kids == [])
            && r.val.member.table == [] && Relisted(t, r, t.val.node.maskIni)
            && (Partitions(Claims(u), Space(Zeros(64), 0)) <==> Unrooted(t))
            && (Inv(u) <==> Unrooted(t))
  {
    DetachedInit(t);
    FloodRelabels(t, w, red, run);
    DetachPartitions(t);
    DetachExact(t);
  }

  predicate ListsNoOldChild(t: Net, w: Wave)
    decreases t
  {
    && |w.kids| == |t.kids|
    && forall i | 0 <= i < |t.kids| ::
         Addrs(t.kids)[i] !in w.val.member.table && ListsNoOldChild(t.kids[i], w.kids[i])
  }

  /** After a complete flood no daemon lists the address that a child of its had before. */
  lemma {:induction false} OldChildrenAreGone(t: Net, w: Wave, red: nat, run: seq<Step>)
    requires Inv(t) && NoSecondary(t) && Detached(t, w)
    requires NodeAbove(t.val.node.maskIni, t.val.node) && Possible(Break(w, red), run)
    requires |run| == 2 * (Size(t) - 1)
    ensures ListsNoOldChild(t, After(Break(w, red), run))
  {
    var r := After(Break(w, red), run);
    FloodMakesNetwork(t, w, red, run);
    forall i | 0 <= i < |t.kids|
      ensures ListsNoOldChild(t.kids[i], r.kids[i])
    {
      KidDeeper(t, i);
      KidBelow(t, t.val.node.maskIni, i);
      RelistedNoOldChild(t.kids[i], r.kids[i], t.val.node.addr, t.val.node.maskIni);
    }
  }

  lemma {:induction false} RelistedNoOldChild(t: Net, w: Wave, p: Host, m0: nat)
    requires Inv(t) && Below(p, m0, t.val.node)
    requires w.val.member.table == Left(t.val.node, p, m0) && Relisted(t, w, m0)
    ensures ListsNoOldChild(t, w)
    decreases t
  {
    forall i | 0 <= i < |t.kids|
      ensures Addrs(t.kids)[i] !in w.val.member.table && ListsNoOldChild(t.kids[i], w.kids[i])
    {
      ParentHasSplit(t);
      KidIsForwardedTo(t, p, m0, 0, i);
      KidDeeper(t, i);
      KidBelow(t, m0, i);
      RelistedNoOldChild(t.kids[i], w.kids[i], t.val.node.addr, m0);
    }
  }

  lemma {:induction false} DetachPartitions(t: Net)
    requires Inv(t) && NoSecondary(t)
    ensures Above(t.val.node.maskIni, t)
    ensures Partitions(Claims(ToNet(Detach(t.val.node.maskIni), t)), Space(Zeros(64), 0)) <==> Unrooted(t)
  {
    OkAbove(t.val.node.maskIni, t);
    RelabelExact(Detach(t.val.node.maskIni), t);
  }

  /** No space of the subtree reaches the root's bit, unless it is all the subtree has. */
  predicate Unrooted(t: Net) {
    forall e | e in Claims(t) :: e.mask == t.val.node.maskIni || e.mask <= 63
  }

  lemma {:induction false} DetachedInit(t: Net)
    requires Ok(t)
    ensures Above(t.val.node.maskIni, t)
    ensures Init(ToNet(Detach(t.val.node.maskIni), t).val.node) == Space(ROOT, 0)
  {
    OkAbove(t.val.node.maskIni, t);
    var a := To(Detach(t.val.node.maskIni), t.val.node.addr);
    forall i | 0 <= i < 64
      ensures a[i] == ROOT[i]
    {
      RootBits(i);
    }
  }

  lemma {:induction false} ClaimsFit(m0: nat, t: Net)
    requires NoSecondary(t)
    ensures Fits(Detach(m0), t) <==> forall e | e in Claims(t) :: e.mask <= 63
  {
    ClaimsAllFit(m0, t.kids);
    CellClaimsFit(m0, t.val);
    assert forall k | k in t.kids :: NoSecondary(k);
  }

  lemma {:induction false} CellClaimsFit(m0: nat, c: Cell)
    requires c.node.sec == None
    ensures CellFits(Detach(m0), c) <==> forall e | e in CellClaims(c) :: e.mask <= 63
  {
    var s := Spaces(c.limbo);
    if forall e | e in CellClaims(c) :: e.mask <= 63 {
      assert Own(c.node) in CellClaims(c);
      forall l | l in c.limbo
        ensures l.space.mask <= 63
      {
        var i :| 0 <= i < |c.limbo| && c.limbo[i] == l;
        assert s[i] in CellClaims(c);
      }
    }
    if CellFits(Detach(m0), c) {
      forall e | e in s
        ensures e.mask <= 63
      {
        var i :| 0 <= i < |s| && s[i] == e;
        assert c.limbo[i] in c.limbo;
      }
    }
  }

  lemma {:induction false} ClaimsAllFit(m0: nat, ts: seq<Net>)
    requires forall t | t in ts :: NoSecondary(t)
    ensures (forall t | t in ts :: Fits(Detach(m0), t)) <==> forall e | e in ClaimsAll(ts) :: e.mask <= 63
  {
    if ts != [] {
      assert ts[0] in ts;
      ClaimsFit(m0, ts[0]);
      ClaimsAllFit(m0, ts[1..]);
      assert ts == [ts[0]] + ts[1..];
      assert forall t | t in ts :: t == ts[0] || t in ts[1..];
    }
  }

  /** A daemon with a single address has nothing below it. */
  lemma {:induction false} Single(t: Net)
    requires Inv(t) && NoSecondary(t) && t.val.node.maskIni == 64
    ensures t.kids == [] && t.val.node.rcvd == [] && t.val.limbo == [] && t.val.node.mask == 64
  {
    AllBuddies(t.val, t.kids);
    NoneDeeper(64, t.val.node.rcvd);
    NoneDeeper(64, Spaces(t.val.limbo));
    NoneDeeper(64, Inits(t.kids));
  }

  lemma {:induction false} NoneDeeper(m: nat, s: seq<Space>)
    requires forall e | e in s :: m < e.mask <= 64
    ensures m >= 64 ==> s == []
  {
    if s != [] {
      assert s[0] in s;
    }
  }

  lemma {:induction false} DetachExact(t: Net)
    requires Inv(t) && NoSecondary(t)
    ensures Above(t.val.node.maskIni, t)
    ensures Inv(ToNet(Detach(t.val.node.maskIni), t)) <==> Unrooted(t)
  {
    var m0 := t.val.node.maskIni;
    OkAbove(m0, t);
    ClaimsFit(m0, t);
    if m0 <= 63 {
      RelabelInvExact(Detach(m0), t);
    } else {
      Single(t);
      SingleInv(t);
    }
  }

  lemma {:induction false} SingleInv(t: Net)
    requires t.kids == [] && t.val.node.rcvd == [] && t.val.limbo == [] && t.val.node.sec == None
    requires t.val.node.mask == t.val.node.maskIni == 64 && Above(64, t)
    ensures Inv(ToNet(Detach(64), t)) && Unrooted(t)
  {
    var u := ToNet(Detach(64), t);
    forall v
      ensures Balanced(v, u)
    {
    }
  }

  // ----- Every flood can take place and come to its end -----

  function Daemon(n: Node, table: seq<Host>, red: nat): Spot {
    Spot(Member(n, table, red, false), [], 0, 0)
  }

  function Still(t: Net, parent: Host, red: nat): Wave {
    Tree(Daemon(t.val.node, Addrs(t.kids) + [parent], red), Stills(t.kids, t.val.node.addr, red))
  }

  function Stills(ts: seq<Net>, parent: Host, red: nat): (r: seq<Wave>)
    ensures |r| == |ts| && forall i | 0 <= i < |ts| :: r[i] == Still(ts[i], parent, red)
  {
    if ts == [] then [] else [Still(ts[0], parent, red)] + Stills(ts[1..], parent, red)
  }

  lemma {:induction false} StillIsFresh(t: Net, parent: Host, red: nat)
    ensures Fresh(t, Still(t, parent, red), parent)
    decreases t
  {
    forall i | 0 <= i < |t.kids|
      ensures Fresh(t.kids[i], Stills(t.kids, t.val.node.addr, red)[i], t.val.node.addr)
    {
      StillIsFresh(t.kids[i], t.val.node.addr, red);
    }
  }

  /** Every subtree can be in the state from which its fragmentation starts. */
  lemma {:induction false} CanDetach(t: Net, red: nat) returns (w: Wave)
    ensures Detached(t, w)
  {
    w := Tree(Daemon(t.val.node, Addrs(t.kids), red), Stills(t.kids, t.val.node.addr, red));
    forall i | 0 <= i < |t.kids|
      ensures Fresh(t.kids[i], w.kids[i], t.val.node.addr)
    {
      StillIsFresh(t.kids[i], t.val.node.addr, red);
    }
  }

  lemma {:induction false} Completes(t: Net, w: Wave, m0: nat, red: nat) returns (run: seq<Step>)
    requires Inv(t) && m0 <= t.val.node.maskIni && Done(t, w, m0, red)
    ensures Possible(w, run) && |run| == Due(w)
    decreases Due(w)
  {
    run := [];
    if Due(w) > 0 {
      var path, ev := SomethingDue(t, w, m0, red);
      ApplyKeepsDone(t, w, m0, red, path, ev);
      run := Completes(t, Apply(w, path, ev), m0, red);
      assert ([Step.Step(path, ev)] + run)[1..] == run;
      run := [Step.Step(path, ev)] + run;
    }
  }

  /** Every flood has a complete run. */
  lemma {:induction false} FloodCompletes(t: Net, w: Wave, red: nat) returns (run: seq<Step>)
    requires Inv(t) && NoSecondary(t) && Detached(t, w)
    requires NodeAbove(t.val.node.maskIni, t.val.node)
    ensures Possible(Break(w, red), run) && |run| == 2 * (Size(t) - 1)
  {
    BreakIsDone(t, w, red);
    FreshDue(t, w);
    run := Completes(t, Break(w, red), t.val.node.maskIni, red);
  }
}
