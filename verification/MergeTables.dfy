/** The neighbour tables that a merge leaves: process_mar1 and process_mar2 delete everybody they send to. */
module MergeTables {
  import opened Wrappers
  import opened Hypercube
  import opened Allocation
  import opened AllocationRun
  import opened RelabelledTree
  import opened FragmentationFlood
  import opened FragmentationRun
  import opened MergeNode
  import opened MergeTree
  import opened MergeFlood
  import opened MergeReact
  import opened MergeRun
  import opened MergeSteps
  import opened MergeProgress
  import opened MergeOutcome
  import opened MergeNetworks
  import opened MergeResults
  import opened MergeGuards

  // ----- What the loops delete -----

  lemma {:induction false} DeletedCount(s: seq<Host>, a: Host, x: Host)
    ensures multiset(Deleted(s, a))[x] == multiset(s)[x] - if x == a && a in s then 1 else 0
  {
    if s != [] {
      assert s == [s[0]] + s[1..];
      if s[0] != a {
        DeletedCount(s[1..], a, x);
      }
    }
  }

  /** Every neighbour that is not skipped leaves the table. */
  lemma {:induction false} Mar1Deletes(c: Turn, w: Walk, s: seq<Host>, x: Host)
    requires multiset(s)[x] <= multiset(w.table)[x]
    ensures multiset(Mar1Walk(c, w, s).table)[x] == multiset(w.table)[x] - if Skips(c, x) then 0 else multiset(s)[x]
  {
    if s != [] {
      var t, e := s[..|s| - 1], s[|s| - 1];
      CountSnoc(s, x);
      Mar1Deletes(c, w, t, x);
      DeletedCount(Mar1Walk(c, w, t).table, e, x);
    }
  }

  lemma {:induction false} Mar2Deletes(own: Host, addr: Host, p: Packet, w: Walk, s: seq<Host>, x: Host)
    requires multiset(s)[x] <= multiset(w.table)[x]
    ensures multiset(Mar2Walk(own, addr, p, w, s).table)[x] == multiset(w.table)[x] - if x == p.prim then 0 else multiset(s)[x]
  {
    if s != [] {
      var t, e := s[..|s| - 1], s[|s| - 1];
      CountSnoc(s, x);
      Mar2Deletes(own, addr, p, w, t, x);
      DeletedCount(Mar2Walk(own, addr, p, w, t).table, e, x);
    }
  }

  lemma {:induction false} Mar1Keeps(c: Turn, w: Walk, table: seq<Host>)
    requires w.table == table && (c.monitor || multiset(table)[c.sender] == 1)
    ensures Mar1Walk(c, w, table).table == if c.monitor then [] else [c.sender]
  {
    var r: seq<Host> := Mar1Walk(c, w, table).table;
    forall x: Host
      ensures multiset(r)[x] == if x == c.sender && !c.monitor then 1 else 0
    {
      Mar1Deletes(c, w, table, x);
    }
    OneOrNone(r, c.sender, !c.monitor);
  }

  lemma {:induction false} Mar2Keeps(own: Host, addr: Host, p: Packet, w: Walk, table: seq<Host>)
    requires w.table == table && multiset(table)[p.prim] == 1
    ensures Mar2Walk(own, addr, p, w, table).table == [p.prim]
  {
    var r: seq<Host> := Mar2Walk(own, addr, p, w, table).table;
    forall x: Host
      ensures multiset(r)[x] == if x == p.prim && true then 1 else 0
    {
      Mar2Deletes(own, addr, p, w, table, x);
    }
    OneOrNone(r, p.prim, true);
  }

  // ----- The table after a MAR -----

  /** A daemon that has not heard of the merge into network red, with p once among its neighbours; without having split
      its space it has no other neighbour. */
  predicate Wired(red: nat, m: Merger, p: Host) {
    && m.red != red && p != Default()
    && multiset(m.table)[p] == 1
    && (m.node.mask == m.node.maskIni ==> m.table == [p])
  }

  /** A MAR from the neighbour p. */
  predicate From(red: nat, p: Host, q: Packet) {
    q.kind in {MAR1, MAR2} && q.red == red && q.prim == p
  }

  lemma {:induction false} Mar1Table1(root: Host, m: Merger, q: Packet, red: nat, p: Host)
    requires Wired(red, m, p) && From(red, p, q)
    ensures HearMar1(root, m, q).0.table == [p]
  {
    var k := Masked(m, q);
    var w0 := Walk([], k.table, k.node.mask, k.node.addr);
    assert k.table == m.table;
    if Mar1Loops(m, q) {
      Mar1Keeps(TurnOf(root, m, q), w0, k.table);
    }
  }

  lemma {:induction false} Mar2Table(m: Merger, q: Packet, red: nat, p: Host)
    requires Wired(red, m, p) && From(red, p, q)
    ensures HearMar2(m, q).0.table == [p]
  {
    var addr := BuddyOf(q.src, q.mask);
    if m.node.mask != m.node.maskIni {
      Mar2Keeps(m.node.addr, addr, q, Walk([], m.table, q.mask, addr), m.table);
    }
  }

  /** The receiver lists the proposer only, unless it had a neighbour with the proposer's address: that one is sent a
      packet and deleted like all others. */
  function ReceiverTable(m: Merger, src: Host): seq<Host> {
    if src in m.table then [] else [src]
  }

  lemma {:induction false} ReceiverKeeps(root: Host, m: Merger, q: Packet)
    requires q.kind == MAR1 && q.prim == Default()
    ensures HearMar1(root, m, q).0.table == ReceiverTable(m, q.src)
  {
    var k, c := Masked(m, q), TurnOf(root, m, q);
    var w0 := Walk([], k.table, k.node.mask, k.node.addr);
    if m.table != [] {
      ReceiverOnce(m, q);
      Mar1Keeps(c, w0, k.table);
      WalkSilent(c, w0, k.table);
      ReceiverHears(root, m, q, Mar1Walk(c, w0, k.table));
    }
  }

  lemma {:induction false} ReceiverOnce(m: Merger, q: Packet)
    requires q.prim == Default() && m.table != []
    ensures q.src in m.table || multiset(Mar1Table(m, q))[q.src] == 1
  {
  }

  lemma {:induction false} ReceiverHears(root: Host, m: Merger, q: Packet, w: Walk)
    requires q.prim == Default() && m.table != []
    requires w == Mar1Walk(TurnOf(root, m, q), Walk([], Mar1Table(m, q), Masked(m, q).node.mask, m.node.addr), Mar1Table(m, q))
    requires w.table == ReceiverTable(m, q.src)
    requires w.mars == [] <==> forall i | 0 <= i < |Mar1Table(m, q)| :: Skips(TurnOf(root, m, q), Mar1Table(m, q)[i])
    ensures HearMar1(root, m, q).0.table == ReceiverTable(m, q.src)
  {
    if w.table == [] {
      assert !Skips(TurnOf(root, m, q), Mar1Table(m, q)[0]);
    }
  }

  // ----- Who is sent what -----

  predicate AllFrom(red: nat, p: Host, qs: seq<Packet>) {
    forall i | 0 <= i < |qs| :: From(red, p, qs[i])
  }

  lemma {:induction false} Mar1WalkFrom(c: Turn, w: Walk, s: seq<Host>)
    requires w.mars == []
    ensures AllFrom(c.p.red, c.own, Mar1Walk(c, w, s).mars)
  {
    if s != [] {
      Mar1WalkFrom(c, w, s[..|s| - 1]);
    }
  }

  lemma {:induction false} Mar2WalkFrom(own: Host, addr: Host, p: Packet, w: Walk, s: seq<Host>)
    requires w.mars == []
    ensures AllFrom(p.red, own, Mar2Walk(own, addr, p, w, s).mars)
  {
    if s != [] {
      Mar2WalkFrom(own, addr, p, w, s[..|s| - 1]);
    }
  }

  lemma {:induction false} MarsFrom(root: Host, m: Merger, p: Packet)
    ensures AllFrom(p.red, m.node.addr, Process(root, m, p).1)
  {
    if p.red != m.red && p.kind == MAR1 && p.dst == m.node.addr {
      var k := Masked(m, p);
      Mar1WalkFrom(TurnOf(root, m, p), Walk([], k.table, k.node.mask, k.node.addr), k.table);
    } else if p.red != m.red && p.kind == MAR2 {
      var addr := BuddyOf(p.src, p.mask);
      Mar2WalkFrom(m.node.addr, addr, p, Walk([], m.table, p.mask, addr), m.table);
    }
  }

  lemma {:induction false} SelectFrom(red: nat, p: Host, qs: seq<Packet>, a: Host)
    requires AllFrom(red, p, qs)
    ensures AllFrom(red, p, Select(qs, a))
  {
    if qs != [] {
      SelectFrom(red, p, qs[..|qs| - 1], a);
    }
  }

  // ----- How far the merge has come; w0 is the receiver's network before it -----

  predicate AllRed(red: nat, qs: seq<Packet>) {
    forall i | 0 <= i < |qs| :: qs[i].red == red
  }

  /** Nothing has happened here, but MARs from the neighbour p may be coming. */
  predicate Fresh(red: nat, w0: Surge, w: Surge, p: Host)
    decreases w0
  {
    && w.val.member == w0.val.member && w.val.heard == 0 && Wired(red, w0.val.member, p)
    && AllFrom(red, p, w.val.inbox) && FreshBelow(red, w0, w)
  }

  predicate FreshBelow(red: nat, w0: Surge, w: Surge)
    decreases w0, 0
  {
    && |w.kids| == |w0.kids|
    && forall i | 0 <= i < |w0.kids| ::
         w.kids[i].val.inbox == [] && Fresh(red, w0.kids[i], w.kids[i], w0.val.member.node.addr)
  }

  predicate Joined(red: nat, s: Site, table: seq<Host>) {
    s.heard >= 1 && s.member.red == red && s.member.table == table && AllRed(red, s.inbox)
  }

  predicate Tabled(red: nat, w0: Surge, w: Surge, p: Host)
    decreases w0, 1
  {
    Fresh(red, w0, w, p) || (Joined(red, w.val, [p]) && TabledBelow(red, w0, w.kids))
  }

  predicate TabledBelow(red: nat, w0: Surge, ws: seq<Surge>)
    decreases w0, 0
  {
    && |ws| == |w0.kids|
    && forall i | 0 <= i < |w0.kids| :: Tabled(red, w0.kids[i], ws[i], w0.val.member.node.addr)
  }

  predicate IsProposal(red: nat, src: Host, q: Packet) {
    q.kind == MAR1 && q.red == red && q.prim == Default() && q.src == src
  }

  predicate ReceiverTabled(red: nat, src: Host, w0: Surge, w: Surge) {
    || (w.val.member == w0.val.member && w.val.heard == 0 && w0.val.member.red != red
        && (forall i | 0 <= i < |w.val.inbox| :: IsProposal(red, src, w.val.inbox[i])) && FreshBelow(red, w0, w))
    || (Joined(red, w.val, ReceiverTable(w0.val.member, src)) && TabledBelow(red, w0, w.kids))
  }

  predicate TopTabled(red: nat, src: Host, m: Merger, w0: Surge, w: Surge) {
    && w.val.member.red == red && w.val.member.table == m.table && AllRed(red, w.val.inbox)
    && |w.kids| == 1 && ReceiverTabled(red, src, w0, w.kids[0])
  }

  lemma {:induction false} FreshQuiet(red: nat, w0: Surge, w: Surge, path: seq<nat>, i: nat)
    requires FreshBelow(red, w0, w) && (path == [] ==> w.val.inbox == [])
    ensures !Ready(w, path, i)
    decreases path
  {
    if path != [] && path[0] < |w.kids| {
      var k := w.kids[path[0]];
      assert Fresh(red, w0.kids[path[0]], k, w0.val.member.node.addr);
      FreshQuiet(red, w0.kids[path[0]], k, path[1..], i);
    }
  }

  // ----- One packet -----

  lemma {:induction false} FreshCalled(red: nat, w0: Surge, ws: seq<Surge>, mars: seq<Packet>)
    requires |ws| == |w0.kids| && AllFrom(red, w0.val.member.node.addr, mars)
    requires forall i | 0 <= i < |ws| :: ws[i].val.inbox == [] && Fresh(red, w0.kids[i], ws[i], w0.val.member.node.addr)
    ensures TabledBelow(red, w0, Arrive(ws, mars))
  {
    forall i | 0 <= i < |ws|
      ensures Tabled(red, w0.kids[i], Arrive(ws, mars)[i], w0.val.member.node.addr)
    {
      SelectFrom(red, w0.val.member.node.addr, mars, ws[i].val.member.node.addr);
      FreshGets(red, w0.kids[i], ws[i], w0.val.member.node.addr, Select(mars, ws[i].val.member.node.addr));
    }
  }

  lemma {:induction false} FreshGets(red: nat, w0: Surge, w: Surge, p: Host, qs: seq<Packet>)
    requires Fresh(red, w0, w, p) && w.val.inbox == [] && AllFrom(red, p, qs)
    ensures Fresh(red, w0, w.(val := w.val.(inbox := w.val.inbox + qs)), p)
  {
    assert w.val.inbox + qs == qs;
  }

  lemma {:induction false} TakeFresh(root: Host, red: nat, w0: Surge, w: Surge, p: Host, i: nat)
    requires Fresh(red, w0, w, p) && i < |w.val.inbox|
    ensures var (r, man) := Take(root, w, i);
            Tabled(red, w0, r, p) && (man.Some? ==> man.value.red == red)
  {
    var m, q := w.val.member, w.val.inbox[i];
    var (r, mars, man) := Process(root, m, q);
    assert From(red, p, q);
    GuardsExact(root, m, q);
    AnsweredExactly(root, m, q);
    MarsFrom(root, m, q);
    if man.Some? {
      Mar1Table1(root, m, q, red, p);
      Mar2Table(m, q, red, p);
      FreshCalled(red, w0, w.kids, mars);
    } else {
      ArriveNone(w.kids);
    }
  }

  lemma {:induction false} TakeReceiver(root: Host, red: nat, src: Host, w0: Surge, w: Surge, i: nat)
    requires ReceiverTabled(red, src, w0, w) && w.val.heard == 0 && i < |w.val.inbox|
    ensures var (r, man) := Take(root, w, i);
            ReceiverTabled(red, src, w0, r) && (man.Some? ==> man.value.red == red)
  {
    var m, q := w.val.member, w.val.inbox[i];
    var (r, mars, man) := Process(root, m, q);
    assert IsProposal(red, src, q);
    GuardsExact(root, m, q);
    AnsweredExactly(root, m, q);
    MarsFrom(root, m, q);
    if man.Some? {
      ReceiverKeeps(root, m, q);
      FreshCalled(red, w0, w.kids, mars);
    } else {
      ArriveNone(w.kids);
    }
  }

  /** A daemon that has joined the network changes its table no more. */
  lemma {:induction false} TakeJoined(root: Host, red: nat, w: Surge, i: nat)
    requires w.val.member.red == red && AllRed(red, w.val.inbox) && i < |w.val.inbox|
    ensures var (r, man) := Take(root, w, i);
            && man == None && r.kids == w.kids && AllRed(red, r.val.inbox) && r.val.heard == w.val.heard
            && r.val.member.red == red && r.val.member.table == w.val.member.table
  {
    AnsweredExactly(root, w.val.member, w.val.inbox[i]);
    ArriveNone(w.kids);
  }

  lemma {:induction false} AdvanceTabled(root: Host, red: nat, w0: Surge, w: Surge, p: Host, path: seq<nat>, i: nat)
    requires Tabled(red, w0, w, p) && Ready(w, path, i)
    ensures var (r, man) := Advance(root, w, path, i);
            Tabled(red, w0, r, p) && (man.Some? ==> man.value.red == red)
    decreases path
  {
    if path == [] {
      if Fresh(red, w0, w, p) {
        TakeFresh(root, red, w0, w, p, i);
      } else {
        TakeJoined(root, red, w, i);
      }
    } else {
      if Fresh(red, w0, w, p) {
        FreshQuiet(red, w0, w, path, i);
      }
      KidAdvances(root, red, w0, w, path, i);
    }
  }

  /** Something happens below a daemon that has joined. */
  lemma {:induction false} KidAdvances(root: Host, red: nat, w0: Surge, w: Surge, path: seq<nat>, i: nat)
    requires path != [] && TabledBelow(red, w0, w.kids) && AllRed(red, w.val.inbox) && Ready(w, path, i)
    ensures var (r, man) := Advance(root, w, path, i);
            && man == None && TabledBelow(red, w0, r.kids) && AllRed(red, r.val.inbox)
            && r.val.member == w.val.member && r.val.heard == w.val.heard
    decreases path, 0
  {
    var j := path[0];
    AdvanceTabled(root, red, w0.kids[j], w.kids[j], w0.val.member.node.addr, path[1..], i);
  }

  lemma {:induction false} AdvanceReceiver(root: Host, red: nat, src: Host, w0: Surge, w: Surge, path: seq<nat>, i: nat)
    requires ReceiverTabled(red, src, w0, w) && Ready(w, path, i)
    ensures var (r, man) := Advance(root, w, path, i);
            ReceiverTabled(red, src, w0, r) && (man.Some? ==> man.value.red == red)
  {
    if w.val.heard == 0 {
      if path != [] {
        FreshQuiet(red, w0, w, path, i);
      }
      TakeReceiver(root, red, src, w0, w, i);
    } else if path == [] {
      TakeJoined(root, red, w, i);
    } else {
      KidAdvances(root, red, w0, w, path, i);
    }
  }

  lemma {:induction false} AdvanceTopTabled(root: Host, red: nat, src: Host, m: Merger, w0: Surge, w: Surge, path: seq<nat>, i: nat)
    requires TopTabled(red, src, m, w0, w) && Ready(w, path, i)
    ensures TopTabled(red, src, m, w0, Advance(root, w, path, i).0)
  {
    if path == [] {
      TakeJoined(root, red, w, i);
    } else {
      AdvanceReceiver(root, red, src, w0, w.kids[0], path[1..], i);
    }
  }

  lemma {:induction false} RunKeepsTables(root: Host, red: nat, src: Host, m: Merger, w0: Surge, w: Surge, run: seq<Delivery>)
    requires TopTabled(red, src, m, w0, w) && CanRun(root, w, run)
    ensures TopTabled(red, src, m, w0, Reached(root, w, run))
    decreases run
  {
    if run != [] {
      AdvanceTopTabled(root, red, src, m, w0, w, run[0].path, run[0].i);
      RunKeepsTables(root, red, src, m, w0, Advance(root, w, run[0].path, run[0].i).0, run[1..]);
    }
  }

  // ----- Where a merge starts -----

  predicate UpRooted(u: Up) {
    u.val.addr[63] && forall i | 0 <= i < |u.kids| :: UpRooted(u.kids[i])
  }

  lemma {:induction false} NetRooted(t: Net)
    requires Ok(t) && Shallow(t)
    ensures t.val.node.addr[63] && UpRooted(UpOf(t))
  {
    forall i | 0 <= i < |t.kids|
      ensures UpRooted(UpsOf(t.kids)[i])
    {
      assert t.kids[i] in t.kids;
      NetRooted(t.kids[i]);
    }
  }

  lemma {:induction false} OthersRooted(t: Net, i: nat)
    requires i < |t.kids| && UpRooted(UpOf(t))
    ensures var us := UpsOf(Without(t.kids, i)); forall j | 0 <= j < |us| :: UpRooted(us[j])
  {
    var ts := Without(t.kids, i);
    var us := UpsOf(ts);
    forall j | 0 <= j < |us|
      ensures UpRooted(us[j])
    {
      var x := if j < i then j else j + 1;
      assert ts[j] == t.kids[x] && UpsOf(t.kids)[x] == UpOf(t.kids[x]);
    }
  }

  lemma {:induction false} AboveRooted(t: Net, i: nat, at: nat, parent: seq<Up>)
    requires Ok(t) && Shallow(t) && i < |t.kids| && forall j | 0 <= j < |parent| :: UpRooted(parent[j])
    ensures UpRooted(FromBelow(t, i, at, parent))
  {
    NetRooted(t);
    OthersRooted(t, i);
    var u, us := FromBelow(t, i, at, parent), UpsOf(Without(t.kids, i));
    var p := if at <= |us| then at else |us|;
    AllRooted(us, p, parent);
    assert u == Tree(t.val.node, us[..p] + parent + us[p..]);
  }

  lemma {:induction false} AllRooted(us: seq<Up>, p: nat, parent: seq<Up>)
    requires p <= |us| && (forall j | 0 <= j < |us| :: UpRooted(us[j])) && forall j | 0 <= j < |parent| :: UpRooted(parent[j])
    ensures var all := us[..p] + parent + us[p..]; forall j | 0 <= j < |all| :: UpRooted(all[j])
  {
    var all := us[..p] + parent + us[p..];
    forall j | 0 <= j < |all|
      ensures UpRooted(all[j])
    {
      assert all[j] == if j < p then us[j] else if j < p + |parent| then parent[j - p] else us[j - |parent|];
    }
  }

  lemma {:induction false} RerootRooted(t: Net, path: seq<nat>, at: seq<nat>, parent: seq<Up>)
    requires Ok(t) && Shallow(t) && OnPath(t, path) && |at| == |path|
    requires forall j | 0 <= j < |parent| :: UpRooted(parent[j])
    ensures var ups := Reroot(t, path, at, parent).1;
            forall j | 0 <= j < |ups| :: UpRooted(ups[j])
    decreases path
  {
    if path == [] {
      assert Reroot(t, path, at, parent) == (t, parent);
    } else {
      var k, above := t.kids[path[0]], [FromBelow(t, path[0], at[0], parent)];
      assert k in t.kids;
      AboveRooted(t, path[0], at[0], parent);
      RerootRooted(k, path[1..], at[1..], above);
      assert Reroot(t, path, at, parent) == Reroot(k, path[1..], at[1..], above);
    }
  }

  /** The parent of a daemon is not one of its children. */
  lemma {:induction false} ParentOnce(t: Net, p: Host)
    requires Ok(t) && Below(p, 0, t.val.node)
    ensures multiset(Addrs(t.kids))[p] == 0
  {
    forall i | 0 <= i < |t.kids|
      ensures Addrs(t.kids)[i] != p
    {
      assert t.kids[i] in t.kids;
    }
  }

  lemma {:induction false} DownWired(c: Scene, t: Net, w: Surge, p: Host)
    requires Inv(t) && Below(p, 0, t.val.node) && p[63] && DownIdle(c, t, w, p, [])
    ensures Wired(c.red, w.val.member, p)
  {
    ParentOnce(t, p);
    DefaultIsNoHost(p);
    if t.val.node.mask == t.val.node.maskIni {
      if t.kids != [] {
        ParentHasSplit(t);
      }
      assert multiset(w.val.member.table) == multiset{p};
      OnlyOne(w.val.member.table, p);
    }
  }

  lemma {:induction false} DownFresh(c: Scene, t: Net, w: Surge, p: Host)
    requires Inv(t) && Shallow(t) && Below(p, 0, t.val.node) && p[63] && DownIdle(c, t, w, p, [])
    ensures Fresh(c.red, w, w, p) && w.val.inbox == []
    decreases t, 1
  {
    DownWired(c, t, w, p);
    DownFreshBelow(c, t, w, p);
  }

  lemma {:induction false} DownFreshBelow(c: Scene, t: Net, w: Surge, p: Host)
    requires Inv(t) && Shallow(t) && DownIdle(c, t, w, p, [])
    ensures FreshBelow(c.red, w, w)
    decreases t, 0
  {
    forall i | 0 <= i < |t.kids|
      ensures Fresh(c.red, w.kids[i], w.kids[i], t.val.node.addr) && w.kids[i].val.inbox == []
    {
      DownKid(t, i);
      DownFresh(c, t.kids[i], w.kids[i], t.val.node.addr);
    }
  }

  lemma {:induction false} DownKid(t: Net, i: nat)
    requires Inv(t) && Shallow(t) && i < |t.kids|
    ensures Inv(t.kids[i]) && Shallow(t.kids[i]) && Below(t.val.node.addr, 0, t.kids[i].val.node) && t.val.node.addr[63]
    ensures t.kids[i] < t
  {
    NetRooted(t);
    PlainKid(t, i);
    KidDeeper(t, i);
    KidBelow(t, 0, i);
  }

  lemma {:induction false} OthersCount(s: seq<Host>, p: Host)
    ensures |Others(s, p)| + multiset(s)[p] == |s|
  {
    if s != [] {
      CountSnoc(s, p);
      OthersCount(s[..|s| - 1], p);
    }
  }

  lemma {:induction false} UpFresh(c: Scene, u: Up, w: Surge, p: Host)
    requires UpOk(u) && UpRooted(u) && p[63] && UpIdle(c, u, w, p, [])
    ensures Fresh(c.red, w, w, p) && w.val.inbox == []
    decreases u
  {
    OthersCount(w.val.member.table, p);
    DefaultIsNoHost(p);
    if u.kids == [] {
      assert w.val.member.table[0] in multiset(w.val.member.table);
      assert |w.val.member.table| == 1;
      OneIs(w.val.member.table, p);
    }
    forall i | 0 <= i < |u.kids|
      ensures Fresh(c.red, w.kids[i], w.kids[i], u.val.addr) && w.kids[i].val.inbox == []
    {
      UpFresh(c, u.kids[i], w.kids[i], u.val.addr);
    }
  }

  lemma {:induction false} OneIs(s: seq<Host>, p: Host)
    requires |s| == 1 && multiset(s)[p] == 1
    ensures s == [p]
  {
    assert s == [s[0]];
  }

  lemma {:induction false} ReceiverFresh(c: Scene, t: Net, ups: seq<Up>, w: Surge)
    requires Inv(t) && Shallow(t) && ReceiverIdle(c, t, ups, w, [])
    requires forall i | 0 <= i < |ups| :: UpOk(ups[i]) && UpRooted(ups[i])
    ensures FreshBelow(c.red, w, w)
  {
    NetRooted(t);
    forall i | 0 <= i < |w.kids|
      ensures w.kids[i].val.inbox == [] && Fresh(c.red, w.kids[i], w.kids[i], t.val.node.addr)
    {
      if i < |t.kids| {
        DownKid(t, i);
        DownFresh(c, t.kids[i], w.kids[i], t.val.node.addr);
      } else {
        var j := i - |t.kids|;
        assert w.kids[|t.kids| + j] == w.kids[i];
        UpFresh(c, ups[j], w.kids[i], t.val.node.addr);
      }
    }
  }

  // ----- The addresses that a MAR has moved -----

  /** Nobody has the address of the daemon above its own neighbour. */
  predicate Ahead(w0: Surge, p: Host) {
    forall i | 0 <= i < |w0.kids| :: w0.kids[i].val.member.node.addr != p && Ahead(w0.kids[i], w0.val.member.node.addr)
  }

  lemma {:induction false} DownAhead(c: Scene, t: Net, w: Surge, p: Host)
    requires Inv(t) && Shallow(t) && Below(p, 0, t.val.node) && DownIdle(c, t, w, p, [])
    ensures Ahead(w, p)
    decreases t
  {
    ParentOnce(t, p);
    forall i | 0 <= i < |t.kids|
      ensures w.kids[i].val.member.node.addr != p && Ahead(w.kids[i], t.val.node.addr)
    {
      DownKid(t, i);
      DownAhead(c, t.kids[i], w.kids[i], t.val.node.addr);
      assert Addrs(t.kids)[i] == w.kids[i].val.member.node.addr;
    }
  }

  lemma {:induction false} OthersDiffer(s: seq<Host>, p: Host)
    ensures p !in Others(s, p)
  {
    if s != [] {
      OthersDiffer(s[..|s| - 1], p);
    }
  }

  lemma {:induction false} UpAhead(c: Scene, u: Up, w: Surge, p: Host)
    requires UpIdle(c, u, w, p, [])
    ensures Ahead(w, p)
    decreases u
  {
    OthersDiffer(w.val.member.table, p);
    forall i | 0 <= i < |u.kids|
      ensures w.kids[i].val.member.node.addr != p && Ahead(w.kids[i], u.val.addr)
    {
      UpAhead(c, u.kids[i], w.kids[i], u.val.addr);
      assert UpAddrs(u.kids)[i] == w.kids[i].val.member.node.addr;
    }
  }

  /** Nobody lists a neighbour under the address that the neighbour had before a MAR came from here. */
  predicate OldAreGone(w0: Surge, w: Surge)
    decreases w0
  {
    && |w.kids| == |w0.kids|
    && forall i | 0 <= i < |w0.kids| ::
         w0.kids[i].val.member.node.addr !in w.val.member.table && OldAreGone(w0.kids[i], w.kids[i])
  }

  lemma {:induction false} AheadGone(w0: Surge, w: Surge, p: Host)
    requires Ahead(w0, p) && Relisted(w0, w) && w.val.member.table == [p]
    ensures OldAreGone(w0, w)
    decreases w0
  {
    forall i | 0 <= i < |w0.kids|
      ensures OldAreGone(w0.kids[i], w.kids[i])
    {
      AheadGone(w0.kids[i], w.kids[i], w0.val.member.node.addr);
    }
  }

  lemma {:induction false} DownGone(c: Scene, t: Net, ups: seq<Up>, w0: Surge, i: nat)
    requires Inv(t) && Shallow(t) && ReceiverIdle(c, t, ups, w0, []) && i < |t.kids|
    ensures w0.kids[i].val.member.node.addr in w0.val.member.table && Ahead(w0.kids[i], w0.val.member.node.addr)
  {
    var m := w0.val.member;
    assert multiset(m.table) == multiset(Addrs(t.kids)) + multiset(UpAddrs(ups));
    DownKid(t, i);
    DownAhead(c, t.kids[i], w0.kids[i], t.val.node.addr);
    assert Addrs(t.kids)[i] in multiset(m.table);
  }

  lemma {:induction false} UpGone(c: Scene, t: Net, ups: seq<Up>, w0: Surge, j: nat)
    requires ReceiverIdle(c, t, ups, w0, []) && j < |ups|
    ensures var w := w0.kids[|t.kids| + j];
            w.val.member.node.addr in w0.val.member.table && Ahead(w, w0.val.member.node.addr)
  {
    UpAhead(c, ups[j], w0.kids[|t.kids| + j], t.val.node.addr);
    UpListed(t, ups, w0.val.member, j);
  }

  lemma {:induction false} UpListed(t: Net, ups: seq<Up>, m: Merger, j: nat)
    requires Links(t, m, multiset(UpAddrs(ups))) && j < |ups|
    ensures ups[j].val.addr in m.table
  {
    assert multiset(m.table) == multiset(Addrs(t.kids)) + multiset(UpAddrs(ups));
    assert UpAddrs(ups)[j] in multiset(m.table);
  }

  lemma {:induction false} KidGone(c: Scene, t: Net, ups: seq<Up>, w0: Surge, i: nat)
    requires Inv(t) && Shallow(t) && ReceiverIdle(c, t, ups, w0, []) && i < |w0.kids|
    ensures w0.kids[i].val.member.node.addr in w0.val.member.table && Ahead(w0.kids[i], w0.val.member.node.addr)
  {
    if i < |t.kids| {
      DownGone(c, t, ups, w0, i);
    } else {
      UpGone(c, t, ups, w0, i - |t.kids|);
    }
  }

  lemma {:induction false} ReceiverGone(c: Scene, t: Net, ups: seq<Up>, w0: Surge, w: Surge)
    requires Inv(t) && Shallow(t) && ReceiverIdle(c, t, ups, w0, []) && Relisted(w0, w)
    requires w.val.member.table == ReceiverTable(w0.val.member, c.src)
    ensures OldAreGone(w0, w)
  {
    forall i | 0 <= i < |w0.kids|
      ensures w0.kids[i].val.member.node.addr in w0.val.member.table && OldAreGone(w0.kids[i], w.kids[i])
    {
      KidGone(c, t, ups, w0, i);
      AheadGone(w0.kids[i], w.kids[i], w0.val.member.node.addr);
    }
  }

  lemma {:induction false} StartTabled(c: Scene, n: Node, t: Net, ups: seq<Up>, m: Merger, w: Surge)
    requires m.node == n && m.red == c.red && c.src == n.addr
    requires ReceiverIdle(c, t, ups, w, []) && FreshBelow(c.red, w, w)
    ensures TopTabled(c.red, c.src, m, w, Start(m, w))
  {
    var s := Start(m, w);
    var mar := Proposal(m, w.val.member.node.addr).1;
    assert w.val.inbox + [mar] == [mar];
  }

  // ----- When it is over -----

  /** Everybody below lists the old address of the daemon above, seen from the proposer, and nobody else. */
  predicate Relisted(w0: Surge, w: Surge)
    decreases w0
  {
    && |w.kids| == |w0.kids|
    && forall i | 0 <= i < |w0.kids| ::
         w.kids[i].val.member.table == [w0.val.member.node.addr] && Relisted(w0.kids[i], w.kids[i])
  }

  lemma {:induction false} AllRelisted(red: nat, w0: Surge, u: Net, w: Surge)
    requires TabledBelow(red, w0, w.kids) && Merged(u, w, red)
    ensures Relisted(w0, w)
    decreases w0
  {
    forall i | 0 <= i < |w0.kids|
      ensures w.kids[i].val.member.table == [w0.val.member.node.addr] && Relisted(w0.kids[i], w.kids[i])
    {
      assert Merged(u.kids[i], w.kids[i], red);
      assert Tabled(red, w0.kids[i], w.kids[i], w0.val.member.node.addr);
      AllRelisted(red, w0.kids[i], u.kids[i], w.kids[i]);
    }
  }

  lemma {:induction false} ReceiverRelisted(red: nat, src: Host, w0: Surge, u: Net, w: Surge)
    requires ReceiverTabled(red, src, w0, w) && Merged(u, w, red)
    ensures w.val.member.table == ReceiverTable(w0.val.member, src) && Relisted(w0, w)
  {
    AllRelisted(red, w0, u, w);
  }

  /** The neighbour tables after every complete run of a merge. The proposer keeps its table. The receiver lists the
      proposer alone, or nobody if it had a neighbour with the proposer's address. Everybody else lists only the daemon
      from which its MAR came, under the address that this daemon had before the merge; nobody lists the old address
      of a daemon that it passed a MAR on to. */
  lemma {:induction false} MergeLeavesTables(host: Net, path: seq<nat>, rec: Net, way: seq<nat>, at: seq<nat>, m: Merger, w: Surge, run: seq<Delivery>)
    requires Inv(host) && OnPath(host, path) && m.node == SubtreeAt(host, path).val.node
    requires Inv(rec) && Shallow(rec) && rec.val.node.maskIni == 0 && OnPath(rec, way) && |at| == |way|
    requires var (t, ups) := Reroot(rec, way, at, []);
             var c := SceneOf(ROOT, m.node, t.val.node, m.red);
             && Feasible(c, t, ups) && ReceiverIdle(c, t, ups, w, [])
             && CanRun(ROOT, Start(m, w), run) && !MergeNetworks.CanGoOn(Reached(ROOT, Start(m, w), run))
    ensures var r := Reached(ROOT, Start(m, w), run);
            && r.val.member.table == m.table
            && |r.kids| == 1
            && r.kids[0].val.member.table == ReceiverTable(w.val.member, m.node.addr)
            && Relisted(w, r.kids[0]) && OldAreGone(w, r.kids[0])
  {
    var lost := MergeMakesOneNetwork(host, path, rec, way, at, m, w, run);
    RerootOk(rec, way, at, []);
    RerootRooted(rec, way, at, []);
    var t, ups := Reroot(rec, way, at, []).0, Reroot(rec, way, at, []).1;
    LeavesTables(SceneOf(ROOT, m.node, t.val.node, m.red), t, ups, m, w, run, lost);
  }

  lemma {:induction false} LeavesTables(c: Scene, t: Net, ups: seq<Up>, m: Merger, w: Surge, run: seq<Delivery>, lost: bool)
    requires Inv(t) && Shallow(t) && m.red == c.red && c.src == m.node.addr && Relabelling.Above(c.mf, t)
    requires forall i | 0 <= i < |ups| :: UpOk(ups[i]) && UpRooted(ups[i])
    requires ReceiverIdle(c, t, ups, w, []) && CanRun(c.root, Start(m, w), run)
    requires Finished(c, m.node, t, ups, lost, Reached(c.root, Start(m, w), run))
    ensures var r := Reached(c.root, Start(m, w), run);
            && r.val.member.table == m.table && |r.kids| == 1
            && r.kids[0].val.member.table == ReceiverTable(w.val.member, c.src)
            && Relisted(w, r.kids[0]) && OldAreGone(w, r.kids[0])
  {
    ReceiverFresh(c, t, ups, w);
    StartTabled(c, m.node, t, ups, m, w);
    RunKeepsTables(c.root, c.red, c.src, m, w, Start(m, w), run);
    var r := Reached(c.root, Start(m, w), run);
    ReceiverRelisted(c.red, c.src, w, Graft(Relabelling.ToNet(G(c), t), ups, lost), r.kids[0]);
    ReceiverGone(c, t, ups, w, r.kids[0]);
  }
}
