/** How the daemons of a tree react to the packets of a merge: what they send and the labels they get. */
module MergeReact {
  import opened Wrappers
  import opened Hypercube
  import opened Metric
  import opened Allocation
  import opened AllocationRun
  import opened Relabelling
  import opened RelabelledTree
  import opened Embedding
  import opened FragmentationRun
  import opened MergeNode
  import opened MergeTree
  import opened MergeFlood

  /** One merge: the proposer's address and proposed mask, the receiver's initial mask, and the number of
      the proposer's network. */
  datatype Scene = Scene(root: Host, src: Host, s: nat, mf: nat, red: nat)

  predicate SceneOk(c: Scene) {
    IsRoot(c.root) && c.s <= 64 && c.mf <= 63 && Shaped(c.src, c.s)
  }

  /** The relabelling of the receiver's subtree. */
  function G(c: Scene): Relabel {
    Embed(c.src, c.s, c.mf)
  }

  /** Masks and initial masks follow the merge equations at once; the address waits for a MAN. */
  function Halfway(g: Relabel, n: Node, splits: nat): Node
    requires NodeAbove(g.m0, n)
  {
    n.(mask := n.mask - g.m0 + g.p + splits, maskIni := n.maskIni - g.m0 + g.p)
  }

  function Settled(g: Relabel, n: Node, splits: nat): Node
    requires NodeAbove(g.m0, n)
  {
    ToNode(g, n).(mask := n.mask - g.m0 + g.p + splits)
  }

  /** A daemon of the receiver's subtree: its masks spare the root's bit, and it has the bit that the receiver's
      parent set. */
  predicate Sound(c: Scene, n: Node) {
    && c.mf <= n.maskIni && NodeOk(n) && n.sec == None
    && (c.mf >= 1 ==> n.addr[c.mf - 1])
    && n.mask <= 63 && forall e | e in n.rcvd :: e.mask <= 63
  }

  lemma {:induction false} MezclaEmbeds(c: Scene, a: Host)
    requires SceneOk(c) && (c.mf >= 1 ==> a[c.mf - 1])
    ensures Mezcla(c.root, c.src, c.s, c.mf, a) == To(G(c), a)
  {
    Branches(c.root, c.src, c.s, c.mf, a);
  }

  /** The data that every MAR1 and MAN1 of the merge carries. */
  predicate Carries1(c: Scene, p: Packet) {
    p.src == c.src && p.mask == c.s && p.red == c.red
  }

  lemma {:induction false} MovedParts(root: Host, p: Packet, mf: nat, e: Space, a: Host, k: nat)
    requires Mezcla(root, p.src, p.mask, mf, e.addr) == a
    requires k == e.mask - mf + p.mask + 1 && 0 <= k <= 255
    ensures Moved(root, p, mf, e) == Space(a, k)
  {
    assert e.mask + p.mask - (mf - 1) == k;
  }

  lemma {:induction false} RecoveredBits(c: Scene, n: Node, e: Space)
    requires Sound(c, n) && e in n.rcvd
    ensures c.mf < e.mask <= 63 && (c.mf >= 1 ==> e.addr[c.mf - 1])
  {
    assert Child(n, e);
  }

  lemma {:induction false} MovedIs(c: Scene, p: Packet, n: Node, e: Space)
    requires SceneOk(c) && Sound(c, n) && Carries1(c, p) && e in n.rcvd
    ensures c.mf <= e.mask && Moved(c.root, p, c.mf, e) == ToSpace(G(c), e)
  {
    RecoveredBits(c, n, e);
    MezclaEmbeds(c, e.addr);
    MovedParts(c.root, p, c.mf, e, To(G(c), e.addr), e.mask - c.mf + c.s + 1);
  }

  lemma {:induction false} MovedAllIs(c: Scene, p: Packet, n: Node)
    requires SceneOk(c) && Sound(c, n) && Carries1(c, p)
    ensures forall e | e in n.rcvd :: c.mf <= e.mask
    ensures MovedAll(c.root, p, c.mf, n.rcvd) == ToSpaces(G(c), n.rcvd)
  {
    var s := MovedAll(c.root, p, c.mf, n.rcvd);
    forall i | 0 <= i < |n.rcvd|
      ensures c.mf <= n.rcvd[i].mask && s[i] == ToSpace(G(c), n.rcvd[i])
    {
      MovedIs(c, p, n, n.rcvd[i]);
    }
  }

  /** The relabelling that process_mar1 and process_man1 share. */
  lemma {:induction false} SettleIs(c: Scene, m: Merger, p: Packet, n: Node, splits: nat)
    requires SceneOk(c) && Sound(c, n) && Carries1(c, p) && m.mf == c.mf
    requires m.node == Halfway(G(c), n, splits)
    ensures Settle(c.root, m, p) == m.(node := Settled(G(c), n, splits), busy := false)
  {
    MezclaEmbeds(c, n.addr);
    MovedAllIs(c, p, n);
    SettleParts(c.root, m, p, To(G(c), n.addr), ToSpaces(G(c), n.rcvd));
  }

  lemma {:induction false} SettleParts(root: Host, m: Merger, p: Packet, addr: Host, rcvd: seq<Space>)
    requires Mezcla(root, p.src, p.mask, m.mf, m.node.addr) == addr
    requires MovedAll(root, p, m.mf, m.node.rcvd) == rcvd
    ensures Settle(root, m, p) == m.(node := m.node.(addr := addr, rcvd := rcvd), busy := false)
  {
  }

  // ----- MAR1 -----

  /** The neighbours in the table are the children (farther from the root), the parent (not farther),
      each once, and the sender. */
  predicate Neighbours(tn: Turn, table: seq<Host>, kids: seq<Host>, ups: seq<Host>) {
    && |ups| <= 1
    && (forall i | 0 <= i < |table| :: Skips(tn, table[i]) || table[i] in kids || table[i] in ups)
    && (forall i | 0 <= i < |kids| :: Downward(tn, table, kids[i]))
    && (forall i | 0 <= i < |ups| :: Upward(tn, table, ups[i]))
  }

  predicate Downward(tn: Turn, table: seq<Host>, a: Host) {
    !Skips(tn, a) && Farther(tn, a) && multiset(table)[a] == 1
  }

  predicate Upward(tn: Turn, table: seq<Host>, a: Host) {
    !Skips(tn, a) && !Farther(tn, a) && multiset(table)[a] == 1
  }

  function Mar1For(c: Scene, own: Host, e: Host): Packet {
    Packet(MAR1, c.src, own, e, c.s, c.red, c.mf)
  }

  function Mar2For(red: nat, own: Host, addr: Host, mask: nat, e: Host): Packet {
    Packet(MAR2, addr, own, e, mask, red, 0)
  }

  /** What the loop sends to whom. */
  predicate Sent1(c: Scene, n: Node, x: Walk, kids: seq<Host>, ups: seq<Host>)
    requires NodeAbove(c.mf, n)
  {
    && (x.mars == [] <==> kids == [] && ups == [])
    && x.mask == n.mask - c.mf + c.s + 1 + |ups|
    && (forall i | 0 <= i < |kids| :: Select(x.mars, kids[i]) == [Mar1For(c, n.addr, kids[i])])
    && (forall i | 0 <= i < |ups| ::
          Select(x.mars, ups[i]) == [Mar2For(c.red, n.addr, To(G(c), n.addr), n.mask - c.mf + c.s + 2, ups[i])])
  }

  predicate TurnFits(c: Scene, n: Node, tn: Turn) {
    tn.root == c.root && tn.own == n.addr && tn.mf == c.mf && Carries1(c, tn.p)
  }

  lemma {:induction false} LoopSends(c: Scene, n: Node, tn: Turn, table: seq<Host>, kids: seq<Host>, ups: seq<Host>)
    requires SceneOk(c) && Sound(c, n) && TurnFits(c, n, tn) && Neighbours(tn, table, kids, ups)
    ensures Sent1(c, n, Mar1Walk(tn, Walk([], table, n.mask - c.mf + c.s + 1, n.addr), table), kids, ups)
  {
    var w := Walk([], table, n.mask - c.mf + c.s + 1, n.addr);
    LoopDown(c, n, tn, w, table, kids, ups);
    LoopSilent(tn, w, table, kids, ups);
    LoopParent(c, n, tn, w, table, kids, ups);
    SentParts(c, n, Mar1Walk(tn, w, table), kids, ups);
  }

  lemma {:induction false} LoopParent(c: Scene, n: Node, tn: Turn, w: Walk, table: seq<Host>, kids: seq<Host>, ups: seq<Host>)
    requires SceneOk(c) && Sound(c, n) && TurnFits(c, n, tn) && Neighbours(tn, table, kids, ups)
    requires w == Walk([], table, n.mask - c.mf + c.s + 1, n.addr)
    ensures var x := Mar1Walk(tn, w, table);
            && x.mask == n.mask - c.mf + c.s + 1 + |ups|
            && (ups != [] ==> Select(x.mars, ups[0]) ==
                              [Mar2For(c.red, n.addr, To(G(c), n.addr), n.mask - c.mf + c.s + 2, ups[0])])
  {
    if ups == [] {
      LoopNoUp(tn, w, table, kids);
    } else {
      LoopUp(c, n, tn, w, table, kids, ups);
      assert |ups| == 1;
    }
  }

  lemma {:induction false} SentParts(c: Scene, n: Node, x: Walk, kids: seq<Host>, ups: seq<Host>)
    requires NodeAbove(c.mf, n) && |ups| <= 1
    requires x.mars == [] <==> kids == [] && ups == []
    requires x.mask == n.mask - c.mf + c.s + 1 + |ups|
    requires forall i | 0 <= i < |kids| :: Select(x.mars, kids[i]) == [Mar1For(c, n.addr, kids[i])]
    requires ups != [] ==>
               Select(x.mars, ups[0]) == [Mar2For(c.red, n.addr, To(G(c), n.addr), n.mask - c.mf + c.s + 2, ups[0])]
    ensures Sent1(c, n, x, kids, ups)
  {
  }

  lemma {:induction false} LoopDown(c: Scene, n: Node, tn: Turn, w: Walk, table: seq<Host>, kids: seq<Host>, ups: seq<Host>)
    requires TurnFits(c, n, tn) && Neighbours(tn, table, kids, ups) && w.mars == []
    ensures forall i | 0 <= i < |kids| ::
              Select(Mar1Walk(tn, w, table).mars, kids[i]) == [Mar1For(c, n.addr, kids[i])]
  {
    forall i | 0 <= i < |kids|
      ensures Select(Mar1Walk(tn, w, table).mars, kids[i]) == [Mar1For(c, n.addr, kids[i])]
    {
      assert Downward(tn, table, kids[i]);
      WalkDown(tn, w, table, kids[i]);
    }
  }

  lemma {:induction false} LoopNoUp(tn: Turn, w: Walk, table: seq<Host>, kids: seq<Host>)
    requires Neighbours(tn, table, kids, [])
    ensures Mar1Walk(tn, w, table).mask == w.mask
  {
    forall i | 0 <= i < |table|
      ensures Skips(tn, table[i]) || Farther(tn, table[i])
    {
      if table[i] in kids {
        var j :| 0 <= j < |kids| && kids[j] == table[i];
        assert Downward(tn, table, kids[j]);
      }
    }
    WalkNoUp(tn, w, table);
  }

  lemma {:induction false} LoopSilent(tn: Turn, w: Walk, table: seq<Host>, kids: seq<Host>, ups: seq<Host>)
    requires w.mars == [] && Neighbours(tn, table, kids, ups)
    ensures Mar1Walk(tn, w, table).mars == [] <==> kids == [] && ups == []
  {
    WalkSilent(tn, w, table);
    if kids != [] {
      assert Downward(tn, table, kids[0]);
      assert kids[0] in table;
    } else if ups != [] {
      assert Upward(tn, table, ups[0]);
      assert ups[0] in table;
    }
  }

  lemma {:induction false} LoopUp(c: Scene, n: Node, tn: Turn, w: Walk, table: seq<Host>, kids: seq<Host>, ups: seq<Host>)
    requires SceneOk(c) && Sound(c, n) && TurnFits(c, n, tn) && Neighbours(tn, table, kids, ups) && ups != []
    requires w == Walk([], table, n.mask - c.mf + c.s + 1, n.addr)
    ensures var x := Mar1Walk(tn, w, table);
            && x.mask == n.mask - c.mf + c.s + 2
            && Select(x.mars, ups[0]) == [Mar2For(c.red, n.addr, To(G(c), n.addr), n.mask - c.mf + c.s + 2, ups[0])]
  {
    NextHolds(c, n, tn);
    MaskStays(c, n);
    LoopUpVia(tn, w, table, kids, ups, To(G(c), n.addr), n.addr, c.red, n.mask - c.mf + c.s + 2);
  }

  /** The address that the loop of process_mar1 computes from a for the parent. */
  predicate NextIs(tn: Turn, a: Host, next: Host) {
    forall b: Host | b == a :: Mezcla(tn.root, tn.p.src, tn.p.mask, tn.mf, b) == next
  }

  lemma {:induction false} NextHolds(c: Scene, n: Node, tn: Turn)
    requires SceneOk(c) && Sound(c, n) && TurnFits(c, n, tn)
    ensures NextIs(tn, n.addr, To(G(c), n.addr))
  {
    TurnNext(c, n, tn);
  }

  lemma {:induction false} LoopUpVia(tn: Turn, w: Walk, table: seq<Host>, kids: seq<Host>, ups: seq<Host>, next: Host, own: Host, red: nat, mask: nat)
    requires tn.p.red == red && tn.own == own && Neighbours(tn, table, kids, ups) && ups != []
    requires w == Walk([], table, w.mask, own) && w.mask <= 128 && mask == w.mask + 1 && NextIs(tn, own, next)
    ensures var x := Mar1Walk(tn, w, table);
            x.mask == mask && Select(x.mars, ups[0]) == [Mar2For(red, own, next, mask, ups[0])]
  {
    assert next == Mezcla(tn.root, tn.p.src, tn.p.mask, tn.mf, w.aux5);
    LoopUpAt(tn, w, table, kids, ups, next);
  }

  lemma {:induction false} MaskStays(c: Scene, n: Node)
    requires SceneOk(c) && Sound(c, n)
    ensures n.mask - c.mf + c.s + 1 <= 128
  {
  }

  lemma {:induction false} LoopUpAt(tn: Turn, w: Walk, table: seq<Host>, kids: seq<Host>, ups: seq<Host>, next: Host)
    requires Neighbours(tn, table, kids, ups) && ups != [] && w.mars == [] && w.mask <= 128
    requires next == Mezcla(tn.root, tn.p.src, tn.p.mask, tn.mf, w.aux5)
    ensures var x := Mar1Walk(tn, w, table);
            && x.mask == w.mask + 1
            && Select(x.mars, ups[0]) == [Mar2For(tn.p.red, tn.own, next, w.mask + 1, ups[0])]
  {
    var a := ups[0];
    assert Upward(tn, table, a);
    OnlyUp(tn, table, kids, ups);
    WalkUp(tn, w, next, table, a);
    BuddyIs(tn, w.mask, a, next);
  }

  lemma {:induction false} BuddyIs(tn: Turn, mask: nat, a: Host, next: Host)
    requires mask < 255
    ensures (mask + 1) % 256 == mask + 1
    ensures BuddyPacket(tn, mask, a, next) == Mar2For(tn.p.red, tn.own, next, mask + 1, a)
  {
  }

  lemma {:induction false} OnlyUp(tn: Turn, table: seq<Host>, kids: seq<Host>, ups: seq<Host>)
    requires Neighbours(tn, table, kids, ups) && ups != []
    ensures forall i | 0 <= i < |table| :: Skips(tn, table[i]) || Farther(tn, table[i]) || table[i] == ups[0]
  {
    forall i | 0 <= i < |table|
      ensures Skips(tn, table[i]) || Farther(tn, table[i]) || table[i] == ups[0]
    {
      if table[i] in kids {
        var j :| 0 <= j < |kids| && kids[j] == table[i];
        assert Downward(tn, table, kids[j]);
      }
    }
  }

  /** What the loop computes for the parent is the daemon's own new address. */
  lemma {:induction false} TurnNext(c: Scene, n: Node, tn: Turn)
    requires SceneOk(c) && Sound(c, n) && TurnFits(c, n, tn)
    ensures Mezcla(tn.root, tn.p.src, tn.p.mask, tn.mf, n.addr) == To(G(c), n.addr)
  {
    MezclaEmbeds(c, n.addr);
  }

  /** The state and packets after process_mar1 has accepted its MAR1. */
  predicate Reacted1(c: Scene, n: Node, kids: seq<Host>, ups: seq<Host>, to: Host, r: Merger, mars: seq<Packet>, man: Packet)
    requires NodeAbove(c.mf, n)
  {
    && r.red == c.red && r.mf == c.mf
    && IsMan1(c, man) && man.dst == to
    && r.busy == (kids != [] || ups != [])
    && r.node == (if r.busy then Halfway(G(c), n, |ups|) else Settled(G(c), n, |ups|))
    && (mars == [] <==> !r.busy)
    && (forall i | 0 <= i < |kids| :: Select(mars, kids[i]) == [Mar1For(c, n.addr, kids[i])])
    && (forall i | 0 <= i < |ups| ::
          Select(mars, ups[i]) == [Mar2For(c.red, n.addr, To(G(c), n.addr), n.mask - c.mf + c.s + 2, ups[i])])
  }

  predicate IsMan1(c: Scene, p: Packet) {
    p.kind == MAN1 && Carries1(c, p)
  }

  lemma {:induction false} Mar1Reacts(c: Scene, n: Node, m: Merger, p: Packet, kids: seq<Host>, ups: seq<Host>)
    requires SceneOk(c) && Sound(c, n) && m.node == n && Carries1(c, p) && ShiftOf(m, p) == c.mf
    requires Neighbours(TurnOf(c.root, m, p), Mar1Table(m, p), kids, ups)
    requires kids != [] || ups != [] ==> Mar1Loops(m, p)
    ensures var (r, mars, man) := HearMar1(c.root, m, p);
            Reacted1(c, n, kids, ups, p.prim, r, mars, man)
  {
    var k := Masked(m, p);
    var w := Looped(c.root, m, p);
    MaskedIs(c, n, m, p);
    LoopedSends(c, n, m, p, kids, ups);
    var r := k.(node := k.node.(mask := w.mask), table := w.table);
    if w.mars == [] {
      SettleIs(c, r, p, n, 0);
    }
  }

  /** What the loop of process_mar1 sent, if it ran. */
  function Looped(root: Host, m: Merger, p: Packet): Walk {
    var k := Masked(m, p);
    var w0 := Walk([], k.table, k.node.mask, k.node.addr);
    if Mar1Loops(m, p) then Mar1Walk(TurnOf(root, m, p), w0, k.table) else w0
  }

  lemma {:induction false} LoopedSends(c: Scene, n: Node, m: Merger, p: Packet, kids: seq<Host>, ups: seq<Host>)
    requires SceneOk(c) && Sound(c, n) && m.node == n && Carries1(c, p) && ShiftOf(m, p) == c.mf
    requires Neighbours(TurnOf(c.root, m, p), Mar1Table(m, p), kids, ups)
    requires kids != [] || ups != [] ==> Mar1Loops(m, p)
    ensures Sent1(c, n, Looped(c.root, m, p), kids, ups)
  {
    MaskedIs(c, n, m, p);
    LoopSends(c, n, TurnOf(c.root, m, p), Masked(m, p).table, kids, ups);
  }

  /** The mask equations at a daemon whose space is carried over whole. */
  lemma {:induction false} MaskedIs(c: Scene, n: Node, m: Merger, p: Packet)
    requires SceneOk(c) && Sound(c, n) && m.node == n && Carries1(c, p) && ShiftOf(m, p) == c.mf
    ensures Masked(m, p).node == Halfway(G(c), n, 0)
    ensures Masked(m, p).red == c.red && Masked(m, p).mf == c.mf && Masked(m, p).busy
  {
  }

  // ----- Below the receiver -----

  lemma {:induction false} DefaultIsNoHost(a: Host)
    requires a[63]
    ensures a != Default()
  {
    assert !Default()[63];
  }

  lemma {:induction false} KidFacts(c: Scene, t: Net, i: nat)
    requires Inv(t) && Shallow(t) && IsRoot(c.root) && i < |t.kids|
    ensures var n, k := t.val.node, t.kids[i].val.node.maskIni - 1;
            && n.maskIni <= k < 63 && Addrs(t.kids)[i] == Flip(n.addr, k) && !n.addr[k]
            && Dist(c.root, n.addr) < Dist(c.root, Addrs(t.kids)[i])
            && multiset(Addrs(t.kids))[Addrs(t.kids)[i]] == 1
  {
    assert t.kids[i] in t.kids;
    assert Shallow(t.kids[i]) && Ok(t.kids[i]);
    KidCount(t, i);
    ChildIsFarther(c.root, t.val.node.addr, t.kids[i].val.node.maskIni - 1);
  }

  predicate Links(t: Net, m: Merger, extra: multiset<Host>) {
    m.node == t.val.node && multiset(m.table) == multiset(Addrs(t.kids)) + extra
  }

  lemma {:induction false} DownTurn(c: Scene, m: Merger, p: Host)
    requires p[63]
    ensures var q := Mar1For(c, p, m.node.addr);
            && TurnOf(c.root, m, q) == Turn(c.root, m.node.addr, p, false, q, c.mf)
            && Mar1Table(m, q) == m.table && ShiftOf(m, q) == c.mf && Carries1(c, q)
  {
    DefaultIsNoHost(p);
  }

  lemma {:induction false} KidDownward(c: Scene, t: Net, p: Host, m: Merger, tn: Turn, i: nat)
    requires Inv(t) && Shallow(t) && IsRoot(c.root) && i < |t.kids|
    requires Below(p, 0, t.val.node) && Links(t, m, multiset{p})
    requires tn.root == c.root && tn.own == t.val.node.addr && tn.sender == p
    ensures Downward(tn, m.table, Addrs(t.kids)[i])
  {
    KidFacts(c, t, i);
    var k := t.kids[i].val.node.maskIni - 1;
    assert Addrs(t.kids)[i][k] && !p[k];
  }

  lemma {:induction false} DownNeighbours(c: Scene, t: Net, p: Host, m: Merger, tn: Turn)
    requires Inv(t) && Shallow(t) && IsRoot(c.root)
    requires Below(p, 0, t.val.node) && Links(t, m, multiset{p})
    requires tn.root == c.root && tn.own == t.val.node.addr && tn.sender == p && !tn.monitor
    ensures Neighbours(tn, m.table, Addrs(t.kids), [])
  {
    var kids := Addrs(t.kids);
    forall i | 0 <= i < |kids|
      ensures Downward(tn, m.table, kids[i])
    {
      KidDownward(c, t, p, m, tn, i);
    }
    forall i | 0 <= i < |m.table|
      ensures Skips(tn, m.table[i]) || m.table[i] in kids
    {
      assert m.table[i] in multiset(m.table);
    }
  }

  /** A daemon below the receiver passes MAR1 on to its children and answers its parent. */
  lemma {:induction false} DownReacts(c: Scene, t: Net, p: Host, m: Merger)
    requires SceneOk(c) && Inv(t) && Shallow(t) && Sound(c, t.val.node)
    requires Below(p, 0, t.val.node) && p[63] && Links(t, m, multiset{p})
    ensures var (r, mars, man) := HearMar1(c.root, m, Mar1For(c, p, t.val.node.addr));
            Reacted1(c, t.val.node, Addrs(t.kids), [], p, r, mars, man)
  {
    var q := Mar1For(c, p, t.val.node.addr);
    DownTurn(c, m, p);
    DownNeighbours(c, t, p, m, TurnOf(c.root, m, q));
    if t.kids != [] {
      ParentHasSplit(t);
    }
    Mar1Reacts(c, t.val.node, m, q, Addrs(t.kids), []);
  }

  // ----- The receiver -----

  function UpAddrs(us: seq<Up>): (r: seq<Host>)
    ensures |r| == |us| && forall i | 0 <= i < |us| :: r[i] == us[i].val.addr
  {
    if us == [] then [] else [us[0].val.addr] + UpAddrs(us[1..])
  }

  /** The receiver's parent, if it has one. */
  predicate ParentOf(ups: seq<Up>, n: Node) {
    && |ups| <= 1
    && (ups != [] ==> 1 <= n.maskIni <= 63 && n.addr[n.maskIni - 1] && ups[0].val.addr == Flip(n.addr, n.maskIni - 1))
  }

  function FirstMar(c: Scene, dst: Host): Packet {
    Packet(MAR1, c.src, Default(), dst, c.s, c.red, 0)
  }

  lemma {:induction false} ReceiverTurn(c: Scene, m: Merger)
    requires m.node.maskIni == c.mf
    ensures var q, on := FirstMar(c, m.node.addr), c.src in m.table;
            && TurnOf(c.root, m, q) == Turn(c.root, m.node.addr, c.src, on, q, c.mf)
            && Mar1Table(m, q) == (if !on && m.table != [] then m.table + [c.src] else m.table)
            && ShiftOf(m, q) == c.mf && Carries1(c, q)
  {
  }

  lemma {:induction false} KidOfReceiver(c: Scene, t: Net, ups: seq<Up>, i: nat)
    requires Inv(t) && Shallow(t) && IsRoot(c.root) && i < |t.kids| && ParentOf(ups, t.val.node)
    ensures Addrs(t.kids)[i] !in UpAddrs(ups)
  {
    KidFacts(c, t, i);
    var n, k := t.val.node, t.kids[i].val.node.maskIni - 1;
    if ups != [] {
      assert UpAddrs(ups) == [Flip(n.addr, n.maskIni - 1)];
      assert Flip(n.addr, k)[k] != Flip(n.addr, n.maskIni - 1)[k];
    }
  }

  lemma {:induction false} ParentIsNearer(c: Scene, t: Net, ups: seq<Up>, tn: Turn)
    requires IsRoot(c.root) && ParentOf(ups, t.val.node) && ups != []
    requires tn.root == c.root && tn.own == t.val.node.addr
    ensures !Farther(tn, UpAddrs(ups)[0])
  {
    ChildIsFarther(c.root, t.val.node.addr, t.val.node.maskIni - 1);
  }

  lemma {:induction false} ReceiverDownward(c: Scene, t: Net, ups: seq<Up>, m: Merger, tn: Turn, table: seq<Host>, i: nat)
    requires Inv(t) && Shallow(t) && IsRoot(c.root) && ParentOf(ups, t.val.node) && i < |t.kids|
    requires Links(t, m, multiset(UpAddrs(ups)))
    requires tn.root == c.root && tn.own == t.val.node.addr && tn.sender == c.src && tn.monitor == (c.src in m.table)
    requires table == if !tn.monitor && m.table != [] then m.table + [c.src] else m.table
    ensures Downward(tn, table, Addrs(t.kids)[i])
  {
    var a := Addrs(t.kids)[i];
    KidFacts(c, t, i);
    KidOfReceiver(c, t, ups, i);
    assert multiset(m.table)[a] == 1;
    ListedOnce(c.src, m.table, table, a);
  }

  lemma {:induction false} ReceiverUpward(c: Scene, t: Net, ups: seq<Up>, m: Merger, tn: Turn, table: seq<Host>)
    requires Inv(t) && Shallow(t) && IsRoot(c.root) && ParentOf(ups, t.val.node) && ups != []
    requires Links(t, m, multiset(UpAddrs(ups)))
    requires tn.root == c.root && tn.own == t.val.node.addr && tn.sender == c.src && tn.monitor == (c.src in m.table)
    requires table == if !tn.monitor && m.table != [] then m.table + [c.src] else m.table
    ensures Upward(tn, table, UpAddrs(ups)[0])
  {
    var a := UpAddrs(ups)[0];
    ParentIsNearer(c, t, ups, tn);
    UpNotKid(c, t, ups);
    assert multiset(m.table)[a] == 1;
    ListedOnce(c.src, m.table, table, a);
  }

  /** The table with the proposer added unless a neighbour already has its address. */
  lemma {:induction false} ReceiverNeighbours(c: Scene, t: Net, ups: seq<Up>, m: Merger, tn: Turn, table: seq<Host>)
    requires Inv(t) && Shallow(t) && IsRoot(c.root) && ParentOf(ups, t.val.node)
    requires Links(t, m, multiset(UpAddrs(ups)))
    requires tn.root == c.root && tn.own == t.val.node.addr && tn.sender == c.src
    requires tn.monitor == (c.src in m.table)
    requires table == if !tn.monitor && m.table != [] then m.table + [c.src] else m.table
    ensures Neighbours(tn, table, Addrs(t.kids), UpAddrs(ups))
  {
    ReceiverDownwards(c, t, ups, m, tn, table);
    if ups != [] {
      ReceiverUpward(c, t, ups, m, tn, table);
    }
    OnlyLinks(tn, m.table, table, Addrs(t.kids), UpAddrs(ups));
    NeighboursParts(tn, table, Addrs(t.kids), UpAddrs(ups));
  }

  lemma {:induction false} NeighboursParts(tn: Turn, table: seq<Host>, kids: seq<Host>, us: seq<Host>)
    requires |us| <= 1 && (us != [] ==> Upward(tn, table, us[0]))
    requires forall i | 0 <= i < |kids| :: Downward(tn, table, kids[i])
    requires forall i | 0 <= i < |table| :: Skips(tn, table[i]) || table[i] in kids || table[i] in us
    ensures Neighbours(tn, table, kids, us)
  {
  }

  lemma {:induction false} ReceiverDownwards(c: Scene, t: Net, ups: seq<Up>, m: Merger, tn: Turn, table: seq<Host>)
    requires Inv(t) && Shallow(t) && IsRoot(c.root) && ParentOf(ups, t.val.node)
    requires Links(t, m, multiset(UpAddrs(ups)))
    requires tn.root == c.root && tn.own == t.val.node.addr && tn.sender == c.src && tn.monitor == (c.src in m.table)
    requires table == if !tn.monitor && m.table != [] then m.table + [c.src] else m.table
    ensures forall i | 0 <= i < |Addrs(t.kids)| :: Downward(tn, table, Addrs(t.kids)[i])
  {
    forall i | 0 <= i < |Addrs(t.kids)|
      ensures Downward(tn, table, Addrs(t.kids)[i])
    {
      ReceiverDownward(c, t, ups, m, tn, table, i);
    }
  }

  /** Whoever is listed is a child, the parent, or the sender. */
  lemma {:induction false} OnlyLinks(tn: Turn, was: seq<Host>, table: seq<Host>, kids: seq<Host>, us: seq<Host>)
    requires multiset(was) == multiset(kids) + multiset(us) && tn.monitor == (tn.sender in was)
    requires table == if !tn.monitor && was != [] then was + [tn.sender] else was
    ensures forall i | 0 <= i < |table| :: Skips(tn, table[i]) || table[i] in kids || table[i] in us
  {
    forall i | 0 <= i < |table|
      ensures Skips(tn, table[i]) || table[i] in kids || table[i] in us
    {
      if table[i] in was {
        assert table[i] in multiset(was);
      }
    }
  }

  lemma {:induction false} UpNotKid(c: Scene, t: Net, ups: seq<Up>)
    requires Inv(t) && Shallow(t) && IsRoot(c.root) && ParentOf(ups, t.val.node) && ups != []
    ensures multiset(Addrs(t.kids))[UpAddrs(ups)[0]] == 0
    ensures multiset(UpAddrs(ups))[UpAddrs(ups)[0]] == 1
  {
    var a := UpAddrs(ups)[0];
    if a in Addrs(t.kids) {
      var i :| 0 <= i < |t.kids| && Addrs(t.kids)[i] == a;
      KidOfReceiver(c, t, ups, i);
    }
    assert UpAddrs(ups) == [a];
  }

  lemma {:induction false} ListedOnce(src: Host, was: seq<Host>, table: seq<Host>, a: Host)
    requires multiset(was)[a] == 1
    requires table == if src !in was && was != [] then was + [src] else was
    ensures multiset(table)[a] == 1 && (src !in was ==> a != src)
  {
    assert a in was;
  }

  /** The receiver passes MAR1 down, grants its parent a buddy, and answers the proposer. */
  lemma {:induction false} ReceiverReacts(c: Scene, t: Net, ups: seq<Up>, m: Merger)
    requires SceneOk(c) && Inv(t) && Shallow(t) && Sound(c, t.val.node) && t.val.node.maskIni == c.mf
    requires ParentOf(ups, t.val.node) && Links(t, m, multiset(UpAddrs(ups)))
    ensures var (r, mars, man) := HearMar1(c.root, m, FirstMar(c, t.val.node.addr));
            Reacted1(c, t.val.node, Addrs(t.kids), UpAddrs(ups), Default(), r, mars, man)
  {
    var q, kids, us := FirstMar(c, t.val.node.addr), Addrs(t.kids), UpAddrs(ups);
    ReceiverTurn(c, m);
    ReceiverNeighbours(c, t, ups, m, TurnOf(c.root, m, q), Mar1Table(m, q));
    if kids != [] || us != [] {
      assert |multiset(m.table)| == |kids| + |us|;
      assert m.table != [];
    }
    Mar1Reacts(c, t.val.node, m, q, kids, us);
  }

  // ----- Above the receiver -----

  /** What is known of a daemon above the receiver; p is the neighbour its MAR2 will come from. */
  predicate UpLinks(u: Up, m: Merger, p: Host) {
    && m.node == u.val
    && |m.table| == |u.kids| + 1
    && Others(m.table, p) == UpAddrs(u.kids)
  }

  predicate UpOk(u: Up) {
    && (u.kids != [] ==> u.val.mask != u.val.maskIni)
    && (forall i, j | 0 <= i < j < |u.kids| :: u.kids[i].val.addr != u.kids[j].val.addr)
    && forall i | 0 <= i < |u.kids| :: UpOk(u.kids[i])
  }

  function UpHalfway(n: Node, k: nat, splits: nat): Node {
    n.(mask := k + splits, maskIni := k)
  }

  function UpSettled(n: Node, addr: Host, k: nat, splits: nat): Node {
    n.(addr := addr, mask := k + splits, maskIni := k, rcvd := [])
  }

  predicate IsMan2(red: nat, a: Host, p: Packet) {
    p.kind == MAN2 && p.src == a && p.red == red
  }

  predicate Reacted2(u: Up, red: nat, a: Host, k: nat, to: Host, r: Merger, mars: seq<Packet>, man: Packet)
    requires k >= 1
  {
    var addr := SetBit(a, k - 1);
    && r.red == red && IsMan2(red, a, man) && man.dst == to
    && r.busy == (u.kids != [])
    && r.node == (if r.busy then UpHalfway(u.val, k, |u.kids|) else UpSettled(u.val, addr, k, 0))
    && (mars == [] <==> !r.busy)
    && forall i | 0 <= i < |u.kids| ::
         Select(mars, u.kids[i].val.addr) == [Mar2For(red, u.val.addr, addr, k + i + 1, u.kids[i].val.addr)]
  }

  /** A daemon above the receiver takes its buddy and grants the next ones to all its other neighbours. */
  lemma {:induction false} Mar2Reacts(u: Up, m: Merger, red: nat, a: Host, k: nat, p: Host)
    requires UpOk(u) && UpLinks(u, m, p) && 1 <= k && k + |u.kids| <= 254
    ensures var (r, mars, man) := HearMar2(m, Mar2For(red, p, a, k, u.val.addr));
            Reacted2(u, red, a, k, p, r, mars, man)
  {
    var q, addr, own := Mar2For(red, p, a, k, u.val.addr), SetBit(a, k - 1), u.val.addr;
    BuddySetsBit(a, k);
    var w0 := Walk([], m.table, k, addr);
    WalkGrants(own, addr, q, w0, m.table);
    var w := if m.node.mask != m.node.maskIni then Mar2Walk(own, addr, q, w0, m.table) else w0;
    assert w.mars == Grants(own, addr, k, red, UpAddrs(u.kids)) && w.mask == k + |u.kids|;
    GrantsSelected(u, own, addr, k, red);
    Mar2Outcome(u, m, red, a, k, p, w);
  }

  lemma {:induction false} GrantsSelected(u: Up, own: Host, addr: Host, k: nat, red: nat)
    requires UpOk(u)
    ensures forall i | 0 <= i < |u.kids| ::
              Select(Grants(own, addr, k, red, UpAddrs(u.kids)), u.kids[i].val.addr) ==
              [Mar2For(red, own, addr, k + i + 1, u.kids[i].val.addr)]
  {
    forall i | 0 <= i < |u.kids|
      ensures Select(Grants(own, addr, k, red, UpAddrs(u.kids)), u.kids[i].val.addr) ==
              [Mar2For(red, own, addr, k + i + 1, u.kids[i].val.addr)]
    {
      GrantSelected(u, own, addr, k, red, i);
    }
  }

  /** The reaction, from what the loop sent. */
  lemma {:induction false} Mar2Outcome(u: Up, m: Merger, red: nat, a: Host, k: nat, p: Host, w: Walk)
    requires m.node == u.val && 1 <= k && BuddyOf(a, k) == SetBit(a, k - 1)
    requires var addr := SetBit(a, k - 1);
             w == if m.node.mask != m.node.maskIni
                  then Mar2Walk(u.val.addr, addr, Mar2For(red, p, a, k, u.val.addr), Walk([], m.table, k, addr), m.table)
                  else Walk([], m.table, k, addr)
    requires w.mask == k + |u.kids| && (w.mars == [] <==> u.kids == [])
    requires forall i | 0 <= i < |u.kids| ::
               Select(w.mars, u.kids[i].val.addr) ==
               [Mar2For(red, u.val.addr, SetBit(a, k - 1), k + i + 1, u.kids[i].val.addr)]
    ensures var (r, mars, man) := HearMar2(m, Mar2For(red, p, a, k, u.val.addr));
            Reacted2(u, red, a, k, p, r, mars, man)
  {
  }

  lemma {:induction false} GrantSelected(u: Up, own: Host, addr: Host, k: nat, red: nat, i: nat)
    requires UpOk(u) && i < |u.kids|
    ensures var a := u.kids[i].val.addr;
            Select(Grants(own, addr, k, red, UpAddrs(u.kids)), a) == [Mar2For(red, own, addr, k + i + 1, a)]
  {
    var ps, s := Grants(own, addr, k, red, UpAddrs(u.kids)), UpAddrs(u.kids);
    assert ps[i] == Mar2For(red, own, addr, k + i + 1, s[i]);
    forall j | 0 <= j < |ps| && j != i
      ensures ps[j].dst != ps[i].dst
    {
      UpKidsDiffer(u, i, j);
      assert ps[j].dst == s[j];
    }
    SelectOne(ps, i);
  }

  lemma {:induction false} UpKidsDiffer(u: Up, i: nat, j: nat)
    requires UpOk(u) && i < |u.kids| && j < |u.kids| && i != j
    ensures UpAddrs(u.kids)[i] != UpAddrs(u.kids)[j]
  {
    if i < j {
      assert u.kids[i].val.addr != u.kids[j].val.addr;
    } else {
      assert u.kids[j].val.addr != u.kids[i].val.addr;
    }
  }
}
