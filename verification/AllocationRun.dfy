/** The allocation protocol over whole runs: a tree of daemons exchanging PAR/PAP/PAN/PANC, heartbeats and
    SAP/SAN, losing members and neighbours and recovering their space. */
module AllocationRun {
  import opened Wrappers
  import opened Hypercube
  import opened Metric
  import opened Allocation

  datatype Tree<A> = Tree(val: A, kids: seq<Tree<A>>)

  /** Why no daemon holds a space: the PANC has not reached the newcomer, the child left and has not yet
      been aged out of its parent's neighbour table, or nothing will ever bring the space back. */
  datatype Why = Granted | Departed | Leaked

  datatype Limbo = Limbo(space: Space, why: Why)

  /** A SAP: the secondary space that the daemon will take, and the neighbour it was proposed to. */
  datatype Sap = Sap(space: Space, to: Host)

  /** What a daemon keeps about neighbours that are not its children: flag_addr_avai, the SAPs that may
      still be answered, and the neighbour table. */
  datatype Link = Link(avai: bool, saps: seq<Sap>, heard: seq<Space>)

  function Unlinked(): Link {
    Link(true, [], [])
  }

  /** A member of the network, the limbo spaces it is the parent of, its offers (PAPs) that newcomers may
      still choose, and its other neighbours. */
  datatype Cell = Cell(node: Node, limbo: seq<Limbo>, offers: seq<Space>, link: Link)

  type Net = Tree<Cell>

  function Spaces(s: seq<Limbo>): (r: seq<Space>)
    ensures |r| == |s| && forall i | 0 <= i < |s| :: r[i] == s[i].space
  {
    if s == [] then [] else [s[0].space] + Spaces(s[1..])
  }

  function Lost(s: seq<Space>): (r: seq<Limbo>)
    ensures |r| == |s| && forall i | 0 <= i < |s| :: r[i] == Limbo(s[i], Leaked)
  {
    if s == [] then [] else [Limbo(s[0], Leaked)] + Lost(s[1..])
  }

  function Inits(kids: seq<Net>): (r: seq<Space>)
    ensures |r| == |kids| && forall i | 0 <= i < |kids| :: r[i] == Init(kids[i].val.node)
  {
    if kids == [] then [] else [Init(kids[0].val.node)] + Inits(kids[1..])
  }

  /** Everything the daemon itself owns. */
  function Holds(v: Measure, n: Node): nat {
    Value(v, Own(n)) + Sum(v, SecOf(n)) + Sum(v, n.rcvd)
  }

  /** The daemon's initial space is exactly what it holds, its limbo and its children's initial spaces. */
  predicate Ledger(v: Measure, c: Cell, kids: seq<Net>) {
    Holds(v, c.node) + Sum(v, Spaces(c.limbo)) + Sum(v, Inits(kids)) == Value(v, Init(c.node))
  }

  predicate Balanced(v: Measure, t: Net) {
    && Ledger(v, t.val, t.kids)
    && forall k | k in t.kids :: Balanced(v, k)
  }

  /** e is a buddy that n can have split off its own initial space. */
  predicate Child(n: Node, e: Space) {
    && n.maskIni < e.mask <= 64
    && e.addr == Flip(n.addr, e.mask - 1)
  }

  predicate NodeOk(n: Node) {
    && n.maskIni <= n.mask <= 64
    && Shaped(n.addr, n.maskIni)
    && (forall e | e in n.rcvd :: Child(n, e))
    && (n.sec.Some? ==> Child(n, n.sec.value))
  }

  /** A neighbour with this address lies in the daemon's own initial space: it is a child. */
  predicate Inner(n: Node, a: Host) {
    Dist(n.addr, a) == 1 && Covers(Init(n), a)
  }

  predicate LinkOk(n: Node, l: Link) {
    && (forall s | s in l.saps :: Child(n, s.space) && !Inner(n, s.to))
    && (forall e | e in l.heard :: !Inner(n, e.addr))
  }

  predicate LocalOk(c: Cell, kids: seq<Net>) {
    && NodeOk(c.node)
    && (forall k | k in kids :: Child(c.node, Init(k.val.node)))
    && (forall l | l in c.limbo :: Child(c.node, l.space))
    && (forall o | o in c.offers :: Child(c.node, o))
    && LinkOk(c.node, c.link)
  }

  predicate Ok(t: Net) {
    && LocalOk(t.val, t.kids)
    && forall k | k in t.kids :: Ok(k)
  }

  ghost predicate Inv(t: Net) {
    Ok(t) && forall v :: Balanced(v, t)
  }

  predicate NoSecondary(t: Net) {
    t.val.node.sec == None && forall k | k in t.kids :: NoSecondary(k)
  }

  function Founder(): Net {
    Newcomer(Space(ROOT, 0))
  }

  datatype Event =
    | Par                     // a PAR arrives; the answer becomes an outstanding offer
    | Withdraw(i: nat)        // the newcomer of offer i chose another parent
    | Pan(i: nat)             // the newcomer chose offer i
    | Panc(i: nat)            // limbo i was granted, and the newcomer receives the PANC
    | Leave(i: nat)           // child i leaves, and its subtree leaves the network with it
    | Expire(i: nat)          // limbo i departed, and its entry is aged out of the neighbour table
    | Hb(b: Beat)             // a heartbeat arrives; a neighbour is listed, or a SAP is sent
    | Forget(i: nat)          // listed neighbour i, not a child, is aged out
    | SanTimer                // the timer of a SAP expires
    | Unanswered(i: nat)      // the SAN for SAP i will never come
    | San(i: nat, mask: nat)  // the SAN for SAP i arrives, with the mask of its sender
    | Release                 // the link through the secondary space is gone

  predicate LocalEnabled(c: Cell, kids: seq<Net>, ev: Event) {
    match ev
    case Par => true
    case Withdraw(i) => i < |c.offers|
    case Pan(i) => i < |c.offers|
    case Panc(i) => i < |c.limbo| && c.limbo[i].why == Granted
    case Leave(i) => i < |kids|
    case Expire(i) => i < |c.limbo| && c.limbo[i].why == Departed
    case Hb(b) => true
    case Forget(i) => i < |c.link.heard|
    case SanTimer => true
    case Unanswered(i) => i < |c.link.saps|
    case San(i, mask) => i < |c.link.saps|
    case Release => c.node.sec.Some?
  }

  function Without<T>(s: seq<T>, i: nat): seq<T>
    requires i < |s|
  {
    s[..i] + s[i + 1..]
  }

  function ParStep(c: Cell): Cell {
    var (n, offer) := PapOffer(c.node);
    c.(node := n, offers := c.offers + if offer.Some? then [offer.value] else [])
  }

  function PanStep(c: Cell, i: nat): Cell
    requires i < |c.offers|
  {
    var o := c.offers[i];
    Cell(PancCommit(c.node, o.addr), c.limbo + [Limbo(o, Granted)], Without(c.offers, i), c.link)
  }

  function Newcomer(s: Space): Net {
    Tree(Cell(NewNode(s), [], [], Unlinked()), [])
  }

  function ExpireStep(c: Cell, i: nat): Cell
    requires i < |c.limbo|
  {
    var e := c.limbo[i].space;
    if Successor(c.node.addr, e.addr) then
      c.(node := c.node.(rcvd := c.node.rcvd + [e]), limbo := Without(c.limbo, i))
    else
      c.(limbo := c.limbo[i := Limbo(e, Leaked)])
  }

  function ReactionOf(n: Node, b: Beat): Reaction {
    Reacts(n.addr, true, SecAddr(n), b)
  }

  /** The SAP that a heartbeat makes the daemon send, if any. */
  function SapOf(c: Cell, b: Beat): Option<Space> {
    if ReactionOf(c.node, b) == Seek then SapFor(c.node, c.link.avai, b.addr) else None
  }

  /** A heartbeat from inside the own initial space at distance one is a child's: its entry is the child
      itself. */
  function HbStep(c: Cell, b: Beat): Cell {
    var l, sap := c.link, SapOf(c, b);
    if ReactionOf(c.node, b) == Listen && !Inner(c.node, b.addr) && !Listed(l.heard, b.addr) then
      c.(link := l.(heard := l.heard + [Space(b.addr, b.maskIni)]))
    else if sap.Some? then c.(link := l.(avai := false, saps := l.saps + [Sap(sap.value, b.src)]))
    else c
  }

  /** check_neighbors for a neighbour that is not a child: it is taken for a successor all the same if the
      bits look like one's. */
  function ForgetStep(c: Cell, i: nat): Cell
    requires i < |c.link.heard|
  {
    var e := c.link.heard[i];
    c.(node := c.node.(rcvd := c.node.rcvd + Regain(c.node.addr, e)),
       link := c.link.(heard := Unlist(c.link.heard, e.addr)))
  }

  /** Position of the limbo entry that says that this space leaked, or the length of the list. */
  function LeakedAt(s: seq<Limbo>, o: Space): (i: nat)
    ensures i <= |s|
    ensures i < |s| <==> Limbo(o, Leaked) in s
    ensures i < |s| ==> s[i] == Limbo(o, Leaked)
  {
    if s == [] || s[0] == Limbo(o, Leaked) then 0 else 1 + LeakedAt(s[1..], o)
  }

  function Reclaimed(s: seq<Limbo>, o: Space): seq<Limbo> {
    if LeakedAt(s, o) < |s| then Without(s, LeakedAt(s, o)) else s
  }

  /** The buddies a daemon passes over when its secondary space is not its next free one. */
  function Skipped(n: Node, o: Space): seq<Space> {
    if n.mask < o.mask <= 64 then Splits(n.addr, n.mask, o.mask - 1) else []
  }

  /** What drops out of a daemon's hands when it takes o: its old secondary space and the buddies passed
      over. */
  function Dropped(n: Node, o: Space): seq<Space> {
    (if n.sec == Some(o) then [] else SecOf(n)) + Skipped(n, o)
  }

  function SanStep(c: Cell, i: nat, mask: nat): Cell
    requires i < |c.link.saps|
  {
    var o, to := c.link.saps[i].space, c.link.saps[i].to;
    c.(node := SanAccept(c.node, o),
       limbo := Reclaimed(c.limbo, o) + Lost(Dropped(c.node, o)),
       link := Link(true, Without(c.link.saps, i), c.link.heard + [Space(to, mask)]))
  }

  function Local(c: Cell, kids: seq<Net>, ev: Event): Net
    requires LocalEnabled(c, kids, ev)
  {
    match ev
    case Par => Tree(ParStep(c), kids)
    case Withdraw(i) => Tree(c.(offers := Without(c.offers, i)), kids)
    case Pan(i) => Tree(PanStep(c, i), kids)
    case Panc(i) => Tree(c.(limbo := Without(c.limbo, i)), kids + [Newcomer(c.limbo[i].space)])
    case Leave(i) =>
      Tree(c.(limbo := c.limbo + [Limbo(Init(kids[i].val.node), Departed)]), Without(kids, i))
    case Expire(i) => Tree(ExpireStep(c, i), kids)
    case Hb(b) => Tree(HbStep(c, b), kids)
    case Forget(i) => Tree(ForgetStep(c, i), kids)
    case SanTimer => Tree(c.(link := c.link.(avai := true)), kids)
    case Unanswered(i) => Tree(c.(link := c.link.(saps := Without(c.link.saps, i))), kids)
    case San(i, mask) => Tree(SanStep(c, i, mask), kids)
    case Release => Tree(c.(node := SecRelease(c.node)), kids)
  }

  /** The chosen offer still names a free space: a recovered one still listed, or the next buddy. */
  predicate PanCurrent(n: Node, o: Space) {
    if n.offered == Some(o.addr) then Listed(n.rcvd, o.addr) else o.mask == n.mask + 1
  }

  /** The accepted secondary space belongs to nobody else: it is still free, or recovered, or this daemon's
      own secondary space, or it leaked. */
  predicate SanCurrent(c: Cell, o: Space) {
    || c.node.mask < o.mask
    || Listed(c.node.rcvd, o.addr)
    || c.node.sec == Some(o)
    || Limbo(o, Leaked) in c.limbo
  }

  predicate LocalSafe(c: Cell, ev: Event) {
    match ev
    case Pan(i) => i < |c.offers| && PanCurrent(c.node, c.offers[i])
    case San(i, mask) => i < |c.link.saps| && SanCurrent(c, c.link.saps[i].space)
    case Forget(i) => i < |c.link.heard| && !Successor(c.node.addr, c.link.heard[i].addr)
    case _ => true
  }

  // ----- One step at one daemon -----

  lemma {:induction false} LocalKeepsOk(c: Cell, kids: seq<Net>, ev: Event)
    requires LocalOk(c, kids) && LocalEnabled(c, kids, ev) && LocalSafe(c, ev)
    requires forall k | k in kids :: Ok(k)
    ensures Ok(Local(c, kids, ev))
    ensures Init(Local(c, kids, ev).val.node) == Init(c.node)
  {
    match ev
    case Par => ParKeepsOk(c, kids);
    case Pan(i) => PanKeepsOk(c, kids, i);
    case Panc(i) => PancKeepsOk(c, kids, i);
    case Leave(i) => LeaveKeepsOk(c, kids, i);
    case Expire(i) => ExpireKeepsOk(c, kids, i);
    case Hb(b) => HbKeepsOk(c, kids, b);
    case Forget(i) => ForgetKeepsOk(c, kids, i);
    case San(i, mask) => SanKeepsOk(c, kids, i, mask);
    case Release => ReleaseKeepsOk(c, kids);
    case _ => OthersKeepOk(c, kids, ev);
  }

  lemma {:induction false} ForgetKeepsOk(c: Cell, kids: seq<Net>, i: nat)
    requires LocalOk(c, kids) && i < |c.link.heard| && !Successor(c.node.addr, c.link.heard[i].addr)
    ensures LocalOk(ForgetStep(c, i), kids) && ForgetStep(c, i).node == c.node
  {
    assert c.node.rcvd + [] == c.node.rcvd;
    HeardLess(c.node, c.link, c.link.heard[i].addr);
  }

  lemma {:induction false} HeardLess(n: Node, l: Link, a: Host)
    requires LinkOk(n, l)
    ensures LinkOk(n, l.(heard := Unlist(l.heard, a)))
  {
    UnlistMembers(l.heard, a);
  }

  lemma {:induction false} ReleaseKeepsOk(c: Cell, kids: seq<Net>)
    requires LocalOk(c, kids) && c.node.sec.Some?
    ensures LocalOk(c.(node := SecRelease(c.node)), kids) && Init(SecRelease(c.node)) == Init(c.node)
  {
    assert Child(c.node, c.node.sec.value);
    if c.node.mask == c.node.sec.value.mask {
      RolledBack(c.node);
    }
  }

  lemma {:induction false} OthersKeepOk(c: Cell, kids: seq<Net>, ev: Event)
    requires LocalOk(c, kids) && LocalEnabled(c, kids, ev)
    requires ev.Withdraw? || ev.SanTimer? || ev.Unanswered?
    ensures LocalOk(Local(c, kids, ev).val, kids) && Local(c, kids, ev).kids == kids
    ensures Local(c, kids, ev).val.node == c.node
  {
    match ev
    case Withdraw(i) => WithoutMembers(c.offers, i);
    case Unanswered(i) => WithoutMembers(c.link.saps, i);
    case _ =>
  }

  lemma {:induction false} ParKeepsOk(c: Cell, kids: seq<Net>)
    requires LocalOk(c, kids)
    ensures LocalOk(ParStep(c), kids)
  {
    var n := c.node;
    if n.rcvd != [] && n.offered == None {
      assert n.rcvd[|n.rcvd| - 1] in n.rcvd;
    }
  }

  lemma {:induction false} PancKeepsOk(c: Cell, kids: seq<Net>, i: nat)
    requires LocalOk(c, kids) && i < |c.limbo|
    ensures LocalOk(c.(limbo := Without(c.limbo, i)), kids + [Newcomer(c.limbo[i].space)])
    ensures Ok(Newcomer(c.limbo[i].space))
  {
    assert c.limbo[i] in c.limbo;
    WithoutMembers(c.limbo, i);
  }

  lemma {:induction false} LeaveKeepsOk(c: Cell, kids: seq<Net>, i: nat)
    requires LocalOk(c, kids) && i < |kids|
    ensures LocalOk(c.(limbo := c.limbo + [Limbo(Init(kids[i].val.node), Departed)]), Without(kids, i))
    ensures forall k | k in Without(kids, i) :: k in kids
  {
    assert kids[i] in kids;
    WithoutMembers(kids, i);
  }

  lemma {:induction false} ExpireKeepsOk(c: Cell, kids: seq<Net>, i: nat)
    requires LocalOk(c, kids) && i < |c.limbo|
    ensures LocalOk(ExpireStep(c, i), kids)
  {
    assert c.limbo[i] in c.limbo;
    WithoutMembers(c.limbo, i);
  }

  lemma {:induction false} PanKeepsOk(c: Cell, kids: seq<Net>, i: nat)
    requires LocalOk(c, kids) && i < |c.offers| && PanCurrent(c.node, c.offers[i])
    ensures LocalOk(PanStep(c, i), kids)
  {
    var o := c.offers[i];
    assert o in c.offers;
    UnlistMembers(c.node.rcvd, o.addr);
    WithoutMembers(c.offers, i);
  }

  /** What a daemon proposes is a buddy in its own initial space. */
  lemma {:induction false} SapIsChild(n: Node, avai: bool, neigh: Host, o: Space)
    requires NodeOk(n) && SapFor(n, avai, neigh) == Some(o)
    ensures Child(n, o) && avai
    ensures Listed(n.rcvd, o.addr) || n.mask < o.mask
  {
    var i := FirstNear(n.rcvd, neigh);
    if i < |n.rcvd| {
      assert n.rcvd[i] in n.rcvd;
      Listing(n.rcvd, i);
    } else {
      SapBitIsBuddy(n, avai, neigh, n.mask, o);
    }
  }

  lemma {:induction false} Listing(s: seq<Space>, i: nat)
    requires i < |s|
    ensures Listed(s, s[i].addr)
  {
  }

  lemma {:induction false} SapBitIsBuddy(n: Node, avai: bool, neigh: Host, j: nat, o: Space)
    requires SapBit(n, avai, neigh, j) == Some(o)
    ensures avai && j < o.mask <= 64 && o.addr == Flip(n.addr, o.mask - 1)
    decreases 64 - j
  {
    var a := n.addr[j := true];
    if avai && Dist(a, neigh) == 1 && Dist(a, n.addr) == 1 {
      assert n.addr[j] ==> a == n.addr;
      DistIsMetric(a, n.addr, a);
    } else {
      SapBitIsBuddy(n, avai, neigh, j + 1, o);
    }
  }

  lemma {:induction false} HbKeepsOk(c: Cell, kids: seq<Net>, b: Beat)
    requires LocalOk(c, kids)
    ensures LocalOk(HbStep(c, b), kids)
  {
    if SapOf(c, b).Some? {
      SapIsChild(c.node, c.link.avai, b.addr, SapOf(c, b).value);
    }
  }

  lemma {:induction false} SanKeepsOk(c: Cell, kids: seq<Net>, i: nat, mask: nat)
    requires LocalOk(c, kids) && i < |c.link.saps|
    ensures LocalOk(SanStep(c, i, mask), kids)
  {
    var o := c.link.saps[i].space;
    assert c.link.saps[i] in c.link.saps;
    DistFlip(c.node.addr, o.mask - 1);
    UnlistMembers(c.node.rcvd, o.addr);
    WithoutMembers(c.link.saps, i);
    SanLimboOk(c, o);
  }

  lemma {:induction false} DroppedAreChildren(n: Node, o: Space)
    requires NodeOk(n) && Child(n, o)
    ensures forall e | e in Dropped(n, o) :: Child(n, e)
  {
  }

  lemma {:induction false} SanLimboOk(c: Cell, o: Space)
    requires NodeOk(c.node) && Child(c.node, o) && forall l | l in c.limbo :: Child(c.node, l.space)
    ensures forall l | l in Reclaimed(c.limbo, o) + Lost(Dropped(c.node, o)) :: Child(c.node, l.space)
  {
    var x := Lost(Dropped(c.node, o));
    DroppedAreChildren(c.node, o);
    forall i | 0 <= i < |x|
      ensures Child(c.node, x[i].space)
    {
      assert Dropped(c.node, o)[i] in Dropped(c.node, o);
    }
    if LeakedAt(c.limbo, o) < |c.limbo| {
      WithoutMembers(c.limbo, LeakedAt(c.limbo, o));
    }
  }

  lemma {:induction false} WithoutMembers<T>(s: seq<T>, i: nat)
    requires i < |s|
    ensures forall x | x in Without(s, i) :: x in s
  {
  }

  lemma {:induction false} UnlistMembers(s: seq<Space>, a: Host)
    ensures forall e | e in Unlist(s, a) :: e in s
  {
  }

  lemma {:induction false} LocalKeepsLedger(v: Measure, c: Cell, kids: seq<Net>, ev: Event)
    requires LocalOk(c, kids) && LocalEnabled(c, kids, ev) && LocalSafe(c, ev)
    requires forall w :: Ledger(w, c, kids)
    ensures var t := Local(c, kids, ev); Ledger(v, t.val, t.kids)
  {
    assert Ledger(v, c, kids);
    match ev
    case Pan(i) => PanLedger(v, c, kids, i);
    case Panc(i) => PancLedger(v, c, kids, i);
    case Leave(i) => LeaveLedger(v, c, kids, i);
    case Expire(i) => ExpireLedger(v, c, kids, i);
    case Forget(i) => ForgetLedger(v, c, kids, i);
    case San(i, mask) => SanLedger(v, c, kids, i, mask);
    case Release => ReleaseLedger(v, c, kids);
    case _ => OthersKeepLedger(v, c, kids, ev);
  }

  lemma {:induction false} ReleaseLedger(v: Measure, c: Cell, kids: seq<Net>)
    requires LocalOk(c, kids) && c.node.sec.Some? && Ledger(v, c, kids)
    ensures Ledger(v, c.(node := SecRelease(c.node)), kids)
  {
    ReleaseKeepsHoldings(v, c.node);
  }

  lemma {:induction false} OthersKeepLedger(v: Measure, c: Cell, kids: seq<Net>, ev: Event)
    requires LocalEnabled(c, kids, ev) && Ledger(v, c, kids)
    requires ev.Par? || ev.Withdraw? || ev.Hb? || ev.SanTimer? || ev.Unanswered?
    ensures var t := Local(c, kids, ev); Ledger(v, t.val, t.kids)
  {
    OthersKeepNode(c, kids, ev);
    SameHoldings(v, c.node, Local(c, kids, ev).val.node);
  }

  lemma {:induction false} OthersKeepNode(c: Cell, kids: seq<Net>, ev: Event)
    requires LocalEnabled(c, kids, ev)
    requires ev.Par? || ev.Withdraw? || ev.Hb? || ev.SanTimer? || ev.Unanswered?
    ensures var t := Local(c, kids, ev);
            t.kids == kids && t.val.limbo == c.limbo && t.val.node.(offered := None) == c.node.(offered := None)
  {
    if ev.Par? {
      assert PapOffer(c.node).0.(offered := None) == c.node.(offered := None);
    }
  }

  /** Neither the offer that is remembered nor anything else but the spaces counts. */
  lemma {:induction false} SameHoldings(v: Measure, n: Node, k: Node)
    requires n.(offered := None) == k.(offered := None)
    ensures Holds(v, k) == Holds(v, n) && Init(k) == Init(n)
  {
  }

  lemma {:induction false} PancLedger(v: Measure, c: Cell, kids: seq<Net>, i: nat)
    requires i < |c.limbo| && c.limbo[i].why == Granted && Ledger(v, c, kids)
    ensures Ledger(v, c.(limbo := Without(c.limbo, i)), kids + [Newcomer(c.limbo[i].space)])
  {
    LimboRemove(v, c.limbo, i);
    assert Inits(kids + [Newcomer(c.limbo[i].space)]) == Inits(kids) + [c.limbo[i].space];
    SumSnoc(v, Inits(kids), c.limbo[i].space);
  }

  lemma {:induction false} LeaveLedger(v: Measure, c: Cell, kids: seq<Net>, i: nat)
    requires i < |kids| && Ledger(v, c, kids)
    ensures Ledger(v, c.(limbo := c.limbo + [Limbo(Init(kids[i].val.node), Departed)]), Without(kids, i))
  {
    KidRemove(v, kids, i);
    LimboAdd(v, c.limbo, Limbo(Init(kids[i].val.node), Departed));
  }

  lemma {:induction false} KidRemove(v: Measure, kids: seq<Net>, i: nat)
    requires i < |kids|
    ensures Sum(v, Inits(Without(kids, i))) + Value(v, Init(kids[i].val.node)) == Sum(v, Inits(kids))
  {
    InitsWithout(kids, i);
    SumRemove(v, Inits(kids), i);
  }

  lemma {:induction false} InitsWithout(kids: seq<Net>, i: nat)
    requires i < |kids|
    ensures Inits(Without(kids, i)) == Without(Inits(kids), i)
  {
    var x, y := Inits(Without(kids, i)), Without(Inits(kids), i);
    forall j | 0 <= j < |kids| - 1
      ensures x[j] == y[j]
    {
      assert Without(kids, i)[j] == kids[if j < i then j else j + 1];
    }
  }

  lemma {:induction false} LimboAdd(v: Measure, s: seq<Limbo>, l: Limbo)
    ensures Sum(v, Spaces(s + [l])) == Sum(v, Spaces(s)) + Value(v, l.space)
  {
    assert Spaces(s + [l]) == Spaces(s) + [l.space];
    SumSnoc(v, Spaces(s), l.space);
  }

  lemma {:induction false} LimboRename(s: seq<Limbo>, i: nat, why: Why)
    requires i < |s|
    ensures Spaces(s[i := Limbo(s[i].space, why)]) == Spaces(s)
  {
  }

  lemma {:induction false} ExpireLedger(v: Measure, c: Cell, kids: seq<Net>, i: nat)
    requires i < |c.limbo| && c.limbo[i].why == Departed && Ledger(v, c, kids)
    ensures Ledger(v, ExpireStep(c, i), kids)
  {
    var e := c.limbo[i].space;
    if Successor(c.node.addr, e.addr) {
      LimboRemove(v, c.limbo, i);
      SumSnoc(v, c.node.rcvd, e);
    } else {
      LimboRename(c.limbo, i, Leaked);
    }
  }

  lemma {:induction false} LimboRemove(v: Measure, s: seq<Limbo>, i: nat)
    requires i < |s|
    ensures Sum(v, Spaces(Without(s, i))) + Value(v, s[i].space) == Sum(v, Spaces(s))
  {
    SpacesWithout(s, i);
    SumRemove(v, Spaces(s), i);
  }

  lemma {:induction false} SpacesWithout(s: seq<Limbo>, i: nat)
    requires i < |s|
    ensures Spaces(Without(s, i)) == Without(Spaces(s), i)
  {
    var x, y := Spaces(Without(s, i)), Without(Spaces(s), i);
    forall j | 0 <= j < |s| - 1
      ensures x[j] == y[j]
    {
      assert Without(s, i)[j] == s[if j < i then j else j + 1];
    }
  }

  lemma {:induction false} SpacesLost(s: seq<Limbo>, extra: seq<Space>)
    ensures Spaces(s + Lost(extra)) == Spaces(s) + extra
  {
    var x, y := Spaces(s + Lost(extra)), Spaces(s) + extra;
    forall i | 0 <= i < |s| + |extra|
      ensures x[i] == y[i]
    {
      assert (s + Lost(extra))[i] == if i < |s| then s[i] else Lost(extra)[i - |s|];
    }
  }

  lemma {:induction false} LimboLost(v: Measure, s: seq<Limbo>, extra: seq<Space>)
    ensures Sum(v, Spaces(s + Lost(extra))) == Sum(v, Spaces(s)) + Sum(v, extra)
  {
    SpacesLost(s, extra);
    SumConcat(v, Spaces(s), extra);
  }

  /** Committing a current offer takes exactly that space out of the parent's holdings. */
  lemma {:induction false} PanHoldings(v: Measure, n: Node, o: Space)
    requires n.mask <= 64 && Child(n, o) && PanCurrent(n, o)
    requires forall e | e in n.rcvd :: Child(n, e)
    ensures Holds(v, PancCommit(n, o.addr)) + Value(v, o) == Holds(v, n)
  {
    if n.offered == Some(o.addr) {
      var e := n.rcvd[IndexOf(n.rcvd, o.addr)];
      assert e in n.rcvd;
      SameBuddy(n, e, o);
      UnlistSum(v, n.rcvd, o.addr);
    } else {
      SplitConserves(v, n.addr, n.mask);
    }
  }

  lemma {:induction false} PanLedger(v: Measure, c: Cell, kids: seq<Net>, i: nat)
    requires LocalOk(c, kids) && i < |c.offers| && PanCurrent(c.node, c.offers[i])
    requires Ledger(v, c, kids)
    ensures Ledger(v, PanStep(c, i), kids)
  {
    var o := c.offers[i];
    assert o in c.offers;
    PanHoldings(v, c.node, o);
    assert Spaces(c.limbo + [Limbo(o, Granted)]) == Spaces(c.limbo) + [o];
    SumSnoc(v, Spaces(c.limbo), o);
  }

  lemma {:induction false} FlipInjective(a: Host, i: nat, j: nat)
    requires i < 64 && j < 64 && Flip(a, i) == Flip(a, j)
    ensures i == j
  {
    assert Flip(a, i)[i] == !a[i];
  }

  /** Two buddies of one daemon with the same address are the same space. */
  lemma {:induction false} SameBuddy(n: Node, e: Space, f: Space)
    requires Child(n, e) && Child(n, f) && e.addr == f.addr
    ensures e == f
  {
    FlipInjective(n.addr, e.mask - 1, f.mask - 1);
  }

  /** A buddy weighs one in the ledger of its own address: it is free, or in one place. */
  lemma {:induction false} InOnePlace(c: Cell, kids: seq<Net>, o: Space)
    requires LocalOk(c, kids) && Child(c.node, o) && Ledger(At(o.addr), c, kids)
    ensures (if c.node.mask < o.mask then 1 else 0) + Sum(At(o.addr), SecOf(c.node)) + Sum(At(o.addr), c.node.rcvd)
            + Sum(At(o.addr), Spaces(c.limbo)) <= 1
  {
    if c.node.mask < o.mask {
      assert Covers(Own(c.node), o.addr);
    }
  }

  lemma {:induction false} ListedWeighs(s: seq<Space>, a: Host)
    requires Listed(s, a)
    ensures Sum(At(a), s) >= 1
  {
    var k := IndexOf(s, a);
    assert Covers(s[k], a);
    SumMember(At(a), s, k);
  }

  lemma {:induction false} LeakedWeighs(s: seq<Limbo>, o: Space)
    requires Limbo(o, Leaked) in s
    ensures Sum(At(o.addr), Spaces(s)) >= 1
  {
    var k := LeakedAt(s, o);
    assert Covers(o, o.addr);
    SumMember(At(o.addr), Spaces(s), k);
  }

  /** A space that a daemon may take as secondary space is in exactly one of the four places. */
  lemma {:induction false} OnePlaceOnly(c: Cell, kids: seq<Net>, o: Space)
    requires LocalOk(c, kids) && Child(c.node, o) && Ledger(At(o.addr), c, kids)
    ensures c.node.mask < o.mask ==> !Listed(c.node.rcvd, o.addr) && c.node.sec != Some(o) && Limbo(o, Leaked) !in c.limbo
    ensures Listed(c.node.rcvd, o.addr) ==> c.node.sec != Some(o) && Limbo(o, Leaked) !in c.limbo
    ensures c.node.sec == Some(o) ==> Limbo(o, Leaked) !in c.limbo
  {
    InOnePlace(c, kids, o);
    if Listed(c.node.rcvd, o.addr) {
      ListedWeighs(c.node.rcvd, o.addr);
    }
    if Limbo(o, Leaked) in c.limbo {
      LeakedWeighs(c.limbo, o);
    }
    if c.node.sec == Some(o) {
      assert Covers(o, o.addr) && SecOf(c.node)[0] == o;
    }
  }

  lemma {:induction false} ReclaimedSum(v: Measure, s: seq<Limbo>, o: Space)
    ensures Sum(v, Spaces(Reclaimed(s, o))) + (if Limbo(o, Leaked) in s then Value(v, o) else 0) == Sum(v, Spaces(s))
  {
    if Limbo(o, Leaked) in s {
      LimboRemove(v, s, LeakedAt(s, o));
    }
  }

  /** The list of recovered spaces when o is taken from it. */
  lemma {:induction false} UnlistedSum(v: Measure, n: Node, o: Space)
    requires Child(n, o) && forall e | e in n.rcvd :: Child(n, e)
    ensures Sum(v, Unlist(n.rcvd, o.addr)) + (if Listed(n.rcvd, o.addr) then Value(v, o) else 0) == Sum(v, n.rcvd)
  {
    UnlistSum(v, n.rcvd, o.addr);
    if Listed(n.rcvd, o.addr) {
      var e := n.rcvd[IndexOf(n.rcvd, o.addr)];
      assert e in n.rcvd;
      SameBuddy(n, e, o);
    }
  }

  /** The own space when o is split off it, together with the buddies passed over. */
  lemma {:induction false} SkippedSum(v: Measure, n: Node, o: Space)
    requires Child(n, o) && n.mask <= 64
    ensures Value(v, Own(SanAccept(n, o))) + Sum(v, Skipped(n, o)) + (if n.mask < o.mask then Value(v, o) else 0)
            == Value(v, Own(n))
  {
    DistFlip(n.addr, o.mask - 1);
    if n.mask < o.mask {
      SplitsConserve(v, n.addr, n.mask, o.mask - 1);
      SplitConserves(v, n.addr, o.mask - 1);
    }
  }

  /** Accepting a secondary space changes what the daemon holds, and what waits in limbo below it, by nothing
      if the space is current, and doubles the space if not. */
  lemma {:induction false} SanHoldings(v: Measure, c: Cell, kids: seq<Net>, o: Space)
    requires LocalOk(c, kids) && Child(c.node, o) && Ledger(At(o.addr), c, kids)
    ensures Holds(v, SanAccept(c.node, o)) + Sum(v, Spaces(Reclaimed(c.limbo, o) + Lost(Dropped(c.node, o)))) ==
            Holds(v, c.node) + Sum(v, Spaces(c.limbo)) + if SanCurrent(c, o) then 0 else Value(v, o)
  {
    var n := c.node;
    OnePlaceOnly(c, kids, o);
    UnlistedSum(v, n, o);
    SkippedSum(v, n, o);
    ReclaimedSum(v, c.limbo, o);
    LimboLost(v, Reclaimed(c.limbo, o), Dropped(n, o));
    SumConcat(v, if n.sec == Some(o) then [] else SecOf(n), Skipped(n, o));
    SumOne(v, o);
  }

  lemma {:induction false} SumOne(v: Measure, o: Space)
    ensures Sum(v, [o]) == Value(v, o)
  {
  }

  lemma {:induction false} SanLedger(v: Measure, c: Cell, kids: seq<Net>, i: nat, mask: nat)
    requires LocalOk(c, kids) && i < |c.link.saps| && SanCurrent(c, c.link.saps[i].space)
    requires forall w :: Ledger(w, c, kids)
    ensures Ledger(v, SanStep(c, i, mask), kids)
  {
    assert c.link.saps[i] in c.link.saps;
    SanHoldings(v, c, kids, c.link.saps[i].space);
    assert Ledger(v, c, kids);
  }

  /** Forgetting a neighbour recovers its space on top of what the daemon holds if it looks like a successor. */
  lemma {:induction false} ForgetHoldings(v: Measure, c: Cell, i: nat)
    requires i < |c.link.heard|
    ensures Holds(v, ForgetStep(c, i).node) ==
            Holds(v, c.node) + if Successor(c.node.addr, c.link.heard[i].addr) then Value(v, c.link.heard[i]) else 0
  {
    var e := c.link.heard[i];
    if Successor(c.node.addr, e.addr) {
      SumSnoc(v, c.node.rcvd, e);
    } else {
      assert c.node.rcvd + [] == c.node.rcvd;
    }
  }

  lemma {:induction false} ForgetLedger(v: Measure, c: Cell, kids: seq<Net>, i: nat)
    requires i < |c.link.heard| && !Successor(c.node.addr, c.link.heard[i].addr)
    requires Ledger(v, c, kids)
    ensures Ledger(v, ForgetStep(c, i), kids)
  {
    ForgetHoldings(v, c, i);
  }

  /** Release, by rolling the mask back or by listing the space, leaves what the daemon owns unchanged. */
  lemma {:induction false} ReleaseKeepsHoldings(v: Measure, n: Node)
    requires n.sec.Some? && Child(n, n.sec.value) && n.mask <= 64
    ensures Holds(v, SecRelease(n)) == Holds(v, n)
  {
    SecSum(v, n);
    if n.mask == n.sec.value.mask {
      RolledBack(n);
      SplitConserves(v, n.addr, n.mask - 1);
    } else {
      SumSnoc(v, n.rcvd, n.sec.value);
    }
  }

  lemma {:induction false} SecSum(v: Measure, n: Node)
    ensures Sum(v, SecOf(n)) == if n.sec.Some? then Value(v, n.sec.value) else 0
  {
    if n.sec.Some? {
      SumOne(v, n.sec.value);
    }
  }

  lemma {:induction false} RolledBack(n: Node)
    requires n.sec.Some? && n.mask == n.sec.value.mask && 0 < n.mask <= 64
    ensures SecRelease(n) == n.(sec := None, mask := n.mask - 1)
  {
  }

  // ----- When a single step keeps the ledger, exactly -----

  lemma {:induction false} PanBreaks(c: Cell, kids: seq<Net>, i: nat) returns (v: Measure)
    requires LocalOk(c, kids) && i < |c.offers| && !PanCurrent(c.node, c.offers[i])
    requires forall v :: Ledger(v, c, kids)
    ensures !Ledger(v, PanStep(c, i), kids)
  {
    var n, o := c.node, c.offers[i];
    assert o in c.offers;
    v := if n.offered == Some(o.addr) || n.mask == 64 then At(o.addr) else Volume;
    assert Ledger(v, c, kids);
    assert Spaces(c.limbo + [Limbo(o, Granted)]) == Spaces(c.limbo) + [o];
    SumSnoc(v, Spaces(c.limbo), o);
    StalePanHoldings(v, n, o);
  }

  /** A PAN for a stale offer does not take the granted space out of the holdings. */
  lemma {:induction false} StalePanHoldings(v: Measure, n: Node, o: Space)
    requires n.mask <= 64 && Child(n, o) && !PanCurrent(n, o)
    requires v == if n.offered == Some(o.addr) || n.mask == 64 then At(o.addr) else Volume
    ensures Holds(v, PancCommit(n, o.addr)) + Value(v, o) != Holds(v, n)
  {
    assert Covers(o, o.addr);
    if n.offered != Some(o.addr) && n.mask < 64 {
      if o.mask < n.mask + 1 {
        Pow2Monotone(64 - (n.mask + 1), 64 - o.mask);
      } else {
        Pow2Monotone(64 - o.mask, 64 - (n.mask + 1));
      }
    }
  }

  /** A PAN keeps every address accounted for once exactly when the chosen offer is current. */
  lemma {:induction false} PanExact(c: Cell, kids: seq<Net>, i: nat)
    requires LocalOk(c, kids) && i < |c.offers|
    requires forall v :: Ledger(v, c, kids)
    ensures (forall v :: Ledger(v, PanStep(c, i), kids)) <==> PanCurrent(c.node, c.offers[i])
  {
    if PanCurrent(c.node, c.offers[i]) {
      forall v
        ensures Ledger(v, PanStep(c, i), kids)
      {
        PanLedger(v, c, kids, i);
      }
    } else {
      var v := PanBreaks(c, kids, i);
    }
  }

  /** A SAN keeps every address accounted for once exactly when the secondary space is current. */
  lemma {:induction false} SanExact(c: Cell, kids: seq<Net>, i: nat, mask: nat)
    requires LocalOk(c, kids) && i < |c.link.saps|
    requires forall v :: Ledger(v, c, kids)
    ensures (forall v :: Ledger(v, SanStep(c, i, mask), kids)) <==> SanCurrent(c, c.link.saps[i].space)
  {
    var o := c.link.saps[i].space;
    if SanCurrent(c, o) {
      forall v
        ensures Ledger(v, SanStep(c, i, mask), kids)
      {
        SanLedger(v, c, kids, i, mask);
      }
    } else {
      assert c.link.saps[i] in c.link.saps;
      assert Covers(o, o.addr) && Ledger(At(o.addr), c, kids);
      SanHoldings(At(o.addr), c, kids, o);
      assert !Ledger(At(o.addr), SanStep(c, i, mask), kids);
    }
  }

  /** Ageing out a neighbour that is not a child keeps every address accounted for once exactly when it is not
      adjacent, or its differing bit, seen from this daemon, is followed by a set bit in the same word or is
      set itself; with an initial mask of at most 16 (and a bit set at its end, as every newcomer has) that is
      always so. */
  lemma {:induction false} ForgetExact(c: Cell, kids: seq<Net>, i: nat)
    requires LocalOk(c, kids) && i < |c.link.heard|
    requires forall v :: Ledger(v, c, kids)
    ensures var own, nb := c.node.addr, c.link.heard[i].addr;
            (forall v :: Ledger(v, ForgetStep(c, i), kids)) <==>
            forall k | 0 <= k < 64 && nb == Flip(own, k) :: exists j | k <= j < 16 * (k / 16) + 16 :: own[j]
    ensures c.node.maskIni <= 16 && Headed(c.node) ==> forall v :: Ledger(v, ForgetStep(c, i), kids)
  {
    var own, e := c.node.addr, c.link.heard[i];
    MistakenExactly(own, e.addr);
    if Successor(own, e.addr) {
      assert Covers(e, e.addr) && Ledger(At(e.addr), c, kids);
      ForgetHoldings(At(e.addr), c, i);
      assert !Ledger(At(e.addr), ForgetStep(c, i), kids);
    } else {
      forall v
        ensures Ledger(v, ForgetStep(c, i), kids)
      {
        ForgetLedger(v, c, kids, i);
      }
    }
    if c.node.maskIni <= 16 && Headed(c.node) {
      ShallowForget(c, kids, i);
    }
  }

  lemma {:induction false} MistakenExactly(own: Host, nb: Host)
    ensures Successor(own, nb) <==>
            !forall k | 0 <= k < 64 && nb == Flip(own, k) :: exists j | k <= j < 16 * (k / 16) + 16 :: own[j]
  {
    if Successor(own, nb) {
      var k := SuccessorIsAdjacent(own, nb);
      SuccessorExact(own, k);
      assert !exists j | k <= j < 16 * (k / 16) + 16 :: own[j];
    }
    if k :| 0 <= k < 64 && nb == Flip(own, k) && !exists j | k <= j < 16 * (k / 16) + 16 :: own[j] {
      SuccessorExact(own, k);
    }
  }

  /** A daemon that is not the root was split off at a bit that it has set. */
  predicate Headed(n: Node) {
    0 < n.maskIni <= 63 ==> n.addr[n.maskIni - 1]
  }

  lemma {:induction false} KidHeaded(c: Cell, kids: seq<Net>, k: Net)
    requires LocalOk(c, kids) && k in kids
    ensures Headed(k.val.node)
  {
    assert Child(c.node, Init(k.val.node));
  }

  /** With an initial mask of at most 16, only children are taken for successors. */
  lemma {:induction false} ShallowSuccessor(n: Node, a: Host)
    requires n.maskIni <= 16 && Headed(n) && Successor(n.addr, a)
    ensures Inner(n, a)
  {
    var k := SuccessorIsAdjacent(n.addr, a);
    assert k < 16 ==> k / 16 == 0;
    assert k >= n.maskIni;
  }

  lemma {:induction false} ShallowForget(c: Cell, kids: seq<Net>, i: nat)
    requires LocalOk(c, kids) && i < |c.link.heard| && c.node.maskIni <= 16 && Headed(c.node)
    ensures !Successor(c.node.addr, c.link.heard[i].addr)
  {
    assert c.link.heard[i] in c.link.heard;
    if Successor(c.node.addr, c.link.heard[i].addr) {
      ShallowSuccessor(c.node, c.link.heard[i].addr);
    }
  }

  /** A departed child's space is recovered exactly when the child was split off in the first 48 bits;
      deeper spaces leak. */
  lemma {:induction false} ExpireRecovers(c: Cell, kids: seq<Net>, i: nat)
    requires LocalOk(c, kids) && i < |c.limbo|
    ensures c.limbo[i].space in ExpireStep(c, i).node.rcvd || c.limbo[i].space.mask > 48
    ensures c.limbo[i].space.mask > 48 ==> ExpireStep(c, i).node == c.node
  {
    var e := c.limbo[i].space;
    assert c.limbo[i] in c.limbo;
    if e.mask == 64 {
      SuccessorExact(c.node.addr, 63);
      assert c.node.addr[63];
    } else {
      ChildIsSuccessor(c.node.addr, c.node.maskIni, e.mask - 1);
    }
  }

  // ----- Runs -----

  datatype Step = Step(path: seq<nat>, ev: Event)

  predicate Enabled(t: Net, path: seq<nat>, ev: Event)
    decreases path
  {
    if path == [] then LocalEnabled(t.val, t.kids, ev)
    else path[0] < |t.kids| && Enabled(t.kids[path[0]], path[1..], ev)
  }

  predicate Safe(t: Net, path: seq<nat>, ev: Event)
    decreases path
  {
    if path == [] then LocalSafe(t.val, ev)
    else path[0] < |t.kids| && Safe(t.kids[path[0]], path[1..], ev)
  }

  /** The event happens at the daemon that the path leads to. */
  function Apply(t: Net, path: seq<nat>, ev: Event): Net
    requires Enabled(t, path, ev)
    decreases path
  {
    if path == [] then Local(t.val, t.kids, ev)
    else t.(kids := t.kids[path[0] := Apply(t.kids[path[0]], path[1..], ev)])
  }

  /** A member sends heartbeats for its primary and for its secondary address. */
  predicate Sends(n: Node, b: Beat) {
    && b.src == n.addr && b.maskIni == n.maskIni && b.sec == SecAddr(n)
    && ((b.addr == n.addr && b.mask == n.mask) || (Some(b.addr) == b.sec && b.mask == n.sec.value.mask))
  }

  predicate SentIn(t: Net, b: Beat) {
    Sends(t.val.node, b) || exists k | k in t.kids :: SentIn(k, b)
  }

  /** The heartbeats that arrive are those of members of the network. */
  predicate Genuine(t: Net, ev: Event) {
    ev.Hb? ==> SentIn(t, ev.b)
  }

  predicate Possible(t: Net, run: seq<Step>)
    decreases run
  {
    run == [] || (Enabled(t, run[0].path, run[0].ev) && Genuine(t, run[0].ev) &&
                  Possible(Apply(t, run[0].path, run[0].ev), run[1..]))
  }

  predicate SafeRun(t: Net, run: seq<Step>)
    requires Possible(t, run)
    decreases run
  {
    run == [] || (Safe(t, run[0].path, run[0].ev) && SafeRun(Apply(t, run[0].path, run[0].ev), run[1..]))
  }

  function After(t: Net, run: seq<Step>): Net
    requires Possible(t, run)
    decreases run
  {
    if run == [] then t else After(Apply(t, run[0].path, run[0].ev), run[1..])
  }

  lemma {:induction false} ApplyKeepsOk(t: Net, path: seq<nat>, ev: Event)
    requires Ok(t) && Enabled(t, path, ev) && Safe(t, path, ev)
    ensures Ok(Apply(t, path, ev)) && Init(Apply(t, path, ev).val.node) == Init(t.val.node)
    decreases path
  {
    if path == [] {
      LocalKeepsOk(t.val, t.kids, ev);
    } else {
      assert t.kids[path[0]] in t.kids;
      ApplyKeepsOk(t.kids[path[0]], path[1..], ev);
    }
  }

  lemma {:induction false} KidInv(t: Net, k: Net)
    requires Inv(t) && k in t.kids
    ensures Inv(k)
  {
    forall v
      ensures Balanced(v, k)
    {
      assert Balanced(v, t);
    }
  }

  predicate OnPath(t: Net, path: seq<nat>)
    decreases path
  {
    path == [] || (path[0] < |t.kids| && OnPath(t.kids[path[0]], path[1..]))
  }

  function SubtreeAt(t: Net, path: seq<nat>): Net
    requires OnPath(t, path)
    decreases path
  {
    if path == [] then t else SubtreeAt(t.kids[path[0]], path[1..])
  }

  function PutAt(t: Net, path: seq<nat>, u: Net): Net
    requires OnPath(t, path)
    decreases path
  {
    if path == [] then u else t.(kids := t.kids[path[0] := PutAt(t.kids[path[0]], path[1..], u)])
  }

  lemma {:induction false} PutTwice(t: Net, path: seq<nat>, u: Net, w: Net)
    requires OnPath(t, path)
    ensures OnPath(PutAt(t, path, u), path) && SubtreeAt(PutAt(t, path, u), path) == u
    ensures PutAt(PutAt(t, path, u), path, w) == PutAt(t, path, w)
    decreases path
  {
    if path != [] {
      PutTwice(t.kids[path[0]], path[1..], u, w);
      var k := PutAt(t.kids[path[0]], path[1..], u);
      assert t.kids[path[0] := k][path[0]] == k;
      assert t.kids[path[0] := k][path[0] := PutAt(k, path[1..], w)] ==
             t.kids[path[0] := PutAt(k, path[1..], w)];
    }
  }

  lemma {:induction false} SubtreeInv(t: Net, path: seq<nat>)
    requires Inv(t) && OnPath(t, path)
    ensures Inv(SubtreeAt(t, path))
    decreases path
  {
    if path != [] {
      KidInv(t, t.kids[path[0]]);
      SubtreeInv(t.kids[path[0]], path[1..]);
    }
  }

  lemma {:induction false} ApplyKeepsBalance(v: Measure, t: Net, path: seq<nat>, ev: Event)
    requires Inv(t) && Enabled(t, path, ev) && Safe(t, path, ev)
    ensures Balanced(v, Apply(t, path, ev))
    decreases path
  {
    assert Balanced(v, t);
    if path == [] {
      forall w
        ensures Ledger(w, t.val, t.kids)
      {
        assert Balanced(w, t);
      }
      LocalKeepsLedger(v, t.val, t.kids, ev);
      LocalNewKids(v, t.val, t.kids, ev);
    } else {
      var k := t.kids[path[0]];
      assert k in t.kids;
      KidInv(t, k);
      ApplyKeepsOk(k, path[1..], ev);
      ApplyKeepsBalance(v, k, path[1..], ev);
      ReplaceKid(v, t, path[0], Apply(k, path[1..], ev));
    }
  }

  lemma {:induction false} ReplaceKid(v: Measure, t: Net, i: nat, k: Net)
    requires Balanced(v, t) && Balanced(v, k)
    requires i < |t.kids| && Init(k.val.node) == Init(t.kids[i].val.node)
    ensures Balanced(v, t.(kids := t.kids[i := k]))
  {
    assert Inits(t.kids[i := k]) == Inits(t.kids);
  }

  lemma {:induction false} LocalNewKids(v: Measure, c: Cell, kids: seq<Net>, ev: Event)
    requires LocalEnabled(c, kids, ev) && forall k | k in kids :: Balanced(v, k)
    ensures forall k | k in Local(c, kids, ev).kids :: Balanced(v, k)
  {
    match ev
    case Leave(i) => WithoutMembers(kids, i);
    case Panc(i) => NewcomerBalanced(v, c.limbo[i].space);
    case _ =>
  }

  lemma {:induction false} NewcomerBalanced(v: Measure, s: Space)
    ensures Balanced(v, Newcomer(s))
  {
  }

  lemma {:induction false} FounderInv()
    ensures Inv(Founder())
  {
    forall v
      ensures Balanced(v, Founder())
    {
      NewcomerBalanced(v, Space(ROOT, 0));
    }
  }

  /** Every safe run keeps the ledger of every daemon under both measures. */
  lemma {:induction false} RunKeepsInv(t: Net, run: seq<Step>)
    requires Inv(t) && Possible(t, run) && SafeRun(t, run)
    ensures Inv(After(t, run)) && Init(After(t, run).val.node) == Init(t.val.node)
    decreases run
  {
    if run != [] {
      var s := run[0];
      ApplyKeepsOk(t, s.path, s.ev);
      forall v
        ensures Balanced(v, Apply(t, s.path, s.ev))
      {
        ApplyKeepsBalance(v, t, s.path, s.ev);
      }
      RunKeepsInv(Apply(t, s.path, s.ev), run[1..]);
    }
  }

  // ----- When a run keeps the ledgers, exactly -----

  /** An event that leaves every ledger of its daemon exact is safe. */
  lemma {:induction false} LocalExact(c: Cell, kids: seq<Net>, ev: Event, u: Net)
    requires LocalOk(c, kids) && LocalEnabled(c, kids, ev) && u == Local(c, kids, ev)
    requires forall v :: Ledger(v, c, kids)
    requires forall v :: Ledger(v, u.val, u.kids)
    ensures LocalSafe(c, ev)
  {
    match ev
    case Pan(i) => PanExact(c, kids, i);
    case San(i, mask) => SanExact(c, kids, i, mask);
    case Forget(i) => ForgetSafe(c, kids, i);
    case _ =>
  }

  lemma {:induction false} ForgetSafe(c: Cell, kids: seq<Net>, i: nat)
    requires LocalOk(c, kids) && i < |c.link.heard|
    requires (forall v :: Ledger(v, c, kids)) && forall v :: Ledger(v, ForgetStep(c, i), kids)
    ensures !Successor(c.node.addr, c.link.heard[i].addr)
  {
    ForgetExact(c, kids, i);
    MistakenExactly(c.node.addr, c.link.heard[i].addr);
  }

  lemma {:induction false} InvLedger(t: Net)
    requires Inv(t)
    ensures forall v :: Ledger(v, t.val, t.kids)
  {
    forall v
      ensures Ledger(v, t.val, t.kids)
    {
      assert Balanced(v, t);
    }
  }

  /** A step keeps all ledgers if and only if it is safe. */
  lemma {:induction false} StepExact(t: Net, path: seq<nat>, ev: Event)
    requires Inv(t) && Enabled(t, path, ev)
    ensures Inv(Apply(t, path, ev)) <==> Safe(t, path, ev)
    decreases path
  {
    if Safe(t, path, ev) {
      ApplyKeepsOk(t, path, ev);
      forall v
        ensures Balanced(v, Apply(t, path, ev))
      {
        ApplyKeepsBalance(v, t, path, ev);
      }
    } else if Inv(Apply(t, path, ev)) {
      UnsafeStep(t, path, ev);
    }
  }

  lemma {:induction false} UnsafeStep(t: Net, path: seq<nat>, ev: Event)
    requires Inv(t) && Enabled(t, path, ev) && Inv(Apply(t, path, ev))
    ensures Safe(t, path, ev)
    decreases path
  {
    var u := Apply(t, path, ev);
    if path == [] {
      InvLedger(t);
      InvLedger(u);
      LocalExact(t.val, t.kids, ev, u);
    } else {
      var i := path[0];
      KidInv(t, t.kids[i]);
      assert u.kids[i] == Apply(t.kids[i], path[1..], ev) && u.kids[i] in u.kids;
      KidInv(u, u.kids[i]);
      UnsafeStep(t.kids[i], path[1..], ev);
    }
  }

  /** All ledgers are exact in every state of the run. */
  ghost predicate InvAlong(t: Net, run: seq<Step>)
    requires Possible(t, run)
    decreases run
  {
    Inv(t) && (run == [] || InvAlong(Apply(t, run[0].path, run[0].ev), run[1..]))
  }

  /** A run keeps the ledger of every daemon exact in all its states if and only if it is safe. */
  lemma {:induction false} RunExact(t: Net, run: seq<Step>)
    requires Inv(t) && Possible(t, run)
    ensures InvAlong(t, run) <==> SafeRun(t, run)
    decreases run
  {
    if run != [] {
      var s := run[0];
      StepExact(t, s.path, s.ev);
      if Safe(t, s.path, s.ev) {
        RunExact(Apply(t, s.path, s.ev), run[1..]);
      }
    }
  }
}
