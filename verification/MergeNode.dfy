/** How one daemon proposes a merge (mezcla) and reacts to MAR1, MAR2, MAN1 and MAN2 packets (mezcla.c),
    behind the guards of antop_process_pkt (antop_socket.c). Functions on Merger specify the
    methods of Station. */
module MergeNode {
  import opened Wrappers
  import opened Hypercube
  import opened Metric
  import opened Words
  import opened Allocation
  import opened FragmentationFlood
  import opened Embedding

  /** Host part of dir_default, the address of a daemon that waits for its proposal to be answered. */
  function Default(): Host {
    Zeros(60) + [true, false, true, false]
  }

  /** The globals that a merge reads and writes. */
  datatype Merger = Merger(
    node: Node,
    table: seq<Host>,     // neigh_table
    red: nat,             // red_numero
    busy: bool,           // flag_mezcla
    mf: nat,              // prim_mask_mezcla
    aux: Host)            // prim_addr_aux

  datatype Kind = MAR1 | MAR2 | MAN1 | MAN2

  /** A control packet; src and mask are data of the merge, not the sender's. */
  datatype Packet = Packet(kind: Kind, src: Host, prim: Host, dst: Host, mask: nat, red: nat, shift: nat)

  // ----- Proposing -----

  /** The first recovered entry whose mask is not zero, or the end of the list. */
  function FirstMasked(s: seq<Space>): (i: nat)
    ensures i <= |s|
    ensures forall j | 0 <= j < i :: s[j].mask == 0
    ensures i < |s| ==> s[i].mask != 0
  {
    if s == [] || s[0].mask != 0 then 0 else 1 + FirstMasked(s[1..])
  }

  /** The mask that a proposal carries: one less than that of a recovered space, or this daemon's own. */
  function ProposedMask(n: Node): nat {
    var i := FirstMasked(n.rcvd);
    if i < |n.rcvd| then n.rcvd[i].mask - 1 else n.mask
  }

  /** mezcla: offer the receiver a place in this network and wait under the default address. */
  function Proposal(m: Merger, dst: Host): (Merger, Packet) {
    var n, i := m.node, FirstMasked(m.node.rcvd);
    (m.(node := n.(addr := Default(), rcvd := if i < |n.rcvd| then Unlist(n.rcvd, n.rcvd[i].addr) else n.rcvd),
        busy := true, aux := n.addr),
     Packet(MAR1, n.addr, Default(), dst, ProposedMask(n), m.red, 0))
  }

  /** A proposal gives away the first recovered space that has a mask, and this one only; the mask in the packet is that of
      the space from which it was split off. */
  lemma {:induction false} ProposesFirstMasked(m: Merger, dst: Host, a: seq<Space>, e: Space, b: seq<Space>)
    requires m.node.rcvd == a + [e] + b && e.mask != 0 && forall x | x in a :: x.mask == 0 && x.addr != e.addr
    ensures var (k, p) := Proposal(m, dst);
            k.node.rcvd == a + b && p.mask == e.mask - 1 && k.node.mask == m.node.mask && k.table == m.table
  {
    var s := m.node.rcvd;
    forall j | 0 <= j < |a|
      ensures s[j].mask == 0
    {
      assert a[j] in a;
    }
    FirstMaskedAt(s, |a|);
    UnlistsFirst(a, e, b);
  }

  lemma {:induction false} FirstMaskedAt(s: seq<Space>, i: nat)
    requires i < |s| && s[i].mask != 0 && forall j | 0 <= j < i :: s[j].mask == 0
    ensures FirstMasked(s) == i
  {
  }

  /** Without one the daemon proposes the next buddy of its own space, under its own mask. */
  lemma {:induction false} ProposesOwnSpace(m: Merger, dst: Host)
    requires forall e | e in m.node.rcvd :: e.mask == 0
    ensures var (k, p) := Proposal(m, dst);
            k.node.rcvd == m.node.rcvd && p.mask == m.node.mask == k.node.mask && k.table == m.table
  {
    assert FirstMasked(m.node.rcvd) < |m.node.rcvd| ==> m.node.rcvd[FirstMasked(m.node.rcvd)] in m.node.rcvd;
  }

  // ----- MAR1 -----

  /** What the loop of process_mar1 uses and does not change. */
  datatype Turn = Turn(root: Host, own: Host, sender: Host, monitor: bool, p: Packet, mf: nat)

  /** What it changes: the packets sent, the table, prim_mask and aux5. */
  datatype Walk = Walk(mars: seq<Packet>, table: seq<Host>, mask: nat, aux5: Host)

  predicate Farther(c: Turn, e: Host) {
    Dist(c.root, c.own) < Dist(c.root, e)
  }

  function Mar1Turn(c: Turn, w: Walk, e: Host): Walk {
    if e == c.sender && !c.monitor then w
    else if Farther(c, e) then SendDown(c, w, e)
    else SendUp(c, w, e)
  }

  /** A neighbour farther from the root gets the MAR1 passed on. */
  function SendDown(c: Turn, w: Walk, e: Host): Walk {
    w.(mars := w.mars + [Packet(MAR1, c.p.src, c.own, e, c.p.mask, c.p.red, c.mf)],
       table := Deleted(w.table, e))
  }

  /** The other one, the parent, is granted the next buddy of this daemon's new space. */
  function SendUp(c: Turn, w: Walk, e: Host): Walk {
    GrantBuddy(c, w, e, Mezcla(c.root, c.p.src, c.p.mask, c.mf, w.aux5))
  }

  function GrantBuddy(c: Turn, w: Walk, e: Host, aux5: Host): Walk {
    var mask := (w.mask + 1) % 256;
    Walk(w.mars + [Packet(MAR2, aux5, c.own, e, mask, c.p.red, 0)], Deleted(w.table, e), mask, aux5)
  }

  function Mar1Walk(c: Turn, w: Walk, s: seq<Host>): Walk {
    if s == [] then w else Mar1Turn(c, Mar1Walk(c, w, s[..|s| - 1]), s[|s| - 1])
  }

  lemma {:induction false} Mar1Step(c: Turn, w: Walk, s: seq<Host>, i: nat)
    requires i < |s|
    ensures Mar1Walk(c, w, s[..i + 1]) == Mar1Turn(c, Mar1Walk(c, w, s[..i]), s[i])
  {
    assert s[..i + 1][..i] == s[..i];
  }

  /** One recovered entry after shift_mezcla and the mask equation. */
  function Moved(root: Host, p: Packet, mf: nat, e: Space): Space {
    Space(Mezcla(root, p.src, p.mask, mf, e.addr), (e.mask + p.mask - (mf - 1)) % 256)
  }

  function MovedAll(root: Host, p: Packet, mf: nat, s: seq<Space>): (r: seq<Space>)
    ensures |r| == |s| && forall i | 0 <= i < |s| :: r[i] == Moved(root, p, mf, s[i])
  {
    if s == [] then [] else [Moved(root, p, mf, s[0])] + MovedAll(root, p, mf, s[1..])
  }

  /** The new address and recovered list; the masks have changed before. */
  function Settle(root: Host, m: Merger, p: Packet): Merger {
    m.(node := m.node.(addr := Mezcla(root, p.src, p.mask, m.mf, m.node.addr),
                       rcvd := MovedAll(root, p, m.mf, m.node.rcvd)),
       busy := false)
  }

  /** The address that stands for the sender in the neighbour table. */
  function SenderOf(p: Packet): Host {
    if p.prim == Default() then p.src else p.prim
  }

  function Mar1Table(m: Merger, p: Packet): seq<Host> {
    if p.prim == Default() && SenderOf(p) !in m.table && m.table != [] then m.table + [SenderOf(p)] else m.table
  }

  function ShiftOf(m: Merger, p: Packet): nat {
    if p.prim == Default() then m.node.maskIni else p.shift
  }

  /** The two mask equations; the results are unsigned chars. */
  function Masked(m: Merger, p: Packet): Merger {
    var mf := ShiftOf(m, p);
    m.(node := m.node.(mask := (m.node.mask + p.mask - (mf - 1)) % 256,
                       maskIni := (p.mask + 1 + (m.node.maskIni - mf)) % 256),
       table := Mar1Table(m, p), red := p.red, busy := true, mf := mf)
  }

  function TurnOf(root: Host, m: Merger, p: Packet): Turn {
    Turn(root, m.node.addr, SenderOf(p), p.prim == Default() && SenderOf(p) in m.table, p, ShiftOf(m, p))
  }

  predicate Mar1Loops(m: Merger, p: Packet) {
    m.node.mask != m.node.maskIni || (p.prim == Default() && m.table != [])
  }

  /** process_mar1: the new state, the MARs in the order in which they are sent, and the MAN1. */
  function HearMar1(root: Host, m: Merger, p: Packet): (Merger, seq<Packet>, Packet) {
    var k := Masked(m, p);
    var w0 := Walk([], k.table, k.node.mask, k.node.addr);
    var w := if Mar1Loops(m, p) then Mar1Walk(TurnOf(root, m, p), w0, k.table) else w0;
    var r := k.(node := k.node.(mask := w.mask), table := w.table);
    if w.mars != [] then (r, w.mars, Man1(m.node.addr, p))
    else if p.prim == Default() && r.table == [] then
      var q := Settle(root, r, p).(table := [SenderOf(p)]);
      (q, [], Man1(q.node.addr, p))
    else (Settle(root, r, p), [], Man1(m.node.addr, p))
  }

  function Man1(own: Host, p: Packet): Packet {
    Packet(MAN1, p.src, own, p.prim, p.mask, p.red, 0)
  }

  // ----- MAR2 -----

  /** src with the bit before the mask set, as shift_unos and the OR loop compute it. */
  function BuddyOf(src: Host, mask: nat): Host {
    if mask == 0 then src else Or(Shr(Top(), mask - 1), src)
  }

  function Mar2Turn(own: Host, addr: Host, p: Packet, w: Walk, e: Host): Walk {
    if e == p.prim then w
    else
      var mask := (w.mask + 1) % 256;
      Walk(w.mars + [Packet(MAR2, addr, own, e, mask, p.red, 0)], Deleted(w.table, e), mask, w.aux5)
  }

  function Mar2Walk(own: Host, addr: Host, p: Packet, w: Walk, s: seq<Host>): Walk {
    if s == [] then w else Mar2Turn(own, addr, p, Mar2Walk(own, addr, p, w, s[..|s| - 1]), s[|s| - 1])
  }

  lemma {:induction false} Mar2Step(own: Host, addr: Host, p: Packet, w: Walk, s: seq<Host>, i: nat)
    requires i < |s|
    ensures Mar2Walk(own, addr, p, w, s[..i + 1]) == Mar2Turn(own, addr, p, Mar2Walk(own, addr, p, w, s[..i]), s[i])
  {
    assert s[..i + 1][..i] == s[..i];
  }

  /** process_mar2, for a mask of at least one: MAR2 is only sent after an increment. */
  function HearMar2(m: Merger, p: Packet): (Merger, seq<Packet>, Packet) {
    var addr := BuddyOf(p.src, p.mask);
    var w0 := Walk([], m.table, p.mask, addr);
    var w := if m.node.mask != m.node.maskIni then Mar2Walk(m.node.addr, addr, p, w0, m.table) else w0;
    var r := m.(node := m.node.(mask := w.mask, maskIni := p.mask), table := w.table, red := p.red, busy := true);
    var man := Packet(MAN2, p.src, m.node.addr, p.prim, w.mask, p.red, 0);
    if w.mars != [] then (r, w.mars, man)
    else (r.(node := r.node.(addr := addr, rcvd := []), busy := false), [], man)
  }

  // ----- MAN1 and MAN2 -----

  function HearMan1(root: Host, m: Merger, p: Packet): Merger {
    if m.busy && m.node.addr == Default() then
      m.(node := m.node.(addr := m.aux, mask := if p.mask == m.node.mask then (m.node.mask + 1) % 256 else m.node.mask),
         busy := false)
    else if m.busy then Settle(root, m, p)
    else m
  }

  function HearMan2(m: Merger, p: Packet): Merger {
    if m.busy then m.(node := m.node.(addr := p.src, rcvd := []), busy := false) else m
  }

  // ----- The guards -----

  /** A daemon that hears a MAR1 of its own network while it waits gives its proposal up. */
  function GiveUp(m: Merger, p: Packet): Merger {
    if p.kind == MAR1 && p.red == m.red && m.node.addr == Default()
    then m.(node := m.node.(addr := m.aux), busy := false) else m
  }

  predicate Accepted(m: Merger, p: Packet) {
    match p.kind
    case MAR1 => p.red != m.red && p.dst == m.node.addr
    case MAR2 => p.red != m.red
    case _ => p.red == m.red
  }

  /** antop_process_pkt: the new state, the MARs sent, and the answer, if any. */
  function Process(root: Host, m: Merger, p: Packet): (Merger, seq<Packet>, Option<Packet>) {
    var g := GiveUp(m, p);
    if !Accepted(g, p) then (g, [], None)
    else match p.kind
    case MAR1 => var (r, mars, man) := HearMar1(root, g, p); (r, mars, Some(man))
    case MAR2 => var (r, mars, man) := HearMar2(g, p); (r, mars, Some(man))
    case MAN1 => (HearMan1(root, g, p), [], None)
    case MAN2 => (HearMan2(g, p), [], None)
  }

  /** The part of a daemon that takes part in a merge, without secondary address. */
  class Station {
    const root: Host
    var primAddr: Host
    var primMask: nat
    var primMaskInicial: nat
    var rcvd: seq<Space>
    var rcvdOffered: Option<Host>
    var neighTable: seq<Host>
    var redNumero: nat
    var flagMezcla: bool
    var primMaskMezcla: nat
    var primAddrAux: Host

    ghost function State(): Merger
      reads this
    {
      Merger(Node(primAddr, primMask, primMaskInicial, rcvd, rcvdOffered, None),
             neighTable, redNumero, flagMezcla, primMaskMezcla, primAddrAux)
    }

    constructor (root: Host)
      ensures this.root == root
    {
      this.root := root;
      primAddr, primMask, primMaskInicial := root, 0, 0;
      rcvd, rcvdOffered, neighTable := [], None, [];
      redNumero, flagMezcla, primMaskMezcla, primAddrAux := 0, false, 0, root;
    }

    /** The loop of mezcla over the recovered list. */
    method ProposeMask() returns (mask: nat)
      modifies `rcvd
      ensures mask == ProposedMask(old(State()).node)
      ensures var i := FirstMasked(old(rcvd));
              rcvd == if i < |old(rcvd)| then Unlist(old(rcvd), old(rcvd)[i].addr) else old(rcvd)
    {
      mask := primMask;
      var i := 0;
      while i < |rcvd|
        invariant 0 <= i <= |rcvd| && rcvd == old(rcvd) && mask == primMask
        invariant FirstMasked(rcvd) == i + FirstMasked(rcvd[i..])
      {
        if rcvd[i].mask != 0 {
          mask := rcvd[i].mask - 1;
          rcvd := Unlist(rcvd, rcvd[i].addr);
          break;
        }
        i := i + 1;
      }
    }

    /** mezcla. */
    method Mezcla(dst: Host) returns (mar: Packet)
      modifies this
      ensures (State(), mar) == Proposal(old(State()), dst)
      ensures flagMezcla && primAddr == Default() && primAddrAux == old(primAddr) && neighTable == old(neighTable)
      ensures mar.kind == MAR1 && mar.src == old(primAddr) && mar.prim == Default() && mar.dst == dst && mar.red == redNumero
      ensures redNumero == old(redNumero) && primMask == old(primMask) && primMaskInicial == old(primMaskInicial)
    {
      var mask := ProposeMask();
      flagMezcla := true;
      primAddrAux := primAddr;
      primAddr := Default();
      mar := Packet(MAR1, primAddrAux, primAddr, dst, mask, redNumero, 0);
    }

    /** The loop that relabels the recovered entries. */
    method MoveRecovered(p: Packet)
      modifies `rcvd
      ensures rcvd == MovedAll(root, p, primMaskMezcla, old(rcvd))
    {
      for i := 0 to |rcvd|
        invariant |rcvd| == |old(rcvd)|
        invariant forall j | 0 <= j < |rcvd| ::
          rcvd[j] == if j < i then Moved(root, p, primMaskMezcla, old(rcvd)[j]) else old(rcvd)[j]
      {
        rcvd := rcvd[i := Moved(root, p, primMaskMezcla, rcvd[i])];
      }
    }

    /** The branch of that loop for the daemon's own parent. */
    method SendMar2(c: Turn, aux5: Host, e: Host, ghost w: Walk) returns (next: Host, mar: Packet)
      requires neighTable == w.table && primMask == w.mask && aux5 == w.aux5
      modifies `primMask, `neighTable
      ensures SendUp(c, w, e) == Walk(w.mars + [mar], neighTable, primMask, next)
    {
      next := Embedding.Mezcla(c.root, c.p.src, c.p.mask, c.mf, aux5);
      mar := Grant(c, e, next, w);
    }

    method Grant(c: Turn, e: Host, next: Host, ghost w: Walk) returns (mar: Packet)
      requires neighTable == w.table && primMask == w.mask
      modifies `primMask, `neighTable
      ensures GrantBuddy(c, w, e, next) == Walk(w.mars + [mar], neighTable, primMask, next)
    {
      primMask := (primMask + 1) % 256;
      mar := Packet(MAR2, next, c.own, e, primMask, c.p.red, 0);
      neighTable := Deleted(neighTable, e);
    }

    /** The neighbour loop of process_mar1. */
    method SendMars1(c: Turn) returns (mars: seq<Packet>)
      modifies `neighTable, `primMask
      ensures var w := Mar1Walk(c, Walk([], old(neighTable), old(primMask), c.own), old(neighTable));
              mars == w.mars && neighTable == w.table && primMask == w.mask
    {
      var walk, aux5 := neighTable, c.own;
      ghost var w0 := Walk([], neighTable, primMask, aux5);
      mars := [];
      for i := 0 to |walk|
        invariant Walk(mars, neighTable, primMask, aux5) == Mar1Walk(c, w0, walk[..i])
      {
        var e := walk[i];
        ghost var w := Mar1Walk(c, w0, walk[..i]);
        Mar1Step(c, w0, walk, i);
        if e != c.sender || c.monitor {
          if Farther(c, e) {
            mars := mars + [Packet(MAR1, c.p.src, c.own, e, c.p.mask, c.p.red, c.mf)];
            neighTable := Deleted(neighTable, e);
          } else {
            var mar;
            aux5, mar := SendMar2(c, aux5, e, w);
            mars := mars + [mar];
          }
        }
      }
      assert walk[..|walk|] == walk;
    }

    /** The start of process_mar1: the sender in the table, the shift, and the mask equations. */
    method StartMar1(p: Packet) returns (c: Turn)
      modifies this
      ensures State() == Masked(old(State()), p) && c == TurnOf(root, old(State()), p)
    {
      flagMezcla := true;
      var sender, monitor := p.prim, false;
      if p.prim == Default() {
        sender := p.src;
        monitor := sender in neighTable;
        if !monitor && neighTable != [] {
          neighTable := neighTable + [sender];
        }
        primMaskMezcla := primMaskInicial;
      } else {
        primMaskMezcla := p.shift;
      }
      redNumero := p.red;
      primMask := (primMask + p.mask - (primMaskMezcla - 1)) % 256;
      primMaskInicial := (p.mask + 1 + (primMaskInicial - primMaskMezcla)) % 256;
      c := Turn(root, primAddr, sender, monitor, p, primMaskMezcla);
    }

    /** process_mar1. */
    method ProcessMar1(p: Packet) returns (mars: seq<Packet>, man: Packet)
      modifies this
      ensures (State(), mars, man) == HearMar1(root, old(State()), p)
    {
      var loop := primMask != primMaskInicial || (p.prim == Default() && neighTable != []);
      var own := primAddr;
      var c := StartMar1(p);
      mars := [];
      if loop {
        mars := SendMars1(c);
      }
      man := Man1(own, p);
      if mars == [] {
        man := MoveNow(own, c.sender, p);
      }
    }

    /** The end of process_mar1 when no MAR was sent: the daemon takes its new address at once. */
    method MoveNow(own: Host, sender: Host, p: Packet) returns (man: Packet)
      requires sender == SenderOf(p)
      modifies this
      ensures var r, alone := old(State()), p.prim == Default() && old(neighTable) == [];
              var q := Settle(root, r, p);
              && State() == (if alone then q.(table := [sender]) else q)
              && man == Man1(if alone then q.node.addr else own, p)
    {
      man := Man1(own, p);
      var alone := p.prim == Default() && neighTable == [];
      if alone {
        neighTable := [sender];
      }
      primAddr := Embedding.Mezcla(root, p.src, p.mask, primMaskMezcla, primAddr);
      if alone {
        man := Man1(primAddr, p);
      }
      MoveRecovered(p);
      flagMezcla := false;
    }

    /** The neighbour loop of process_mar2. */
    method SendMars2(addr: Host, p: Packet) returns (mars: seq<Packet>)
      modifies `neighTable, `primMask
      ensures var w := Mar2Walk(primAddr, addr, p, Walk([], old(neighTable), old(primMask), addr), old(neighTable));
              mars == w.mars && neighTable == w.table && primMask == w.mask
    {
      var walk := neighTable;
      ghost var w0 := Walk([], neighTable, primMask, addr);
      mars := [];
      for i := 0 to |walk|
        invariant Walk(mars, neighTable, primMask, addr) == Mar2Walk(primAddr, addr, p, w0, walk[..i])
      {
        var e := walk[i];
        Mar2Step(primAddr, addr, p, w0, walk, i);
        if e != p.prim {
          primMask := (primMask + 1) % 256;
          mars := mars + [Packet(MAR2, addr, primAddr, e, primMask, p.red, 0)];
          neighTable := Deleted(neighTable, e);
        }
      }
      assert walk[..|walk|] == walk;
    }

    /** process_mar2. */
    method ProcessMar2(p: Packet) returns (mars: seq<Packet>, man: Packet)
      modifies this
      ensures (State(), mars, man) == HearMar2(old(State()), p)
      ensures man == Packet(MAN2, p.src, old(primAddr), p.prim, primMask, p.red, 0)
    {
      var loop := primMask != primMaskInicial;
      flagMezcla := true;
      redNumero := p.red;
      primMask := p.mask;
      primMaskInicial := primMask;
      var aux1 := BuddyOf(p.src, p.mask);
      mars := [];
      if loop {
        mars := SendMars2(aux1, p);
      }
      man := Packet(MAN2, p.src, primAddr, p.prim, primMask, redNumero, 0);
      if mars == [] {
        primAddr := aux1;
        rcvd := [];
        flagMezcla := false;
      }
    }

    /** process_man1. */
    method ProcessMan1(p: Packet)
      modifies this
      ensures State() == HearMan1(root, old(State()), p)
      ensures !old(flagMezcla) ==> State() == old(State())
      ensures old(flagMezcla) && old(primAddr) == Default() ==>
                && !flagMezcla && primAddr == old(primAddrAux) && rcvd == old(rcvd) && neighTable == old(neighTable)
                && primMask == if p.mask == old(primMask) then (old(primMask) + 1) % 256 else old(primMask)
    {
      if flagMezcla && primAddr == Default() {
        primAddr := primAddrAux;
        if p.mask == primMask {
          primMask := (primMask + 1) % 256;
        }
        flagMezcla := false;
      }
      if flagMezcla {
        primAddr := Embedding.Mezcla(root, p.src, p.mask, primMaskMezcla, primAddr);
        MoveRecovered(p);
        flagMezcla := false;
      }
    }

    /** process_man2. */
    method ProcessMan2(p: Packet)
      modifies this
      ensures State() == HearMan2(old(State()), p)
      ensures !old(flagMezcla) ==> State() == old(State())
      ensures old(flagMezcla) ==> primAddr == p.src && rcvd == [] && !flagMezcla
      ensures neighTable == old(neighTable) && primMask == old(primMask) && primMaskInicial == old(primMaskInicial)
    {
      if flagMezcla {
        primAddr := p.src;
        rcvd := [];
        flagMezcla := false;
      }
    }

    /** The MAR and MAN branches of antop_process_pkt. */
    method AntopProcessPkt(p: Packet) returns (mars: seq<Packet>, man: Option<Packet>)
      modifies this
      ensures (State(), mars, man) == Process(root, old(State()), p)
      ensures rcvdOffered == old(rcvdOffered)
      ensures p.kind in {MAR1, MAR2} && p.red == old(redNumero) && old(primAddr) != Default() ==>
                State() == old(State()) && mars == [] && man == None
      ensures p.kind == MAR1 && p.red == old(redNumero) && old(primAddr) == Default() ==>
                primAddr == old(primAddrAux) && !flagMezcla && mars == [] && man == None
      ensures p.kind == MAR1 && p.red != old(redNumero) && p.dst != old(primAddr) ==>
                State() == old(State()) && mars == [] && man == None
      ensures p.kind in {MAN1, MAN2} && p.red != old(redNumero) ==>
                State() == old(State()) && mars == [] && man == None
    {
      mars, man := [], None;
      match p.kind
      case MAR1 =>
        if p.red == redNumero && primAddr == Default() {
          primAddr := primAddrAux;
          flagMezcla := false;
        }
        if p.red != redNumero && p.dst == primAddr {
          var a;
          mars, a := ProcessMar1(p);
          man := Some(a);
        }
      case MAR2 =>
        if p.red != redNumero {
          var a;
          mars, a := ProcessMar2(p);
          man := Some(a);
        }
      case MAN1 =>
        if p.red == redNumero {
          ProcessMan1(p);
        }
      case MAN2 =>
        if p.red == redNumero {
          ProcessMan2(p);
        }
    }
  }
}
